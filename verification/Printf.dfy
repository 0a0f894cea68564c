/** printer_vprintf and vsnprintf: a format string and its arguments turned into
    characters, and cut to the size of a buffer. */
module Printf {
  import opened Bytes
  import opened Options
  import opened Numbuf

  /** One slot of the argument list: a 64-bit register, or a C string. */
  datatype Arg = Word(w: u64) | Text(s: string)

  /** `va_arg`; a slot that is missing or of the other kind is undefined in C and
      reads as 0 or "" here. */
  function WordAt(args: seq<Arg>, k: nat): u64 {
    if k < |args| && args[k].Word? then args[k].w else 0
  }

  function TextAt(args: seq<Arg>, k: nat): string {
    if k < |args| && args[k].Text? then CString(args[k].s) else ""
  }

  /** A C string ends before its first NUL. */
  function CString(s: string): (r: string)
    ensures r <= s && '\0' !in r
  {
    if s == [] || s[0] == '\0' then "" else [s[0]] + CString(s[1..])
  }

  datatype Flags = Flags(alt: bool, zero: bool, left: bool, space: bool, plus: bool)

  const NONE := Flags(false, false, false, false, false)

  predicate IsFlag(c: char) { c == '#' || c == '0' || c == '-' || c == ' ' || c == '+' }
  predicate IsDecimal(c: char) { '0' <= c <= '9' }

  function WithFlag(f: Flags, c: char): Flags
    requires IsFlag(c)
  {
    match c
    case '#' => f.(alt := true)
    case '0' => f.(zero := true)
    case '-' => f.(left := true)
    case ' ' => f.(space := true)
    case _ => f.(plus := true)
  }

  /** `*format`, with the terminating NUL. */
  function At(format: string, i: nat): char {
    if i < |format| then format[i] else '\0'
  }

  /** Where the flags, or the decimal digits, that begin at `i` end. */
  function FlagsEnd(format: string, i: nat): (j: nat)
    requires i <= |format|
    ensures i <= j <= |format| && (forall k :: i <= k < j ==> IsFlag(format[k])) && !IsFlag(At(format, j))
    decreases |format| - i
  {
    if i < |format| && IsFlag(format[i]) then FlagsEnd(format, i + 1) else i
  }

  function DigitsEnd(format: string, i: nat): (j: nat)
    requires i <= |format|
    ensures i <= j <= |format| && (forall k :: i <= k < j ==> IsDecimal(format[k])) && !IsDecimal(At(format, j))
    decreases |format| - i
  {
    if i < |format| && IsDecimal(format[i]) then DigitsEnd(format, i + 1) else i
  }

  /** The flags in force are those that occur. */
  function FlagsOf(s: string): Flags {
    Flags('#' in s, '0' in s, '-' in s, ' ' in s, '+' in s)
  }

  /** What the conversion character asks for. */
  datatype Conversion =
    | Number(num: u64, base: int, signed: bool, negative: bool, pointer: bool)
    | Chars(data: string)
    | Color

  /** A directive as it is written: its flags, the width and the precision (an argument
      for `*`), the length modifiers, the conversion character and the argument that is
      next. `next` is where the format goes on, `used` the argument after it. */
  datatype Spec = Spec(flags: Flags, width: Option<int>, precision: Option<int>, modifiers: string, letter: char,
                       word: u64, text: string, next: nat, used: nat)

  /** A directive as the code holds it. */
  datatype Directive = Directive(flags: Flags, width: int, precision: int, conversion: Conversion, next: nat, used: nat)

  predicate GoodConversion(c: Conversion) {
    c.Number? ==> c.base == 10 || c.base == 16 || c.base == -16
  }

  // ----- layout -----

  function Repeat(c: char, n: int): (s: string)
    ensures |s| == if n > 0 then n else 0
    ensures forall i :: 0 <= i < |s| ==> s[i] == c
  {
    if n <= 0 then "" else Repeat(c, n - 1) + [c]
  }

  function Data(c: Conversion): string
    requires GoodConversion(c) && !c.Color?
  {
    if c.Number? then Numeral(c.num, c.base) else CString(c.data)
  }

  function Prefix(f: Flags, c: Conversion): string
    requires GoodConversion(c)
  {
    if !c.Number? then ""
    else if c.signed then (if c.negative then "-" else if f.plus then "+" else if f.space then " " else "")
    else if (f.alt || c.pointer) && c.base != 10 && (c.num != 0 || c.pointer) then (if c.base == -16 then "0x" else "0X")
    else ""
  }

  /** The characters of the data that are printed: all of a number, at most
      `precision` of a string. */
  function Kept(precision: int, c: Conversion): string
    requires GoodConversion(c) && !c.Color?
  {
    var d := Data(c);
    if precision >= 0 && !c.Number? && precision < |d| then d[..precision] else d
  }

  /** Leading zeros: up to the precision, or else up to the width. */
  function Zeros(f: Flags, width: int, precision: int, c: Conversion): (z: nat)
    requires GoodConversion(c) && !c.Color?
  {
    var len := |Kept(precision, c)|;
    if !c.Number? then 0
    else if precision >= 0 then (if precision > len then precision - len else 0)
    else if f.zero && !f.left && len + |Prefix(f, c)| < width then width - len - |Prefix(f, c)|
    else 0
  }

  /** One field: padding, prefix, zeros and data. */
  function Field(f: Flags, width: int, precision: int, c: Conversion): string
    requires GoodConversion(c) && !c.Color?
  {
    var core := Prefix(f, c) + Repeat('0', Zeros(f, width, precision, c)) + Kept(precision, c);
    var pad := Repeat(' ', width - |core|);
    if f.left then core + pad else pad + core
  }

  // ----- parsing -----

  /** The width at `i`: digits that do not begin with 0, or `*`. */
  function WidthAt(format: string, i: nat, args: seq<Arg>, k: nat): (r: (Option<int>, nat, nat))
    requires i <= |format|
    ensures i <= r.1 <= |format|
  {
    if '1' <= At(format, i) <= '9' then
      (Option<int>.Some(Value(format[i..DigitsEnd(format, i)], 10)), DigitsEnd(format, i), k)
    else if At(format, i) == '*' then (Some(ToInt32(WordAt(args, k))), i + 1, k + 1)
    else (None, i, k)
  }

  /** The precision at `i`: a dot, and then digits or `*`; a dot alone stands for 0. */
  function PrecisionAt(format: string, i: nat, args: seq<Arg>, k: nat): (r: (Option<int>, nat, nat))
    requires i <= |format|
    ensures i <= r.1 <= |format|
  {
    if At(format, i) != '.' then (None, i, k)
    else if At(format, i + 1) == '*' then (Some(ToInt32(WordAt(args, k))), i + 2, k + 1)
    else (Option<int>.Some(Value(format[i + 1..DigitsEnd(format, i + 1)], 10)), DigitsEnd(format, i + 1), k)
  }

  /** Where the length modifiers at `i` end. */
  function ModifiersEnd(format: string, i: nat): (j: nat)
    requires i <= |format|
    ensures i <= j <= |format| && (forall m :: i <= m < j ==> format[m] == 'l' || format[m] == 'z')
    ensures At(format, j) != 'l' && At(format, j) != 'z'
    decreases |format| - i
  {
    if i < |format| && (format[i] == 'l' || format[i] == 'z') then ModifiersEnd(format, i + 1) else i
  }

  /** A signed argument: its magnitude on 64 bits and its sign. */
  function SignedArg(long: bool, w: u64): int {
    if long then Signed64(w) else ToInt32(w)
  }

  function UnsignedArg(long: bool, w: u64): u64 {
    if long then w else w % TWO32
  }

  function Magnitude(x: int): (m: u64)
    requires -TWO63 <= x < TWO63
  {
    if x < 0 then -x else x
  }

  /** The conversion that character `c` names, of the next argument `w` or `s`. */
  function ConversionOf(c: char, long: bool, w: u64, s: string): (r: Conversion)
    ensures GoodConversion(r)
  {
    match c
    case 'd' => var x := SignedArg(long, w); Number(Magnitude(x), 10, true, x < 0, false)
    case 'i' => var x := SignedArg(long, w); Number(Magnitude(x), 10, true, x < 0, false)
    case 'u' => Number(UnsignedArg(long, w), 10, false, false, false)
    case 'x' => Number(UnsignedArg(long, w), -16, false, false, false)
    case 'X' => Number(UnsignedArg(long, w), 16, false, false, false)
    case 'p' => Number(w, -16, false, false, true)
    case 's' => Chars(s)
    case 'C' => Color
    case 'c' => Chars([(w % 256) as char])
    case '\0' => Chars("%")
    case _ => Chars([c])
  }

  predicate TakesArgument(c: char) { c in "diuxXpsCc" }

  /** The directive whose `%` is just before `i`. */
  function SpecAt(format: string, i: nat, args: seq<Arg>, k: nat): (d: Spec)
    requires i <= |format|
    ensures i <= d.next <= |format| && k <= d.used
  {
    var flagsEnd := FlagsEnd(format, i);
    var (width, widthEnd, k1) := WidthAt(format, flagsEnd, args, k);
    var (precision, precisionEnd, k2) := PrecisionAt(format, widthEnd, args, k1);
    var at := ModifiersEnd(format, precisionEnd);
    var c := At(format, at);
    Spec(FlagsOf(format[i..flagsEnd]), width, precision, format[precisionEnd..at], c, WordAt(args, k2), TextAt(args, k2),
         if at < |format| then at + 1 else at, if TakesArgument(c) then k2 + 1 else k2)
  }

  /** The variables `width` and `precision` of the code. */
  function CodeWidth(width: Option<int>): int {
    if width.Some? then width.value else -1
  }

  function CodePrecision(precision: Option<int>): int {
    if precision.None? then -1 else if precision.value < 0 then 0 else precision.value
  }

  /** What the code makes of a directive. */
  function Coded(d: Spec): (r: Directive)
    ensures GoodConversion(r.conversion) && r.next == d.next && r.used == d.used
  {
    Directive(d.flags, CodeWidth(d.width), CodePrecision(d.precision),
              ConversionOf(d.letter, d.modifiers != "", d.word, d.text), d.next, d.used)
  }

  function Shown(d: Directive): string
    requires GoodConversion(d.conversion)
  {
    if d.conversion.Color? then "" else Field(d.flags, d.width, d.precision, d.conversion)
  }

  /** Everything the format prints from position `i` and argument `k` on. */
  function Render(format: string, i: nat, args: seq<Arg>, k: nat): string
    requires i <= |format|
    decreases |format| - i
  {
    if i == |format| then ""
    else if format[i] != '%' then [format[i]] + Render(format, i + 1, args, k)
    else
      var d := Coded(SpecAt(format, i + 1, args, k));
      Shown(d) + Render(format, d.next, args, d.used)
  }

  /** Text without directives prints as it is. */
  lemma {:induction false} RenderPlain(format: string, i: nat, args: seq<Arg>, k: nat)
    requires i <= |format| && '%' !in format[i..]
    ensures Render(format, i, args, k) == format[i..]
    decreases |format| - i
  {
    if i < |format| {
      assert format[i..] == [format[i]] + format[i + 1..];
      RenderPlain(format, i + 1, args, k);
    }
  }

  /** What a directive for a signed number prints reads back as its argument, and
      so does one for an unsigned number. */
  lemma {:induction false} ConversionReadsBack(f: Flags, width: int, precision: int, c: char, long: bool, w: u64)
    requires c in "diuxXp"
    ensures var conversion := ConversionOf(c, long, w, "");
      && conversion.Number?
      && ReadNumber(Field(f, width, precision, conversion), RadixOf(conversion.base)) ==
           if c in "di" then SignedArg(long, w) else if c == 'p' then w else UnsignedArg(long, w)
  {
    hide Field, ReadNumber;
    NumberReadsBack(f, width, precision, ConversionOf(c, long, w, ""));
  }

  // ----- what a field means -----

  lemma {:induction false} FieldLength(f: Flags, width: int, precision: int, c: Conversion)
    requires GoodConversion(c) && !c.Color?
    ensures var core := |Prefix(f, c)| + Zeros(f, width, precision, c) + |Kept(precision, c)|;
      && |Field(f, width, precision, c)| == (if width > core then width else core)
      && (c.Number? && precision >= 0 ==> Zeros(f, width, precision, c) + |Kept(precision, c)| >= precision)
      && (c.Number? && precision < 0 && f.zero && !f.left ==> |Field(f, width, precision, c)| == core)
  {
  }

  /** Without the spaces at its front. */
  function TrimLeft(s: string): (r: string)
    ensures r != [] ==> r[0] != ' '
  {
    if s != [] && s[0] == ' ' then TrimLeft(s[1..]) else s
  }

  function TrimRight(s: string): (r: string)
    ensures r != [] ==> r[|r| - 1] != ' '
  {
    if s != [] && s[|s| - 1] == ' ' then TrimRight(s[..|s| - 1]) else s
  }

  /** What a reader takes a number to be: an optional sign, an optional 0x, and digits. */
  function Parse(t: string, base: Radix): int {
    if t == [] then 0
    else if t[0] == '-' then -(Value(t[1..], base) as int)
    else if t[0] == '+' then Value(t[1..], base)
    else if |t| >= 2 && (t[1] == 'x' || t[1] == 'X') then Value(t[2..], base)
    else Value(t, base)
  }

  function ReadNumber(s: string, base: Radix): int {
    Parse(TrimLeft(TrimRight(s)), base)
  }

  lemma {:induction false} TrimBoth(n: int, s: string, m: int)
    requires s != [] && s[0] != ' ' && s[|s| - 1] != ' '
    ensures TrimLeft(TrimRight(Repeat(' ', n) + s + Repeat(' ', m))) == s
    decreases m
  {
    var t := Repeat(' ', n) + s + Repeat(' ', m);
    if m > 0 {
      TrimBoth(n, s, m - 1);
      assert t[..|t| - 1] == Repeat(' ', n) + s + Repeat(' ', m - 1);
    } else {
      assert t == Repeat(' ', n) + s;
      assert t[|t| - 1] == s[|s| - 1];
      TrimFront(n, s);
    }
  }

  lemma {:induction false} TrimFront(n: int, s: string)
    requires s != [] && s[0] != ' '
    ensures TrimLeft(Repeat(' ', n) + s) == s
    decreases n
  {
    var t := Repeat(' ', n) + s;
    if n > 0 {
      RepeatFirst(' ', n);
      assert t[1..] == Repeat(' ', n - 1) + s;
      TrimFront(n - 1, s);
    } else {
      assert t == s;
    }
  }

  lemma {:induction false} RepeatFirst(c: char, n: int)
    requires n > 0
    ensures Repeat(c, n)[1..] == Repeat(c, n - 1)
  {
  }

  lemma {:induction false} ZerosValue(z: nat, s: string, base: Radix)
    ensures Value(Repeat('0', z) + s, base) == Value(s, base)
    decreases z + |s|
  {
    var t := Repeat('0', z) + s;
    if s != [] {
      ZerosValue(z, s[..|s| - 1], base);
      assert t[..|t| - 1] == Repeat('0', z) + s[..|s| - 1];
    } else if z > 0 {
      ZerosValue(z - 1, [], base);
      assert t[..|t| - 1] == Repeat('0', z - 1) + [];
    } else {
      assert t == [];
    }
  }

  /** Nothing that a reader could take for padding, a sign or a prefix. */
  predicate Plain(s: string) {
    s != [] && forall i :: 0 <= i < |s| ==> PlainChar(s[i])
  }

  predicate PlainChar(c: char) {
    c != ' ' && c != '+' && c != '-' && c != 'x' && c != 'X'
  }

  lemma {:induction false} PlainDigits(z: nat, v: nat, base: Radix, upper: bool)
    ensures Plain(Repeat('0', z) + Digits(v, base, upper))
  {
    var d := Digits(v, base, upper);
    DigitsAreDigits(v, base, upper);
    forall i | 0 <= i < |d| ensures PlainChar(d[i]) {
      assert IsDigit(d[i], base, upper);
      var n :| 0 <= n < base && d[i] == DigitChar(n, upper);
      DigitCharValue(n, upper);
    }
    var s := Repeat('0', z) + d;
    forall i | 0 <= i < |s| ensures PlainChar(s[i]) {
      assert s[i] == if i < z then '0' else d[i - z];
    }
  }

  lemma {:induction false} TrimPadded(left: bool, p: string, plain: string, n: nat)
    requires Plain(plain) && (p == "" || p[0] != ' ')
    ensures TrimLeft(TrimRight(if left then p + plain + Repeat(' ', n) else Repeat(' ', n) + (p + plain))) == p + plain
  {
    var s := p + plain;
    assert s[|s| - 1] == plain[|plain| - 1];
    assert s[0] == if p == "" then plain[0] else p[0];
    if left {
      TrimBoth(0, s, n);
      assert Repeat(' ', 0) + s + Repeat(' ', n) == s + Repeat(' ', n);
    } else {
      TrimBoth(n, s, 0);
      assert Repeat(' ', n) + s + Repeat(' ', 0) == Repeat(' ', n) + s;
    }
  }

  lemma {:induction false} TrimSpaced(left: bool, plain: string, n: nat)
    requires Plain(plain)
    ensures TrimLeft(TrimRight(if left then " " + plain + Repeat(' ', n) else Repeat(' ', n) + (" " + plain))) == plain
  {
    OneSpace();
    SpacesJoin(n);
    if left {
      TrimBoth(1, plain, n);
    } else {
      TrimBoth(n + 1, plain, 0);
      assert Repeat(' ', n) + (" " + plain) == Repeat(' ', n + 1) + plain + Repeat(' ', 0);
    }
  }

  /** A printed field, its padding removed, is its prefix (a space counts as
      padding), its zeros and its data. */
  lemma {:induction false} FieldTrimmed(f: Flags, width: int, precision: int, c: Conversion)
    requires GoodConversion(c) && c.Number?
    ensures var plain := Repeat('0', Zeros(f, width, precision, c)) + Data(c);
      && Plain(plain)
      && TrimLeft(TrimRight(Field(f, width, precision, c))) == (if Prefix(f, c) == " " then "" else Prefix(f, c)) + plain
  {
    var z, p := Zeros(f, width, precision, c), Prefix(f, c);
    PlainDigits(z, c.num, RadixOf(c.base), c.base > 0);
    var plain := Repeat('0', z) + Data(c);
    assert Plain(plain);
    var n := width - |p + plain|;
    FieldParts(f, width, precision, c);
    RepeatNone(n);
    if p == " " {
      TrimSpaced(f.left, plain, if n > 0 then n else 0);
      assert "" + plain == plain;
    } else {
      TrimPadded(f.left, p, plain, if n > 0 then n else 0);
    }
  }

  lemma {:induction false} FieldParts(f: Flags, width: int, precision: int, c: Conversion)
    requires GoodConversion(c) && c.Number?
    ensures var core := Prefix(f, c) + (Repeat('0', Zeros(f, width, precision, c)) + Data(c));
      var pad := Repeat(' ', width - |core|);
      Field(f, width, precision, c) == if f.left then core + pad else pad + core
  {
    var p, z, d := Prefix(f, c), Repeat('0', Zeros(f, width, precision, c)), Data(c);
    assert p + z + d == p + (z + d);
  }

  lemma {:induction false} RepeatNone(n: int)
    ensures Repeat(' ', n) == Repeat(' ', if n > 0 then n else 0)
  {
  }

  lemma {:induction false} OneSpace()
    ensures Repeat(' ', 1) == " "
  {
    assert Repeat(' ', 0) == "";
  }

  lemma {:induction false} SpacesJoin(n: nat)
    ensures Repeat(' ', n + 1) == Repeat(' ', n) + " "
  {
  }

  lemma {:induction false} ParsePlain(p: string, plain: string, base: Radix)
    requires Plain(plain) && (p == "" || p == "-" || p == "+" || p == "0x" || p == "0X")
    ensures Parse(p + plain, base) == if p == "-" then -(Value(plain, base) as int) else Value(plain, base)
  {
    var t := p + plain;
    assert t[|p|..] == plain;
    if p == "" {
      assert t == plain && PlainChar(t[0]) && (|t| >= 2 ==> PlainChar(t[1]));
    } else if |p| == 1 {
      assert t[0] == p[0];
    } else {
      assert t[0] == p[0] && t[1] == p[1];
    }
  }

  /** A printed number reads back: whatever the flags, the width and the precision. */
  lemma {:induction false} NumberReadsBack(f: Flags, width: int, precision: int, c: Conversion)
    requires GoodConversion(c) && c.Number? && (c.negative ==> c.signed) && (c.signed ==> c.base == 10)
    ensures ReadNumber(Field(f, width, precision, c), RadixOf(c.base)) == if c.negative then -(c.num as int) else c.num
  {
    var z, b, upper := Zeros(f, width, precision, c), RadixOf(c.base), c.base > 0;
    FieldTrimmed(f, width, precision, c);
    ZerosValue(z, Digits(c.num, b, upper), b);
    DigitsValue(c.num, b, upper);
    ParsePlain(if Prefix(f, c) == " " then "" else Prefix(f, c), Repeat('0', z) + Data(c), b);
  }

  // ----- the code -----

  function Min(x: nat, y: nat): nat {
    if x < y then x else y
  }

  /** `string_printer`: what does not fit the buffer is dropped. */
  class StringPrinter {
    const s: array<char>
    const end: nat
    var pos: nat

    /** Everything printed, dropped or not. */
    ghost var out: string

    ghost predicate Valid()
      reads this, s
    {
      end < s.Length && pos == Min(|out|, end) && s[..pos] == out[..pos]
    }

    constructor (buffer: array<char>, size: nat)
      requires 0 < size <= buffer.Length
      ensures Valid() && s == buffer && end == size - 1 && pos == 0 && out == ""
    {
      s, end, pos := buffer, size - 1, 0;
      out := "";
    }

    method Putc(c: char)
      requires Valid()
      modifies this, s
      ensures Valid() && out == old(out) + [c]
      ensures s[end..] == old(s[end..])
    {
      if pos < end {
        s[pos] := c;
        pos := pos + 1;
      }
      out := out + [c];
    }
  }

  /** `for (; n > 0; --n) p->putc(p, c, color);` */
  method PutRepeat(p: StringPrinter, c: char, n: int)
    requires p.Valid()
    modifies p, p.s
    ensures p.Valid() && p.out == old(p.out) + Repeat(c, n)
    ensures p.s[p.end..] == old(p.s[p.end..])
  {
    var left := n;
    while left > 0
      invariant p.Valid() && (n > 0 ==> 0 <= left <= n) && (n <= 0 ==> left == n)
      invariant p.out == old(p.out) + Repeat(c, n - left)
      invariant p.s[p.end..] == old(p.s[p.end..])
    {
      p.Putc(c);
      left := left - 1;
    }
  }

  /** `for (; len > 0; ++data, --len) p->putc(p, *data, color);` */
  method PutString(p: StringPrinter, data: string, len: nat)
    requires p.Valid() && len <= |data|
    modifies p, p.s
    ensures p.Valid() && p.out == old(p.out) + data[..len]
    ensures p.s[p.end..] == old(p.s[p.end..])
  {
    for i := 0 to len
      invariant p.Valid() && p.out == old(p.out) + data[..i]
      invariant p.s[p.end..] == old(p.s[p.end..])
    {
      p.Putc(data[i]);
      assert data[..i + 1] == data[..i] + [data[i]];
    }
  }

  /** `data`, for a conversion: the numeral in the buffer, or the string itself. */
  method DataOf(c: Conversion) returns (data: string)
    requires GoodConversion(c) && !c.Color?
    ensures data == Data(c)
  {
    if c.Number? {
      var numbuf := new char[NUMBUFSIZ];
      var start := FillNumbuf(numbuf, c.num, c.base);
      data := numbuf[start..NUMBUFSIZ - 1];
    } else {
      data := CString(c.data);
    }
  }

  method PrefixOf(f: Flags, c: Conversion) returns (prefix: string)
    requires GoodConversion(c)
    ensures prefix == Prefix(f, c)
  {
    prefix := "";
    if c.Number? && c.signed {
      if c.negative {
        prefix := "-";
      } else if f.plus {
        prefix := "+";
      } else if f.space {
        prefix := " ";
      }
    } else if c.Number? && (f.alt || c.pointer) && (c.base == 16 || c.base == -16) && (c.num != 0 || c.pointer) {
      prefix := if c.base == -16 then "0x" else "0X";
    }
  }

  /** How many characters of the data, and how many zeros, a field has. */
  method Measure(f: Flags, width: int, precision: int, c: Conversion, data: string, prefix: string)
    returns (len: nat, zeros: nat)
    requires GoodConversion(c) && !c.Color? && data == Data(c) && prefix == Prefix(f, c)
    ensures len <= |data| && data[..len] == Kept(precision, c) && zeros == Zeros(f, width, precision, c)
  {
    if precision >= 0 && !c.Number? {
      len := if precision < |data| then precision else |data|;
    } else {
      len := |data|;
    }
    if c.Number? && precision >= 0 {
      zeros := if precision > len then precision - len else 0;
    } else if c.Number? && f.zero && !f.left && len + |prefix| < width {
      zeros := width - len - |prefix|;
    } else {
      zeros := 0;
    }
  }

  /** The five loops that print a field. */
  method PutParts(p: StringPrinter, left: bool, width: int, prefix: string, zeros: nat, data: string, len: nat)
    requires p.Valid() && len <= |data|
    modifies p, p.s
    ensures p.Valid() && p.s[p.end..] == old(p.s[p.end..])
    ensures var core := prefix + Repeat('0', zeros) + data[..len];
      p.out == old(p.out) + if left then core + Repeat(' ', width) else Repeat(' ', width) + core
  {
    if !left {
      PutRepeat(p, ' ', width);
    }
    PutString(p, prefix, |prefix|);
    PutRepeat(p, '0', zeros);
    PutString(p, data, len);
    if left {
      PutRepeat(p, ' ', width);
    }
  }

  /** The second half of the loop body: one field is laid out and printed. */
  method PutField(p: StringPrinter, f: Flags, width: int, precision: int, c: Conversion)
    requires p.Valid() && GoodConversion(c) && !c.Color?
    modifies p, p.s
    ensures p.Valid() && p.out == old(p.out) + Field(f, width, precision, c)
    ensures p.s[p.end..] == old(p.s[p.end..])
  {
    var data := DataOf(c);
    var prefix := PrefixOf(f, c);
    var len, zeros := Measure(f, width, precision, c, data, prefix);
    PutParts(p, f.left, width - (len + zeros + |prefix|), prefix, zeros, data, len);
  }

  lemma {:induction false} FlagsMore(s: string, c: char)
    requires IsFlag(c)
    ensures FlagsOf(s + [c]) == WithFlag(FlagsOf(s), c)
  {
  }

  method ParseFlags(format: string, i: nat) returns (flags: Flags, j: nat)
    requires i <= |format|
    ensures j == FlagsEnd(format, i) && flags == FlagsOf(format[i..j])
  {
    flags, j := NONE, i;
    while j < |format| && IsFlag(format[j])
      invariant i <= j <= |format| && FlagsEnd(format, i) == FlagsEnd(format, j) && flags == FlagsOf(format[i..j])
    {
      FlagsMore(format[i..j], format[j]);
      assert format[i..j + 1] == format[i..j] + [format[j]];
      flags, j := WithFlag(flags, format[j]), j + 1;
    }
  }

  lemma {:induction false} ValueMore(format: string, i: nat, j: nat)
    requires i <= j < |format| && IsDecimal(format[j])
    ensures Value(format[i..j + 1], 10) == 10 * Value(format[i..j], 10) + (format[j] as int - '0' as int)
  {
    var s := format[i..j + 1];
    assert s[..|s| - 1] == format[i..j] && s[|s| - 1] == format[j];
  }

  /** `for (n = 0; *format >= '0' && *format <= '9'; ) n = 10 * n + *format++ - '0';` */
  method ParseNumber(format: string, i: nat) returns (n: nat, j: nat)
    requires i <= |format|
    ensures j == DigitsEnd(format, i) && n == Value(format[i..j], 10)
  {
    n, j := 0, i;
    while j < |format| && IsDecimal(format[j])
      invariant i <= j <= |format| && DigitsEnd(format, i) == DigitsEnd(format, j) && n == Value(format[i..j], 10)
    {
      ValueMore(format, i, j);
      n, j := 10 * n + (format[j] as int - '0' as int), j + 1;
    }
  }

  method ParseWidth(format: string, i: nat, args: seq<Arg>, k: nat) returns (width: int, j: nat, k': nat)
    requires i <= |format|
    ensures var w := WidthAt(format, i, args, k); width == CodeWidth(w.0) && j == w.1 && k' == w.2
  {
    width, j, k' := -1, i, k;
    if '1' <= At(format, i) <= '9' {
      width, j := ParseNumber(format, i);
    } else if At(format, i) == '*' {
      width, j, k' := ToInt32(WordAt(args, k)), i + 1, k + 1;
    }
  }

  method ParsePrecision(format: string, i: nat, args: seq<Arg>, k: nat) returns (precision: int, j: nat, k': nat)
    requires i <= |format|
    ensures var p := PrecisionAt(format, i, args, k); precision == CodePrecision(p.0) && j == p.1 && k' == p.2
  {
    precision, j, k' := -1, i, k;
    if At(format, i) == '.' {
      j := i + 1;
      if IsDecimal(At(format, j)) {
        precision, j := ParseNumber(format, j);
      } else if At(format, j) == '*' {
        precision, j, k' := ToInt32(WordAt(args, k)), j + 1, k + 1;
      }
      if precision < 0 {
        precision := 0;
      }
    }
  }

  method ParseModifiers(format: string, i: nat) returns (length: bool, j: nat)
    requires i <= |format|
    ensures j == ModifiersEnd(format, i) && (length <==> j > i)
  {
    length, j := false, i;
    while j < |format| && (format[j] == 'l' || format[j] == 'z')
      invariant i <= j <= |format| && ModifiersEnd(format, i) == ModifiersEnd(format, j) && (length <==> j > i)
    {
      length, j := true, j + 1;
    }
  }

  /** The first half of the loop body: one directive is read. */
  method ParseDirective(format: string, i: nat, args: seq<Arg>, k: nat) returns (d: Directive)
    requires i <= |format|
    ensures d == Coded(SpecAt(format, i, args, k))
  {
    var flags, at := ParseFlags(format, i);
    var width, precision, k1;
    width, at, k1 := ParseWidth(format, at, args, k);
    precision, at, k1 := ParsePrecision(format, at, args, k1);
    var length;
    length, at := ParseModifiers(format, at);
    var c := At(format, at);
    var conversion := ConversionOf(c, length, WordAt(args, k1), TextAt(args, k1));
    d := Directive(flags, width, precision, conversion, if at < |format| then at + 1 else at,
                   if TakesArgument(c) then k1 + 1 else k1);
  }

  lemma {:induction false} PrintedOne(out: string, piece: string, rest: string)
    ensures out + (piece + rest) == (out + piece) + rest
  {
  }

  method PutDirective(p: StringPrinter, d: Directive)
    requires p.Valid() && GoodConversion(d.conversion)
    modifies p, p.s
    ensures p.Valid() && p.out == old(p.out) + Shown(d)
    ensures p.s[p.end..] == old(p.s[p.end..])
  {
    if d.conversion.Color? {
      assert p.out == p.out + "";
    } else {
      PutField(p, d.flags, d.width, d.precision, d.conversion);
    }
  }

  /** The loop body: one character or one directive. */
  method PutNext(p: StringPrinter, format: string, i: nat, args: seq<Arg>, k: nat) returns (i': nat, k': nat)
    requires p.Valid() && i < |format|
    modifies p, p.s
    ensures p.Valid() && i < i' <= |format|
    ensures p.out + Render(format, i', args, k') == old(p.out) + Render(format, i, args, k)
    ensures p.s[p.end..] == old(p.s[p.end..])
  {
    if format[i] != '%' {
      p.Putc(format[i]);
      i', k' := i + 1, k;
      PrintedOne(old(p.out), [format[i]], Render(format, i', args, k'));
    } else {
      var d := ParseDirective(format, i + 1, args, k);
      PutDirective(p, d);
      i', k' := d.next, d.used;
      PrintedOne(old(p.out), Shown(d), Render(format, i', args, k'));
    }
  }

  method PrinterVprintf(p: StringPrinter, format: string, args: seq<Arg>)
    requires p.Valid() && p.out == ""
    modifies p, p.s
    ensures p.Valid() && p.out == Render(format, 0, args, 0)
    ensures p.s[p.end..] == old(p.s[p.end..])
  {
    var i: nat, k: nat := 0, 0;
    while i < |format|
      invariant i <= |format| && p.Valid() && p.out + Render(format, i, args, k) == Render(format, 0, args, 0)
      invariant p.s[p.end..] == old(p.s[p.end..])
      decreases |format| - i
    {
      i, k := PutNext(p, format, i, args, k);
    }
    assert p.out + "" == p.out;
  }

  /** Stores the longest prefix of the output that leaves room for the NUL, then the
      NUL; returns how many characters it stored. */
  method Vsnprintf(s: array<char>, size: nat, format: string, args: seq<Arg>) returns (n: nat)
    requires size <= s.Length
    modifies s
    ensures size == 0 ==> n == 0 && s[..] == old(s[..])
    ensures n == |Render(format, 0, args, 0)| <==> |Render(format, 0, args, 0)| < size || Render(format, 0, args, 0) == ""
    ensures size > 0 ==> var full := Render(format, 0, args, 0);
      && n == Min(|full|, size - 1) && s[..n] == full[..n] && s[n] == '\0'
      && forall x :: size <= x < s.Length ==> s[x] == old(s[x])
  {
    if size == 0 {
      return 0;
    }
    var p := new StringPrinter(s, size);
    PrinterVprintf(p, format, args);
    n := p.pos;
    ghost var rest := s[size - 1..];
    s[n] := '\0';
    forall x | size <= x < s.Length ensures s[x] == old(s[x]) {
      assert s[x] == rest[x - (size - 1)] && old(s[size - 1..])[x - (size - 1)] == old(s[x]);
    }
  }
}
