/** What the C standard says a directive prints (section 7.21.6.1 of ISO/IEC
    9899:2011), and exactly when the code prints that. */
module PrintfStandard {
  import opened Bytes
  import opened Options
  import opened Numbuf
  import opened Printf
  import opened PrintfGrammar

  predicate IsInteger(c: char) { c == 'd' || c == 'i' || c == 'u' || c == 'x' || c == 'X' }

  /** The directives that the standard defines, among those whose conversion character the
      code interprets: `#` is for x and X only, 0 for the integers, a precision for the
      integers and s, and the length modifiers l, ll and z for the integers. */
  predicate Defined(d: Spec) {
    if IsInteger(d.letter) then
      && (d.flags.alt ==> d.letter == 'x' || d.letter == 'X')
      && (d.modifiers == "" || d.modifiers == "l" || d.modifiers == "ll" || d.modifiers == "z")
    else
      && !d.flags.alt && !d.flags.zero && d.modifiers == ""
      && (d.letter == 's' || d.precision.None?)
      && (d.letter == 's' || d.letter == 'c' || d.letter == 'p'
          || (d.letter == '%' && d.flags == NONE && d.width.None?))
  }

  // ----- the standard -----

  /** A negative width is a minus flag and a positive width. */
  function LeftJustified(d: Spec): bool {
    d.flags.left || (d.width.Some? && d.width.value < 0)
  }

  function MinimumWidth(d: Spec): nat {
    if d.width.None? then 0 else if d.width.value < 0 then -d.width.value else d.width.value
  }

  /** A negative precision is taken as if it were omitted. */
  predicate HasPrecision(d: Spec) {
    d.precision.Some? && d.precision.value >= 0
  }

  /** The value of the argument, as the integer type that the directive names. */
  function ArgumentOf(d: Spec): int
    requires IsInteger(d.letter)
  {
    var long := d.modifiers != "";
    if d.letter == 'd' || d.letter == 'i' then SignedArg(long, d.word) else UnsignedArg(long, d.word)
  }

  function Abs(x: int): nat { if x < 0 then -x else x }

  /** The digits: at least as many as the precision says, by default one; so no digit
      for the value 0 with the precision 0. */
  function StandardDigits(d: Spec): string
    requires IsInteger(d.letter)
  {
    var x := Abs(ArgumentOf(d));
    var digits := if x == 0 then "" else Digits(x, if d.letter == 'x' || d.letter == 'X' then 16 else 10, d.letter != 'x');
    var least: nat := if HasPrecision(d) then d.precision.value else 1;
    Repeat('0', least - |digits|) + digits
  }

  function StandardPrefix(d: Spec): string
    requires IsInteger(d.letter)
  {
    if d.letter == 'd' || d.letter == 'i' then
      if ArgumentOf(d) < 0 then "-" else if d.flags.plus then "+" else if d.flags.space then " " else ""
    else if d.flags.alt && ArgumentOf(d) != 0 then ['0', d.letter]
    else ""
  }

  /** The converted value before it is padded with spaces. The 0 flag, which the minus flag
      and a precision cancel, pads with zeros after the sign or base. How a pointer is
      printed is left to the implementation: 0x and its hexadecimal digits. */
  function Converted(d: Spec): string
    requires Defined(d)
  {
    if IsInteger(d.letter) then
      var prefix, digits := StandardPrefix(d), StandardDigits(d);
      var zeros :=
        if d.flags.zero && !LeftJustified(d) && !HasPrecision(d) then MinimumWidth(d) - |prefix| - |digits| else 0;
      prefix + Repeat('0', zeros) + digits
    else if d.letter == 's' then
      var s := CString(d.text);
      if HasPrecision(d) && d.precision.value < |s| then s[..d.precision.value] else s
    else if d.letter == 'c' then [(d.word % 256) as char]
    else if d.letter == 'p' then "0x" + Digits(d.word, 16, false)
    else "%"
  }

  function StandardShown(d: Spec): string
    requires Defined(d)
  {
    var s := Converted(d);
    var pad := Repeat(' ', MinimumWidth(d) - |s|);
    if LeftJustified(d) then s + pad else pad + s
  }

  /** The argument is the machine word read as an int, an unsigned int, a long or an unsigned
      long: congruent to it modulo 2^32 or 2^64, and in the range of its type. */
  lemma {:induction false} ArgumentMeaning(d: Spec)
    requires Defined(d) && IsInteger(d.letter)
    ensures var x := ArgumentOf(d);
      if d.modifiers == "" then
        && (x - d.word) % 0x1_0000_0000 == 0
        && (if d.letter == 'd' || d.letter == 'i' then -0x8000_0000 <= x < 0x8000_0000 else 0 <= x < 0x1_0000_0000)
      else
        && (x - d.word) % 0x1_0000_0000_0000_0000 == 0
        && (if d.letter == 'd' || d.letter == 'i' then -0x8000_0000_0000_0000 <= x < 0x8000_0000_0000_0000 else 0 <= x)
  {
    Congruent(d.word);
  }

  lemma {:induction false} Congruent(w: u64)
    ensures (ToInt32(w) - w) % TWO32 == 0 && (w % TWO32 - w) % TWO32 == 0 && (Signed64(w) - w) % TWO64 == 0
  {
    var q := w / TWO32;
    assert w == TWO32 * q + w % TWO32;
    assert w % TWO32 - w == TWO32 * -q;
    assert w % TWO32 - TWO32 - w == TWO32 * (-q - 1);
  }

  /** Every conversion takes one argument, but %% none. */
  lemma {:induction false} ArgumentTaken(d: Spec)
    requires Defined(d)
    ensures TakesArgument(d.letter) <==> d.letter != '%'
  {
  }

  /** The digits of x are small letters, those of X capitals. */
  lemma {:induction false} HexCase(d: Spec)
    requires Defined(d) && (d.letter == 'x' || d.letter == 'X')
    ensures forall i :: 0 <= i < |Data(Coded(d).conversion)| ==>
      var c := Data(Coded(d).conversion)[i];
      '0' <= c <= '9' || if d.letter == 'x' then 'a' <= c <= 'f' else 'A' <= c <= 'F'
  {
    DigitsCase(Coded(d).conversion.num, 16, d.letter == 'X');
  }

  /** Which flag each character is. */
  lemma {:induction false} FlagCharacters(s: string)
    ensures FlagsOf(s).alt <==> exists i :: 0 <= i < |s| && s[i] == '#'
    ensures FlagsOf(s).zero <==> exists i :: 0 <= i < |s| && s[i] == '0'
    ensures FlagsOf(s).left <==> exists i :: 0 <= i < |s| && s[i] == '-'
    ensures FlagsOf(s).space <==> exists i :: 0 <= i < |s| && s[i] == ' '
    ensures FlagsOf(s).plus <==> exists i :: 0 <= i < |s| && s[i] == '+'
  {
  }

  /** A character that names no conversion prints as itself, and a % at the end of the format
      as %; C and its argument print nothing. */
  lemma {:induction false} OtherCharacters(d: Spec)
    requires d.flags == NONE && d.width.None? && d.precision.None?
    ensures d.letter == 'C' ==> Shown(Coded(d)) == ""
    ensures d.letter == '\0' ==> Shown(Coded(d)) == "%"
    ensures d.letter != '\0' && d.letter !in "diuxXpsCc" ==> Shown(Coded(d)) == [d.letter]
  {
    if d.letter != 'C' && d.letter !in "diuxXpsc" {
      var c := if d.letter == '\0' then '%' else d.letter;
      assert Coded(d).conversion == Chars([c]);
      OneChar(c);
      assert Field(NONE, -1, -1, Chars([c])) == "" + ("" + "" + [c]);
    }
  }

  // ----- when the code meets it -----

  predicate NegativeWidth(d: Spec) { d.width.Some? && d.width.value < 0 }
  predicate NegativePrecision(d: Spec) { d.precision.Some? && d.precision.value < 0 }

  /** What the code prints of the directive before it pads with spaces. */
  function Core(d: Spec): string
    requires Defined(d)
  {
    var c := Coded(d);
    Prefix(c.flags, c.conversion) + Repeat('0', Zeros(c.flags, c.width, c.precision, c.conversion))
      + Kept(c.precision, c.conversion)
  }

  predicate Blank(s: string) { forall i :: 0 <= i < |s| ==> s[i] == ' ' }

  /** The code departs from the standard for a value 0 with precision 0, for a negative width
      that would pad, for a negative precision that lets the 0 flag pad or that keeps a
      string, and for the character NUL. */
  predicate Conforms(d: Spec)
    requires Defined(d)
  {
    && (NegativeWidth(d) ==> MinimumWidth(d) <= |Core(d)|)
    && (IsInteger(d.letter) ==>
          && !(ArgumentOf(d) == 0 && d.precision == Some(0))
          && !(NegativePrecision(d) && d.flags.zero && !d.flags.left && d.width.Some? && |Core(d)| < d.width.value))
    && (d.letter == 's' && NegativePrecision(d) ==> Blank(CString(d.text)) && |CString(d.text)| <= MinimumWidth(d))
    && (d.letter == 'c' ==> d.word % 256 != 0)
  }

  /** The three ways in which the code itself pads or trims otherwise. */
  predicate NoDigits(d: Spec)
    requires Defined(d)
  {
    IsInteger(d.letter) && ArgumentOf(d) == 0 && d.precision == Some(0)
  }

  predicate LosesZeros(d: Spec)
    requires Defined(d)
  {
    IsInteger(d.letter) && NegativePrecision(d) && d.flags.zero && !d.flags.left
      && d.width.Some? && |Core(d)| < d.width.value
  }

  predicate LosesText(d: Spec)
    requires Defined(d)
  {
    (d.letter == 's' && NegativePrecision(d)) || (d.letter == 'c' && d.word % 256 == 0)
  }

  lemma {:induction false} RepeatPlus(c: char, n: nat)
    ensures Repeat(c, n + 1) == Repeat(c, n) + [c]
  {
  }

  lemma {:induction false} ShownIsCore(d: Spec)
    requires Defined(d)
    ensures var pad := Repeat(' ', CodeWidth(d.width) - |Core(d)|);
      Shown(Coded(d)) == if d.flags.left then Core(d) + pad else pad + Core(d)
  {
  }

  lemma {:induction false} SameArgument(d: Spec)
    requires Defined(d) && IsInteger(d.letter)
    ensures var c := Coded(d).conversion;
      && c.Number? && c.num == Abs(ArgumentOf(d)) && !c.pointer
      && (c.signed <==> d.letter == 'd' || d.letter == 'i') && (c.signed ==> (c.negative <==> ArgumentOf(d) < 0))
      && c.base == (if d.letter == 'x' then -16 else if d.letter == 'X' then 16 else 10)
      && Prefix(d.flags, c) == StandardPrefix(d)
  {
  }

  /** With a precision that is not omitted, or a value that is not 0, the code's zeros and
      digits are the standard's. */
  lemma {:induction false} SameDigits(d: Spec)
    requires Defined(d) && IsInteger(d.letter) && !NoDigits(d)
    ensures var c := Coded(d);
      var z := if HasPrecision(d) then d.precision.value - |Data(c.conversion)| else 0;
      StandardDigits(d) == Repeat('0', z) + Data(c.conversion)
  {
    SameArgument(d);
    var c := Coded(d);
    var data := Data(c.conversion);
    if ArgumentOf(d) == 0 {
      assert data == "0";
      var least := if HasPrecision(d) then d.precision.value else 1;
      RepeatPlus('0', least - 1);
      assert Repeat('0', least) + "" == Repeat('0', least);
    } else {
      assert "" + data == data;
    }
  }

  lemma {:induction false} Regroup(x: string, y: string, z: string)
    ensures (x + y) + z == x + (y + z) && x + "" == x && "" + z == z
  {
  }

  /** The zeros of the code come before its digits, those of the standard are part of the
      digits or come before them: where there are both, one of them is none. */
  lemma {:induction false} IntegerCore(d: Spec)
    requires Defined(d) && IsInteger(d.letter) && !NoDigits(d) && !LosesZeros(d)
    ensures Core(d) == Converted(d)
  {
    hide StandardDigits, StandardPrefix, Data, Prefix, ArgumentOf, ConversionOf;
    SameArgument(d);
    SameDigits(d);
    var c := Coded(d);
    var data, prefix := Data(c.conversion), StandardPrefix(d);
    var z := Repeat('0', Zeros(c.flags, c.width, c.precision, c.conversion));
    assert Core(d) == (prefix + z) + data;
    Regroup(prefix, z, data);
    Regroup(prefix, "", z + data);
    Regroup("", "", data);
  }

  lemma {:induction false} PointerCore(d: Spec)
    requires Defined(d) && d.letter == 'p'
    ensures Core(d) == Converted(d)
  {
    var c := Coded(d);
    assert Prefix(c.flags, c.conversion) == "0x";
    assert Kept(c.precision, c.conversion) == Digits(d.word, 16, false);
    assert "0x" + "" + Digits(d.word, 16, false) == "0x" + Digits(d.word, 16, false);
  }

  lemma {:induction false} TextCore(d: Spec)
    requires Defined(d) && !IsInteger(d.letter) && d.letter != 'p'
    ensures Core(d) == Kept(CodePrecision(d.precision), Coded(d).conversion)
  {
    var kept := Kept(CodePrecision(d.precision), Coded(d).conversion);
    assert Core(d) == "" + "" + kept == kept;
  }

  lemma {:induction false} OtherCore(d: Spec)
    requires Defined(d) && !IsInteger(d.letter) && !LosesText(d)
    ensures Core(d) == Converted(d)
  {
    if d.letter == 'p' {
      PointerCore(d);
    } else {
      TextCore(d);
      OneChar(if d.letter == 'c' then (d.word % 256) as char else '%');
    }
  }

  lemma {:induction false} OneChar(c: char)
    ensures c != '\0' ==> CString([c]) == [c]
    ensures c == '\0' ==> CString([c]) == []
  {
    assert [c][1..] == [];
  }

  /** With the same converted value, only a negative width that would pad makes a difference. */
  lemma {:induction false} SameCoreShown(d: Spec)
    requires Defined(d) && Core(d) == Converted(d)
    ensures Shown(Coded(d)) == StandardShown(d) <==> (NegativeWidth(d) ==> MinimumWidth(d) <= |Core(d)|)
  {
    ShownIsCore(d);
    var core := Core(d);
    var pad, pad' := Repeat(' ', CodeWidth(d.width) - |core|), Repeat(' ', MinimumWidth(d) - |core|);
    if NegativeWidth(d) {
      assert |StandardShown(d)| == |core| + |pad'| && |Shown(Coded(d))| == |core|;
      if pad' == "" { assert core + "" == core == "" + core; }
    } else {
      assert pad == pad';
    }
  }

  predicate HasZero(s: string) { exists i :: 0 <= i < |s| && s[i] == '0' }

  lemma {:induction false} CodePrintsZero(d: Spec)
    requires Defined(d) && NoDigits(d)
    ensures HasZero(Shown(Coded(d)))
  {
    SameArgument(d);
    ShownIsCore(d);
    var shown, core := Shown(Coded(d)), Core(d);
    assert Data(Coded(d).conversion) == "0";
    assert core[|core| - 1] == '0';
    var pad := Repeat(' ', CodeWidth(d.width) - |core|);
    assert shown[|core| - 1 + if d.flags.left then 0 else |pad|] == '0';
  }

  lemma {:induction false} StandardPrintsNone(d: Spec)
    requires Defined(d) && NoDigits(d)
    ensures !HasZero(StandardShown(d))
  {
    assert StandardDigits(d) == "";
    assert Converted(d) == StandardPrefix(d);
  }

  /** No digit is printed for the standard, and one by the code. */
  lemma {:induction false} NoDigitsShown(d: Spec)
    requires Defined(d) && NoDigits(d)
    ensures Shown(Coded(d)) != StandardShown(d)
  {
    CodePrintsZero(d);
    StandardPrintsNone(d);
  }

  /** The standard prints a zero where the code prints padding or a sign. */
  lemma {:induction false} LosesZerosShown(d: Spec)
    requires Defined(d) && LosesZeros(d)
    ensures Shown(Coded(d)) != StandardShown(d)
  {
    SameArgument(d);
    SameDigits(d);
    ShownIsCore(d);
    var c := Coded(d);
    var data, prefix := Data(c.conversion), StandardPrefix(d);
    assert Core(d) == prefix + "" + data;
    assert StandardDigits(d) == "" + data == data;
    var pad := Repeat(' ', d.width.value - |Core(d)|);
    assert Shown(c) == pad + Core(d);
    assert Converted(d) == prefix + Repeat('0', |pad|) + data;
    assert StandardShown(d) == "" + Converted(d) == Converted(d);
    if |prefix| == 1 {
      assert Converted(d)[1] == '0';
      assert Shown(c)[1] == if |pad| > 1 then ' ' else prefix[0];
    } else {
      assert Converted(d)[0] == '0';
      assert Shown(c)[0] == ' ';
    }
  }

  lemma {:induction false} BlankRepeat(s: string)
    requires Blank(s)
    ensures s == Repeat(' ', |s|)
  {
  }

  lemma {:induction false} RepeatSum(c: char, m: nat, n: nat)
    ensures Repeat(c, m) + Repeat(c, n) == Repeat(c, m + n)
  {
  }

  lemma {:induction false} PaddedBlank(s: string, left: bool, w: nat)
    ensures Repeat(' ', w) == (if left then s + Repeat(' ', w - |s|) else Repeat(' ', w - |s|) + s) <==>
            Blank(s) && |s| <= w
  {
    var pad := Repeat(' ', w - |s|);
    var padded := if left then s + pad else pad + s;
    if |s| <= w && Blank(s) {
      BlankRepeat(s);
      RepeatSum(' ', |s|, w - |s|);
      RepeatSum(' ', w - |s|, |s|);
    } else if |s| <= w {
      var i :| 0 <= i < |s| && s[i] != ' ';
      assert padded[if left then i else |pad| + i] == s[i];
    }
  }

  /** A string that a negative precision cuts to nothing is missed unless it is blank and
      no longer than the padding; a NUL is always missed. */
  lemma {:induction false} LosesTextShown(d: Spec)
    requires Defined(d) && LosesText(d)
    ensures Shown(Coded(d)) == StandardShown(d) <==>
      d.letter == 's' && !NegativeWidth(d) && Blank(CString(d.text)) && |CString(d.text)| <= MinimumWidth(d)
  {
    LosesTextCore(d);
    if NegativeWidth(d) {
      assert |StandardShown(d)| >= MinimumWidth(d) > 0;
    } else {
      PaddedBlank(Converted(d), d.flags.left, MinimumWidth(d));
    }
  }

  lemma {:induction false} LosesTextCore(d: Spec)
    requires Defined(d) && LosesText(d)
    ensures Core(d) == "" && Shown(Coded(d)) == Repeat(' ', CodeWidth(d.width))
    ensures d.letter == 'c' ==> Converted(d) == "\0" && !Blank(Converted(d))
    ensures d.letter == 's' ==> Converted(d) == CString(d.text)
  {
    ShownIsCore(d);
    OneChar('\0');
    if d.letter == 'c' { assert Converted(d)[0] == '\0'; }
  }

  /** For every directive that the standard defines, every argument and every width and
      precision: the code prints what the standard says exactly when `Conforms` holds. */
  lemma {:induction false} ShownConforms(d: Spec)
    requires Defined(d)
    ensures Shown(Coded(d)) == StandardShown(d) <==> Conforms(d)
  {
    if NoDigits(d) {
      NoDigitsShown(d);
    } else if LosesZeros(d) {
      LosesZerosShown(d);
    } else if LosesText(d) {
      LosesTextShown(d);
      OneChar('\0');
      assert |Core(d)| == 0;
    } else {
      if IsInteger(d.letter) { IntegerCore(d); } else { OtherCore(d); }
      SameCoreShown(d);
    }
  }

  // ----- three directives for which it does not hold -----

  lemma {:induction false} Digits42(upper: bool)
    ensures Digits(42, 10, upper) == "42" && Digits(0, 10, upper) == "0"
  {
    assert Digits(4, 10, upper) == "4";
  }

  lemma {:induction false} ValueOne(c: char)
    requires '0' <= c <= '9'
    ensures Value([c], 10) == c as int - '0' as int
  {
    assert [c][..0] == "";
  }

  lemma {:induction false} ThreeOf(c: char)
    ensures Repeat(c, 3) == [c, c, c]
  {
    assert Repeat(c, 1) == [c];
    assert Repeat(c, 2) == [c, c];
  }

  /** How the three are written. */
  lemma {:induction false} Texts(zero: string, five: string)
    requires zero == "0" && five == "5"
    ensures Write("", Absent, Written(zero), "", 'd') == ".0d"
    ensures Write(zero, Written(five), Star, "", 'd') == "05.*d"
    ensures Write("", Star, Absent, "", 'd') == "*d"
  {
  }

  /** The value 0 with the precision 0 is no digit, and the code prints one: `%.0d` of 0. */
  lemma {:induction false} ZeroPrecisionDiffers(format: string, i: nat, j: nat, args: seq<Arg>, k: nat) returns (d: Spec)
    requires PieceAt(format, i, j, ".0d") && WordAt(args, k) == 0
    ensures d == SpecAt(format, i, args, k)
    ensures Defined(d) && Shown(Coded(d)) == "0" && StandardShown(d) == ""
  {
    Texts("0", "5");
    ValueOne('0');
    DirectiveRead(format, i, j, "", Absent, Written("0"), "", 'd', args, k);
    d := SpecAt(format, i, args, k);
    ZeroPrecisionShown(d);
  }

  lemma {:induction false} ZeroPrecisionShown(d: Spec)
    requires d.letter == 'd' && d.modifiers == "" && d.word == 0
    requires d.flags == NONE && d.width.None? && d.precision == Some(0)
    ensures Defined(d) && Shown(Coded(d)) == "0" && StandardShown(d) == ""
  {
    Decimal(d);
  }

  /** A negative precision is none, so the 0 flag counts; for the code it is 0, and the flag
      does not: `%05.*d` of -5 and 42. */
  lemma {:induction false} NegativePrecisionDiffers(format: string, i: nat, j: nat, args: seq<Arg>, k: nat) returns (d: Spec)
    requires PieceAt(format, i, j, "05.*d") && ToInt32(WordAt(args, k)) == -5 && WordAt(args, k + 1) == 42
    ensures d == SpecAt(format, i, args, k)
    ensures Defined(d) && Shown(Coded(d)) == "   42" && StandardShown(d) == "00042"
  {
    d := SpecAt(format, i, args, k);
    var zero, five := "0", "5";
    ZeroFlagText(zero, five);
    ZeroFlagRead(format, i, j, zero, five, args, k);
    ZeroFlagCode(d);
    ZeroFlagStandard(d);
  }

  predicate ZeroFlagSpec(d: Spec) {
    && d.letter == 'd' && d.modifiers == "" && d.word == 42
    && d.flags == NONE.(zero := true) && d.width == Some(5) && d.precision == Some(-5)
  }

  lemma {:induction false} ZeroFlagText(zero: string, five: string)
    requires zero == "0" && five == "5"
    ensures Write(zero, Written(five), Star, "", 'd') == "05.*d"
    ensures FlagsOf(zero) == NONE.(zero := true) && Value(five, 10) == 5
    ensures Grammatical(zero, Written(five), Star, "", 'd')
  {
    Texts(zero, five);
    ValueOne('5');
  }

  lemma {:induction false} ZeroFlagRead(format: string, i: nat, j: nat, flags: string, digits: string,
                                        args: seq<Arg>, k: nat)
    requires Grammatical(flags, Written(digits), Star, "", 'd')
    requires FlagsOf(flags) == NONE.(zero := true) && Value(digits, 10) == 5
    requires PieceAt(format, i, j, Write(flags, Written(digits), Star, "", 'd'))
    requires ToInt32(WordAt(args, k)) == -5 && WordAt(args, k + 1) == 42
    ensures ZeroFlagSpec(SpecAt(format, i, args, k))
  {
    DirectiveRead(format, i, j, flags, Written(digits), Star, "", 'd', args, k);
    assert AmountValue(Written(digits), args, k) == Some(5) && AmountUsed(Written(digits), k) == k;
    assert AmountValue(Star, args, k) == Some(-5) && AmountUsed(Star, k) == k + 1;
  }

  lemma {:induction false} ZeroFlagCode(d: Spec)
    requires ZeroFlagSpec(d)
    ensures Defined(d) && Shown(Coded(d)) == "   42"
  {
    Decimal(d);
    ThreeOf(' ');
    assert Core(d) == "42";
    ShownIsCore(d);
  }

  lemma {:induction false} ZeroFlagStandard(d: Spec)
    requires ZeroFlagSpec(d) && Defined(d)
    ensures StandardShown(d) == "00042"
  {
    Decimal(d);
    ThreeOf('0');
    assert StandardDigits(d) == "42";
    assert Converted(d) == "000" + "42";
  }

  /** A negative width is a minus flag; for the code it is no width: `%*d` of -5 and 42. */
  lemma {:induction false} NegativeWidthDiffers(format: string, i: nat, j: nat, args: seq<Arg>, k: nat) returns (d: Spec)
    requires PieceAt(format, i, j, "*d") && ToInt32(WordAt(args, k)) == -5 && WordAt(args, k + 1) == 42
    ensures d == SpecAt(format, i, args, k)
    ensures Defined(d) && Shown(Coded(d)) == "42" && StandardShown(d) == "42   "
  {
    Texts("0", "5");
    DirectiveRead(format, i, j, "", Star, Absent, "", 'd', args, k);
    d := SpecAt(format, i, args, k);
    NegativeWidthCode(d);
    NegativeWidthStandard(d);
  }

  predicate NegativeWidthSpec(d: Spec) {
    && d.letter == 'd' && d.modifiers == "" && d.word == 42
    && d.flags == NONE && d.width == Some(-5) && d.precision.None?
  }

  lemma {:induction false} NegativeWidthCode(d: Spec)
    requires NegativeWidthSpec(d)
    ensures Defined(d) && Shown(Coded(d)) == "42"
  {
    Decimal(d);
    assert Core(d) == "42";
    ShownIsCore(d);
  }

  lemma {:induction false} NegativeWidthStandard(d: Spec)
    requires NegativeWidthSpec(d) && Defined(d)
    ensures StandardShown(d) == "42   "
  {
    Decimal(d);
    ThreeOf(' ');
    assert StandardDigits(d) == "42" && Converted(d) == "42";
  }

  /** What `d` of 0 or 42 prints, without flags for a sign. */
  lemma {:induction false} Decimal(d: Spec)
    requires d.letter == 'd' && d.modifiers == "" && (d.word == 0 || d.word == 42)
    requires !d.flags.alt && !d.flags.plus && !d.flags.space
    ensures Defined(d) && ArgumentOf(d) == d.word
    ensures Data(Coded(d).conversion) == (if d.word == 0 then "0" else "42") && Prefix(d.flags, Coded(d).conversion) == ""
    ensures d.word == 42 ==> Digits(42, 10, true) == "42" && StandardPrefix(d) == ""
  {
    Digits42(true);
  }

  // ----- whole formats -----

  /** Every directive of the format is one that the standard defines. */
  predicate AllDefined(format: string, i: nat, args: seq<Arg>, k: nat)
    requires i <= |format|
    decreases |format| - i
  {
    if i == |format| then true
    else if format[i] != '%' then AllDefined(format, i + 1, args, k)
    else
      var d := SpecAt(format, i + 1, args, k);
      Defined(d) && AllDefined(format, d.next, args, d.used)
  }

  predicate AllConform(format: string, i: nat, args: seq<Arg>, k: nat)
    requires i <= |format| && AllDefined(format, i, args, k)
    decreases |format| - i
  {
    if i == |format| then true
    else if format[i] != '%' then AllConform(format, i + 1, args, k)
    else
      var d := SpecAt(format, i + 1, args, k);
      Conforms(d) && AllConform(format, d.next, args, d.used)
  }

  function StandardRender(format: string, i: nat, args: seq<Arg>, k: nat): string
    requires i <= |format| && AllDefined(format, i, args, k)
    decreases |format| - i
  {
    if i == |format| then ""
    else if format[i] != '%' then [format[i]] + StandardRender(format, i + 1, args, k)
    else
      var d := SpecAt(format, i + 1, args, k);
      StandardShown(d) + StandardRender(format, d.next, args, d.used)
  }

  /** A format whose directives all conform prints as the standard says. */
  lemma {:induction false} RenderConforms(format: string, i: nat, args: seq<Arg>, k: nat)
    requires i <= |format| && AllDefined(format, i, args, k) && AllConform(format, i, args, k)
    ensures Render(format, i, args, k) == StandardRender(format, i, args, k)
    decreases |format| - i
  {
    if i < |format| {
      if format[i] != '%' {
        RenderConforms(format, i + 1, args, k);
      } else {
        var d := SpecAt(format, i + 1, args, k);
        ShownConforms(d);
        RenderConforms(format, d.next, args, d.used);
      }
    }
  }
}
