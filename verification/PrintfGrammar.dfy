/** The grammar of a directive, and that the parser reads it: flags, width,
    precision, length modifiers and conversion character, in that order. */
module PrintfGrammar {
  import opened Bytes
  import opened Options
  import opened Numbuf
  import opened Printf

  /** How a width or a precision is written: not at all, in digits, or as an argument. */
  datatype Amount = Absent | Written(digits: string) | Star

  function WriteWidth(a: Amount): string {
    match a
    case Absent => ""
    case Written(digits) => digits
    case Star => "*"
  }

  function WritePrecision(a: Amount): string {
    match a
    case Absent => ""
    case Written(digits) => "." + digits
    case Star => ".*"
  }

  predicate AllFlags(s: string) { forall i :: 0 <= i < |s| ==> IsFlag(s[i]) }
  predicate AllDecimal(s: string) { forall i :: 0 <= i < |s| ==> IsDecimal(s[i]) }
  predicate AllModifiers(s: string) { forall i :: 0 <= i < |s| ==> s[i] == 'l' || s[i] == 'z' }

  /** A width in digits does not begin with 0: that would be a flag. */
  predicate GoodWidth(a: Amount) {
    a.Written? ==> a.digits != "" && a.digits[0] != '0' && AllDecimal(a.digits)
  }

  predicate GoodPrecision(a: Amount) {
    a.Written? ==> AllDecimal(a.digits)
  }

  /** No other part of a directive begins with `c`, so it ends one. */
  predicate IsLetter(c: char) {
    !IsFlag(c) && !IsDecimal(c) && c != '*' && c != '.' && c != 'l' && c != 'z' && c != '\0'
  }

  predicate Grammatical(flags: string, w: Amount, p: Amount, modifiers: string, c: char) {
    AllFlags(flags) && GoodWidth(w) && GoodPrecision(p) && AllModifiers(modifiers) && IsLetter(c)
  }

  function Write(flags: string, w: Amount, p: Amount, modifiers: string, c: char): string {
    flags + (WriteWidth(w) + (WritePrecision(p) + (modifiers + [c])))
  }

  function AmountValue(a: Amount, args: seq<Arg>, k: nat): Option<int> {
    match a
    case Absent => None
    case Written(digits) => Option<int>.Some(Value(digits, 10))
    case Star => Some(ToInt32(WordAt(args, k)))
  }

  function AmountUsed(a: Amount, k: nat): nat {
    if a.Star? then k + 1 else k
  }

  /** `piece` stands between `i` and `j`. */
  ghost predicate PieceAt(format: string, i: nat, j: nat, piece: string) {
    i <= j <= |format| && format[i..j] == piece
  }

  lemma {:induction false} PieceChars(format: string, i: nat, j: nat, piece: string)
    requires PieceAt(format, i, j, piece)
    ensures j == i + |piece|
    ensures i < j ==> At(format, i) == piece[0]
    ensures forall n :: i <= n < j ==> format[n] == piece[n - i]
  {
    forall n | i <= n < j ensures format[n] == piece[n - i] {
      assert format[n] == format[i..j][n - i];
    }
  }

  lemma {:induction false} FirstChar(format: string, i: nat, j: nat, piece: string)
    requires PieceAt(format, i, j, piece)
    ensures At(format, i) == if piece == "" then At(format, j) else piece[0]
  {
    PieceChars(format, i, j, piece);
  }

  lemma {:induction false} PiecesSplit(format: string, i: nat, j: nat, piece: string, rest: string) returns (at: nat)
    requires PieceAt(format, i, j, piece + rest)
    ensures i <= at <= j && PieceAt(format, i, at, piece) && PieceAt(format, at, j, rest)
  {
    at := i + |piece|;
    var both := format[i..j];
    assert both[..|piece|] == piece && both[|piece|..] == rest;
    assert format[i..at] == both[..|piece|];
    assert format[at..j] == both[|piece|..];
  }

  lemma {:induction false} FlagsRead(format: string, i: nat, j: nat, flags: string)
    requires PieceAt(format, i, j, flags) && AllFlags(flags) && !IsFlag(At(format, j))
    ensures FlagsEnd(format, i) == j
  {
    PieceChars(format, i, j, flags);
  }

  lemma {:induction false} DigitsRead(format: string, i: nat, j: nat, digits: string)
    requires PieceAt(format, i, j, digits) && AllDecimal(digits) && !IsDecimal(At(format, j))
    ensures DigitsEnd(format, i) == j
  {
    PieceChars(format, i, j, digits);
  }

  lemma {:induction false} ModifiersRead(format: string, i: nat, j: nat, modifiers: string)
    requires PieceAt(format, i, j, modifiers) && AllModifiers(modifiers)
    requires At(format, j) != 'l' && At(format, j) != 'z'
    ensures ModifiersEnd(format, i) == j
  {
    PieceChars(format, i, j, modifiers);
  }

  lemma {:induction false} WidthRead(format: string, i: nat, j: nat, w: Amount, args: seq<Arg>, k: nat)
    requires PieceAt(format, i, j, WriteWidth(w)) && GoodWidth(w) && !IsDecimal(At(format, j)) && At(format, j) != '*'
    ensures WidthAt(format, i, args, k) == (AmountValue(w, args, k), j, AmountUsed(w, k))
  {
    PieceChars(format, i, j, WriteWidth(w));
    if w.Written? {
      DigitsRead(format, i, j, w.digits);
      assert IsDecimal(w.digits[0]);
    }
  }

  lemma {:induction false} PrecisionRead(format: string, i: nat, j: nat, p: Amount, args: seq<Arg>, k: nat)
    requires PieceAt(format, i, j, WritePrecision(p)) && GoodPrecision(p)
    requires !IsDecimal(At(format, j)) && At(format, j) != '*' && At(format, j) != '.'
    ensures PrecisionAt(format, i, args, k) == (AmountValue(p, args, k), j, AmountUsed(p, k))
  {
    PieceChars(format, i, j, WritePrecision(p));
    if p.Written? {
      var at := PiecesSplit(format, i, j, ".", p.digits);
      PieceChars(format, i, at, ".");
      PieceChars(format, at, j, p.digits);
      DigitsRead(format, at, j, p.digits);
      if p.digits != "" { assert IsDecimal(p.digits[0]); }
    }
  }

  /** Where the parts of a directive begin; `c` is where the conversion character is. */
  datatype Places = Places(flags: nat, width: nat, precision: nat, modifiers: nat, c: nat)

  ghost predicate PartsAt(format: string, at: Places, flags: string, w: Amount, p: Amount, modifiers: string, c: char) {
    && PieceAt(format, at.flags, at.width, flags)
    && PieceAt(format, at.width, at.precision, WriteWidth(w))
    && PieceAt(format, at.precision, at.modifiers, WritePrecision(p))
    && PieceAt(format, at.modifiers, at.c, modifiers)
    && at.c < |format| && format[at.c] == c
  }

  /** Taking the parts of a written directive off one by one. */
  lemma {:induction false} WrittenParts(format: string, i: nat, j: nat, flags: string, w: Amount, p: Amount,
                                        modifiers: string, c: char) returns (at: Places)
    requires PieceAt(format, i, j, Write(flags, w, p, modifiers, c))
    ensures PartsAt(format, at, flags, w, p, modifiers, c) && at.flags == i && at.c + 1 == j
  {
    var i1 := PiecesSplit(format, i, j, flags, WriteWidth(w) + (WritePrecision(p) + (modifiers + [c])));
    var i2 := PiecesSplit(format, i1, j, WriteWidth(w), WritePrecision(p) + (modifiers + [c]));
    var i3 := PiecesSplit(format, i2, j, WritePrecision(p), modifiers + [c]);
    var i4 := PiecesSplit(format, i3, j, modifiers, [c]);
    PieceChars(format, i4, j, [c]);
    at := Places(i, i1, i2, i3, i4);
  }

  /** What follows the flags begins with no flag, what follows the width with no digit and
      no star, and what follows the precision with no dot either. */
  lemma {:induction false} PartsBegin(format: string, at: Places, flags: string, w: Amount, p: Amount, modifiers: string,
                                      c: char)
    requires Grammatical(flags, w, p, modifiers, c) && PartsAt(format, at, flags, w, p, modifiers, c)
    ensures !IsFlag(At(format, at.width))
    ensures !IsDecimal(At(format, at.precision)) && At(format, at.precision) != '*'
    ensures !IsDecimal(At(format, at.modifiers)) && At(format, at.modifiers) != '*' && At(format, at.modifiers) != '.'
  {
    FirstChar(format, at.modifiers, at.c, modifiers);
    FirstChar(format, at.precision, at.modifiers, WritePrecision(p));
    FirstChar(format, at.width, at.precision, WriteWidth(w));
    if w.Written? { assert IsDecimal(w.digits[0]); }
  }

  lemma {:induction false} PartsRead(format: string, at: Places, flags: string, w: Amount, p: Amount, modifiers: string,
                                     c: char, args: seq<Arg>, k: nat)
    requires Grammatical(flags, w, p, modifiers, c) && PartsAt(format, at, flags, w, p, modifiers, c)
    ensures FlagsEnd(format, at.flags) == at.width
    ensures WidthAt(format, at.width, args, k) == (AmountValue(w, args, k), at.precision, AmountUsed(w, k))
    ensures var kp := AmountUsed(w, k);
      PrecisionAt(format, at.precision, args, kp) == (AmountValue(p, args, kp), at.modifiers, AmountUsed(p, kp))
    ensures ModifiersEnd(format, at.modifiers) == at.c
  {
    PartsBegin(format, at, flags, w, p, modifiers, c);
    FlagsRead(format, at.flags, at.width, flags);
    WidthRead(format, at.width, at.precision, w, args, k);
    PrecisionRead(format, at.precision, at.modifiers, p, args, AmountUsed(w, k));
    ModifiersRead(format, at.modifiers, at.c, modifiers);
  }

  /** The parser undoes the grammar: a directive that is written from its parts, with
      anything before and after it, is read as those parts. */
  lemma {:induction false} DirectiveRead(format: string, i: nat, j: nat, flags: string, w: Amount, p: Amount,
                                         modifiers: string, c: char, args: seq<Arg>, k: nat)
    requires Grammatical(flags, w, p, modifiers, c) && PieceAt(format, i, j, Write(flags, w, p, modifiers, c))
    ensures var kp := AmountUsed(w, k); var kc := AmountUsed(p, kp);
      SpecAt(format, i, args, k) ==
        Spec(FlagsOf(flags), AmountValue(w, args, k), AmountValue(p, args, kp), modifiers, c,
             WordAt(args, kc), TextAt(args, kc), j, if TakesArgument(c) then kc + 1 else kc)
  {
    var at := WrittenParts(format, i, j, flags, w, p, modifiers, c);
    PartsRead(format, at, flags, w, p, modifiers, c, args, k);
  }

  /** The parts that the parser finds. */
  function WidthPart(format: string, i: nat): (a: Amount)
    requires i <= |format|
  {
    if '1' <= At(format, i) <= '9' then Written(format[i..DigitsEnd(format, i)])
    else if At(format, i) == '*' then Star
    else Absent
  }

  lemma {:induction false} WidthFound(format: string, i: nat, args: seq<Arg>, k: nat)
    requires i <= |format|
    ensures GoodWidth(WidthPart(format, i))
    ensures PieceAt(format, i, WidthAt(format, i, args, k).1, WriteWidth(WidthPart(format, i)))
  {
  }

  function PrecisionPart(format: string, i: nat): (a: Amount)
    requires i <= |format|
  {
    if At(format, i) != '.' then Absent
    else if At(format, i + 1) == '*' then Star
    else Written(format[i + 1..DigitsEnd(format, i + 1)])
  }

  lemma {:induction false} PrecisionFound(format: string, i: nat, args: seq<Arg>, k: nat)
    requires i <= |format|
    ensures GoodPrecision(PrecisionPart(format, i))
    ensures PieceAt(format, i, PrecisionAt(format, i, args, k).1, WritePrecision(PrecisionPart(format, i)))
  {
  }

  lemma {:induction false} PiecesJoin(format: string, i: nat, at: nat, j: nat, piece: string, rest: string)
    returns (both: string)
    requires PieceAt(format, i, at, piece) && PieceAt(format, at, j, rest)
    ensures both == piece + rest && PieceAt(format, i, j, both)
  {
    both := piece + rest;
    assert format[i..j] == format[i..at] + format[at..j];
  }

  lemma {:induction false} PartsWritten(format: string, at: Places, flags: string, w: Amount, p: Amount,
                                        modifiers: string, c: char)
    requires PartsAt(format, at, flags, w, p, modifiers, c)
    ensures PieceAt(format, at.flags, at.c + 1, Write(flags, w, p, modifiers, c))
  {
    var j := at.c + 1;
    var rest := PiecesJoin(format, at.modifiers, at.c, j, modifiers, [c]);
    rest := PiecesJoin(format, at.precision, at.modifiers, j, WritePrecision(p), rest);
    rest := PiecesJoin(format, at.width, at.precision, j, WriteWidth(w), rest);
    rest := PiecesJoin(format, at.flags, at.width, j, flags, rest);
  }

  /** And the grammar describes all that the parser reads: what it passes over is a
      directive written from parts, whenever the character it ends in is a letter. */
  lemma {:induction false} DirectiveWritten(format: string, i: nat, args: seq<Arg>, k: nat)
    returns (flags: string, w: Amount, p: Amount)
    requires i <= |format| && IsLetter(SpecAt(format, i, args, k).letter)
    ensures var d := SpecAt(format, i, args, k);
      && Grammatical(flags, w, p, d.modifiers, d.letter)
      && PieceAt(format, i, d.next, Write(flags, w, p, d.modifiers, d.letter))
  {
    var d := SpecAt(format, i, args, k);
    var i1 := FlagsEnd(format, i);
    var (_, i2, k1) := WidthAt(format, i1, args, k);
    var (_, i3, _) := PrecisionAt(format, i2, args, k1);
    var i4 := ModifiersEnd(format, i3);
    flags, w, p := format[i..i1], WidthPart(format, i1), PrecisionPart(format, i2);
    WidthFound(format, i1, args, k);
    PrecisionFound(format, i2, args, k1);
    PartsWritten(format, Places(i, i1, i2, i3, i4), flags, w, p, d.modifiers, d.letter);
  }
}
