/** fill_numbuf: a number's digits, least significant first, written backwards
    into a 24-byte buffer. */
module Numbuf {
  import opened Bytes

  const NUMBUFSIZ: nat := 24

  /** The code prints in base 10 and base 16. */
  type Radix = b: nat | b == 10 || b == 16 witness 10

  function DigitChar(d: nat, upper: bool): char
    requires d < 16
  {
    if upper then "0123456789ABCDEF"[d] else "0123456789abcdef"[d]
  }

  function DigitValue(c: char): nat {
    if '0' <= c <= '9' then c as int - '0' as int
    else if 'a' <= c <= 'f' then c as int - 'a' as int + 10
    else if 'A' <= c <= 'F' then c as int - 'A' as int + 10
    else 0
  }

  /** `val / base`, `val % base`, and their inverse. */
  function Quotient(v: nat, base: Radix): nat {
    if base == 10 then v / 10 else v / 16
  }

  function Remainder(v: nat, base: Radix): (d: nat)
    ensures d < base
  {
    if base == 10 then v % 10 else v % 16
  }

  function Shifted(q: nat, base: Radix, d: nat): nat {
    if base == 10 then 10 * q + d else 16 * q + d
  }

  lemma {:induction false} QuotientRemainder(v: nat, base: Radix, q: nat, d: nat)
    requires d < base
    ensures v == Shifted(q, base, d) <==> q == Quotient(v, base) && d == Remainder(v, base)
    ensures v < base <==> Quotient(v, base) == 0
  {
  }

  /** The number that a digit string stands for. */
  function Value(s: string, base: Radix): nat {
    if s == [] then 0 else Shifted(Value(s[..|s| - 1], base), base, DigitValue(s[|s| - 1]))
  }

  function Digits(v: nat, base: Radix, upper: bool): (s: string)
    ensures |s| >= 1
  {
    if v < base then [DigitChar(v, upper)]
    else Digits(Quotient(v, base), base, upper) + [DigitChar(Remainder(v, base), upper)]
  }

  lemma {:induction false} DigitCharValue(d: nat, upper: bool)
    requires d < 16
    ensures DigitValue(DigitChar(d, upper)) == d
    ensures DigitChar(d, upper) == '0' <==> d == 0
    ensures DigitChar(d, upper) !in " +-\0xX"
  {
  }

  /** The digits of a number parse back to it. */
  lemma {:induction false} DigitsValue(v: nat, base: Radix, upper: bool)
    ensures Value(Digits(v, base, upper), base) == v
    decreases v
  {
    var s := Digits(v, base, upper);
    QuotientRemainder(v, base, Quotient(v, base), Remainder(v, base));
    if v < base {
      DigitCharValue(v, upper);
      assert s[..0] == [];
    } else {
      DigitsValue(Quotient(v, base), base, upper);
      DigitCharValue(Remainder(v, base), upper);
      assert s[..|s| - 1] == Digits(Quotient(v, base), base, upper);
    }
  }

  /** With upper no digit is a small letter, and without it none is a capital. */
  lemma {:induction false} DigitsCase(v: nat, base: Radix, upper: bool)
    ensures forall i :: 0 <= i < |Digits(v, base, upper)| ==>
      var c := Digits(v, base, upper)[i]; '0' <= c <= '9' || if upper then 'A' <= c <= 'F' else 'a' <= c <= 'f'
    decreases v
  {
    QuotientRemainder(v, base, Quotient(v, base), Remainder(v, base));
    if v >= base { DigitsCase(Quotient(v, base), base, upper); }
  }

  function Pow(base: Radix, n: nat): nat {
    if n == 0 then 1 else Shifted(Pow(base, n - 1), base, 0)
  }

  /** How many digits a number has, exactly. */
  lemma {:induction false} DigitsLength(v: nat, base: Radix, upper: bool, n: nat)
    requires n >= 1
    ensures |Digits(v, base, upper)| <= n <==> v < Pow(base, n)
    decreases n
  {
    PowGrows(base, n - 1);
    if n == 1 {
      assert Pow(base, 1) == Shifted(Pow(base, 0), base, 0);
    } else if v >= base {
      DigitsLength(Quotient(v, base), base, upper, n - 1);
    }
  }

  lemma {:induction false} PowGrows(base: Radix, n: nat)
    ensures Pow(base, n) >= 1
  {
    if n > 0 { PowGrows(base, n - 1); }
  }

  lemma {:induction false} Powers()
    ensures Pow(16, 16) == TWO64 && TWO64 < Pow(10, 20)
  {
    assert Pow(16, 0) == 1 && Pow(10, 0) == 1;
    PowFour(16, 0);
    PowFour(16, 4);
    PowFour(16, 8);
    PowFour(16, 12);
    PowFour(10, 0);
    PowFour(10, 4);
    PowFour(10, 8);
    PowFour(10, 12);
    PowFour(10, 16);
  }

  lemma {:induction false} PowFour(base: Radix, n: nat)
    ensures Pow(base, n + 4) == if base == 10 then 10000 * Pow(base, n) else 0x1_0000 * Pow(base, n)
  {
    assert Pow(base, n + 1) == Shifted(Pow(base, n), base, 0);
    assert Pow(base, n + 2) == Shifted(Pow(base, n + 1), base, 0);
    assert Pow(base, n + 3) == Shifted(Pow(base, n + 2), base, 0);
    assert Pow(base, n + 4) == Shifted(Pow(base, n + 3), base, 0);
  }

  /** Every 64-bit value fits the buffer, terminator and all. */
  lemma {:induction false} DigitsFit(v: u64, base: Radix, upper: bool)
    ensures |Digits(v, base, upper)| <= if base == 10 then 20 else 16
  {
    Powers();
    DigitsLength(v, base, upper, if base == 10 then 20 else 16);
  }

  ghost predicate IsDigit(c: char, base: Radix, upper: bool) {
    exists d :: 0 <= d < base && c == DigitChar(d, upper)
  }

  ghost predicate DigitString(s: string, base: Radix, upper: bool) {
    forall i :: 0 <= i < |s| ==> IsDigit(s[i], base, upper)
  }

  lemma {:induction false} DigitsAreDigits(v: nat, base: Radix, upper: bool)
    ensures DigitString(Digits(v, base, upper), base, upper)
    ensures v > 0 ==> Digits(v, base, upper)[0] != '0'
    decreases v
  {
    QuotientRemainder(v, base, Quotient(v, base), Remainder(v, base));
    if v < base {
      DigitCharValue(v, upper);
    } else {
      DigitsAreDigits(Quotient(v, base), base, upper);
      assert IsDigit(DigitChar(Remainder(v, base), upper), base, upper);
    }
  }

  /** No other digit string without a leading zero stands for the number. */
  lemma {:induction false} DigitsUnique(s: string, base: Radix, upper: bool)
    requires DigitString(s, base, upper) && s != [] && (|s| > 1 ==> s[0] != '0')
    ensures s == Digits(Value(s, base), base, upper)
    decreases |s|
  {
    hide DigitChar, DigitValue, Quotient, Remainder;
    var t, last := s[..|s| - 1], s[|s| - 1];
    assert IsDigit(last, base, upper);
    var d :| 0 <= d < base && last == DigitChar(d, upper);
    DigitCharValue(d, upper);
    QuotientRemainder(Value(s, base), base, Value(t, base), d);
    assert s == t + [last];
    if |s| > 1 {
      DigitsUnique(t, base, upper);
      Positive(t, base, upper);
    }
  }

  lemma {:induction false} Positive(s: string, base: Radix, upper: bool)
    requires DigitString(s, base, upper) && s != [] && s[0] != '0'
    ensures Value(s, base) > 0
    decreases |s|
  {
    var t := s[..|s| - 1];
    if t == [] {
      assert IsDigit(s[0], base, upper);
      var d :| 0 <= d < base && s[0] == DigitChar(d, upper);
      DigitCharValue(d, upper);
    } else {
      Positive(t, base, upper);
    }
  }

  /** The base as the code passes it: negative for lower-case digits. */
  function RadixOf(base: int): Radix
    requires base == 10 || base == 16 || base == -16
  {
    if base < 0 then -base else base
  }

  function Numeral(val: u64, base: int): (s: string)
    requires base == 10 || base == 16 || base == -16
    ensures |s| >= 1
  {
    Digits(val, RadixOf(base), base > 0)
  }

  /** After some rounds: what is in the buffer, after the digits of what is left,
      makes up the numeral. */
  predicate Unfinished(goal: string, rest: nat, b: Radix, upper: bool, tail: string) {
    goal == if rest == 0 then tail else Digits(rest, b, upper) + tail
  }

  method FillNumbuf(numbuf: array<char>, val: u64, base: int) returns (start: nat)
    requires numbuf.Length == NUMBUFSIZ && (base == 10 || base == 16 || base == -16)
    modifies numbuf
    ensures start < NUMBUFSIZ - 1 && numbuf[start..NUMBUFSIZ - 1] == Numeral(val, base)
    ensures numbuf[NUMBUFSIZ - 1] == '\0'
  {
    hide DigitChar, Remainder, Digits;
    var b, upper := RadixOf(base), base > 0;
    DigitsFit(val, b, upper);
    ghost var goal := Numeral(val, base);
    numbuf[NUMBUFSIZ - 1] := '\0';
    start := NUMBUFSIZ - 2;
    numbuf[start] := DigitChar(Remainder(val, b), upper);
    assert numbuf[start..NUMBUFSIZ - 1] == [DigitChar(Remainder(val, b), upper)];
    OneMore(val, b, upper, []);
    assert goal + [] == goal && numbuf[start..NUMBUFSIZ - 1] + [] == numbuf[start..NUMBUFSIZ - 1];
    var rest := Quotient(val, b);
    while rest != 0
      invariant start < NUMBUFSIZ - 1 && numbuf[NUMBUFSIZ - 1] == '\0'
      invariant Unfinished(goal, rest, b, upper, numbuf[start..NUMBUFSIZ - 1])
      decreases rest
    {
      ghost var tail := numbuf[start..NUMBUFSIZ - 1];
      start := start - 1;
      numbuf[start] := DigitChar(Remainder(rest, b), upper);
      assert numbuf[start..NUMBUFSIZ - 1] == [DigitChar(Remainder(rest, b), upper)] + tail;
      OneMore(rest, b, upper, tail);
      rest := Quotient(rest, b);
    }
  }

  /** One round of the loop moves one digit from what is left to the buffer. */
  lemma {:induction false} OneMore(rest: nat, b: Radix, upper: bool, tail: string)
    ensures Unfinished(Digits(rest, b, upper) + tail, Quotient(rest, b), b, upper,
                       [DigitChar(Remainder(rest, b), upper)] + tail)
  {
    if rest >= b {
      assert Digits(rest, b, upper) + tail
        == Digits(Quotient(rest, b), b, upper) + ([DigitChar(Remainder(rest, b), upper)] + tail);
    }
  }
}
