/** Byte-addressed memory and the 64-bit arithmetic that the C code does on it.

    A memory is a sequence of bytes; an address is an index into it. Multi-byte
    fields are stored little-endian, as on x86-64. */
module Bytes {

  const TWO64: int := 0x1_0000_0000_0000_0000
  const TWO63: int := 0x8000_0000_0000_0000
  const TWO32: int := 0x1_0000_0000

  type byte = x: int | 0 <= x < 256
  type u64 = x: int | 0 <= x < TWO64
  type i64 = x: int | -TWO63 <= x < TWO63

  /** The value an unsigned 64-bit register holds after computing `x`. */
  function Wrap64(x: int): (r: u64)
    ensures 0 <= x < TWO64 ==> r == x
  {
    x % TWO64
  }

  /** `(intptr_t) x`: the same 64 bits read as a signed number. */
  function Signed64(x: u64): (r: i64)
    ensures Wrap64(r) == x
  {
    if x < TWO63 then x else x - TWO64
  }

  /** `(int) x` */
  function ToInt32(x: nat): int {
    var y := x % TWO32;
    if y < 0x8000_0000 then y else y - TWO32
  }

  /** `ROUNDDOWN(a, n)`; the code only ever rounds to 8 bytes or to a page. */
  function RoundDown(a: nat, n: nat): (r: nat)
    requires n == 8 || n == 4096
    ensures r <= a < r + n
    ensures if n == 8 then r % 8 == 0 else r % 4096 == 0
  {
    if n == 8 then a / 8 * 8 else a / 4096 * 4096
  }

  /** `round_up(a, n)` without the 64-bit wrap-around. */
  function RoundUp(a: nat, n: nat): (r: nat)
    requires n == 8 || n == 4096
    ensures a <= r < a + n
    ensures if n == 8 then r % 8 == 0 && (a % 8 == 0 ==> r == a) else r % 4096 == 0 && (a % 4096 == 0 ==> r == a)
  {
    RoundDown(a + n - 1, n)
  }

  // ----- little-endian fields -----

  function Pow256(n: nat): (r: nat)
    ensures r >= 1
  {
    if n == 0 then 1 else 256 * Pow256(n - 1)
  }

  lemma {:induction false} PowValues()
    ensures Pow256(4) == TWO32 && Pow256(8) == TWO64
  {
    assert Pow256(1) == 256;
    assert Pow256(2) == 256 * Pow256(1);
    assert Pow256(3) == 256 * Pow256(2);
    assert Pow256(4) == 256 * Pow256(3);
    assert Pow256(5) == 256 * Pow256(4);
    assert Pow256(6) == 256 * Pow256(5);
    assert Pow256(7) == 256 * Pow256(6);
    assert Pow256(8) == 256 * Pow256(7);
  }

  /** The `n`-byte little-endian number at address `a`. */
  function Load(m: seq<byte>, a: nat, n: nat): (r: nat)
    requires a + n <= |m|
    decreases n, |m|
  {
    if n == 0 then 0 else m[a] + 256 * Load(m, a + 1, n - 1)
  }

  /** Memory `m` with the `n` bytes at `a` replaced by the low bytes of `v`. */
  function Store(m: seq<byte>, a: nat, n: nat, v: nat): (r: seq<byte>)
    requires a + n <= |m|
    ensures |r| == |m|
    ensures forall x :: 0 <= x < |m| && !(a <= x < a + n) ==> r[x] == m[x]
    decreases n, |m|
  {
    if n == 0 then m else Store(m[a := v % 256], a + 1, n - 1, v / 256)
  }

  lemma {:induction false} LoadBound(m: seq<byte>, a: nat, n: nat)
    requires a + n <= |m|
    ensures Load(m, a, n) < Pow256(n)
    decreases n
  {
    if n > 0 { LoadBound(m, a + 1, n - 1); }
  }

  /** A load reads nothing outside its own bytes. */
  lemma {:induction false} LoadFrame(m: seq<byte>, m': seq<byte>, a: nat, n: nat)
    requires a + n <= |m| && |m'| == |m|
    requires forall x :: a <= x < a + n ==> m[x] == m'[x]
    ensures Load(m, a, n) == Load(m', a, n)
    decreases n
  {
    if n > 0 { LoadFrame(m, m', a + 1, n - 1); }
  }

  /** Reading back a field gives the value stored, if the field can hold it. */
  lemma {:induction false} LoadStore(m: seq<byte>, a: nat, n: nat, v: nat)
    requires a + n <= |m| && v < Pow256(n)
    ensures Load(Store(m, a, n, v), a, n) == v
    decreases n
  {
    if n > 0 {
      var m1 := m[a := v % 256];
      LoadStore(m1, a + 1, n - 1, v / 256);
      assert Store(m1, a + 1, n - 1, v / 256)[a] == v % 256;
    }
  }

  /** Equal field values mean equal bytes: the encoding is injective. */
  lemma {:induction false} LoadInjective(m: seq<byte>, m': seq<byte>, a: nat, n: nat)
    requires a + n <= |m| && a + n <= |m'|
    requires Load(m, a, n) == Load(m', a, n)
    ensures m[a..a + n] == m'[a..a + n]
    decreases n
  {
    if n > 0 {
      LoadInjective(m, m', a + 1, n - 1);
      assert m[a..a + n] == [m[a]] + m[a + 1..a + n];
      assert m'[a..a + n] == [m'[a]] + m'[a + 1..a + n];
    }
  }

  /** Store a field in place. */
  method StoreField(mem: array<byte>, a: nat, n: nat, v: nat)
    requires a + n <= mem.Length
    modifies mem
    ensures mem[..] == Store(old(mem[..]), a, n, v)
  {
    var k, w := 0, v;
    while k < n
      invariant 0 <= k <= n
      invariant Store(mem[..], a + k, n - k, w) == Store(old(mem[..]), a, n, v)
    {
      ghost var before := mem[..];
      mem[a + k] := w % 256;
      assert mem[..] == before[a + k := w % 256];
      k, w := k + 1, w / 256;
    }
  }

  method LoadField(mem: array<byte>, a: nat, n: nat) returns (v: nat)
    requires a + n <= mem.Length
    ensures v == Load(mem[..], a, n)
  {
    v := 0;
    var k := n;
    while k > 0
      invariant 0 <= k <= n
      invariant v == Load(mem[..], a + k, n - k)
    {
      k := k - 1;
      v := mem[a + k] + 256 * v;
    }
  }

  method Memset(mem: array<byte>, p: nat, v: byte, n: nat)
    requires p + n <= mem.Length
    modifies mem
    ensures forall x :: 0 <= x < mem.Length ==> mem[x] == if p <= x < p + n then v else old(mem[x])
  {
    for i := 0 to n
      invariant forall x :: 0 <= x < mem.Length ==> mem[x] == if p <= x < p + i then v else old(mem[x])
    {
      mem[p + i] := v;
    }
  }

  /** Copies upwards; correct because the ranges do not overlap. */
  method Memcpy(mem: array<byte>, dst: nat, src: nat, n: nat)
    requires dst + n <= mem.Length && src + n <= mem.Length && (dst + n <= src || src + n <= dst)
    modifies mem
    ensures mem[dst..dst + n] == old(mem[src..src + n])
    ensures forall x :: 0 <= x < mem.Length && !(dst <= x < dst + n) ==> mem[x] == old(mem[x])
  {
    for i := 0 to n
      invariant mem[dst..dst + i] == old(mem[src..src + i])
      invariant forall x :: 0 <= x < mem.Length && !(dst <= x < dst + i) ==> mem[x] == old(mem[x])
    {
      mem[dst + i] := mem[src + i];
      assert old(mem[src..src + i + 1]) == old(mem[src..src + i]) + [old(mem[src + i])];
    }
  }
}
