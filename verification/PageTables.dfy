/** Four-level page tables in physical memory (Intel 64 and IA-32 Architectures
    Software Developer's Manual, Volume 3A, section 4.5).

    A page table is a frame holding 512 little-endian 64-bit entries. Table
    addresses are page-aligned, so a table is named by its frame number; frame 0
    stands for NULL. */
module PageTables {
  import opened Bytes
  import opened Options

  const NENTRIES: nat := 512
  const NPAGES: nat := 512
  const MEMSIZE_PHYSICAL: nat := 0x200000
  /** Pages of the 48-bit address space. */
  const VPAGES: nat := 0x10_0000_0000

  const PTE_P: nat := 1
  const PTE_W: nat := 2
  const PTE_U: nat := 4

  predicate HasP(pe: nat) { pe % 2 == 1 }
  predicate HasW(pe: nat) { pe / 2 % 2 == 1 }
  predicate HasU(pe: nat) { pe / 4 % 2 == 1 }

  /** PTE_ADDR(pe), as a frame number. */
  function FrameOf(pe: nat): nat { pe / 4096 }
  function Flags(pe: nat): nat { pe % 4096 }

  /** `e & ~(prev & (PTE_W | PTE_U))` */
  function Mask(e: nat, prev: nat): (r: nat)
    ensures !HasW(prev) && !HasU(prev) ==> r == e
  {
    e - (if HasW(e) && HasW(prev) then 2 else 0) - (if HasU(e) && HasU(prev) then 4 else 0)
  }

  lemma {:induction false} LowBits(f: nat, l: nat)
    requires l < 8
    ensures (8 * f + l) / 2 == 4 * f + l / 2 && (8 * f + l) / 4 == 2 * f + l / 4 && (8 * f + l) / 4096 == f / 512
    ensures HasP(8 * f + l) == HasP(l) && HasW(8 * f + l) == HasW(l) && HasU(8 * f + l) == HasU(l)
  {
    hide HasP, HasW, HasU;
    LowBitsShift(f, l);
    LowBitsKept(f, l);
  }

  lemma {:induction false} LowBitsShift(f: nat, l: nat)
    requires l < 8
    ensures (8 * f + l) / 2 == 4 * f + l / 2 && (8 * f + l) / 4 == 2 * f + l / 4 && (8 * f + l) / 4096 == f / 512
  {
    assert 8 * f + l == 4096 * (f / 512) + (8 * (f % 512) + l);
  }

  lemma {:induction false} LowBitsKept(f: nat, l: nat)
    requires l < 8
    ensures HasP(8 * f + l) == HasP(l) && HasW(8 * f + l) == HasW(l) && HasU(8 * f + l) == HasU(l)
  {
    assert (8 * f + l) / 2 == 4 * f + l / 2;
    assert (8 * f + l) / 4 == 2 * f + l / 4;
  }

  lemma {:induction false} MaskBits(e: nat, prev: nat)
    ensures var r := Mask(e, prev);
      && FrameOf(r) == FrameOf(e) && (HasP(r) <==> HasP(e))
      && (HasW(r) <==> HasW(e) && !HasW(prev))
      && (HasU(r) <==> HasU(e) && !HasU(prev))
  {
    hide HasP, HasW, HasU;
    var f, l := e / 8, e % 8;
    LowBits(f, l);
    var l' := l - (if HasW(l) && HasW(prev) then 2 else 0) - (if HasU(l) && HasU(prev) then 4 else 0);
    Masked3(l, HasW(prev), HasU(prev));
    LowBits(f, l');
    assert e == 8 * f + l && Mask(e, prev) == 8 * f + l';
  }

  lemma {:induction false} Masked3(l: nat, w: bool, u: bool)
    requires l < 8
    ensures var l' := l - (if HasW(l) && w then 2 else 0) - (if HasU(l) && u then 4 else 0);
      && 0 <= l' < 8 && HasP(l') == HasP(l) && HasW(l') == (HasW(l) && !w) && HasU(l') == (HasU(l) && !u)
  {
  }

  /** The page of a 64-bit address that the four indices select. */
  function PageOf(va: u64): (v: nat)
    ensures v < VPAGES
  {
    va / 4096 % VPAGES
  }

  /** `pageindex(va, level)`: shift, truncate to int, keep 9 bits. */
  function PageIndex(va: u64, level: nat): (i: nat)
    requires level <= 3
    ensures i < NENTRIES
  {
    match level
    case 0 => va / 0x80_0000_0000 % TWO32 % 512
    case 1 => va / 0x4000_0000 % TWO32 % 512
    case 2 => va / 0x20_0000 % TWO32 % 512
    case _ => va / 0x1000 % TWO32 % 512
  }

  /** Taking one digit off a number of four base-512 digits; of three; of two; of 32 bits. */
  lemma {:induction false} Drop4(x: nat)
    ensures x % VPAGES % 512 == x % 512 && x % VPAGES / 512 == x / 512 % 0x800_0000
  {
    var h, l, b := x / 512 / 0x800_0000, x / 512 % 0x800_0000, x % 512;
    assert x == VPAGES * h + (512 * l + b) && 512 * l + b < VPAGES;
    assert x % VPAGES == 512 * l + b;
    assert (512 * l + b) / 512 == l;
  }

  lemma {:induction false} Drop3(x: nat)
    ensures x % 0x800_0000 % 512 == x % 512 && x % 0x800_0000 / 512 == x / 512 % 0x4_0000
  {
    var h, l, b := x / 512 / 0x4_0000, x / 512 % 0x4_0000, x % 512;
    assert x == 0x800_0000 * h + (512 * l + b) && 512 * l + b < 0x800_0000;
    assert x % 0x800_0000 == 512 * l + b;
    assert (512 * l + b) / 512 == l;
  }

  lemma {:induction false} Drop2(x: nat)
    ensures x % 0x4_0000 % 512 == x % 512 && x % 0x4_0000 / 512 == x / 512 % 512
  {
    var h, l, b := x / 512 / 512, x / 512 % 512, x % 512;
    assert x == 0x4_0000 * h + (512 * l + b) && 512 * l + b < 0x4_0000;
    assert x % 0x4_0000 == 512 * l + b;
    assert (512 * l + b) / 512 == l;
  }

  lemma {:induction false} Drop32(x: nat)
    ensures x % TWO32 % 512 == x % 512 && x % TWO32 / 512 == x / 512 % 0x80_0000
  {
    var h, l, b := x / 512 / 0x80_0000, x / 512 % 0x80_0000, x % 512;
    assert x == TWO32 * h + (512 * l + b) && 512 * l + b < TWO32;
    assert x % TWO32 == 512 * l + b;
    assert (512 * l + b) / 512 == l;
  }

  lemma {:induction false} Shifts(x: nat)
    ensures x / 0x1000 / 512 == x / 0x20_0000
    ensures x / 0x20_0000 / 512 == x / 0x4000_0000
    ensures x / 0x4000_0000 / 512 == x / 0x80_0000_0000
  {
  }

  /** The four indices are the base-512 digits of the page number. */
  lemma {:induction false} PageIndexDigits(va: u64)
    ensures PageIndex(va, 0) == PageOf(va) / 512 / 512 / 512 % 512
    ensures PageIndex(va, 1) == PageOf(va) / 512 / 512 % 512
    ensures PageIndex(va, 2) == PageOf(va) / 512 % 512
    ensures PageIndex(va, 3) == PageOf(va) % 512
  {
    Shifts(va);
    var v := va / 0x1000;
    Drop4(v);
    Drop3(v / 512);
    Drop2(v / 512 / 512);
    Drop32(va / 0x1000);
    Drop32(va / 0x20_0000);
    Drop32(va / 0x4000_0000);
    Drop32(va / 0x80_0000_0000);
  }

  lemma {:induction false} DigitsDetermine(v: nat, v': nat)
    requires v < VPAGES && v' < VPAGES
    requires v % 512 == v' % 512 && v / 512 % 512 == v' / 512 % 512 && v / 512 / 512 % 512 == v' / 512 / 512 % 512
    requires v / 512 / 512 / 512 % 512 == v' / 512 / 512 / 512 % 512
    ensures v == v'
  {
    var a, b, c := v / 512, v / 512 / 512, v / 512 / 512 / 512;
    var a', b', c' := v' / 512, v' / 512 / 512, v' / 512 / 512 / 512;
    assert a < 0x800_0000 && b < 0x4_0000 && c < 512;
    assert a' < 0x800_0000 && b' < 0x4_0000 && c' < 512;
    assert c == c';
    assert b == 512 * c + b % 512 && b' == 512 * c' + b' % 512;
    assert a == 512 * b + a % 512 && a' == 512 * b' + a' % 512;
  }

  /** So the split of an address is injective: no two pages share all four indices. */
  lemma {:induction false} PageIndexInjective(va: u64, va': u64)
    ensures PageOf(va) == PageOf(va') <==> forall l :: 0 <= l <= 3 ==> PageIndex(va, l) == PageIndex(va', l)
  {
    PageIndexDigits(va);
    PageIndexDigits(va');
    var v, v' := PageOf(va), PageOf(va');
    if forall l :: 0 <= l <= 3 ==> PageIndex(va, l) == PageIndex(va', l) {
      assert PageIndex(va, 0) == PageIndex(va', 0) && PageIndex(va, 1) == PageIndex(va', 1);
      assert PageIndex(va, 2) == PageIndex(va', 2) && PageIndex(va, 3) == PageIndex(va', 3);
      DigitsDetermine(v, v');
    }
  }

  function Entry(m: seq<byte>, t: nat, i: nat): nat
    requires |m| == MEMSIZE_PHYSICAL && t < NPAGES && i < NENTRIES
  {
    Load(m, 4096 * t + 8 * i, 8)
  }

  function SetEntry(m: seq<byte>, t: nat, i: nat, e: nat): (r: seq<byte>)
    requires |m| == MEMSIZE_PHYSICAL && t < NPAGES && i < NENTRIES
    ensures |r| == |m|
  {
    Store(m, 4096 * t + 8 * i, 8, e)
  }

  lemma {:induction false} EntrySet(m: seq<byte>, t: nat, i: nat, e: nat, t': nat, i': nat)
    requires |m| == MEMSIZE_PHYSICAL && t < NPAGES && i < NENTRIES && t' < NPAGES && i' < NENTRIES && e < TWO64
    ensures Entry(SetEntry(m, t, i, e), t', i') == if t' == t && i' == i then e else Entry(m, t', i')
  {
    if t' == t && i' == i {
      PowValues();
      LoadStore(m, 4096 * t + 8 * i, 8, e);
    } else {
      LoadFrame(m, SetEntry(m, t, i, e), 4096 * t' + 8 * i', 8);
    }
  }

  /** The table that `k` steps of the walk from `root` reach with prefix `q`, a
      number of `k` base-512 digits. */
  function Node(m: seq<byte>, root: nat, k: nat, q: nat): (r: Option<nat>)
    requires |m| == MEMSIZE_PHYSICAL && root < NPAGES
    ensures r.Some? ==> r.value < NPAGES
    decreases k
  {
    if k == 0 then Some(root)
    else
      match Node(m, root, k - 1, q / 512)
      case None => None
      case Some(t) => Child(Entry(m, t, q % 512))
  }

  /** The table an interior entry names. */
  function Child(pe: nat): (r: Option<nat>)
    ensures r.Some? ==> 0 < r.value < NPAGES
  {
    if HasP(pe) && 0 < FrameOf(pe) < NPAGES then Some(FrameOf(pe)) else None
  }

  function Digits(k: nat): nat
    requires k <= 4
  {
    match k
    case 0 => 1
    case 1 => 512
    case 2 => 0x4_0000
    case 3 => 0x800_0000
    case _ => VPAGES
  }

  ghost predicate IsNode(m: seq<byte>, root: nat, k: nat, q: nat)
    requires |m| == MEMSIZE_PHYSICAL && root < NPAGES
  {
    k <= 3 && q < Digits(k) && Node(m, root, k, q).Some?
  }

  /** No table is reached along two different paths. */
  ghost predicate Unaliased(m: seq<byte>, root: nat)
    requires |m| == MEMSIZE_PHYSICAL && root < NPAGES
  {
    forall k, q, k', q' :: IsNode(m, root, k, q) && IsNode(m, root, k', q') ==>
      Node(m, root, k, q) == Node(m, root, k', q') ==> k == k' && q == q'
  }

  predicate InteriorOk(pe: nat) {
    !HasP(pe) || (HasW(pe) && HasU(pe) && 0 < FrameOf(pe) < NPAGES)
  }

  /** Interior entries are absent, or name a table and grant every right. */
  ghost predicate Tree(m: seq<byte>, root: nat) {
    && |m| == MEMSIZE_PHYSICAL && 0 < root < NPAGES
    && Unaliased(m, root)
    && forall k, q, i :: IsNode(m, root, k, q) && k < 3 && 0 <= i < NENTRIES
         ==> InteriorOk(Entry(m, Node(m, root, k, q).value, i))
  }

  /** The last-level entry of page `v`, if its table exists. */
  function Leaf(m: seq<byte>, root: nat, v: nat): Option<nat>
    requires |m| == MEMSIZE_PHYSICAL && root < NPAGES
  {
    match Node(m, root, 3, v / 512)
    case None => None
    case Some(t) => Some(Entry(m, t, v % 512))
  }

  // ----- a leaf write -----

  ghost predicate SameNodes(m: seq<byte>, m': seq<byte>, root: nat)
    requires |m| == MEMSIZE_PHYSICAL && |m'| == MEMSIZE_PHYSICAL && root < NPAGES
  {
    forall k, q :: 0 <= q && 0 <= k <= 3 && q < Digits(k) ==> Node(m', root, k, q) == Node(m, root, k, q)
  }

  /** Writing a last-level entry changes no walk to a table. */
  lemma {:induction false} LeafWriteNode(m: seq<byte>, root: nat, v: nat, e: nat, k: nat, q: nat)
    requires Tree(m, root) && v < VPAGES && e < TWO64 && k <= 3 && q < Digits(k)
    requires IsNode(m, root, 3, v / 512)
    ensures var m' := SetEntry(m, Node(m, root, 3, v / 512).value, v % 512, e);
      Node(m', root, k, q) == Node(m, root, k, q)
    decreases k
  {
    if k > 0 {
      var t := Node(m, root, 3, v / 512).value;
      LeafWriteNode(m, root, v, e, k - 1, q / 512);
      var above := Node(m, root, k - 1, q / 512);
      if above.Some? {
        assert IsNode(m, root, k - 1, q / 512);
        assert above.value != t;
        EntrySet(m, t, v % 512, e, above.value, q % 512);
      }
    }
  }

  lemma {:induction false} LeafWrite(m: seq<byte>, m': seq<byte>, root: nat, v: nat, e: nat)
    requires Tree(m, root) && v < VPAGES && e < TWO64
    requires IsNode(m, root, 3, v / 512)
    requires m' == SetEntry(m, Node(m, root, 3, v / 512).value, v % 512, e)
    ensures SameNodes(m, m', root) && Tree(m', root)
    ensures forall v' :: 0 <= v' < VPAGES ==> Leaf(m', root, v') == if v' == v then Some(e) else Leaf(m, root, v')
  {
    hide Load, Store, InteriorOk;
    forall k, q | 0 <= q && 0 <= k <= 3 && q < Digits(k) ensures Node(m', root, k, q) == Node(m, root, k, q) {
      LeafWriteNode(m, root, v, e, k, q);
    }
    SameNodesTree(m, m', root, Node(m, root, 3, v / 512).value, v % 512, e, v / 512);
    forall v' | 0 <= v' < VPAGES
      ensures Leaf(m', root, v') == if v' == v then Some(e) else Leaf(m, root, v')
    {
      var t, t' := Node(m, root, 3, v / 512), Node(m, root, 3, v' / 512);
      assert Node(m', root, 3, v' / 512) == t';
      if t'.Some? {
        EntrySet(m, t.value, v % 512, e, t'.value, v' % 512);
        if t' == t { assert IsNode(m, root, 3, v' / 512); }
      }
    }
  }

  lemma {:induction false} SameNodesTree(m: seq<byte>, m': seq<byte>, root: nat, t: nat, i: nat, e: nat, q: nat)
    requires Tree(m, root) && |m'| == |m| && SameNodes(m, m', root) && e < TWO64 && i < NENTRIES
    requires IsNode(m, root, 3, q) && Node(m, root, 3, q) == Some(t) && m' == SetEntry(m, t, i, e)
    ensures Tree(m', root)
  {
    forall k, q, k', q' | IsNode(m', root, k, q) && IsNode(m', root, k', q')
      && Node(m', root, k, q) == Node(m', root, k', q')
      ensures k == k' && q == q'
    {
      assert IsNode(m, root, k, q) && IsNode(m, root, k', q');
    }
    forall k, p, j | IsNode(m', root, k, p) && k < 3 && 0 <= j < NENTRIES
      ensures InteriorOk(Entry(m', Node(m', root, k, p).value, j))
    {
      assert IsNode(m, root, k, p);
      assert Node(m, root, k, p).value != t;
      EntrySet(m, t, i, e, Node(m, root, k, p).value, j);
    }
  }
}
