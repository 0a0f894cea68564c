/** virtual_memory_lookup, lookup_l4pagetable and virtual_memory_map. */
module VirtualMemory {
  import opened Bytes
  import opened Options
  import opened PageTables

  /** `vamapping`: page number, physical address, permissions. */
  datatype Mapping = Mapping(pn: int, pa: nat, perm: nat)

  const UNMAPPED := Mapping(-1, TWO64 - 1, 0)
  const NULL: nat := 0

  /** The page number with the last `4 - k` digits dropped. */
  function Prefix(v: nat, k: nat): nat
    requires k <= 4
    decreases 4 - k
  {
    if k == 4 then v else Prefix(v, k + 1) / 512
  }

  lemma {:induction false} Prefixes(v: nat)
    requires v < VPAGES
    ensures Prefix(v, 4) == v && Prefix(v, 3) == v / 512 && Prefix(v, 2) == v / 512 / 512
    ensures Prefix(v, 1) == v / 512 / 512 / 512 && Prefix(v, 0) == 0
    ensures forall k :: 0 <= k <= 4 ==> Prefix(v, k) < Digits(k)
  {
    assert Prefix(v, 3) == Prefix(v, 4) / 512;
    assert Prefix(v, 2) == Prefix(v, 3) / 512;
    assert Prefix(v, 1) == Prefix(v, 2) / 512;
    assert Prefix(v, 0) == Prefix(v, 1) / 512;
  }

  /** The entry that the walk for `v` reads at its `k`th level; 0 if it does not get there. */
  function EntryAt(m: seq<byte>, root: nat, v: nat, k: nat): nat
    requires |m| == MEMSIZE_PHYSICAL && root < NPAGES && 1 <= k <= 4
  {
    match Node(m, root, k - 1, Prefix(v, k - 1))
    case None => 0
    case Some(t) => Entry(m, t, Prefix(v, k) % 512)
  }

  /** Every table the walk for `v` is sent to is in memory. */
  ghost predicate WalkOk(m: seq<byte>, root: nat, v: nat) {
    && |m| == MEMSIZE_PHYSICAL && 0 < root < NPAGES && v < VPAGES
    && forall k :: 1 <= k <= 3 && HasP(EntryAt(m, root, v, k)) ==> 0 < FrameOf(EntryAt(m, root, v, k)) < NPAGES
  }

  /** The variable `pe` of virtual_memory_lookup after at most `k` levels. */
  function Pe(m: seq<byte>, root: nat, v: nat, k: nat): nat
    requires |m| == MEMSIZE_PHYSICAL && root < NPAGES && k <= 4
    decreases k
  {
    if k == 0 then PTE_W + PTE_U + PTE_P
    else
      var prev := Pe(m, root, v, k - 1);
      if !HasP(prev) then prev
      else
        Mask(EntryAt(m, root, v, k), prev)
  }

  function Lookup(m: seq<byte>, root: nat, va: u64): Mapping
    requires |m| == MEMSIZE_PHYSICAL && root < NPAGES
  {
    ToMapping(Pe(m, root, PageOf(va), 4), va)
  }

  /** What a last-level entry maps `va` to. */
  function ToMapping(pe: nat, va: u64): Mapping {
    if HasP(pe) then Mapping(ToInt32(FrameOf(pe)), 4096 * FrameOf(pe) + va % 4096, Flags(pe)) else UNMAPPED
  }

  /** One more level of the walk. */
  lemma {:induction false} WalkStep(m: seq<byte>, root: nat, v: nat, k: nat)
    requires WalkOk(m, root, v) && k <= 3 && HasP(Pe(m, root, v, k))
    ensures var e := EntryAt(m, root, v, k + 1);
      && Pe(m, root, v, k + 1) == Mask(e, Pe(m, root, v, k))
      && (HasP(Pe(m, root, v, k + 1)) <==> HasP(e)) && FrameOf(Pe(m, root, v, k + 1)) == FrameOf(e)
      && (k < 3 ==> Node(m, root, k + 1, Prefix(v, k + 1)) == if HasP(e) then Some(FrameOf(e)) else None)
  {
    MaskBits(EntryAt(m, root, v, k + 1), Pe(m, root, v, k));
    assert Prefix(v, k) == Prefix(v, k + 1) / 512;
  }

  lemma {:induction false} IndexIsDigit(va: u64, k: nat)
    requires k <= 3
    ensures PageIndex(va, k) == Prefix(PageOf(va), k + 1) % 512
  {
    Prefixes(PageOf(va));
    PageIndexDigits(va);
  }

  method VirtualMemoryLookup(mem: array<byte>, pagetable: nat, va: u64) returns (vam: Mapping)
    requires WalkOk(mem[..], pagetable, PageOf(va))
    ensures vam == Lookup(mem[..], pagetable, va)
  {
    ghost var v := PageOf(va);
    var pt, pe := pagetable, PTE_W + PTE_U + PTE_P;
    var i := 0;
    while i <= 3 && HasP(pe)
      invariant i <= 4 && pe == Pe(mem[..], pagetable, v, i)
      invariant HasP(pe) && i <= 3 ==> Node(mem[..], pagetable, i, Prefix(v, i)) == Some(pt)
    {
      WalkStep(mem[..], pagetable, v, i);
      IndexIsDigit(va, i);
      pe := Mask(Load(mem[..], 4096 * pt + 8 * PageIndex(va, i), 8), pe);
      pt := FrameOf(pe);
      i := i + 1;
    }
    StoppedWalk(mem[..], pagetable, v, i);
    if HasP(pe) {
      return Mapping(ToInt32(FrameOf(pe)), 4096 * FrameOf(pe) + va % 4096, Flags(pe));
    }
    return UNMAPPED;
  }

  lemma {:induction false} StoppedWalk(m: seq<byte>, root: nat, v: nat, i: nat)
    requires |m| == MEMSIZE_PHYSICAL && root < NPAGES && i <= 4
    requires i == 4 || !HasP(Pe(m, root, v, i))
    ensures Pe(m, root, v, 4) == Pe(m, root, v, i)
    decreases 4 - i
  {
    if i < 4 { StoppedWalk(m, root, v, i + 1); }
  }

  // ----- what the walk returns -----

  /** A walk in which every entry is present. */
  ghost predicate FullWalk(m: seq<byte>, root: nat, v: nat) {
    WalkOk(m, root, v) && forall k :: 1 <= k <= 4 ==> HasP(EntryAt(m, root, v, k))
  }

  function Masked4(e1: nat, e2: nat, e3: nat, e4: nat): nat {
    Mask(e4, Mask(e3, Mask(e2, Mask(e1, PTE_W + PTE_U + PTE_P))))
  }

  lemma {:induction false} FullWalkPe(m: seq<byte>, root: nat, v: nat)
    requires FullWalk(m, root, v)
    ensures Pe(m, root, v, 4) == Masked4(EntryAt(m, root, v, 1), EntryAt(m, root, v, 2),
                                         EntryAt(m, root, v, 3), EntryAt(m, root, v, 4))
  {
    WalkStep(m, root, v, 0);
    WalkStep(m, root, v, 1);
    WalkStep(m, root, v, 2);
    WalkStep(m, root, v, 3);
  }

  lemma {:induction false} Masked4Bits(e1: nat, e2: nat, e3: nat, e4: nat)
    ensures var r := Masked4(e1, e2, e3, e4);
      && FrameOf(r) == FrameOf(e4) && (HasP(r) <==> HasP(e4))
      && (HasW(r) <==> HasW(e4) && (HasW(e2) || !HasW(e3)))
      && (HasU(r) <==> HasU(e4) && (HasU(e2) || !HasU(e3)))
  {
    var p1 := Mask(e1, PTE_W + PTE_U + PTE_P);
    var p2 := Mask(e2, p1);
    var p3 := Mask(e3, p2);
    MaskBits(e1, PTE_W + PTE_U + PTE_P);
    MaskBits(e2, p1);
    MaskBits(e3, p2);
    MaskBits(e4, p3);
  }

  /** The permission bits the walk reports, for every tree: a right is granted
      when the last level grants it, unless the third level grants it and the
      second does not. The first level has no say. */
  lemma {:induction false} LookupRights(m: seq<byte>, root: nat, va: u64)
    requires FullWalk(m, root, PageOf(va))
    ensures var r, v := Lookup(m, root, va), PageOf(va);
      var e2, e3, e4 := EntryAt(m, root, v, 2), EntryAt(m, root, v, 3), EntryAt(m, root, v, 4);
      && r.pa == 4096 * FrameOf(e4) + va % 4096
      && HasP(r.perm)
      && (HasW(r.perm) <==> HasW(e4) && (HasW(e2) || !HasW(e3)))
      && (HasU(r.perm) <==> HasU(e4) && (HasU(e2) || !HasU(e3)))
  {
    var v := PageOf(va);
    var e1, e2, e3, e4 :=
      EntryAt(m, root, v, 1), EntryAt(m, root, v, 2), EntryAt(m, root, v, 3), EntryAt(m, root, v, 4);
    FullWalkPe(m, root, v);
    Masked4Bits(e1, e2, e3, e4);
    FlagsBits(Masked4(e1, e2, e3, e4));
  }

  lemma {:induction false} FlagsBits(pe: nat)
    ensures HasP(Flags(pe)) == HasP(pe) && HasW(Flags(pe)) == HasW(pe) && HasU(Flags(pe)) == HasU(pe)
  {
    var g, r := pe / 4096, pe % 4096;
    var f, l := r / 8, r % 8;
    assert pe == 8 * (512 * g + f) + l && r == 8 * f + l;
    LowBits(512 * g + f, l);
    LowBits(f, l);
  }

  /** The processor grants a right only if all four levels do (section 4.6 of the
      manual). The walk agrees with it exactly when the last level refuses, or all
      levels grant, or the third level grants and the second does not. */
  lemma {:induction false} LookupMatchesProcessor(m: seq<byte>, root: nat, va: u64)
    requires FullWalk(m, root, PageOf(va))
    ensures var r, v := Lookup(m, root, va), PageOf(va);
      var e1, e2, e3, e4 :=
        EntryAt(m, root, v, 1), EntryAt(m, root, v, 2), EntryAt(m, root, v, 3), EntryAt(m, root, v, 4);
      && ((HasW(r.perm) <==> HasW(e1) && HasW(e2) && HasW(e3) && HasW(e4))
          <==> !HasW(e4) || (HasW(e1) && HasW(e2) && HasW(e3)) || (HasW(e3) && !HasW(e2)))
      && ((HasU(r.perm) <==> HasU(e1) && HasU(e2) && HasU(e3) && HasU(e4))
          <==> !HasU(e4) || (HasU(e1) && HasU(e2) && HasU(e3)) || (HasU(e3) && !HasU(e2)))
  {
    LookupRights(m, root, va);
  }

  /** Tables 1 to 4 for page 0, which is mapped to frame 5; only the first level is read-only. */
  function ReadOnlyAtTop(m: seq<byte>): (r: seq<byte>)
    requires |m| == MEMSIZE_PHYSICAL
    ensures |r| == |m|
  {
    SetEntry(SetEntry(SetEntry(SetEntry(m, 1, 0, 4096 * 2 + PTE_P + PTE_U), 2, 0, 4096 * 3 + PTE_P + PTE_W + PTE_U),
                      3, 0, 4096 * 4 + PTE_P + PTE_W + PTE_U), 4, 0, 4096 * 5 + PTE_P + PTE_W + PTE_U)
  }

  lemma {:induction false} ReadOnlyAtTopEntry(m: seq<byte>, t: nat)
    requires |m| == MEMSIZE_PHYSICAL && 1 <= t <= 4
    ensures Entry(ReadOnlyAtTop(m), t, 0) == 4096 * (t + 1) + PTE_P + PTE_U + if t == 1 then 0 else PTE_W
  {
    var m1 := SetEntry(m, 1, 0, 4096 * 2 + PTE_P + PTE_U);
    var m2 := SetEntry(m1, 2, 0, 4096 * 3 + PTE_P + PTE_W + PTE_U);
    var m3 := SetEntry(m2, 3, 0, 4096 * 4 + PTE_P + PTE_W + PTE_U);
    EntrySet(m, 1, 0, 4096 * 2 + PTE_P + PTE_U, t, 0);
    EntrySet(m1, 2, 0, 4096 * 3 + PTE_P + PTE_W + PTE_U, t, 0);
    EntrySet(m2, 3, 0, 4096 * 4 + PTE_P + PTE_W + PTE_U, t, 0);
    EntrySet(m3, 4, 0, 4096 * 5 + PTE_P + PTE_W + PTE_U, t, 0);
  }

  lemma {:induction false} ReadOnlyAtTopWalk(m: seq<byte>, root: nat, v: nat, k: nat)
    requires |m| == MEMSIZE_PHYSICAL && root == 1 && v == 0 && k <= 3
    ensures Prefix(v, k) == 0 && Node(ReadOnlyAtTop(m), root, k, Prefix(v, k)) == Some(k + 1)
  {
    Prefixes(v);
    if k > 0 {
      ReadOnlyAtTopWalk(m, root, v, k - 1);
      ReadOnlyAtTopEntry(m, k);
    }
  }

  lemma {:induction false} ReadOnlyAtTopEntryAt(m: seq<byte>, root: nat, v: nat, k: nat)
    requires |m| == MEMSIZE_PHYSICAL && root == 1 && v == 0 && 1 <= k <= 4
    ensures EntryAt(ReadOnlyAtTop(m), root, v, k) == 4096 * (k + 1) + PTE_P + PTE_U + if k == 1 then 0 else PTE_W
  {
    Prefixes(v);
    ReadOnlyAtTopWalk(m, root, v, k - 1);
    ReadOnlyAtTopEntry(m, k);
  }

  /** The four entries of a walk that grants every right but W at the first level. */
  ghost predicate ReadOnlyWalk(m: seq<byte>, root: nat, v: nat)
    requires |m| == MEMSIZE_PHYSICAL && root < NPAGES
  {
    && EntryAt(m, root, v, 1) == 0x2005 && EntryAt(m, root, v, 2) == 0x3007
    && EntryAt(m, root, v, 3) == 0x4007 && EntryAt(m, root, v, 4) == 0x5007
  }

  lemma {:induction false} ReadOnlyWalkFull(m: seq<byte>, root: nat, v: nat)
    requires |m| == MEMSIZE_PHYSICAL && 0 < root < NPAGES && v < VPAGES && ReadOnlyWalk(m, root, v)
    ensures FullWalk(m, root, v)
  {
    assert HasP(0x2005) && HasP(0x3007) && HasP(0x4007) && HasP(0x5007);
  }

  lemma {:induction false} ReadOnlyWalkLookup(m: seq<byte>, root: nat, va: u64)
    requires |m| == MEMSIZE_PHYSICAL && 0 < root < NPAGES && ReadOnlyWalk(m, root, PageOf(va))
    ensures HasW(Lookup(m, root, va).perm) && !HasW(EntryAt(m, root, PageOf(va), 1))
  {
    ReadOnlyWalkFull(m, root, PageOf(va));
    assert !HasW(0x2005) && HasW(0x3007) && HasW(0x5007);
    LookupRights(m, root, va);
  }

  lemma {:induction false} ReadOnlyAtTopIs(m: seq<byte>, root: nat, v: nat)
    requires |m| == MEMSIZE_PHYSICAL && root == 1 && v == 0
    ensures ReadOnlyWalk(ReadOnlyAtTop(m), root, v)
  {
    ReadOnlyAtTopEntryAt(m, root, v, 1);
    ReadOnlyAtTopEntryAt(m, root, v, 2);
    ReadOnlyAtTopEntryAt(m, root, v, 3);
    ReadOnlyAtTopEntryAt(m, root, v, 4);
  }

  /** Tables on which the walk and the processor differ: the walk reports page 0
      writable, and a store to it would fault. */
  lemma {:induction false} LookupMissesTopLevel(m: seq<byte>, va: u64) returns (m': seq<byte>, root: nat)
    requires |m| == MEMSIZE_PHYSICAL && va == 0
    ensures m' == ReadOnlyAtTop(m) && root == 1 && FullWalk(m', root, PageOf(va))
    ensures HasW(Lookup(m', root, va).perm) && !HasW(EntryAt(m', root, PageOf(va), 1))
  {
    m', root := ReadOnlyAtTop(m), 1;
    ReadOnlyAtTopIs(m, root, PageOf(va));
    ReadOnlyWalkFull(m', root, PageOf(va));
    ReadOnlyWalkLookup(m', root, va);
  }

  lemma {:induction false} TreeEntry(m: seq<byte>, root: nat, v: nat, k: nat)
    requires Tree(m, root) && v < VPAGES && 1 <= k <= 3
    ensures InteriorOk(EntryAt(m, root, v, k))
  {
    Prefixes(v);
    if Node(m, root, k - 1, Prefix(v, k - 1)).Some? {
      assert IsNode(m, root, k - 1, Prefix(v, k - 1));
    }
  }

  lemma {:induction false} TreeWalkOk(m: seq<byte>, root: nat, v: nat)
    requires Tree(m, root) && v < VPAGES
    ensures WalkOk(m, root, v)
  {
    TreeEntry(m, root, v, 1);
    TreeEntry(m, root, v, 2);
    TreeEntry(m, root, v, 3);
  }

  /** When interior entries grant every right, the mask clears W and U on odd
      levels and keeps them on even ones. */
  lemma {:induction false} TreePe(m: seq<byte>, root: nat, v: nat, k: nat)
    requires WalkOk(m, root, v) && k <= 3
    requires forall j :: 1 <= j <= 3 ==> InteriorOk(EntryAt(m, root, v, j))
    ensures Node(m, root, k, Prefix(v, k)).Some? ==>
              HasP(Pe(m, root, v, k)) && HasW(Pe(m, root, v, k)) == HasU(Pe(m, root, v, k)) == (k == 0 || k == 2)
    ensures Node(m, root, k, Prefix(v, k)).None? ==> !HasP(Pe(m, root, v, k))
    decreases k
  {
    if k > 0 {
      TreePe(m, root, v, k - 1);
      assert Prefix(v, k - 1) == Prefix(v, k) / 512;
      assert InteriorOk(EntryAt(m, root, v, k));
      if HasP(Pe(m, root, v, k - 1)) {
        WalkStep(m, root, v, k - 1);
        MaskBits(EntryAt(m, root, v, k), Pe(m, root, v, k - 1));
      }
    }
  }

  /** So on a well-formed tree the walk returns the last-level entry, flags and all. */
  lemma {:induction false} TreeLookup(m: seq<byte>, root: nat, va: u64)
    requires Tree(m, root)
    ensures WalkOk(m, root, PageOf(va))
    ensures Lookup(m, root, va) ==
      match Leaf(m, root, PageOf(va)) case None => UNMAPPED case Some(e) => ToMapping(e, va)
  {
    var v := PageOf(va);
    Prefixes(v);
    TreeWalkOk(m, root, v);
    TreeEntry(m, root, v, 1);
    TreeEntry(m, root, v, 2);
    TreeEntry(m, root, v, 3);
    TreePe(m, root, v, 3);
    if Node(m, root, 3, Prefix(v, 3)).Some? {
      WalkStep(m, root, v, 3);
    }
  }

  // ----- virtual_memory_map -----

  /** The last-level table of prefix `q`, as a pointer. */
  function L4Table(m: seq<byte>, root: nat, q: nat): (t: nat)
    requires |m| == MEMSIZE_PHYSICAL && root < NPAGES
    ensures t < NPAGES
  {
    match Node(m, root, 3, q) case None => NULL case Some(t) => t
  }

  /** What lookup_l4pagetable asserts of an entry that is present: it names a table in
      memory and grants the rights asked for. */
  predicate Grants(pe: nat, perm: nat) {
    FrameOf(pe) < NPAGES && (HasW(perm) ==> HasW(pe)) && (HasU(perm) ==> HasU(pe))
  }

  /** No entry on the walk for `v` that is present names frame 0. */
  ghost predicate NoNullTable(m: seq<byte>, root: nat, v: nat) {
    && |m| == MEMSIZE_PHYSICAL && 0 < root < NPAGES && v < VPAGES
    && forall k :: 1 <= k <= 3 && HasP(EntryAt(m, root, v, k)) ==> FrameOf(EntryAt(m, root, v, k)) != NULL
  }

  /** The first `n` entries on the walk that are present grant what is asked. */
  ghost predicate AllGrant(m: seq<byte>, root: nat, v: nat, perm: nat, n: nat)
    requires |m| == MEMSIZE_PHYSICAL && root < NPAGES && n <= 3
  {
    forall k :: 1 <= k <= n && HasP(EntryAt(m, root, v, k)) ==> Grants(EntryAt(m, root, v, k), perm)
  }

  /** What makes an assertion fail: an interior entry that is present and names nothing in
      memory, or lacks W or U where it is asked for. */
  lemma {:induction false} DeniedExactly(m: seq<byte>, root: nat, v: nat, perm: nat)
    requires |m| == MEMSIZE_PHYSICAL && root < NPAGES
    ensures !AllGrant(m, root, v, perm, 3) <==>
      exists k :: 1 <= k <= 3 && HasP(EntryAt(m, root, v, k)) &&
        (FrameOf(EntryAt(m, root, v, k)) >= 512
         || (HasW(perm) && !HasW(EntryAt(m, root, v, k))) || (HasU(perm) && !HasU(EntryAt(m, root, v, k))))
  {
  }

  /** The assertions fail exactly when some interior entry on the walk is present and does
      not grant what is asked. */
  method LookupL4Pagetable(mem: array<byte>, pagetable: nat, va: u64, perm: nat) returns (panic: bool, l4: nat)
    requires NoNullTable(mem[..], pagetable, PageOf(va))
    ensures panic <==> !AllGrant(mem[..], pagetable, PageOf(va), perm, 3)
    ensures !panic ==> l4 == L4Table(mem[..], pagetable, PageOf(va) / 512)
  {
    ghost var m, v := mem[..], PageOf(va);
    Prefixes(v);
    var pt := pagetable;
    for i := 0 to 3
      invariant Node(m, pagetable, i, Prefix(v, i)) == Some(pt) && pt != NULL && AllGrant(m, pagetable, v, perm, i)
    {
      L4Step(m, pagetable, va, i, pt);
      GrantMore(m, pagetable, v, perm, i);
      var pe := Load(mem[..], 4096 * pt + 8 * PageIndex(va, i), 8);
      if !HasP(pe) {
        return false, NULL;
      }
      if !(FrameOf(pe) < NPAGES && (!HasW(perm) || HasW(pe)) && (!HasU(perm) || HasU(pe))) {
        return true, NULL;
      }
      pt := FrameOf(pe);
    }
    return false, pt;
  }

  lemma {:induction false} GrantMore(m: seq<byte>, root: nat, v: nat, perm: nat, n: nat)
    requires |m| == MEMSIZE_PHYSICAL && root < NPAGES && n < 3
    ensures var e := EntryAt(m, root, v, n + 1);
      AllGrant(m, root, v, perm, n + 1) <==> AllGrant(m, root, v, perm, n) && (HasP(e) ==> Grants(e, perm))
    ensures AllGrant(m, root, v, perm, 3) ==> AllGrant(m, root, v, perm, n + 1)
    ensures (forall k :: n < k <= 3 ==> !HasP(EntryAt(m, root, v, k))) ==>
      (AllGrant(m, root, v, perm, 3) <==> AllGrant(m, root, v, perm, n))
  {
  }

  /** What the walk finds at its next level. */
  lemma {:induction false} L4Step(m: seq<byte>, root: nat, va: u64, i: nat, pt: nat)
    requires NoNullTable(m, root, PageOf(va)) && i < 3 && pt < NPAGES && Node(m, root, i, Prefix(PageOf(va), i)) == Some(pt)
    ensures var v := PageOf(va); var pe := Entry(m, pt, PageIndex(va, i));
      && pe == EntryAt(m, root, v, i + 1)
      && (!HasP(pe) ==> L4Table(m, root, v / 512) == NULL && forall k :: i < k <= 3 ==> !HasP(EntryAt(m, root, v, k)))
      && (HasP(pe) ==> FrameOf(pe) != NULL)
      && (HasP(pe) && FrameOf(pe) < NPAGES ==> Node(m, root, i + 1, Prefix(v, i + 1)) == Some(FrameOf(pe)))
  {
    var v := PageOf(va);
    Prefixes(v);
    IndexIsDigit(va, i);
    assert Prefix(v, i) == Prefix(v, i + 1) / 512;
    if !HasP(EntryAt(m, root, v, i + 1)) {
      AbsentBelow(m, root, v, i + 1);
      NothingBelow(m, root, v, i + 1);
    }
  }

  lemma {:induction false} AbsentBelow(m: seq<byte>, root: nat, v: nat, k: nat)
    requires |m| == MEMSIZE_PHYSICAL && root < NPAGES && 1 <= k <= 3 && Node(m, root, k, Prefix(v, k)).None?
    ensures Node(m, root, 3, Prefix(v, 3)).None?
    decreases 3 - k
  {
    if k < 3 {
      assert Prefix(v, k) == Prefix(v, k + 1) / 512;
      AbsentBelow(m, root, v, k + 1);
    }
  }

  /** Below an entry that is absent the walk reads nothing. */
  lemma {:induction false} NothingBelow(m: seq<byte>, root: nat, v: nat, k: nat)
    requires |m| == MEMSIZE_PHYSICAL && root < NPAGES && 1 <= k <= 3 && !HasP(EntryAt(m, root, v, k))
    ensures forall j :: k <= j <= 3 ==> !HasP(EntryAt(m, root, v, j))
    decreases 3 - k
  {
    if k < 3 {
      assert Prefix(v, k - 1) == Prefix(v, k) / 512;
      assert Node(m, root, k, Prefix(v, k)).None?;
      NothingBelow(m, root, v, k + 1);
    }
  }

  /** On a well-formed tree no assertion fails, whatever the rights asked for. */
  lemma {:induction false} TreeGrants(m: seq<byte>, root: nat, v: nat, perm: nat)
    requires Tree(m, root) && v < VPAGES
    ensures NoNullTable(m, root, v) && AllGrant(m, root, v, perm, 3)
  {
    TreeEntry(m, root, v, 1);
    TreeEntry(m, root, v, 2);
    TreeEntry(m, root, v, 3);
  }

  /** The entry written for the `i`th page of the range: `pa | perm`, or `perm`. */
  function NewEntry(pa: nat, perm: nat, i: nat): nat {
    if HasP(perm) then pa + 4096 * i + perm else perm
  }

  /** Every byte that changed is in a last-level table of `root`. */
  ghost predicate OnlyLeafTables(m: seq<byte>, m': seq<byte>, root: nat)
    requires |m| == MEMSIZE_PHYSICAL && |m'| == MEMSIZE_PHYSICAL && root < NPAGES
  {
    forall x :: 0 <= x < |m| && m[x] != m'[x] ==> IsLeafTable(m, root, x / 4096)
  }

  ghost predicate IsLeafTable(m: seq<byte>, root: nat, t: nat)
    requires |m| == MEMSIZE_PHYSICAL && root < NPAGES
  {
    exists q :: IsNode(m, root, 3, q) && Node(m, root, 3, q) == Some(t)
  }

  /** The entry of page `v` once `d` pages from `v0` on have been mapped. */
  function NewLeaf(m: seq<byte>, root: nat, v0: nat, pa: nat, perm: nat, d: nat, v: nat): Option<nat>
    requires |m| == MEMSIZE_PHYSICAL && root < NPAGES
  {
    if v0 <= v < v0 + d && Leaf(m, root, v).Some? then Some(NewEntry(pa, perm, v - v0)) else Leaf(m, root, v)
  }

  ghost predicate Leaves(m: seq<byte>, m': seq<byte>, root: nat, v0: nat, pa: nat, perm: nat, d: nat)
    requires |m| == MEMSIZE_PHYSICAL && |m'| == MEMSIZE_PHYSICAL && root < NPAGES
  {
    forall v :: 0 <= v < VPAGES ==> Leaf(m', root, v) == NewLeaf(m, root, v0, pa, perm, d, v)
  }

  /** From `m` to `m'`, the `d` pages from `v0` on took new entries, where they
      have a table; every other page kept its entry. */
  ghost predicate Mapped(m: seq<byte>, m': seq<byte>, root: nat, v0: nat, pa: nat, perm: nat, d: nat) {
    && Tree(m, root) && Tree(m', root) && SameNodes(m, m', root) && OnlyLeafTables(m, m', root)
    && Leaves(m, m', root, v0, pa, perm, d)
  }

  lemma {:induction false} MappedNone(m: seq<byte>, root: nat, v0: nat, pa: nat, perm: nat)
    requires Tree(m, root)
    ensures Mapped(m, m, root, v0, pa, perm, 0)
  {
  }

  lemma {:induction false} MappedNode(m: seq<byte>, m': seq<byte>, root: nat, v0: nat, pa: nat, perm: nat,
                                      d: nat, v: nat)
    requires Mapped(m, m', root, v0, pa, perm, d) && v < VPAGES
    ensures L4Table(m', root, v / 512) == L4Table(m, root, v / 512)
    ensures Leaf(m', root, v).Some? <==> L4Table(m', root, v / 512) != NULL
    ensures Leaf(m, root, v).Some? <==> L4Table(m, root, v / 512) != NULL
  {
    assert v / 512 < Digits(3);
    assert Node(m', root, 3, v / 512) == Node(m, root, 3, v / 512);
    TreeEntry(m, root, v, 3);
    Prefixes(v);
  }

  /** One more page of the range is written. */
  lemma {:induction false} MappedWrite(m: seq<byte>, m1: seq<byte>, m2: seq<byte>, root: nat,
                                       v0: nat, pa: nat, perm: nat, d: nat)
    requires Mapped(m, m1, root, v0, pa, perm, d) && v0 + d < VPAGES && NewEntry(pa, perm, d) < TWO64
    requires Node(m1, root, 3, (v0 + d) / 512).Some?
    requires m2 == SetEntry(m1, Node(m1, root, 3, (v0 + d) / 512).value, (v0 + d) % 512, NewEntry(pa, perm, d))
    ensures Mapped(m, m2, root, v0, pa, perm, d + 1)
  {
    var v := v0 + d;
    var t := Node(m1, root, 3, v / 512).value;
    assert IsNode(m1, root, 3, v / 512) && IsNode(m, root, 3, v / 512) by {
      assert Node(m1, root, 3, v / 512) == Node(m, root, 3, v / 512);
    }
    LeafWrite(m1, m2, root, v, NewEntry(pa, perm, d));
    forall k, q | 0 <= q && 0 <= k <= 3 && q < Digits(k) ensures Node(m2, root, k, q) == Node(m, root, k, q) {
      assert Node(m2, root, k, q) == Node(m1, root, k, q);
    }
    forall x | 0 <= x < |m| && m[x] != m2[x] ensures IsLeafTable(m, root, x / 4096) {
      if m[x] == m1[x] { InTable(t, v % 512, x); }
    }
    forall v' | 0 <= v' < VPAGES ensures Leaf(m2, root, v') == NewLeaf(m, root, v0, pa, perm, d + 1, v') {
      assert Leaf(m1, root, v') == NewLeaf(m, root, v0, pa, perm, d, v');
      NewLeafStep(m, root, v0, pa, perm, d, v');
    }
  }

  lemma {:induction false} NewLeafStep(m: seq<byte>, root: nat, v0: nat, pa: nat, perm: nat, d: nat, v: nat)
    requires |m| == MEMSIZE_PHYSICAL && root < NPAGES
    ensures NewLeaf(m, root, v0, pa, perm, d + 1, v)
      == if v == v0 + d && Leaf(m, root, v).Some? then Some(NewEntry(pa, perm, d)) else NewLeaf(m, root, v0, pa, perm, d, v)
  {
  }

  lemma {:induction false} InTable(t: nat, i: nat, x: nat)
    requires i < NENTRIES && 4096 * t + 8 * i <= x < 4096 * t + 8 * i + 8
    ensures x / 4096 == t
  {
  }

  /** One more page of the range has no table and is skipped. */
  lemma {:induction false} MappedSkip(m: seq<byte>, m': seq<byte>, root: nat, v0: nat, pa: nat, perm: nat, d: nat)
    requires Mapped(m, m', root, v0, pa, perm, d) && v0 + d < VPAGES && Leaf(m, root, v0 + d).None?
    ensures Mapped(m, m', root, v0, pa, perm, d + 1)
  {
  }

  /** `if (cur_index123 != last_index123) { ... }`: the table cached from the page
      before is used again unless the page has another one. */
  method CachedTable(mem: array<byte>, pagetable: nat, va: u64, perm: nat, last: int, l4: nat, ghost v: nat)
    returns (last': int, l4': nat)
    requires Tree(mem[..], pagetable) && va == 4096 * v && v < VPAGES
    requires last == -1 || (0 <= last < Digits(3) && l4 == L4Table(mem[..], pagetable, last))
    ensures last' == v / 512 && l4' == L4Table(mem[..], pagetable, v / 512)
  {
    PageIs(va, v);
    last', l4' := last, l4;
    var curIndex123 := ToInt32(va / 0x20_0000);
    if curIndex123 != last {
      TreeGrants(mem[..], pagetable, v, perm);
      var panic;
      panic, l4' := LookupL4Pagetable(mem, pagetable, va, perm);
      assert !panic;
      last' := curIndex123;
    }
  }

  /** The range is the `n` pages from page `v0` on; `d` of them are done on return. */
  method VirtualMemoryMap(mem: array<byte>, pagetable: nat, va0: u64, pa0: u64, sz0: u64, perm: nat,
                          ghost v0: nat, ghost n: nat) returns (r: int, ghost d: nat)
    requires Tree(mem[..], pagetable)
    requires va0 == 4096 * v0 && sz0 == 4096 * n && v0 + n <= VPAGES
    requires HasP(perm) ==> pa0 % 4096 == 0 && pa0 + sz0 <= MEMSIZE_PHYSICAL
    requires perm < 0x1000
    modifies mem
    ensures Mapped(old(mem[..]), mem[..], pagetable, v0, pa0, perm, d)
    ensures HasP(perm) ==> AllHaveTables(old(mem[..]), pagetable, v0, d)
    ensures if r == 0 then d == n
            else r == -1 && HasP(perm) && d < n && FailsAt(old(mem[..]), pagetable, v0, d)
    ensures d == 0 ==> mem[..] == old(mem[..])
  {
    ghost var m0 := mem[..];
    var va: nat, pa: u64, sz: int := va0, pa0, sz0;
    var lastIndex123: int, l4pagetable: nat := -1, NULL;
    d := 0;
    MappedNone(m0, pagetable, v0, pa0, perm);
    while sz != 0
      invariant d <= n && sz == 4096 * (n - d) && va == 4096 * (v0 + d)
      invariant HasP(perm) ==> pa == pa0 + 4096 * d
      invariant Mapping123(m0, mem[..], pagetable, v0, pa0, perm, d, lastIndex123, l4pagetable)
      decreases sz
    {
      var ok;
      ok, lastIndex123, l4pagetable :=
        MapNext(mem, pagetable, va, pa, perm, lastIndex123, l4pagetable, m0, v0, pa0, d);
      if !ok {
        return -1, d;
      }
      va, pa, sz, d := va + 4096, Wrap64(pa + 4096), sz - 4096, d + 1;
    }
    return 0, d;
  }

  /** The loop invariant: `d` pages are mapped, and the cached table is the one a
      fresh walk returns for the cached index. */
  ghost predicate Mapping123(m0: seq<byte>, m: seq<byte>, root: nat, v0: nat, pa0: nat, perm: nat, d: nat,
                             last: int, l4: nat) {
    && Mapped(m0, m, root, v0, pa0, perm, d)
    && (last == -1 || (0 <= last < Digits(3) && l4 == L4Table(m, root, last)))
    && (HasP(perm) ==> AllHaveTables(m0, root, v0, d))
    && (d == 0 ==> m == m0)
  }

  /** The loop body. */
  method MapNext(mem: array<byte>, pagetable: nat, va: u64, pa: u64, perm: nat, last: int, l4: nat,
                 ghost m0: seq<byte>, ghost v0: nat, ghost pa0: nat, ghost d: nat)
    returns (ok: bool, last': int, l4': nat)
    requires Mapping123(m0, mem[..], pagetable, v0, pa0, perm, d, last, l4)
    requires v0 + d < VPAGES && va == 4096 * (v0 + d) && perm < 0x1000
    requires HasP(perm) ==> pa == pa0 + 4096 * d < MEMSIZE_PHYSICAL
    modifies mem
    ensures ok ==> Mapping123(m0, mem[..], pagetable, v0, pa0, perm, d + 1, last', l4')
    ensures !ok ==> mem[..] == old(mem[..]) && HasP(perm) && FailsAt(m0, pagetable, v0, d)
  {
    last', l4' := CachedTable(mem, pagetable, va, perm, last, l4, v0 + d);
    ok := MapPage(mem, pagetable, l4', va, pa, perm, m0, v0, pa0, d);
  }

  /** The first page with no table: the start of the range, or of a 2 MB region. */
  ghost predicate FailsAt(m: seq<byte>, root: nat, v0: nat, d: nat)
    requires |m| == MEMSIZE_PHYSICAL && root < NPAGES
  {
    Leaf(m, root, v0 + d) == None && (d == 0 || (v0 + d) % 512 == 0)
  }

  ghost predicate AllHaveTables(m: seq<byte>, root: nat, v0: nat, d: nat)
    requires |m| == MEMSIZE_PHYSICAL && root < NPAGES
  {
    forall v :: v0 <= v < v0 + d ==> Leaf(m, root, v).Some?
  }

  /** The rest of the loop body: write the entry, skip the page, or fail. */
  method MapPage(mem: array<byte>, pagetable: nat, l4: nat, va: u64, pa: u64, perm: nat,
                 ghost m0: seq<byte>, ghost v0: nat, ghost pa0: nat, ghost d: nat) returns (ok: bool)
    requires Mapped(m0, mem[..], pagetable, v0, pa0, perm, d) && v0 + d < VPAGES && va == 4096 * (v0 + d)
    requires l4 == L4Table(mem[..], pagetable, (v0 + d) / 512) && perm < 0x1000
    requires HasP(perm) ==> pa == pa0 + 4096 * d < MEMSIZE_PHYSICAL && AllHaveTables(m0, pagetable, v0, d)
    modifies mem
    ensures ok ==> Mapped(m0, mem[..], pagetable, v0, pa0, perm, d + 1)
    ensures ok ==> SameNodes(old(mem[..]), mem[..], pagetable)
    ensures ok && HasP(perm) ==> AllHaveTables(m0, pagetable, v0, d + 1)
    ensures !ok ==> mem[..] == old(mem[..]) && HasP(perm) && FailsAt(m0, pagetable, v0, d)
  {
    MappedNode(m0, mem[..], pagetable, v0, pa0, perm, d, v0 + d);
    ok := true;
    if HasP(perm) && l4 != NULL {
      WriteLeaf(mem, pagetable, l4, va, pa + perm, m0, v0, pa0, perm, d);
    } else if l4 != NULL {
      WriteLeaf(mem, pagetable, l4, va, perm, m0, v0, pa0, perm, d);
    } else if HasP(perm) {
      Boundary(m0, pagetable, v0, d);
      ok := false;
    } else {
      MappedSkip(m0, mem[..], pagetable, v0, pa0, perm, d);
    }
  }

  lemma {:induction false} PageIs(va: u64, v: nat)
    requires va == 4096 * v && v < VPAGES
    ensures PageOf(va) == v && ToInt32(va / 0x20_0000) == v / 512 && PageIndex(va, 3) == v % 512
  {
    hide PageIndex;
    Shifts(va);
    PageIndexDigits(va);
    assert va / 4096 == v;
  }

  /** `l4pagetable->entry[L4PAGEINDEX(va)] = e` */
  method WriteLeaf(mem: array<byte>, pagetable: nat, l4: nat, va: u64, e: nat,
                   ghost m0: seq<byte>, ghost v0: nat, ghost pa0: nat, ghost perm: nat, ghost d: nat)
    requires Mapped(m0, mem[..], pagetable, v0, pa0, perm, d) && v0 + d < VPAGES && va == 4096 * (v0 + d)
    requires l4 != NULL && l4 == L4Table(mem[..], pagetable, (v0 + d) / 512)
    requires e == NewEntry(pa0, perm, d) < TWO64
    modifies mem
    ensures Mapped(m0, mem[..], pagetable, v0, pa0, perm, d + 1)
    ensures SameNodes(old(mem[..]), mem[..], pagetable)
  {
    hide SameNodes, OnlyLeafTables, Leaves, Unaliased;
    ghost var m1 := mem[..];
    PageIs(va, v0 + d);
    StoreField(mem, 4096 * l4 + 8 * PageIndex(va, 3), 8, e);
    LeafWritten(m0, m1, mem[..], pagetable, l4, v0, pa0, perm, d);
  }

  lemma {:induction false} LeafWritten(m0: seq<byte>, m1: seq<byte>, m2: seq<byte>, root: nat, l4: nat,
                                       v0: nat, pa: nat, perm: nat, d: nat)
    requires Mapped(m0, m1, root, v0, pa, perm, d) && v0 + d < VPAGES && NewEntry(pa, perm, d) < TWO64
    requires l4 != NULL && l4 == L4Table(m1, root, (v0 + d) / 512)
    requires m2 == SetEntry(m1, l4, (v0 + d) % 512, NewEntry(pa, perm, d))
    ensures Mapped(m0, m2, root, v0, pa, perm, d + 1) && SameNodes(m1, m2, root)
  {
    MappedWrite(m0, m1, m2, root, v0, pa, perm, d);
    SameNodesBetween(m0, m1, m2, root);
  }

  lemma {:induction false} SameNodesBetween(m: seq<byte>, m1: seq<byte>, m2: seq<byte>, root: nat)
    requires |m| == |m1| == |m2| == MEMSIZE_PHYSICAL && root < NPAGES
    requires SameNodes(m, m1, root) && SameNodes(m, m2, root)
    ensures SameNodes(m1, m2, root)
  {
    forall k, q | 0 <= q && 0 <= k <= 3 && q < Digits(k) ensures Node(m2, root, k, q) == Node(m1, root, k, q) {
      assert Node(m1, root, k, q) == Node(m, root, k, q);
    }
  }

  lemma {:induction false} SameTable(v: nat)
    requires v > 0
    ensures v % 512 != 0 ==> v / 512 == (v - 1) / 512
  {
  }

  /** The walk can fail only where a new table begins. */
  lemma {:induction false} Boundary(m: seq<byte>, root: nat, v0: nat, d: nat)
    requires |m| == MEMSIZE_PHYSICAL && root < NPAGES && v0 + d < VPAGES
    requires AllHaveTables(m, root, v0, d) && Leaf(m, root, v0 + d).None?
    ensures d == 0 || (v0 + d) % 512 == 0
  {
    if d > 0 {
      SameTable(v0 + d);
      assert Leaf(m, root, v0 + d - 1).Some?;
    }
  }
}
