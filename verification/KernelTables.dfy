/** virtual_memory_map seen through virtual_memory_lookup, and the kernel's own
    page tables. */
module KernelTables {
  import opened Bytes
  import opened Options
  import opened PageTables
  import opened VirtualMemory

  predicate InRange(va: u64, v0: nat, d: nat) {
    v0 <= PageOf(va) < v0 + d
  }

  /** Mapping a range is updating a flat map: inside the range every address is
      mapped at the same distance from `pa` with exactly `perm`, or is unmapped
      if `perm` lacks P; outside it nothing changes. */
  lemma {:induction false} MapRefinesFlatUpdate(m: seq<byte>, m': seq<byte>, root: nat, v0: nat, pa: nat, perm: nat,
                                                d: nat, va: u64)
    requires Mapped(m, m', root, v0, pa, perm, d) && perm < 0x1000
    requires HasP(perm) ==> pa % 4096 == 0 && pa + 4096 * d <= MEMSIZE_PHYSICAL && AllHaveTables(m, root, v0, d)
    ensures Lookup(m', root, va) ==
      if !InRange(va, v0, d) then Lookup(m, root, va)
      else if HasP(perm) then Mapping(pa / 4096 + PageOf(va) - v0, pa + 4096 * (PageOf(va) - v0) + va % 4096, perm)
      else UNMAPPED
  {
    hide Tree, SameNodes, OnlyLeafTables, Node, WalkOk;
    var v := PageOf(va);
    TreeLookup(m, root, va);
    TreeLookup(m', root, va);
    assert Leaf(m', root, v) == NewLeaf(m, root, v0, pa, perm, d, v);
    if InRange(va, v0, d) && HasP(perm) {
      assert Leaf(m, root, v).Some?;
      NewMapping(pa, perm, v - v0, va);
    }
  }

  /** The entry written for the `i`th page maps as asked. */
  lemma {:induction false} NewMapping(pa: nat, perm: nat, i: nat, va: u64)
    requires perm < 0x1000 && HasP(perm) && pa % 4096 == 0 && pa + 4096 * i < MEMSIZE_PHYSICAL
    ensures ToMapping(NewEntry(pa, perm, i), va) == Mapping(pa / 4096 + i, pa + 4096 * i + va % 4096, perm)
  {
    EntryParts(pa / 4096 + i, perm);
    assert pa == 4096 * (pa / 4096);
  }

  lemma {:induction false} EntryParts(f: nat, perm: nat)
    requires perm < 0x1000 && f < NPAGES
    ensures FrameOf(4096 * f + perm) == f && Flags(4096 * f + perm) == perm && HasP(4096 * f + perm) == HasP(perm)
    ensures ToInt32(f) == f
  {
    FlagsBits(4096 * f + perm);
  }

  // ----- virtual_memory_init -----

  /** The entry `i` of table `t` before the identity map is made; the kernel's
      five tables are the frames from `k` on. */
  function LinkEntry(k: nat, t: nat, i: nat): nat {
    if t == k && i == 0 then 4096 * (k + 1) + 7
    else if t == k + 1 && i == 0 then 4096 * (k + 2) + 7
    else if t == k + 2 && i == 0 then 4096 * (k + 3) + 7
    else if t == k + 2 && i == 1 then 4096 * (k + 4) + 7
    else 0
  }

  ghost predicate Linked(m: seq<byte>, k: nat) {
    && |m| == MEMSIZE_PHYSICAL && 0 < k && k + 5 <= NPAGES
    && forall t, i :: k <= t < k + 5 && 0 <= i < NENTRIES ==> Entry(m, t, i) == LinkEntry(k, t, i)
  }

  lemma {:induction false} LinkParts(f: nat)
    requires 0 < f < NPAGES
    ensures HasP(4096 * f + 7) && HasW(4096 * f + 7) && HasU(4096 * f + 7) && FrameOf(4096 * f + 7) == f
    ensures Child(4096 * f + 7) == Some(f)
  {
    EntryParts(f, 7);
    FlagsBits(4096 * f + 7);
  }

  /** The tables reachable from the root, all of them. */
  lemma {:induction false} LinkedNode(m: seq<byte>, k: nat, l: nat, q: nat)
    requires Linked(m, k) && l <= 3 && q < Digits(l)
    ensures Node(m, k, l, q) ==
      if q == 0 then Some(k + l) else if l == 3 && q == 1 then Some(k + 4) else None
    decreases l
  {
    LinkParts(k + 1);
    LinkParts(k + 2);
    LinkParts(k + 3);
    LinkParts(k + 4);
    if l > 0 {
      LinkedNode(m, k, l - 1, q / 512);
      if q / 512 == 0 { assert Entry(m, k + l - 1, q % 512) == LinkEntry(k, k + l - 1, q % 512); }
    }
  }

  lemma {:induction false} LinkedTree(m: seq<byte>, k: nat)
    requires Linked(m, k)
    ensures Tree(m, k)
  {
    forall l, q, l', q' | IsNode(m, k, l, q) && IsNode(m, k, l', q') && Node(m, k, l, q) == Node(m, k, l', q')
      ensures l == l' && q == q'
    {
      LinkedNode(m, k, l, q);
      LinkedNode(m, k, l', q');
    }
    forall l, q, i | IsNode(m, k, l, q) && l < 3 && 0 <= i < NENTRIES
      ensures InteriorOk(Entry(m, Node(m, k, l, q).value, i))
    {
      LinkedNode(m, k, l, q);
      LinkParts(k + 1);
      LinkParts(k + 2);
      LinkParts(k + 3);
      LinkParts(k + 4);
      assert Entry(m, k + l, i) == LinkEntry(k, k + l, i);
    }
  }

  lemma {:induction false} LoadZero(m: seq<byte>, a: nat, n: nat)
    requires a + n <= |m| && forall x :: a <= x < a + n ==> m[x] == 0
    ensures Load(m, a, n) == 0
    decreases n
  {
    if n > 0 { LoadZero(m, a + 1, n - 1); }
  }

  /** `kernel_pagetables[t - k].entry[i] = (x86_64_pageentry_t) &kernel_pagetables[c - k] | PTE_P | PTE_W | PTE_U` */
  method Link(mem: array<byte>, t: nat, i: nat, c: nat)
    requires mem.Length == MEMSIZE_PHYSICAL && t < NPAGES && i < NENTRIES && c < NPAGES
    modifies mem
    ensures mem[..] == SetEntry(old(mem[..]), t, i, 4096 * c + 7)
  {
    StoreField(mem, 4096 * t + 8 * i, 8, 4096 * c + PTE_P + PTE_W + PTE_U);
  }

  lemma {:induction false} AllLinked(m0: seq<byte>, k: nat)
    requires |m0| == MEMSIZE_PHYSICAL && 0 < k && k + 5 <= NPAGES
    requires forall x :: 4096 * k <= x < 4096 * (k + 5) ==> m0[x] == 0
    ensures var m1 := SetEntry(m0, k, 0, 4096 * (k + 1) + 7);
      var m2 := SetEntry(m1, k + 1, 0, 4096 * (k + 2) + 7);
      var m3 := SetEntry(m2, k + 2, 0, 4096 * (k + 3) + 7);
      Linked(SetEntry(m3, k + 2, 1, 4096 * (k + 4) + 7), k)
  {
    var m1 := SetEntry(m0, k, 0, 4096 * (k + 1) + 7);
    var m2 := SetEntry(m1, k + 1, 0, 4096 * (k + 2) + 7);
    var m3 := SetEntry(m2, k + 2, 0, 4096 * (k + 3) + 7);
    var m4 := SetEntry(m3, k + 2, 1, 4096 * (k + 4) + 7);
    forall t, i | k <= t < k + 5 && 0 <= i < NENTRIES ensures Entry(m4, t, i) == LinkEntry(k, t, i) {
      LoadZero(m0, 4096 * t + 8 * i, 8);
      EntrySet(m0, k, 0, 4096 * (k + 1) + 7, t, i);
      EntrySet(m1, k + 1, 0, 4096 * (k + 2) + 7, t, i);
      EntrySet(m2, k + 2, 0, 4096 * (k + 3) + 7, t, i);
      EntrySet(m3, k + 2, 1, 4096 * (k + 4) + 7, t, i);
    }
  }

  /** The kernel's address space: physical memory at its own addresses, all
      rights, and nothing else. */
  ghost predicate IdentityMapped(m: seq<byte>, root: nat) {
    && Tree(m, root)
    && forall va: u64 :: Lookup(m, root, va) == IdentityLookup(va)
  }

  function IdentityLookup(va: u64): Mapping {
    if PageOf(va) < NPAGES then Mapping(PageOf(va), 4096 * PageOf(va) + va % 4096, 7) else UNMAPPED
  }

  // ----- set_pagetable -----

  ghost predicate MapsItself(m: seq<byte>, root: nat, va: u64) {
    WalkOk(m, root, PageOf(va)) && Lookup(m, root, va).pa == va
  }

  /** What set_pagetable asserts: the kernel goes on running under the new tables. `handler`
      and `mapper` are the addresses of default_int_handler and virtual_memory_map. */
  ghost predicate Installable(m: seq<byte>, kroot: nat, root: nat, handler: u64, mapper: u64) {
    && kroot < NPAGES && root < NPAGES
    && MapsItself(m, root, handler) && MapsItself(m, kroot, 4096 * root)
    && MapsItself(m, root, 4096 * kroot) && MapsItself(m, root, mapper)
  }

  ghost predicate WalksOk(m: seq<byte>, kroot: nat, root: nat, handler: u64, mapper: u64) {
    && kroot < NPAGES && root < NPAGES
    && WalkOk(m, root, PageOf(handler)) && WalkOk(m, kroot, PageOf(4096 * root))
    && WalkOk(m, root, PageOf(4096 * kroot)) && WalkOk(m, root, PageOf(mapper))
  }

  /** A table is a frame here, so the first assertion, that it is page-aligned, holds. */
  method SetPagetable(mem: array<byte>, kernelPagetable: nat, pagetable: nat, handler: u64, mapper: u64)
    returns (ok: bool)
    requires WalksOk(mem[..], kernelPagetable, pagetable, handler, mapper)
    ensures ok <==>
      && Lookup(mem[..], pagetable, handler).pa == handler
      && Lookup(mem[..], kernelPagetable, 4096 * pagetable).pa == 4096 * pagetable
      && Lookup(mem[..], pagetable, 4096 * kernelPagetable).pa == 4096 * kernelPagetable
      && Lookup(mem[..], pagetable, mapper).pa == mapper
  {
    var vam := VirtualMemoryLookup(mem, pagetable, handler);
    if vam.pa != handler { return false; }
    vam := VirtualMemoryLookup(mem, kernelPagetable, 4096 * pagetable);
    if vam.pa != 4096 * pagetable { return false; }
    vam := VirtualMemoryLookup(mem, pagetable, 4096 * kernelPagetable);
    if vam.pa != 4096 * kernelPagetable { return false; }
    vam := VirtualMemoryLookup(mem, pagetable, mapper);
    return vam.pa == mapper;
  }

  lemma {:induction false} IdentityMapsItself(m: seq<byte>, k: nat, va: u64)
    requires IdentityMapped(m, k) && va < MEMSIZE_PHYSICAL
    ensures MapsItself(m, k, va)
  {
    TreeLookup(m, k, va);
    PageOfLow(va);
    assert Lookup(m, k, va) == IdentityLookup(va);
  }

  lemma {:induction false} PageOfLow(va: u64)
    requires va < MEMSIZE_PHYSICAL
    ensures PageOf(va) < NPAGES && 4096 * PageOf(va) + va % 4096 == va
  {
  }

  method VirtualMemoryInit(mem: array<byte>, k: nat, handler: u64, mapper: u64) returns (ghost linked: seq<byte>)
    requires mem.Length == MEMSIZE_PHYSICAL && 0 < k && k + 5 <= NPAGES
    requires handler < MEMSIZE_PHYSICAL && mapper < MEMSIZE_PHYSICAL
    modifies mem
    ensures IdentityMapped(mem[..], k)
    ensures Linked(linked, k) && Mapped(linked, mem[..], k, 0, 0, 7, NPAGES)
    ensures forall x :: 0 <= x < mem.Length && !(4096 * k <= x < 4096 * (k + 5)) ==> mem[x] == old(mem[x])
  {
    ghost var before := mem[..];
    forall x | 4096 * k <= x < 4096 * (k + 5) { mem[x] := 0; }
    ghost var m0 := mem[..];
    Link(mem, k, 0, k + 1);
    Link(mem, k + 1, 0, k + 2);
    Link(mem, k + 2, 0, k + 3);
    Link(mem, k + 2, 1, k + 4);
    AllLinked(m0, k);
    ghost var m4 := mem[..];
    LinkedTree(m4, k);
    var r, d := VirtualMemoryMap(mem, k, 0, 0, MEMSIZE_PHYSICAL, PTE_P + PTE_W + PTE_U, 0, NPAGES);
    LinkedIdentity(m4, mem[..], k, d, r);
    LinkedFrame(before, m4, mem[..], k);
    linked := m4;
    CheckIdentity(mem, k);
    IdentityInstallable(mem[..], k, handler, mapper);
    var ok := SetPagetable(mem, k, k, handler, mapper);
    assert ok;
  }

  lemma {:induction false} IdentityInstallable(m: seq<byte>, k: nat, handler: u64, mapper: u64)
    requires IdentityMapped(m, k) && k < NPAGES && handler < MEMSIZE_PHYSICAL && mapper < MEMSIZE_PHYSICAL
    ensures Installable(m, k, k, handler, mapper) && WalksOk(m, k, k, handler, mapper)
  {
    IdentityMapsItself(m, k, handler);
    IdentityMapsItself(m, k, mapper);
    IdentityMapsItself(m, k, 4096 * k);
  }

  /** The assertions in the loop of virtual_memory_init. */
  method CheckIdentity(mem: array<byte>, k: nat)
    requires IdentityMapped(mem[..], k)
  {
    hide HasP, HasW, WalkOk, Tree;
    for v := 0 to NPAGES {
      PageIs(4096 * v, v);
      TreeLookup(mem[..], k, 4096 * v);
      var vmap := VirtualMemoryLookup(mem, k, 4096 * v);
      SevenIsAll();
      assert vmap.pa == 4096 * v && HasP(vmap.perm) && HasW(vmap.perm);
    }
  }

  lemma {:induction false} LinkedLeaf(m: seq<byte>, k: nat, v: nat)
    requires Linked(m, k) && v < VPAGES
    ensures Leaf(m, k, v) == if v < 1024 then Some(0) else None
  {
    LinkedNode(m, k, 3, v / 512);
    if v < 512 {
      assert Entry(m, k + 3, v % 512) == LinkEntry(k, k + 3, v % 512);
    } else if v < 1024 {
      assert Entry(m, k + 4, v % 512) == LinkEntry(k, k + 4, v % 512);
    }
  }

  lemma {:induction false} LinkedIdentity(m: seq<byte>, m': seq<byte>, k: nat, d: nat, r: int)
    requires Linked(m, k) && Mapped(m, m', k, 0, 0, 7, d) && AllHaveTables(m, k, 0, d)
    requires if r == 0 then d == NPAGES else d < NPAGES && FailsAt(m, k, 0, d)
    ensures IdentityMapped(m', k) && d == NPAGES
  {
    if r != 0 { LinkedLeaf(m, k, d); }
    forall va: u64 ensures Lookup(m', k, va) == IdentityLookup(va) {
      LinkedLookup(m, m', k, va);
    }
  }

  lemma {:induction false} LinkedLookup(m: seq<byte>, m': seq<byte>, k: nat, va: u64)
    requires Linked(m, k) && Mapped(m, m', k, 0, 0, 7, NPAGES) && AllHaveTables(m, k, 0, NPAGES)
    ensures Lookup(m', k, va) == IdentityLookup(va)
  {
    MapRefinesFlatUpdate(m, m', k, 0, 0, 7, NPAGES, va);
    LinkedUnmapped(m, k, va);
    SevenIsAll();
  }

  lemma {:induction false} SevenIsAll()
    ensures HasP(7) && HasW(7) && HasU(7)
  {
  }

  /** Before the identity map is made, nothing is mapped. */
  lemma {:induction false} LinkedUnmapped(m: seq<byte>, k: nat, va: u64)
    requires Linked(m, k)
    ensures Tree(m, k) && Lookup(m, k, va) == UNMAPPED
  {
    LinkedTree(m, k);
    TreeLookup(m, k, va);
    LinkedLeaf(m, k, PageOf(va));
  }

  lemma {:induction false} LinkedFrame(before: seq<byte>, m: seq<byte>, m': seq<byte>, k: nat)
    requires Linked(m, k) && |before| == |m| == |m'| && OnlyLeafTables(m, m', k)
    requires forall x :: 0 <= x < |m| && !(4096 * k <= x < 4096 * (k + 5)) ==> m[x] == before[x]
    ensures forall x :: 0 <= x < |m| && !(4096 * k <= x < 4096 * (k + 5)) ==> m'[x] == before[x]
  {
    forall x | 0 <= x < |m| && !(4096 * k <= x < 4096 * (k + 5)) ensures m'[x] == before[x] {
      if m'[x] != m[x] {
        var q :| IsNode(m, k, 3, q) && Node(m, k, 3, q) == Some(x / 4096);
        LinkedNode(m, k, 3, q);
      }
    }
  }
}
