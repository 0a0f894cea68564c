/** What heap_info promises, and the steps that get it there. heap_info places
    its result arrays and its sort scratch in the heap it is measuring. */
module HeapInfoSpec {
  import opened Bytes
  import opened Options
  import opened Sbrk
  import opened Blocks
  import opened BlockLemmas
  import opened Placement
  import opened HeapSpec
  import opened Sorting
  import opened HeapSort
  import opened UsedBlocks

  datatype HeapInfo = HeapInfo(ret: int, numAllocs: nat, sizeArray: nat, ptrArray: nat,
                               freeSpace: nat, largestFreeChunk: nat)

  const FAILED := HeapInfo(-1, 0, 0, 0, 0, 0)

  function Reported(h: Heap): seq<Pair> {
    UsedList(h.format, h.start, h.blocks)
  }

  /** `p` is the block of a result array: the library's own, with room for `n` words. */
  ghost predicate OwnArray(h: Heap, p: nat, n: nat) {
    Live(h, p).Some? && Live(h, p).value.state == Internal && 8 * n <= Live(h, p).value.size - Header(h)
  }

  /** `h` is the heap before the call, `u` the heap at the second pass, `h'` the
      heap afterwards and `p` the reported (usable size, payload) pairs. */
  ghost predicate InfoStep(h: Heap, u: Heap, h': Heap, r: HeapInfo, p: seq<Pair>) {
    && WellFormed(u) && WellFormed(h') && SameSpace(h, h') && SameSpace(h, u) && h.brk <= u.brk <= h'.brk
    && Kept(h, h', 0)
    && if r.ret != 0 then r == FAILED && SameBlocks(h, h')
       else
         && r.ret == 0 && r.numAllocs == |Reported(h)| == |p|
         && SortedDesc(p) && multiset(p) == multiset(Reported(h))
         && (if r.numAllocs == 0 then u == h && h' == h && r.sizeArray == r.ptrArray == 0
             else
               && ArraysAdded(h, u, r.sizeArray, r.ptrArray, r.numAllocs)
               && FreeBytes(u.blocks) + SizeOf(u, r.sizeArray) + SizeOf(u, r.ptrArray)
               == FreeBytes(h.blocks) + (u.brk - h.brk)
               && Holds(h'.mem, Arrays(r.sizeArray, r.ptrArray, r.numAllocs), p))
         && SameBlocks(u, h')
         && r.freeSpace == FreeBytes(Measured(h, u).blocks) && r.largestFreeChunk == LargestFree(Measured(h, u).blocks)
         && FreeBytes(h'.blocks) == FreeBytes(u.blocks) + (h'.brk - u.brk)
  }

  /** So C reports the free space less what the result arrays take of it, and Rust the free
      space that there was. */
  lemma {:induction false} ReportedFreeSpace(h: Heap, u: Heap, h': Heap, r: HeapInfo, p: seq<Pair>)
    requires InfoStep(h, u, h', r, p) && r.ret == 0 && r.numAllocs > 0
    ensures h.format == C ==>
      r.freeSpace + SizeOf(u, r.sizeArray) + SizeOf(u, r.ptrArray) == FreeBytes(h.blocks) + (u.brk - h.brk)
    ensures h.format == Rust ==> r.freeSpace == FreeBytes(h.blocks)
  {
  }

  /** The heap whose free blocks are counted: with the result arrays in it in C,
      before they are placed in Rust. */
  function Measured(h: Heap, u: Heap): Heap {
    if h.format == C then u else h
  }

  /** The two result arrays are the only new blocks in use. */
  ghost predicate ArraysAdded(h: Heap, u: Heap, sa: nat, pa: nat, n: nat) {
    && sa != pa && sa != 0 && pa != 0 && Live(h, sa) == None && Live(h, pa) == None
    && OwnArray(u, sa, n) && OwnArray(u, pa, n)
    && forall q :: q != sa && q != pa ==> Live(u, q) == Live(h, q)
  }

  ghost predicate LiveIs(h: Heap, h': Heap, p: nat, v: Option<Block>) {
    forall q :: Live(h', q) == if q == p then v else Live(h, q)
  }

  lemma {:induction false} MarkMeaning(h: Heap, h': Heap, p: nat, s: State)
    requires WellFormed(h) && Live(h, p).Some? && StateSet(h, h', p, s)
    ensures LiveIs(h, h', p, if s == Free then None else Some(Live(h, p).value.(state := s)))
    ensures FreeBytes(h'.blocks) == FreeBytes(h.blocks) + if s == Free then Live(h, p).value.size else 0
  {
    forall q ensures Live(h', q) == if q == p then (if s == Free then None else Some(Live(h, p).value.(state := s)))
                                    else Live(h, q)
    {
      SetStateLive(h.format, h.start, h.blocks, p, s, q);
    }
    SetStateFreeBytes(h.format, h.start, h.blocks, p, s);
  }

  /** Every byte that changed lies in the payload of a block of `ps`. */
  ghost predicate WritesIn(h: Heap, h': Heap, ps: set<nat>) {
    && h' == h.(mem := h'.mem) && |h'.mem| == |h.mem|
    && forall x :: 0 <= x < |h.mem| && h.mem[x] != h'.mem[x] ==> WrittenIn(h, ps, x)
  }

  ghost predicate WrittenIn(h: Heap, ps: set<nat>, x: int) {
    exists p :: p in ps && Owns(h, p, x)
  }

  /** From `h` to `h'` no payload changed but those of the blocks of `ps`. */
  ghost predicate KeptBut(h: Heap, h': Heap, ps: set<nat>) {
    && h'.format == h.format && |h'.mem| == |h.mem|
    && forall q, x :: q !in ps && q != 0 && 0 <= x < |h.mem| && Owns(h, q, x) ==> h'.mem[x] == h.mem[x]
  }

  /** Writing into payloads harms neither the headers nor the other payloads. */
  lemma {:induction false} WritesKeep(h: Heap, h': Heap, ps: set<nat>)
    requires WellFormed(h) && WritesIn(h, h', ps)
    ensures WellFormed(h') && SameBlocks(h, h') && KeptBut(h, h', ps)
  {
    forall x | h.start <= x < h.start + Sum(h.blocks) && h.mem[x] != h'.mem[x]
      ensures Covered(h.format, h.start, h.blocks, x)
    {
      var p :| p in ps && Owns(h, p, x);
      assert InPayload(h.format, h.start, h.blocks, p, x);
    }
    TiledFrame(h.format, h.mem, h'.mem, h.start, h.blocks);
    forall q, x | q !in ps && q != 0 && 0 <= x < |h.mem| && Owns(h, q, x) ensures h'.mem[x] == h.mem[x] {
      if h.mem[x] != h'.mem[x] {
        var p :| p in ps && Owns(h, p, x);
        DisjointBlocks(h, p, q);
      }
    }
  }

  /** A chain of steps keeps the payloads of `h0`, if each step keeps those of
      its start and the blocks written to are not blocks of `h0`. */
  lemma {:induction false} KeptButTrans(h0: Heap, h1: Heap, h2: Heap, ps: set<nat>, qs: set<nat>)
    requires KeptBut(h0, h1, ps) && KeptBut(h1, h2, qs)
    requires forall q: nat :: q in qs && q !in ps ==> Live(h0, q) == None
    requires forall q :: q !in ps && Live(h0, q).Some? ==>
               Live(h1, q).Some? && Live(h1, q).value.size == Live(h0, q).value.size
    ensures KeptBut(h0, h2, ps)
  {
    forall q, x | q !in ps && q != 0 && 0 <= x < |h0.mem| && Owns(h0, q, x) ensures h2.mem[x] == h0.mem[x] {
      assert Live(h0, q).Some? && Live(h1, q).Some?;
      assert Owns(h1, q, x);
    }
  }

  /** The cells of arrays that fit their blocks are bytes of those blocks. */
  lemma {:induction false} CellsOwned(h: Heap, h': Heap, a: Arrays, lo: nat, hi: nat)
    requires Live(h, a.sizes).Some? && 8 * a.n <= Live(h, a.sizes).value.size - Header(h)
    requires Live(h, a.ptrs).Some? && 8 * a.n <= Live(h, a.ptrs).value.size - Header(h)
    requires lo <= hi <= a.n && h' == h.(mem := h'.mem) && OnlyCells(h.mem, h'.mem, a, lo, hi)
    ensures WritesIn(h, h', {a.sizes, a.ptrs})
  {
    forall x | 0 <= x < |h.mem| && h.mem[x] != h'.mem[x] ensures WrittenIn(h, {a.sizes, a.ptrs}, x) {
      assert InCells(a, lo, hi, x);
      assert Owns(h, a.sizes, x) || Owns(h, a.ptrs, x);
    }
  }

  lemma {:induction false} CellsOwned2(h: Heap, h': Heap, a: Arrays, t: Arrays)
    requires Live(h, a.sizes).Some? && 8 * a.n <= Live(h, a.sizes).value.size - Header(h)
    requires Live(h, a.ptrs).Some? && 8 * a.n <= Live(h, a.ptrs).value.size - Header(h)
    requires Live(h, t.sizes).Some? && 8 * a.n <= Live(h, t.sizes).value.size - Header(h)
    requires Live(h, t.ptrs).Some? && 8 * a.n <= Live(h, t.ptrs).value.size - Header(h)
    requires h' == h.(mem := h'.mem) && OnlyCells2(h.mem, h'.mem, a, t, 0, a.n) && t.n == a.n
    ensures WritesIn(h, h', {a.sizes, a.ptrs, t.sizes, t.ptrs})
  {
    forall x | 0 <= x < |h.mem| && h.mem[x] != h'.mem[x]
      ensures WrittenIn(h, {a.sizes, a.ptrs, t.sizes, t.ptrs}, x)
    {
      assert InCells(a, 0, a.n, x) || InCells(t, 0, a.n, x);
      assert Owns(h, a.sizes, x) || Owns(h, a.ptrs, x) || Owns(h, t.sizes, x) || Owns(h, t.ptrs, x);
    }
  }

  /** Two arrays in two blocks are in memory and do not overlap. */
  lemma {:induction false} ArraysApart(h: Heap, x: nat, y: nat, n: nat)
    requires WellFormed(h) && Live(h, x).Some? && Live(h, y).Some? && x != y
    requires 8 * n <= Live(h, x).value.size - Header(h) && 8 * n <= Live(h, y).value.size - Header(h)
    ensures Apart(x, y, n) && x + 8 * n <= |h.mem| && y + 8 * n <= |h.mem|
  {
    LiveFacts(h, x);
    LiveFacts(h, y);
    DisjointBlocks(h, x, y);
  }

  // ----- blocks held for the time being -----

  function SizeOf(h: Heap, t: nat): nat {
    var b := Live(h, t);
    if b.Some? then b.value.size else 0
  }

  /** `h` is `h0` plus at most two blocks, at `t1` and `t2` (0 for none), and
      the payloads of `h0` outside `ps` are as they were. */
  ghost predicate Extra(h0: Heap, h: Heap, t1: nat, t2: nat, ps: set<nat>) {
    && WellFormed(h0) && WellFormed(h) && SameSpace(h0, h) && h0.brk <= h.brk
    && (t1 == t2 ==> t1 == 0)
    && Live(h0, t1) == None && Live(h0, t2) == None
    && (Live(h, t1).Some? <==> t1 != 0) && (Live(h, t2).Some? <==> t2 != 0)
    && (forall q :: q != t1 && q != t2 ==> Live(h, q) == Live(h0, q))
    && FreeBytes(h.blocks) + SizeOf(h, t1) + SizeOf(h, t2) == FreeBytes(h0.blocks) + (h.brk - h0.brk)
    && KeptBut(h0, h, ps)
  }

  lemma {:induction false} NullDead(h: Heap)
    requires WellFormed(h)
    ensures Live(h, 0) == None
  {
    if Live(h, 0).Some? { LiveFacts(h, 0); }
  }

  lemma {:induction false} ExtraNone(h: Heap)
    requires WellFormed(h)
    ensures Extra(h, h, 0, 0, {})
  {
    NullDead(h);
  }

  lemma {:induction false} ExtraMalloc(h0: Heap, h1: Heap, h2: Heap, t1: nat, sz: nat, t2: nat, ps: set<nat>)
    requires Extra(h0, h1, t1, 0, ps) && sz > 0 && MallocStep(h1, h2, sz, t2)
    ensures Extra(h0, h2, t1, t2, ps)
    ensures t2 != 0 ==> Live(h2, t2).Some? && Usable(h2.format, Live(h2, t2).value) >= sz && Live(h1, t2) == None
    ensures t2 != 0 && t1 != 0 ==> Live(h2, t1) == Live(h1, t1)
    ensures t2 == 0 ==> h2 == h1
  {
    NullDead(h1);
    if t2 != 0 {
      var b := MallocMeaning(h1, h2, sz, t2);
      assert Live(h2, t2) == Some(b) && Live(h1, t2) == None;
      assert Live(h2, t1) == if t1 == t2 then Some(b) else Live(h1, t1);
      if t2 != t1 { assert Live(h1, t2) == Live(h0, t2); }
      forall q | q != t1 && q != t2 ensures Live(h2, q) == Live(h0, q) {
        assert Live(h2, q) == Live(h1, q) && Live(h1, q) == Live(h0, q);
      }
      KeptIsKeptBut(h1, h2);
      KeptButTrans(h0, h1, h2, ps, {});
    }
  }

  lemma {:induction false} KeptIsKeptBut(h: Heap, h': Heap)
    requires WellFormed(h)
    ensures Kept(h, h', 0) <==> KeptBut(h, h', {})
  {
  }

  lemma {:induction false} ExtraMark(h0: Heap, h: Heap, h': Heap, t1: nat, t2: nat, ps: set<nat>, t: nat)
    requires Extra(h0, h, t1, t2, ps) && t != 0 && (t == t1 || t == t2) && StateSet(h, h', t, Internal)
    ensures Extra(h0, h', t1, t2, ps)
    ensures Live(h', t) == Some(Live(h, t).value.(state := Internal))
    ensures forall q :: q != t ==> Live(h', q) == Live(h, q)
  {
    MarkMeaning(h, h', t, Internal);
    assert forall q :: q != t ==> Live(h', q) == Live(h, q);
    KeptIsKeptBut(h, h');
    KeptButTrans(h0, h, h', ps, {});
  }

  lemma {:induction false} ExtraFree(h0: Heap, h: Heap, h': Heap, t1: nat, t2: nat, ps: set<nat>)
    requires Extra(h0, h, t1, t2, ps) && FreeStep(h, h', t1)
    ensures Extra(h0, h', 0, t2, ps)
  {
    NullDead(h0);
    NullDead(h);
    if t1 != 0 {
      MarkMeaning(h, h', t1, State.Free);
      assert forall q :: q != t1 ==> Live(h', q) == Live(h, q);
      assert Live(h', t1) == None;
      NullDead(h');
      KeptIsKeptBut(h, h');
      KeptButTrans(h0, h, h', ps, {});
    }
  }

  lemma {:induction false} ExtraSwap(h0: Heap, h: Heap, t1: nat, t2: nat, ps: set<nat>)
    requires Extra(h0, h, t1, t2, ps)
    ensures Extra(h0, h, t2, t1, ps)
  {
  }

  lemma {:induction false} ExtraWrite(h0: Heap, h: Heap, h': Heap, t1: nat, t2: nat, ps: set<nat>, qs: set<nat>)
    requires Extra(h0, h, t1, t2, ps) && WritesIn(h, h', qs)
    requires forall q: nat :: q in qs && q !in ps ==> q == t1 || q == t2
    ensures Extra(h0, h', t1, t2, ps) && SameBlocks(h, h')
  {
    WritesKeep(h, h', qs);
    KeptButTrans(h0, h, h', ps, qs);
  }

  /** Everything the library held is released: the blocks in use are as before,
      and any growth of the heap is now free. */
  lemma {:induction false} ExtraGone(h0: Heap, h: Heap, ps: set<nat>)
    requires Extra(h0, h, 0, 0, ps)
    ensures SameBlocks(h0, h) && FreeBytes(h.blocks) == FreeBytes(h0.blocks) + (h.brk - h0.brk)
  {
    forall q ensures Live(h, q) == Live(h0, q) {
      if q == 0 { NullDead(h); }
    }
  }

  lemma {:induction false} ExtraWiden(h0: Heap, h: Heap, t1: nat, t2: nat, ps: set<nat>)
    requires Extra(h0, h, t1, t2, {})
    ensures Extra(h0, h, t1, t2, ps)
  {
  }

  /** A block of `h0` is still there beside the extra blocks. */
  lemma {:induction false} ExtraOthers(h0: Heap, h: Heap, t1: nat, t2: nat, ps: set<nat>, p: nat)
    requires Extra(h0, h, t1, t2, ps) && Live(h0, p).Some?
    ensures p != t1 && p != t2 && Live(h, p) == Live(h0, p)
  {
  }

  /** From `h0` to `h` only the cells of the arrays `a` were written. */
  ghost predicate Filled(h0: Heap, h: Heap, a: Arrays) {
    h == h0.(mem := h.mem) && OnlyCells(h0.mem, h.mem, a, 0, a.n)
  }

  ghost predicate HasRoom(h: Heap, p: nat, n: nat) {
    Live(h, p).Some? && 8 * n <= Live(h, p).value.size - Header(h)
  }

  lemma {:induction false} FilledMore(h0: Heap, h: Heap, h': Heap, a: Arrays, k: nat)
    requires WellFormed(h0) && Filled(h0, h, a) && HasRoom(h0, a.sizes, a.n) && HasRoom(h0, a.ptrs, a.n)
    requires k < a.n && h' == h.(mem := h'.mem) && OnlyCells(h.mem, h'.mem, a, k, k + 1)
    ensures Filled(h0, h', a) && WellFormed(h')
  {
    OnlyCellsTrans(h0.mem, h.mem, h'.mem, a, 0, a.n, k);
    CellsOwned(h0, h', a, 0, a.n);
    WritesKeep(h0, h', {a.sizes, a.ptrs});
  }

  /** Arrays in blocks that are kept still hold what they held. */
  lemma {:induction false} HoldsKept(h: Heap, h': Heap, a: Arrays, p: seq<Pair>)
    requires WellFormed(h) && Kept(h, h', 0) && Holds(h.mem, a, p)
    requires HasRoom(h, a.sizes, a.n) && HasRoom(h, a.ptrs, a.n)
    ensures Holds(h'.mem, a, p)
  {
    NullDead(h);
    forall x | 0 <= x < |h.mem| && InCells(a, 0, a.n, x) ensures h.mem[x] == h'.mem[x] {
      assert Owns(h, a.sizes, x) || Owns(h, a.ptrs, x);
    }
    HoldsFrame(h.mem, h'.mem, a, p);
  }

  /** Two arrays of `n` words can be placed one after the other. */
  predicate TwoFit(h: Heap, n: nat) {
    match Place(h.format, h.blocks, 8 * n, CanGrow(h, 8 * n))
    case Refused => false
    case Placed(blocks, _, grow) =>
      var h1 := Heap(h.format, h.original, h.start, h.brk + grow, blocks, h.mem);
      Place(h.format, blocks, 8 * n, CanGrow(h1, 8 * n)).Placed?
  }

  lemma {:induction false} TwoFitExactly(h0: Heap, h1: Heap, h2: Heap, n: nat, t1: nat, t2: nat)
    requires n > 0 && MallocStep(h0, h1, 8 * n, t1) && MallocStep(h1, h2, 8 * n, t2)
    ensures TwoFit(h0, n) <==> t1 != 0 && t2 != 0
  {
    if t1 != 0 { PlacedMatches(h0, h1, n, t1); }
  }

  lemma {:induction false} PlacedMatches(h0: Heap, h1: Heap, n: nat, t1: nat)
    requires n > 0 && t1 != 0 && MallocStep(h0, h1, 8 * n, t1)
    ensures TwoFit(h0, n) <==> Place(h1.format, h1.blocks, 8 * n, CanGrow(h1, 8 * n)).Placed?
  {
  }

  /** The library's own blocks are not reported. */
  lemma {:induction false} ReportedSame(h0: Heap, h: Heap, sa: nat, pa: nat)
    requires Extra(h0, h, sa, pa, {})
    requires sa != 0 ==> OwnArray(h, sa, 0)
    requires pa != 0 ==> OwnArray(h, pa, 0)
    ensures Reported(h) == Reported(h0)
  {
    NullDead(h);
    NullDead(h0);
    forall k ensures IsUsed(h0.format, h0.start, h0.blocks, k) <==> IsUsed(h.format, h.start, h.blocks, k) {
      assert k != sa && k != pa ==> Live(h, k) == Live(h0, k);
    }
    forall k | IsUsed(h0.format, h0.start, h0.blocks, k)
      ensures LiveAt(h0.format, h0.start, h0.blocks, k) == LiveAt(h.format, h.start, h.blocks, k)
    {
      assert k != sa && k != pa ==> Live(h, k) == Live(h0, k);
    }
    UsedListDetermined(h0.format, h0.start, h0.blocks, h.blocks);
  }

  /** The last step: what the passes and the sort did adds up to the promise. */
  lemma {:induction false} InfoResult(h0: Heap, u0: Heap, u: Heap, h': Heap, a: Arrays, r: HeapInfo, p: seq<Pair>)
    requires Extra(h0, u0, a.sizes, a.ptrs, {}) && a.n == |Reported(h0)|
    requires a.n > 0 ==> a.sizes != 0 && a.ptrs != 0 && OwnArray(u0, a.sizes, a.n) && OwnArray(u0, a.ptrs, a.n)
    requires a.n == 0 ==> a.sizes == a.ptrs == 0 && u0 == h0 && u == h0 && h' == h0
    requires WellFormed(u) && Filled(u0, u, a) && Extra(u, h', 0, 0, {a.sizes, a.ptrs})
    requires SortedDesc(p) && multiset(p) == multiset(Reported(h0)) && Holds(h'.mem, a, p)
    requires r == HeapInfo(0, a.n, a.sizes, a.ptrs, FreeBytes(Measured(h0, u).blocks), LargestFree(Measured(h0, u).blocks))
    ensures InfoStep(h0, u, h', r, p)
  {
    assert |multiset(p)| == |p| && |multiset(Reported(h0))| == |Reported(h0)|;
    ExtraGone(u, h', {a.sizes, a.ptrs});
    if a.n > 0 {
      CellsOwned(u0, u, a, 0, a.n);
      ExtraWrite(h0, u0, u, a.sizes, a.ptrs, {}, {a.sizes, a.ptrs});
      assert SameBlocks(u0, u);
      assert Live(u, a.sizes) == Live(u0, a.sizes) && Live(u, a.ptrs) == Live(u0, a.ptrs);
      KeptButTrans(h0, u, h', {}, {a.sizes, a.ptrs});
      KeptIsKeptBut(h0, h');
    }
  }
}
