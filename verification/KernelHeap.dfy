/** The two ways a heap page comes and goes: sbrk takes pages away one by one, and
    a page fault brings one in. */
module KernelHeap {
  import opened Bytes
  import opened Options
  import opened Sbrk
  import opened PageTables
  import opened VirtualMemory
  import opened KernelState
  import opened KernelSteps

  // ----- last-level entries of a tree change -----

  /** Only last-level entries of `root` differ. */
  ghost predicate LeafChange(m: seq<byte>, m': seq<byte>, root: nat) {
    Tree(m, root) && Tree(m', root) && SameNodes(m, m', root) && OnlyLeafTables(m, m', root)
  }

  lemma {:induction false} InteriorEntryKept(m: seq<byte>, m': seq<byte>, root: nat, k: nat, q: nat, i: nat)
    requires LeafChange(m, m', root) && IsNode(m, root, k, q) && k < 3 && i < NENTRIES
    ensures Entry(m', Node(m, root, k, q).value, i) == Entry(m, Node(m, root, k, q).value, i)
  {
    var t := Node(m, root, k, q).value;
    assert !IsLeafTable(m, root, t);
    forall x | 4096 * t + 8 * i <= x < 4096 * t + 8 * i + 8 ensures m[x] == m'[x] {
      InTable(t, i, x);
    }
    LoadFrame(m, m', 4096 * t + 8 * i, 8);
  }

  lemma {:induction false} LeafChangeClean(m: seq<byte>, m': seq<byte>, root: nat)
    requires LeafChange(m, m', root) && Clean(m, root)
    ensures Clean(m', root)
  {
    forall k, q, i | IsNode(m', root, k, q) && k < 3 && 0 <= i < NENTRIES
      ensures HasP(Entry(m', Node(m', root, k, q).value, i)) || Entry(m', Node(m', root, k, q).value, i) == 0
    {
      assert Node(m', root, k, q) == Node(m, root, k, q);
      assert IsNode(m, root, k, q);
      InteriorEntryKept(m, m', root, k, q, i);
    }
  }

  lemma {:induction false} LeafChangeOwnedTree(s: K, s': K, root: nat, o: int)
    requires Shape(s) && Shape(s') && OwnedTree(s.mem, s.owner, s.refcount, root, o)
    requires LeafChange(s.mem, s'.mem, root)
    requires forall t :: IsTable(s.mem, root, t) ==> Private(s'.owner, s'.refcount, o, t)
    ensures OwnedTree(s'.mem, s'.owner, s'.refcount, root, o)
  {
    LeafChangeClean(s.mem, s'.mem, root);
    forall t | IsTable(s'.mem, root, t) ensures Private(s'.owner, s'.refcount, o, t) {
      SameTables(s.mem, s'.mem, root, t);
    }
  }

  lemma {:induction false} LeafChangeOwn(s: K, s': K, pid: int)
    requires Shape(s) && 0 < pid < NPROC && OwnedTree(s.mem, s.owner, s.refcount, s.procs[pid].pagetable, pid)
    requires |s'.mem| == MEMSIZE_PHYSICAL && LeafChange(s.mem, s'.mem, s.procs[pid].pagetable)
    ensures forall x :: 0 <= x < |s.mem| && s.mem[x] != s'.mem[x] ==> Mine(s, pid, x / 4096)
  {
    var root := s.procs[pid].pagetable;
    forall x | 0 <= x < |s.mem| && s.mem[x] != s'.mem[x] ensures Mine(s, pid, x / 4096) {
      assert IsLeafTable(s.mem, root, x / 4096);
      assert IsTable(s.mem, root, x / 4096);
    }
  }

  lemma {:induction false} MappedLeaf(m: seq<byte>, m': seq<byte>, root: nat, v: nat, pa: nat, perm: nat)
    requires Mapped(m, m', root, v, pa, perm, 1) && v < VPAGES
    ensures forall v' :: 0 <= v' < VPAGES && v' != v ==> Leaf(m', root, v') == Leaf(m, root, v')
    ensures Leaf(m', root, v) == if Leaf(m, root, v).Some? then Some(NewEntry(pa, perm, 0)) else None
  {
    forall v' | 0 <= v' < VPAGES && v' != v ensures Leaf(m', root, v') == Leaf(m, root, v') {
      assert Leaf(m', root, v') == NewLeaf(m, root, v, pa, perm, 1, v');
    }
    assert Leaf(m', root, v) == NewLeaf(m, root, v, pa, perm, 1, v);
  }

  // ----- sbrk gives pages back -----

  function BreakMoved(s: K, pid: int, brk: u64): K
    requires |s.procs| == NPROC && 0 <= pid < NPROC
  {
    s.(procs := s.procs[pid := s.procs[pid].(programBreak := brk)])
  }

  /** `f` backs a page of [lo, hi). */
  ghost predicate Backs(m: seq<byte>, root: nat, lo: nat, hi: nat, f: nat)
    requires |m| == MEMSIZE_PHYSICAL && root < NPAGES
  {
    exists v :: lo <= v < hi && Present(m, root, v) && FrameAt(m, root, v) == f
  }

  /** Of the pages [lo, hi) of `pid`, those that were present are unmapped and
      their frames free; everything else is as it was. */
  ghost predicate Shrunk(s: K, s': K, pid: int, lo: nat, hi: nat)
    requires Shape(s) && 0 <= pid < NPROC
  {
    var root := s.procs[pid].pagetable;
    && Shape(s') && s'.kroot == s.kroot && s'.image == s.image && s'.procs == s.procs
    && LeafChange(s.mem, s'.mem, root)
    && LeavesShrunk(s.mem, s'.mem, root, lo, hi) && FramesShrunk(s, s', root, lo, hi)
  }

  ghost predicate LeavesShrunk(m: seq<byte>, m': seq<byte>, root: nat, lo: nat, hi: nat)
    requires |m| == |m'| == MEMSIZE_PHYSICAL && root < NPAGES
  {
    forall v :: 0 <= v < VPAGES ==>
      Leaf(m', root, v) == if lo <= v < hi && Present(m, root, v) then Some(0) else Leaf(m, root, v)
  }

  ghost predicate FramesShrunk(s: K, s': K, root: nat, lo: nat, hi: nat)
    requires Shape(s) && Shape(s') && root < NPAGES
  {
    forall f :: 0 <= f < NPAGES ==> AfterShrink(s, s', root, lo, hi, f)
  }

  ghost predicate AfterShrink(s: K, s': K, root: nat, lo: nat, hi: nat, f: nat)
    requires Shape(s) && Shape(s') && root < NPAGES && f < NPAGES
  {
    if Backs(s.mem, root, lo, hi, f) then s'.owner[f] == PO_FREE && s'.refcount[f] == 0
    else s'.owner[f] == s.owner[f] && s'.refcount[f] == s.refcount[f]
  }

  lemma {:induction false} ZeroAbsent()
    ensures !HasP(0) && NewEntry(0, 0, 0) == 0
  {
  }

  lemma {:induction false} BacksMore(m: seq<byte>, root: nat, lo: nat, hi: nat, f: nat)
    requires |m| == MEMSIZE_PHYSICAL && root < NPAGES && lo <= hi
    ensures Backs(m, root, lo, hi + 1, f) <==>
      Backs(m, root, lo, hi, f) || (Present(m, root, hi) && FrameAt(m, root, hi) == f)
  {
    if Backs(m, root, lo, hi + 1, f) {
      var v :| lo <= v < hi + 1 && Present(m, root, v) && FrameAt(m, root, v) == f;
      assert v == hi || v < hi;
    }
  }

  lemma {:induction false} ShrunkNone(s: K, pid: int, lo: nat)
    requires Shape(s) && 0 <= pid < NPROC && Tree(s.mem, s.procs[pid].pagetable)
    ensures Shrunk(s, s, pid, lo, lo)
  {
    assert SameNodes(s.mem, s.mem, s.procs[pid].pagetable);
  }

  lemma {:induction false} FramesShrunkMore(s: K, s1: K, s2: K, root: nat, lo: nat, hi: nat, next: nat)
    requires Shape(s) && Shape(s1) && Shape(s2) && root < NPAGES && lo <= hi && next == hi + 1
    requires FramesShrunk(s, s1, root, lo, hi)
    requires if Present(s.mem, root, hi) then
               FrameAt(s.mem, root, hi) < NPAGES
               && s2.owner == s1.owner[FrameAt(s.mem, root, hi) := PO_FREE]
               && s2.refcount == s1.refcount[FrameAt(s.mem, root, hi) := 0]
             else s2.owner == s1.owner && s2.refcount == s1.refcount
    ensures FramesShrunk(s, s2, root, lo, next)
  {
    forall f | 0 <= f < NPAGES ensures AfterShrink(s, s2, root, lo, next, f) {
      assert AfterShrink(s, s1, root, lo, hi, f);
      BacksMore(s.mem, root, lo, hi, f);
    }
  }

  /** The loop of sbrk passes a page that was never faulted in. */
  lemma {:induction false} ShrunkSkip(s: K, s1: K, pid: int, lo: nat, hi: nat)
    requires Shape(s) && 0 <= pid < NPROC && Shrunk(s, s1, pid, lo, hi) && lo <= hi < VPAGES
    requires !Present(s1.mem, s.procs[pid].pagetable, hi)
    ensures Shrunk(s, s1, pid, lo, hi + 1)
  {
    var root := s.procs[pid].pagetable;
    assert Leaf(s1.mem, root, hi) == Leaf(s.mem, root, hi);
    FramesShrunkMore(s, s1, s1, root, lo, hi, hi + 1);
  }

  lemma {:induction false} LeafChangeTrans(m: seq<byte>, m1: seq<byte>, m2: seq<byte>, root: nat)
    requires LeafChange(m, m1, root) && LeafChange(m1, m2, root)
    ensures LeafChange(m, m2, root)
  {
    forall k, q | 0 <= q && 0 <= k <= 3 && q < Digits(k) ensures Node(m2, root, k, q) == Node(m, root, k, q) {
      assert Node(m1, root, k, q) == Node(m, root, k, q);
    }
    forall x | 0 <= x < |m| && m[x] != m2[x] ensures IsLeafTable(m, root, x / 4096) {
      if m[x] == m1[x] {
        assert IsLeafTable(m1, root, x / 4096);
        var q :| IsNode(m1, root, 3, q) && Node(m1, root, 3, q) == Some(x / 4096);
        assert IsNode(m, root, 3, q);
      }
    }
  }

  lemma {:induction false} LeavesShrunkMore(m: seq<byte>, m1: seq<byte>, m2: seq<byte>, root: nat, lo: nat, hi: nat)
    requires |m| == |m1| == |m2| == MEMSIZE_PHYSICAL && root < NPAGES && lo <= hi < VPAGES
    requires LeavesShrunk(m, m1, root, lo, hi) && Mapped(m1, m2, root, hi, 0, 0, 1)
    requires Present(m1, root, hi)
    ensures LeavesShrunk(m, m2, root, lo, hi + 1)
    ensures Present(m, root, hi) && FrameAt(m, root, hi) == FrameAt(m1, root, hi)
  {
    MappedLeaf(m1, m2, root, hi, 0, 0);
    ZeroAbsent();
    forall v | 0 <= v < VPAGES
      ensures Leaf(m2, root, v) == if lo <= v < hi + 1 && Present(m, root, v) then Some(0) else Leaf(m, root, v)
    {
      assert Leaf(m1, root, v) == if lo <= v < hi && Present(m, root, v) then Some(0) else Leaf(m, root, v);
    }
  }

  lemma {:induction false} ShrunkTables(m: seq<byte>, m1: seq<byte>, m2: seq<byte>, root: nat, lo: nat, hi: nat)
    requires LeafChange(m, m1, root) && LeavesShrunk(m, m1, root, lo, hi) && lo <= hi < VPAGES
    requires Mapped(m1, m2, root, hi, 0, 0, 1) && Present(m1, root, hi)
    ensures LeafChange(m, m2, root) && LeavesShrunk(m, m2, root, lo, hi + 1)
    ensures Present(m, root, hi) && FrameAt(m, root, hi) == FrameAt(m1, root, hi)
  {
    LeavesShrunkMore(m, m1, m2, root, lo, hi);
    LeafChangeTrans(m, m1, m2, root);
  }

  /** In `s2`, `f`, which backs page `v` of `root` in `s1`, is freed and the page unmapped. */
  ghost predicate PageFreed(s1: K, s2: K, root: nat, v: nat, f: nat)
    requires Shape(s1) && root < NPAGES
  {
    && v < VPAGES && Mapped(s1.mem, s2.mem, root, v, 0, 0, 1)
    && Present(s1.mem, root, v) && f == FrameAt(s1.mem, root, v) < NPAGES
    && s2 == s1.(mem := s2.mem, owner := s1.owner[f := PO_FREE], refcount := s1.refcount[f := 0])
  }

  lemma {:induction false} PageFreedFrames(s: K, s1: K, s2: K, root: nat, lo: nat, hi: nat, f: nat)
    requires Shape(s) && Shape(s1) && root < NPAGES && lo <= hi && PageFreed(s1, s2, root, hi, f)
    requires FramesShrunk(s, s1, root, lo, hi) && Present(s.mem, root, hi) && FrameAt(s.mem, root, hi) == f
    ensures Shape(s2) && FramesShrunk(s, s2, root, lo, hi + 1)
  {
    FramesShrunkMore(s, s1, s2, root, lo, hi, hi + 1);
  }

  /** The loop of sbrk unmaps a page and frees its frame. */
  lemma {:induction false} ShrunkPage(s: K, s1: K, s2: K, pid: int, root: nat, lo: nat, hi: nat, f: nat)
    requires Shape(s) && 0 <= pid < NPROC && root == s.procs[pid].pagetable < NPAGES
    requires Shrunk(s, s1, pid, lo, hi) && lo <= hi && PageFreed(s1, s2, root, hi, f)
    ensures Shrunk(s, s2, pid, lo, hi + 1)
  {
    ShrunkTables(s.mem, s1.mem, s2.mem, root, lo, hi);
    PageFreedFrames(s, s1, s2, root, lo, hi, f);
  }

  // ----- what a shrink keeps -----

  /** The pages [lo, hi) are heap pages of `p`, and the heap has none beyond. */
  ghost predicate TopOfHeap(m: seq<byte>, p: Proc, lo: nat, hi: nat)
    requires |m| == MEMSIZE_PHYSICAL && p.pagetable < NPAGES
  {
    && p.originalBreak / 4096 <= lo && hi <= BREAK_LIMIT / 4096
    && HeapBound(m, p, 0, 0, hi)
  }

  /** A frame that backs a heap page backs nothing else. */
  lemma {:induction false} BackingFrame(s: K, p: Proc, pid: int, lo: nat, hi: nat, f: nat)
    requires Shape(s) && ProcOk(s, p, pid) && TopOfHeap(s.mem, p, lo, hi) && Backs(s.mem, p.pagetable, lo, hi, f)
    ensures Private(s.owner, s.refcount, pid, f) && !IsTable(s.mem, p.pagetable, f) && f != CONSOLE_FRAME
    ensures forall u :: 0 <= u < VPAGES && UserPage(s.mem, p.pagetable, u) && FrameAt(s.mem, p.pagetable, u) == f ==>
              lo <= u < hi
  {
    var v :| lo <= v < hi && Present(s.mem, p.pagetable, v) && FrameAt(s.mem, p.pagetable, v) == f;
    assert InHeap(p, v) && v < VPAGES;
    assert UserPage(s.mem, p.pagetable, v);
  }

  lemma {:induction false} ShrunkTree(s: K, s': K, pid: int, lo: nat, hi: nat)
    requires Shape(s) && 0 < pid < NPROC && Shrunk(s, s', pid, lo, hi)
    requires ProcOk(s, s.procs[pid], pid) && TopOfHeap(s.mem, s.procs[pid], lo, hi)
    ensures OwnedTree(s'.mem, s'.owner, s'.refcount, s.procs[pid].pagetable, pid)
  {
    var p := s.procs[pid];
    forall t | IsTable(s.mem, p.pagetable, t) ensures Private(s'.owner, s'.refcount, pid, t) {
      assert Private(s.owner, s.refcount, pid, t);
      assert AfterShrink(s, s', p.pagetable, lo, hi, t);
      if Backs(s.mem, p.pagetable, lo, hi, t) { BackingFrame(s, p, pid, lo, hi, t); }
    }
    LeafChangeOwnedTree(s, s', p.pagetable, pid);
  }

  /** The pages that remain, and their frames, are untouched. */
  lemma {:induction false} ShrunkPages(s: K, s': K, pid: int, lo: nat, hi: nat, u: nat)
    requires Shape(s) && 0 < pid < NPROC && Shrunk(s, s', pid, lo, hi) && u < VPAGES
    ensures var root := s.procs[pid].pagetable;
      && (Present(s'.mem, root, u) <==> Present(s.mem, root, u) && !(lo <= u < hi))
      && (Present(s'.mem, root, u) ==> Leaf(s'.mem, root, u) == Leaf(s.mem, root, u))
  {
    ZeroAbsent();
  }

  lemma {:induction false} ShrunkUserPage(s: K, s': K, pid: int, lo: nat, hi: nat, u: nat)
    requires Shape(s) && 0 < pid < NPROC && Shrunk(s, s', pid, lo, hi) && u < VPAGES
    requires ProcOk(s, s.procs[pid], pid) && TopOfHeap(s.mem, s.procs[pid], lo, hi)
    requires UserPage(s'.mem, s.procs[pid].pagetable, u)
    ensures var root := s.procs[pid].pagetable; var f := FrameAt(s'.mem, root, u);
      && UserPage(s.mem, root, u) && f == FrameAt(s.mem, root, u)
      && (f == CONSOLE_FRAME || (Private(s'.owner, s'.refcount, pid, f) && !IsTable(s'.mem, root, f)))
  {
    var p := s.procs[pid];
    ShrunkPages(s, s', pid, lo, hi, u);
    var f := FrameAt(s.mem, p.pagetable, u);
    SameTables(s.mem, s'.mem, p.pagetable, f);
    if f != CONSOLE_FRAME {
      assert Private(s.owner, s.refcount, pid, f);
      assert AfterShrink(s, s', p.pagetable, lo, hi, f);
      if Backs(s.mem, p.pagetable, lo, hi, f) { BackingFrame(s, p, pid, lo, hi, f); }
    }
  }

  lemma {:induction false} ShrunkUserPages(s: K, s': K, pid: int, lo: nat, hi: nat)
    requires Shape(s) && 0 < pid < NPROC && Shrunk(s, s', pid, lo, hi)
    requires ProcOk(s, s.procs[pid], pid) && TopOfHeap(s.mem, s.procs[pid], lo, hi)
    ensures UserPagesOk(s'.mem, s'.owner, s'.refcount, s.procs[pid].pagetable, pid)
  {
    var root := s.procs[pid].pagetable;
    forall u | 0 <= u < VPAGES && UserPage(s'.mem, root, u)
      ensures UserPage(s.mem, root, u) && FrameAt(s'.mem, root, u) == FrameAt(s.mem, root, u)
      ensures FrameAt(s'.mem, root, u) == CONSOLE_FRAME
        || (Private(s'.owner, s'.refcount, pid, FrameAt(s'.mem, root, u))
            && !IsTable(s'.mem, root, FrameAt(s'.mem, root, u)))
    {
      ShrunkUserPage(s, s', pid, lo, hi, u);
    }
  }

  lemma {:induction false} ShrunkHeap(s: K, s': K, pid: int, lo: nat, hi: nat)
    requires Shape(s) && 0 < pid < NPROC && Shrunk(s, s', pid, lo, hi)
    requires HeapPagesOk(s.mem, s.procs[pid]) && TopOfHeap(s.mem, s.procs[pid], lo, hi)
    ensures HeapPagesOk(s'.mem, s.procs[pid]) && HeapBound(s'.mem, s.procs[pid], 0, 0, lo)
  {
    var p := s.procs[pid];
    forall u: nat | InHeap(p, u) && Present(s'.mem, p.pagetable, u)
      ensures u < lo && UserPage(s'.mem, p.pagetable, u) && FrameAt(s'.mem, p.pagetable, u) != CONSOLE_FRAME
    {
      ShrunkPages(s, s', pid, lo, hi, u);
    }
  }

  lemma {:induction false} ShrunkOwn(s: K, s': K, pid: int, lo: nat, hi: nat)
    requires Shape(s) && 0 < pid < NPROC && Shrunk(s, s', pid, lo, hi) && PageinfoOk(s)
    requires ProcOk(s, s.procs[pid], pid) && TopOfHeap(s.mem, s.procs[pid], lo, hi)
    ensures OwnChange(s, s', pid) && PageinfoOk(s')
  {
    var p := s.procs[pid];
    LeafChangeOwn(s, s', pid);
    forall f | 0 <= f < NPAGES
      ensures (!Mine(s, pid, f) || f == 0 || f == CONSOLE_FRAME) ==>
                s'.owner[f] == s.owner[f] && s'.refcount[f] == s.refcount[f]
      ensures (s'.owner[f] == s.owner[f] && s'.refcount[f] == s.refcount[f]) || s'.refcount[f] == 0
    {
      assert AfterShrink(s, s', p.pagetable, lo, hi, f);
      if Backs(s.mem, p.pagetable, lo, hi, f) { BackingFrame(s, p, pid, lo, hi, f); }
    }
  }

  lemma {:induction false} MovedBreak(s: K, pid: int, brk: u64)
    requires Inv(s) && 0 < pid < NPROC && s.procs[pid].state != P_FREE
    requires s.procs[pid].originalBreak <= brk < BREAK_LIMIT
    ensures var s1 := BreakMoved(s, pid, brk); var p := s1.procs[pid];
      && Shape(s1) && PageinfoOk(s1) && OwnChange(s, s1, pid) && ProcOk(s1, p, pid)
      && HeapBound(s1.mem, p, 0, 0, HeapTop(s.procs[pid].programBreak))
  {
    assert ActiveOk(s, pid);
  }

  lemma {:induction false} HeapTops(original: nat, brk: nat, brk': nat)
    requires original % 4096 == 0 && original <= brk' <= brk < BREAK_LIMIT
    ensures original / 4096 <= HeapTop(brk') <= HeapTop(brk) <= BREAK_LIMIT / 4096
  {
  }

  /** Shrinking the heap keeps the invariant. */
  lemma {:induction false} ShrinkStep(s: K, s': K, pid: int, brk: u64)
    requires Inv(s) && 0 < pid < NPROC && s.procs[pid].state != P_FREE
    requires s.procs[pid].originalBreak <= brk <= s.procs[pid].programBreak
    requires Shrunk(BreakMoved(s, pid, brk), s', pid, HeapTop(brk), HeapTop(s.procs[pid].programBreak))
    ensures Inv(s') && OwnChange(s, s', pid)
  {
    hide PageinfoOk, KernelOk, OwnedTree, UserPagesOk, HeapPagesOk;
    assert ActiveOk(s, pid);
    var s1, lo, hi := BreakMoved(s, pid, brk), HeapTop(brk), HeapTop(s.procs[pid].programBreak);
    var p := s1.procs[pid];
    MovedBreak(s, pid, brk);
    HeapTops(p.originalBreak, s.procs[pid].programBreak, brk);
    ShrunkOwn(s1, s', pid, lo, hi);
    OwnChangeTrans(s, s1, s', pid);
    ShrunkTree(s1, s', pid, lo, hi);
    ShrunkUserPages(s1, s', pid, lo, hi);
    ShrunkHeap(s1, s', pid, lo, hi);
    KernelPagesFrame(s1.mem, s'.mem, p.pagetable, s.image);
    InvKept(s, s', pid);
  }

  /** So does growing it, which touches nothing but the break. */
  lemma {:induction false} GrowStep(s: K, pid: int, brk: u64)
    requires Inv(s) && 0 < pid < NPROC && s.procs[pid].state != P_FREE
    requires s.procs[pid].programBreak <= brk < BREAK_LIMIT
    ensures Inv(BreakMoved(s, pid, brk)) && OwnChange(s, BreakMoved(s, pid, brk), pid)
  {
    assert ActiveOk(s, pid);
    MovedBreak(s, pid, brk);
    HeapTops(s.procs[pid].originalBreak, brk, s.procs[pid].programBreak);
    InvKept(s, BreakMoved(s, pid, brk), pid);
  }

  lemma {:induction false} OwnChangeTrans(s: K, s1: K, s2: K, pid: int)
    requires Shape(s) && OwnChange(s, s1, pid) && OwnChange(s1, s2, pid)
    ensures OwnChange(s, s2, pid)
  {
    forall x | 0 <= x < |s.mem| && s.mem[x] != s2.mem[x]
      ensures Mine(s, pid, x / 4096) || x / 4096 == CONSOLE_FRAME
    {
      if s.mem[x] == s1.mem[x] { assert s1.mem[x] != s2.mem[x]; }
    }
  }

  // ----- palloc, and the page a fault brings in -----

  ghost function FreeFrames(s: K): set<nat>
    requires |s.refcount| == NPAGES
  {
    set f: nat | f < NPAGES && s.refcount[f] == 0
  }

  ghost predicate HasFree(s: K)
    requires |s.refcount| == NPAGES
  {
    exists f :: 0 <= f < NPAGES && s.refcount[f] == 0
  }

  lemma {:induction false} SomeFree(s: K)
    requires |s.refcount| == NPAGES
    ensures HasFree(s) <==> |FreeFrames(s)| > 0
  {
    if HasFree(s) {
      var f :| 0 <= f < NPAGES && s.refcount[f] == 0;
      assert f in FreeFrames(s);
    } else {
      assert FreeFrames(s) == {};
    }
  }

  /** palloc leaves one free frame fewer. */
  lemma {:induction false} OneFewer(s: K, s': K, pid: int, f: nat)
    requires Shape(s) && Palloced(s, s', pid, f)
    ensures |FreeFrames(s')| == |FreeFrames(s)| - 1
  {
    assert f in FreeFrames(s) && FreeFrames(s') == FreeFrames(s) - {f};
  }

  /** Frame `f` was free and now belongs to `pid`; what it holds is not specified. */
  ghost predicate Palloced(s: K, s': K, pid: int, f: nat)
    requires Shape(s)
  {
    && f < NPAGES && s.refcount[f] == 0 && |s'.mem| == |s.mem|
    && (forall x :: 0 <= x < |s.mem| && s.mem[x] != s'.mem[x] ==> x / 4096 == f)
    && s' == s.(mem := s'.mem, owner := s.owner[f := pid], refcount := s.refcount[f := 1])
  }

  /** A frame that just came from palloc: the process has it, and uses it for nothing. */
  ghost predicate Spare(s: K, pid: int, f: nat)
    requires Shape(s) && 0 <= pid < NPROC && s.procs[pid].pagetable < NPAGES
  {
    && 0 < f < NPAGES && f != CONSOLE_FRAME && Private(s.owner, s.refcount, pid, f)
    && !IsTable(s.mem, s.procs[pid].pagetable, f)
    && forall u :: 0 <= u < VPAGES && UserPage(s.mem, s.procs[pid].pagetable, u) ==>
         FrameAt(s.mem, s.procs[pid].pagetable, u) != f
  }

  lemma {:induction false} FreeFrameUnused(s: K, pid: int, f: nat)
    requires Inv(s) && 0 < pid < NPROC && s.procs[pid].state != P_FREE && f < NPAGES && s.refcount[f] == 0
    ensures var root := s.procs[pid].pagetable;
      && root < NPAGES && f != CONSOLE_FRAME && f != 0 && !IsTable(s.mem, root, f)
      && forall u :: 0 <= u < VPAGES && UserPage(s.mem, root, u) ==> FrameAt(s.mem, root, u) != f
  {
    assert ActiveOk(s, pid);
    var root := s.procs[pid].pagetable;
    assert IsTable(s.mem, root, f) ==> Private(s.owner, s.refcount, pid, f);
  }

  lemma {:induction false} PallocTables(s: K, s': K, pid: int, f: nat, root: nat)
    requires Shape(s) && Palloced(s, s', pid, f) && root < NPAGES && !IsTable(s.mem, root, f)
    ensures Shape(s') && TablesUntouched(s.mem, s'.mem, root) && PrivateKept(s, s', pid) && OwnChange(s, s', pid)
  {
  }

  lemma {:induction false} PallocSpare(s: K, s': K, pid: int, f: nat)
    requires Shape(s) && Shape(s') && 0 < pid < NPROC && Palloced(s, s', pid, f)
    requires var root := s.procs[pid].pagetable;
      && root < NPAGES && f != CONSOLE_FRAME && f != 0 && !IsTable(s.mem, root, f)
      && SameNodes(s.mem, s'.mem, root) && SameLeaves(s.mem, s'.mem, root)
      && forall u :: 0 <= u < VPAGES && UserPage(s.mem, root, u) ==> FrameAt(s.mem, root, u) != f
    ensures Spare(s', pid, f)
  {
    var root := s.procs[pid].pagetable;
    SameTables(s.mem, s'.mem, root, f);
    forall u | 0 <= u < VPAGES && UserPage(s'.mem, root, u) ensures FrameAt(s'.mem, root, u) != f {
      PageFrame(s.mem, s'.mem, root, u);
    }
  }

  lemma {:induction false} PallocStep(s: K, s': K, pid: int, f: nat)
    requires Inv(s) && 0 < pid < NPROC && s.procs[pid].state != P_FREE && Palloced(s, s', pid, f)
    ensures Inv(s') && OwnChange(s, s', pid) && s'.procs[pid].pagetable < NPAGES && Spare(s', pid, f)
  {
    hide KernelOk, UserPagesOk, HeapPagesOk, KernelPagesOk;
    var p := s.procs[pid];
    assert ActiveOk(s, pid);
    FreeFrameUnused(s, pid, f);
    PallocTables(s, s', pid, f, p.pagetable);
    ProcFrame(s, s', p, pid);
    InvKept(s, s', pid);
    TreeFrame(s.mem, s'.mem, p.pagetable);
    PallocSpare(s, s', pid, f);
  }

  /** Page `v` of `pid` now maps to frame `f`, with all rights. */
  ghost predicate NewPage(s: K, s': K, pid: int, v: nat, f: nat)
    requires Shape(s) && 0 <= pid < NPROC
  {
    var p := s.procs[pid];
    && p.pagetable < NPAGES && v < VPAGES && s' == s.(mem := s'.mem)
    && Mapped(s.mem, s'.mem, p.pagetable, v, 4096 * f, 7, 1) && Leaf(s.mem, p.pagetable, v).Some?
  }

  lemma {:induction false} NewPageEntry(f: nat)
    requires f < NPAGES
    ensures var e := NewEntry(4096 * f, 7, 0); HasP(e) && HasW(e) && HasU(e) && FrameOf(e) == f && HasP(7)
  {
    FlagsBits(4096 * f + 7);
    assert (4096 * f + 7) % 4096 == 7;
  }

  lemma {:induction false} NewPageLeaves(s: K, s': K, pid: int, v: nat, f: nat)
    requires Shape(s) && Shape(s') && 0 < pid < NPROC && NewPage(s, s', pid, v, f) && f < NPAGES
    ensures var root := s.procs[pid].pagetable;
      && UserPage(s'.mem, root, v) && HasW(Leaf(s'.mem, root, v).value) && FrameAt(s'.mem, root, v) == f
      && forall u :: 0 <= u < VPAGES && u != v ==> Leaf(s'.mem, root, u) == Leaf(s.mem, root, u)
  {
    MappedLeaf(s.mem, s'.mem, s.procs[pid].pagetable, v, 4096 * f, 7);
    NewPageEntry(f);
  }

  lemma {:induction false} NewUserPages(s: K, s': K, pid: int, v: nat, f: nat)
    requires Shape(s) && Shape(s') && 0 < pid < NPROC && NewPage(s, s', pid, v, f) && Spare(s, pid, f)
    requires UserPagesOk(s.mem, s.owner, s.refcount, s.procs[pid].pagetable, pid)
    ensures UserPagesOk(s'.mem, s'.owner, s'.refcount, s.procs[pid].pagetable, pid)
  {
    var root := s.procs[pid].pagetable;
    NewPageLeaves(s, s', pid, v, f);
    SameTables(s.mem, s'.mem, root, f);
    forall u | 0 <= u < VPAGES && u != v && UserPage(s'.mem, root, u)
      ensures UserPage(s.mem, root, u) && FrameAt(s'.mem, root, u) == FrameAt(s.mem, root, u) != f
      ensures FrameAt(s'.mem, root, u) == CONSOLE_FRAME
        || (Private(s'.owner, s'.refcount, pid, FrameAt(s'.mem, root, u))
            && !IsTable(s'.mem, root, FrameAt(s'.mem, root, u)))
    {
      PageFrame(s.mem, s'.mem, root, u);
      SameTables(s.mem, s'.mem, root, FrameAt(s.mem, root, u));
    }
  }

  lemma {:induction false} NewHeapPage(s: K, s': K, pid: int, v: nat, f: nat)
    requires Shape(s) && Shape(s') && 0 < pid < NPROC && NewPage(s, s', pid, v, f) && f < NPAGES && f != CONSOLE_FRAME
    requires HeapPagesOk(s.mem, s.procs[pid]) && InHeap(s.procs[pid], v) && v < HeapTop(s.procs[pid].programBreak)
    requires HeapBound(s.mem, s.procs[pid], 0, 0, HeapTop(s.procs[pid].programBreak))
    ensures var p := s.procs[pid]; HeapPagesOk(s'.mem, p) && HeapBound(s'.mem, p, 0, 0, HeapTop(p.programBreak))
  {
    NewPageLeaves(s, s', pid, v, f);
    var p := s.procs[pid];
    forall u: nat | InHeap(p, u) && u != v ensures Leaf(s'.mem, p.pagetable, u) == Leaf(s.mem, p.pagetable, u) {
      assert u < VPAGES;
    }
  }

  lemma {:induction false} NewPageTree(s: K, s': K, p: Proc, pid: int, v: nat, f: nat)
    requires Shape(s) && 0 < pid < NPROC && p == s.procs[pid] && NewPage(s, s', pid, v, f) && f < NPAGES
    requires OwnedTree(s.mem, s.owner, s.refcount, p.pagetable, pid) && KernelPagesOk(s.mem, p.pagetable, s.image)
    requires PROC_START_ADDR / 4096 <= v
    ensures OwnChange(s, s', pid) && OwnedTree(s'.mem, s'.owner, s'.refcount, p.pagetable, pid)
    ensures KernelPagesOk(s'.mem, p.pagetable, s.image)
  {
    LeafChangeOwn(s, s', pid);
    LeafChangeOwnedTree(s, s', p.pagetable, pid);
    NewPageLeaves(s, s', pid, v, f);
    KernelPagesFrame(s.mem, s'.mem, p.pagetable, s.image);
  }

  lemma {:induction false} NewPageStep(s: K, s': K, pid: int, v: nat, f: nat)
    requires Inv(s) && 0 < pid < NPROC && s.procs[pid].state != P_FREE
    requires NewPage(s, s', pid, v, f) && Spare(s, pid, f)
    requires InHeap(s.procs[pid], v) && v < HeapTop(s.procs[pid].programBreak)
    ensures Inv(s') && OwnChange(s, s', pid)
  {
    var p := s.procs[pid];
    assert ActiveOk(s, pid);
    NewPageTree(s, s', p, pid, v, f);
    NewUserPages(s, s', pid, v, f);
    NewHeapPage(s, s', pid, v, f);
    InvKept(s, s', pid);
  }

  // ----- process_free -----

  /** Every frame of `pid` is free and its slot is unused. */
  ghost predicate Released(s: K, s': K, pid: int)
    requires Shape(s) && 0 <= pid < NPROC
  {
    && Shape(s') && s'.kroot == s.kroot && s'.image == s.image && s'.mem == s.mem
    && s'.procs == s.procs[pid := s.procs[pid].(state := P_FREE)]
    && forall f :: 0 <= f < NPAGES ==>
         if s.owner[f] == pid then s'.owner[f] == PO_FREE && s'.refcount[f] == 0
         else s'.owner[f] == s.owner[f] && s'.refcount[f] == s.refcount[f]
  }

  lemma {:induction false} ReleaseStep(s: K, s': K, pid: int)
    requires Inv(s) && 0 < pid < NPROC && Released(s, s', pid)
    ensures Inv(s') && OwnChange(s, s', pid)
  {
    assert PageinfoOk(s') by {
      assert s.owner[0] == PO_RESERVED && s.owner[CONSOLE_FRAME] == PO_RESERVED;
    }
    InvKept(s, s', pid);
  }
}
