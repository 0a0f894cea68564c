/** Where the frames of physical memory go: no two heap pages share one, none is
    lost, and none is freed that was not in use. */
module KernelFrames {
  import opened Bytes
  import opened Sbrk
  import opened PageTables
  import opened VirtualMemory
  import opened KernelState
  import opened KernelSteps
  import opened KernelHeap
  import opened KernelMemory
  import opened KernelRuns

  ghost predicate HeapPage(s: K, pid: int, v: nat) {
    Shape(s) && Live(s, pid) && s.procs[pid].pagetable < NPAGES && InHeap(s.procs[pid], v)
    && Present(s.mem, s.procs[pid].pagetable, v)
  }

  function HeapFrameOf(s: K, pid: int, v: nat): nat
    requires |s.mem| == MEMSIZE_PHYSICAL && |s.procs| == NPROC && 0 <= pid < NPROC && s.procs[pid].pagetable < NPAGES
  {
    FrameAt(s.mem, s.procs[pid].pagetable, v)
  }

  /** A present heap page lies below the top of the heap, in a frame that belongs to
      the process alone. */
  lemma {:induction false} HeapPageIsPrivate(s: K, pid: int, v: nat)
    requires Inv(s) && HeapPage(s, pid, v)
    ensures s.procs[pid].originalBreak <= 4096 * v < RoundUp(s.procs[pid].programBreak, 4096)
    ensures Private(s.owner, s.refcount, pid, HeapFrameOf(s, pid, v))
  {
    LiveOk(s, pid);
    HeapTops(s.procs[pid].originalBreak, s.procs[pid].programBreak, s.procs[pid].programBreak);
  }

  /** No mapped frame is free: every frame that a live process's user page maps to
      is in use, and is the process's own or the console. */
  lemma {:induction false} MappedFrameInUse(s: K, pid: int, v: nat)
    requires Inv(s) && Live(s, pid) && v < VPAGES && s.procs[pid].pagetable < NPAGES
    requires UserPage(s.mem, s.procs[pid].pagetable, v)
    ensures var f := HeapFrameOf(s, pid, v);
      && f < NPAGES && s.refcount[f] == 1 && s.owner[f] == if f == CONSOLE_FRAME then PO_RESERVED else pid
  {
    LiveOk(s, pid);
    UserFrame(s, s.procs[pid], pid, v);
  }

  /** It is no process's page table, nor the kernel's. */
  lemma {:induction false} HeapFrameIsNoTable(s: K, pid: int, v: nat, q: int)
    requires Inv(s) && HeapPage(s, pid, v) && Live(s, q)
    ensures !IsTable(s.mem, s.kroot, HeapFrameOf(s, pid, v))
    ensures s.procs[q].pagetable < NPAGES && !IsTable(s.mem, s.procs[q].pagetable, HeapFrameOf(s, pid, v))
  {
    HeapPageIsPrivate(s, pid, v);
    OwnersTables(s, s.kroot, PO_KERNEL, pid, HeapFrameOf(s, pid, v));
    LiveOk(s, q);
    if q == pid {
      LiveOk(s, pid);
    } else {
      OwnersTables(s, s.procs[q].pagetable, q, pid, HeapFrameOf(s, pid, v));
    }
  }

  lemma {:induction false} OwnersTables(s: K, root: nat, o: int, pid: int, f: nat)
    requires Shape(s) && OwnedTree(s.mem, s.owner, s.refcount, root, o)
    requires o != pid && Private(s.owner, s.refcount, pid, f)
    ensures !IsTable(s.mem, root, f)
  {
    assert IsTable(s.mem, root, f) ==> Private(s.owner, s.refcount, o, f);
  }

  /** The map from (process, heap page) to frame is injective. */
  lemma {:induction false} HeapFramesInjective(s: K, pid: int, v: nat, pid': int, v': nat)
    requires Inv(s) && HeapPage(s, pid, v) && HeapPage(s, pid', v')
    requires HeapFrameOf(s, pid, v) == HeapFrameOf(s, pid', v')
    ensures pid == pid' && v == v'
  {
    HeapPageIsPrivate(s, pid, v);
    HeapPageIsPrivate(s, pid', v');
    LiveOk(s, pid);
  }

  // ----- counting -----

  ghost function HeapPages(s: K, pid: int): set<nat> {
    set v: nat | v < VPAGES && HeapPage(s, pid, v)
  }

  /** The frames that `pid` holds: page tables, program pages and heap pages. */
  ghost function Held(s: K, pid: int): set<nat>
    requires |s.owner| == |s.refcount| == NPAGES
  {
    set f: nat | f < NPAGES && s.owner[f] == pid && s.refcount[f] > 0
  }

  /** The frames that back the pages of a set. */
  ghost function FramesOf(m: seq<byte>, root: nat, pages: set<nat>): set<nat>
    requires |m| == MEMSIZE_PHYSICAL && root < NPAGES
  {
    set v | v in pages :: FrameAt(m, root, v)
  }

  lemma {:induction false} AsManyFrames(m: seq<byte>, root: nat, pages: set<nat>)
    requires |m| == MEMSIZE_PHYSICAL && root < NPAGES
    requires forall v, w :: v in pages && w in pages && FrameAt(m, root, v) == FrameAt(m, root, w) ==> v == w
    ensures |FramesOf(m, root, pages)| == |pages|
    decreases |pages|
  {
    if pages != {} {
      var v :| v in pages;
      AsManyFrames(m, root, pages - {v});
      assert FramesOf(m, root, pages) == FramesOf(m, root, pages - {v}) + {FrameAt(m, root, v)};
      assert pages == pages - {v} + {v};
    }
  }

  /** The pages of [lo, hi) that are present. */
  ghost function PresentIn(m: seq<byte>, root: nat, lo: nat, hi: nat): set<nat>
    requires |m| == MEMSIZE_PHYSICAL && root < NPAGES
  {
    set v: nat | lo <= v < hi && Present(m, root, v)
  }

  /** A shrinking sbrk returns to the free pool exactly the frames that had been
      faulted in for the pages given back: as many frames as pages, all of them
      in use until then. */
  lemma {:induction false} ShrinkFreesExactly(s: K, s': K, pid: int, difference: i64)
    requires Inv(s) && Live(s, pid) && difference < 0 && SbrkStep(s, s', pid, difference, 0)
    requires s.procs[pid].pagetable < NPAGES && Shape(s')
    ensures var lo, hi := HeapTop(s'.procs[pid].programBreak), HeapTop(s.procs[pid].programBreak);
      var pages := PresentIn(s.mem, s.procs[pid].pagetable, lo, hi);
      && FreeFrames(s') == FreeFrames(s) + FramesOf(s.mem, s.procs[pid].pagetable, pages)
      && FreeFrames(s) !! FramesOf(s.mem, s.procs[pid].pagetable, pages)
      && |FreeFrames(s')| == |FreeFrames(s)| + |pages|
  {
    var p := s.procs[pid];
    LiveBasics(s, pid);
    AcceptsExactly(p.originalBreak, p.programBreak, difference);
    var brk := NewBreak(p.programBreak, difference);
    HeapTops(p.originalBreak, p.programBreak, brk);
    ShrinkFrames(s, BreakMoved(s, pid, brk), s', pid, HeapTop(brk), HeapTop(p.programBreak));
  }

  lemma {:induction false} ShrinkFrames(s: K, s1: K, s': K, pid: int, lo: nat, hi: nat)
    requires Inv(s) && Live(s, pid) && s.procs[pid].pagetable < NPAGES
    requires Shape(s1) && s1.mem == s.mem && s1.owner == s.owner && s1.refcount == s.refcount
    requires s1.procs[pid].pagetable == s.procs[pid].pagetable && Shrunk(s1, s', pid, lo, hi)
    requires s.procs[pid].originalBreak / 4096 <= lo && hi <= BREAK_LIMIT / 4096
    ensures var pages := PresentIn(s.mem, s.procs[pid].pagetable, lo, hi);
      var frames := FramesOf(s.mem, s.procs[pid].pagetable, pages);
      && FreeFrames(s') == FreeFrames(s) + frames && FreeFrames(s) !! frames
      && |frames| == |pages|
      && Held(s', pid) == Held(s, pid) - frames && frames <= Held(s, pid)
  {
    var root := s.procs[pid].pagetable;
    var pages := PresentIn(s.mem, root, lo, hi);
    var frames := FramesOf(s.mem, root, pages);
    forall v | v in pages ensures HeapPage(s, pid, v) && Private(s.owner, s.refcount, pid, FrameAt(s.mem, root, v)) {
      assert HeapPage(s, pid, v);
      HeapPageIsPrivate(s, pid, v);
    }
    forall v, w | v in pages && w in pages && FrameAt(s.mem, root, v) == FrameAt(s.mem, root, w) ensures v == w {
      HeapFramesInjective(s, pid, v, pid, w);
    }
    AsManyFrames(s.mem, root, pages);
    FramesAfterShrink(s1, s', pid, lo, hi, frames);
  }

  lemma {:induction false} FramesAfterShrink(s: K, s': K, pid: int, lo: nat, hi: nat, frames: set<nat>)
    requires Shape(s) && 0 < pid < NPROC && Shrunk(s, s', pid, lo, hi)
    requires frames == FramesOf(s.mem, s.procs[pid].pagetable, PresentIn(s.mem, s.procs[pid].pagetable, lo, hi))
    requires forall f :: f in frames ==> Private(s.owner, s.refcount, pid, f)
    ensures FreeFrames(s') == FreeFrames(s) + frames && FreeFrames(s) !! frames
    ensures Held(s', pid) == Held(s, pid) - frames && frames <= Held(s, pid)
  {
    var root := s.procs[pid].pagetable;
    forall f | 0 <= f < NPAGES ensures Backs(s.mem, root, lo, hi, f) <==> f in frames {
      BacksIn(s.mem, root, lo, hi, f);
    }
    hide Backs, LeafChange, LeavesShrunk, Present, FrameAt, FramesOf, PresentIn;
    forall f | 0 <= f < NPAGES
      ensures if f in frames then s'.owner[f] == PO_FREE && s'.refcount[f] == 0
              else s'.owner[f] == s.owner[f] && s'.refcount[f] == s.refcount[f]
    {
      assert AfterShrink(s, s', root, lo, hi, f);
    }
  }

  lemma {:induction false} BacksIn(m: seq<byte>, root: nat, lo: nat, hi: nat, f: nat)
    requires |m| == MEMSIZE_PHYSICAL && root < NPAGES && f < NPAGES
    ensures Backs(m, root, lo, hi, f) <==> f in FramesOf(m, root, PresentIn(m, root, lo, hi))
  {
    if Backs(m, root, lo, hi, f) {
      var v :| lo <= v < hi && Present(m, root, v) && FrameAt(m, root, v) == f;
      assert v in PresentIn(m, root, lo, hi);
    }
  }

  lemma {:induction false} PallocTakesOne(s: K, s': K, pid: int, f: nat)
    requires Shape(s) && Shape(s') && 0 < pid && f < NPAGES && s.refcount[f] == 0
    requires s'.owner == s.owner[f := pid] && s'.refcount == s.refcount[f := 1]
    ensures f in FreeFrames(s) && FreeFrames(s') == FreeFrames(s) - {f}
    ensures f !in Held(s, pid) && Held(s', pid) == Held(s, pid) + {f}
  {
  }

  /** A page fault that maps a page takes one free frame. */
  lemma {:induction false} FaultTakesOne(s: K, s': K, pid: int, addr: u64)
    requires Shape(s) && Live(s, pid) && FaultStep(s, s', pid, addr) && Shape(s') && Live(s', pid)
    ensures exists f :: f in FreeFrames(s) && FreeFrames(s') == FreeFrames(s) - {f} && Held(s', pid) == Held(s, pid) + {f}
    ensures |FreeFrames(s')| == |FreeFrames(s)| - 1
  {
    var f, s1 :| FaultedIn(s, s1, s', pid, PageOf(addr), f);
    PallocTakesOne(s, s', pid, f);
  }

  // ----- conservation over runs -----

  /** The frames a process holds besides those of its heap pages. */
  ghost function Overhead(s: K, pid: int): int {
    if |s.owner| == |s.refcount| == NPAGES then |Held(s, pid)| - |HeapPages(s, pid)| else 0
  }

  lemma {:induction false} OthersHeld(s: K, s': K, pid: int, q: int)
    requires Shape(s) && OwnChange(s, s', pid) && q != pid
    ensures Held(s', q) == Held(s, q)
  {
    forall f | 0 <= f < NPAGES ensures f in Held(s', q) <==> f in Held(s, q) {
      if Mine(s, pid, f) { assert Mine(s', pid, f); }
    }
  }

  lemma {:induction false} SameHeapPages(s: K, s': K, q: int)
    requires Shape(s) && Shape(s') && Live(s, q) && s.procs[q].pagetable < NPAGES && Live(s', q)
    requires s'.procs[q].pagetable == s.procs[q].pagetable && s'.procs[q].originalBreak == s.procs[q].originalBreak
    requires SameLeaves(s.mem, s'.mem, s.procs[q].pagetable)
    ensures HeapPages(s', q) == HeapPages(s, q)
  {
    forall v: nat | v < VPAGES ensures HeapPage(s', q, v) <==> HeapPage(s, q, v) {
      PageFrame(s.mem, s'.mem, s.procs[q].pagetable, v);
    }
  }

  lemma {:induction false} OthersOverhead(s: K, s': K, pid: int, q: int)
    requires Inv(s) && OwnChange(s, s', pid) && 0 < pid < NPROC && Live(s, q) && q != pid
    ensures Overhead(s', q) == Overhead(s, q)
  {
    OthersHeld(s, s', pid, q);
    OthersKept(s, s', pid, q);
    LiveBasics(s, q);
    SameHeapPages(s, s', q);
  }

  lemma {:induction false} ShrinkPages(s: K, s1: K, s': K, pid: int, lo: nat, hi: nat)
    requires Inv(s) && Live(s, pid) && s.procs[pid].pagetable < NPAGES && Shape(s1) && s1.mem == s.mem
    requires s1.procs == s.procs[pid := s.procs[pid].(programBreak := s1.procs[pid].programBreak)]
    requires Shrunk(s1, s', pid, lo, hi) && s.procs[pid].originalBreak / 4096 <= lo && hi <= BREAK_LIMIT / 4096
    ensures var pages := PresentIn(s.mem, s.procs[pid].pagetable, lo, hi);
      HeapPages(s', pid) == HeapPages(s, pid) - pages && pages <= HeapPages(s, pid)
  {
    forall v: nat | v < VPAGES ensures HeapPage(s', pid, v) <==> HeapPage(s, pid, v) && !(lo <= v < hi) {
      ShrunkPages(s1, s', pid, lo, hi, v);
    }
  }

  lemma {:induction false} MoveOverhead(s: K, s': K, pid: int, difference: i64, r: int)
    requires Inv(s) && Live(s, pid) && SbrkStep(s, s', pid, difference, r)
    ensures Shape(s') && Overhead(s', pid) == Overhead(s, pid)
  {
    hide OwnedTree, UserPagesOk, HeapPagesOk, HeapBound, KernelPagesOk, Tree;
    var p := s.procs[pid];
    LiveBasics(s, pid);
    AcceptsExactly(p.originalBreak, p.programBreak, difference);
    var brk := NewBreak(p.programBreak, difference);
    var s1 := BreakMoved(s, pid, brk);
    if r == 0 && difference < 0 {
      HeapTops(p.originalBreak, p.programBreak, brk);
      ShrinkFrames(s, s1, s', pid, HeapTop(brk), HeapTop(p.programBreak));
      ShrinkPages(s, s1, s', pid, HeapTop(brk), HeapTop(p.programBreak));
    } else if r == 0 {
      SameHeapPages(s, s1, pid);
    }
  }

  lemma {:induction false} NewHeapPages(s: K, s1: K, s': K, pid: int, v: nat, f: nat)
    requires Shape(s) && Live(s, pid) && s.procs[pid].pagetable < NPAGES && FaultedIn(s, s1, s', pid, v, f)
    requires SameLeaves(s.mem, s1.mem, s.procs[pid].pagetable) && Shape(s')
    requires InHeap(s.procs[pid], v) && !Present(s.mem, s.procs[pid].pagetable, v)
    ensures v !in HeapPages(s, pid) && HeapPages(s', pid) == HeapPages(s, pid) + {v}
  {
    forall w: nat | w < VPAGES ensures HeapPage(s', pid, w) <==> HeapPage(s, pid, w) || w == v {
      hide NewPage, Palloced, HeapPage;
      NewHeapPage(s, s1, s', pid, v, f, w);
    }
  }

  lemma {:induction false} NewHeapPage(s: K, s1: K, s': K, pid: int, v: nat, f: nat, w: nat)
    requires Shape(s) && Live(s, pid) && s.procs[pid].pagetable < NPAGES && FaultedIn(s, s1, s', pid, v, f)
    requires SameLeaves(s.mem, s1.mem, s.procs[pid].pagetable) && Shape(s') && w < VPAGES && InHeap(s.procs[pid], v)
    ensures HeapPage(s', pid, w) <==> HeapPage(s, pid, w) || w == v
  {
    NewPageLeaves(s1, s', pid, v, f);
    if w != v { PageFrame(s.mem, s'.mem, s.procs[pid].pagetable, w); }
  }

  lemma {:induction false} PallocLeaves(s: K, s1: K, pid: int, f: nat)
    requires Inv(s) && Live(s, pid) && Palloced(s, s1, pid, f)
    ensures s.procs[pid].pagetable < NPAGES && SameLeaves(s.mem, s1.mem, s.procs[pid].pagetable)
  {
    LiveBasics(s, pid);
    FreeFrameUnused(s, pid, f);
    PallocTables(s, s1, pid, f, s.procs[pid].pagetable);
    TreeFrame(s.mem, s1.mem, s.procs[pid].pagetable);
  }

  lemma {:induction false} FaultedInFrames(s: K, s1: K, s': K, pid: int, v: nat, f: nat)
    requires Shape(s) && Live(s, pid) && FaultedIn(s, s1, s', pid, v, f) && Shape(s')
    ensures f !in Held(s, pid) && Held(s', pid) == Held(s, pid) + {f}
  {
    PallocTakesOne(s, s', pid, f);
  }

  lemma {:induction false} BothGrow(s: K, s': K, pid: int, v: nat, f: nat)
    requires |s.owner| == |s.refcount| == |s'.owner| == |s'.refcount| == NPAGES
    requires f !in Held(s, pid) && Held(s', pid) == Held(s, pid) + {f}
    requires v !in HeapPages(s, pid) && HeapPages(s', pid) == HeapPages(s, pid) + {v}
    ensures Overhead(s', pid) == Overhead(s, pid)
  {
  }

  lemma {:induction false} NewPageOverhead(s: K, s1: K, s': K, pid: int, v: nat, f: nat)
    requires Shape(s) && Live(s, pid) && s.procs[pid].pagetable < NPAGES && FaultedIn(s, s1, s', pid, v, f)
    requires SameLeaves(s.mem, s1.mem, s.procs[pid].pagetable) && Shape(s')
    requires InHeap(s.procs[pid], v) && !Present(s.mem, s.procs[pid].pagetable, v)
    ensures Overhead(s', pid) == Overhead(s, pid)
  {
    FaultedInFrames(s, s1, s', pid, v, f);
    NewHeapPages(s, s1, s', pid, v, f);
    BothGrow(s, s', pid, v, f);
  }

  lemma {:induction false} FaultedInOverhead(s: K, s1: K, s': K, pid: int, addr: u64, f: nat)
    requires Inv(s) && Live(s, pid) && Lazy(s, pid, addr) && FaultedIn(s, s1, s', pid, PageOf(addr), f) && Shape(s')
    ensures Overhead(s', pid) == Overhead(s, pid)
  {
    LazyPage(s, pid, addr);
    PallocLeaves(s, s1, pid, f);
    NewPageOverhead(s, s1, s', pid, PageOf(addr), f);
  }

  lemma {:induction false} StoreOverhead(s: K, s': K, pid: int, va: u64, b: byte)
    requires Inv(s) && Live(s, pid) && Tree(s.mem, s.procs[pid].pagetable) && StoreStep(s, s', pid, va, b)
    ensures Shape(s') && Overhead(s', pid) == Overhead(s, pid)
  {
    StoreKeeps(s, s', pid, va, b);
    LiveBasics(s, pid);
    SameHeapPages(s, s', pid);
  }

  lemma {:induction false} OwnOverhead(s: K, s': K, e: Event)
    requires Inv(s) && Step(s, s', e) && Live(s', e.pid)
    ensures Shape(s') && Overhead(s', e.pid) == Overhead(s, e.pid)
  {
    hide OwnedTree, UserPagesOk, HeapPagesOk, HeapBound, KernelPagesOk, Tree;
    match e.act
    case Move(difference, result) => MoveOverhead(s, s', e.pid, difference, result);
    case Fault(addr) =>
      FaultKeeps(s, s', e.pid, addr);
      var f, s1 :| Lazy(s, e.pid, addr) && FaultedIn(s, s1, s', e.pid, PageOf(addr), f);
      FaultedInOverhead(s, s1, s', e.pid, addr, f);
    case Exit =>
    case StoreByte(va, b) => StoreOverhead(s, s', e.pid, va, b);
  }

  lemma {:induction false} StepOverhead(s: K, s': K, e: Event, q: int)
    requires Inv(s) && Step(s, s', e) && Live(s, q) && Live(s', q)
    ensures Shape(s') && Overhead(s', q) == Overhead(s, q)
  {
    StepKeeps(s, s', e);
    if q == e.pid { OwnOverhead(s, s', e); } else { OthersOverhead(s, s', e.pid, q); }
  }

  lemma {:induction false} RunStepOverhead(states: seq<K>, events: seq<Event>, q: int, n: nat)
    requires Run(states, events) && Inv(states[0]) && n < |events| && Live(states[n], q) && Live(states[n + 1], q)
    ensures Overhead(states[n + 1], q) == Overhead(states[n], q)
  {
    RunKeeps(states, events, n);
    StepOverhead(states[n], states[n + 1], events[n], q);
  }

  lemma {:induction false} Constant(states: seq<K>, q: int, n: nat)
    requires n < |states| && forall k :: 0 <= k < n ==> Overhead(states[k + 1], q) == Overhead(states[k], q)
    ensures Overhead(states[n], q) == Overhead(states[0], q)
  {
    if n > 0 {
      Constant(states, q, n - 1);
      assert Overhead(states[n - 1 + 1], q) == Overhead(states[n - 1], q);
    }
  }

  /** Nothing leaks: over any run in which `q` stays alive, the frames it holds
      beyond those of its present heap pages are as many at the end as at the
      start. */
  lemma {:induction false} RunConserves(states: seq<K>, events: seq<Event>, q: int, n: nat)
    requires Run(states, events) && Inv(states[0]) && n < |states|
    requires forall k :: 0 <= k <= n ==> Live(states[k], q)
    ensures Overhead(states[n], q) == Overhead(states[0], q)
  {
    forall k | 0 <= k < n ensures Overhead(states[k + 1], q) == Overhead(states[k], q) {
      RunStepOverhead(states, events, q, k);
    }
    Constant(states, q, n);
  }
}
