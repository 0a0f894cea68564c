/** The first touch of a heap page: when it succeeds, and that the process can then use
    the page. */
module KernelTouch {
  import opened Bytes
  import opened Options
  import opened Sbrk
  import opened PageTables
  import opened VirtualMemory
  import opened KernelState
  import opened KernelSteps
  import opened KernelHeap
  import opened KernelMemory
  import opened KernelRuns

  /** The first `n` pages have tables. */
  ghost predicate HasTables(m: seq<byte>, root: nat, n: nat)
    requires |m| == MEMSIZE_PHYSICAL && root < NPAGES
  {
    forall v :: 0 <= v < n ==> Leaf(m, root, v).Some?
  }

  /** The tables of a live process cover the first `n` pages. */
  ghost predicate Covered(s: K, q: int, n: nat) {
    Shape(s) && Live(s, q) && s.procs[q].pagetable < NPAGES && n <= VPAGES && HasTables(s.mem, s.procs[q].pagetable, n)
  }

  lemma {:induction false} SameLeavesTables(m: seq<byte>, m': seq<byte>, root: nat, n: nat)
    requires |m| == |m'| == MEMSIZE_PHYSICAL && root < NPAGES && n <= VPAGES
    requires HasTables(m, root, n) && SameLeaves(m, m', root)
    ensures HasTables(m', root, n)
  {
    forall v | 0 <= v < n ensures Leaf(m', root, v).Some? { assert Leaf(m', root, v) == Leaf(m, root, v); }
  }

  lemma {:induction false} MoveKeepsTables(s: K, s': K, q: int, difference: i64, r: int, n: nat)
    requires Covered(s, q, n) && SbrkStep(s, s', q, difference, r)
    ensures Covered(s', q, n)
  {
    var root := s.procs[q].pagetable;
    forall v | 0 <= v < n ensures |s'.mem| == MEMSIZE_PHYSICAL && Leaf(s'.mem, root, v).Some? {
      assert Leaf(s.mem, root, v).Some?;
    }
  }

  lemma {:induction false} FaultKeepsTables(s: K, s': K, q: int, addr: u64, n: nat)
    requires Inv(s) && Covered(s, q, n) && FaultStep(s, s', q, addr) && Live(s', q)
    ensures Covered(s', q, n)
  {
    hide PageinfoOk, KernelOk, ActiveOk, HasTables, FaultedIn;
    FaultServedExactly(s, s', q, addr);
    var f, s1 :| FaultedIn(s, s1, s', q, PageOf(addr), f);
    FaultedInTables(s, s1, s', q, s.procs[q].pagetable, PageOf(addr), f, n);
  }

  lemma {:induction false} FaultedInTables(s: K, s1: K, s': K, q: int, root: nat, v: nat, f: nat, n: nat)
    requires Inv(s) && Covered(s, q, n) && root == s.procs[q].pagetable && FaultedIn(s, s1, s', q, v, f) && v < VPAGES
    ensures Shape(s') && s'.procs == s.procs && HasTables(s'.mem, root, n)
  {
    hide PageinfoOk, KernelOk, ActiveOk;
    FreeFrameUnused(s, q, f);
    PallocTables(s, s1, q, f, root);
    LiveBasics(s, q);
    TreeFrame(s.mem, s1.mem, root);
    SameLeavesTables(s.mem, s1.mem, root, n);
    NewPageLeaves(s1, s', q, v, f);
    forall u | 0 <= u < n ensures Leaf(s'.mem, root, u).Some? {
      assert Leaf(s1.mem, root, u).Some?;
    }
  }

  /** No step takes a table from a process that lives on. */
  lemma {:induction false} StepKeepsTables(s: K, s': K, e: Event, q: int, n: nat)
    requires Inv(s) && Step(s, s', e) && Covered(s, q, n) && Live(s', q)
    ensures Covered(s', q, n)
  {
    StepKeeps(s, s', e);
    if q != e.pid {
      OthersKept(s, s', e.pid, q);
      SameLeavesTables(s.mem, s'.mem, s.procs[q].pagetable, n);
    } else {
      match e.act
      case Move(difference, result) => MoveKeepsTables(s, s', q, difference, result, n);
      case Fault(addr) => FaultKeepsTables(s, s', q, addr, n);
      case Exit =>
      case StoreByte(va, b) =>
        StoreKeeps(s, s', q, va, b);
        SameLeavesTables(s.mem, s'.mem, s.procs[q].pagetable, n);
    }
  }

  lemma {:induction false} RunKeepsTables(states: seq<K>, events: seq<Event>, q: int, n: nat, k: nat)
    requires Run(states, events) && Inv(states[0]) && Covered(states[0], q, n) && k < |states| && Live(states[k], q)
    ensures Covered(states[k], q, n)
  {
    hide Inv, Step, Covered;
    if k > 0 {
      WasLive(states, events, q, k - 1);
      RunKeepsTables(states, events, q, n, k - 1);
      RunKeeps(states, events, k - 1);
      assert Step(states[k - 1], states[k], events[k - 1]);
      StepKeepsTables(states[k - 1], states[k], events[k - 1], q, n);
    }
  }

  /** `addr` is in the heap of `q`, on a page that is not there yet. */
  ghost predicate Untouched(s: K, q: int, addr: u64) {
    && Shape(s) && Live(s, q) && s.procs[q].pagetable < NPAGES
    && s.procs[q].originalBreak <= addr < s.procs[q].programBreak && !Present(s.mem, s.procs[q].pagetable, PageOf(addr))
  }

  /** For a process whose tables cover user memory at the start, at any time of any run:
      its first touch of a heap page succeeds exactly when some frame is free. */
  lemma {:induction false} FirstTouch(states: seq<K>, events: seq<Event>, q: int, k: nat, s': K, addr: u64)
    requires Run(states, events) && Inv(states[0]) && Covered(states[0], q, BREAK_LIMIT / 4096) && k < |states|
    requires Untouched(states[k], q, addr) && FaultStep(states[k], s', q, addr)
    ensures Live(s', q) <==> exists f :: 0 <= f < NPAGES && states[k].refcount[f] == 0
  {
    RunKeeps(states, events, k);
    RunKeepsTables(states, events, q, BREAK_LIMIT / 4096, k);
    FaultServedExactly(states[k], s', q, addr);
    LazyPage(states[k], q, addr);
  }

  /** And then the process can store at the address, and reads back what it stored. */
  lemma {:induction false} FirstTouchStores(s: K, s': K, q: int, addr: u64, b: byte) returns (s'': K)
    requires Inv(s) && Live(s, q) && FaultStep(s, s', q, addr) && Live(s', q)
    ensures Inv(s') && Step(s', s'', Event(q, StoreByte(addr, b)))
    ensures Inv(s'') && UserByte(s'', q, PageOf(addr), addr % 4096) == Some(b)
  {
    FaultKeeps(s, s', q, addr);
    FaultServedExactly(s, s', q, addr);
    FaultMemory(s, s', q, addr, PageOf(addr), addr % 4096);
    SamePagetable(s, s', q, addr);
    s'' := StoreThere(s', q, addr, b);
    StoreKeeps(s', s'', q, addr, b);
    StoreMemory(s', s'', q, addr, b, PageOf(addr), addr % 4096);
  }

  lemma {:induction false} SamePagetable(s: K, s': K, q: int, addr: u64)
    requires Inv(s) && Live(s, q) && FaultStep(s, s', q, addr) && Live(s', q)
    ensures s'.procs[q] == s.procs[q]
  {
    FaultServedExactly(s, s', q, addr);
    var f, s1 :| FaultedIn(s, s1, s', q, PageOf(addr), f);
  }

  /** Where a page is the user's and writable, a store is possible. */
  lemma {:induction false} StoreThere(s: K, q: int, addr: u64, b: byte) returns (s': K)
    requires Inv(s) && Live(s, q) && s.procs[q].pagetable < NPAGES
    requires UserPage(s.mem, s.procs[q].pagetable, PageOf(addr))
    requires HasW(Leaf(s.mem, s.procs[q].pagetable, PageOf(addr)).value)
    requires FrameAt(s.mem, s.procs[q].pagetable, PageOf(addr)) < NPAGES
    ensures Tree(s.mem, s.procs[q].pagetable) && StoreStep(s, s', q, addr, b)
  {
    var root := s.procs[q].pagetable;
    LiveBasics(s, q);
    TreeLookup(s.mem, root, addr);
    FlagsBits(Leaf(s.mem, root, PageOf(addr)).value);
    s' := s.(mem := s.mem[Lookup(s.mem, root, addr).pa := b]);
  }
}
