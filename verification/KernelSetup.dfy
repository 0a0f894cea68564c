/** process_setup: page tables, a program, a stack page, and then the process runs. The
    kernel's own routines for the tables and the stack are precompiled and not part of
    the model; the ones here stand in for them. */
module KernelSetup {
  import opened Bytes
  import opened Options
  import opened Sbrk
  import opened PageTables
  import opened VirtualMemory
  import opened KernelTables
  import opened KernelState
  import opened KernelSteps
  import opened KernelHeap
  import opened KernelMemory
  import opened KernelBoot
  import opened LoaderSteps
  import opened Loader
  import opened KernelTouch
  import K0 = Kernel

  const KERNEL_PAGES: nat := PROC_START_ADDR / 4096

  /** Five frames in a row that nobody uses. */
  predicate FiveFree(s: K, f: nat) {
    |s.refcount| == NPAGES && 0 < f && f + 5 <= NPAGES && forall i :: f <= i < f + 5 ==> s.refcount[i] == 0
  }

  /** The entry of page `v` in a new process: the kernel's memory at its own
      addresses, for the kernel alone; the console for everyone; nothing else. */
  function SetupLeaf(v: nat): Option<nat> {
    if v == CONSOLE_FRAME then Some(4096 * CONSOLE_FRAME + 7)
    else if v < KERNEL_PAGES then Some(4096 * v + 3)
    else if v < 1024 then Some(0)
    else None
  }

  ghost predicate SetUp(linked: seq<byte>, m: seq<byte>, f: nat) {
    && Linked(linked, f) && LeafChange(linked, m, f)
    && forall v :: 0 <= v < VPAGES ==> Leaf(m, f, v) == SetupLeaf(v)
  }

  lemma {:induction false} SetupEntries(v: nat)
    requires v < NPAGES
    ensures HasP(4096 * v + 3) && HasW(4096 * v + 3) && !HasU(4096 * v + 3) && FrameOf(4096 * v + 3) == v
    ensures HasP(4096 * v + 7) && HasW(4096 * v + 7) && HasU(4096 * v + 7) && FrameOf(4096 * v + 7) == v
    ensures HasP(3) && HasP(7) && !HasP(0)
  {
    EntryParts(v, 3);
    EntryParts(v, 7);
    FlagsBits(4096 * v + 3);
    FlagsBits(4096 * v + 7);
  }

  /** Two mappings make the new process's leaves. */
  lemma {:induction false} TwoMappings(linked: seq<byte>, m1: seq<byte>, m2: seq<byte>, f: nat)
    requires Linked(linked, f)
    requires Mapped(linked, m1, f, 0, 0, 3, KERNEL_PAGES)
    requires Mapped(m1, m2, f, CONSOLE_FRAME, 4096 * CONSOLE_FRAME, 7, 1)
    ensures SetUp(linked, m2, f)
  {
    LeafChangeTrans(linked, m1, m2, f);
    forall v | 0 <= v < VPAGES ensures Leaf(m2, f, v) == SetupLeaf(v) {
      TwoMappingsLeaf(linked, m1, m2, f, v);
    }
  }

  lemma {:induction false} TwoMappingsLeaf(linked: seq<byte>, m1: seq<byte>, m2: seq<byte>, f: nat, v: nat)
    requires Linked(linked, f) && v < VPAGES
    requires Mapped(linked, m1, f, 0, 0, 3, KERNEL_PAGES)
    requires Mapped(m1, m2, f, CONSOLE_FRAME, 4096 * CONSOLE_FRAME, 7, 1)
    ensures Leaf(m2, f, v) == SetupLeaf(v)
  {
    hide Unaliased, SameNodes, OnlyLeafTables, LinkEntry, Node;
    assert Leaf(m1, f, v) == NewLeaf(linked, f, 0, 0, 3, KERNEL_PAGES, v);
    assert Leaf(m2, f, v) == NewLeaf(m1, f, CONSOLE_FRAME, 4096 * CONSOLE_FRAME, 7, 1, v);
    LinkedLeaf(linked, f, v);
    SetupEntries(0);
  }

  /** The new tree has the five frames as its tables and passes all that is asked of
      a process. */
  lemma {:induction false} SetupTables(linked: seq<byte>, m: seq<byte>, f: nat, t: nat)
    requires SetUp(linked, m, f) && IsTable(m, f, t)
    ensures f <= t < f + 5
  {
    var l, q :| IsNode(m, f, l, q) && Node(m, f, l, q) == Some(t);
    assert Node(m, f, l, q) == Node(linked, f, l, q);
    LinkedNode(linked, f, l, q);
  }

  lemma {:induction false} SetupTree(linked: seq<byte>, m: seq<byte>, f: nat, owner: seq<int>,
                                     refcount: seq<int>, pid: int)
    requires SetUp(linked, m, f) && |owner| == |refcount| == NPAGES
    requires forall i :: f <= i < f + 5 ==> Private(owner, refcount, pid, i)
    ensures OwnedTree(m, owner, refcount, f, pid)
  {
    LinkedClean(linked, f);
    LeafChangeClean(linked, m, f);
    forall t | IsTable(m, f, t) ensures Private(owner, refcount, pid, t) {
      SetupTables(linked, m, f, t);
    }
  }

  lemma {:induction false} SetupPage(linked: seq<byte>, m: seq<byte>, f: nat, v: nat)
    requires SetUp(linked, m, f) && v < VPAGES
    ensures UserPage(m, f, v) <==> v == CONSOLE_FRAME
    ensures UserPage(m, f, v) ==> FrameAt(m, f, v) == CONSOLE_FRAME
    ensures Present(m, f, v) <==> v < KERNEL_PAGES
    ensures v < KERNEL_PAGES ==> forall data :: KernelPageOk(m, f, v, data)
  {
    hide HasP, HasW, HasU, FrameOf;
    assert Leaf(m, f, v) == SetupLeaf(v);
    if v < NPAGES { SetupEntries(v); } else { SetupEntries(0); }
  }

  lemma {:induction false} SetupUserPages(linked: seq<byte>, m: seq<byte>, f: nat, owner: seq<int>,
                                          refcount: seq<int>, pid: int)
    requires SetUp(linked, m, f) && |owner| == |refcount| == NPAGES
    ensures UserPagesOk(m, owner, refcount, f, pid)
  {
    forall v | 0 <= v < VPAGES && UserPage(m, f, v) ensures FrameAt(m, f, v) == CONSOLE_FRAME && v == CONSOLE_FRAME {
      SetupPage(linked, m, f, v);
    }
  }

  lemma {:induction false} SetupKernelPages(linked: seq<byte>, m: seq<byte>, f: nat, image: Image)
    requires SetUp(linked, m, f) && image.end <= KERNEL_PAGES
    ensures KernelPagesOk(m, f, image)
  {
    forall v | KERNEL_START_ADDR / 4096 <= v < image.end ensures KernelPageOk(m, f, v, image.data) {
      SetupPage(linked, m, f, v);
    }
    SetupPage(linked, m, f, KERNEL_STACK_TOP / 4096 - 1);
  }

  /** From `s` to `s'`, the free frames [f, f + 5) became the page tables of `pid`. */
  ghost predicate TablesMade(s: K, s': K, linked: seq<byte>, pid: int, f: nat)
    requires Shape(s) && 0 < pid < NPROC
  {
    && FiveFree(s, f) && Shape(s') && s'.kroot == s.kroot && s'.image == s.image
    && s'.procs == s.procs[pid := s.procs[pid].(pagetable := f)]
    && (forall x :: 0 <= x < |s.mem| && s.mem[x] != s'.mem[x] ==> f <= x / 4096 < f + 5)
    && (forall i :: 0 <= i < NPAGES ==>
         if f <= i < f + 5 then s'.owner[i] == pid && s'.refcount[i] == 1
         else s'.owner[i] == s.owner[i] && s'.refcount[i] == s.refcount[i])
    && SetUp(linked, s'.mem, f)
  }

  lemma {:induction false} TablesOwn(s: K, s': K, linked: seq<byte>, pid: int, f: nat)
    requires Shape(s) && PageinfoOk(s) && 0 < pid < NPROC && TablesMade(s, s', linked, pid, f)
    ensures OwnChange(s, s', pid)
  {
  }

  lemma {:induction false} TablesLoading(s: K, s': K, linked: seq<byte>, pid: int, f: nat)
    requires Inv(s) && 0 < pid < NPROC && TablesMade(s, s', linked, pid, f)
    ensures Loading(s', pid) && OwnChange(s, s', pid)
  {
    TablesOwn(s, s', linked, pid, f);
    SetupTree(linked, s'.mem, f, s'.owner, s'.refcount, pid);
    SetupUserPages(linked, s'.mem, f, s'.owner, s'.refcount, pid);
  }

  /** The tables cost five frames. */
  lemma {:induction false} FiveFewer(s: K, s': K, linked: seq<byte>, pid: int, f: nat)
    requires Shape(s) && 0 < pid < NPROC && TablesMade(s, s', linked, pid, f)
    ensures |FreeFrames(s')| == |FreeFrames(s)| - 5
  {
    var five := {f, f + 1, f + 2, f + 3, f + 4};
    assert five <= FreeFrames(s) && FreeFrames(s') == FreeFrames(s) - five;
  }

  /** They cover the first 1024 pages, and so all of user memory. */
  lemma {:induction false} SetupCovers(linked: seq<byte>, m: seq<byte>, f: nat)
    requires SetUp(linked, m, f)
    ensures forall v :: 0 <= v < VPAGES ==> (Leaf(m, f, v).Some? <==> v < 1024)
  {
    hide Unaliased, SameNodes, OnlyLeafTables, LinkEntry, Leaf, Node;
    forall v | 0 <= v < VPAGES ensures Leaf(m, f, v).Some? <==> v < 1024 {
      assert Leaf(m, f, v) == SetupLeaf(v);
    }
  }

  /** So frames are all that a program in user memory can lack. */
  lemma {:induction false} FramesSuffice(linked: seq<byte>, s: K, pid: int, phs: seq<Segment>)
    requires Shape(s) && 0 <= pid < NPROC && SetUp(linked, s.mem, s.procs[pid].pagetable) && InUserMemory(phs)
    ensures s.procs[pid].pagetable < NPAGES
    ensures Suffices(s, pid, phs, |phs|) <==> TotalPages(phs, |phs|) <= |FreeFrames(s)|
  {
    SetupCovers(linked, s.mem, s.procs[pid].pagetable);
    forall i | 0 <= i < |phs| && Loadable(phs[i]) ensures HaveTables(s.mem, s.procs[pid].pagetable, phs[i]) {
      SegmentRange(phs, i);
      ProgramBreak(phs);
    }
  }

  // ----- from a process in the making to a live one -----

  ghost predicate NoHeapPage(m: seq<byte>, p: Proc)
    requires |m| == MEMSIZE_PHYSICAL && p.pagetable < NPAGES
  {
    forall v: nat :: InHeap(p, v) ==> !Present(m, p.pagetable, v)
  }

  /** The process only has to be marked runnable. */
  ghost predicate Prepared(s: K, pid: int) {
    && Loading(s, pid) && BreaksOk(s.procs[pid]) && NoHeapPage(s.mem, s.procs[pid])
    && KernelPagesOk(s.mem, s.procs[pid].pagetable, s.image)
  }

  function Started(s: K, pid: int): K
    requires |s.procs| == NPROC && 0 <= pid < NPROC
  {
    s.(procs := s.procs[pid := s.procs[pid].(state := P_RUNNABLE)])
  }

  lemma {:induction false} StartedPageinfo(s0: K, s: K, pid: int)
    requires Inv(s0) && OwnChange(s0, s, pid) && Loading(s, pid)
    ensures PageinfoOk(Started(s, pid))
  {
    var s' := Started(s, pid);
    forall f | 0 <= f < NPAGES && s'.refcount[f] > 0 && s'.owner[f] >= 0
      ensures 0 < s'.owner[f] < NPROC && s'.procs[s'.owner[f]].state != P_FREE
    {
      if Mine(s0, pid, f) { assert Mine(s, pid, f); } else { assert s.owner[f] == s0.owner[f]; }
    }
    assert !Mine(s0, pid, CONSOLE_FRAME) && !Mine(s0, pid, 0);
  }

  /** A process that was prepared by changing nothing but its own is live once it is marked
      runnable, and the invariant holds. */
  lemma {:induction false} StartKeeps(s0: K, s: K, pid: int)
    requires Inv(s0) && OwnChange(s0, s, pid) && Prepared(s, pid)
    ensures Inv(Started(s, pid)) && Live(Started(s, pid), pid)
  {
    var s' := Started(s, pid);
    StartedPageinfo(s0, s, pid);
    assert OwnChange(s0, s', pid);
    InvKept(s0, s', pid);
  }

  // ----- an empty program -----

  lemma {:induction false} EmptyPrepared(s: K, s': K, linked: seq<byte>, pid: int, brk: u64)
    requires Loading(s, pid) && SetUp(linked, s.mem, s.procs[pid].pagetable) && s' == BreaksSet(s, pid, brk)
    requires PROC_START_ADDR <= brk < BREAK_LIMIT && brk % 4096 == 0
    ensures Prepared(s', pid) && OwnChange(s, s', pid)
  {
    var p := s'.procs[pid];
    forall v: nat | InHeap(p, v) ensures !Present(s'.mem, p.pagetable, v) {
      SetupPage(linked, s.mem, p.pagetable, v);
    }
    SetupKernelPages(linked, s.mem, p.pagetable, s.image);
  }

  // ----- a program -----

  /** There is something to load, and all of it lies between the start of user memory and
      the stack, with room for the break above it. */
  predicate InUserMemory(phs: seq<Segment>) {
    && (exists i :: 0 <= i < |phs| && Loadable(phs[i]))
    && forall i :: 0 <= i < |phs| && Loadable(phs[i]) ==>
         PROC_START_ADDR <= phs[i].va && EndMem(phs[i]) <= BREAK_LIMIT - PAGESIZE
  }

  lemma {:induction false} SegmentRange(phs: seq<Segment>, i: nat)
    requires InUserMemory(phs) && i < |phs| && Loadable(phs[i])
    ensures PROC_START_ADDR / 4096 <= First(phs[i]) && 4096 * Last(phs[i]) <= RoundUp(MaxEnd(phs, |phs|), 4096)
    ensures EndMem(phs[i]) <= VA_LIMIT
  {
    assert EndMem(phs[i]) <= MaxEnd(phs, |phs|);
  }

  lemma {:induction false} ProgramBreak(phs: seq<Segment>)
    requires InUserMemory(phs)
    ensures var brk := RoundUp(MaxEnd(phs, |phs|), 4096); PROC_START_ADDR <= brk < BREAK_LIMIT
  {
    var i :| 0 <= i < |phs| && Loadable(phs[i]);
    assert EndMem(phs[i]) <= MaxEnd(phs, |phs|);
  }

  /** Pages below user memory, and from the program's end up, are in no segment. */
  lemma {:induction false} OutsideProgram(phs: seq<Segment>, u: nat)
    requires InUserMemory(phs)
    requires u < PROC_START_ADDR / 4096 || RoundUp(MaxEnd(phs, |phs|), 4096) / 4096 <= u
    ensures !InSegment(phs, |phs|, u)
  {
    forall i | 0 <= i < |phs| && Loadable(phs[i]) ensures !(First(phs[i]) <= u < Last(phs[i])) {
      SegmentRange(phs, i);
    }
  }

  lemma {:induction false} LoadedPrepared(s0: K, s1: K, s: K, linked: seq<byte>, pid: int, phs: seq<Segment>,
                                          file: seq<byte>)
    requires Loading(s0, pid) && SetUp(linked, s0.mem, s0.procs[pid].pagetable) && InUserMemory(phs)
    requires LoadedUpTo(s0, s1, pid, phs, file, |phs|) && RoundUp(MaxEnd(phs, |phs|), 4096) < TWO64
    requires s == BreaksSet(s1, pid, RoundUp(MaxEnd(phs, |phs|), 4096))
    ensures Prepared(s, pid) && OwnChange(s0, s, pid)
  {
    hide OwnedTree, UserPagesOk, SegmentsHold, FileOk, SetUp, OutsideKept, InUserMemory, KernelPagesOk, NoHeapPage;
    ProgramBreak(phs);
    LoadedNoHeap(s0.mem, s.mem, linked, s.procs[pid], phs);
    LoadedKernelPages(s0.mem, s.mem, linked, s.procs[pid].pagetable, phs, s0.image);
  }

  lemma {:induction false} LoadedNoHeap(m: seq<byte>, m': seq<byte>, linked: seq<byte>, p: Proc, phs: seq<Segment>)
    requires |m| == |m'| == MEMSIZE_PHYSICAL && p.pagetable < NPAGES
    requires SetUp(linked, m, p.pagetable) && InUserMemory(phs)
    requires OutsideKept(m, m', p.pagetable, phs, |phs|) && p.originalBreak == RoundUp(MaxEnd(phs, |phs|), 4096)
    ensures NoHeapPage(m', p)
  {
    hide SetUp, InSegment, InUserMemory;
    ProgramBreak(phs);
    forall v: nat | InHeap(p, v) ensures !Present(m', p.pagetable, v) {
      OutsideProgram(phs, v);
      assert Leaf(m', p.pagetable, v) == Leaf(m, p.pagetable, v);
      SetupPage(linked, m, p.pagetable, v);
    }
  }

  lemma {:induction false} LoadedKernelPages(m: seq<byte>, m': seq<byte>, linked: seq<byte>, root: nat, phs: seq<Segment>,
                                             image: Image)
    requires |m| == |m'| == MEMSIZE_PHYSICAL && root < NPAGES && SetUp(linked, m, root) && InUserMemory(phs)
    requires OutsideKept(m, m', root, phs, |phs|) && image.end <= PROC_START_ADDR / 4096
    ensures KernelPagesOk(m', root, image)
  {
    hide SetUp, InSegment, InUserMemory;
    SetupKernelPages(linked, m, root, image);
    forall v | 0 <= v < PROC_START_ADDR / 4096 ensures Leaf(m', root, v) == Leaf(m, root, v) {
      OutsideProgram(phs, v);
    }
    KernelPagesFrame(m, m', root, image);
  }

  const STACK_PAGE: nat := BREAK_LIMIT / 4096

  /** The stack page takes nothing from the program or the heap. */
  lemma {:induction false} StackPrepared(s: K, s': K, pid: int)
    requires Prepared(s, pid) && Allocated(s, s', pid, STACK_PAGE, STACK_PAGE + 1)
    ensures Prepared(s', pid)
  {
    var root := s.procs[pid].pagetable;
    forall v | 0 <= v < STACK_PAGE ensures Leaf(s'.mem, root, v) == Leaf(s.mem, root, v) {
      assert SamePage(s.mem, s'.mem, root, v, 0);
    }
    forall v: nat | InHeap(s.procs[pid], v) ensures !Present(s'.mem, root, v) {
      assert Leaf(s'.mem, root, v) == Leaf(s.mem, root, v);
    }
    KernelPagesFrame(s.mem, s'.mem, root, s.image);
  }

  // ----- what is in memory in the end -----

  /** The segments of the executable are in memory, and the heap begins above them, empty. */
  ghost predicate HasProgram(s: K, pid: int, file: seq<byte>) {
    && Loading(s, pid) && HeadersFit(file) && FileOk(Headers(file), file)
    && s.procs[pid].originalBreak == s.procs[pid].programBreak == RoundUp(MaxEnd(Headers(file), PhNum(file)), 4096)
    && (PagesDisjoint(Headers(file)) ==> SegmentsHold(s, pid, Headers(file), file, PhNum(file)))
  }

  /** And there is a stack page, and tables for all that the process may touch. */
  ghost predicate Ready(s: K, pid: int, file: seq<byte>) {
    && HasProgram(s, pid, file) && WritablePage(s.mem, s.procs[pid].pagetable, STACK_PAGE)
    && HasTables(s.mem, s.procs[pid].pagetable, 1024)
  }

  /** What a process holds does not depend on the rest of its descriptor. */
  lemma {:induction false} SegmentsHoldSame(s: K, s': K, pid: int, phs: seq<Segment>, file: seq<byte>, n: nat)
    requires SegmentsHold(s, pid, phs, file, n) && Loading(s', pid) && s'.mem == s.mem
    requires s'.procs[pid].pagetable == s.procs[pid].pagetable
    ensures SegmentsHold(s', pid, phs, file, n)
  {
    forall i | 0 <= i < n && Loadable(phs[i]) ensures SegmentHolds(s', pid, phs[i], Source(file, phs[i])) {
      assert SegmentHolds(s, pid, phs[i], Source(file, phs[i]));
    }
  }

  lemma {:induction false} ProgramPrepared(s0: K, s: K, linked: seq<byte>, pid: int, file: seq<byte>)
    requires Loading(s0, pid) && SetUp(linked, s0.mem, s0.procs[pid].pagetable)
    requires HeadersFit(file) && InUserMemory(Headers(file)) && ProgramInMemory(s0, s, pid, Headers(file), file)
    ensures Prepared(s, pid) && OwnChange(s0, s, pid) && HasProgram(s, pid, file)
    ensures s.procs[pid].pagetable == s0.procs[pid].pagetable
  {
    var phs := Headers(file);
    var s1 :| LoadedUpTo(s0, s1, pid, phs, file, |phs|) && s == BreaksSet(s1, pid, RoundUp(MaxEnd(phs, |phs|), 4096));
    LoadedPrepared(s0, s1, s, linked, pid, phs, file);
    if PagesDisjoint(phs) { SegmentsHoldSame(s1, s, pid, phs, file, |phs|); }
  }

  lemma {:induction false} HoldsBeside(s: K, s': K, pid: int, ph: Segment, src: seq<byte>)
    requires Allocated(s, s', pid, STACK_PAGE, STACK_PAGE + 1) && SegmentOk(ph, src) && SegmentHolds(s, pid, ph, src)
    requires Last(ph) <= STACK_PAGE
    ensures SegmentHolds(s', pid, ph, src)
  {
    forall u, off | First(ph) <= u < Last(ph) && u < VPAGES && 0 <= off < 4096
      ensures PageHolds(s'.mem, s'.procs[pid].pagetable, ph, src, u, off)
    {
      assert PageHolds(s.mem, s.procs[pid].pagetable, ph, src, u, off);
      assert SamePage(s.mem, s'.mem, s.procs[pid].pagetable, u, off);
    }
  }

  lemma {:induction false} StackTables(s: K, s': K, pid: int)
    requires Allocated(s, s', pid, STACK_PAGE, STACK_PAGE + 1) && HasTables(s.mem, s.procs[pid].pagetable, 1024)
    ensures HasTables(s'.mem, s.procs[pid].pagetable, 1024)
  {
    forall v | 0 <= v < 1024 ensures Leaf(s'.mem, s.procs[pid].pagetable, v).Some? {
      if v == STACK_PAGE {
        assert WritablePage(s'.mem, s.procs[pid].pagetable, v);
      } else {
        assert SamePage(s.mem, s'.mem, s.procs[pid].pagetable, v, 0);
      }
    }
  }

  lemma {:induction false} StackReady(s: K, s': K, pid: int, file: seq<byte>)
    requires HasProgram(s, pid, file) && InUserMemory(Headers(file)) && HasTables(s.mem, s.procs[pid].pagetable, 1024)
    requires Allocated(s, s', pid, STACK_PAGE, STACK_PAGE + 1)
    ensures Ready(s', pid, file)
  {
    hide HasTables;
    var phs := Headers(file);
    ProgramBreak(phs);
    StackTables(s, s', pid);
    if PagesDisjoint(phs) {
      forall i | 0 <= i < |phs| && Loadable(phs[i]) ensures SegmentHolds(s', pid, phs[i], Source(file, phs[i])) {
        SegmentRange(phs, i);
        HoldsBeside(s, s', pid, phs[i], Source(file, phs[i]));
      }
    }
  }

  lemma {:induction false} StartedReady(s: K, pid: int, file: seq<byte>)
    requires Ready(s, pid, file)
    ensures Ready(Started(s, pid), pid, file)
  {
    hide OwnedTree, UserPagesOk, FileOk, SegmentsHold, PagesDisjoint;
    if PagesDisjoint(Headers(file)) { SegmentsHoldSame(s, Started(s, pid), pid, Headers(file), file, PhNum(file)); }
  }

  /** `memset` of the five tables, and the links between them, as in virtual_memory_init. */
  method LinkTables(mem: array<byte>, f: nat)
    requires mem.Length == MEMSIZE_PHYSICAL && 0 < f && f + 5 <= NPAGES
    modifies mem
    ensures Linked(mem[..], f)
    ensures forall x :: 0 <= x < mem.Length && !(f <= x / 4096 < f + 5) ==> mem[x] == old(mem[x])
  {
    forall x | 4096 * f <= x < 4096 * (f + 5) { mem[x] := 0; }
    ghost var m0 := mem[..];
    Link(mem, f, 0, f + 1);
    Link(mem, f + 1, 0, f + 2);
    Link(mem, f + 2, 0, f + 3);
    Link(mem, f + 2, 1, f + 4);
    AllLinked(m0, f);
  }

  /** A mapping of a new tree touches the tree's frames only. */
  lemma {:induction false} MappedInFive(linked: seq<byte>, m: seq<byte>, m': seq<byte>, f: nat)
    requires Linked(linked, f) && |m| == |m'| == MEMSIZE_PHYSICAL && SameNodes(linked, m, f) && OnlyLeafTables(m, m', f)
    ensures forall x :: 0 <= x < |m| && m[x] != m'[x] ==> f <= x / 4096 < f + 5
  {
    forall x | 0 <= x < |m| && m[x] != m'[x] ensures f <= x / 4096 < f + 5 {
      var q :| IsNode(m, f, 3, q) && Node(m, f, 3, q) == Some(x / 4096);
      assert Node(m, f, 3, q) == Node(linked, f, 3, q);
      LinkedNode(linked, f, 3, q);
    }
  }

  lemma {:induction false} NoFailure(m: seq<byte>, f: nat, v0: nat, n: nat, d: nat, r: int)
    requires |m| == MEMSIZE_PHYSICAL && f < NPAGES && v0 + n <= 1024
    requires forall v :: 0 <= v < 1024 ==> Leaf(m, f, v).Some?
    requires if r == 0 then d == n else d < n && FailsAt(m, f, v0, d)
    ensures d == n
  {
  }

  /** The page tables of a new process. */
  method BuildTables(mem: array<byte>, f: nat) returns (ghost linked: seq<byte>)
    requires mem.Length == MEMSIZE_PHYSICAL && 0 < f && f + 5 <= NPAGES
    modifies mem
    ensures SetUp(linked, mem[..], f)
    ensures forall x :: 0 <= x < mem.Length && !(f <= x / 4096 < f + 5) ==> mem[x] == old(mem[x])
  {
    LinkTables(mem, f);
    linked := mem[..];
    LinkedTree(linked, f);
    forall v | 0 <= v < 1024 ensures Leaf(linked, f, v).Some? { LinkedLeaf(linked, f, v); }
    var r, d := VirtualMemoryMap(mem, f, 0, 0, PROC_START_ADDR, PTE_P + PTE_W, 0, KERNEL_PAGES);
    NoFailure(linked, f, 0, KERNEL_PAGES, d, r);
    ghost var m1 := mem[..];
    MappedInFive(linked, linked, m1, f);
    StillTables(linked, m1, f, d);
    r, d := VirtualMemoryMap(mem, f, 4096 * CONSOLE_FRAME, 4096 * CONSOLE_FRAME, PAGESIZE, PTE_P + PTE_W + PTE_U,
                             CONSOLE_FRAME, 1);
    NoFailure(m1, f, CONSOLE_FRAME, 1, d, r);
    MappedInFive(linked, m1, mem[..], f);
    TwoMappings(linked, m1, mem[..], f);
  }

  lemma {:induction false} StillTables(m: seq<byte>, m': seq<byte>, f: nat, d: nat)
    requires Mapped(m, m', f, 0, 0, 3, d) && forall v :: 0 <= v < 1024 ==> Leaf(m, f, v).Some?
    ensures forall v :: 0 <= v < 1024 ==> Leaf(m', f, v).Some?
  {
    forall v | 0 <= v < 1024 ensures Leaf(m', f, v).Some? {
      assert Leaf(m', f, v) == NewLeaf(m, f, 0, 0, 3, d, v);
    }
  }

  /** The page tables of process `pid`, in the frames from `f` on. */
  method ConfigTables(k: K0.Kernel, pid: nat, f: nat) returns (ghost linked: seq<byte>)
    requires k.owner != k.refcount && Shape(k.View()) && 0 < pid < NPROC && FiveFree(k.View(), f)
    modifies k.mem, k.owner, k.refcount, k.processes
    ensures TablesMade(old(k.View()), k.View(), linked, pid, f)
  {
    ghost var s := k.View();
    linked := BuildTables(k.mem, f);
    for i := f to f + 5
      invariant k.processes[..] == s.procs && SetUp(linked, k.mem[..], f)
      invariant forall x :: 0 <= x < k.mem.Length && !(f <= x / 4096 < f + 5) ==> k.mem[x] == s.mem[x]
      invariant forall j :: 0 <= j < NPAGES ==>
        if f <= j < i then k.owner[j] == pid && k.refcount[j] == 1
        else k.owner[j] == s.owner[j] && k.refcount[j] == s.refcount[j]
    {
      k.owner[i], k.refcount[i] := pid, 1;
    }
    k.processes[pid] := k.processes[pid].(pagetable := f);
  }

  /** A process with no program and an empty heap at `brk`. */
  method SetUpEmpty(k: K0.Kernel, pid: nat, f: nat, brk: u64)
    requires k.Valid() && 0 < pid < NPROC && k.View().procs[pid].state == P_FREE && FiveFree(k.View(), f)
    requires PROC_START_ADDR <= brk < BREAK_LIMIT && brk % 4096 == 0
    modifies k.mem, k.owner, k.refcount, k.processes
    ensures k.Valid() && Live(k.View(), pid) && k.View().procs[pid] == Proc(P_RUNNABLE, brk, brk, f)
  {
    ghost var s0 := k.View();
    var linked := ConfigTables(k, pid, f);
    ghost var s1 := k.View();
    TablesLoading(s0, s1, linked, pid, f);
    k.processes[pid] := k.processes[pid].(programBreak := brk, originalBreak := brk);
    ghost var s2 := k.View();
    EmptyPrepared(s1, s2, linked, pid, brk);
    OwnChangeTrans(s0, s1, s2, pid);
    k.processes[pid] := k.processes[pid].(state := P_RUNNABLE);
    StartKeeps(s0, s2, pid);
    assert k.View() == Started(s2, pid);
  }

  /** A stack page, at the top of user memory. */
  method SetupStack(k: K0.Kernel, pid: nat, ghost s0: K) returns (ok: bool)
    requires k.owner != k.refcount && Shape(s0) && OwnChange(s0, k.View(), pid) && Prepared(k.View(), pid)
    modifies k.mem, k.owner, k.refcount
    ensures ok <==> HasFree(old(k.View())) && Leaf(old(k.mem[..]), old(k.processes[pid]).pagetable, STACK_PAGE).Some?
    ensures ok ==> OwnChange(s0, k.View(), pid) && Prepared(k.View(), pid)
    ensures ok ==> Allocated(old(k.View()), k.View(), pid, STACK_PAGE, STACK_PAGE + 1)
  {
    ghost var s := k.View();
    AllocationStarts(s, pid, STACK_PAGE);
    ok := AllocatePage(k, pid, BREAK_LIMIT, s, STACK_PAGE, STACK_PAGE);
    if ok {
      OwnChangeTrans(s0, s, k.View(), pid);
      StackPrepared(s, k.View(), pid);
    }
  }

  /** process_setup: it succeeds exactly when the file has the magic number and there are frames
      enough: five for the tables, one for the stack, and one for each page of a segment. */
  method ProcessSetup(k: K0.Kernel, pid: nat, f: nat, file: seq<byte>) returns (ok: bool)
    requires k.Valid() && 0 < pid < NPROC && k.View().procs[pid].state == P_FREE && FiveFree(k.View(), f)
    requires HeadersFit(file) && FileOk(Headers(file), file) && InUserMemory(Headers(file))
    modifies k.mem, k.owner, k.refcount, k.processes
    ensures ok <==>
      Magic(file) == ELF_MAGIC && TotalPages(Headers(file), PhNum(file)) + 6 <= |FreeFrames(old(k.View()))|
    ensures ok ==> k.Valid() && Ready(k.View(), pid, file) && k.View().procs[pid].state == P_RUNNABLE
  {
    hide PageinfoOk, KernelOk, ActiveOk, OwnedTree, UserPagesOk, FileOk, InUserMemory, HasProgram;
    hide SetUp, OwnChange, Allocated, Prepared, FreeFrames, HasTables;
    ghost var s0 := k.View();
    var linked := ConfigTables(k, pid, f);
    ghost var s1 := k.View();
    TablesLoading(s0, s1, linked, pid, f);
    FiveFewer(s0, s1, linked, pid, f);
    ok := LoadInto(k, pid, file, s0, linked);
    if !ok {
      return;
    }
    ghost var s2 := k.View();
    ok := SetupStack(k, pid, s0);
    if ok {
      ghost var s3 := k.View();
      StackReady(s2, s3, pid, file);
      k.processes[pid] := k.processes[pid].(state := P_RUNNABLE);
      StartKeeps(s0, s3, pid);
      assert k.View() == Started(s3, pid);
      StartedReady(s3, pid, file);
    }
  }

  /** The program comes into the new tables. */
  method LoadInto(k: K0.Kernel, pid: nat, file: seq<byte>, ghost s0: K, ghost linked: seq<byte>) returns (ok: bool)
    requires k.owner != k.refcount && Shape(s0) && OwnChange(s0, k.View(), pid) && Loading(k.View(), pid)
    requires SetUp(linked, k.mem[..], k.processes[pid].pagetable)
    requires HeadersFit(file) && FileOk(Headers(file), file) && InUserMemory(Headers(file))
    modifies k.mem, k.owner, k.refcount, k.processes
    ensures ok <==> Magic(file) == ELF_MAGIC && TotalPages(Headers(file), PhNum(file)) <= |FreeFrames(old(k.View()))|
    ensures ok ==> OwnChange(s0, k.View(), pid) && Prepared(k.View(), pid) && HasProgram(k.View(), pid, file)
    ensures ok ==> HasTables(k.mem[..], k.processes[pid].pagetable, 1024)
    ensures ok ==> Leaf(k.mem[..], k.processes[pid].pagetable, STACK_PAGE).Some?
    ensures ok ==> (HasFree(k.View()) <==> TotalPages(Headers(file), PhNum(file)) < |FreeFrames(old(k.View()))|)
  {
    hide OwnedTree, UserPagesOk, FileOk, InUserMemory, HasProgram, ProgramInMemory, OwnChange, Prepared;
    hide Consumed, Suffices, FreeFrames, HasTables, SetUp;
    ghost var s1 := k.View();
    FramesSuffice(linked, s1, pid, Headers(file));
    var r := ProgramLoad(k, pid, file);
    ok := r.Loaded?;
    if ok {
      ghost var s2 := k.View();
      ProgramPrepared(s1, s2, linked, pid, file);
      OwnChangeTrans(s0, s1, s2, pid);
      ProgramCovered(s1, s2, linked, pid, file);
    }
  }

  /** After the load the tables are as they were, and the frames that are left are known. */
  lemma {:induction false} ProgramCovered(s1: K, s2: K, linked: seq<byte>, pid: int, file: seq<byte>)
    requires Shape(s1) && 0 <= pid < NPROC && SetUp(linked, s1.mem, s1.procs[pid].pagetable) && HeadersFit(file)
    requires Consumed(s1, s2, pid, Headers(file), PhNum(file)) && s2.procs[pid].pagetable == s1.procs[pid].pagetable
    ensures HasTables(s2.mem, s2.procs[pid].pagetable, 1024) && Leaf(s2.mem, s2.procs[pid].pagetable, STACK_PAGE).Some?
    ensures HasFree(s2) <==> TotalPages(Headers(file), PhNum(file)) < |FreeFrames(s1)|
  {
    SetupCovers(linked, s1.mem, s1.procs[pid].pagetable);
    SomeFree(s2);
  }

  /** At boot 478 frames less the pages up to the image's end are free: those below the image,
      between it and the stack, between the stack and I/O memory, and above that. */
  lemma {:induction false} BootFrames(s: K)
    requires |s.owner| == |s.refcount| == NPAGES && Initial(s.owner, s.refcount, s.image, NPAGES)
    requires 0x40 <= s.image.end <= 0x7F
    ensures |FreeFrames(s)| == 478 - s.image.end
  {
    hide FreeFrames, Between;
    BootFree(s);
    Interval(1, 0x40);
    Interval(s.image.end, 0x7F);
    Interval(0x80, 0xA0);
    Interval(0x100, 0x200);
    BetweenApart(1, 0x40, s.image.end, 0x7F);
    BetweenApart(1, 0x40, 0x80, 0xA0);
    BetweenApart(1, 0x40, 0x100, 0x200);
    BetweenApart(s.image.end, 0x7F, 0x80, 0xA0);
    BetweenApart(s.image.end, 0x7F, 0x100, 0x200);
    BetweenApart(0x80, 0xA0, 0x100, 0x200);
    FourApart(Between(1, 0x40), Between(s.image.end, 0x7F), Between(0x80, 0xA0), Between(0x100, 0x200));
  }

  lemma {:induction false} BootFree(s: K)
    requires |s.owner| == |s.refcount| == NPAGES && Initial(s.owner, s.refcount, s.image, NPAGES)
    requires 0x40 <= s.image.end <= 0x7F
    ensures FreeFrames(s) ==
      Between(1, 0x40) + Between(s.image.end, 0x7F) + Between(0x80, 0xA0) + Between(0x100, 0x200)
  {
    hide Initial, InitialOwner;
    forall f: nat
      ensures f in FreeFrames(s) <==> 1 <= f < 0x40 || s.image.end <= f < 0x7F || 0x80 <= f < 0xA0 || 0x100 <= f < 0x200
    {
      FreeAtBoot(s, f);
    }
  }

  lemma {:induction false} BetweenApart(lo: nat, hi: nat, lo': nat, hi': nat)
    requires hi <= lo'
    ensures Between(lo, hi) !! Between(lo', hi')
  {
  }

  lemma {:induction false} FreeAtBoot(s: K, f: nat)
    requires |s.owner| == |s.refcount| == NPAGES && Initial(s.owner, s.refcount, s.image, NPAGES)
    requires 0x40 <= s.image.end <= 0x7F
    ensures f in FreeFrames(s) <==> 1 <= f < 0x40 || s.image.end <= f < 0x7F || 0x80 <= f < 0xA0 || 0x100 <= f < 0x200
  {
  }

  lemma {:induction false} FourApart(a: set<nat>, b: set<nat>, c: set<nat>, d: set<nat>)
    requires a !! b && a !! c && a !! d && b !! c && b !! d && c !! d
    ensures |a + b + c + d| == |a| + |b| + |c| + |d|
  {
  }

  predicate IsBetween(lo: nat, hi: nat, f: nat) { lo <= f < hi }

  ghost function Between(lo: nat, hi: nat): set<nat> {
    set f: nat | f < hi && IsBetween(lo, hi, f)
  }

  lemma {:induction false} Interval(lo: nat, hi: nat)
    requires lo <= hi
    ensures |Between(lo, hi)| == hi - lo
    decreases hi - lo
  {
    if lo < hi {
      Interval(lo + 1, hi);
      assert Between(lo, hi) == {lo} + Between(lo + 1, hi);
    } else {
      assert Between(lo, hi) == {};
    }
  }

  /** The kernel before its first process: hardware_init and pageinfo_init are done. */
  method NewKernel(kroot: nat, image: Image) returns (k: K0.Kernel)
    requires ImageOk(image, kroot)
    ensures fresh(k) && fresh(k.mem) && fresh(k.owner) && fresh(k.refcount) && fresh(k.processes) && k.Valid()
    ensures k.View().procs[1].state == P_FREE && FiveFree(k.View(), KERNEL_PAGES)
    ensures |FreeFrames(k.View())| == 478 - image.end
  {
    hide PageinfoOk, KernelOk, ActiveOk, IdentityMapped, FreeFrames;
    k := new K0.Kernel(kroot, image);
    BootFrames(k.View());
  }

  /** So the kernel boots into a state with a live process, and the invariant is not an
      empty promise. */
  method BootEmpty(kroot: nat, image: Image) returns (k: K0.Kernel)
    requires ImageOk(image, kroot)
    ensures fresh(k) && k.Valid() && Live(k.View(), 1)
  {
    hide PageinfoOk, KernelOk, ActiveOk;
    k := NewKernel(kroot, image);
    SetUpEmpty(k, 1, KERNEL_PAGES, 0x20_0000);
  }

  /** kernel(): one process is set up, and run, up to the return to user mode; or the kernel
      panics. It runs exactly if the file has the magic number and its segments have no more
      pages than 472 less the pages up to the end of the kernel's image. */
  method Boot(kroot: nat, image: Image, file: seq<byte>) returns (k: K0.Kernel, ok: bool)
    requires ImageOk(image, kroot) && HeadersFit(file) && FileOk(Headers(file), file) && InUserMemory(Headers(file))
    ensures fresh(k) && (ok ==> k.Valid() && k.current == 1 && Live(k.View(), 1) && Ready(k.View(), 1, file))
    ensures ok <==> Magic(file) == ELF_MAGIC && TotalPages(Headers(file), PhNum(file)) + image.end <= 472
  {
    hide PageinfoOk, KernelOk, ActiveOk, FileOk, InUserMemory, Ready, FreeFrames;
    k := NewKernel(kroot, image);
    ok := ProcessSetup(k, 1, KERNEL_PAGES, file);
    if ok {
      k.Run(1);
    }
  }

  /** A process that has been set up has tables for all of its heap, for as long as it lives
      (`KernelTouch.FirstTouch`). */
  lemma {:induction false} ReadyCovers(s: K, pid: int, file: seq<byte>)
    requires Ready(s, pid, file) && Live(s, pid)
    ensures Covered(s, pid, BREAK_LIMIT / 4096)
  {
  }
}
