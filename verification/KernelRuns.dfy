/** Whole runs: any number of processes store to memory, move their breaks, fault
    and exit, in any order. */
module KernelRuns {
  import opened Bytes
  import opened Options
  import opened Sbrk
  import opened PageTables
  import opened VirtualMemory
  import opened KernelState
  import opened KernelSteps
  import opened KernelHeap
  import opened KernelMemory

  datatype Act =
    | Move(difference: i64, result: int)
    | Fault(addr: u64)
    | Exit
    | StoreByte(va: u64, value: byte)

  /** One process acts. */
  datatype Event = Event(pid: int, act: Act)

  ghost predicate Step(s: K, s': K, e: Event) {
    && Shape(s) && Live(s, e.pid)
    && match e.act
       case Move(difference, result) => SbrkStep(s, s', e.pid, difference, result)
       case Fault(addr) => FaultStep(s, s', e.pid, addr)
       case Exit => Released(s, s', e.pid)
       case StoreByte(va, b) => Tree(s.mem, s.procs[e.pid].pagetable) && StoreStep(s, s', e.pid, va, b)
  }

  ghost predicate Run(states: seq<K>, events: seq<Event>) {
    |states| == |events| + 1 && forall n :: 0 <= n < |events| ==> Step(states[n], states[n + 1], events[n])
  }

  lemma {:induction false} StepKeeps(s: K, s': K, e: Event)
    requires Inv(s) && Step(s, s', e)
    ensures Inv(s') && OwnChange(s, s', e.pid)
  {
    match e.act
    case Move(difference, result) => SbrkKeeps(s, s', e.pid, difference, result);
    case Fault(addr) => FaultKeeps(s, s', e.pid, addr);
    case Exit => ReleaseStep(s, s', e.pid);
    case StoreByte(va, b) => StoreKeeps(s, s', e.pid, va, b);
  }

  /** The invariant holds throughout every run. */
  lemma {:induction false} RunKeeps(states: seq<K>, events: seq<Event>, n: nat)
    requires Run(states, events) && Inv(states[0]) && n < |states|
    ensures Inv(states[n])
  {
    if n > 0 {
      RunKeeps(states, events, n - 1);
      StepKeeps(states[n - 1], states[n], events[n - 1]);
    }
  }

  /** What a step does to the memory that `q` sees: nothing if another process
      acts; else what the act says and no more. A page that a fault brings in
      holds unspecified bytes. */
  ghost predicate Seen(s: K, s': K, e: Event, q: int, v: nat, off: nat)
    requires Shape(s) && Shape(s') && 0 < q < NPROC && v < VPAGES && off < 4096
  {
    var before, after := UserByte(s, q, v, off), UserByte(s', q, v, off);
    if q != e.pid then after == before
    else
      match e.act
      case Move(_, _) =>
        after == if HeapTop(s'.procs[q].programBreak) <= v < HeapTop(s.procs[q].programBreak) then None else before
      case Fault(addr) =>
        if !Live(s', q) then after == None
        else if v == PageOf(addr) then before == None && after.Some?
        else after == before
      case Exit => after == None
      case StoreByte(va, b) =>
        after == if v == PageOf(va) && off == va % 4096 && before.Some? then Some(b) else before
  }

  /** Each process has a memory of its own: every step acts on it as on a private
      map from addresses to bytes. */
  lemma {:induction false} StepMemory(s: K, s': K, e: Event, q: int, v: nat, off: nat)
    requires Inv(s) && Step(s, s', e) && 0 < q < NPROC && v < VPAGES && off < 4096
    ensures Shape(s') && Seen(s, s', e, q, v, off)
  {
    StepKeeps(s, s', e);
    if q != e.pid {
      OthersMemory(s, s', e.pid, q, v, off);
    } else {
      match e.act
      case Move(difference, result) => SbrkMemory(s, s', q, difference, result, v, off);
      case Fault(addr) => FaultMemory(s, s', q, addr, v, off);
      case Exit =>
      case StoreByte(va, b) => StoreMemory(s, s', q, va, b, v, off);
    }
  }

  ghost function Reads(s: K, q: int, v: nat, off: nat): Option<byte> {
    if Shape(s) && 0 < q < NPROC && v < VPAGES && off < 4096 then UserByte(s, q, v, off) else None
  }

  predicate Stores(e: Event, q: int, v: nat, off: nat) {
    e.pid == q && e.act.StoreByte? && PageOf(e.act.va) == v && e.act.va % 4096 == off
  }

  lemma {:induction false} StepReads(s: K, s': K, e: Event, q: int, v: nat, off: nat)
    requires Inv(s) && Step(s, s', e) && Reads(s, q, v, off).Some? && Reads(s', q, v, off).Some?
    ensures Reads(s', q, v, off) == if Stores(e, q, v, off) then Some(e.act.value) else Reads(s, q, v, off)
  {
    StepMemory(s, s', e, q, v, off);
  }

  lemma {:induction false} RunReads(states: seq<K>, events: seq<Event>, q: int, v: nat, off: nat, n: nat)
    requires Run(states, events) && Inv(states[0]) && n < |events|
    requires Reads(states[n], q, v, off).Some? && Reads(states[n + 1], q, v, off).Some?
    ensures Reads(states[n + 1], q, v, off) ==
      if Stores(events[n], q, v, off) then Some(events[n].act.value) else Reads(states[n], q, v, off)
  {
    RunKeeps(states, events, n);
    StepReads(states[n], states[n + 1], events[n], q, v, off);
  }

  /** The byte that `q` last stored at page `v`, offset `off`, in the events from
      `i` to `n`. */
  function LastStore(events: seq<Event>, q: int, v: nat, off: nat, i: nat, n: nat, was: Option<byte>): Option<byte>
    requires i <= n <= |events|
    decreases n - i
  {
    if n == i then was
    else if Stores(events[n - 1], q, v, off) then Some(events[n - 1].act.value)
    else LastStore(events, q, v, off, i, n - 1, was)
  }

  ghost function ReadsOf(states: seq<K>, q: int, v: nat, off: nat): (bytes: seq<Option<byte>>)
    ensures |bytes| == |states| && forall k :: 0 <= k < |states| ==> bytes[k] == Reads(states[k], q, v, off)
  {
    if states == [] then [] else ReadsOf(states[..|states| - 1], q, v, off) + [Reads(states[|states| - 1], q, v, off)]
  }

  lemma {:induction false} LastStoreIs(bytes: seq<Option<byte>>, events: seq<Event>, q: int, v: nat, off: nat,
                                       i: nat, n: nat)
    requires |bytes| == |events| + 1 && i <= n <= |events|
    requires forall k :: i <= k < n ==>
      bytes[k + 1] == if Stores(events[k], q, v, off) then Some(events[k].act.value) else bytes[k]
    ensures bytes[n] == LastStore(events, q, v, off, i, n, bytes[i])
    decreases n - i
  {
    if n > i {
      LastStoreIs(bytes, events, q, v, off, i, n - 1);
      assert bytes[n - 1 + 1] == bytes[n];
    }
  }

  /** The break of `q` moves down over the page `v`. */
  ghost predicate PassesDown(s: K, s': K, q: int, v: nat) {
    |s.procs| == NPROC && |s'.procs| == NPROC && 0 <= q < NPROC &&
    HeapTop(s'.procs[q].programBreak) <= v < HeapTop(s.procs[q].programBreak)
  }

  /** A page is mapped for as long as its process lives and its break does not pass down
      over it. */
  lemma {:induction false} StepStaysMapped(s: K, s': K, e: Event, q: int, v: nat, off: nat)
    requires Inv(s) && Step(s, s', e) && Reads(s, q, v, off).Some?
    requires Live(s', q) && !PassesDown(s, s', q, v)
    ensures Reads(s', q, v, off).Some?
  {
    StepMemory(s, s', e, q, v, off);
  }

  /** No step brings a process to life. */
  lemma {:induction false} WasLive(states: seq<K>, events: seq<Event>, q: int, n: nat)
    requires Run(states, events) && Inv(states[0]) && n < |events| && Live(states[n + 1], q)
    ensures Live(states[n], q)
  {
    RunKeeps(states, events, n);
    StepKeeps(states[n], states[n + 1], events[n]);
    assert Step(states[n], states[n + 1], events[n]);
  }

  ghost predicate KeepsPage(states: seq<K>, q: int, v: nat, i: nat, n: nat)
    requires n < |states|
  {
    forall k, next :: i <= k < n && next == k + 1 ==> !PassesDown(states[k], states[next], q, v)
  }

  lemma {:induction false} StaysMapped(states: seq<K>, events: seq<Event>, q: int, v: nat, off: nat, i: nat, n: nat,
                                       k: nat)
    requires Run(states, events) && Inv(states[0]) && i <= k <= n <= |events|
    requires Reads(states[i], q, v, off).Some? && Live(states[n], q) && KeepsPage(states, q, v, i, n)
    ensures Reads(states[k], q, v, off).Some? && Live(states[k], q)
    decreases n - i, k - i
  {
    hide Inv, Step, Reads, Live;
    LiveThroughout(states, events, q, k, n);
    if k > i {
      StaysMapped(states, events, q, v, off, i, n, k - 1);
      RunKeeps(states, events, k - 1);
      assert Step(states[k - 1], states[k], events[k - 1]);
      assert !PassesDown(states[k - 1], states[k], q, v);
      StepStaysMapped(states[k - 1], states[k], events[k - 1], q, v, off);
    }
  }

  lemma {:induction false} LiveThroughout(states: seq<K>, events: seq<Event>, q: int, k: nat, n: nat)
    requires Run(states, events) && Inv(states[0]) && k <= n <= |events| && Live(states[n], q)
    ensures Live(states[k], q)
    decreases n - k
  {
    hide Inv, Step;
    if k < n {
      WasLive(states, events, q, n - 1);
      LiveThroughout(states, events, q, k, n - 1);
    }
  }

  lemma {:induction false} MappedReads(states: seq<K>, events: seq<Event>, q: int, v: nat, off: nat, i: nat, n: nat)
    requires Run(states, events) && Inv(states[0]) && i <= n <= |events|
    requires forall k :: i <= k <= n ==> Reads(states[k], q, v, off).Some?
    ensures Reads(states[n], q, v, off) == LastStore(events, q, v, off, i, n, Reads(states[i], q, v, off))
  {
    var bytes := ReadsOf(states, q, v, off);
    forall k | i <= k < n
      ensures bytes[k + 1] == if Stores(events[k], q, v, off) then Some(events[k].act.value) else bytes[k]
    {
      RunReads(states, events, q, v, off, k);
    }
    LastStoreIs(bytes, events, q, v, off, i, n);
  }

  /** A process reads back what it last stored, whatever every process did in between,
      as long as it lives and its own break does not pass down over the page. */
  lemma {:induction false} ReadsItsOwnWrites(states: seq<K>, events: seq<Event>, q: int, v: nat, off: nat,
                                             i: nat, n: nat)
    requires Run(states, events) && Inv(states[0]) && i <= n <= |events|
    requires Reads(states[i], q, v, off).Some? && Live(states[n], q) && KeepsPage(states, q, v, i, n)
    ensures Reads(states[n], q, v, off).Some?
    ensures Reads(states[n], q, v, off) == LastStore(events, q, v, off, i, n, Reads(states[i], q, v, off))
  {
    hide Inv, Step, Reads, Live, LastStore, KeepsPage;
    forall k | i <= k <= n ensures Reads(states[k], q, v, off).Some? {
      StaysMapped(states, events, q, v, off, i, n, k);
    }
    MappedReads(states, events, q, v, off, i, n);
  }

  /** `q` asks for its break to be moved down. */
  predicate Lowers(e: Event, q: int) {
    e.pid == q && e.act.Move? && e.act.difference < 0
  }

  lemma {:induction false} NotLowered(s: K, s': K, e: Event, q: int, v: nat)
    requires Inv(s) && Step(s, s', e) && !Lowers(e, q) && Live(s', q)
    ensures !PassesDown(s, s', q, v)
  {
    hide OwnedTree, UserPagesOk, HeapPagesOk, KernelPagesOk, HeapBound, PageinfoOk, KernelOk;
    StepKeeps(s, s', e);
    if e.pid == q {
      LiveBasics(s, q);
      match e.act
      case Move(difference, result) =>
        AcceptsExactly(s.procs[q].originalBreak, s.procs[q].programBreak, difference);
        HeapTopGrows(s.procs[q].programBreak, s'.procs[q].programBreak);
      case Fault(addr) =>
      case Exit =>
      case StoreByte(va, b) =>
    }
  }

  lemma {:induction false} HeapTopGrows(brk: nat, brk': nat)
    requires brk <= brk'
    ensures HeapTop(brk) <= HeapTop(brk')
  {
  }

  /** To a process that lives on and never lowers its break, memory is flat: every byte of
      every page it has once touched holds what the process last stored there. */
  lemma {:induction false} FlatMemory(states: seq<K>, events: seq<Event>, q: int, v: nat, off: nat, i: nat, n: nat)
    requires Run(states, events) && Inv(states[0]) && i <= n <= |events| && Live(states[n], q)
    requires forall k :: 0 <= k < n ==> !Lowers(events[k], q)
    requires Reads(states[i], q, v, off).Some?
    ensures Reads(states[n], q, v, off).Some?
    ensures Reads(states[n], q, v, off) == LastStore(events, q, v, off, i, n, Reads(states[i], q, v, off))
  {
    forall k, next | i <= k < n && next == k + 1 ensures !PassesDown(states[k], states[next], q, v) {
      RunKeeps(states, events, k);
      LiveThroughout(states, events, q, next, n);
      assert Step(states[k], states[next], events[k]);
      NotLowered(states[k], states[next], events[k], q, v);
    }
    ReadsItsOwnWrites(states, events, q, v, off, i, n);
  }

  lemma {:induction false} StepIsolation(s: K, s': K, e: Event, q: int, v: nat, off: nat)
    requires Inv(s) && Step(s, s', e) && 0 < q < NPROC && q != e.pid
    ensures Shape(s') && Reads(s', q, v, off) == Reads(s, q, v, off) && s'.procs[q] == s.procs[q]
  {
    StepKeeps(s, s', e);
    if v < VPAGES && off < 4096 { OthersMemory(s, s', e.pid, q, v, off); }
  }

  /** What a process sees, and its descriptor. */
  ghost function Sees(s: K, q: int, v: nat, off: nat): (Option<byte>, Option<Proc>) {
    (Reads(s, q, v, off), if 0 <= q < |s.procs| then Some(s.procs[q]) else None)
  }

  lemma {:induction false} RunIsolation(states: seq<K>, events: seq<Event>, q: int, v: nat, off: nat, n: nat)
    requires Run(states, events) && Inv(states[0]) && 0 < q < NPROC && n < |events| && events[n].pid != q
    ensures Sees(states[n + 1], q, v, off) == Sees(states[n], q, v, off)
  {
    RunKeeps(states, events, n);
    StepIsolation(states[n], states[n + 1], events[n], q, v, off);
  }

  lemma {:induction false} SeesSame(states: seq<K>, q: int, v: nat, off: nat, n: nat)
    requires n < |states| && forall k :: 0 <= k < n ==> Sees(states[k + 1], q, v, off) == Sees(states[k], q, v, off)
    ensures Sees(states[n], q, v, off) == Sees(states[0], q, v, off)
  {
    if n > 0 {
      SeesSame(states, q, v, off, n - 1);
      assert Sees(states[n - 1 + 1], q, v, off) == Sees(states[n - 1], q, v, off);
    }
  }

  /** A process that does not act notices nothing: over any run of the others, its
      memory, byte by byte, and its descriptor are as they were. */
  lemma {:induction false} Isolation(states: seq<K>, events: seq<Event>, q: int, v: nat, off: nat)
    requires Run(states, events) && Inv(states[0]) && 0 < q < NPROC
    requires forall n :: 0 <= n < |events| ==> events[n].pid != q
    ensures Sees(states[|events|], q, v, off) == Sees(states[0], q, v, off)
  {
    forall n | 0 <= n < |events| ensures Sees(states[n + 1], q, v, off) == Sees(states[n], q, v, off) {
      RunIsolation(states, events, q, v, off, n);
    }
    SeesSame(states, q, v, off, |events|);
  }

  // ----- the kernel's own memory -----

  /** What no process may change: the kernel's image and stack, and the hardware's frames
      but the console. */
  predicate Untouchable(image: Image, f: nat) {
    f < NPAGES && (IsKernelFrame(image, f) || IsReservedFrame(f)) && f != CONSOLE_FRAME
  }

  /** palloc gives none of those frames out, nor the console. */
  lemma {:induction false} KernelFrameNeverGiven(s: K, s1: K, pid: int, f: nat)
    requires Inv(s) && Palloced(s, s1, pid, f)
    ensures f < NPAGES && !IsKernelFrame(s.image, f) && !IsReservedFrame(f)
  {
  }

  lemma {:induction false} StepKernelMemory(s: K, s': K, e: Event, x: nat)
    requires Inv(s) && Step(s, s', e) && x < MEMSIZE_PHYSICAL && Untouchable(s.image, x / 4096)
    ensures Shape(s') && s'.image == s.image && s'.mem[x] == s.mem[x]
    ensures s'.owner[x / 4096] == s.owner[x / 4096] < 0 && s'.refcount[x / 4096] == s.refcount[x / 4096] == 1
  {
    StepKeeps(s, s', e);
    assert !Mine(s, e.pid, x / 4096);
  }

  /** Over any run of any processes no byte of those frames changes, nor does their owner. */
  lemma {:induction false} KernelMemoryKept(states: seq<K>, events: seq<Event>, x: nat, n: nat)
    requires Run(states, events) && Inv(states[0]) && n < |states|
    requires x < MEMSIZE_PHYSICAL && Untouchable(states[0].image, x / 4096)
    ensures Shape(states[n]) && states[n].image == states[0].image && states[n].mem[x] == states[0].mem[x]
    ensures states[n].owner[x / 4096] < 0 && states[n].refcount[x / 4096] == 1
  {
    hide Step, Inv, Untouchable;
    RunKeeps(states, events, n);
    if n > 0 {
      KernelMemoryKept(states, events, x, n - 1);
      RunKeeps(states, events, n - 1);
      assert Step(states[n - 1], states[n], events[n - 1]);
      StepKernelMemory(states[n - 1], states[n], events[n - 1], x);
    } else {
      UntouchableOwner(states[0], x / 4096);
    }
  }

  lemma {:induction false} UntouchableOwner(s: K, f: nat)
    requires Inv(s) && Untouchable(s.image, f)
    ensures Shape(s) && s.owner[f] < 0 && s.refcount[f] == 1
  {
  }
}
