/** The kernel's traps are steps of the runs that the theorems are about. */
module KernelTraps {
  import opened Bytes
  import opened Sbrk
  import opened KernelState
  import opened KernelMemory
  import opened Scheduling
  import opened Kernel
  import Runs = KernelRuns

  /** What the process asked for by the trap. */
  function ActOf(s: K, pid: int, trap: Trap): Runs.Act
    requires Live(s, pid)
  {
    match trap
    case SysBrk(addr) =>
      var p := s.procs[pid];
      Runs.Move(Signed64(Wrap64(addr - p.programBreak)), if p.originalBreak <= addr < BREAK_LIMIT then 0 else -1)
    case SysSbrk(increment) =>
      var p := s.procs[pid];
      Runs.Move(Signed64(increment), if p.originalBreak <= p.programBreak + Signed64(increment) < BREAK_LIMIT then 0 else -1)
    case SysExit => Runs.Exit
    case PageFault(addr, _, _) => Runs.Fault(addr)
    case _ => Runs.Exit
  }

  lemma {:induction false} BrkIsMove(s: K, s': K, pid: int, addr: u64, rax: u64)
    requires Inv(s) && Live(s, pid) && BrkStep(s, s', pid, addr, rax)
    ensures Runs.Step(s, s', Runs.Event(pid, ActOf(s, pid, SysBrk(addr))))
  {
    hide PageinfoOk, KernelOk, ActiveOk;
    LiveBasics(s, pid);
    BrkReachesAddress(s.procs[pid].originalBreak, s.procs[pid].programBreak, addr);
  }

  lemma {:induction false} SbrkIsMove(s: K, s': K, pid: int, increment: u64, rax: u64)
    requires Inv(s) && Live(s, pid) && SbrkCallStep(s, s', pid, increment, rax)
    ensures Runs.Step(s, s', Runs.Event(pid, ActOf(s, pid, SysSbrk(increment))))
  {
    hide PageinfoOk, KernelOk, ActiveOk;
    LiveBasics(s, pid);
    AcceptsExactly(s.procs[pid].originalBreak, s.procs[pid].programBreak, Signed64(increment));
  }

  /** Every trap that the kernel handles is a step of its process, or changes nothing. */
  lemma {:induction false} HandledIsStep(s: K, s': K, pid: int, trap: Trap, rax: u64)
    requires Inv(s) && Live(s, pid) && Handled(s, s', pid, trap, rax)
    ensures s' == s || Runs.Step(s, s', Runs.Event(pid, ActOf(s, pid, trap)))
  {
    match trap
    case SysBrk(addr) => BrkIsMove(s, s', pid, addr, rax);
    case SysSbrk(increment) => SbrkIsMove(s, s', pid, increment, rax);
    case _ =>
  }

  /** What happens on the machine: a process traps, or it stores a byte. */
  datatype Doing = Traps(pid: int, trap: Trap, rax: u64) | Writes(pid: int, va: u64, value: byte)

  ghost predicate Does(s: K, s': K, d: Doing) {
    Shape(s) && Live(s, d.pid) &&
    match d
    case Traps(pid, trap, rax) => Handled(s, s', pid, trap, rax)
    case Writes(pid, va, b) => Runs.Step(s, s', Runs.Event(pid, Runs.StoreByte(va, b)))
  }

  ghost predicate History(states: seq<K>, doings: seq<Doing>) {
    && |states| == |doings| + 1
    && forall n, next :: 0 <= n < |doings| && next == n + 1 ==> Does(states[n], states[next], doings[n])
  }

  function EventOf(s: K, d: Doing): Runs.Event
    requires Live(s, d.pid)
  {
    Runs.Event(d.pid, if d.Traps? then ActOf(s, d.pid, d.trap) else Runs.StoreByte(d.va, d.value))
  }

  lemma {:induction false} DoesStep(s: K, s': K, d: Doing)
    requires Inv(s) && Does(s, s', d)
    ensures s' == s || Runs.Step(s, s', EventOf(s, d))
  {
    if d.Traps? { HandledIsStep(s, s', d.pid, d.trap, d.rax); }
  }

  /** So every history of the machine is a run, once the traps that change nothing are
      left out, and it ends in the same state. */
  lemma {:induction false} HistoryIsRun(states: seq<K>, doings: seq<Doing>, n: nat)
    returns (run: seq<K>, events: seq<Runs.Event>)
    requires History(states, doings) && Inv(states[0]) && n <= |doings|
    ensures Runs.Run(run, events) && run[0] == states[0] && run[|events|] == states[n]
  {
    hide Does, Inv, Shape, Live;
    if n == 0 {
      return [states[0]], [];
    }
    run, events := HistoryIsRun(states, doings, n - 1);
    assert Does(states[n - 1], states[n], doings[n - 1]);
    run, events := Continue(run, events, states[n - 1], states[n], doings[n - 1]);
  }

  lemma {:induction false} Continue(run: seq<K>, events: seq<Runs.Event>, s: K, s': K, d: Doing)
    returns (run': seq<K>, events': seq<Runs.Event>)
    requires Runs.Run(run, events) && Inv(run[0]) && run[|events|] == s && Does(s, s', d)
    ensures Runs.Run(run', events') && run'[0] == run[0] && run'[|events'|] == s'
  {
    hide Does, Shape, ActOf;
    Runs.RunKeeps(run, events, |events|);
    DoesStep(s, s', d);
    run', events' := run, events;
    if s' != s {
      run', events' := Extend(run, events, s', EventOf(s, d));
    }
  }

  lemma {:induction false} Extend(run: seq<K>, events: seq<Runs.Event>, s: K, e: Runs.Event)
    returns (run': seq<K>, events': seq<Runs.Event>)
    requires Runs.Run(run, events) && Runs.Step(run[|events|], s, e)
    ensures Runs.Run(run', events') && run'[0] == run[0] && run'[|events'|] == s
  {
    hide Runs.Step;
    run', events' := run + [s], events + [e];
    forall n | 0 <= n < |events'| ensures Runs.Step(run'[n], run'[n + 1], events'[n]) {
      if n < |events| { assert Runs.Step(run[n], run[n + 1], events[n]); }
    }
  }

  // ----- who runs next -----

  /** After a trap that leaves the processes as `procs`: a timer interrupt, a yield and the
      end of the current process give the turn to the next runnable one; any other trap
      leaves it with the current one. */
  ghost predicate Switch(trap: Trap, procs: seq<Proc>, cur: nat, cur': nat) {
    if trap.Timer? || trap.SysYield? || !Runnable(procs, cur) then Picks(procs, cur, cur') else cur' == cur
  }

  /** That is what an exception does. */
  method ExceptionSwitches(k: Kernel, trap: Trap) returns (rax: u64, outcome: Outcome)
    requires k.Valid() && k.current < NPROC && Runnable(k.processes[..], k.current)
    requires trap.PageFault? ==> (trap.missing <==> Live(k.View(), k.current) && Missing(k.View(), k.current, trap.fault))
    modifies k.mem, k.owner, k.refcount, k.processes, k`current
    ensures k.Valid()
    ensures outcome == Runs ==> Switch(trap, k.processes[..], old(k.current), k.current)
    ensures outcome == Spins ==> NoneRunnable(k.processes[..])
  {
    rax, outcome := k.Exception(trap);
  }

  /** How many of the traps end a turn: timer interrupts and yields. */
  function Turns(traps: seq<Trap>): nat {
    if traps == [] then 0 else (if traps[0].Timer? || traps[0].SysYield? then 1 else 0) + Turns(traps[1..])
  }

  /** A history of exceptions: the traps, the processes as each one leaves them, and who is
      current before the first and after each. */
  ghost predicate Switches(traps: seq<Trap>, procs: seq<seq<Proc>>, who: seq<nat>) {
    && |procs| == |traps| && |who| == |traps| + 1 && who[0] < NPROC
    && forall k, next :: 0 <= k < |traps| && next == k + 1 ==> Switch(traps[k], procs[k], who[k], who[next])
  }

  /** One exception brings a process that stays runnable nearer, or to its turn. */
  lemma {:induction false} SwitchNearer(trap: Trap, procs: seq<Proc>, cur: nat, cur': nat, q: nat)
    requires cur < NPROC && Switch(trap, procs, cur, cur') && Runnable(procs, q)
    ensures cur' < NPROC
    ensures cur' == q || Ahead(cur', q) <= Ahead(cur, q) - if trap.Timer? || trap.SysYield? then 1 else 0
  {
  }

  /** No process starves, whatever the others do: in any history of exceptions a process that
      stays runnable is current after as many timer interrupts or yields as it is places
      behind, so within NPROC of them. */
  lemma {:induction false} ServedInTurn(traps: seq<Trap>, procs: seq<seq<Proc>>, who: seq<nat>, q: nat)
    requires Switches(traps, procs, who) && q < NPROC && Turns(traps) >= Ahead(who[0], q)
    requires forall k :: 0 <= k < |procs| ==> Runnable(procs[k], q)
    ensures 1 <= Ahead(who[0], q) <= 16
    ensures exists k :: 1 <= k <= |traps| && who[k] == q
    decreases |traps|
  {
    var next := 1;
    assert Switch(traps[0], procs[0], who[0], who[next]);
    SwitchNearer(traps[0], procs[0], who[0], who[next], q);
    if who[next] != q {
      forall k, n | 0 <= k < |traps| - 1 && n == k + 1
        ensures Switch(traps[1..][k], procs[1..][k], who[1..][k], who[1..][n]) {
        assert Switch(traps[n], procs[n], who[n], who[n + 1]);
      }
      ServedInTurn(traps[1..], procs[1..], who[1..], q);
      var k :| 1 <= k <= |traps| - 1 && who[1..][k] == q;
      assert who[k + 1] == q;
    }
  }
}
