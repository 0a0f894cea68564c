/** The kernel: the operations of kernel.c that change the memory state. */
module Kernel {
  import opened Bytes
  import opened Sbrk
  import opened PageTables
  import opened VirtualMemory
  import opened KernelTables
  import opened KernelState
  import opened KernelSteps
  import opened KernelHeap
  import opened KernelMemory
  import opened KernelChecks
  import opened Scheduling
  import opened KernelBoot

  /** What brought the processor into the kernel. */
  datatype Trap =
    | SysBrk(addr: u64)
    | SysSbrk(increment: u64)
    | SysExit
    | SysYield
    | Timer
    | PageFault(fault: u64, user: bool, missing: bool)

  /** How the kernel leaves: to the current process, nowhere, or with a panic. */
  datatype Outcome = Runs | Spins | Panics

  class Kernel {
    const mem: array<byte>
    /** `pageinfo[pn].owner` and `pageinfo[pn].refcount` */
    const owner: array<int>
    const refcount: array<int>
    const processes: array<Proc>
    const kernelPagetable: nat
    const image: Image
    var current: nat

    ghost function View(): K
      reads mem, owner, refcount, processes
    {
      K(mem[..], owner[..], refcount[..], processes[..], kernelPagetable, image)
    }

    /** The two halves of pageinfo are different memory. */
    ghost predicate Valid()
      reads mem, owner, refcount, processes
    {
      owner != refcount && Inv(View())
    }

    /** The parts of kernel() that need no program: virtual_memory_init,
        pageinfo_init, and a process table of free slots. */
    constructor (k: nat, kernelImage: Image)
      requires ImageOk(kernelImage, k)
      ensures Valid() && kernelPagetable == k && IdentityMapped(mem[..], k)
      ensures image == kernelImage && Initial(owner[..], refcount[..], image, NPAGES)
      ensures forall pid :: 0 <= pid < NPROC ==> View().procs[pid].state == P_FREE
      ensures fresh(mem) && fresh(owner) && fresh(refcount) && fresh(processes)
    {
      mem := new byte[MEMSIZE_PHYSICAL];
      owner, refcount := new int[NPAGES], new int[NPAGES];
      processes := new Proc[NPROC](_ => Proc(P_FREE, 0, 0, NULL));
      kernelPagetable, image, current := k, kernelImage, 0;
      new;
      ghost var linked := VirtualMemoryInit(mem, k, image.handler, image.mapper);
      PageinfoInit(owner, refcount, image);
      BootInv(linked, View());
    }

    // ----- frames -----

    /** Takes a free frame, if there is one. Which one, and what is in it, is left open. */
    method Palloc(pid: int) returns (pa: nat, ghost f: nat)
      requires owner != refcount && Shape(View()) && refcount[0] > 0
      modifies mem, owner, refcount
      ensures pa != NULL <==> HasFree(old(View()))
      ensures pa == NULL ==> View() == old(View())
      ensures pa != NULL ==> pa == 4096 * f && Palloced(old(View()), View(), pid, f)
    {
      if frame: nat :| frame < NPAGES && refcount[frame] == 0 {
        owner[frame], refcount[frame] := pid, 1;
        var contents := new byte[4096];
        forall i | 0 <= i < 4096 { mem[4096 * frame + i] := contents[i]; }
        return 4096 * frame, frame;
      }
      return NULL, 0;
    }

    method ProcessFree(pid: nat)
      requires owner != refcount && Shape(View()) && 0 < pid < NPROC
      modifies owner, refcount, processes
      ensures Released(old(View()), View(), pid)
    {
      for pn := 0 to NPAGES
        invariant processes[..] == old(processes[..])
        invariant forall f :: 0 <= f < pn ==>
          if old(owner[f]) == pid then owner[f] == PO_FREE && refcount[f] == 0
          else owner[f] == old(owner[f]) && refcount[f] == old(refcount[f])
        invariant forall f :: pn <= f < NPAGES ==> owner[f] == old(owner[f]) && refcount[f] == old(refcount[f])
      {
        if owner[pn] == pid {
          owner[pn], refcount[pn] := PO_FREE, 0;
        }
      }
      processes[pid] := processes[pid].(state := P_FREE);
    }

    // ----- brk and sbrk -----

    /** Frees frame `pn` and unmaps the page at `addr`, the `n`th page number. */
    method UnmapPage(pagetable: nat, addr: nat, pn: nat, ghost n: nat)
      requires owner != refcount && owner.Length == refcount.Length == NPAGES && pn < NPAGES
      requires Tree(mem[..], pagetable) && addr == 4096 * n && n < VPAGES
      modifies mem, owner, refcount
      ensures owner[..] == old(owner[..])[pn := PO_FREE] && refcount[..] == old(refcount[..])[pn := 0]
      ensures Mapped(old(mem[..]), mem[..], pagetable, n, 0, 0, 1)
    {
      owner[pn] := PO_FREE;
      refcount[pn] := 0;
      var r, d := VirtualMemoryMap(mem, pagetable, addr, 0, PAGESIZE, 0, n, 1);
    }

    /** Of the pages [lo, hi) of `pid`, those before `n` have been given back since `s0`. */
    ghost predicate GivenBack(s0: K, pid: nat, lo: nat, n: nat, hi: nat)
      reads mem, owner, refcount, processes
    {
      && owner != refcount && Shape(s0) && 0 < pid < NPROC && lo <= n <= hi < VPAGES
      && s0.procs[pid].pagetable < NPAGES
      && FramesInMemory(s0.mem, s0.procs[pid].pagetable, lo, hi)
      && Shrunk(s0, View(), pid, lo, n)
    }

    /** The loop body of sbrk, for the page at `addr`, the `n`th page number. */
    method FreeHeapPage(pid: nat, addr: nat, ghost s0: K, ghost lo: nat, ghost n: nat, ghost hi: nat)
      requires GivenBack(s0, pid, lo, n, hi) && n < hi && addr == 4096 * n
      modifies mem, owner, refcount
      ensures GivenBack(s0, pid, lo, n + 1, hi)
    {
      ghost var s1 := View();
      var pagetable := processes[pid].pagetable;
      ShrunkPresent(s0, s1, pid, lo, n, addr);
      var vam := VirtualMemoryLookup(mem, pagetable, addr);
      if vam.pn >= 0 {
        UnmapPage(pagetable, addr, vam.pn, n);
        ShrunkPage(s0, s1, View(), pid, pagetable, lo, n, vam.pn);
      } else {
        ShrunkSkip(s0, s1, pid, lo, n);
      }
    }

    /** The loop of sbrk: gives back the pages from `newTop` to `oldTop`. */
    method FreeHeapPages(pid: nat, newTop: nat, oldTop: nat, ghost s0: K, ghost lo: nat, ghost hi: nat)
      requires GivenBack(s0, pid, lo, lo, hi)
      requires newTop == 4096 * lo && oldTop == 4096 * hi
      modifies mem, owner, refcount
      ensures GivenBack(s0, pid, lo, hi, hi)
    {
      var addr := newTop;
      ghost var n := lo;
      while addr < oldTop
        invariant addr == 4096 * n && lo <= n <= hi
        invariant GivenBack(s0, pid, lo, n, hi)
      {
        FreeHeapPage(pid, addr, s0, lo, n, hi);
        addr, n := addr + PAGESIZE, n + 1;
      }
    }

    /** The shrinking half of sbrk. */
    method Shrink(pid: nat, newBreak: nat, oldBreak: nat, ghost s0: K)
      requires owner != refcount && s0 == View() && Shape(s0) && 0 < pid < NPROC && newBreak <= oldBreak < BREAK_LIMIT
      requires Tree(s0.mem, s0.procs[pid].pagetable)
      requires FramesInMemory(s0.mem, s0.procs[pid].pagetable, HeapTop(newBreak), HeapTop(oldBreak))
      modifies mem, owner, refcount
      ensures Shrunk(s0, View(), pid, HeapTop(newBreak), HeapTop(oldBreak))
    {
      TopPages(newBreak, oldBreak);
      ghost var lo, hi := HeapTop(newBreak), HeapTop(oldBreak);
      ShrunkNone(s0, pid, lo);
      FreeHeapPages(pid, RoundUp(newBreak, PAGESIZE), RoundUp(oldBreak, PAGESIZE), s0, lo, hi);
    }

    method Sbrk(pid: nat, difference: i64) returns (r: int)
      requires Valid() && Live(View(), pid)
      modifies mem, owner, refcount, processes
      ensures Valid() && SbrkStep(old(View()), View(), pid, difference, r)
    {
      hide OwnedTree, UserPagesOk, HeapPagesOk, HeapBound, KernelPagesOk, PageinfoOk, KernelOk, ActiveOk, Shrunk;
      ghost var s := View();
      var p := processes[pid];
      SbrkReady(s, pid, difference);
      var newBreak := Wrap64(p.programBreak + difference);
      if newBreak < p.originalBreak || newBreak >= MEMSIZE_VIRTUAL - PAGESIZE {
        return -1;
      }
      processes[pid] := p.(programBreak := newBreak);
      assert View() == BreakMoved(s, pid, newBreak);
      if difference < 0 {
        Shrink(pid, newBreak, p.programBreak, View());
      }
      r := 0;
      SbrkKeeps(s, View(), pid, difference, r);
    }

    /** brk(addr): 0, or -1 in 64 bits. */
    method SysBrk(addr: u64) returns (rax: u64)
      requires Valid() && Live(View(), current)
      modifies mem, owner, refcount, processes
      ensures Valid() && BrkStep(old(View()), View(), current, addr, rax)
    {
      hide PageinfoOk, KernelOk, ActiveOk, SbrkStep, BrkStep;
      ghost var s := View();
      var difference := Signed64(Wrap64(addr - processes[current].programBreak));
      var r := Sbrk(current, difference);
      rax := if r == 0 then 0 else Wrap64(-1);
      BrkIsSbrk(s, View(), current, addr, r);
    }

    /** sbrk(increment): the old break, or -1 in 64 bits. */
    method SysSbrk(increment: u64) returns (rax: u64)
      requires Valid() && Live(View(), current)
      modifies mem, owner, refcount, processes
      ensures Valid() && SbrkCallStep(old(View()), View(), current, increment, rax)
    {
      hide PageinfoOk, KernelOk, ActiveOk, SbrkStep, SbrkCallStep;
      ghost var s := View();
      var oldBreak := processes[current].programBreak;
      var r := Sbrk(current, Signed64(increment));
      rax := if r == 0 then oldBreak else Wrap64(-1);
      SbrkCallIsSbrk(s, View(), current, increment, r);
    }

    // ----- exit and page faults -----

    method SysExit()
      requires Valid() && Live(View(), current)
      modifies owner, refcount, processes
      ensures Valid() && Released(old(View()), View(), current)
    {
      ghost var s := View();
      ProcessFree(current);
      ReleaseStep(s, View(), current);
    }

    /** `current->p_state = P_BROKEN; syscall_exit();` */
    method Kill()
      requires owner != refcount && Shape(View()) && 0 < current < NPROC
      modifies owner, refcount, processes
      ensures Released(old(View()), View(), current)
    {
      processes[current] := processes[current].(state := P_BROKEN);
      ProcessFree(current);
      assert processes[..] == old(processes[..])[current := old(processes[current]).(state := P_FREE)];
    }

    /** Backs the heap page at `pageAddr` with a frame, or ends the process. */
    method FaultIn(pageAddr: nat, ghost v: nat)
      requires owner != refcount && Shape(View()) && refcount[0] > 0 && 0 < current < NPROC
      requires pageAddr == 4096 * v && v < VPAGES && Tree(mem[..], processes[current].pagetable)
      requires forall f :: 0 <= f < NPAGES && refcount[f] == 0 ==> !IsTable(mem[..], processes[current].pagetable, f)
      modifies mem, owner, refcount, processes
      ensures FaultOutcome(old(View()), View(), current, v)
    {
      ghost var s := View();
      var pagetable := processes[current].pagetable;
      var pa, f := Palloc(current);
      if pa == NULL {
        Kill();
      } else {
        ghost var s1 := View();
        PallocTree(s, s1, current, f, pagetable);
        var r, d := VirtualMemoryMap(mem, pagetable, pageAddr, pa, PAGESIZE, PTE_P + PTE_W + PTE_U, v, 1);
        if r < 0 {
          assert View() == s1;
          Kill();
          assert FaultedOut(s, s1, View(), current, f);
        } else {
          FaultedInIs(s, s1, View(), current, v, f);
        }
      }
    }

    /** INT_PAGEFAULT. A fault of the kernel itself panics; `missing` is the
        processor's word that the page is not present. */
    method PageFault(addr: u64, user: bool, missing: bool) returns (panic: bool)
      requires Valid() && Live(View(), current)
      requires missing <==> Missing(View(), current, addr)
      modifies mem, owner, refcount, processes
      ensures panic == !user && Valid()
      ensures if user then FaultStep(old(View()), View(), current, addr) else View() == old(View())
      ensures user ==> (Live(View(), current) <==>
        && old(processes[current]).originalBreak <= addr < old(processes[current]).programBreak && missing
        && (exists f :: 0 <= f < NPAGES && old(refcount[f]) == 0)
        && Leaf(old(mem[..]), old(processes[current]).pagetable, PageOf(addr)).Some?)
    {
      hide PageinfoOk, KernelOk, ActiveOk, FaultOutcome, Leaf;
      ghost var s := View();
      var p := processes[current];
      var inHeap := addr >= p.originalBreak && addr < p.programBreak;
      if user && missing && inHeap {
        FaultReady(s, current, addr);
        FaultIn(RoundDown(addr, PAGESIZE), PageOf(addr));
        FaultKeeps(s, View(), current, addr);
        FaultServedExactly(s, View(), current, addr);
        return false;
      }
      if !user {
        return true;
      }
      Kill();
      FaultKeeps(s, View(), current, addr);
      FaultServedExactly(s, View(), current, addr);
      return false;
    }

    // ----- check_virtual_memory and schedule -----

    /** No assertion of check_virtual_memory ever fails. */
    method CheckInvariants() returns (ok: bool)
      requires Valid()
      ensures ok
    {
      InvChecked(View());
      ok := CheckVirtualMemory(mem, owner, refcount, processes, kernelPagetable, image, View());
    }

    /** `set_pagetable(pagetable)`: none of its assertions fails. */
    method Install(pagetable: nat)
      requires Valid() && Tree(mem[..], pagetable) && KernelPagesOk(mem[..], pagetable, image)
    {
      InvInstallable(View(), pagetable);
      var ok := SetPagetable(mem, kernelPagetable, pagetable, image.handler, image.mapper);
      assert ok;
    }

    /** run(&processes[pid]), up to the return to user mode: none of its assertions fails. */
    method Run(pid: nat)
      requires Valid() && Runnable(processes[..], pid)
      modifies `current
      ensures current == pid
    {
      assert processes[pid].state == P_RUNNABLE;
      current := pid;
      assert View().procs[0].state == P_FREE;
      LiveOk(View(), pid);
      Install(processes[pid].pagetable);
    }

    /** schedule's search. The original searches on for ever if there is no runnable
        process; one full turn that finds none tells so. */
    method NextRunnable() returns (found: bool, pid: nat)
      requires processes.Length == NPROC && current < NPROC
      ensures if found then Picks(processes[..], current, pid) else NoneRunnable(processes[..])
    {
      pid := current;
      var turns := 0;
      while turns < NPROC
        invariant pid < NPROC && turns <= NPROC
        invariant pid == if current + turns < NPROC then current + turns else current + turns - NPROC
        invariant forall i :: Runnable(processes[..], i) ==> Ahead(current, i) > turns
      {
        pid, turns := (pid + 1) % NPROC, turns + 1;
        assert Ahead(current, pid) == turns;
        if processes[pid].state == P_RUNNABLE {
          return true, pid;
        }
      }
      return false, pid;
    }

    /** Makes the next runnable process in cyclic order current. */
    method Schedule() returns (found: bool)
      requires Valid() && current < NPROC
      modifies `current
      ensures if found then Picks(processes[..], old(current), current)
              else current == old(current) && NoneRunnable(processes[..])
    {
      var pid;
      found, pid := NextRunnable();
      if found {
        Run(pid);
      }
    }

    // ----- exception -----

    /** What the kernel does about the trap itself. */
    method Handle(trap: Trap) returns (rax: u64, panic: bool)
      requires Valid() && Live(View(), current)
      requires trap.PageFault? ==> (trap.missing <==> Missing(View(), current, trap.fault))
      modifies mem, owner, refcount, processes
      ensures Valid() && Handled(old(View()), View(), current, trap, rax)
      ensures panic <==> trap.PageFault? && !trap.user
    {
      rax, panic := 0, false;
      match trap
      case SysBrk(addr) => rax := this.SysBrk(addr);
      case SysSbrk(increment) => rax := this.SysSbrk(increment);
      case SysExit => this.SysExit();
      case PageFault(addr, user, missing) => panic := this.PageFault(addr, user, missing);
      case _ =>
    }

    /** An exception: the invariants are checked, the trap is handled, and a process
        runs. The only panic is a page fault of the kernel itself: no assertion of
        check_virtual_memory fails, in any state. */
    method Exception(trap: Trap) returns (rax: u64, outcome: Outcome)
      requires Valid() && current < NPROC && Runnable(processes[..], current)
      requires trap.PageFault? ==> (trap.missing <==> Live(View(), current) && Missing(View(), current, trap.fault))
      modifies mem, owner, refcount, processes, `current
      ensures Valid() && Live(old(View()), old(current)) && Handled(old(View()), View(), old(current), trap, rax)
      ensures outcome == Panics <==> trap.PageFault? && !trap.user
      ensures outcome == Runs ==> Runnable(processes[..], current)
      ensures outcome == Runs && (trap.Timer? || trap.SysYield?) ==> Picks(processes[..], old(current), current)
      ensures outcome == Runs && !trap.Timer? && !trap.SysYield? ==>
        if Runnable(processes[..], old(current)) then current == old(current)
        else Picks(processes[..], old(current), current)
      ensures outcome == Spins <==> outcome != Panics && NoneRunnable(processes[..])
    {
      hide PageinfoOk, Handled;
      assert View().procs[0].state == P_FREE;
      Install(kernelPagetable);
      if !trap.PageFault? || trap.user {
        var ok := CheckInvariants();
        assert ok;
      }
      var panic;
      rax, panic := Handle(trap);
      if panic {
        return rax, Panics;
      }
      if processes[current].state == P_RUNNABLE && !trap.SysYield? && !trap.Timer? {
        Run(current);
        return rax, Runs;
      }
      var found := Schedule();
      outcome := if found then Runs else Spins;
    }
  }

  /** Every page of [lo, hi) that is present is in memory. */
  ghost predicate FramesInMemory(m: seq<byte>, root: nat, lo: nat, hi: nat)
    requires |m| == MEMSIZE_PHYSICAL && root < NPAGES
  {
    forall v :: lo <= v < hi && Present(m, root, v) ==> FrameAt(m, root, v) < NPAGES
  }

  lemma {:induction false} TopPages(brk': nat, brk: nat)
    requires brk' <= brk < BREAK_LIMIT
    ensures RoundUp(brk', PAGESIZE) == 4096 * HeapTop(brk') && RoundUp(brk, PAGESIZE) == 4096 * HeapTop(brk)
    ensures HeapTop(brk') <= HeapTop(brk) < VPAGES
  {
  }

  lemma {:induction false} SbrkReady(s: K, pid: nat, difference: i64)
    requires Inv(s) && Live(s, pid)
    ensures var p := s.procs[pid]; var brk := NewBreak(p.programBreak, difference);
      && Tree(s.mem, p.pagetable) && p.programBreak < BREAK_LIMIT
      && (difference < 0 && Accepts(p.originalBreak, p.programBreak, difference) ==>
           brk <= p.programBreak && FramesInMemory(s.mem, p.pagetable, HeapTop(brk), HeapTop(p.programBreak)))
  {
    LiveOk(s, pid);
    var p := s.procs[pid];
    AcceptsExactly(p.originalBreak, p.programBreak, difference);
    var brk := NewBreak(p.programBreak, difference);
    if difference < 0 && Accepts(p.originalBreak, p.programBreak, difference) {
      HeapTops(p.originalBreak, p.programBreak, brk);
      HeapFramesInMemory(s, p, pid, HeapTop(brk), HeapTop(p.programBreak));
    }
  }

  lemma {:induction false} HeapFramesInMemory(s: K, p: Proc, pid: nat, lo: nat, hi: nat)
    requires Shape(s) && ProcOk(s, p, pid) && p.originalBreak / 4096 <= lo && hi <= BREAK_LIMIT / 4096
    ensures FramesInMemory(s.mem, p.pagetable, lo, hi)
  {
    forall v | lo <= v < hi && Present(s.mem, p.pagetable, v) ensures FrameAt(s.mem, p.pagetable, v) < NPAGES {
      assert InHeap(p, v) && v < VPAGES;
    }
  }

  lemma {:induction false} ShrunkPresent(s0: K, s1: K, pid: nat, lo: nat, n: nat, addr: nat)
    requires Shape(s0) && 0 < pid < NPROC && Shrunk(s0, s1, pid, lo, n) && lo <= n < VPAGES && addr == 4096 * n
    requires Present(s0.mem, s0.procs[pid].pagetable, n) ==> FrameAt(s0.mem, s0.procs[pid].pagetable, n) < NPAGES
    ensures var root := s0.procs[pid].pagetable;
      && addr < TWO64 && PageOf(addr) == n && WalkOk(s1.mem, root, n)
      && if Present(s1.mem, root, n) then Lookup(s1.mem, root, addr).pn == FrameAt(s1.mem, root, n) < NPAGES
         else Lookup(s1.mem, root, addr).pn < 0
  {
    var root := s0.procs[pid].pagetable;
    PageIs(addr, n);
    TreeWalkOk(s1.mem, root, n);
    LookupPresent(s1.mem, root, addr);
    assert Leaf(s1.mem, root, n) == Leaf(s0.mem, root, n);
  }

  /** The lookup of a page number is negative exactly when the page is absent. */
  lemma {:induction false} LookupPresent(m: seq<byte>, root: nat, va: u64)
    requires Tree(m, root)
    ensures !Present(m, root, PageOf(va)) ==> Lookup(m, root, va).pn < 0
    ensures Present(m, root, PageOf(va)) && FrameAt(m, root, PageOf(va)) < NPAGES ==>
      Lookup(m, root, va).pn == FrameAt(m, root, PageOf(va))
  {
    TreeLookup(m, root, va);
  }

  ghost predicate BrkStep(s: K, s': K, pid: int, addr: u64, rax: u64)
    requires Shape(s) && Live(s, pid)
  {
    var p := s.procs[pid];
    if p.originalBreak <= addr < BREAK_LIMIT then
      && rax == 0 && SbrkStep(s, s', pid, Signed64(Wrap64(addr - p.programBreak)), 0)
      && |s'.procs| == NPROC && s'.procs[pid].programBreak == addr
    else rax == TWO64 - 1 && s' == s
  }

  lemma {:induction false} BrkIsSbrk(s: K, s': K, pid: int, addr: u64, r: int)
    requires Inv(s) && Live(s, pid) && SbrkStep(s, s', pid, Signed64(Wrap64(addr - s.procs[pid].programBreak)), r)
    ensures BrkStep(s, s', pid, addr, if r == 0 then 0 else TWO64 - 1)
  {
    hide PageinfoOk, KernelOk, ActiveOk;
    var p := s.procs[pid];
    LiveBasics(s, pid);
    BrkReachesAddress(p.originalBreak, p.programBreak, addr);
  }

  lemma {:induction false} SbrkCallIsSbrk(s: K, s': K, pid: int, increment: u64, r: int)
    requires Inv(s) && Live(s, pid) && SbrkStep(s, s', pid, Signed64(increment), r)
    ensures SbrkCallStep(s, s', pid, increment, if r == 0 then s.procs[pid].programBreak else TWO64 - 1)
  {
    hide PageinfoOk, KernelOk, ActiveOk;
    LiveBasics(s, pid);
    AcceptsExactly(s.procs[pid].originalBreak, s.procs[pid].programBreak, Signed64(increment));
  }

  ghost predicate SbrkCallStep(s: K, s': K, pid: int, increment: u64, rax: u64)
    requires Shape(s) && Live(s, pid)
  {
    var p := s.procs[pid];
    if p.originalBreak <= p.programBreak + Signed64(increment) < BREAK_LIMIT then
      rax == p.programBreak && SbrkStep(s, s', pid, Signed64(increment), 0)
    else rax == TWO64 - 1 && s' == s
  }

  /** The system call is what the allocators take it to be: the answer and the new
      break are the ones their own models of sbrk compute. */
  lemma {:induction false} SbrkAsAllocatorsSeeIt(s: K, s': K, pid: int, increment: u64, rax: u64)
    requires Inv(s) && Live(s, pid) && SbrkCallStep(s, s', pid, increment, rax)
    ensures |s'.procs| == NPROC
    ensures var p, p', d := s.procs[pid], s'.procs[pid], Signed64(increment);
      && p'.originalBreak == p.originalBreak
      && if Accepts(p.originalBreak, p.programBreak, d)
         then rax == p.programBreak && p'.programBreak == NewBreak(p.programBreak, d)
         else rax == TWO64 - 1 && p'.programBreak == p.programBreak
  {
    LiveBasics(s, pid);
    AcceptsExactly(s.procs[pid].originalBreak, s.procs[pid].programBreak, Signed64(increment));
  }

  lemma {:induction false} PallocTree(s: K, s1: K, pid: int, f: nat, root: nat)
    requires Shape(s) && Palloced(s, s1, pid, f) && Tree(s.mem, root) && !IsTable(s.mem, root, f)
    ensures Shape(s1) && Tree(s1.mem, root) && SameLeaves(s.mem, s1.mem, root)
  {
    PallocTables(s, s1, pid, f, root);
    TreeFrame(s.mem, s1.mem, root);
  }

  lemma {:induction false} FaultedInIs(s: K, s1: K, s': K, pid: int, v: nat, f: nat)
    requires Shape(s) && 0 <= pid < NPROC && v < VPAGES && Palloced(s, s1, pid, f) && Shape(s1)
    requires s.procs[pid].pagetable < NPAGES && s' == s1.(mem := s'.mem)
    requires Mapped(s1.mem, s'.mem, s.procs[pid].pagetable, v, 4096 * f, 7, 1)
    requires AllHaveTables(s1.mem, s.procs[pid].pagetable, v, 1)
    ensures FaultedIn(s, s1, s', pid, v, f)
  {
  }

  lemma {:induction false} FaultReady(s: K, pid: nat, addr: u64)
    requires Inv(s) && Live(s, pid) && s.procs[pid].originalBreak <= addr < s.procs[pid].programBreak
    ensures s.refcount[0] > 0 && Tree(s.mem, s.procs[pid].pagetable)
    ensures forall f :: 0 <= f < NPAGES && s.refcount[f] == 0 ==> !IsTable(s.mem, s.procs[pid].pagetable, f)
    ensures RoundDown(addr, PAGESIZE) == 4096 * PageOf(addr)
  {
    LiveBasics(s, pid);
    HeapPageOf(s.procs[pid].originalBreak, addr, s.procs[pid].programBreak);
    forall f | 0 <= f < NPAGES && s.refcount[f] == 0 ensures !IsTable(s.mem, s.procs[pid].pagetable, f) {
      FreeFrameUnused(s, pid, f);
    }
  }

  /** The effect of a trap on the memory state. */
  ghost predicate Handled(s: K, s': K, pid: int, trap: Trap, rax: u64)
    requires Shape(s) && Live(s, pid)
  {
    match trap
    case SysBrk(addr) => BrkStep(s, s', pid, addr, rax)
    case SysSbrk(increment) => SbrkCallStep(s, s', pid, increment, rax)
    case SysExit => Released(s, s', pid)
    case PageFault(addr, user, _) => if user then FaultStep(s, s', pid, addr) else s' == s
    case _ => s' == s
  }
}
