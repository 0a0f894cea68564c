/** A process sees a private memory, byte by byte: what each kernel operation does
    to that memory, and to the frames behind it. */
module KernelMemory {
  import opened Bytes
  import opened Options
  import opened Sbrk
  import opened PageTables
  import opened VirtualMemory
  import opened KernelTables
  import opened KernelState
  import opened KernelSteps
  import opened KernelHeap

  predicate Live(s: K, pid: int) {
    |s.procs| == NPROC && 0 < pid < NPROC && s.procs[pid].state != P_FREE
  }

  /** The byte that `pid` reads at offset `off` of its page `v`, if the page is its
      own; the console is shared and left out. */
  ghost function UserByte(s: K, pid: int, v: nat, off: nat): Option<byte>
    requires Shape(s) && 0 <= pid < NPROC && v < VPAGES && off < 4096
  {
    var root := s.procs[pid].pagetable;
    if s.procs[pid].state != P_FREE && root < NPAGES then PageByte(s.mem, root, v, off) else None
  }

  ghost function PageByte(m: seq<byte>, root: nat, v: nat, off: nat): Option<byte>
    requires |m| == MEMSIZE_PHYSICAL && root < NPAGES && v < VPAGES && off < 4096
  {
    if UserPage(m, root, v) && FrameAt(m, root, v) < NPAGES && FrameAt(m, root, v) != CONSOLE_FRAME then
      Some(m[4096 * FrameAt(m, root, v) + off])
    else None
  }

  lemma {:induction false} PageByteFrame(m: seq<byte>, m': seq<byte>, root: nat, v: nat, off: nat)
    requires |m| == |m'| == MEMSIZE_PHYSICAL && root < NPAGES && v < VPAGES && off < 4096
    requires Leaf(m', root, v) == Leaf(m, root, v)
    requires PageByte(m, root, v, off).Some? ==>
      m'[4096 * FrameAt(m, root, v) + off] == m[4096 * FrameAt(m, root, v) + off]
    ensures PageByte(m', root, v, off) == PageByte(m, root, v, off)
  {
    PageFrame(m, m', root, v);
  }

  lemma {:induction false} LiveOk(s: K, pid: int)
    requires Inv(s) && Live(s, pid)
    ensures ProcOk(s, s.procs[pid], pid) && HeapBound(s.mem, s.procs[pid], 0, 0, HeapTop(s.procs[pid].programBreak))
    ensures PageinfoOk(s)
  {
    assert ActiveOk(s, pid);
  }

  lemma {:induction false} LiveBasics(s: K, pid: int)
    requires Inv(s) && Live(s, pid)
    ensures s.procs[pid].pagetable < NPAGES && Tree(s.mem, s.procs[pid].pagetable) && BreaksOk(s.procs[pid])
  {
    assert ActiveOk(s, pid);
  }

  /** A live process's page is in a frame of its own, which holds no table of its. */
  lemma {:induction false} ByteFrame(s: K, pid: int, v: nat, off: nat)
    requires Inv(s) && Live(s, pid) && v < VPAGES && off < 4096
    ensures s.procs[pid].pagetable < NPAGES && Tree(s.mem, s.procs[pid].pagetable)
    ensures UserByte(s, pid, v, off).Some? ==> var root := s.procs[pid].pagetable;
      var f := FrameAt(s.mem, root, v);
      f < NPAGES && Private(s.owner, s.refcount, pid, f) && !IsTable(s.mem, root, f)
  {
    assert ActiveOk(s, pid);
  }

  lemma {:induction false} ForeignByte(s: K, s': K, pid: int, root: nat, q: int, v: nat, off: nat)
    requires Shape(s) && OwnChange(s, s', pid) && q != pid && v < VPAGES && off < 4096 && root < NPAGES
    requires Leaf(s'.mem, root, v) == Leaf(s.mem, root, v)
    requires PageByte(s.mem, root, v, off).Some? ==> Private(s.owner, s.refcount, q, FrameAt(s.mem, root, v))
    ensures PageByte(s'.mem, root, v, off) == PageByte(s.mem, root, v, off)
  {
    hide Node;
    if PageByte(s.mem, root, v, off).Some? {
      var x := 4096 * FrameAt(s.mem, root, v) + off;
      assert x / 4096 == FrameAt(s.mem, root, v);
      assert !Mine(s, pid, x / 4096);
    }
    PageByteFrame(s.mem, s'.mem, root, v, off);
  }

  /** What a process does is not seen by any other. */
  lemma {:induction false} OthersMemory(s: K, s': K, pid: int, q: int, v: nat, off: nat)
    requires Inv(s) && OwnChange(s, s', pid) && 0 < pid < NPROC && 0 <= q < NPROC && q != pid
    requires v < VPAGES && off < 4096
    ensures UserByte(s', q, v, off) == UserByte(s, q, v, off)
  {
    OthersKept(s, s', pid, q);
    if s.procs[q].state != P_FREE {
      assert Live(s, q) by { assert s.procs[0].state == P_FREE; }
      ByteFrame(s, q, v, off);
      ForeignByte(s, s', pid, s.procs[q].pagetable, q, v, off);
    }
  }

  // ----- brk and sbrk -----

  /** sbrk(p, difference): refused without effect, or the break moves and, if it
      moves down, the pages above it are given back. */
  ghost predicate SbrkStep(s: K, s': K, pid: int, difference: i64, r: int)
    requires Shape(s) && Live(s, pid)
  {
    var p := s.procs[pid];
    var brk := NewBreak(p.programBreak, difference);
    if !Accepts(p.originalBreak, p.programBreak, difference) then r == -1 && s' == s
    else
      && r == 0
      && if difference < 0 then Shrunk(BreakMoved(s, pid, brk), s', pid, HeapTop(brk), HeapTop(p.programBreak))
         else s' == BreakMoved(s, pid, brk)
  }

  lemma {:induction false} SbrkKeeps(s: K, s': K, pid: int, difference: i64, r: int)
    requires Inv(s) && Live(s, pid) && SbrkStep(s, s', pid, difference, r)
    ensures Inv(s') && OwnChange(s, s', pid)
  {
    var p := s.procs[pid];
    LiveBasics(s, pid);
    AcceptsExactly(p.originalBreak, p.programBreak, difference);
    var brk := NewBreak(p.programBreak, difference);
    if r == -1 {
      assert OwnChange(s, s, pid);
    } else if difference < 0 {
      ShrinkStep(s, s', pid, brk);
    } else {
      GrowStep(s, pid, brk);
    }
  }

  /** The process loses the pages from the new top of its heap up, and nothing else. */
  lemma {:induction false} SbrkMemory(s: K, s': K, pid: int, difference: i64, r: int, v: nat, off: nat)
    requires Inv(s) && Live(s, pid) && SbrkStep(s, s', pid, difference, r)
    requires v < VPAGES && off < 4096
    ensures UserByte(s', pid, v, off) ==
      if r == 0 && HeapTop(s'.procs[pid].programBreak) <= v < HeapTop(s.procs[pid].programBreak) then None
      else UserByte(s, pid, v, off)
  {
    var p := s.procs[pid];
    LiveBasics(s, pid);
    AcceptsExactly(p.originalBreak, p.programBreak, difference);
    var brk := NewBreak(p.programBreak, difference);
    ByteFrame(s, pid, v, off);
    if r == 0 && difference < 0 {
      ShrunkByte(BreakMoved(s, pid, brk), s', pid, HeapTop(brk), HeapTop(p.programBreak), v, off);
    } else if r == 0 {
      HeapTops(p.originalBreak, brk, p.programBreak);
    }
  }

  lemma {:induction false} ShrunkByte(s: K, s': K, pid: int, lo: nat, hi: nat, v: nat, off: nat)
    requires Shape(s) && Live(s, pid) && Shrunk(s, s', pid, lo, hi) && v < VPAGES && off < 4096
    requires UserByte(s, pid, v, off).Some? ==>
      !IsTable(s.mem, s.procs[pid].pagetable, FrameAt(s.mem, s.procs[pid].pagetable, v))
    ensures UserByte(s', pid, v, off) == if lo <= v < hi then None else UserByte(s, pid, v, off)
  {
    var root := s.procs[pid].pagetable;
    ShrunkPages(s, s', pid, lo, hi, v);
    if !(lo <= v < hi) {
      if UserByte(s, pid, v, off).Some? { LeafTableByte(s.mem, s'.mem, root, FrameAt(s.mem, root, v), off); }
      PageByteFrame(s.mem, s'.mem, root, v, off);
    }
  }

  lemma {:induction false} LeafTableByte(m: seq<byte>, m': seq<byte>, root: nat, f: nat, off: nat)
    requires |m| == |m'| == MEMSIZE_PHYSICAL && root < NPAGES && f < NPAGES && off < 4096
    requires OnlyLeafTables(m, m', root) && !IsTable(m, root, f)
    ensures m'[4096 * f + off] == m[4096 * f + off]
  {
    var x := 4096 * f + off;
    assert x / 4096 == f;
    assert !IsLeafTable(m, root, f);
  }

  // ----- a page fault -----

  /** palloc took frame `f`, and page `v` maps to it. */
  ghost predicate FaultedIn(s: K, s1: K, s': K, pid: int, v: nat, f: nat)
    requires Shape(s) && 0 <= pid < NPROC
  {
    Palloced(s, s1, pid, f) && Shape(s1) && NewPage(s1, s', pid, v, f)
  }

  /** palloc took frame `f`, but there is no table for the page: the process ends. */
  ghost predicate FaultedOut(s: K, s1: K, s': K, pid: int, f: nat)
    requires Shape(s) && 0 <= pid < NPROC
  {
    Palloced(s, s1, pid, f) && Shape(s1) && Released(s1, s', pid)
  }

  /** No page is present at `addr`. */
  ghost predicate Missing(s: K, pid: int, addr: u64)
    requires Shape(s) && Live(s, pid)
  {
    var p := s.procs[pid];
    p.pagetable < NPAGES && !Present(s.mem, p.pagetable, PageOf(addr))
  }

  /** The fault is the first touch of a heap page. */
  ghost predicate Lazy(s: K, pid: int, addr: u64)
    requires Shape(s) && Live(s, pid)
  {
    Missing(s, pid, addr) && s.procs[pid].originalBreak <= addr < s.procs[pid].programBreak
  }

  /** What comes of the first touch of page `v`: it is mapped to a frame that was free; the
      process ends if there is none, or no table for the page. */
  ghost predicate FaultOutcome(s: K, s': K, pid: int, v: nat)
    requires Shape(s) && 0 <= pid < NPROC && s.procs[pid].pagetable < NPAGES
  {
    if !HasFree(s) then Released(s, s', pid)
    else if Leaf(s.mem, s.procs[pid].pagetable, v).Some? then exists f, s1 :: FaultedIn(s, s1, s', pid, v, f)
    else exists f, s1 :: FaultedOut(s, s1, s', pid, f)
  }

  /** A user-mode page fault at `addr`; if it is not the first touch of a heap page the
      process ends. */
  ghost predicate FaultStep(s: K, s': K, pid: int, addr: u64)
    requires Shape(s) && Live(s, pid)
  {
    if Lazy(s, pid, addr) then FaultOutcome(s, s', pid, PageOf(addr)) else Released(s, s', pid)
  }

  /** A process survives its page fault exactly when the address is in its heap and not
      yet present, some frame is free, and the page's table exists. Then the page is mapped
      to a frame that was free, with the rights P, W and U. */
  lemma {:induction false} FaultServedExactly(s: K, s': K, pid: int, addr: u64)
    requires Inv(s) && Live(s, pid) && FaultStep(s, s', pid, addr)
    ensures s.procs[pid].pagetable < NPAGES
    ensures var p := s.procs[pid];
      Live(s', pid) <==>
        && p.originalBreak <= addr < p.programBreak && !Present(s.mem, p.pagetable, PageOf(addr))
        && (exists f :: 0 <= f < NPAGES && s.refcount[f] == 0)
        && Leaf(s.mem, p.pagetable, PageOf(addr)).Some?
    ensures Live(s', pid) ==> Shape(s') && FreshPage(s, s', s.procs[pid].pagetable, PageOf(addr))
  {
    hide PageinfoOk, KernelOk, ActiveOk, Present, FreshPage, FaultedIn, FaultedOut, Released;
    FaultEnds(s, s', pid, addr);
    if Lazy(s, pid, addr) && HasFree(s) && Leaf(s.mem, s.procs[pid].pagetable, PageOf(addr)).Some? {
      var f, s1 :| FaultedIn(s, s1, s', pid, PageOf(addr), f);
      FaultedInServes(s, s1, s', pid, addr, f);
    }
  }

  lemma {:induction false} FaultEnds(s: K, s': K, pid: int, addr: u64)
    requires Inv(s) && Live(s, pid) && FaultStep(s, s', pid, addr)
    ensures s.procs[pid].pagetable < NPAGES
    ensures !(Lazy(s, pid, addr) && HasFree(s) && Leaf(s.mem, s.procs[pid].pagetable, PageOf(addr)).Some?) ==> !Live(s', pid)
  {
    LiveBasics(s, pid);
    if Lazy(s, pid, addr) && HasFree(s) && Leaf(s.mem, s.procs[pid].pagetable, PageOf(addr)).None? {
      var f, s1 :| FaultedOut(s, s1, s', pid, f);
      FaultedOutKeeps(s, s1, s', pid, f);
    }
  }

  lemma {:induction false} FaultedInServes(s: K, s1: K, s': K, pid: int, addr: u64, f: nat)
    requires Inv(s) && Live(s, pid) && Lazy(s, pid, addr) && FaultedIn(s, s1, s', pid, PageOf(addr), f)
    ensures Live(s', pid) && Shape(s') && s.procs[pid].pagetable < NPAGES
    ensures FreshPage(s, s', s.procs[pid].pagetable, PageOf(addr))
  {
    FaultedInKeeps(s, s1, s', pid, addr, f);
    NewPageLeaves(s1, s', pid, PageOf(addr), f);
  }

  /** Page `v` is present, writable and the user's, in a frame that was free in `s`. */
  ghost predicate FreshPage(s: K, s': K, root: nat, v: nat)
    requires Shape(s) && Shape(s') && root < NPAGES
  {
    && UserPage(s'.mem, root, v) && HasW(Leaf(s'.mem, root, v).value)
    && FrameAt(s'.mem, root, v) < NPAGES && s.refcount[FrameAt(s'.mem, root, v)] == 0
  }

  lemma {:induction false} LazyPage(s: K, pid: int, addr: u64)
    requires Inv(s) && Live(s, pid) && Lazy(s, pid, addr)
    ensures InHeap(s.procs[pid], PageOf(addr)) && PageOf(addr) < HeapTop(s.procs[pid].programBreak)
  {
    LiveBasics(s, pid);
    HeapPageOf(s.procs[pid].originalBreak, addr, s.procs[pid].programBreak);
  }

  lemma {:induction false} HeapPageOf(lo: nat, addr: nat, brk: nat)
    requires lo % 4096 == 0 && lo <= addr < brk < BREAK_LIMIT
    ensures lo / 4096 <= addr / 4096 < HeapTop(brk) && addr / 4096 < BREAK_LIMIT / 4096
    ensures PageOf(addr) == addr / 4096
  {
    assert addr / 4096 < VPAGES;
  }

  lemma {:induction false} FaultedInKeeps(s: K, s1: K, s': K, pid: int, addr: u64, f: nat)
    requires Inv(s) && Live(s, pid) && Lazy(s, pid, addr)
    requires FaultedIn(s, s1, s', pid, PageOf(addr), f)
    ensures Inv(s') && OwnChange(s, s', pid) && Live(s', pid)
  {
    LazyPage(s, pid, addr);
    PallocStep(s, s1, pid, f);
    NewPageStep(s1, s', pid, PageOf(addr), f);
    OwnChangeTrans(s, s1, s', pid);
  }

  lemma {:induction false} FaultedOutKeeps(s: K, s1: K, s': K, pid: int, f: nat)
    requires Inv(s) && Live(s, pid) && FaultedOut(s, s1, s', pid, f)
    ensures Inv(s') && OwnChange(s, s', pid) && !Live(s', pid)
  {
    PallocStep(s, s1, pid, f);
    ReleaseStep(s1, s', pid);
    OwnChangeTrans(s, s1, s', pid);
  }

  lemma {:induction false} FaultKeeps(s: K, s': K, pid: int, addr: u64)
    requires Inv(s) && Live(s, pid) && FaultStep(s, s', pid, addr)
    ensures Inv(s') && OwnChange(s, s', pid)
  {
    if f, s1 :| Lazy(s, pid, addr) && FaultedIn(s, s1, s', pid, PageOf(addr), f) {
      FaultedInKeeps(s, s1, s', pid, addr, f);
    } else if f, s1 :| FaultedOut(s, s1, s', pid, f) {
      FaultedOutKeeps(s, s1, s', pid, f);
    } else {
      ReleaseStep(s, s', pid);
    }
  }

  /** The process gains the page it touched and keeps all others, or ends. */
  lemma {:induction false} FaultMemory(s: K, s': K, pid: int, addr: u64, v: nat, off: nat)
    requires Inv(s) && Live(s, pid) && FaultStep(s, s', pid, addr)
    requires v < VPAGES && off < 4096
    ensures !Live(s', pid) ==> UserByte(s', pid, v, off) == None
    ensures Live(s', pid) && v != PageOf(addr) ==> UserByte(s', pid, v, off) == UserByte(s, pid, v, off)
    ensures Live(s', pid) && v == PageOf(addr) ==> UserByte(s, pid, v, off) == None && UserByte(s', pid, v, off).Some?
    ensures Live(s', pid) ==> Lazy(s, pid, addr)
  {
    if f, s1 :| Lazy(s, pid, addr) && FaultedIn(s, s1, s', pid, PageOf(addr), f) {
      FaultedInMemory(s, s1, s', pid, addr, f, v, off);
    }
  }

  lemma {:induction false} NewPageOldByte(m: seq<byte>, m': seq<byte>, root: nat, w: nat, pa: nat, v: nat, off: nat)
    requires Mapped(m, m', root, w, pa, 7, 1) && v < VPAGES && off < 4096 && v != w && w < VPAGES
    requires PageByte(m, root, v, off).Some? ==> !IsTable(m, root, FrameAt(m, root, v))
    ensures PageByte(m', root, v, off) == PageByte(m, root, v, off)
  {
    MappedLeaf(m, m', root, w, pa, 7);
    if PageByte(m, root, v, off).Some? { LeafTableByte(m, m', root, FrameAt(m, root, v), off); }
    PageByteFrame(m, m', root, v, off);
  }

  lemma {:induction false} PallocByte(s: K, s1: K, pid: int, f: nat, root: nat, v: nat, off: nat)
    requires Shape(s) && Palloced(s, s1, pid, f) && root < NPAGES && v < VPAGES && off < 4096
    requires SameLeaves(s.mem, s1.mem, root)
    requires UserPage(s.mem, root, v) ==> FrameAt(s.mem, root, v) != f
    ensures PageByte(s1.mem, root, v, off) == PageByte(s.mem, root, v, off)
  {
    if PageByte(s.mem, root, v, off).Some? { assert (4096 * FrameAt(s.mem, root, v) + off) / 4096 != f; }
    PageByteFrame(s.mem, s1.mem, root, v, off);
  }

  lemma {:induction false} NewPageByte(s: K, s': K, pid: int, w: nat, f: nat, v: nat, off: nat)
    requires Shape(s) && Shape(s') && 0 < pid < NPROC && NewPage(s, s', pid, w, f) && f < NPAGES && f != CONSOLE_FRAME
    requires v < VPAGES && off < 4096
    requires var root := s.procs[pid].pagetable;
      PageByte(s.mem, root, v, off).Some? ==> !IsTable(s.mem, root, FrameAt(s.mem, root, v))
    ensures var root := s.procs[pid].pagetable;
      if v == w then PageByte(s'.mem, root, v, off).Some?
      else PageByte(s'.mem, root, v, off) == PageByte(s.mem, root, v, off)
  {
    NewPageLeaves(s, s', pid, w, f);
    if v != w { NewPageOldByte(s.mem, s'.mem, s.procs[pid].pagetable, w, 4096 * f, v, off); }
  }

  lemma {:induction false} FaultedInMemory(s: K, s1: K, s': K, pid: int, addr: u64, f: nat, v: nat, off: nat)
    requires Inv(s) && Live(s, pid) && Lazy(s, pid, addr)
    requires FaultedIn(s, s1, s', pid, PageOf(addr), f) && v < VPAGES && off < 4096
    ensures Shape(s') && Live(s', pid)
    ensures if v == PageOf(addr) then UserByte(s, pid, v, off) == None && UserByte(s', pid, v, off).Some?
            else UserByte(s', pid, v, off) == UserByte(s, pid, v, off)
  {
    var root := s.procs[pid].pagetable;
    FreeFrameUnused(s, pid, f);
    LiveBasics(s, pid);
    PallocTables(s, s1, pid, f, root);
    TreeFrame(s.mem, s1.mem, root);
    PallocByte(s, s1, pid, f, root, v, off);
    if PageByte(s1.mem, root, v, off).Some? {
      ByteFrame(s, pid, v, off);
      assert FrameAt(s1.mem, root, v) == FrameAt(s.mem, root, v);
      SameTables(s.mem, s1.mem, root, FrameAt(s.mem, root, v));
    }
    NewPageByte(s1, s', pid, PageOf(addr), f, v, off);
  }

  // ----- a store by the process -----

  /** The process writes a byte: through its own page tables, where they allow it. */
  ghost predicate StoreStep(s: K, s': K, pid: int, va: u64, b: byte)
    requires Shape(s) && Live(s, pid) && Tree(s.mem, s.procs[pid].pagetable)
  {
    s' == s.(mem := s'.mem) && Writes(s.mem, s'.mem, s.procs[pid].pagetable, va, b)
  }

  ghost predicate Writes(m: seq<byte>, m': seq<byte>, root: nat, va: u64, b: byte)
    requires Tree(m, root)
  {
    var to := Lookup(m, root, va);
    && HasP(to.perm) && HasW(to.perm) && HasU(to.perm) && to.pa < MEMSIZE_PHYSICAL
    && m' == m[to.pa := b]
  }

  /** A page that the walk lets the process write is one of its user pages. */
  lemma {:induction false} WritesUserPage(m: seq<byte>, m': seq<byte>, root: nat, va: u64, b: byte)
    requires Tree(m, root) && Writes(m, m', root, va, b)
    ensures UserPage(m, root, PageOf(va))
    ensures FrameAt(m, root, PageOf(va)) < NPAGES
    ensures m' == m[4096 * FrameAt(m, root, PageOf(va)) + va % 4096 := b]
  {
    TreeLookup(m, root, va);
    ZeroAbsent();
    var e := Leaf(m, root, PageOf(va));
    if e.Some? { FlagsBits(e.value); }
    assert e.Some? && HasP(e.value);
    assert Lookup(m, root, va).pa == 4096 * FrameOf(e.value) + va % 4096;
  }

  lemma {:induction false} UserFrame(s: K, p: Proc, pid: int, v: nat)
    requires Shape(s) && ProcOk(s, p, pid) && PageinfoOk(s) && 0 < pid < NPROC
    requires v < VPAGES && UserPage(s.mem, p.pagetable, v)
    ensures var f := FrameAt(s.mem, p.pagetable, v);
      && f < NPAGES && !IsTable(s.mem, p.pagetable, f) && (f == CONSOLE_FRAME || Private(s.owner, s.refcount, pid, f))
  {
    assert IsTable(s.mem, p.pagetable, CONSOLE_FRAME) ==> Private(s.owner, s.refcount, pid, CONSOLE_FRAME);
  }

  lemma {:induction false} WritesOneByte(m: seq<byte>, m': seq<byte>, root: nat, va: u64, b: byte, f: nat)
    requires Tree(m, root) && Writes(m, m', root, va, b) && f == FrameAt(m, root, PageOf(va)) && !IsTable(m, root, f)
    ensures |m'| == |m| && forall x :: 0 <= x < |m| && m[x] != m'[x] ==> x / 4096 == f
    ensures TablesUntouched(m, m', root)
  {
    WritesUserPage(m, m', root, va, b);
  }

  lemma {:induction false} StoreOwn(s: K, s': K, pid: int, f: nat)
    requires Shape(s) && f < NPAGES && s' == s.(mem := s'.mem) && |s'.mem| == MEMSIZE_PHYSICAL
    requires forall x :: 0 <= x < |s.mem| && s.mem[x] != s'.mem[x] ==> x / 4096 == f
    requires f == CONSOLE_FRAME || Private(s.owner, s.refcount, pid, f)
    ensures OwnChange(s, s', pid) && PrivateKept(s, s', pid)
  {
  }

  lemma {:induction false} StoreKeeps(s: K, s': K, pid: int, va: u64, b: byte)
    requires Inv(s) && Live(s, pid) && Tree(s.mem, s.procs[pid].pagetable) && StoreStep(s, s', pid, va, b)
    ensures Inv(s') && OwnChange(s, s', pid) && SameLeaves(s.mem, s'.mem, s.procs[pid].pagetable)
  {
    var p := s.procs[pid];
    var f := FrameAt(s.mem, p.pagetable, PageOf(va));
    LiveOk(s, pid);
    WritesUserPage(s.mem, s'.mem, p.pagetable, va, b);
    UserFrame(s, p, pid, PageOf(va));
    WritesOneByte(s.mem, s'.mem, p.pagetable, va, b, f);
    StoreOwn(s, s', pid, f);
    ProcFrame(s, s', p, pid);
    InvKept(s, s', pid);
  }

  lemma {:induction false} SameAddress(f: nat, off: nat, g: nat, off': nat)
    requires off < 4096 && off' < 4096
    ensures 4096 * f + off == 4096 * g + off' <==> f == g && off == off'
  {
  }

  lemma {:induction false} ByteAfter(m: seq<byte>, m': seq<byte>, root: nat, v: nat, off: nat, x: nat, b: byte)
    requires |m| == MEMSIZE_PHYSICAL && root < NPAGES && v < VPAGES && off < 4096 && x < |m| && m' == m[x := b]
    requires Leaf(m', root, v) == Leaf(m, root, v)
    ensures PageByte(m', root, v, off) ==
      if PageByte(m, root, v, off).Some? && x == 4096 * FrameAt(m, root, v) + off then Some(b)
      else PageByte(m, root, v, off)
  {
    PageFrame(m, m', root, v);
  }

  lemma {:induction false} WritesByte(m: seq<byte>, m': seq<byte>, root: nat, va: u64, b: byte, v: nat, off: nat)
    requires Tree(m, root) && Writes(m, m', root, va, b) && v < VPAGES && off < 4096
    requires Leaf(m', root, v) == Leaf(m, root, v)
    requires (PageByte(m, root, v, off).Some? && UserPage(m, root, PageOf(va))
              && FrameAt(m, root, v) == FrameAt(m, root, PageOf(va))) ==> v == PageOf(va)
    ensures PageByte(m', root, v, off) ==
      if v == PageOf(va) && off == va % 4096 && PageByte(m, root, v, off).Some? then Some(b)
      else PageByte(m, root, v, off)
  {
    WritesUserPage(m, m', root, va, b);
    var f, g := FrameAt(m, root, v), FrameAt(m, root, PageOf(va));
    SameAddress(f, off, g, va % 4096);
    ByteAfter(m, m', root, v, off, 4096 * g + va % 4096, b);
  }

  /** A store changes one byte of the process's memory: the one it names. (A store
      to the console changes none.) */
  lemma {:induction false} StoreMemory(s: K, s': K, pid: int, va: u64, b: byte, v: nat, off: nat)
    requires Inv(s) && Live(s, pid) && Tree(s.mem, s.procs[pid].pagetable) && StoreStep(s, s', pid, va, b)
    requires v < VPAGES && off < 4096
    ensures UserByte(s', pid, v, off) ==
      if v == PageOf(va) && off == va % 4096 && UserByte(s, pid, v, off).Some? then Some(b) else UserByte(s, pid, v, off)
  {
    hide OwnedTree, UserPagesOk, HeapPagesOk, HeapBound, KernelPagesOk, Tree, Unaliased;
    StoreKeeps(s, s', pid, va, b);
    FramesApart(s, pid, v, PageOf(va));
    WritesByte(s.mem, s'.mem, s.procs[pid].pagetable, va, b, v, off);
  }

  lemma {:induction false} FramesApart(s: K, pid: int, v: nat, w: nat)
    requires Inv(s) && Live(s, pid) && v < VPAGES && w < VPAGES
    ensures s.procs[pid].pagetable < NPAGES
    ensures var root := s.procs[pid].pagetable;
      (UserPage(s.mem, root, v) && UserPage(s.mem, root, w) && FrameAt(s.mem, root, v) == FrameAt(s.mem, root, w)
        && FrameAt(s.mem, root, v) != CONSOLE_FRAME) ==> v == w
  {
    assert ActiveOk(s, pid);
  }
}
