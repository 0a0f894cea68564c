/** program_load: the segments of an ELF image are put into a new process's memory. */
module Loader {
  import opened Bytes
  import opened Options
  import opened Sbrk
  import opened PageTables
  import opened VirtualMemory
  import opened KernelTables
  import opened KernelState
  import opened KernelSteps
  import opened KernelHeap
  import opened KernelMemory
  import opened LoaderSteps
  import K0 = Kernel

  const ELF_PTYPE_LOAD: nat := 1
  const ELF_PFLAG_WRITE: nat := 2
  /** The end of the addresses that the kernel's page tables can hold. */
  const VA_LIMIT: nat := 0x8000_0000_0000

  /** `elf_program` */
  datatype Segment = Segment(kind: nat, flags: nat, offset: nat, va: u64, filesz: u64, memsz: u64)

  predicate Writable(ph: Segment) {
    ph.flags / ELF_PFLAG_WRITE % 2 == 1
  }

  /** Where the code copies to: the segment's address, rounded down to a page. */
  function Start(ph: Segment): nat { RoundDown(ph.va, 4096) }
  function EndFile(ph: Segment): nat { ph.va + ph.filesz }
  function EndMem(ph: Segment): nat { ph.va + ph.memsz }

  /** The pages it maps: [First, Last). */
  function First(ph: Segment): nat { Start(ph) / 4096 }
  function Last(ph: Segment): nat { RoundUp(EndMem(ph), 4096) / 4096 }

  /** The segment is no longer in the file than in memory, lies within the address
      space, and the file is long enough. */
  predicate SegmentOk(ph: Segment, src: seq<byte>) {
    ph.filesz <= ph.memsz && EndMem(ph) <= VA_LIMIT && EndFile(ph) - Start(ph) <= |src|
  }

  lemma {:induction false} SegmentPages(ph: Segment)
    requires EndMem(ph) <= VA_LIMIT
    ensures Start(ph) == 4096 * First(ph) && First(ph) <= Last(ph) < VPAGES
    ensures 4096 * Last(ph) - 4096 < EndMem(ph) <= 4096 * Last(ph)
    ensures Start(ph) <= ph.va < Start(ph) + 4096
  {
  }

  /** What the code puts at address `x` of the segment. */
  function ByteOf(ph: Segment, src: seq<byte>, x: nat): byte
    requires SegmentOk(ph, src) && Start(ph) <= x
  {
    if x < EndFile(ph) then src[x - Start(ph)] else 0
  }

  /** All that it puts there. */
  function Image(ph: Segment, src: seq<byte>): (data: seq<byte>)
    requires SegmentOk(ph, src)
    ensures |data| == EndMem(ph) - Start(ph)
    ensures forall i :: 0 <= i < |data| ==> data[i] == ByteOf(ph, src, Start(ph) + i)
  {
    src[..EndFile(ph) - Start(ph)] + seq(EndMem(ph) - EndFile(ph), _ => 0)
  }

  ghost predicate PageLoaded(s0: K, s: K, pid: int, ph: Segment, src: seq<byte>, u: nat, off: nat)
    requires Shape(s0) && Shape(s) && 0 <= pid < NPROC && s.procs[pid].pagetable < NPAGES
    requires SegmentOk(ph, src) && u < VPAGES && off < 4096
  {
    if First(ph) <= u < Last(ph) then PageHolds(s.mem, s.procs[pid].pagetable, ph, src, u, off)
    else SamePage(s0.mem, s.mem, s.procs[pid].pagetable, u, off)
  }

  /** Page `u` of the segment has the segment's rights and, at `off`, its byte. */
  ghost predicate PageHolds(m: seq<byte>, root: nat, ph: Segment, src: seq<byte>, u: nat, off: nat)
    requires |m| == MEMSIZE_PHYSICAL && root < NPAGES && SegmentOk(ph, src) && First(ph) <= u < VPAGES && off < 4096
  {
    && UserPage(m, root, u) && (HasW(Leaf(m, root, u).value) <==> Writable(ph))
    && PageByte(m, root, u, off).Some?
    && (4096 * u + off < EndMem(ph) ==> PageByte(m, root, u, off) == Some(ByteOf(ph, src, 4096 * u + off)))
  }

  /** The segment is in memory, with its rights; every other page is as it was. */
  ghost predicate SegmentLoaded(s0: K, s: K, pid: int, ph: Segment, src: seq<byte>) {
    && Loading(s0, pid) && Loading(s, pid) && s.procs == s0.procs && OwnChange(s0, s, pid) && SegmentOk(ph, src)
    && forall u, off :: 0 <= u < VPAGES && 0 <= off < 4096 ==> PageLoaded(s0, s, pid, ph, src, u, off)
  }

  /** What a load of the pages [lo, n) needs: a table for each, and as many free frames. */
  ghost predicate Enough(s: K, pid: int, lo: nat, n: nat)
    requires Shape(s) && 0 <= pid < NPROC && s.procs[pid].pagetable < NPAGES
  {
    (forall u :: lo <= u < n ==> Leaf(s.mem, s.procs[pid].pagetable, u).Some?) && n - lo <= |FreeFrames(s)|
  }

  /** The pages [lo, n) had what they need, and took it. */
  ghost predicate Took(s0: K, s: K, pid: int, lo: nat, n: nat)
    requires Shape(s0) && Shape(s) && 0 <= pid < NPROC && s0.procs[pid].pagetable < NPAGES && lo <= n
  {
    Enough(s0, pid, lo, n) && |FreeFrames(s)| == |FreeFrames(s0)| - (n - lo)
  }

  lemma {:induction false} TookMore(s0: K, s: K, s1: K, s': K, pid: int, lo: nat, n: nat, f: nat)
    requires Allocated(s0, s, pid, lo, n) && lo <= n < VPAGES && Took(s0, s, pid, lo, n)
    requires Palloced(s, s1, pid, f) && Shape(s1) && NewPage(s1, s', pid, n, f) && Shape(s')
    requires SameLeaves(s.mem, s1.mem, s.procs[pid].pagetable)
    ensures Took(s0, s', pid, lo, n + 1)
  {
    OneFewer(s, s1, pid, f);
    assert FreeFrames(s') == FreeFrames(s1);
    assert SamePage(s0.mem, s.mem, s.procs[pid].pagetable, n, 0);
    assert Leaf(s1.mem, s.procs[pid].pagetable, n) == Leaf(s.mem, s.procs[pid].pagetable, n);
  }

  /** When no frame is free, or the next page has no table, there was not enough for it. */
  lemma {:induction false} TooLittle(s0: K, s: K, pid: int, lo: nat, n: nat, hi: nat)
    requires Allocated(s0, s, pid, lo, n) && lo <= n < hi < VPAGES && Took(s0, s, pid, lo, n)
    requires !HasFree(s) || Leaf(s.mem, s.procs[pid].pagetable, n).None?
    ensures !Enough(s0, pid, lo, hi)
  {
    SomeFree(s);
    assert SamePage(s0.mem, s.mem, s.procs[pid].pagetable, n, 0);
  }

  // ----- the three loops -----

  ghost predicate Allocating(k: K0.Kernel, s0: K, pid: nat, lo: nat, n: nat)
    reads k, k.mem, k.owner, k.refcount, k.processes
  {
    k.owner != k.refcount && lo <= n && Allocated(s0, k.View(), pid, lo, n) && Took(s0, k.View(), pid, lo, n)
  }

  /** One page: a frame is found and mapped. */
  method AllocatePage(k: K0.Kernel, pid: nat, addr: nat, ghost s0: K, ghost lo: nat, ghost n: nat) returns (ok: bool)
    requires Allocating(k, s0, pid, lo, n) && n < VPAGES && addr == 4096 * n
    modifies k.mem, k.owner, k.refcount
    ensures ok <==> HasFree(old(k.View())) && Leaf(old(k.mem[..]), old(k.processes[pid]).pagetable, n).Some?
    ensures k.owner != k.refcount && (ok ==> Allocating(k, s0, pid, lo, n + 1))
    ensures !ok ==> Loading(k.View(), pid) && OwnChange(s0, k.View(), pid) && k.View().procs == s0.procs
  {
    ghost var s := k.View();
    var pagetable := k.processes[pid].pagetable;
    var pa, f := k.Palloc(pid);
    if pa == NULL {
      return false;
    }
    ghost var s1 := k.View();
    PallocLoading(s, s1, pid, f);
    OwnChangeTrans(s0, s, s1, pid);
    var r, d := VirtualMemoryMap(k.mem, pagetable, addr, pa, PAGESIZE, PTE_W + PTE_P + PTE_U, n, 1);
    assert Leaf(s1.mem, pagetable, n) == Leaf(s.mem, pagetable, n);
    if r < 0 {
      assert k.View() == s1;
      return false;
    }
    PageMapped(s1, k.View(), pid, n, f);
    AllocatedMore(s0, s, s1, k.View(), pid, lo, n, f);
    TookMore(s0, s, s1, k.View(), pid, lo, n, f);
    return true;
  }

  lemma {:induction false} PageMapped(s1: K, s': K, pid: int, v: nat, f: nat)
    requires Shape(s1) && 0 <= pid < NPROC && s1.procs[pid].pagetable < NPAGES && v < VPAGES && s' == s1.(mem := s'.mem)
    requires Mapped(s1.mem, s'.mem, s1.procs[pid].pagetable, v, 4096 * f, 7, 1)
    requires AllHaveTables(s1.mem, s1.procs[pid].pagetable, v, 1)
    ensures NewPage(s1, s', pid, v, f)
  {
  }

  method AllocatePages(k: K0.Kernel, pid: nat, start: nat, endMem: nat, ghost s0: K, ghost lo: nat, ghost hi: nat)
    returns (ok: bool)
    requires Allocating(k, s0, pid, lo, lo) && start == 4096 * lo && lo <= hi < VPAGES
    requires 4096 * hi - 4096 < endMem <= 4096 * hi
    modifies k.mem, k.owner, k.refcount
    ensures Shape(s0) && pid < NPROC && s0.procs[pid].pagetable < NPAGES && (ok <==> Enough(s0, pid, lo, hi))
    ensures k.owner != k.refcount && (ok ==> Allocating(k, s0, pid, lo, hi))
    ensures !ok ==> Loading(k.View(), pid) && OwnChange(s0, k.View(), pid) && k.View().procs == s0.procs
  {
    var addr := start;
    ghost var n := lo;
    while addr < endMem
      invariant addr == 4096 * n && lo <= n <= hi && Allocating(k, s0, pid, lo, n)
    {
      ghost var s := k.View();
      ok := AllocatePage(k, pid, addr, s0, lo, n);
      if !ok {
        TooLittle(s0, s, pid, lo, n, hi);
        return;
      }
      addr, n := addr + PAGESIZE, n + 1;
    }
    ok := true;
  }

  /** From `s0`, the pages [lo, hi) writable, bytes have been stored up to address `x`. */
  ghost predicate Copying(k: K0.Kernel, s0: K, pid: nat, lo: nat, hi: nat, data: seq<byte>, x: nat)
    reads k, k.mem, k.owner, k.refcount, k.processes
  {
    k.owner != k.refcount && CopiedUpTo(s0, k.View(), pid, lo, hi, data, x)
  }

  ghost predicate CopiedUpTo(s0: K, s: K, pid: nat, lo: nat, hi: nat, data: seq<byte>, x: nat) {
    && Loading(s, pid) && Loading(s0, pid) && s.procs == s0.procs
    && OwnChange(s0, s, pid) && hi < VPAGES
    && WritableRange(s0.mem, s.procs[pid].pagetable, lo, hi)
    && BytesSet(s0.mem, s.mem, s.procs[pid].pagetable, 4096 * lo, x, data)
  }

  lemma {:induction false} PageOfAddress(x: nat, lo: nat, hi: nat)
    requires 4096 * lo <= x < 4096 * hi && hi < VPAGES
    ensures x < TWO64 && lo <= PageOf(x) < hi && x == 4096 * PageOf(x) + x % 4096
  {
    assert x / 4096 < VPAGES;
  }

  lemma {:induction false} LookupPage(m: seq<byte>, root: nat, x: u64)
    requires Tree(m, root) && UserPage(m, root, PageOf(x))
    ensures WalkOk(m, root, PageOf(x))
    ensures Lookup(m, root, x).pa == 4096 * FrameAt(m, root, PageOf(x)) + x % 4096
  {
    TreeLookup(m, root, x);
  }

  /** One byte of memcpy or memset, stored through the process's page table. */
  method StoreByte(k: K0.Kernel, pid: nat, x: nat, b: byte, ghost s0: K, ghost lo: nat, ghost hi: nat,
                   ghost data: seq<byte>)
    requires Copying(k, s0, pid, lo, hi, data, x) && x < 4096 * hi && x < 4096 * lo + |data| && b == data[x - 4096 * lo]
    modifies k.mem
    ensures Copying(k, s0, pid, lo, hi, data, x + 1)
  {
    ghost var s := k.View();
    var pagetable := k.processes[pid].pagetable;
    CopyNext(s0, s, pid, lo, hi, data, x);
    var vam := VirtualMemoryLookup(k.mem, pagetable, x);
    k.mem[vam.pa] := b;
    CopyNextDone(s0, s, k.View(), pid, lo, hi, data, x);
  }

  lemma {:induction false} CopyNext(s0: K, s: K, pid: nat, lo: nat, hi: nat, data: seq<byte>, x: nat)
    requires CopiedUpTo(s0, s, pid, lo, hi, data, x) && x < 4096 * hi
    ensures Shape(s) && pid < NPROC && s.procs[pid].pagetable < NPAGES && x < TWO64
    ensures WalkOk(s.mem, s.procs[pid].pagetable, PageOf(x)) && WritablePage(s.mem, s.procs[pid].pagetable, PageOf(x))
    ensures Lookup(s.mem, s.procs[pid].pagetable, x).pa
         == 4096 * FrameAt(s.mem, s.procs[pid].pagetable, PageOf(x)) + x % 4096
    ensures x == 4096 * PageOf(x) + x % 4096
  {
    PageOfAddress(x, lo, hi);
    StillWritable(s0.mem, s.mem, s.procs[pid].pagetable, PageOf(x));
    LookupPage(s.mem, s.procs[pid].pagetable, x);
  }

  lemma {:induction false} CopyNextDone(s0: K, s: K, s': K, pid: nat, lo: nat, hi: nat, data: seq<byte>, x: u64)
    requires CopiedUpTo(s0, s, pid, lo, hi, data, x) && x < 4096 * hi && x < 4096 * lo + |data|
    requires s.procs[pid].pagetable < NPAGES && ByteWritten(s, s', pid, PageOf(x), x % 4096, data[x - 4096 * lo])
    requires x == 4096 * PageOf(x) + x % 4096
    ensures CopiedUpTo(s0, s', pid, lo, hi, data, x + 1)
  {
    CopyNextBytes(s0, s, s', pid, s.procs[pid].pagetable, lo, data, x, PageOf(x), x % 4096);
  }

  lemma {:induction false} CopyNextBytes(s0: K, s: K, s': K, pid: nat, root: nat, lo: nat, data: seq<byte>,
                                         x: u64, v: nat, off: nat)
    requires Loading(s, pid) && Shape(s0) && OwnChange(s0, s, pid)
    requires root == s.procs[pid].pagetable && x < 4096 * lo + |data|
    requires BytesSet(s0.mem, s.mem, root, 4096 * lo, x, data)
    requires v < VPAGES && off < 4096 && x == 4096 * v + off && ByteWritten(s, s', pid, v, off, data[x - 4096 * lo])
    ensures Loading(s', pid) && OwnChange(s0, s', pid) && s'.procs == s.procs
    ensures BytesSet(s0.mem, s'.mem, root, 4096 * lo, x + 1, data)
  {
    CopyNextOwn(s0, s, s', pid, root, v, off, data[x - 4096 * lo]);
    BytesSetMore(s0.mem, s, s', pid, 4096 * lo, x, x + 1, data, v, off);
  }

  lemma {:induction false} CopyNextOwn(s0: K, s: K, s': K, pid: nat, root: nat, v: nat, off: nat, b: byte)
    requires Loading(s, pid) && Shape(s0) && OwnChange(s0, s, pid) && root == s.procs[pid].pagetable
    requires v < VPAGES && off < 4096 && ByteWritten(s, s', pid, v, off, b)
    ensures OwnChange(s0, s', pid)
  {
    WrittenLoading(s, s', pid, v, off, b);
    OwnChangeTrans(s0, s, s', pid);
  }

  lemma {:induction false} StillWritable(m: seq<byte>, m': seq<byte>, root: nat, v: nat)
    requires |m| == |m'| == MEMSIZE_PHYSICAL && root < NPAGES && v < VPAGES && SameLeaves(m, m', root)
    requires WritablePage(m, root, v)
    ensures WritablePage(m', root, v)
  {
    assert Leaf(m', root, v) == Leaf(m, root, v);
  }

  /** The addresses up to `end` are in the pages [lo, hi), and `data` says what goes there. */
  predicate Fits(lo: nat, hi: nat, end: nat, data: seq<byte>) {
    end <= 4096 * hi && end <= 4096 * lo + |data|
  }

  predicate Agree(x: seq<byte>, y: seq<byte>, n: int) {
    n <= |x| && n <= |y| && forall i :: 0 <= i < n ==> x[i] == y[i]
  }

  /** `memcpy(va, src, end_file - va)`, page by page where the pages are mapped. */
  method CopyFile(k: K0.Kernel, pid: nat, va: nat, endFile: nat, src: seq<byte>,
                  ghost s0: K, ghost lo: nat, ghost hi: nat, ghost data: seq<byte>)
    requires Copying(k, s0, pid, lo, hi, data, va) && va == 4096 * lo <= endFile && Fits(lo, hi, endFile, data)
    requires Agree(data, src, endFile - va)
    modifies k.mem
    ensures Copying(k, s0, pid, lo, hi, data, endFile)
  {
    hide Copying;
    var x: nat := va;
    while x < endFile
      invariant va <= x <= endFile && Copying(k, s0, pid, lo, hi, data, x)
    {
      StoreByte(k, pid, x, src[x - va], s0, lo, hi, data);
      x := x + 1;
    }
  }

  predicate ZeroFrom(data: seq<byte>, n: int) {
    forall i :: 0 <= i < |data| && n <= i ==> data[i] == 0
  }

  /** `memset(end_file, 0, end_mem - end_file)` */
  method ClearRest(k: K0.Kernel, pid: nat, endFile: nat, endMem: nat,
                   ghost s0: K, ghost lo: nat, ghost hi: nat, ghost data: seq<byte>)
    requires Copying(k, s0, pid, lo, hi, data, endFile) && 4096 * lo <= endFile <= endMem && Fits(lo, hi, endMem, data)
    requires ZeroFrom(data, endFile - 4096 * lo)
    modifies k.mem
    ensures Copying(k, s0, pid, lo, hi, data, endMem)
  {
    hide Copying;
    var x: nat := endFile;
    while x < endMem
      invariant endFile <= x <= endMem && Copying(k, s0, pid, lo, hi, data, x)
    {
      StoreByte(k, pid, x, 0, s0, lo, hi, data);
      x := x + 1;
    }
  }

  ghost predicate WritableRange(m: seq<byte>, root: nat, lo: nat, hi: nat)
    requires |m| == MEMSIZE_PHYSICAL && root < NPAGES
  {
    forall u :: lo <= u < hi ==> WritablePage(m, root, u)
  }

  ghost predicate Protecting(k: K0.Kernel, s0: K, pid: nat, lo: nat, n: nat, hi: nat)
    reads k, k.mem, k.owner, k.refcount, k.processes
  {
    k.owner != k.refcount && ProtectedUpTo(s0, k.View(), pid, lo, n, hi)
  }

  ghost predicate ProtectedUpTo(s0: K, s: K, pid: nat, lo: nat, n: nat, hi: nat) {
    && Protected(s0, s, pid, lo, n) && lo <= n <= hi < VPAGES
    && WritableRange(s0.mem, s.procs[pid].pagetable, lo, hi)
  }

  /** `virtual_memory_map(pagetable, addr, virtual_memory_lookup(pagetable, addr).pa, PAGESIZE, PTE_P | PTE_U)` */
  method RemapReadOnly(mem: array<byte>, pagetable: nat, addr: nat, ghost v: nat)
    requires Tree(mem[..], pagetable) && addr == 4096 * v && v < VPAGES
    requires UserPage(mem[..], pagetable, v) && FrameAt(mem[..], pagetable, v) < NPAGES
    modifies mem
    ensures Mapped(old(mem[..]), mem[..], pagetable, v, 4096 * FrameAt(old(mem[..]), pagetable, v), 5, 1)
  {
    LookupAligned(mem[..], pagetable, addr, v);
    Aligned(FrameAt(mem[..], pagetable, v));
    ghost var m := mem[..];
    var mapping := VirtualMemoryLookup(mem, pagetable, addr);
    var r, d := VirtualMemoryMap(mem, pagetable, addr, mapping.pa, PAGESIZE, PTE_P + PTE_U, v, 1);
    HasTable(m, pagetable, v, d, r);
  }

  /** One page is mapped again, to the same frame, without PTE_W. */
  method ProtectPage(k: K0.Kernel, pid: nat, addr: nat, ghost s0: K, ghost lo: nat, ghost n: nat, ghost hi: nat)
    requires Protecting(k, s0, pid, lo, n, hi) && n < hi && addr == 4096 * n
    modifies k.mem
    ensures Protecting(k, s0, pid, lo, n + 1, hi)
  {
    ghost var s, root := k.View(), k.processes[pid].pagetable;
    ProtectNext(s0, s, pid, lo, n, hi);
    RemapReadOnly(k.mem, k.processes[pid].pagetable, addr, n);
    ghost var s' := ProtectedBy(s0, s, k.mem[..], pid, root, lo, n, hi);
    assert s' == k.View();
  }

  lemma {:induction false} ProtectedBy(s0: K, s: K, m': seq<byte>, pid: nat, root: nat, lo: nat, n: nat,
                                       hi: nat) returns (s': K)
    requires ProtectedUpTo(s0, s, pid, lo, n, hi) && n < hi
    requires root == s.procs[pid].pagetable && UserPage(s.mem, root, n) && FrameAt(s.mem, root, n) < NPAGES
    requires Mapped(s.mem, m', root, n, 4096 * FrameAt(s.mem, root, n), 5, 1)
    ensures s' == s.(mem := m') && ProtectedUpTo(s0, s', pid, lo, n + 1, hi)
  {
    s' := s.(mem := m');
    ProtectedMore(s0, s, s', pid, root, lo, n, n + 1);
  }

  lemma {:induction false} ProtectNext(s0: K, s: K, pid: nat, lo: nat, n: nat, hi: nat)
    requires ProtectedUpTo(s0, s, pid, lo, n, hi) && n < hi
    ensures Shape(s) && pid < NPROC && Tree(s.mem, s.procs[pid].pagetable)
    ensures UserPage(s.mem, s.procs[pid].pagetable, n) && FrameAt(s.mem, s.procs[pid].pagetable, n) < NPAGES
  {
    NotYetProtected(s0, s, pid, lo, n);
  }

  lemma {:induction false} Aligned(v: nat)
    ensures (4096 * v) % 4096 == 0 && (v < NPAGES ==> 4096 * v + 4096 <= MEMSIZE_PHYSICAL)
  {
  }

  lemma {:induction false} LookupAligned(m: seq<byte>, root: nat, addr: nat, v: nat)
    requires Tree(m, root) && addr == 4096 * v && v < VPAGES && UserPage(m, root, v) && FrameAt(m, root, v) < NPAGES
    ensures addr < TWO64 && PageOf(addr) == v && WalkOk(m, root, v)
    ensures Lookup(m, root, addr).pa == 4096 * FrameAt(m, root, v)
  {
    PageIs(addr, v);
    LookupPage(m, root, addr);
    Aligned(v);
  }

  lemma {:induction false} NotYetProtected(s0: K, s: K, pid: int, lo: nat, n: nat)
    requires Protected(s0, s, pid, lo, n) && lo <= n < VPAGES && WritablePage(s0.mem, s.procs[pid].pagetable, n)
    ensures WritablePage(s.mem, s.procs[pid].pagetable, n)
  {
    assert ProtectedPage(s0.mem, s.mem, s.procs[pid].pagetable, lo, n, n, 0);
  }

  lemma {:induction false} HasTable(m: seq<byte>, root: nat, n: nat, d: nat, r: int)
    requires |m| == MEMSIZE_PHYSICAL && root < NPAGES && UserPage(m, root, n)
    requires if r == 0 then d == 1 else d < 1 && FailsAt(m, root, n, d)
    ensures r == 0 && d == 1
  {
  }

  method ProtectPages(k: K0.Kernel, pid: nat, start: nat, endMem: nat, ghost s0: K, ghost lo: nat, ghost hi: nat)
    returns (ghost n: nat)
    requires Protecting(k, s0, pid, lo, lo, hi) && lo <= hi && start == 4096 * lo
    requires 4096 * hi - 4096 < endMem <= 4096 * hi
    modifies k.mem
    ensures n == hi && Protecting(k, s0, pid, lo, n, hi)
  {
    hide Protecting;
    var addr := start;
    n := lo;
    while addr < endMem
      invariant addr == 4096 * n && n <= hi && Protecting(k, s0, pid, lo, n, hi)
    {
      ProtectPage(k, pid, addr, s0, lo, n, hi);
      addr, n := addr + PAGESIZE, n + 1;
    }
  }

  // ----- a segment -----

  /** What the three loops leave behind. */
  lemma {:induction false} PageDone(s0: K, s1: K, s2: K, s3: K, pid: int, ph: Segment, src: seq<byte>, u: nat, off: nat)
    requires SegmentOk(ph, src) && u < VPAGES && off < 4096 && Allocated(s0, s1, pid, First(ph), Last(ph))
    requires Shape(s2) && Shape(s3) && s2.procs == s1.procs && s3.procs == s1.procs
    requires BytesSet(s1.mem, s2.mem, s1.procs[pid].pagetable, Start(ph), EndMem(ph), Image(ph, src))
    requires if Writable(ph) then s3 == s2
             else ProtectedPage(s2.mem, s3.mem, s1.procs[pid].pagetable, First(ph), Last(ph), u, off)
    ensures PageLoaded(s0, s3, pid, ph, src, u, off)
  {
    hide OwnedTree, UserPagesOk, OwnChange, Node;
    SegmentPages(ph);
    var root := s1.procs[pid].pagetable;
    assert ByteSet(s1.mem, s2.mem, root, Start(ph), EndMem(ph), Image(ph, src), u, off);
    assert Leaf(s2.mem, root, u) == Leaf(s1.mem, root, u);
    if First(ph) <= u < Last(ph) {
      assert WritablePage(s1.mem, root, u);
    } else {
      assert SamePage(s0.mem, s1.mem, root, u, off);
      OutsideSegment(ph, u, off);
    }
  }

  lemma {:induction false} OutsideSegment(ph: Segment, u: nat, off: nat)
    requires EndMem(ph) <= VA_LIMIT && off < 4096 && !(First(ph) <= u < Last(ph))
    ensures !(Start(ph) <= 4096 * u + off < EndMem(ph))
  {
    SegmentPages(ph);
  }

  lemma {:induction false} SegmentDone(s0: K, s1: K, s2: K, s3: K, pid: int, ph: Segment, src: seq<byte>)
    requires SegmentOk(ph, src) && Allocated(s0, s1, pid, First(ph), Last(ph))
    requires CopiedUpTo(s1, s2, pid, First(ph), Last(ph), Image(ph, src), EndMem(ph))
    requires if Writable(ph) then s3 == s2 else Protected(s2, s3, pid, First(ph), Last(ph))
    ensures SegmentLoaded(s0, s3, pid, ph, src)
  {
    SegmentPages(ph);
    OwnChangeTrans(s0, s1, s2, pid);
    if !Writable(ph) { OwnChangeTrans(s0, s2, s3, pid); }
    forall u, off | 0 <= u < VPAGES && 0 <= off < 4096 ensures PageLoaded(s0, s3, pid, ph, src, u, off) {
      PageDone(s0, s1, s2, s3, pid, ph, src, u, off);
    }
  }

  /** The starts of the three loops. */
  lemma {:induction false} AllocationStarts(s: K, pid: int, lo: nat)
    requires Loading(s, pid)
    ensures Allocated(s, s, pid, lo, lo) && Took(s, s, pid, lo, lo)
  {
  }

  lemma {:induction false} CopyStarts(s0: K, s1: K, pid: nat, ph: Segment, src: seq<byte>)
    requires SegmentOk(ph, src) && Allocated(s0, s1, pid, First(ph), Last(ph))
    ensures CopiedUpTo(s1, s1, pid, First(ph), Last(ph), Image(ph, src), Start(ph))
  {
    SegmentPages(ph);
  }

  lemma {:induction false} ProtectionStarts(s1: K, s2: K, pid: nat, ph: Segment, src: seq<byte>)
    requires SegmentOk(ph, src) && CopiedUpTo(s1, s2, pid, First(ph), Last(ph), Image(ph, src), EndMem(ph))
    ensures ProtectedUpTo(s2, s2, pid, First(ph), First(ph), Last(ph))
  {
    SegmentPages(ph);
    forall u | First(ph) <= u < Last(ph) ensures WritablePage(s2.mem, s2.procs[pid].pagetable, u) {
      StillWritable(s1.mem, s2.mem, s2.procs[pid].pagetable, u);
    }
  }

  lemma {:induction false} ImageParts(ph: Segment, src: seq<byte>)
    requires SegmentOk(ph, src)
    ensures var data := Image(ph, src); var n := EndFile(ph) - Start(ph);
      && Fits(First(ph), Last(ph), EndMem(ph), data) && Start(ph) == 4096 * First(ph) <= EndFile(ph) <= EndMem(ph)
      && Agree(data, src, n)
      && ZeroFrom(data, n)
  {
    SegmentPages(ph);
  }

  /** The memcpy and the memset of program_load_segment. */
  method CopySegment(k: K0.Kernel, pid: nat, ph: Segment, src: seq<byte>, ghost s0: K)
    requires k.owner != k.refcount && SegmentOk(ph, src) && Allocated(s0, k.View(), pid, First(ph), Last(ph))
    modifies k.mem
    ensures CopiedUpTo(old(k.View()), k.View(), pid, First(ph), Last(ph), Image(ph, src), EndMem(ph))
  {
    ghost var s1 := k.View();
    ImageParts(ph, src);
    CopyStarts(s0, s1, pid, ph, src);
    CopyFile(k, pid, Start(ph), EndFile(ph), src, s1, First(ph), Last(ph), Image(ph, src));
    ClearRest(k, pid, EndFile(ph), EndMem(ph), s1, First(ph), Last(ph), Image(ph, src));
  }

  /** program_load_segment */
  method LoadSegment(k: K0.Kernel, pid: nat, ph: Segment, src: seq<byte>) returns (r: int)
    requires k.owner != k.refcount && Loading(k.View(), pid) && SegmentOk(ph, src)
    modifies k.mem, k.owner, k.refcount
    ensures r == 0 <==> Enough(old(k.View()), pid, First(ph), Last(ph))
    ensures if r == 0 then SegmentLoaded(old(k.View()), k.View(), pid, ph, src)
            else r == -1 && Loading(k.View(), pid) && OwnChange(old(k.View()), k.View(), pid)
                 && k.View().procs == old(k.View()).procs
    ensures First(ph) <= Last(ph) && (r == 0 ==> Took(old(k.View()), k.View(), pid, First(ph), Last(ph)))
  {
    ghost var s0 := k.View();
    SegmentPages(ph);
    AllocationStarts(s0, pid, First(ph));
    var ok := AllocatePages(k, pid, Start(ph), EndMem(ph), s0, First(ph), Last(ph));
    if !ok {
      return -1;
    }
    ghost var s1 := k.View();
    CopySegment(k, pid, ph, src, s0);
    ghost var s2 := k.View();
    if !Writable(ph) {
      ProtectionStarts(s1, s2, pid, ph, src);
      ghost var n := ProtectPages(k, pid, Start(ph), EndMem(ph), s2, First(ph), Last(ph));
      ProtectedAll(s2, k.View(), pid, First(ph), n, Last(ph));
    }
    SegmentDone(s0, s1, s2, k.View(), pid, ph, src);
    return 0;
  }

  lemma {:induction false} ProtectedAll(s0: K, s: K, pid: nat, lo: nat, n: nat, hi: nat)
    requires ProtectedUpTo(s0, s, pid, lo, n, hi) && n == hi
    ensures Protected(s0, s, pid, lo, hi)
  {
  }

  // ----- the headers of an executable -----

  const ELF_MAGIC: nat := 0x464C_457F
  const ELF_HEADER_SIZE: nat := 64
  const ELF_PROGRAM_SIZE: nat := 56

  /** A little-endian field of `n` bytes. */
  function Field(file: seq<byte>, at: nat, n: nat): (r: nat)
    requires at + n <= |file|
    ensures n == 8 ==> r < TWO64
  {
    LoadBound(file, at, n);
    PowValues();
    Load(file, at, n)
  }

  /** `e_magic`, `e_entry`, `e_phoff` and `e_phnum` */
  function Magic(file: seq<byte>): nat requires ELF_HEADER_SIZE <= |file| { Field(file, 0, 4) }
  function EntryPoint(file: seq<byte>): u64 requires ELF_HEADER_SIZE <= |file| { Field(file, 0x18, 8) }
  function PhOff(file: seq<byte>): nat requires ELF_HEADER_SIZE <= |file| { Field(file, 0x20, 8) }
  function PhNum(file: seq<byte>): nat requires ELF_HEADER_SIZE <= |file| { Field(file, 0x38, 2) }

  /** Both kinds of header are within the file. */
  predicate HeadersFit(file: seq<byte>) {
    ELF_HEADER_SIZE <= |file| && PhOff(file) + ELF_PROGRAM_SIZE * PhNum(file) <= |file|
  }

  /** The `i`th program header. */
  function HeaderAt(file: seq<byte>, i: nat): Segment
    requires HeadersFit(file) && i < PhNum(file)
  {
    var at := PhOff(file) + ELF_PROGRAM_SIZE * i;
    Segment(Field(file, at, 4), Field(file, at + 4, 4), Field(file, at + 8, 8),
            Field(file, at + 0x10, 8), Field(file, at + 0x20, 8), Field(file, at + 0x28, 8))
  }

  function Headers(file: seq<byte>): (phs: seq<Segment>)
    requires HeadersFit(file)
    ensures |phs| == PhNum(file) && forall i :: 0 <= i < |phs| ==> phs[i] == HeaderAt(file, i)
  {
    seq(PhNum(file), i requires 0 <= i < PhNum(file) => HeaderAt(file, i))
  }

  // ----- a program -----

  predicate Loadable(ph: Segment) {
    ph.kind == ELF_PTYPE_LOAD
  }

  /** The bytes of a segment begin at its offset in the file. */
  function Source(file: seq<byte>, ph: Segment): seq<byte>
    requires ph.offset <= |file|
  {
    file[ph.offset..]
  }

  predicate FileOk(phs: seq<Segment>, file: seq<byte>) {
    forall i :: 0 <= i < |phs| && Loadable(phs[i]) ==>
      phs[i].offset <= |file| && SegmentOk(phs[i], Source(file, phs[i]))
  }

  predicate Apart(x: Segment, y: Segment) {
    Last(x) <= First(y) || Last(y) <= First(x)
  }

  /** No two segments share a page. */
  predicate PagesDisjoint(phs: seq<Segment>) {
    forall i, j :: 0 <= i < j < |phs| && Loadable(phs[i]) && Loadable(phs[j]) ==> Apart(phs[i], phs[j])
  }

  ghost predicate SegmentHolds(s: K, pid: int, ph: Segment, src: seq<byte>)
    requires Shape(s) && 0 <= pid < NPROC && s.procs[pid].pagetable < NPAGES && SegmentOk(ph, src)
  {
    forall u, off :: First(ph) <= u < Last(ph) && u < VPAGES && 0 <= off < 4096 ==>
      PageHolds(s.mem, s.procs[pid].pagetable, ph, src, u, off)
  }

  /** The first `n` segments are in memory. */
  ghost predicate SegmentsHold(s: K, pid: int, phs: seq<Segment>, file: seq<byte>, n: nat) {
    && Loading(s, pid) && FileOk(phs, file) && n <= |phs|
    && forall i :: 0 <= i < n && Loadable(phs[i]) ==> SegmentHolds(s, pid, phs[i], Source(file, phs[i]))
  }

  /** Loading another segment leaves a segment that is apart from it alone. */
  lemma {:induction false} HoldsAfter(s: K, s': K, pid: int, ph: Segment, src: seq<byte>, other: Segment,
                                      src': seq<byte>)
    requires SegmentLoaded(s, s', pid, other, src') && SegmentOk(ph, src) && Apart(ph, other)
    requires SegmentHolds(s, pid, ph, src)
    ensures SegmentHolds(s', pid, ph, src)
  {
    forall u, off | First(ph) <= u < Last(ph) && u < VPAGES && 0 <= off < 4096
      ensures PageHolds(s'.mem, s'.procs[pid].pagetable, ph, src, u, off)
    {
      assert PageHolds(s.mem, s.procs[pid].pagetable, ph, src, u, off);
      assert PageLoaded(s, s', pid, other, src', u, off);
    }
  }

  lemma {:induction false} HoldsItself(s: K, s': K, pid: int, ph: Segment, src: seq<byte>)
    requires SegmentLoaded(s, s', pid, ph, src)
    ensures SegmentHolds(s', pid, ph, src)
  {
    forall u, off | First(ph) <= u < Last(ph) && u < VPAGES && 0 <= off < 4096
      ensures PageHolds(s'.mem, s'.procs[pid].pagetable, ph, src, u, off)
    {
      assert PageLoaded(s, s', pid, ph, src, u, off);
    }
  }

  lemma {:induction false} SegmentsHoldMore(s: K, s': K, pid: int, phs: seq<Segment>, file: seq<byte>, n: nat)
    requires SegmentsHold(s, pid, phs, file, n) && n < |phs| && Loadable(phs[n]) && PagesDisjoint(phs)
    requires SegmentLoaded(s, s', pid, phs[n], Source(file, phs[n]))
    ensures SegmentsHold(s', pid, phs, file, n + 1)
  {
    HoldsItself(s, s', pid, phs[n], Source(file, phs[n]));
    forall i | 0 <= i < n && Loadable(phs[i]) ensures SegmentHolds(s', pid, phs[i], Source(file, phs[i])) {
      HoldsAfter(s, s', pid, phs[i], Source(file, phs[i]), phs[n], Source(file, phs[n]));
    }
  }

  /** The highest end of the first `n` segments. */
  function MaxEnd(phs: seq<Segment>, n: nat): (m: nat)
    requires n <= |phs|
    ensures forall i :: 0 <= i < n && Loadable(phs[i]) ==> EndMem(phs[i]) <= m
    ensures m == 0 || exists i :: 0 <= i < n && Loadable(phs[i]) && EndMem(phs[i]) == m
  {
    if n == 0 then 0
    else
      var m := MaxEnd(phs, n - 1);
      if Loadable(phs[n - 1]) && EndMem(phs[n - 1]) > m then EndMem(phs[n - 1]) else m
  }

  /** Some of the loop of program_load: the first `n` segments are done. */
  ghost predicate LoadedUpTo(s0: K, s: K, pid: int, phs: seq<Segment>, file: seq<byte>, n: nat) {
    && Shape(s0) && Loading(s, pid) && OwnChange(s0, s, pid) && s.procs == s0.procs && FileOk(phs, file) && n <= |phs|
    && (PagesDisjoint(phs) ==> SegmentsHold(s, pid, phs, file, n))
    && OutsideKept(s0.mem, s.mem, s.procs[pid].pagetable, phs, n)
  }

  /** Page `u` is one of the first `n` segments'. */
  ghost predicate InSegment(phs: seq<Segment>, n: nat, u: nat)
    requires n <= |phs|
  {
    exists i :: 0 <= i < n && Loadable(phs[i]) && First(phs[i]) <= u < Last(phs[i])
  }

  /** Every page outside the first `n` segments is mapped as it was. */
  ghost predicate OutsideKept(m: seq<byte>, m': seq<byte>, root: nat, phs: seq<Segment>, n: nat)
    requires |m| == |m'| == MEMSIZE_PHYSICAL && root < NPAGES && n <= |phs|
  {
    forall u :: 0 <= u < VPAGES && !InSegment(phs, n, u) ==> Leaf(m', root, u) == Leaf(m, root, u)
  }

  lemma {:induction false} OutsideMore(s0: K, s: K, s': K, pid: int, root: nat, phs: seq<Segment>, src: seq<byte>, n: nat)
    requires Shape(s0) && Shape(s) && Shape(s') && root < NPAGES && n < |phs| && Loadable(phs[n])
    requires 0 <= pid < NPROC && root == s'.procs[pid].pagetable
    requires OutsideKept(s0.mem, s.mem, root, phs, n) && SegmentLoaded(s, s', pid, phs[n], src)
    ensures OutsideKept(s0.mem, s'.mem, root, phs, n + 1)
  {
    forall u | 0 <= u < VPAGES && !InSegment(phs, n + 1, u) ensures Leaf(s'.mem, root, u) == Leaf(s0.mem, root, u) {
      assert PageLoaded(s, s', pid, phs[n], src, u, 0);
      assert !InSegment(phs, n, u);
    }
  }

  lemma {:induction false} LoadedMore(s0: K, s: K, s': K, pid: int, phs: seq<Segment>, file: seq<byte>, n: nat)
    requires Shape(s0) && LoadedUpTo(s0, s, pid, phs, file, n) && n < |phs| && Loadable(phs[n])
    requires SegmentLoaded(s, s', pid, phs[n], Source(file, phs[n]))
    ensures LoadedUpTo(s0, s', pid, phs, file, n + 1)
  {
    OwnChangeTrans(s0, s, s', pid);
    if PagesDisjoint(phs) { SegmentsHoldMore(s, s', pid, phs, file, n); }
    OutsideMore(s0, s, s', pid, s.procs[pid].pagetable, phs, Source(file, phs[n]), n);
  }

  lemma {:induction false} LoadedSkip(s0: K, s: K, pid: int, phs: seq<Segment>, file: seq<byte>, n: nat)
    requires LoadedUpTo(s0, s, pid, phs, file, n) && n < |phs| && !Loadable(phs[n])
    ensures LoadedUpTo(s0, s, pid, phs, file, n + 1)
  {
  }

  // ----- what a program needs -----

  function PagesOf(ph: Segment): nat {
    if First(ph) <= Last(ph) then Last(ph) - First(ph) else 0
  }

  /** The pages of the first `n` segments together. */
  function TotalPages(phs: seq<Segment>, n: nat): nat
    requires n <= |phs|
  {
    if n == 0 then 0 else TotalPages(phs, n - 1) + if Loadable(phs[n - 1]) then PagesOf(phs[n - 1]) else 0
  }

  /** Every page of the segment has a table. */
  ghost predicate HaveTables(m: seq<byte>, root: nat, ph: Segment)
    requires |m| == MEMSIZE_PHYSICAL && root < NPAGES
  {
    forall u :: First(ph) <= u < Last(ph) ==> Leaf(m, root, u).Some?
  }

  /** There are tables for the first `n` segments, and a free frame for each of their pages. */
  ghost predicate Suffices(s: K, pid: int, phs: seq<Segment>, n: nat)
    requires Shape(s) && 0 <= pid < NPROC && s.procs[pid].pagetable < NPAGES && n <= |phs|
  {
    && (forall i :: 0 <= i < n && Loadable(phs[i]) ==> HaveTables(s.mem, s.procs[pid].pagetable, phs[i]))
    && TotalPages(phs, n) <= |FreeFrames(s)|
  }

  ghost predicate TablesSame(m: seq<byte>, m': seq<byte>, root: nat)
    requires |m| == |m'| == MEMSIZE_PHYSICAL && root < NPAGES
  {
    forall u :: 0 <= u < VPAGES ==> (Leaf(m', root, u).Some? <==> Leaf(m, root, u).Some?)
  }

  /** The first `n` segments had what they need, and took it. */
  ghost predicate Consumed(s0: K, s: K, pid: int, phs: seq<Segment>, n: nat) {
    && Shape(s0) && Shape(s) && 0 <= pid < NPROC && s0.procs[pid].pagetable < NPAGES && n <= |phs|
    && Suffices(s0, pid, phs, n) && TablesSame(s0.mem, s.mem, s0.procs[pid].pagetable)
    && |FreeFrames(s)| == |FreeFrames(s0)| - TotalPages(phs, n)
  }

  lemma {:induction false} SegmentTables(s: K, s': K, pid: int, ph: Segment, src: seq<byte>)
    requires SegmentLoaded(s, s', pid, ph, src) && HaveTables(s.mem, s.procs[pid].pagetable, ph)
    ensures TablesSame(s.mem, s'.mem, s.procs[pid].pagetable)
  {
    forall u | 0 <= u < VPAGES
      ensures Leaf(s'.mem, s.procs[pid].pagetable, u).Some? <==> Leaf(s.mem, s.procs[pid].pagetable, u).Some?
    {
      assert PageLoaded(s, s', pid, ph, src, u, 0);
    }
  }

  lemma {:induction false} ConsumedMore(s0: K, s: K, s': K, pid: int, phs: seq<Segment>, src: seq<byte>, n: nat)
    requires Consumed(s0, s, pid, phs, n) && n < |phs| && Loadable(phs[n]) && SegmentLoaded(s, s', pid, phs[n], src)
    requires s.procs == s0.procs && First(phs[n]) <= Last(phs[n]) && Took(s, s', pid, First(phs[n]), Last(phs[n]))
    ensures Consumed(s0, s', pid, phs, n + 1)
  {
    hide OwnedTree, UserPagesOk, OwnChange, PageLoaded;
    SegmentPages(phs[n]);
    SegmentTables(s, s', pid, phs[n], src);
    ThereAtStart(s0, s, pid, phs[n]);
  }

  /** A segment's tables are there now exactly if they were at the start. */
  lemma {:induction false} ThereAtStart(s0: K, s: K, pid: int, ph: Segment)
    requires Shape(s0) && Shape(s) && 0 <= pid < NPROC && s0.procs[pid].pagetable < NPAGES
    requires TablesSame(s0.mem, s.mem, s0.procs[pid].pagetable) && EndMem(ph) <= VA_LIMIT
    ensures HaveTables(s.mem, s0.procs[pid].pagetable, ph) <==> HaveTables(s0.mem, s0.procs[pid].pagetable, ph)
  {
    SegmentPages(ph);
  }

  lemma {:induction false} NotEnoughNext(s0: K, s: K, pid: int, phs: seq<Segment>, n: nat)
    requires Consumed(s0, s, pid, phs, n) && n < |phs| && Loadable(phs[n]) && EndMem(phs[n]) <= VA_LIMIT
    requires s.procs == s0.procs && !Enough(s, pid, First(phs[n]), Last(phs[n]))
    ensures !Suffices(s0, pid, phs, n + 1)
  {
    SegmentPages(phs[n]);
    ThereAtStart(s0, s, pid, phs[n]);
  }

  lemma {:induction false} SufficesBefore(s: K, pid: int, phs: seq<Segment>, n: nat, k: nat)
    requires Shape(s) && 0 <= pid < NPROC && s.procs[pid].pagetable < NPAGES && n <= k <= |phs|
    requires Suffices(s, pid, phs, k)
    ensures Suffices(s, pid, phs, n)
    decreases k
  {
    if n < k { SufficesBefore(s, pid, phs, n, k - 1); }
  }

  function BreaksSet(s: K, pid: int, brk: u64): K
    requires |s.procs| == NPROC && 0 <= pid < NPROC
  {
    s.(procs := s.procs[pid := s.procs[pid].(programBreak := brk, originalBreak := brk)])
  }

  ghost predicate ProgramInMemory(s0: K, s: K, pid: int, phs: seq<Segment>, file: seq<byte>) {
    && Shape(s0) && 0 <= pid < NPROC && RoundUp(MaxEnd(phs, |phs|), 4096) < TWO64
    && exists s1 :: LoadedUpTo(s0, s1, pid, phs, file, |phs|)
         && s == BreaksSet(s1, pid, RoundUp(MaxEnd(phs, |phs|), 4096))
  }

  lemma {:induction false} MaxEndBound(phs: seq<Segment>, file: seq<byte>, n: nat)
    requires FileOk(phs, file) && n <= |phs|
    ensures MaxEnd(phs, n) <= VA_LIMIT
  {
    if MaxEnd(phs, n) != 0 {
      var i :| 0 <= i < n && Loadable(phs[i]) && EndMem(phs[i]) == MaxEnd(phs, n);
    }
  }

  /** One program header. */
  method LoadNext(k: K0.Kernel, pid: nat, phs: seq<Segment>, file: seq<byte>, i: nat, ghost s0: K) returns (ok: bool)
    requires k.owner != k.refcount && Shape(s0) && LoadedUpTo(s0, k.View(), pid, phs, file, i) && i < |phs|
    requires Consumed(s0, k.View(), pid, phs, i)
    modifies k.mem, k.owner, k.refcount
    ensures ok ==> LoadedUpTo(s0, k.View(), pid, phs, file, i + 1) && Consumed(s0, k.View(), pid, phs, i + 1)
    ensures !ok ==> Loading(k.View(), pid) && k.View().procs == s0.procs && !Suffices(s0, pid, phs, i + 1)
  {
    hide OwnedTree, UserPagesOk, SegmentsHold, OutsideKept, OwnChange, PageLoaded;
    ghost var s := k.View();
    if Loadable(phs[i]) {
      var r := LoadSegment(k, pid, phs[i], file[phs[i].offset..]);
      if r < 0 {
        NotEnoughNext(s0, s, pid, phs, i);
        return false;
      }
      LoadedMore(s0, s, k.View(), pid, phs, file, i);
      ConsumedMore(s0, s, k.View(), pid, phs, Source(file, phs[i]), i);
    } else {
      LoadedSkip(s0, s, pid, phs, file, i);
    }
    return true;
  }

  /** How program_load ends: a failed assertion, out of memory, or with the entry point. */
  datatype Outcome = BadMagic | NoMemory | Loaded(entry: u64)

  /** program_load, on the image of an executable. */
  method ProgramLoad(k: K0.Kernel, pid: nat, file: seq<byte>) returns (r: Outcome)
    requires k.owner != k.refcount && Loading(k.View(), pid) && HeadersFit(file) && FileOk(Headers(file), file)
    modifies k.mem, k.owner, k.refcount, k.processes
    ensures r == BadMagic <==> Magic(file) != ELF_MAGIC
    ensures r.Loaded? <==> Magic(file) == ELF_MAGIC && Suffices(old(k.View()), pid, Headers(file), PhNum(file))
    ensures r.Loaded? ==> Consumed(old(k.View()), k.View(), pid, Headers(file), PhNum(file))
    ensures r.BadMagic? ==> k.View() == old(k.View())
    ensures r.NoMemory? ==> Loading(k.View(), pid) && k.View().procs == old(k.View().procs)
    ensures r.Loaded? ==> r.entry == EntryPoint(file) && ProgramInMemory(old(k.View()), k.View(), pid, Headers(file), file)
  {
    hide OwnedTree, UserPagesOk, FileOk, LoadedUpTo, Consumed, Suffices;
    if Magic(file) != ELF_MAGIC {
      return BadMagic;
    }
    ghost var s0 := k.View();
    var ok, maxEndMem := LoadSegments(k, pid, Headers(file), file);
    if !ok {
      return NoMemory;
    }
    ghost var s1 := k.View();
    MaxEndBound(Headers(file), file, PhNum(file));
    var brk := RoundUp(maxEndMem, PAGESIZE);
    k.processes[pid] := k.processes[pid].(programBreak := brk, originalBreak := brk);
    assert k.View() == BreaksSet(s1, pid, brk);
    BreaksConsumed(s0, s1, pid, Headers(file), file, brk);
    return Loaded(EntryPoint(file));
  }

  /** Setting the breaks takes no frame and no table. */
  lemma {:induction false} BreaksConsumed(s0: K, s1: K, pid: int, phs: seq<Segment>, file: seq<byte>, brk: u64)
    requires Consumed(s0, s1, pid, phs, |phs|) && LoadedUpTo(s0, s1, pid, phs, file, |phs|)
    ensures Shape(s0) && Shape(s1) && 0 <= pid < NPROC && s1.procs == s0.procs
    ensures Consumed(s0, BreaksSet(s1, pid, brk), pid, phs, |phs|)
  {
    hide OwnChange, SegmentsHold, OutsideKept, Suffices, TablesSame, FileOk, OwnedTree, UserPagesOk, Leaf;
  }

  /** The loop over the program headers. */
  method LoadSegments(k: K0.Kernel, pid: nat, phs: seq<Segment>, file: seq<byte>) returns (ok: bool, maxEndMem: nat)
    requires k.owner != k.refcount && Loading(k.View(), pid) && FileOk(phs, file)
    modifies k.mem, k.owner, k.refcount
    ensures ok <==> Suffices(old(k.View()), pid, phs, |phs|)
    ensures ok ==> LoadedUpTo(old(k.View()), k.View(), pid, phs, file, |phs|) && maxEndMem == MaxEnd(phs, |phs|)
    ensures ok ==> Consumed(old(k.View()), k.View(), pid, phs, |phs|)
    ensures !ok ==> Loading(k.View(), pid) && k.View().procs == old(k.View().procs)
  {
    hide LoadedUpTo, Consumed, Suffices;
    ghost var s0 := k.View();
    LoadStarts(s0, pid, phs, file);
    maxEndMem := 0;
    for i := 0 to |phs|
      invariant LoadedUpTo(s0, k.View(), pid, phs, file, i) && maxEndMem == MaxEnd(phs, i)
      invariant Consumed(s0, k.View(), pid, phs, i)
    {
      ok := LoadNext(k, pid, phs, file, i, s0);
      if !ok {
        if Suffices(s0, pid, phs, |phs|) { SufficesBefore(s0, pid, phs, i + 1, |phs|); }
        return;
      }
      if Loadable(phs[i]) {
        var endMem := EndMem(phs[i]);
        if endMem > maxEndMem {
          maxEndMem := endMem;
        }
      }
    }
    SufficientAll(s0, k.View(), pid, phs);
    ok := true;
  }

  lemma {:induction false} LoadStarts(s: K, pid: int, phs: seq<Segment>, file: seq<byte>)
    requires Loading(s, pid) && FileOk(phs, file)
    ensures LoadedUpTo(s, s, pid, phs, file, 0) && Consumed(s, s, pid, phs, 0)
  {
  }

  lemma {:induction false} SufficientAll(s0: K, s: K, pid: int, phs: seq<Segment>)
    requires Consumed(s0, s, pid, phs, |phs|)
    ensures Shape(s0) && 0 <= pid < NPROC && s0.procs[pid].pagetable < NPAGES && Suffices(s0, pid, phs, |phs|)
  {
  }

  // ----- what a loaded program means -----

  /** After a successful load of page-disjoint segments the heap starts on a page
      boundary at or above every segment, at no page's distance from the highest. */
  lemma {:induction false} HeapAboveProgram(s0: K, s: K, pid: int, phs: seq<Segment>, file: seq<byte>)
    requires ProgramInMemory(s0, s, pid, phs, file)
    ensures Shape(s)
    ensures s.procs[pid].originalBreak == s.procs[pid].programBreak && s.procs[pid].originalBreak % 4096 == 0
    ensures forall i :: 0 <= i < |phs| && Loadable(phs[i]) ==> EndMem(phs[i]) <= s.procs[pid].originalBreak
    ensures s.procs[pid].originalBreak == 0
      || exists i :: 0 <= i < |phs| && Loadable(phs[i]) && s.procs[pid].originalBreak < EndMem(phs[i]) + 4096
  {
  }

  /** The file's bytes land where the program header says, whatever the file, exactly
      when the segment starts on a page boundary: the copy starts at the boundary. */
  lemma {:induction false} LoadedInPlaceIfAligned(ph: Segment)
    requires 0 < ph.filesz <= ph.memsz && EndMem(ph) <= VA_LIMIT
    ensures (forall src, i :: SegmentOk(ph, src) && 0 <= i < ph.filesz ==> InPlace(ph, src, i)) <==> ph.va % 4096 == 0
    ensures forall src, x :: SegmentOk(ph, src) && ph.va + ph.filesz <= x < ph.va + ph.memsz ==> ByteOf(ph, src, x) == 0
  {
    SegmentPages(ph);
    var d := ph.va - Start(ph);
    if d > 0 {
      var src := [1] + seq(d + ph.filesz, _ => 0);
      assert SegmentOk(ph, src) && !InPlace(ph, src, 0);
    }
  }

  predicate InPlace(ph: Segment, src: seq<byte>, i: nat)
    requires SegmentOk(ph, src) && i < ph.filesz
  {
    SegmentPages(ph);
    ByteOf(ph, src, ph.va + i) == src[i]
  }
}
