/** The kernel's memory state: physical memory, the pageinfo array and the
    processes, and the invariant that keeps them consistent. */
module KernelState {
  import opened Bytes
  import opened Options
  import opened Sbrk
  import opened PageTables
  import opened VirtualMemory

  const NPROC: nat := 16
  const PROC_START_ADDR: nat := 0x100000
  const KERNEL_START_ADDR: nat := 0x40000
  const KERNEL_STACK_TOP: nat := 0x80000
  /** The CGA console, mapped into every process. */
  const CONSOLE_FRAME: nat := 0xB8

  const PO_FREE: int := 0
  const PO_RESERVED: int := -1
  const PO_KERNEL: int := -2

  datatype ProcState = P_FREE | P_RUNNABLE | P_BLOCKED | P_BROKEN

  datatype Proc = Proc(state: ProcState, programBreak: u64, originalBreak: u64, pagetable: nat)

  /** Where the kernel's image ends and where its writable data starts, in pages, and the
      addresses of default_int_handler and virtual_memory_map. */
  datatype Image = Image(end: nat, data: nat, handler: u64, mapper: u64)

  datatype K = K(mem: seq<byte>, owner: seq<int>, refcount: seq<int>, procs: seq<Proc>, kroot: nat, image: Image)

  ghost predicate Shape(s: K) {
    && |s.mem| == MEMSIZE_PHYSICAL && |s.owner| == |s.refcount| == NPAGES && |s.procs| == NPROC
    && 0 < s.kroot < NPAGES
    && KERNEL_START_ADDR / 4096 <= s.image.end <= PROC_START_ADDR / 4096
  }

  ghost predicate IsTable(m: seq<byte>, root: nat, t: nat)
    requires |m| == MEMSIZE_PHYSICAL && root < NPAGES
  {
    exists k, q :: IsNode(m, root, k, q) && Node(m, root, k, q) == Some(t)
  }

  /** An interior entry that is not present is zero. */
  ghost predicate Clean(m: seq<byte>, root: nat)
    requires |m| == MEMSIZE_PHYSICAL && root < NPAGES
  {
    forall k, q, i :: IsNode(m, root, k, q) && k < 3 && 0 <= i < NENTRIES ==>
      HasP(Entry(m, Node(m, root, k, q).value, i)) || Entry(m, Node(m, root, k, q).value, i) == 0
  }

  /** Frame `f` belongs to `o` alone. */
  predicate Private(owner: seq<int>, refcount: seq<int>, o: int, f: nat)
    requires |owner| == |refcount| == NPAGES
  {
    f < NPAGES && owner[f] == o && refcount[f] == 1
  }

  predicate Present(m: seq<byte>, root: nat, v: nat)
    requires |m| == MEMSIZE_PHYSICAL && root < NPAGES
  {
    var e := Leaf(m, root, v);
    e.Some? && HasP(e.value)
  }

  /** Page `v` is mapped for the process itself. */
  predicate UserPage(m: seq<byte>, root: nat, v: nat)
    requires |m| == MEMSIZE_PHYSICAL && root < NPAGES
  {
    Present(m, root, v) && HasU(Leaf(m, root, v).value)
  }

  function FrameAt(m: seq<byte>, root: nat, v: nat): nat
    requires |m| == MEMSIZE_PHYSICAL && root < NPAGES
  {
    var e := Leaf(m, root, v);
    if e.Some? then FrameOf(e.value) else 0
  }

  /** The pages that brk and sbrk may ever give the process. */
  predicate InHeap(p: Proc, v: nat) {
    p.originalBreak / 4096 <= v < BREAK_LIMIT / 4096
  }

  function HeapTop(brk: nat): nat {
    RoundUp(brk, 4096) / 4096
  }

  /** The table tree of `root` belongs to `o` alone. */
  ghost predicate OwnedTree(m: seq<byte>, owner: seq<int>, refcount: seq<int>, root: nat, o: int) {
    && |owner| == |refcount| == NPAGES
    && Tree(m, root) && Clean(m, root)
    && forall t :: IsTable(m, root, t) ==> Private(owner, refcount, o, t)
  }

  /** The user pages of a process lie in frames of its own, one frame a page,
      none of them a page table; only the console is shared. */
  ghost predicate UserPagesOk(m: seq<byte>, owner: seq<int>, refcount: seq<int>, root: nat, pid: int)
    requires |m| == MEMSIZE_PHYSICAL && root < NPAGES && |owner| == |refcount| == NPAGES
  {
    && (forall v :: 0 <= v < VPAGES && UserPage(m, root, v) ==>
         FrameAt(m, root, v) == CONSOLE_FRAME
         || (Private(owner, refcount, pid, FrameAt(m, root, v)) && !IsTable(m, root, FrameAt(m, root, v))))
    && (forall v, v' :: 0 <= v < VPAGES && 0 <= v' < VPAGES && UserPage(m, root, v) && UserPage(m, root, v') ==>
         FrameAt(m, root, v) == FrameAt(m, root, v') ==> FrameAt(m, root, v) == CONSOLE_FRAME || v == v')
  }

  /** Present heap pages are the process's own. */
  ghost predicate HeapPagesOk(m: seq<byte>, p: Proc)
    requires |m| == MEMSIZE_PHYSICAL && p.pagetable < NPAGES
  {
    forall v: nat :: InHeap(p, v) && Present(m, p.pagetable, v) ==>
      UserPage(m, p.pagetable, v) && FrameAt(m, p.pagetable, v) != CONSOLE_FRAME
  }

  /** No heap page is present in [lo, hi) and none from `top` on. */
  ghost predicate HeapBound(m: seq<byte>, p: Proc, lo: nat, hi: nat, top: nat)
    requires |m| == MEMSIZE_PHYSICAL && p.pagetable < NPAGES
  {
    forall v: nat :: InHeap(p, v) && Present(m, p.pagetable, v) ==> (v < lo || hi <= v) && v < top
  }

  predicate BreaksOk(p: Proc) {
    && PROC_START_ADDR <= p.originalBreak <= p.programBreak < BREAK_LIMIT
    && p.originalBreak % 4096 == 0
  }

  /** What check_page_table_mappings asserts: the kernel's image and stack are at
      their own addresses, the writable parts writable. */
  ghost predicate KernelPagesOk(m: seq<byte>, root: nat, image: Image)
    requires |m| == MEMSIZE_PHYSICAL && root < NPAGES
  {
    && (forall v :: KERNEL_START_ADDR / 4096 <= v < image.end ==> KernelPageOk(m, root, v, image.data))
    && KernelPageOk(m, root, KERNEL_STACK_TOP / 4096 - 1, 0)
  }

  /** Page `v` is at its own address, and writable if it is at or above `data`. */
  predicate KernelPageOk(m: seq<byte>, root: nat, v: nat, data: nat)
    requires |m| == MEMSIZE_PHYSICAL && root < NPAGES
  {
    Present(m, root, v) && FrameAt(m, root, v) == v && (v >= data ==> HasW(Leaf(m, root, v).value))
  }

  ghost predicate ProcOk(s: K, p: Proc, pid: int)
    requires Shape(s)
  {
    && OwnedTree(s.mem, s.owner, s.refcount, p.pagetable, pid)
    && UserPagesOk(s.mem, s.owner, s.refcount, p.pagetable, pid)
    && HeapPagesOk(s.mem, p) && BreaksOk(p)
    && KernelPagesOk(s.mem, p.pagetable, s.image)
  }

  ghost predicate ActiveOk(s: K, pid: int)
    requires Shape(s) && 0 <= pid < NPROC
  {
    var p := s.procs[pid];
    p.state != P_FREE ==> ProcOk(s, p, pid) && HeapBound(s.mem, p, 0, 0, HeapTop(p.programBreak))
  }

  /** A frame in use names its owner: the kernel, the hardware, or a live process. */
  ghost predicate PageinfoOk(s: K)
    requires Shape(s)
  {
    && (forall f :: 0 <= f < NPAGES ==> s.refcount[f] >= 0)
    && (forall f :: 0 <= f < NPAGES && s.refcount[f] > 0 && s.owner[f] >= 0 ==>
         0 < s.owner[f] < NPROC && s.procs[s.owner[f]].state != P_FREE)
    && Private(s.owner, s.refcount, PO_RESERVED, CONSOLE_FRAME)
    && s.refcount[0] > 0 && s.owner[0] == PO_RESERVED
  }

  ghost predicate KernelOk(s: K)
    requires Shape(s)
  {
    && OwnedTree(s.mem, s.owner, s.refcount, s.kroot, PO_KERNEL)
    && KernelPagesOk(s.mem, s.kroot, s.image) && IdentityPages(s.mem, s.kroot) && InImage(s.image, s.kroot)
    && KernelFramesOk(s.owner, s.refcount, s.image)
  }

  /** The frames of the kernel's image and of its stack. */
  predicate IsKernelFrame(image: Image, f: nat) {
    KERNEL_START_ADDR / 4096 <= f < image.end || f == KERNEL_STACK_TOP / 4096 - 1
  }

  /** The frames of the hardware: the first, and those of I/O memory. */
  predicate IsReservedFrame(f: nat) {
    f == 0 || 0xA0 <= f < 0x100
  }

  /** Both kinds are in use, so that palloc gives none of them out. */
  ghost predicate KernelFramesOk(owner: seq<int>, refcount: seq<int>, image: Image)
    requires |owner| == |refcount| == NPAGES
  {
    && (forall f :: 0 <= f < NPAGES && IsKernelFrame(image, f) ==> Private(owner, refcount, PO_KERNEL, f))
    && (forall f :: 0 <= f < NPAGES && IsReservedFrame(f) ==> Private(owner, refcount, PO_RESERVED, f))
  }

  /** The kernel's own tables map physical memory to its own addresses. */
  ghost predicate IdentityPages(m: seq<byte>, root: nat)
    requires |m| == MEMSIZE_PHYSICAL && root < NPAGES
  {
    forall v :: 0 <= v < NPAGES ==> KernelPageOk(m, root, v, 0)
  }

  /** The kernel's root table and the code that set_pagetable looks for are in its image. */
  predicate InImage(image: Image, kroot: nat) {
    && KERNEL_START_ADDR / 4096 <= kroot < image.end
    && KERNEL_START_ADDR <= image.handler < 4096 * image.end
    && KERNEL_START_ADDR <= image.mapper < 4096 * image.end
  }

  ghost predicate Inv(s: K) {
    && Shape(s) && PageinfoOk(s) && KernelOk(s) && s.procs[0].state == P_FREE
    && forall pid :: 0 <= pid < NPROC ==> ActiveOk(s, pid)
  }

  // ----- framing -----

  ghost predicate SameLeaves(m: seq<byte>, m': seq<byte>, root: nat)
    requires |m| == MEMSIZE_PHYSICAL && |m'| == MEMSIZE_PHYSICAL && root < NPAGES
  {
    forall v :: 0 <= v < VPAGES ==> Leaf(m', root, v) == Leaf(m, root, v)
  }

  /** No byte of a table of `root` differs between `m` and `m'`. */
  ghost predicate TablesUntouched(m: seq<byte>, m': seq<byte>, root: nat)
    requires |m| == MEMSIZE_PHYSICAL && root < NPAGES
  {
    |m'| == |m| && forall x :: 0 <= x < |m| && m[x] != m'[x] ==> !IsTable(m, root, x / 4096)
  }

  lemma {:induction false} EntryFrame(m: seq<byte>, m': seq<byte>, root: nat, t: nat, i: nat)
    requires |m| == MEMSIZE_PHYSICAL && root < NPAGES && TablesUntouched(m, m', root)
    requires IsTable(m, root, t) && t < NPAGES && i < NENTRIES
    ensures Entry(m', t, i) == Entry(m, t, i)
  {
    forall x | 4096 * t + 8 * i <= x < 4096 * t + 8 * i + 8 ensures m[x] == m'[x] {
      assert x / 4096 == t;
    }
    LoadFrame(m, m', 4096 * t + 8 * i, 8);
  }

  lemma {:induction false} NodeFrame(m: seq<byte>, m': seq<byte>, root: nat, k: nat, q: nat)
    requires |m| == MEMSIZE_PHYSICAL && root < NPAGES && TablesUntouched(m, m', root)
    requires k <= 3 && q < Digits(k)
    ensures Node(m', root, k, q) == Node(m, root, k, q)
    decreases k
  {
    if k > 0 {
      NodeFrame(m, m', root, k - 1, q / 512);
      if Node(m, root, k - 1, q / 512).Some? {
        assert IsNode(m, root, k - 1, q / 512);
        EntryFrame(m, m', root, Node(m, root, k - 1, q / 512).value, q % 512);
      }
    }
  }

  /** A tree depends on the bytes of its own tables only. */
  lemma {:induction false} TreeFrame(m: seq<byte>, m': seq<byte>, root: nat)
    requires Tree(m, root) && TablesUntouched(m, m', root)
    ensures SameNodes(m, m', root) && SameLeaves(m, m', root) && Tree(m', root)
    ensures Clean(m, root) ==> Clean(m', root)
  {
    forall k, q | 0 <= q && 0 <= k <= 3 && q < Digits(k) ensures Node(m', root, k, q) == Node(m, root, k, q) {
      NodeFrame(m, m', root, k, q);
    }
    forall v | 0 <= v < VPAGES ensures Leaf(m', root, v) == Leaf(m, root, v) {
      assert Node(m', root, 3, v / 512) == Node(m, root, 3, v / 512);
      if Node(m, root, 3, v / 512).Some? {
        assert IsNode(m, root, 3, v / 512);
        EntryFrame(m, m', root, Node(m, root, 3, v / 512).value, v % 512);
      }
    }
    InteriorFrame(m, m', root);
  }

  lemma {:induction false} InteriorFrame(m: seq<byte>, m': seq<byte>, root: nat)
    requires Tree(m, root) && TablesUntouched(m, m', root) && SameNodes(m, m', root)
    ensures Tree(m', root) && (Clean(m, root) ==> Clean(m', root))
  {
    forall k, q, i | IsNode(m', root, k, q) && k < 3 && 0 <= i < NENTRIES
      ensures Entry(m', Node(m', root, k, q).value, i) == Entry(m, Node(m, root, k, q).value, i)
      ensures InteriorOk(Entry(m', Node(m', root, k, q).value, i))
      ensures IsNode(m, root, k, q)
    {
      assert Node(m', root, k, q) == Node(m, root, k, q);
      assert IsNode(m, root, k, q);
      EntryFrame(m, m', root, Node(m, root, k, q).value, i);
    }
    forall k, q, k', q' | IsNode(m', root, k, q) && IsNode(m', root, k', q')
      && Node(m', root, k, q) == Node(m', root, k', q')
      ensures k == k' && q == q'
    {
      assert IsNode(m, root, k, q) && IsNode(m, root, k', q');
    }
  }

  lemma {:induction false} SameTables(m: seq<byte>, m': seq<byte>, root: nat, t: nat)
    requires |m| == |m'| == MEMSIZE_PHYSICAL && root < NPAGES && SameNodes(m, m', root)
    ensures IsTable(m', root, t) <==> IsTable(m, root, t)
  {
    if IsTable(m, root, t) {
      var k, q :| IsNode(m, root, k, q) && Node(m, root, k, q) == Some(t);
      assert IsNode(m', root, k, q);
    }
    if IsTable(m', root, t) {
      var k, q :| IsNode(m', root, k, q) && Node(m', root, k, q) == Some(t);
      assert IsNode(m, root, k, q);
    }
  }
}
