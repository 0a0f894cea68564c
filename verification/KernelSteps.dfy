/** What each kernel operation does to the memory state, and that it keeps the
    invariant and every other process's memory. */
module KernelSteps {
  import opened Bytes
  import opened Sbrk
  import opened PageTables
  import opened VirtualMemory
  import opened KernelState

  /** A frame that operations on behalf of `pid` may touch: its own, or a free one. */
  predicate Mine(s: K, pid: int, f: nat)
    requires |s.owner| == |s.refcount| == NPAGES && f < NPAGES
  {
    s.owner[f] == pid || s.refcount[f] == 0
  }

  /** From `s` to `s'` only frames of `pid` or free frames changed, in contents
      (the console aside) or in ownership, and only the descriptor of `pid`. */
  ghost predicate OwnChange(s: K, s': K, pid: int)
    requires Shape(s)
  {
    && Shape(s') && s'.kroot == s.kroot && s'.image == s.image
    && (forall x :: 0 <= x < |s.mem| && s.mem[x] != s'.mem[x] ==> Mine(s, pid, x / 4096) || x / 4096 == CONSOLE_FRAME)
    && (forall f :: 0 <= f < NPAGES && !Mine(s, pid, f) ==>
         s'.owner[f] == s.owner[f] && s'.refcount[f] == s.refcount[f])
    && (forall f :: 0 <= f < NPAGES && Mine(s, pid, f) ==> Mine(s', pid, f))
    && (forall j :: 0 <= j < NPROC && j != pid ==> s'.procs[j] == s.procs[j])
  }

  ghost predicate PrivateKept(s: K, s': K, o: int)
    requires Shape(s) && Shape(s')
  {
    forall f :: Private(s.owner, s.refcount, o, f) ==> Private(s'.owner, s'.refcount, o, f)
  }

  lemma {:induction false} OwnedTreeFrame(s: K, s': K, root: nat, o: int)
    requires Shape(s) && Shape(s') && OwnedTree(s.mem, s.owner, s.refcount, root, o)
    requires TablesUntouched(s.mem, s'.mem, root) && PrivateKept(s, s', o)
    ensures OwnedTree(s'.mem, s'.owner, s'.refcount, root, o)
    ensures SameNodes(s.mem, s'.mem, root) && SameLeaves(s.mem, s'.mem, root)
  {
    TreeFrame(s.mem, s'.mem, root);
    forall t | IsTable(s'.mem, root, t) ensures Private(s'.owner, s'.refcount, o, t) {
      SameTables(s.mem, s'.mem, root, t);
    }
  }

  lemma {:induction false} UserPagesFrame(s: K, s': K, root: nat, pid: int)
    requires Shape(s) && Shape(s') && root < NPAGES && UserPagesOk(s.mem, s.owner, s.refcount, root, pid)
    requires SameNodes(s.mem, s'.mem, root) && SameLeaves(s.mem, s'.mem, root) && PrivateKept(s, s', pid)
    ensures UserPagesOk(s'.mem, s'.owner, s'.refcount, root, pid)
  {
    forall v | 0 <= v < VPAGES && UserPage(s'.mem, root, v)
      ensures UserPage(s.mem, root, v) && FrameAt(s'.mem, root, v) == FrameAt(s.mem, root, v)
      ensures FrameAt(s'.mem, root, v) == CONSOLE_FRAME
        || (Private(s'.owner, s'.refcount, pid, FrameAt(s'.mem, root, v))
            && !IsTable(s'.mem, root, FrameAt(s'.mem, root, v)))
    {
      assert Leaf(s'.mem, root, v) == Leaf(s.mem, root, v);
      SameTables(s.mem, s'.mem, root, FrameAt(s.mem, root, v));
    }
  }

  lemma {:induction false} PageFrame(m: seq<byte>, m': seq<byte>, root: nat, v: nat)
    requires |m| == |m'| == MEMSIZE_PHYSICAL && root < NPAGES && Leaf(m', root, v) == Leaf(m, root, v)
    ensures Present(m', root, v) == Present(m, root, v) && UserPage(m', root, v) == UserPage(m, root, v)
    ensures FrameAt(m', root, v) == FrameAt(m, root, v)
    ensures forall data :: KernelPageOk(m', root, v, data) == KernelPageOk(m, root, v, data)
  {
  }

  lemma {:induction false} HeapFrame(m: seq<byte>, m': seq<byte>, p: Proc, top: nat)
    requires |m| == |m'| == MEMSIZE_PHYSICAL && p.pagetable < NPAGES && SameLeaves(m, m', p.pagetable)
    ensures HeapPagesOk(m, p) ==> HeapPagesOk(m', p)
    ensures HeapBound(m, p, 0, 0, top) ==> HeapBound(m', p, 0, 0, top)
  {
    forall v: nat | InHeap(p, v) ensures Leaf(m', p.pagetable, v) == Leaf(m, p.pagetable, v) {
      assert v < VPAGES;
    }
  }

  lemma {:induction false} KernelPagesFrame(m: seq<byte>, m': seq<byte>, root: nat, image: Image)
    requires |m| == |m'| == MEMSIZE_PHYSICAL && root < NPAGES && KernelPagesOk(m, root, image)
    requires image.end <= PROC_START_ADDR / 4096
    requires forall v :: 0 <= v < PROC_START_ADDR / 4096 ==> Leaf(m', root, v) == Leaf(m, root, v)
    ensures KernelPagesOk(m', root, image)
  {
    forall v | KERNEL_START_ADDR / 4096 <= v < image.end ensures KernelPageOk(m', root, v, image.data) {
      assert KernelPageOk(m, root, v, image.data);
      PageFrame(m, m', root, v);
    }
    PageFrame(m, m', root, KERNEL_STACK_TOP / 4096 - 1);
  }

  /** A process whose frames are left alone keeps its invariant and its mappings. */
  lemma {:induction false} ProcFrame(s: K, s': K, p: Proc, pid: int)
    requires Shape(s) && Shape(s') && s'.image == s.image && ProcOk(s, p, pid)
    requires TablesUntouched(s.mem, s'.mem, p.pagetable) && PrivateKept(s, s', pid)
    ensures ProcOk(s', p, pid) && SameLeaves(s.mem, s'.mem, p.pagetable)
    ensures HeapBound(s.mem, p, 0, 0, HeapTop(p.programBreak)) ==> HeapBound(s'.mem, p, 0, 0, HeapTop(p.programBreak))
  {
    OwnedTreeFrame(s, s', p.pagetable, pid);
    UserPagesFrame(s, s', p.pagetable, pid);
    HeapFrame(s.mem, s'.mem, p, HeapTop(p.programBreak));
    KernelPagesFrame(s.mem, s'.mem, p.pagetable, s.image);
  }

  lemma {:induction false} ForeignTable(s: K, pid: int, root: nat, o: int, t: nat)
    requires Shape(s) && o != pid && PageinfoOk(s) && o != PO_RESERVED && t < NPAGES
    requires OwnedTree(s.mem, s.owner, s.refcount, root, o)
    ensures IsTable(s.mem, root, t) ==> !Mine(s, pid, t) && t != CONSOLE_FRAME
  {
    assert IsTable(s.mem, root, t) ==> Private(s.owner, s.refcount, o, t);
  }

  /** An operation of one process leaves the others' page tables alone. */
  lemma {:induction false} ForeignTables(s: K, s': K, pid: int, root: nat, o: int)
    requires Shape(s) && OwnChange(s, s', pid) && o != pid && PageinfoOk(s) && o != PO_RESERVED
    requires OwnedTree(s.mem, s.owner, s.refcount, root, o)
    ensures TablesUntouched(s.mem, s'.mem, root) && PrivateKept(s, s', o)
  {
    forall x | 0 <= x < |s.mem| && s.mem[x] != s'.mem[x] ensures !IsTable(s.mem, root, x / 4096) {
      ForeignTable(s, pid, root, o, x / 4096);
    }
  }

  /** What an operation by `pid` means for another process: nothing. */
  lemma {:induction false} OthersKept(s: K, s': K, pid: int, other: int)
    requires Inv(s) && OwnChange(s, s', pid) && 0 < pid < NPROC && 0 <= other < NPROC && other != pid
    ensures ActiveOk(s', other)
    ensures s.procs[other].state != P_FREE ==> SameLeaves(s.mem, s'.mem, s.procs[other].pagetable)
  {
    var p := s.procs[other];
    assert ActiveOk(s, other);
    if p.state != P_FREE {
      ForeignTables(s, s', pid, p.pagetable, other);
      ProcFrame(s, s', p, other);
    }
  }

  lemma {:induction false} KernelKept(s: K, s': K, pid: int)
    requires Inv(s) && OwnChange(s, s', pid) && 0 < pid < NPROC
    ensures KernelOk(s') && SameLeaves(s.mem, s'.mem, s.kroot)
  {
    ForeignTables(s, s', pid, s.kroot, PO_KERNEL);
    OwnedTreeFrame(s, s', s.kroot, PO_KERNEL);
    KernelPagesFrame(s.mem, s'.mem, s.kroot, s.image);
    IdentityFrame(s.mem, s'.mem, s.kroot);
    KernelFramesKept(s, s', pid);
  }

  lemma {:induction false} KernelFramesKept(s: K, s': K, pid: int)
    requires Shape(s) && KernelFramesOk(s.owner, s.refcount, s.image) && OwnChange(s, s', pid) && 0 < pid < NPROC
    ensures KernelFramesOk(s'.owner, s'.refcount, s.image)
  {
    forall f | 0 <= f < NPAGES && (IsKernelFrame(s.image, f) || IsReservedFrame(f)) ensures !Mine(s, pid, f) { }
  }

  lemma {:induction false} IdentityFrame(m: seq<byte>, m': seq<byte>, root: nat)
    requires |m| == |m'| == MEMSIZE_PHYSICAL && root < NPAGES && IdentityPages(m, root) && SameLeaves(m, m', root)
    ensures IdentityPages(m', root)
  {
    forall v | 0 <= v < NPAGES ensures KernelPageOk(m', root, v, 0) {
      assert KernelPageOk(m, root, v, 0);
      PageFrame(m, m', root, v);
    }
  }

  /** The invariant after an operation by `pid` follows from the part that
      speaks of `pid` itself. */
  lemma {:induction false} InvKept(s: K, s': K, pid: int)
    requires Inv(s) && OwnChange(s, s', pid) && 0 < pid < NPROC
    requires PageinfoOk(s') && ActiveOk(s', pid)
    ensures Inv(s')
  {
    KernelKept(s, s', pid);
    forall other | 0 <= other < NPROC ensures ActiveOk(s', other) {
      if other != pid { OthersKept(s, s', pid, other); }
    }
  }
}
