/** What loading a program does to the memory of the process it is loaded for. */
module LoaderSteps {
  import opened Bytes
  import opened Options
  import opened PageTables
  import opened VirtualMemory
  import opened KernelTables
  import opened KernelState
  import opened KernelSteps
  import opened KernelHeap
  import opened KernelMemory

  /** The process is being set up: its tables and pages are its own. It need not
      be live yet. */
  ghost predicate Loading(s: K, pid: int) {
    && Shape(s) && 0 < pid < NPROC && s.procs[pid].pagetable < NPAGES
    && s.refcount[0] > 0 && s.refcount[CONSOLE_FRAME] > 0 && s.owner[CONSOLE_FRAME] == PO_RESERVED
    && (forall f :: 0 <= f < NPAGES ==> s.refcount[f] >= 0)
    && OwnedTree(s.mem, s.owner, s.refcount, s.procs[pid].pagetable, pid)
    && UserPagesOk(s.mem, s.owner, s.refcount, s.procs[pid].pagetable, pid)
  }

  /** Page `v` is mapped for the process, writable, in a frame of its own. */
  predicate WritablePage(m: seq<byte>, root: nat, v: nat)
    requires |m| == MEMSIZE_PHYSICAL && root < NPAGES
  {
    && UserPage(m, root, v) && HasW(Leaf(m, root, v).value)
    && FrameAt(m, root, v) < NPAGES && FrameAt(m, root, v) != CONSOLE_FRAME
  }

  // ----- a frame is found and mapped -----

  lemma {:induction false} FreeFrameIdle(s: K, pid: int, f: nat)
    requires Loading(s, pid) && f < NPAGES && s.refcount[f] == 0
    ensures f != CONSOLE_FRAME && f != 0 && !IsTable(s.mem, s.procs[pid].pagetable, f)
    ensures forall u :: 0 <= u < VPAGES && UserPage(s.mem, s.procs[pid].pagetable, u) ==>
              FrameAt(s.mem, s.procs[pid].pagetable, u) != f
  {
    assert IsTable(s.mem, s.procs[pid].pagetable, f) ==> Private(s.owner, s.refcount, pid, f);
  }

  lemma {:induction false} PallocLoading(s: K, s1: K, pid: int, f: nat)
    requires Loading(s, pid) && Palloced(s, s1, pid, f)
    ensures Loading(s1, pid) && Spare(s1, pid, f) && OwnChange(s, s1, pid)
    ensures SameLeaves(s.mem, s1.mem, s.procs[pid].pagetable)
  {
    var root := s.procs[pid].pagetable;
    FreeFrameIdle(s, pid, f);
    PallocTables(s, s1, pid, f, root);
    OwnedTreeFrame(s, s1, root, pid);
    UserPagesFrame(s, s1, root, pid);
    PallocSpare(s, s1, pid, f);
  }

  lemma {:induction false} NewPageLoading(s: K, s': K, pid: int, v: nat, f: nat)
    requires Loading(s, pid) && NewPage(s, s', pid, v, f) && Spare(s, pid, f)
    ensures Loading(s', pid) && OwnChange(s, s', pid)
  {
    LeafChangeOwn(s, s', pid);
    LeafChangeOwnedTree(s, s', s.procs[pid].pagetable, pid);
    NewUserPages(s, s', pid, v, f);
  }

  lemma {:induction false} NewPageWritable(s: K, s': K, pid: int, v: nat, f: nat)
    requires Shape(s) && Shape(s') && 0 < pid < NPROC && NewPage(s, s', pid, v, f) && f < NPAGES && f != CONSOLE_FRAME
    ensures WritablePage(s'.mem, s.procs[pid].pagetable, v)
    ensures forall u :: 0 <= u < VPAGES && u != v ==>
              Leaf(s'.mem, s.procs[pid].pagetable, u) == Leaf(s.mem, s.procs[pid].pagetable, u)
  {
    MappedLeaf(s.mem, s'.mem, s.procs[pid].pagetable, v, 4096 * f, 7);
    NewPageEntry(f);
  }

  /** The pages [lo, n) are new and writable; all else the process sees is as it was. */
  ghost predicate Allocated(s0: K, s: K, pid: int, lo: nat, n: nat) {
    && Loading(s0, pid) && Loading(s, pid) && s.procs == s0.procs && OwnChange(s0, s, pid)
    && (forall u :: lo <= u < n && u < VPAGES ==> WritablePage(s.mem, s.procs[pid].pagetable, u))
    && forall u, off :: 0 <= u < VPAGES && !(lo <= u < n) && 0 <= off < 4096 ==>
         SamePage(s0.mem, s.mem, s.procs[pid].pagetable, u, off)
  }

  ghost predicate SamePage(m: seq<byte>, m': seq<byte>, root: nat, u: nat, off: nat)
    requires |m| == |m'| == MEMSIZE_PHYSICAL && root < NPAGES && u < VPAGES && off < 4096
  {
    Leaf(m', root, u) == Leaf(m, root, u) && PageByte(m', root, u, off) == PageByte(m, root, u, off)
  }

  /** Bytes of pages that are not the new one survive its coming. */
  lemma {:induction false} OldPageSame(s: K, s1: K, s': K, pid: int, v: nat, f: nat, u: nat, off: nat)
    requires Loading(s, pid) && Palloced(s, s1, pid, f) && Loading(s1, pid) && NewPage(s1, s', pid, v, f)
    requires SameLeaves(s.mem, s1.mem, s.procs[pid].pagetable) && |s'.mem| == MEMSIZE_PHYSICAL
    requires u < VPAGES && off < 4096 && u != v
    ensures SamePage(s.mem, s'.mem, s.procs[pid].pagetable, u, off)
  {
    var root := s.procs[pid].pagetable;
    FreeFrameIdle(s, pid, f);
    PallocByte(s, s1, pid, f, root, u, off);
    MappedLeaf(s1.mem, s'.mem, root, v, 4096 * f, 7);
    NewPageOldByte(s1.mem, s'.mem, root, v, 4096 * f, u, off);
  }

  lemma {:induction false} AllocatedMore(s0: K, s: K, s1: K, s': K, pid: int, lo: nat, n: nat, f: nat)
    requires Allocated(s0, s, pid, lo, n) && lo <= n < VPAGES
    requires Palloced(s, s1, pid, f) && Shape(s1) && NewPage(s1, s', pid, n, f)
    ensures Allocated(s0, s', pid, lo, n + 1)
  {
    var root := s.procs[pid].pagetable;
    PallocLoading(s, s1, pid, f);
    NewPageLoading(s1, s', pid, n, f);
    NewPageWritable(s1, s', pid, n, f);
    OwnChangeTrans(s0, s, s1, pid);
    OwnChangeTrans(s0, s1, s', pid);
    forall u | lo <= u < n + 1 && u < VPAGES ensures WritablePage(s'.mem, root, u) {
      if u < n {
        assert WritablePage(s.mem, root, u);
        PageFrame(s.mem, s'.mem, root, u);
      }
    }
    forall u, off | 0 <= u < VPAGES && !(lo <= u < n + 1) && 0 <= off < 4096
      ensures SamePage(s0.mem, s'.mem, root, u, off)
    {
      assert SamePage(s0.mem, s.mem, root, u, off);
      OldPageSame(s, s1, s', pid, n, f, u, off);
    }
  }

  // ----- bytes are copied in -----

  /** The bytes at the addresses [from, to) are those of `data`; all others, and all
      mappings, are as they were. */
  ghost predicate BytesSet(m: seq<byte>, m': seq<byte>, root: nat, from: nat, to: nat, data: seq<byte>) {
    && |m| == |m'| == MEMSIZE_PHYSICAL && root < NPAGES && from <= to <= from + |data|
    && SameLeaves(m, m', root)
    && forall u, off :: 0 <= u < VPAGES && 0 <= off < 4096 ==> ByteSet(m, m', root, from, to, data, u, off)
  }

  ghost predicate ByteSet(m: seq<byte>, m': seq<byte>, root: nat, from: nat, to: nat, data: seq<byte>, u: nat, off: nat)
    requires |m| == |m'| == MEMSIZE_PHYSICAL && root < NPAGES && from <= to <= from + |data| && u < VPAGES && off < 4096
  {
    PageByte(m', root, u, off) ==
      if from <= 4096 * u + off < to then Some(data[4096 * u + off - from]) else PageByte(m, root, u, off)
  }

  lemma {:induction false} PageDisjoint(s: K, pid: int, v: nat, u: nat)
    requires Loading(s, pid) && v < VPAGES && u < VPAGES
    requires UserPage(s.mem, s.procs[pid].pagetable, v) && UserPage(s.mem, s.procs[pid].pagetable, u)
    requires FrameAt(s.mem, s.procs[pid].pagetable, u) == FrameAt(s.mem, s.procs[pid].pagetable, v) != CONSOLE_FRAME
    ensures u == v
  {
  }

  /** The process's page `v` takes byte `b` at offset `off`. */
  ghost predicate ByteWritten(s: K, s': K, pid: int, v: nat, off: nat, b: byte)
    requires Shape(s) && 0 <= pid < NPROC && s.procs[pid].pagetable < NPAGES && v < VPAGES && off < 4096
  {
    && WritablePage(s.mem, s.procs[pid].pagetable, v)
    && s' == s.(mem := s.mem[4096 * FrameAt(s.mem, s.procs[pid].pagetable, v) + off := b])
  }

  lemma {:induction false} FrameOfPage(s: K, pid: int, v: nat)
    requires Loading(s, pid) && v < VPAGES && WritablePage(s.mem, s.procs[pid].pagetable, v)
    ensures var f := FrameAt(s.mem, s.procs[pid].pagetable, v);
      Private(s.owner, s.refcount, pid, f) && !IsTable(s.mem, s.procs[pid].pagetable, f)
  {
  }

  lemma {:induction false} OffFrame(m: seq<byte>, m': seq<byte>, root: nat, f: nat, off: nat, b: byte)
    requires |m| == MEMSIZE_PHYSICAL && root < NPAGES && f < NPAGES && off < 4096 && m' == m[4096 * f + off := b]
    requires !IsTable(m, root, f)
    ensures |m'| == |m| && forall x :: 0 <= x < |m| && m[x] != m'[x] ==> x / 4096 == f
    ensures TablesUntouched(m, m', root)
  {
  }

  lemma {:induction false} WrittenLoading(s: K, s': K, pid: int, v: nat, off: nat, b: byte)
    requires Loading(s, pid) && v < VPAGES && off < 4096 && ByteWritten(s, s', pid, v, off, b)
    ensures Loading(s', pid) && OwnChange(s, s', pid) && SameLeaves(s.mem, s'.mem, s.procs[pid].pagetable)
  {
    var root := s.procs[pid].pagetable;
    var f := FrameAt(s.mem, root, v);
    FrameOfPage(s, pid, v);
    OffFrame(s.mem, s'.mem, root, f, off, b);
    StoreOwn(s, s', pid, f);
    OwnedTreeFrame(s, s', root, pid);
    UserPagesFrame(s, s', root, pid);
  }

  lemma {:induction false} WrittenByte(s: K, s': K, pid: int, v: nat, off: nat, b: byte, u: nat, o: nat)
    requires Loading(s, pid) && v < VPAGES && off < 4096 && ByteWritten(s, s', pid, v, off, b)
    requires Leaf(s'.mem, s.procs[pid].pagetable, u) == Leaf(s.mem, s.procs[pid].pagetable, u)
    requires u < VPAGES && o < 4096
    ensures var root := s.procs[pid].pagetable;
      PageByte(s'.mem, root, u, o) == if u == v && o == off then Some(b) else PageByte(s.mem, root, u, o)
  {
    var root := s.procs[pid].pagetable;
    var f, g := FrameAt(s.mem, root, v), FrameAt(s.mem, root, u);
    ByteAfter(s.mem, s'.mem, root, u, o, 4096 * f + off, b);
    SameAddress(f, off, g, o);
    if PageByte(s.mem, root, u, o).Some? && f == g { PageDisjoint(s, pid, v, u); }
  }

  lemma {:induction false} ByteSetMore(m: seq<byte>, m1: seq<byte>, m2: seq<byte>, root: nat, from: nat,
                                       to: nat, next: nat,
                                       data: seq<byte>, v: nat, off: nat, u: nat, o: nat)
    requires |m| == |m1| == |m2| == MEMSIZE_PHYSICAL && root < NPAGES
    requires u < VPAGES && o < 4096 && v < VPAGES && off < 4096
    requires from <= to < from + |data| && next == to + 1 && to == 4096 * v + off
    requires ByteSet(m, m1, root, from, to, data, u, o)
    requires PageByte(m2, root, u, o) == if u == v && o == off then Some(data[to - from]) else PageByte(m1, root, u, o)
    ensures ByteSet(m, m2, root, from, next, data, u, o)
  {
    SameAddress(u, o, v, off);
  }

  /** One byte more of the copy. */
  lemma {:induction false} BytesSetMore(m: seq<byte>, s: K, s': K, pid: int, from: nat, to: nat, next: nat,
                                        data: seq<byte>, v: nat, off: nat)
    requires Loading(s, pid) && v < VPAGES && off < 4096 && to < from + |data| && next == to + 1 && to == 4096 * v + off
    requires BytesSet(m, s.mem, s.procs[pid].pagetable, from, to, data)
    requires ByteWritten(s, s', pid, v, off, data[to - from])
    ensures Loading(s', pid) && OwnChange(s, s', pid)
    ensures BytesSet(m, s'.mem, s.procs[pid].pagetable, from, next, data)
  {
    var root := s.procs[pid].pagetable;
    WrittenLoading(s, s', pid, v, off, data[to - from]);
    forall u, o | 0 <= u < VPAGES && 0 <= o < 4096 ensures ByteSet(m, s'.mem, root, from, next, data, u, o) {
      WrittenByte(s, s', pid, v, off, data[to - from], u, o);
      ByteSetMore(m, s.mem, s'.mem, root, from, to, next, data, v, off, u, o);
    }
  }

  // ----- pages are made read-only -----

  /** The pages [lo, n) lost W and kept their frames; nothing else changed. */
  ghost predicate Protected(s0: K, s: K, pid: int, lo: nat, n: nat) {
    && Shape(s0) && Loading(s, pid) && s.procs == s0.procs && OwnChange(s0, s, pid)
    && forall u, off :: 0 <= u < VPAGES && 0 <= off < 4096 ==>
         ProtectedPage(s0.mem, s.mem, s.procs[pid].pagetable, lo, n, u, off)
  }

  ghost predicate ProtectedPage(m: seq<byte>, m': seq<byte>, root: nat, lo: nat, n: nat, u: nat, off: nat)
    requires |m| == |m'| == MEMSIZE_PHYSICAL && root < NPAGES && u < VPAGES && off < 4096
  {
    && PageByte(m', root, u, off) == PageByte(m, root, u, off)
    && if lo <= u < n then ReadOnlyPage(m', root, u) && FrameAt(m', root, u) == FrameAt(m, root, u)
       else Leaf(m', root, u) == Leaf(m, root, u)
  }

  predicate ReadOnlyPage(m: seq<byte>, root: nat, u: nat)
    requires |m| == MEMSIZE_PHYSICAL && root < NPAGES
  {
    UserPage(m, root, u) && !HasW(Leaf(m, root, u).value)
  }

  lemma {:induction false} ProtectEntry(f: nat)
    requires f < NPAGES
    ensures var e := NewEntry(4096 * f, 5, 0); HasP(e) && !HasW(e) && HasU(e) && FrameOf(e) == f && HasP(5)
  {
    FlagsBits(4096 * f + 5);
    assert (4096 * f + 5) % 4096 == 5;
  }

  lemma {:induction false} ProtectLeaves(m: seq<byte>, m': seq<byte>, root: nat, v: nat)
    requires root < NPAGES && v < VPAGES && |m| == MEMSIZE_PHYSICAL
    requires UserPage(m, root, v) && FrameAt(m, root, v) < NPAGES
    requires Mapped(m, m', root, v, 4096 * FrameAt(m, root, v), 5, 1)
    ensures ReadOnlyPage(m', root, v) && FrameAt(m', root, v) == FrameAt(m, root, v)
    ensures forall u :: 0 <= u < VPAGES && u != v ==> Leaf(m', root, u) == Leaf(m, root, u)
  {
    MappedLeaf(m, m', root, v, 4096 * FrameAt(m, root, v), 5);
    ProtectEntry(FrameAt(m, root, v));
  }

  lemma {:induction false} ProtectLoading(s: K, s': K, pid: int, v: nat)
    requires Loading(s, pid) && v < VPAGES && s' == s.(mem := s'.mem)
    requires var root := s.procs[pid].pagetable; UserPage(s.mem, root, v) && FrameAt(s.mem, root, v) < NPAGES
    requires Mapped(s.mem, s'.mem, s.procs[pid].pagetable, v, 4096 * FrameAt(s.mem, s.procs[pid].pagetable, v), 5, 1)
    ensures Loading(s', pid) && OwnChange(s, s', pid)
  {
    var root := s.procs[pid].pagetable;
    LeafChangeOwn(s, s', pid);
    LeafChangeOwnedTree(s, s', root, pid);
    ProtectLeaves(s.mem, s'.mem, root, v);
    forall u | 0 <= u < VPAGES && UserPage(s'.mem, root, u)
      ensures UserPage(s.mem, root, u) && FrameAt(s'.mem, root, u) == FrameAt(s.mem, root, u)
    {
      if u != v { PageFrame(s.mem, s'.mem, root, u); }
    }
    FewerUserPagesOk(s, s', root, pid);
  }

  /** `root` maps no user page in `s'` that it did not map, to the same frame, in `s`. */
  lemma {:induction false} FewerUserPagesOk(s: K, s': K, root: nat, pid: int)
    requires Shape(s) && Shape(s') && root < NPAGES && SameNodes(s.mem, s'.mem, root)
    requires s'.owner == s.owner && s'.refcount == s.refcount
    requires UserPagesOk(s.mem, s.owner, s.refcount, root, pid)
    requires forall u :: 0 <= u < VPAGES && UserPage(s'.mem, root, u) ==>
               UserPage(s.mem, root, u) && FrameAt(s'.mem, root, u) == FrameAt(s.mem, root, u)
    ensures UserPagesOk(s'.mem, s'.owner, s'.refcount, root, pid)
  {
    forall u | 0 <= u < VPAGES && UserPage(s'.mem, root, u)
      ensures FrameAt(s'.mem, root, u) == CONSOLE_FRAME
        || (Private(s'.owner, s'.refcount, pid, FrameAt(s'.mem, root, u))
            && !IsTable(s'.mem, root, FrameAt(s'.mem, root, u)))
    {
      SameTables(s.mem, s'.mem, root, FrameAt(s.mem, root, u));
    }
  }

  lemma {:induction false} BytesOffTables(s: K, pid: int, u: nat, off: nat)
    requires Loading(s, pid) && u < VPAGES && off < 4096
    ensures var root := s.procs[pid].pagetable;
      PageByte(s.mem, root, u, off).Some? ==> !IsTable(s.mem, root, FrameAt(s.mem, root, u))
  {
  }

  lemma {:induction false} ProtectByte(m: seq<byte>, m': seq<byte>, root: nat, v: nat, u: nat, off: nat)
    requires root < NPAGES && v < VPAGES && u < VPAGES && off < 4096 && |m| == |m'| == MEMSIZE_PHYSICAL
    requires UserPage(m, root, v) && FrameAt(m, root, v) < NPAGES
    requires Mapped(m, m', root, v, 4096 * FrameAt(m, root, v), 5, 1)
    requires PageByte(m, root, u, off).Some? ==> !IsTable(m, root, FrameAt(m, root, u))
    ensures PageByte(m', root, u, off) == PageByte(m, root, u, off)
  {
    ProtectLeaves(m, m', root, v);
    if PageByte(m, root, u, off).Some? { LeafTableByte(m, m', root, FrameAt(m, root, u), off); }
    if u != v { PageByteFrame(m, m', root, u, off); } else { SameFrameByte(m, m', root, v, off); }
  }

  lemma {:induction false} SameFrameByte(m: seq<byte>, m': seq<byte>, root: nat, v: nat, off: nat)
    requires |m| == |m'| == MEMSIZE_PHYSICAL && root < NPAGES && v < VPAGES && off < 4096
    requires UserPage(m, root, v) && UserPage(m', root, v) && FrameAt(m', root, v) == FrameAt(m, root, v)
    requires PageByte(m, root, v, off).Some? ==>
      m'[4096 * FrameAt(m, root, v) + off] == m[4096 * FrameAt(m, root, v) + off]
    ensures PageByte(m', root, v, off) == PageByte(m, root, v, off)
  {
  }

  lemma {:induction false} ProtectedPageMore(m: seq<byte>, m1: seq<byte>, m2: seq<byte>, root: nat,
                                             lo: nat, n: nat, next: nat, u: nat, off: nat)
    requires |m| == |m1| == |m2| == MEMSIZE_PHYSICAL && root < NPAGES && lo <= n < VPAGES && u < VPAGES && off < 4096
    requires next == n + 1 && ProtectedPage(m, m1, root, lo, n, u, off)
    requires PageByte(m2, root, u, off) == PageByte(m1, root, u, off)
    requires if u == n then ReadOnlyPage(m2, root, u) && FrameAt(m2, root, u) == FrameAt(m1, root, u)
             else Leaf(m2, root, u) == Leaf(m1, root, u)
    ensures ProtectedPage(m, m2, root, lo, next, u, off)
  {
    if u != n { PageFrame(m1, m2, root, u); } else { PageFrame(m, m1, root, u); }
  }

  lemma {:induction false} ProtectedMore(s0: K, s: K, s': K, pid: int, root: nat, lo: nat, n: nat, next: nat)
    requires Protected(s0, s, pid, lo, n) && lo <= n < VPAGES && next == n + 1 && s' == s.(mem := s'.mem)
    requires root == s.procs[pid].pagetable && UserPage(s.mem, root, n) && FrameAt(s.mem, root, n) < NPAGES
    requires Mapped(s.mem, s'.mem, root, n, 4096 * FrameAt(s.mem, root, n), 5, 1)
    ensures Protected(s0, s', pid, lo, next)
  {
    ProtectLoading(s, s', pid, n);
    OwnChangeTrans(s0, s, s', pid);
    ProtectLeaves(s.mem, s'.mem, root, n);
    forall u, off | 0 <= u < VPAGES && 0 <= off < 4096 ensures ProtectedPage(s0.mem, s'.mem, root, lo, next, u, off) {
      BytesOffTables(s, pid, u, off);
      ProtectByte(s.mem, s'.mem, root, n, u, off);
      ProtectedPageMore(s0.mem, s.mem, s'.mem, root, lo, n, next, u, off);
    }
  }
}
