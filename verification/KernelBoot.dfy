/** The state that the kernel starts its first process from. */
module KernelBoot {
  import opened Bytes
  import opened Options
  import opened Sbrk
  import opened PageTables
  import opened VirtualMemory
  import opened KernelTables
  import opened KernelState
  import opened KernelHeap

  const IOPHYSMEM: nat := 0xA0000
  const EXTPHYSMEM: nat := 0x100000

  predicate PhysicalMemoryIsReserved(pa: nat) {
    pa == 0 || (pa >= IOPHYSMEM && pa < EXTPHYSMEM)
  }

  /** The owner that pageinfo_init gives the frame at `addr`. */
  function InitialOwner(addr: nat, image: Image): int {
    if PhysicalMemoryIsReserved(addr) then PO_RESERVED
    else if (addr >= KERNEL_START_ADDR && addr < 4096 * image.end) || addr == KERNEL_STACK_TOP - PAGESIZE then PO_KERNEL
    else PO_FREE
  }

  ghost predicate Initial(owner: seq<int>, refcount: seq<int>, image: Image, n: nat) {
    && |owner| == |refcount| == NPAGES && n <= NPAGES
    && forall pn :: 0 <= pn < n ==>
         && owner[pn] == InitialOwner(4096 * pn, image)
         && refcount[pn] == if owner[pn] != PO_FREE then 1 else 0
  }

  method PageinfoInit(owner: array<int>, refcount: array<int>, image: Image)
    requires owner != refcount && owner.Length == refcount.Length == NPAGES
    modifies owner, refcount
    ensures Initial(owner[..], refcount[..], image, NPAGES)
    ensures forall f :: 0 <= f < 512 ==>
      if f == 0 || 0xA0 <= f < 0x100 then owner[f] == PO_RESERVED && refcount[f] == 1
      else if 0x40 <= f < image.end || f == 0x7F then owner[f] == PO_KERNEL && refcount[f] == 1
      else owner[f] == PO_FREE && refcount[f] == 0
  {
    var addr := 0;
    ghost var n := 0;
    while addr < MEMSIZE_PHYSICAL
      invariant addr == 4096 * n && Initial(owner[..], refcount[..], image, n)
    {
      var o;
      if PhysicalMemoryIsReserved(addr) {
        o := PO_RESERVED;
      } else if (addr >= KERNEL_START_ADDR && addr < 4096 * image.end) || addr == KERNEL_STACK_TOP - PAGESIZE {
        o := PO_KERNEL;
      } else {
        o := PO_FREE;
      }
      owner[addr / 4096] := o;
      refcount[addr / 4096] := if o != PO_FREE then 1 else 0;
      addr, n := addr + PAGESIZE, n + 1;
    }
  }

  /** The image ends below the kernel's stack, and holds the kernel's page tables. */
  predicate ImageOk(image: Image, k: nat) {
    InImage(image, k) && k + 5 <= image.end <= KERNEL_STACK_TOP / 4096 - 1
  }

  /** The tables reachable from the kernel's root are its five. */
  lemma {:induction false} KernelTableFrames(m: seq<byte>, m': seq<byte>, k: nat, t: nat)
    requires Linked(m, k) && Mapped(m, m', k, 0, 0, 7, NPAGES) && IsTable(m', k, t)
    ensures k <= t < k + 5
  {
    var l, q :| IsNode(m', k, l, q) && Node(m', k, l, q) == Some(t);
    assert Node(m', k, l, q) == Node(m, k, l, q);
    LinkedNode(m, k, l, q);
  }

  lemma {:induction false} LinkedClean(m: seq<byte>, k: nat)
    requires Linked(m, k)
    ensures Clean(m, k)
  {
    forall l, q, i | IsNode(m, k, l, q) && l < 3 && 0 <= i < NENTRIES
      ensures HasP(Entry(m, Node(m, k, l, q).value, i)) || Entry(m, Node(m, k, l, q).value, i) == 0
    {
      LinkedEntry(m, k, l, q, i);
    }
  }

  /** Every interior entry is one of the four links, or zero. */
  lemma {:induction false} LinkedEntry(m: seq<byte>, k: nat, l: nat, q: nat, i: nat)
    requires Linked(m, k) && IsNode(m, k, l, q) && l < 3 && i < NENTRIES
    ensures var e := Entry(m, Node(m, k, l, q).value, i); HasP(e) || e == 0
  {
    LinkedNode(m, k, l, q);
    assert Entry(m, k + l, i) == LinkEntry(k, k + l, i);
    LinkIsPresent(k, k + l, i);
  }

  lemma {:induction false} LinkIsPresent(k: nat, t: nat, i: nat)
    requires 0 < k && k + 5 <= NPAGES
    ensures HasP(LinkEntry(k, t, i)) || LinkEntry(k, t, i) == 0
  {
    LinkParts(k + 1);
    LinkParts(k + 2);
    LinkParts(k + 3);
    LinkParts(k + 4);
  }

  lemma {:induction false} IdentityLeaf(m: seq<byte>, m': seq<byte>, k: nat, v: nat)
    requires Linked(m, k) && Mapped(m, m', k, 0, 0, 7, NPAGES) && v < NPAGES
    ensures Leaf(m', k, v) == Some(4096 * v + 7)
  {
    assert Leaf(m', k, v) == NewLeaf(m, k, 0, 0, 7, NPAGES, v);
    LinkedLeaf(m, k, v);
    SevenIsAll();
  }

  lemma {:induction false} IdentityPage(m: seq<byte>, m': seq<byte>, k: nat, v: nat, data: nat)
    requires Linked(m, k) && Mapped(m, m', k, 0, 0, 7, NPAGES) && v < NPAGES
    ensures KernelPageOk(m', k, v, data)
  {
    IdentityLeaf(m, m', k, v);
    SevenIsAll();
    EntryParts(v, 7);
    FlagsBits(4096 * v + 7);
  }

  lemma {:induction false} AllIdentityPages(m: seq<byte>, m': seq<byte>, k: nat, image: Image)
    requires Linked(m, k) && Mapped(m, m', k, 0, 0, 7, NPAGES) && image.end <= NPAGES
    ensures KernelPagesOk(m', k, image) && IdentityPages(m', k)
  {
    forall v | KERNEL_START_ADDR / 4096 <= v < image.end ensures KernelPageOk(m', k, v, image.data) {
      IdentityPage(m, m', k, v, image.data);
    }
    forall v | 0 <= v < NPAGES ensures KernelPageOk(m', k, v, 0) {
      IdentityPage(m, m', k, v, 0);
    }
    IdentityPage(m, m', k, KERNEL_STACK_TOP / 4096 - 1, 0);
  }

  lemma {:induction false} InitialFrames(owner: seq<int>, refcount: seq<int>, image: Image, k: nat)
    requires Initial(owner, refcount, image, NPAGES) && ImageOk(image, k)
    ensures forall f :: 0 <= f < NPAGES ==> refcount[f] >= 0 && (refcount[f] > 0 ==> owner[f] < 0)
    ensures forall t :: k <= t < k + 5 ==> Private(owner, refcount, PO_KERNEL, t)
    ensures Private(owner, refcount, PO_RESERVED, CONSOLE_FRAME) && Private(owner, refcount, PO_RESERVED, 0)
    ensures KernelFramesOk(owner, refcount, image)
  {
  }

  lemma {:induction false} BootTree(linked: seq<byte>, m: seq<byte>, k: nat, owner: seq<int>, refcount: seq<int>)
    requires Linked(linked, k) && Mapped(linked, m, k, 0, 0, 7, NPAGES) && |owner| == |refcount| == NPAGES
    requires forall t :: k <= t < k + 5 ==> Private(owner, refcount, PO_KERNEL, t)
    ensures OwnedTree(m, owner, refcount, k, PO_KERNEL)
  {
    LinkedClean(linked, k);
    LeafChangeClean(linked, m, k);
    forall t | IsTable(m, k, t) ensures Private(owner, refcount, PO_KERNEL, t) {
      KernelTableFrames(linked, m, k, t);
    }
  }

  /** After virtual_memory_init and pageinfo_init, with no process yet, the
      invariant holds. */
  lemma {:induction false} BootInv(linked: seq<byte>, s: K)
    requires ImageOk(s.image, s.kroot)
    requires Linked(linked, s.kroot) && Mapped(linked, s.mem, s.kroot, 0, 0, 7, NPAGES)
    requires Initial(s.owner, s.refcount, s.image, NPAGES)
    requires |s.procs| == NPROC && forall pid :: 0 <= pid < NPROC ==> s.procs[pid].state == P_FREE
    ensures Inv(s)
  {
    InitialFrames(s.owner, s.refcount, s.image, s.kroot);
    BootTree(linked, s.mem, s.kroot, s.owner, s.refcount);
    AllIdentityPages(linked, s.mem, s.kroot, s.image);
  }
}
