/** check_virtual_memory and its helpers. A failed assertion of theirs is the
    result false. */
module KernelChecks {
  import opened Bytes
  import opened Options
  import opened PageTables
  import opened VirtualMemory
  import opened KernelTables
  import opened KernelState
  import opened KernelMemory

  // ----- check_page_table_mappings -----

  /** The two assertions about page `v`; it must be writable if it is at or above `data`. */
  ghost predicate KernelPageSeen(m: seq<byte>, root: nat, v: nat, data: nat)
    requires |m| == MEMSIZE_PHYSICAL && root < NPAGES && v < NPAGES
  {
    var vam := Lookup(m, root, 4096 * v);
    vam.pa == 4096 * v && (v >= data ==> HasW(vam.perm))
  }

  /** The assertions of check_page_table_mappings: the kernel's image and stack. */
  ghost predicate KernelPagesSeen(m: seq<byte>, root: nat, image: Image)
    requires |m| == MEMSIZE_PHYSICAL && root < NPAGES && image.end <= NPAGES
  {
    && (forall v :: KERNEL_START_ADDR / 4096 <= v < image.end ==> KernelPageSeen(m, root, v, image.data))
    && KernelPageSeen(m, root, KERNEL_STACK_TOP / 4096 - 1, 0)
  }

  /** The walks for those pages stay in memory. */
  ghost predicate KernelWalksOk(m: seq<byte>, root: nat, image: Image) {
    && |m| == MEMSIZE_PHYSICAL && 0 < root < NPAGES && image.end <= NPAGES
    && (forall v :: KERNEL_START_ADDR / 4096 <= v < image.end ==> WalkOk(m, root, v))
    && WalkOk(m, root, KERNEL_STACK_TOP / 4096 - 1)
  }

  lemma {:induction false} TreePageSeen(m: seq<byte>, root: nat, va: u64, v: nat, data: nat)
    requires Tree(m, root) && v < NPAGES && va == 4096 * v
    ensures WalkOk(m, root, v)
    ensures KernelPageSeen(m, root, v, data) <==> KernelPageOk(m, root, v, data)
  {
    PageIs(va, v);
    TreeLookup(m, root, va);
    var e := Leaf(m, root, v);
    if e.Some? { SeenMapping(e.value, va, v); }
  }

  lemma {:induction false} SeenMapping(e: nat, va: u64, v: nat)
    requires v < NPAGES && va == 4096 * v
    ensures var vam := ToMapping(e, va);
      && (vam.pa == va <==> HasP(e) && FrameOf(e) == v)
      && (HasW(vam.perm) <==> HasP(e) && HasW(e))
  {
    FlagsBits(e);
    assert va % 4096 == 0;
    assert 4096 * FrameOf(e) == va <==> FrameOf(e) == v;
  }

  /** On a well-formed tree the assertions say what the last-level entries are. */
  lemma {:induction false} TreePagesSeen(m: seq<byte>, root: nat, image: Image)
    requires Tree(m, root) && image.end <= NPAGES
    ensures KernelWalksOk(m, root, image)
    ensures KernelPagesSeen(m, root, image) <==> KernelPagesOk(m, root, image)
  {
    forall v | KERNEL_START_ADDR / 4096 <= v < image.end
      ensures WalkOk(m, root, v)
      ensures KernelPageSeen(m, root, v, image.data) <==> KernelPageOk(m, root, v, image.data)
    {
      TreePageSeen(m, root, 4096 * v, v, image.data);
    }
    TreePageSeen(m, root, KERNEL_STACK_TOP - 4096, KERNEL_STACK_TOP / 4096 - 1, 0);
  }

  /** The loop condition `va < end` and the test `va >= start_data`, on pages. */
  method CheckPageTableMappings(mem: array<byte>, pt: nat, image: Image) returns (ok: bool)
    requires KernelWalksOk(mem[..], pt, image)
    ensures ok <==> KernelPagesSeen(mem[..], pt, image)
  {
    var v := KERNEL_START_ADDR / 4096;
    while v < image.end
      invariant KERNEL_START_ADDR / 4096 <= v
      invariant forall u :: KERNEL_START_ADDR / 4096 <= u < v && u < image.end ==> KernelPageSeen(mem[..], pt, u, image.data)
    {
      ok := CheckMapping(mem, pt, v, image.data);
      if !ok {
        return;
      }
      v := v + 1;
    }
    ok := CheckMapping(mem, pt, KERNEL_STACK_TOP / 4096 - 1, 0);
  }

  /** The lookup and the two assertions for page `v`. */
  method CheckMapping(mem: array<byte>, pt: nat, v: nat, data: nat) returns (ok: bool)
    requires WalkOk(mem[..], pt, v) && v < NPAGES
    ensures ok <==> KernelPageSeen(mem[..], pt, v, data)
  {
    PageIs(4096 * v, v);
    var vam := VirtualMemoryLookup(mem, pt, 4096 * v);
    return vam.pa == 4096 * v && (v < data || HasW(vam.perm));
  }

  // ----- check_page_table_ownership -----

  /** What check_page_table_ownership_level finds from the table `t` of level `k` down. */
  ghost predicate OwnershipOk(m: seq<byte>, owner: seq<int>, refcount: seq<int>, t: nat, k: nat, o: int, rc: int)
    requires |m| == MEMSIZE_PHYSICAL && |owner| == |refcount| == NPAGES && k <= 3
    decreases 3 - k
  {
    && t < NPAGES && owner[t] == o && refcount[t] == rc
    && (k < 3 ==> forall i :: 0 <= i < NENTRIES ==> EntryOwnershipOk(m, owner, refcount, t, k, o, i))
  }

  ghost predicate EntryOwnershipOk(m: seq<byte>, owner: seq<int>, refcount: seq<int>, t: nat, k: nat, o: int, i: nat)
    requires |m| == MEMSIZE_PHYSICAL && |owner| == |refcount| == NPAGES && k < 3 && t < NPAGES && i < NENTRIES
    decreases 3 - k, 0
  {
    Entry(m, t, i) != 0 ==> OwnershipOk(m, owner, refcount, FrameOf(Entry(m, t, i)), k + 1, o, 1)
  }

  method CheckPageTableOwnershipLevel(mem: array<byte>, owner: array<int>, refcount: array<int>,
                                      pt: nat, level: nat, o: int, rc: int) returns (ok: bool)
    requires mem.Length == MEMSIZE_PHYSICAL && owner.Length == refcount.Length == NPAGES && level <= 3
    ensures ok <==> OwnershipOk(mem[..], owner[..], refcount[..], pt, level, o, rc)
    decreases 3 - level
  {
    if pt >= NPAGES || owner[pt] != o || refcount[pt] != rc {
      return false;
    }
    if level < 3 {
      for index := 0 to NENTRIES
        invariant forall i :: 0 <= i < index ==>
          EntryOwnershipOk(mem[..], owner[..], refcount[..], pt, level, o, i)
      {
        var pe := Load(mem[..], 4096 * pt + 8 * index, 8);
        if pe != 0 {
          var below := CheckPageTableOwnershipLevel(mem, owner, refcount, FrameOf(pe), level + 1, o, 1);
          if !below {
            assert !EntryOwnershipOk(mem[..], owner[..], refcount[..], pt, level, o, index);
            return false;
          }
        }
      }
    }
    return true;
  }

  /** The prefix `q` with one more digit. */
  function Extend(q: nat, i: nat): nat {
    512 * q + i
  }

  /** The tables at and below the node of level `k` and prefix `q`. */
  ghost predicate Below(m: seq<byte>, root: nat, k: nat, q: nat, t: nat)
    requires |m| == MEMSIZE_PHYSICAL && root < NPAGES && k <= 3
    decreases 3 - k
  {
    && IsNode(m, root, k, q)
    && (Node(m, root, k, q) == Some(t) || (k < 3 && exists i :: 0 <= i < NENTRIES && Below(m, root, k + 1, Extend(q, i), t)))
  }

  /** Every table at or below that node belongs to `o` alone. */
  ghost predicate AllPrivate(m: seq<byte>, owner: seq<int>, refcount: seq<int>, root: nat, k: nat, q: nat, o: int)
    requires |m| == MEMSIZE_PHYSICAL && root < NPAGES && k <= 3 && |owner| == |refcount| == NPAGES
  {
    forall t :: Below(m, root, k, q, t) ==> Private(owner, refcount, o, t)
  }

  lemma {:induction false} ChildNode(m: seq<byte>, root: nat, k: nat, q: nat, i: nat)
    requires Tree(m, root) && Clean(m, root) && IsNode(m, root, k, q) && k < 3 && i < NENTRIES
    ensures Extend(q, i) / 512 == q && Extend(q, i) % 512 == i && Extend(q, i) < Digits(k + 1)
    ensures var e := Entry(m, Node(m, root, k, q).value, i);
      if e == 0 then Node(m, root, k + 1, Extend(q, i)) == None
      else IsNode(m, root, k + 1, Extend(q, i)) && Node(m, root, k + 1, Extend(q, i)) == Some(FrameOf(e))
  {
    var e := Entry(m, Node(m, root, k, q).value, i);
    assert Extend(q, i) / 512 == q && Extend(q, i) % 512 == i;
    assert Node(m, root, k + 1, Extend(q, i)) == Child(e);
    assert InteriorOk(e);
  }

  lemma {:induction false} AllPrivateBelow(m: seq<byte>, owner: seq<int>, refcount: seq<int>, root: nat,
                                           k: nat, q: nat, o: int)
    requires |m| == MEMSIZE_PHYSICAL && root < NPAGES && k < 3
    requires |owner| == |refcount| == NPAGES && IsNode(m, root, k, q)
    ensures AllPrivate(m, owner, refcount, root, k, q, o) <==>
      && Private(owner, refcount, o, Node(m, root, k, q).value)
      && forall i :: 0 <= i < NENTRIES ==> AllPrivate(m, owner, refcount, root, k + 1, Extend(q, i), o)
  {
    var n := Node(m, root, k, q).value;
    assert Below(m, root, k, q, n);
    if AllPrivate(m, owner, refcount, root, k, q, o) {
      forall i | 0 <= i < NENTRIES ensures AllPrivate(m, owner, refcount, root, k + 1, Extend(q, i), o) {
        forall t | Below(m, root, k + 1, Extend(q, i), t) ensures Below(m, root, k, q, t) {
        }
      }
    }
    if Private(owner, refcount, o, n)
       && forall i :: 0 <= i < NENTRIES ==> AllPrivate(m, owner, refcount, root, k + 1, Extend(q, i), o) {
      forall t | Below(m, root, k, q, t) ensures Private(owner, refcount, o, t) {
        if t != n {
          var i :| 0 <= i < NENTRIES && Below(m, root, k + 1, Extend(q, i), t);
        }
      }
    }
  }

  /** The recursive check passes for a table exactly when every table at or below
      it is owned as it should be. */
  lemma {:induction false} OwnershipBelow(m: seq<byte>, owner: seq<int>, refcount: seq<int>, root: nat, k: nat,
                                          q: nat, o: int)
    requires Tree(m, root) && Clean(m, root) && |owner| == |refcount| == NPAGES && IsNode(m, root, k, q)
    ensures OwnershipOk(m, owner, refcount, Node(m, root, k, q).value, k, o, 1) <==>
            AllPrivate(m, owner, refcount, root, k, q, o)
    decreases 3 - k
  {
    var n := Node(m, root, k, q).value;
    if k < 3 {
      AllPrivateBelow(m, owner, refcount, root, k, q, o);
      forall i | 0 <= i < NENTRIES
        ensures EntryOwnershipOk(m, owner, refcount, n, k, o, i) <==>
                AllPrivate(m, owner, refcount, root, k + 1, Extend(q, i), o)
      {
        ChildNode(m, root, k, q, i);
        if Entry(m, n, i) != 0 { OwnershipBelow(m, owner, refcount, root, k + 1, Extend(q, i), o); }
      }
    } else {
      assert Below(m, root, k, q, n);
    }
  }

  lemma {:induction false} BelowUp(m: seq<byte>, root: nat, k: nat, q: nat, t: nat)
    requires |m| == MEMSIZE_PHYSICAL && root < NPAGES && k <= 3 && Below(m, root, k, q, t)
    ensures Below(m, root, 0, 0, t)
    decreases k
  {
    if k > 0 {
      assert IsNode(m, root, k - 1, q / 512) && q == Extend(q / 512, q % 512);
      assert Below(m, root, k - 1, q / 512, t);
      BelowUp(m, root, k - 1, q / 512, t);
    }
  }

  lemma {:induction false} BelowIsTable(m: seq<byte>, root: nat, k: nat, q: nat, t: nat)
    requires |m| == MEMSIZE_PHYSICAL && root < NPAGES && k <= 3 && Below(m, root, k, q, t)
    ensures IsTable(m, root, t)
    decreases 3 - k
  {
    if Node(m, root, k, q) != Some(t) {
      var i :| 0 <= i < NENTRIES && Below(m, root, k + 1, Extend(q, i), t);
      BelowIsTable(m, root, k + 1, Extend(q, i), t);
    }
  }

  /** check_page_table_ownership passes for a tree exactly when every table of it
      is the owner's alone. */
  lemma {:induction false} OwnershipMeansPrivate(m: seq<byte>, owner: seq<int>, refcount: seq<int>, root: nat, o: int)
    requires Tree(m, root) && Clean(m, root) && |owner| == |refcount| == NPAGES
    ensures OwnershipOk(m, owner, refcount, root, 0, o, 1) <==> OwnedTree(m, owner, refcount, root, o)
  {
    assert IsNode(m, root, 0, 0);
    OwnershipBelow(m, owner, refcount, root, 0, 0, o);
    forall t: nat ensures IsTable(m, root, t) <==> Below(m, root, 0, 0, t) {
      if Below(m, root, 0, 0, t) { BelowIsTable(m, root, 0, 0, t); }
      if IsTable(m, root, t) {
        var k, q :| IsNode(m, root, k, q) && Node(m, root, k, q) == Some(t);
        assert Below(m, root, k, q, t);
        BelowUp(m, root, k, q, t);
      }
    }
  }

  // ----- check_virtual_memory -----

  /** The processes that use the kernel's own page table, among the first `n`. */
  function KernelTableUsers(procs: seq<Proc>, kroot: nat, n: nat): nat
    requires n <= |procs|
  {
    if n == 0 then 0
    else
      KernelTableUsers(procs, kroot, n - 1)
      + if procs[n - 1].state != P_FREE && procs[n - 1].pagetable == kroot then 1 else 0
  }

  /** What check_virtual_memory reads is there to be read. */
  ghost predicate Checkable(s: K) {
    && Shape(s) && KernelWalksOk(s.mem, s.kroot, s.image)
    && (forall pid :: 0 <= pid < NPROC && s.procs[pid].state != P_FREE ==>
         KernelWalksOk(s.mem, s.procs[pid].pagetable, s.image))
    && (forall f :: 0 <= f < NPAGES && s.refcount[f] > 0 ==> s.owner[f] < NPROC)
  }

  ghost predicate TableOk(s: K, root: nat, o: int, rc: int)
    requires Shape(s) && root < NPAGES
  {
    && KernelPagesSeen(s.mem, root, s.image)
    && OwnershipOk(s.mem, s.owner, s.refcount, root, 0, o, rc)
  }

  /** The assertions of check_virtual_memory. */
  ghost predicate Checked(s: K)
    requires Checkable(s)
  {
    && s.procs[0].state == P_FREE
    && TableOk(s, s.kroot, PO_KERNEL, 1 + KernelTableUsers(s.procs, s.kroot, NPROC))
    && ProcsChecked(s, NPROC)
    && (forall pn :: 0 <= pn < NPAGES ==> FrameChecked(s, pn))
  }

  ghost predicate ProcsChecked(s: K, n: nat)
    requires Checkable(s) && n <= NPROC
  {
    forall pid :: 0 <= pid < n ==> ProcChecked(s, pid)
  }

  lemma {:induction false} ProcsMore(s: K, pid: nat)
    requires Checkable(s) && pid < NPROC
    ensures ProcsChecked(s, pid + 1) <==> ProcsChecked(s, pid) && ProcChecked(s, pid)
    ensures ProcsChecked(s, NPROC) ==> ProcChecked(s, pid)
  {
  }

  ghost predicate ProcChecked(s: K, pid: nat)
    requires Checkable(s) && pid < NPROC
  {
    s.procs[pid].state != P_FREE && s.procs[pid].pagetable != s.kroot ==> TableOk(s, s.procs[pid].pagetable, pid, 1)
  }

  predicate FrameChecked(s: K, pn: nat)
    requires |s.owner| == |s.refcount| == NPAGES && |s.procs| == NPROC && pn < NPAGES
    requires s.refcount[pn] > 0 ==> s.owner[pn] < NPROC
  {
    s.refcount[pn] > 0 && s.owner[pn] >= 0 ==> s.procs[s.owner[pn]].state != P_FREE
  }

  lemma {:induction false} NoKernelTableUsers(s: K, n: nat)
    requires Inv(s) && n <= NPROC
    ensures KernelTableUsers(s.procs, s.kroot, n) == 0
  {
    if n > 0 {
      NoKernelTableUsers(s, n - 1);
      if s.procs[n - 1].state != P_FREE { OwnRoot(s, n - 1); }
    }
  }

  /** A process's root table is not the kernel's. */
  lemma {:induction false} OwnRoot(s: K, pid: nat)
    requires Inv(s) && pid < NPROC && s.procs[pid].state != P_FREE
    ensures s.procs[pid].pagetable != s.kroot
  {
    LiveOk(s, pid);
    RootIsTable(s.mem, s.kroot);
    RootIsTable(s.mem, s.procs[pid].pagetable);
    assert Private(s.owner, s.refcount, PO_KERNEL, s.kroot);
    assert Private(s.owner, s.refcount, pid, s.procs[pid].pagetable);
  }

  lemma {:induction false} RootIsTable(m: seq<byte>, root: nat)
    requires |m| == MEMSIZE_PHYSICAL && root < NPAGES
    ensures IsTable(m, root, root)
  {
    assert IsNode(m, root, 0, 0);
  }

  lemma {:induction false} InvCheckable(s: K)
    requires Inv(s)
    ensures Checkable(s)
  {
    hide WalkOk, Unaliased, Clean;
    TreePagesSeen(s.mem, s.kroot, s.image);
    forall pid | 0 <= pid < NPROC && s.procs[pid].state != P_FREE
      ensures KernelWalksOk(s.mem, s.procs[pid].pagetable, s.image)
    {
      LiveBasics(s, pid);
      TreePagesSeen(s.mem, s.procs[pid].pagetable, s.image);
    }
  }

  lemma {:induction false} ProcCheckPasses(s: K, pid: nat)
    requires Inv(s) && Checkable(s) && pid < NPROC
    ensures ProcChecked(s, pid)
  {
    if s.procs[pid].state != P_FREE {
      LiveOk(s, pid);
      TreePagesSeen(s.mem, s.procs[pid].pagetable, s.image);
      OwnershipMeansPrivate(s.mem, s.owner, s.refcount, s.procs[pid].pagetable, pid);
    }
  }

  /** In a state that satisfies the invariant no assertion of check_virtual_memory fails. */
  lemma {:induction false} InvChecked(s: K)
    requires Inv(s)
    ensures Checkable(s) && Checked(s)
  {
    InvCheckable(s);
    NoKernelTableUsers(s, NPROC);
    TreePagesSeen(s.mem, s.kroot, s.image);
    OwnershipMeansPrivate(s.mem, s.owner, s.refcount, s.kroot, PO_KERNEL);
    forall pid | 0 <= pid < NPROC ensures ProcChecked(s, pid) { ProcCheckPasses(s, pid); }
    forall pn | 0 <= pn < NPAGES ensures FrameChecked(s, pn) { }
  }

  /** The tables that check_virtual_memory looks at are well-formed, and the kernel's are its own. */
  ghost predicate TreesOnly(s: K) {
    && Shape(s) && Tree(s.mem, s.kroot) && Clean(s.mem, s.kroot)
    && (forall pid :: 0 <= pid < NPROC && s.procs[pid].state != P_FREE ==>
         && Tree(s.mem, s.procs[pid].pagetable) && Clean(s.mem, s.procs[pid].pagetable)
         && s.procs[pid].pagetable != s.kroot)
    && (forall f :: 0 <= f < NPAGES && s.refcount[f] > 0 ==> s.owner[f] < NPROC)
  }

  lemma {:induction false} TreesCheckable(s: K)
    requires TreesOnly(s)
    ensures Checkable(s)
  {
    TreePagesSeen(s.mem, s.kroot, s.image);
    forall pid | 0 <= pid < NPROC && s.procs[pid].state != P_FREE
      ensures KernelWalksOk(s.mem, s.procs[pid].pagetable, s.image)
    {
      TreePagesSeen(s.mem, s.procs[pid].pagetable, s.image);
    }
  }

  lemma {:induction false} NoUsers(s: K, n: nat)
    requires TreesOnly(s) && n <= NPROC
    ensures KernelTableUsers(s.procs, s.kroot, n) == 0
  {
    if n > 0 { NoUsers(s, n - 1); }
  }

  /** What check_virtual_memory catches, for well-formed tables: it passes if and only if no
      process has number 0, every table tree is its owner's alone and has the kernel's pages
      in place, and no frame in use belongs to a process that is not. */
  lemma {:induction false} CheckedExactly(s: K)
    requires TreesOnly(s)
    ensures Checkable(s)
    ensures Checked(s) <==>
      && s.procs[0].state == P_FREE
      && KernelPagesOk(s.mem, s.kroot, s.image) && OwnedTree(s.mem, s.owner, s.refcount, s.kroot, PO_KERNEL)
      && (forall pid :: 0 <= pid < NPROC && s.procs[pid].state != P_FREE ==>
           && KernelPagesOk(s.mem, s.procs[pid].pagetable, s.image)
           && OwnedTree(s.mem, s.owner, s.refcount, s.procs[pid].pagetable, pid))
      && (forall f :: 0 <= f < NPAGES && s.refcount[f] > 0 && s.owner[f] >= 0 ==> s.procs[s.owner[f]].state != P_FREE)
  {
    hide Unaliased, InteriorOk, Clean, OwnedTree, OwnershipOk, KernelPagesOk, KernelPagesSeen, KernelWalksOk;
    TreesCheckable(s);
    NoUsers(s, NPROC);
    TreePagesSeen(s.mem, s.kroot, s.image);
    OwnershipMeansPrivate(s.mem, s.owner, s.refcount, s.kroot, PO_KERNEL);
    forall pid | 0 <= pid < NPROC && s.procs[pid].state != P_FREE
      ensures ProcChecked(s, pid) <==>
        && KernelPagesOk(s.mem, s.procs[pid].pagetable, s.image)
        && OwnedTree(s.mem, s.owner, s.refcount, s.procs[pid].pagetable, pid)
    {
      TreePagesSeen(s.mem, s.procs[pid].pagetable, s.image);
      OwnershipMeansPrivate(s.mem, s.owner, s.refcount, s.procs[pid].pagetable, pid);
    }
    assert forall f :: 0 <= f < NPAGES ==>
      (FrameChecked(s, f) <==> (s.refcount[f] > 0 && s.owner[f] >= 0 ==> s.procs[s.owner[f]].state != P_FREE));
  }

  /** check_page_table_ownership */
  method CheckPageTableOwnership(mem: array<byte>, owner: array<int>, refcount: array<int>, processes: array<Proc>,
                                 kernelPagetable: nat, pt: nat, pid: int) returns (ok: bool)
    requires mem.Length == MEMSIZE_PHYSICAL && owner.Length == refcount.Length == NPAGES && processes.Length == NPROC
    ensures ok <==> OwnershipOk(mem[..], owner[..], refcount[..], pt, 0,
      if pt == kernelPagetable then PO_KERNEL else pid,
      if pt == kernelPagetable then 1 + KernelTableUsers(processes[..], kernelPagetable, NPROC) else 1)
  {
    var o, expectedRefcount := pid, 1;
    if pt == kernelPagetable {
      o := PO_KERNEL;
      for xpid := 0 to NPROC
        invariant expectedRefcount == 1 + KernelTableUsers(processes[..], kernelPagetable, xpid)
      {
        if processes[xpid].state != P_FREE && processes[xpid].pagetable == kernelPagetable {
          expectedRefcount := expectedRefcount + 1;
        }
      }
    }
    ok := CheckPageTableOwnershipLevel(mem, owner, refcount, pt, 0, o, expectedRefcount);
  }

  /** The checks of one page table. */
  method CheckTable(mem: array<byte>, owner: array<int>, refcount: array<int>, processes: array<Proc>,
                    kernelPagetable: nat, image: Image, pt: nat, pid: int, ghost s: K) returns (ok: bool)
    requires s == K(mem[..], owner[..], refcount[..], processes[..], kernelPagetable, image)
    requires Checkable(s) && KernelWalksOk(s.mem, pt, image)
    ensures ok <==> TableOk(s, pt, if pt == kernelPagetable then PO_KERNEL else pid,
      if pt == kernelPagetable then 1 + KernelTableUsers(s.procs, kernelPagetable, NPROC) else 1)
  {
    ok := CheckPageTableMappings(mem, pt, image);
    if ok {
      ok := CheckPageTableOwnership(mem, owner, refcount, processes, kernelPagetable, pt, pid);
    }
  }

  method CheckVirtualMemory(mem: array<byte>, owner: array<int>, refcount: array<int>, processes: array<Proc>,
                            kernelPagetable: nat, image: Image, ghost s: K) returns (ok: bool)
    requires s == K(mem[..], owner[..], refcount[..], processes[..], kernelPagetable, image)
    requires Checkable(s)
    ensures ok <==> Checked(s)
  {
    if processes[0].state != P_FREE {
      return false;
    }
    var table := CheckTable(mem, owner, refcount, processes, kernelPagetable, image, kernelPagetable, -1, s);
    if !table {
      return false;
    }
    table := CheckProcesses(mem, owner, refcount, processes, kernelPagetable, image, s);
    if !table {
      return false;
    }
    ok := CheckFrames(owner, refcount, processes, s);
  }

  method CheckProcesses(mem: array<byte>, owner: array<int>, refcount: array<int>, processes: array<Proc>,
                        kernelPagetable: nat, image: Image, ghost s: K) returns (ok: bool)
    requires s == K(mem[..], owner[..], refcount[..], processes[..], kernelPagetable, image) && Checkable(s)
    ensures ok <==> ProcsChecked(s, NPROC)
  {
    for pid := 0 to NPROC
      invariant ProcsChecked(s, pid)
    {
      ProcsMore(s, pid);
      ok := CheckProcess(mem, owner, refcount, processes, kernelPagetable, image, pid, s);
      if !ok {
        return;
      }
    }
    return true;
  }

  /** A process that is in use and has page tables of its own. */
  method CheckProcess(mem: array<byte>, owner: array<int>, refcount: array<int>, processes: array<Proc>,
                      kernelPagetable: nat, image: Image, pid: nat, ghost s: K) returns (ok: bool)
    requires s == K(mem[..], owner[..], refcount[..], processes[..], kernelPagetable, image)
    requires Checkable(s) && pid < NPROC
    ensures ok <==> ProcChecked(s, pid)
  {
    if processes[pid].state == P_FREE || processes[pid].pagetable == kernelPagetable {
      return true;
    }
    ok := CheckTable(mem, owner, refcount, processes, kernelPagetable, image, processes[pid].pagetable, pid, s);
  }

  /** Every frame in use that names a process names one that is in use. */
  method CheckFrames(owner: array<int>, refcount: array<int>, processes: array<Proc>, ghost s: K) returns (ok: bool)
    requires s.owner == owner[..] && s.refcount == refcount[..] && s.procs == processes[..] && Checkable(s)
    ensures ok <==> forall pn :: 0 <= pn < NPAGES ==> FrameChecked(s, pn)
  {
    for pn := 0 to NPAGES
      invariant forall f :: 0 <= f < pn ==> FrameChecked(s, f)
    {
      if refcount[pn] > 0 && owner[pn] >= 0 && processes[owner[pn]].state == P_FREE {
        assert !FrameChecked(s, pn);
        return false;
      }
    }
    return true;
  }

  // ----- set_pagetable -----

  lemma {:induction false} PageMapsItself(m: seq<byte>, root: nat, va: u64, data: nat)
    requires Tree(m, root) && va < MEMSIZE_PHYSICAL && KernelPageOk(m, root, PageOf(va), data)
    ensures MapsItself(m, root, va)
  {
    TreeLookup(m, root, va);
    PageOfLow(va);
  }

  /** The pages of the kernel's image are at their own addresses under every table that
      the kernel runs on. */
  lemma {:induction false} ImageMapsItself(m: seq<byte>, root: nat, image: Image, va: u64)
    requires Tree(m, root) && KernelPagesOk(m, root, image) && image.end <= NPAGES
    requires KERNEL_START_ADDR <= va < 4096 * image.end
    ensures MapsItself(m, root, va)
  {
    PageOfLow(va);
    assert KernelPageOk(m, root, PageOf(va), image.data);
    PageMapsItself(m, root, va, image.data);
  }

  lemma {:induction false} TableMapsItself(s: K, root: nat)
    requires Inv(s) && root < NPAGES
    ensures MapsItself(s.mem, s.kroot, 4096 * root)
  {
    PageIs(4096 * root, root);
    assert KernelPageOk(s.mem, s.kroot, root, 0);
    PageMapsItself(s.mem, s.kroot, 4096 * root, 0);
  }

  /** No assertion of set_pagetable fails for a table of the kernel or of a process. */
  lemma {:induction false} InvInstallable(s: K, root: nat)
    requires Inv(s) && Tree(s.mem, root) && KernelPagesOk(s.mem, root, s.image)
    ensures Installable(s.mem, s.kroot, root, s.image.handler, s.image.mapper)
    ensures WalksOk(s.mem, s.kroot, root, s.image.handler, s.image.mapper)
  {
    ImageMapsItself(s.mem, root, s.image, s.image.handler);
    ImageMapsItself(s.mem, root, s.image, s.image.mapper);
    ImageMapsItself(s.mem, root, s.image, 4096 * s.kroot);
    TableMapsItself(s, root);
  }
}
