/** Whole runs of an allocator, C or Rust: a program that calls it in any order,
    with pointers it owns, sees independent buffers. */
module HeapRuns {
  import opened Bytes
  import opened Options
  import opened Blocks
  import opened HeapSpec
  import opened Sorting
  import opened HeapSort
  import opened HeapInfoSpec
  import Coalescing
  import Placement
  import Sbrk

  datatype Op =
    | MallocOp(size: u64, result: nat)
    | CallocOp(num: u64, size: u64, result: nat)
    | FreeOp(p: nat)
    | ReallocOp(p: nat, size: u64, result: nat)
    | DefragOp
    | HeapInfoOp(info: HeapInfo)
    | WriteOp(p: nat, offset: nat, value: byte)

  ghost predicate ValidPointer(h: Heap, p: nat) {
    p == 0 || Live(h, p).Some?
  }

  ghost predicate Step(h: Heap, h': Heap, op: Op) {
    match op
    case MallocOp(sz, p) => Keeps(h, sz) && MallocStep(h, h', sz, p)
    case CallocOp(num, sz, p) => (num * sz < TWO64 ==> Keeps(h, num * sz)) && CallocStep(h, h', num, sz, p)
    case FreeOp(p) => ValidPointer(h, p) && FreeStep(h, h', p)
    case ReallocOp(p, sz, r) => Keeps(h, sz) && ValidPointer(h, p) && ReallocStep(h, h', p, sz, r)
    case DefragOp => DefragStep(h, h')
    case HeapInfoOp(info) => exists u, pairs :: InfoStep(h, u, h', info, pairs)
    case WriteOp(p, i, v) => WriteStep(h, h', p, i, v)
  }

  ghost predicate Run(hs: seq<Heap>, ops: seq<Op>) {
    && |hs| == |ops| + 1 && WellFormed(hs[0])
    && forall i :: 0 <= i < |ops| ==> Step(hs[i], hs[i + 1], ops[i])
  }

  /** The operation gives up the block at `q`. */
  predicate Releases(op: Op, q: nat) {
    match op
    case FreeOp(p) => p == q
    case ReallocOp(p, sz, r) => p == q && (sz == 0 || r != 0)
    case _ => false
  }

  /** The payload bytes of the block at `q`. */
  function Content(h: Heap, q: nat): seq<byte>
    requires Live(h, q).Some? && Live(h, q).value.size >= Header(h) && q + Live(h, q).value.size - Header(h) <= |h.mem|
  {
    h.mem[q..q + Live(h, q).value.size - Header(h)]
  }

  /** What a buffer of the program's own would hold after the same operations. */
  function Written(content: seq<byte>, op: Op, q: nat): seq<byte> {
    if op.WriteOp? && op.p == q && op.offset < |content| then content[op.offset := op.value] else content
  }

  function AllWritten(content: seq<byte>, ops: seq<Op>, q: nat): seq<byte>
    decreases |ops|
  {
    if ops == [] then content
    else Written(AllWritten(content, ops[..|ops| - 1], q), ops[|ops| - 1], q)
  }

  // ----- one step -----

  lemma {:induction false} WriteWellFormed(h: Heap, h': Heap, p: nat, i: nat, v: byte)
    requires WellFormed(h) && WriteStep(h, h', p, i, v)
    ensures WellFormed(h') && SameBlocks(h, h') && KeptBut(h, h', {p})
  {
    assert Owns(h, p, p + i);
    assert WritesIn(h, h', {p}) by {
      forall x | 0 <= x < |h.mem| && h.mem[x] != h'.mem[x] ensures WrittenIn(h, {p}, x) {
        assert x == p + i;
      }
    }
    WritesKeep(h, h', {p});
  }

  lemma {:induction false} StepWellFormed(h: Heap, h': Heap, op: Op)
    requires WellFormed(h) && Step(h, h', op)
    ensures WellFormed(h') && SameSpace(h, h')
  {
    match op {
      case WriteOp(p, i, v) => WriteWellFormed(h, h', p, i, v);
      case _ =>
    }
  }

  /** No operation moves, resizes or frees a block it was not asked to release. */
  lemma {:induction false} StepKeepsBlock(h: Heap, h': Heap, op: Op, q: nat)
    requires WellFormed(h) && Step(h, h', op) && Live(h, q).Some? && !Releases(op, q)
    ensures Live(h', q) == Live(h, q)
  {
    match op {
      case MallocOp(sz, p) => MallocKeeps(h, h', sz, p, q);
      case CallocOp(num, sz, p) => CallocKeeps(h, h', num, sz, p, q);
      case FreeOp(p) => FreeKeeps(h, h', p, q);
      case ReallocOp(p, sz, r) => ReallocKeeps(h, h', p, sz, r, q);
      case DefragOp => DefragKeeps(h, h', q);
      case HeapInfoOp(info) =>
        var u, pairs :| InfoStep(h, u, h', info, pairs);
        InfoKeeps(h, u, h', info, pairs, q);
      case WriteOp(p, i, v) =>
    }
  }

  lemma {:induction false} CallocKeeps(h: Heap, h': Heap, num: nat, sz: nat, p: nat, q: nat)
    requires WellFormed(h) && CallocStep(h, h', num, sz, p) && Live(h, q).Some?
    ensures Live(h', q) == Live(h, q)
  {
    if num == 0 || sz == 0 || num * sz >= TWO64 {
    } else {
      MallocKeeps(h, h', num * sz, p, q);
    }
  }

  lemma {:induction false} FreeKeeps(h: Heap, h': Heap, p: nat, q: nat)
    requires WellFormed(h) && ValidPointer(h, p) && FreeStep(h, h', p) && p != q
    ensures Live(h', q) == Live(h, q)
  {
    if p != 0 { FreeMeaning(h, h', p); }
  }

  lemma {:induction false} MallocKeeps(h: Heap, h': Heap, sz: nat, p: nat, q: nat)
    requires WellFormed(h) && MallocStep(h, h', sz, p) && Live(h, q).Some?
    ensures Live(h', q) == Live(h, q)
  {
    if sz > 0 && p != 0 {
      var b := MallocMeaning(h, h', sz, p);
    }
  }

  lemma {:induction false} DefragKeeps(h: Heap, h': Heap, q: nat)
    requires WellFormed(h) && DefragStep(h, h')
    ensures Live(h', q) == Live(h, q)
  {
    Coalescing.CoalesceLiveAt(h.format, h.start, h.blocks, q);
  }

  lemma {:induction false} InfoKeeps(h: Heap, u: Heap, h': Heap, info: HeapInfo, pairs: seq<Pair>, q: nat)
    requires WellFormed(h) && InfoStep(h, u, h', info, pairs) && Live(h, q).Some?
    ensures Live(h', q) == Live(h, q)
  {
    if info.ret == 0 { assert Live(h', q) == Live(u, q); }
  }

  /** The blocks in use after realloc: the new one comes, the old one goes. */
  lemma {:induction false} ReallocKeeps(h: Heap, h': Heap, p: nat, sz: nat, r: nat, q: nat)
    requires WellFormed(h) && ValidPointer(h, p) && ReallocStep(h, h', p, sz, r)
    requires Live(h, q).Some? && !(p == q && (sz == 0 || r != 0))
    ensures Live(h', q) == Live(h, q)
  {
    hide Kept, CopiedBytes, Carve, FirstFit, Placement.Place, Placement.Fresh, Tiled;
    if p == 0 {
      MallocKeeps(h, h', sz, r, q);
    } else if sz == 0 {
      FreeMeaning(h, h', p);
    } else if r != 0 {
      var b := Placement.PlaceLive(h.format, h.start, h.blocks, sz, CanGrow(h, sz));
      var mid := Placement.Place(h.format, h.blocks, sz, CanGrow(h, sz)).blocks;
      assert LiveAt(h.format, h.start, mid, q) == LiveAt(h.format, h.start, h.blocks, q);
      assert LiveAt(h.format, h.start, mid, p) == LiveAt(h.format, h.start, h.blocks, p);
      SetStateLive(h.format, h.start, mid, p, State.Free, q);
    }
  }

  /** Every byte of a block changes only by the program's own writes to it,
      even while other blocks are allocated, copied, freed, merged or sorted. */
  lemma {:induction false} StepContent(h: Heap, h': Heap, op: Op, q: nat)
    requires WellFormed(h) && Step(h, h', op) && Live(h, q).Some? && !Releases(op, q)
    ensures Live(h', q) == Live(h, q)
    ensures Live(h, q).value.size >= Header(h) && q + Live(h, q).value.size - Header(h) <= |h.mem| == |h'.mem|
    ensures Content(h', q) == Written(Content(h, q), op, q)
  {
    StepKeepsBlock(h, h', op, q);
    LiveFacts(h, q);
    StepWellFormed(h, h', op);
    if op.WriteOp? {
      WriteWellFormed(h, h', op.p, op.offset, op.value);
      if op.p != q { KeptContent(h, h', {op.p}, q); }
    } else {
      StepKeeps(h, h', op);
      KeptIsKeptBut(h, h');
      KeptContent(h, h', {}, q);
    }
  }

  lemma {:induction false} StepKeeps(h: Heap, h': Heap, op: Op)
    requires WellFormed(h) && Step(h, h', op) && !op.WriteOp?
    ensures Kept(h, h', 0)
  {
  }

  lemma {:induction false} KeptContent(h: Heap, h': Heap, ps: set<nat>, q: nat)
    requires WellFormed(h) && KeptBut(h, h', ps) && q !in ps && Live(h, q).Some? && Live(h', q) == Live(h, q)
    requires Live(h, q).value.size >= Header(h) && q + Live(h, q).value.size - Header(h) <= |h.mem|
    ensures Content(h', q) == Content(h, q)
  {
    NullDead(h);
    var n := q + Live(h, q).value.size - Header(h);
    forall x | q <= x < n ensures h'.mem[x] == h.mem[x] { assert Owns(h, q, x); }
  }

  // ----- whole runs -----

  /** The tiling invariant holds in every state of every run. */
  lemma {:induction false} RunWellFormed(hs: seq<Heap>, ops: seq<Op>, i: nat)
    requires Run(hs, ops) && i < |hs|
    ensures WellFormed(hs[i]) && SameSpace(hs[0], hs[i])
    decreases i
  {
    if i > 0 {
      RunWellFormed(hs, ops, i - 1);
      StepWellFormed(hs[i - 1], hs[i], ops[i - 1]);
    }
  }

  ghost predicate NeverReleased(ops: seq<Op>, i: nat, j: nat, q: nat)
    requires i <= j <= |ops|
  {
    forall k :: i <= k < j ==> !Releases(ops[k], q)
  }

  /** The allocator refines independent buffers: as long as the program does not
      release a block, the block stays where it is, keeps its size, and holds
      exactly what the program has written into it. */
  lemma {:induction false} RunRefinesBuffers(hs: seq<Heap>, ops: seq<Op>, i: nat, j: nat, q: nat)
    requires Run(hs, ops) && i <= j < |hs| && Live(hs[i], q).Some? && NeverReleased(ops, i, j, q)
    ensures Live(hs[j], q) == Live(hs[i], q)
    ensures var n := Live(hs[i], q).value.size;
      && n >= Header(hs[i]) && q + n - Header(hs[i]) <= |hs[i].mem| == |hs[j].mem| && SameSpace(hs[i], hs[j])
      && Content(hs[j], q) == AllWritten(Content(hs[i], q), ops[i..j], q)
    decreases j - i
  {
    hide WellFormed, Step, Written, LiveAt;
    RunWellFormed(hs, ops, i);
    LiveFacts(hs[i], q);
    if i < j {
      RunRefinesBuffers(hs, ops, i, j - 1, q);
      RunStepContent(hs, ops, j - 1, q);
      WrittenLast(Content(hs[i], q), ops, i, j, q);
    }
  }

  lemma {:induction false} RunStepContent(hs: seq<Heap>, ops: seq<Op>, k: nat, q: nat)
    requires Run(hs, ops) && k < |ops| && Live(hs[k], q).Some? && !Releases(ops[k], q)
    ensures Live(hs[k + 1], q) == Live(hs[k], q) && SameSpace(hs[k], hs[k + 1])
    ensures var n := Live(hs[k], q).value.size;
      && n >= Header(hs[k]) && q + n - Header(hs[k]) <= |hs[k].mem| == |hs[k + 1].mem|
      && Content(hs[k + 1], q) == Written(Content(hs[k], q), ops[k], q)
  {
    RunWellFormed(hs, ops, k);
    StepContent(hs[k], hs[k + 1], ops[k], q);
    StepWellFormed(hs[k], hs[k + 1], ops[k]);
  }

  lemma {:induction false} WrittenLast(content: seq<byte>, ops: seq<Op>, i: nat, j: nat, q: nat)
    requires i < j <= |ops|
    ensures AllWritten(content, ops[i..j], q) == Written(AllWritten(content, ops[i..j - 1], q), ops[j - 1], q)
  {
    assert ops[i..j][..j - 1 - i] == ops[i..j - 1] && ops[i..j][j - 1 - i] == ops[j - 1];
  }

  /** A pointer that malloc hands out names no block in use, and its block is
      apart from every one of them. */
  lemma {:induction false} FreshPointerApart(hs: seq<Heap>, ops: seq<Op>, i: nat, q: nat)
    requires Run(hs, ops) && i < |ops| && ops[i].MallocOp? && ops[i].result != 0 && Live(hs[i], q).Some?
    ensures var p := ops[i].result;
      && Live(hs[i], p) == None && Live(hs[i + 1], p).Some? && Live(hs[i + 1], q) == Live(hs[i], q)
      && ops[i].size <= Usable(hs[i].format, Live(hs[i + 1], p).value)
      && p % 8 == 0
      && (p + Live(hs[i + 1], p).value.size <= q || q + Live(hs[i], q).value.size <= p)
  {
    RunWellFormed(hs, ops, i);
    RunWellFormed(hs, ops, i + 1);
    var p, sz := ops[i].result, ops[i].size;
    var b := MallocMeaning(hs[i], hs[i + 1], sz, p);
    assert Live(hs[i + 1], p) == Some(b);
    assert Live(hs[i + 1], q) == Live(hs[i], q);
    DisjointBlocks(hs[i + 1], p, q);
  }

  /** Every byte of the heap is a free block's or belongs to a block in use. */
  lemma {:induction false} SpaceAccounted(hs: seq<Heap>, ops: seq<Op>, i: nat)
    requires Run(hs, ops) && i < |hs|
    ensures FreeBytes(hs[i].blocks) + UsedBytes(hs[i].blocks) == hs[i].brk - hs[i].start
    ensures hs[i].original <= hs[i].start <= hs[i].brk < Sbrk.BREAK_LIMIT
  {
    RunWellFormed(hs, ops, i);
    BytesAddUp(hs[i].blocks);
  }

  function UsedBytes(bs: seq<Block>): nat {
    if bs == [] then 0 else (if bs[0].state != State.Free then bs[0].size else 0) + UsedBytes(bs[1..])
  }

  lemma {:induction false} BytesAddUp(bs: seq<Block>)
    ensures FreeBytes(bs) + UsedBytes(bs) == Sum(bs)
  {
    if bs != [] { BytesAddUp(bs[1..]); }
  }
}
