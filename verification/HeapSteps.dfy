/** The steps that both allocators are made of, on heap states: taking a free
    block, growing the heap, and merging free blocks one run at a time. */
module HeapSteps {
  import opened Bytes
  import opened Options
  import opened Sbrk
  import opened Blocks
  import opened BlockLemmas
  import opened Coalescing
  import opened Placement
  import opened HeapSpec

  lemma {:induction false} TiledTwo(f: Format, m: seq<byte>, a: nat, bs: seq<Block>)
    requires |bs| == 2 && HeaderIs(f, m, a, bs[0]) && HeaderIs(f, m, a + bs[0].size, bs[1])
    requires a + bs[0].size + bs[1].size <= |m|
    ensures Tiled(f, m, a, bs)
  {
    assert bs[1..] == [bs[1]];
    TiledOne(f, m, a + bs[0].size, bs[1]);
  }

  /** Rewriting a stretch of free blocks, or the end of the heap, touches no payload. */
  lemma {:induction false} StretchKept(h: Heap, h': Heap, pre: seq<Block>, mid: seq<Block>, post: seq<Block>, len: nat)
    requires WellFormed(h) && h.blocks == pre + (mid + post) && h'.format == h.format && |h'.mem| == |h.mem|
    requires forall i :: 0 <= i < |mid| ==> mid[i].state == Free
    requires BlocksOk(h.format, pre) && BlocksOk(h.format, mid) && BlocksOk(h.format, post)
    requires Sum(mid) == len || post == []
    requires forall x :: 0 <= x < |h.mem| && h.mem[x] != h'.mem[x] ==> h.start + Sum(pre) <= x < h.start + Sum(pre) + len
    ensures Kept(h, h', 0)
  {
    SumThree(pre, mid, post);
    forall p, x | p != 0 && 0 <= x < |h.mem| && Owns(h, p, x) ensures h'.mem[x] == h.mem[x] {
      FreeStretchDead(h.format, h.start, pre, mid, post, p, x);
      LiveRange(h.format, h.start, h.blocks, p);
    }
  }

  lemma {:induction false} FirstFitStep(h0: Heap, h1: Heap, sz: nat, n: nat)
    requires WellFormed(h0) && sz > 0 && n == FirstFit(h0.blocks, Need(h0.format, sz)) < |h0.blocks|
    requires h1 == h0.(blocks := Place(h0.format, h0.blocks, sz, false).blocks, mem := h1.mem) && |h1.mem| == |h0.mem|
    requires var a, size := h0.start + Sum(h0.blocks[..n]), h0.blocks[n].size;
      && Tiled(h0.format, h1.mem, a, Carve(h0.format, size, sz))
      && forall x :: 0 <= x < |h0.mem| && h0.mem[x] != h1.mem[x] ==> a <= x < a + size
    ensures WellFormed(h1) && MallocStep(h0, h1, sz, h0.start + Sum(h0.blocks[..n]) + Header(h0))
  {
    hide Tiled, Carve, Kept;
    var bs := h0.blocks;
    CarveGood(h0.format, bs[n].size, sz);
    Replaced(h0, h1, n, Carve(h0.format, bs[n].size, sz));
  }

  /** The `n`th block, a free one, gives way to blocks of the same size in all. */
  lemma {:induction false} Replaced(h0: Heap, h1: Heap, n: nat, carved: seq<Block>)
    requires WellFormed(h0) && n < |h0.blocks| && h0.blocks[n].state == Free && BlocksOk(h0.format, carved)
    requires Sum(carved) == h0.blocks[n].size && |h1.mem| == |h0.mem|
    requires h1 == h0.(blocks := h0.blocks[..n] + (carved + h0.blocks[n + 1..]), mem := h1.mem)
    requires var a := h0.start + Sum(h0.blocks[..n]);
      && Tiled(h0.format, h1.mem, a, carved)
      && forall x :: 0 <= x < |h0.mem| && h0.mem[x] != h1.mem[x] ==> a <= x < a + Sum(carved)
    ensures WellFormed(h1) && Kept(h0, h1, 0)
  {
    hide Tiled, Kept;
    var bs := h0.blocks;
    var pre, mid, post := bs[..n], [bs[n]], bs[n + 1..];
    Split(bs, n);
    SumOne(bs[n]);
    StretchTiled(h0.format, h0.mem, h1.mem, h0.start, pre, mid, carved, post);
    SumThree(pre, carved, post);
    StretchKept(h0, h1, pre, mid, post, bs[n].size);
  }

  lemma {:induction false} GrowStep(h0: Heap, h1: Heap, sz: nat)
    requires WellFormed(h0) && sz > 0 && FirstFit(h0.blocks, Need(h0.format, sz)) == |h0.blocks| && CanGrow(h0, sz)
    requires h1 == h0.(brk := h0.brk + GrowBy(h0.format, sz),
                       blocks := Place(h0.format, h0.blocks, sz, true).blocks, mem := h1.mem)
    requires |h1.mem| == |h0.mem| && Tiled(h0.format, h1.mem, h0.brk, Fresh(h0.format, sz))
    requires forall x :: 0 <= x < |h0.mem| && h0.mem[x] != h1.mem[x] ==> h0.brk <= x < h0.brk + GrowBy(h0.format, sz)
    ensures WellFormed(h1) && MallocStep(h0, h1, sz, h0.brk + Header(h0))
  {
    var bs := h0.blocks;
    FreshGood(h0.format, sz);
    assert bs == bs + ([] + []);
    StretchTiled(h0.format, h0.mem, h1.mem, h0.start, bs, [], Fresh(h0.format, sz), []);
    SumThree(bs, Fresh(h0.format, sz), []);
    StretchKept(h0, h1, bs, [], [], GrowBy(h0.format, sz));
  }

  /** The copy of realloc is in memory, and its ends do not overlap. */
  lemma {:induction false} CopyRoom(h0: Heap, h1: Heap, p: nat, r: nat, b: Block)
    requires WellFormed(h1) && Live(h0, p).Some? && Added(h0, h1, r, b)
    ensures p + Live(h0, p).value.size - Header(h1) <= |h1.mem| && r + b.size - Header(h1) <= |h1.mem|
    ensures p + Live(h0, p).value.size <= r || r + b.size <= p
  {
    assert Live(h1, p) == Live(h0, p) && Live(h1, r) == Some(b);
    LiveFacts(h1, p);
    LiveFacts(h1, r);
    DisjointBlocks(h1, r, p);
  }

  // ----- steps of defrag -----

  /** What the header of the `n`th block of `rest` says. */
  lemma {:induction false} ReadBlock(h: Heap, done: seq<Block>, rest: seq<Block>, n: nat)
    requires WellFormed(h) && h.blocks == done + rest && n < |rest|
    ensures HeaderIs(h.format, h.mem, h.start + Sum(done) + Sum(rest[..n]), rest[n])
    ensures Sum(rest[..n + 1]) == Sum(rest[..n]) + rest[n].size
    ensures n == 0 ==> Sum(rest[..n]) == 0
    ensures h.start + Sum(done) + Sum(rest[..n + 1]) <= h.brk
  {
    var i := |done| + n;
    assert h.blocks[..i] == done + rest[..n] && h.blocks[i] == rest[n];
    SumConcat(done, rest[..n]);
    TiledAt(h.format, h.mem, h.start, h.blocks, i);
    assert rest[..n + 1] == rest[..n] + [rest[n]];
    SumConcat(rest[..n], [rest[n]]);
    SumOne(rest[n]);
  }

  /** The walk has reached the end exactly when no block is left. */
  lemma {:induction false} RestEnd(h: Heap, done: seq<Block>, rest: seq<Block>, n: nat)
    requires WellFormed(h) && h.blocks == done + rest && n <= |rest|
    ensures h.start + Sum(done) + Sum(rest[..n]) <= h.brk
    ensures h.start + Sum(done) + Sum(rest[..n]) == h.brk <==> n == |rest|
    ensures n == 0 ==> Sum(rest[..n]) == 0
  {
    var i := |done| + n;
    assert h.blocks[..i] == done + rest[..n];
    SumConcat(done, rest[..n]);
    PrefixEnd(h.format, h.blocks, i);
  }

  lemma {:induction false} RunLengthIs(bs: seq<Block>, n: nat)
    requires n <= |bs| && (forall i :: 0 <= i < n ==> bs[i].state == State.Free)
    requires n < |bs| ==> bs[n].state != State.Free
    ensures n == RunLength(bs)
  {
  }

  lemma {:induction false} Advance(f: Format, bs: seq<Block>, done: seq<Block>, rest: seq<Block>, n: nat)
    requires rest != [] && n == FrontLength(rest) && BlocksOk(f, rest)
    requires done + Coalesce(rest) == Coalesce(bs)
    ensures (done + [FrontBlock(rest)]) + Coalesce(rest[n..]) == Coalesce(bs)
  {
    CoalesceStep(f, rest);
    assert (done + [FrontBlock(rest)]) + Coalesce(rest[n..]) == done + ([FrontBlock(rest)] + Coalesce(rest[n..]));
  }

  /** After one step of the walk, the last block done ends where the rest begins. */
  lemma {:induction false} NextBlock(h: Heap, done: seq<Block>, b: Block, rest: seq<Block>)
    requires WellFormed(h) && h.blocks == (done + [b]) + rest
    ensures HeaderIs(h.format, h.mem, h.start + Sum(done), b) && Sum(done + [b]) == Sum(done) + b.size
  {
    var i := |done|;
    assert h.blocks[..i] == done && h.blocks[i] == b && h.blocks[..i + 1] == done + [b];
    TiledAt(h.format, h.mem, h.start, h.blocks, i);
  }

  ghost function Merged(h: Heap, done: seq<Block>, rest: seq<Block>, mem: seq<byte>): Heap
    requires rest != []
  {
    h.(blocks := done + ([FrontBlock(rest)] + rest[FrontLength(rest)..]), mem := mem)
  }

  /** A block in use stays as it is. */
  lemma {:induction false} NothingMerged(h: Heap, done: seq<Block>, rest: seq<Block>)
    requires h.blocks == done + rest && rest != [] && rest[0].state != State.Free
    ensures h == Merged(h, done, rest, h.mem) && Kept(h, h, 0)
  {
    assert h.blocks == done + ([FrontBlock(rest)] + rest[1..]);
  }

  /** The size field of the header at `a`, as the format has it. */
  function SizeStored(f: Format, m: seq<byte>, a: nat, size: nat): (r: seq<byte>)
    requires a + HeaderSize(f) <= |m|
    ensures |r| == |m| && forall x :: 0 <= x < |m| && m[x] != r[x] ==> a <= x < a + HeaderSize(f)
  {
    if f == C then Store(m, a + 4, 4, size) else Store(m, a + 8, 8, size)
  }

  lemma {:induction false} RunHeader(f: Format, m: seq<byte>, a: nat, b: Block, size: nat)
    requires HeaderIs(f, m, a, b) && b.state == State.Free && size < TWO32
    ensures HeaderIs(f, SizeStored(f, m, a, size), a, Block(State.Free, 0, size))
  {
    PowValues();
    if f == C { LoadStore(m, a + 4, 4, size); } else { LoadStore(m, a + 8, 8, size); }
  }

  lemma {:induction false} RunFacts(h: Heap, done: seq<Block>, rest: seq<Block>, n: nat)
    requires WellFormed(h) && h.blocks == done + rest && BlocksOk(h.format, rest)
    requires rest != [] && rest[0].state == State.Free && n == FrontLength(rest)
    ensures h.blocks == done + (rest[..n] + rest[n..])
    ensures FrontBlock(rest).size == Sum(rest[..n]) && BlockOk(h.format, FrontBlock(rest))
    ensures h.start + Sum(done) + Sum(rest[..n]) <= |h.mem|
    ensures HeaderIs(h.format, h.mem, h.start + Sum(done), rest[0])
  {
    ReadBlock(h, done, rest, 0);
    RestEnd(h, done, rest, n);
    CoalesceStep(h.format, rest);
    assert done + rest == done + (rest[..n] + rest[n..]);
  }

  /** The store that merges a run touches only that run. */
  lemma {:induction false} RunTiled(h: Heap, h': Heap, done: seq<Block>, rest: seq<Block>, n: nat)
    requires WellFormed(h) && h.blocks == done + rest && BlocksOk(h.format, done) && BlocksOk(h.format, rest)
    requires rest != [] && rest[0].state == State.Free && n == FrontLength(rest)
    requires h.start + Sum(done) + Header(h) <= |h.mem| && h' == Merged(h, done, rest, h'.mem)
    requires h'.mem == SizeStored(h.format, h.mem, h.start + Sum(done), Sum(rest[..n]))
          || (h'.mem == h.mem && rest[0].size == Sum(rest[..n]))
    ensures WellFormed(h') && Kept(h, h', 0)
  {
    RunFacts(h, done, rest, n);
    RunHeader(h.format, h.mem, h.start + Sum(done), rest[0], Sum(rest[..n]));
    FrontReplaced(h, h', done, rest[..n], FrontBlock(rest), rest[n..]);
  }

  lemma {:induction false} FrontReplaced(h: Heap, h': Heap, done: seq<Block>, run: seq<Block>, front: Block,
                                         post: seq<Block>)
    requires WellFormed(h) && h.blocks == done + (run + post)
    requires BlocksOk(h.format, done) && BlocksOk(h.format, run) && BlockOk(h.format, front) && BlocksOk(h.format, post)
    requires forall i :: 0 <= i < |run| ==> run[i].state == State.Free
    requires front.size == Sum(run) && HeaderIs(h'.format, h'.mem, h.start + Sum(done), front)
    requires h' == h.(blocks := done + ([front] + post), mem := h'.mem) && |h'.mem| == |h.mem|
    requires forall x :: 0 <= x < |h.mem| && h.mem[x] != h'.mem[x] ==>
               h.start + Sum(done) <= x < h.start + Sum(done) + Sum(run)
    ensures WellFormed(h') && Kept(h, h', 0)
  {
    SumThree(done, run, post);
    SumThree(done, [front], post);
    SumOne(front);
    TiledOne(h'.format, h'.mem, h.start + Sum(done), front);
    StretchTiled(h.format, h.mem, h'.mem, h.start, done, run, [front], post);
    StretchKept(h, h', done, run, post, Sum(run));
  }

  lemma {:induction false} RunLive(f: Format, a: nat, done: seq<Block>, rest: seq<Block>, n: nat, p: int)
    requires BlocksOk(f, done) && BlocksOk(f, rest) && rest != [] && n == FrontLength(rest)
    ensures LiveAt(f, a, done + ([FrontBlock(rest)] + rest[n..]), p) == LiveAt(f, a, done + rest, p)
  {
    hide LiveAt, Coalesce, RunLength;
    CoalesceStep(f, rest);
    SumOne(FrontBlock(rest));
    LiveReplace(f, a, done, rest[..n], [FrontBlock(rest)], rest[n..], p);
    FrontSame(f, a + Sum(done), rest, p);
    LiveThree(f, a, done, rest[..n], rest[n..], p);
  }

  /** The invariant of defrag's walk: `done` is the finished part, `rest` what
      the walk has yet to reach. */
  ghost predicate Walking(h0: Heap, h: Heap, done: seq<Block>, rest: seq<Block>) {
    && WellFormed(h) && h == h0.(blocks := done + rest, mem := h.mem)
    && BlocksOk(h.format, done) && BlocksOk(h.format, rest)
    && done + Coalesce(rest) == Coalesce(h0.blocks)
    && SameBlocks(h0, h) && Kept(h0, h, 0)
  }

  lemma {:induction false} WalkStep(h0: Heap, h: Heap, h': Heap, done: seq<Block>, rest: seq<Block>)
    requires Walking(h0, h, done, rest) && rest != []
    requires h' == Merged(h, done, rest, h'.mem) && WellFormed(h') && Kept(h, h', 0)
    ensures Walking(h0, h', done + [FrontBlock(rest)], rest[FrontLength(rest)..])
  {
    hide Tiled, LiveAt, Coalesce;
    var n := FrontLength(rest);
    CoalesceStep(h.format, rest);
    Advance(h0.format, h0.blocks, done, rest, n);
    assert (done + [FrontBlock(rest)]) + rest[n..] == done + ([FrontBlock(rest)] + rest[n..]);
    KeptTrans(h0, h, h');
    forall p ensures Live(h', p) == Live(h0, p) {
      RunLive(h.format, h.start, done, rest, n, p);
      assert Live(h, p) == Live(h0, p);
    }
  }
}
