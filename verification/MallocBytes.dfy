/** What C's malloc does to memory and to the break, for every 64-bit size: also for
    the sizes whose block size wraps around. And for which sizes that is an allocation. */
module MallocBytes {
  import opened Bytes
  import opened Options
  import opened Sbrk
  import opened Blocks
  import opened BlockLemmas
  import opened Placement
  import opened HeapSpec
  import opened HeapSteps

  /** `slop = (uint8_t) (rounded - sz)` */
  function Slop64(sz: u64): byte {
    Wrap64(RoundUp64(sz, 8) - sz) % 256
  }

  /** Memory with a header written at `a`; a free block's slop is left alone. */
  function HeaderStored(m: seq<byte>, a: nat, state: State, slop: byte, size: nat): (r: seq<byte>)
    requires a + 8 <= |m|
    ensures |r| == |m| && forall x :: 0 <= x < |m| && !(a <= x < a + 8) ==> r[x] == m[x]
  {
    var m1 := m[a := StateByte(C, state)];
    Store(if state == Free then m1 else m1[a + 1 := slop], a + 4, 4, size)
  }

  lemma {:induction false} HeaderStoredIs(m: seq<byte>, a: nat, state: State, slop: byte, size: nat)
    requires a + 8 <= |m| && size < TWO32 && (state == Free ==> slop == 0)
    ensures HeaderIs(C, HeaderStored(m, a, state, slop, size), a, Block(state, slop, size))
  {
    PowValues();
    var m1 := m[a := StateByte(C, state)];
    LoadStore(if state == Free then m1 else m1[a + 1 := slop], a + 4, 4, size);
  }

  /** Memory after the free block of `size` bytes at `a` has been taken for a block size
      of `need`. When `need` is 0 both headers are the one at `a`. */
  function Taken(m: seq<byte>, a: nat, size: nat, need: nat, slop: byte): (r: seq<byte>)
    requires 16 <= size && need <= size && a + size <= |m|
    ensures |r| == |m| && forall x :: 0 <= x < |m| && !(a <= x < a + size) ==> r[x] == m[x]
  {
    if size - need >= MIN_SPLIT then
      HeaderStored(HeaderStored(m, a + need, Free, 0, size - need), a, Used, slop, need)
    else
      m[a := StateByte(C, Used)][a + 1 := size - need]
  }

  /** For a block size that did not wrap, the headers tile the extent as `Carve` says. */
  lemma {:induction false} TakenTiled(m: seq<byte>, a: nat, size: nat, sz: nat)
    requires a + size <= |m| && size < TWO32 && size % 8 == 0 && sz > 0 && Need(C, sz) <= size
    requires HeaderIs(C, m, a, Block(Free, 0, size))
    ensures Tiled(C, Taken(m, a, size, Need(C, sz), PadSlop(C, sz)), a, Carve(C, size, sz))
  {
    var need, slop, carved := Need(C, sz), PadSlop(C, sz), Carve(C, size, sz);
    var m' := Taken(m, a, size, need, slop);
    if size - need >= MIN_SPLIT {
      var m1 := HeaderStored(m, a + need, Free, 0, size - need);
      HeaderStoredIs(m, a + need, Free, 0, size - need);
      HeaderStoredIs(m1, a, Used, slop, need);
      HeaderFrame(C, m1, m', a + need, Block(Free, 0, size - need));
      TiledTwo(C, m', a, carved);
    } else {
      LoadFrame(m, m', a + 4, 4);
      TiledOne(C, m', a, carved[0]);
    }
  }

  /** What malloc returns, and the memory and the break that it leaves. */
  datatype Effect = Effect(p: nat, mem: seq<byte>, brk: nat)

  ghost predicate Fits64(h: Heap, sz: u64) {
    FirstFit(h.blocks, Need64(C, sz)) < |h.blocks|
  }

  /** The header that the search stops at. */
  ghost function FitAt(h: Heap, sz: u64): nat {
    h.start + Sum(h.blocks[..FirstFit(h.blocks, Need64(C, sz))])
  }

  lemma {:induction false} FitRoom(h: Heap, sz: u64)
    requires WellFormed(h) && h.format == C && Fits64(h, sz)
    ensures var b := h.blocks[FirstFit(h.blocks, Need64(C, sz))];
      && b.state == Free && b.size >= Need64(C, sz) && BlockOk(C, b) && b.size < TWO32
      && FitAt(h, sz) + b.size <= h.brk && HeaderIs(C, h.mem, FitAt(h, sz), b)
  {
    TiledAt(C, h.mem, h.start, h.blocks, FirstFit(h.blocks, Need64(C, sz)));
  }

  ghost function EffectOf(h: Heap, sz: u64): (r: Effect)
    requires WellFormed(h) && h.format == C && sz > 0
    ensures |r.mem| == |h.mem|
  {
    var need := Need64(C, sz);
    var d := Signed64(need);
    if Fits64(h, sz) then
      FitRoom(h, sz);
      var size := h.blocks[FirstFit(h.blocks, need)].size;
      Effect(FitAt(h, sz) + 8, Taken(h.mem, FitAt(h, sz), size, need, Slop64(sz)), h.brk)
    else if Accepts(h.original, h.brk, d) then
      Effect(h.brk + 8, HeaderStored(h.mem, h.brk, Used, Slop64(sz), need), NewBreak(h.brk, d))
    else
      Effect(0, h.mem, h.brk)
  }

  /** The heap afterwards, if its headers describe the blocks `bs`. */
  ghost function After(h: Heap, r: Effect, bs: seq<Block>): Heap {
    h.(mem := r.mem, brk := r.brk, blocks := bs)
  }

  lemma {:induction false} SlopExact(sz: u64)
    requires sz <= TWO64 - 8
    ensures Slop64(sz) == PadSlop(C, sz)
  {
    RoundUp64Exact(sz, 8);
  }

  lemma {:induction false} FitAllocates(h: Heap, sz: u64)
    requires WellFormed(h) && h.format == C && sz > 0 && Supported(h, sz) && Fits64(h, sz)
    ensures var r := EffectOf(h, sz);
      MallocStep(h, After(h, r, Place(C, h.blocks, sz, false).blocks), sz, r.p)
  {
    hide Tiled, Carve, Taken, Kept;
    NeedExact(C, sz);
    SlopExact(sz);
    FitRoom(h, sz);
    var n := FirstFit(h.blocks, Need(C, sz));
    var r, bs := EffectOf(h, sz), Place(C, h.blocks, sz, false).blocks;
    TakenTiled(h.mem, FitAt(h, sz), h.blocks[n].size, sz);
    FirstFitStep(h, After(h, r, bs), sz, n);
  }

  lemma {:induction false} GrowthAllocates(h: Heap, sz: u64)
    requires WellFormed(h) && h.format == C && sz > 0 && Supported(h, sz) && !Fits64(h, sz)
    requires Accepts(h.original, h.brk, Signed64(Need64(C, sz)))
    ensures var r := EffectOf(h, sz);
      MallocStep(h, After(h, r, Place(C, h.blocks, sz, true).blocks), sz, r.p)
  {
    NeedExact(C, sz);
    SlopExact(sz);
    SupportedGrowth(h, sz);
    var r, added := EffectOf(h, sz), Fresh(C, sz);
    HeaderStoredIs(h.mem, h.brk, Used, PadSlop(C, sz), Need(C, sz));
    TiledOne(C, r.mem, h.brk, added[0]);
    GrowStep(h, After(h, r, Place(C, h.blocks, sz, true).blocks), sz);
  }

  /** For every size and every heap: malloc does what it is for exactly when the request
      is supported or refused. */
  lemma {:induction false} AllocatesExactly(h: Heap, sz: u64) returns (bs: seq<Block>)
    requires WellFormed(h) && h.format == C && sz > 0
    ensures Keeps(h, sz) ==> MallocStep(h, After(h, EffectOf(h, sz), bs), sz, EffectOf(h, sz).p)
    ensures !Keeps(h, sz) ==> forall h' :: !MallocStep(h, h', sz, EffectOf(h, sz).p)
  {
    bs := h.blocks;
    if Refuses(h, sz) {
      RefusedStep(h, sz);
    } else if !Supported(h, sz) {
      forall h' ensures !MallocStep(h, h', sz, EffectOf(h, sz).p) {
        if MallocStep(h, h', sz, EffectOf(h, sz).p) { NoBlockBeyond(h, h', sz, EffectOf(h, sz).p); }
      }
    } else if Fits64(h, sz) {
      bs := Place(C, h.blocks, sz, false).blocks;
      FitAllocates(h, sz);
    } else {
      bs := Place(C, h.blocks, sz, true).blocks;
      GrowthAllocates(h, sz);
    }
  }

  // ----- how the heap is lost otherwise -----

  /** The block size is negative for the kernel: the break moves down into the heap, and
      the block begins above it. */
  lemma {:induction false} BreakMovesDown(h: Heap, sz: u64)
    requires WellFormed(h) && h.format == C && sz <= TWO64 - 16 && !Supported(h, sz)
    ensures sz > 0 && h.original <= EffectOf(h, sz).brk < h.brk && EffectOf(h, sz).brk == h.brk + Need(C, sz) - TWO64
    ensures EffectOf(h, sz).p == h.brk + 8
  {
    NeedExact(C, sz);
    SizesFit(h, sz, 0);
    AcceptsExactly(h.original, h.brk, Need(C, sz) - TWO64);
  }

  /** The block size is 0: the header of the free block that fits becomes that of a block
      of size 0, and nothing before it changes. */
  lemma {:induction false} ZeroSizeHeader(h: Heap, sz: u64)
    requires WellFormed(h) && h.format == C && TWO64 - 16 < sz <= TWO64 - 8 && Fits64(h, sz)
    ensures var r, a := EffectOf(h, sz), FitAt(h, sz);
      && r.p == a + 8 <= r.brk == h.brk && a + 8 <= |r.mem| && Load(r.mem, a + 4, 4) == 0
      && forall x :: 0 <= x < a ==> r.mem[x] == h.mem[x]
  {
    FitRoom(h, sz);
    TakenZero(h.mem, FitAt(h, sz), h.blocks[FirstFit(h.blocks, Need64(C, sz))].size, Need64(C, sz), Slop64(sz));
  }

  lemma {:induction false} TakenZero(m: seq<byte>, a: nat, size: nat, need: nat, slop: byte)
    requires 16 <= size && need == 0 && a + size <= |m|
    ensures HeaderIs(C, Taken(m, a, size, need, slop), a, Block(Used, slop, need))
  {
    HeaderStoredIs(HeaderStored(m, a + need, Free, 0, size - need), a, Used, slop, need);
  }

  /** So the walk over the headers never gets past it: no blocks are described by them. */
  lemma {:induction false} ZeroSizeBlock(h: Heap, sz: u64, bs: seq<Block>)
    requires WellFormed(h) && h.format == C && TWO64 - 16 < sz <= TWO64 - 8 && Fits64(h, sz)
    requires WellFormed(After(h, EffectOf(h, sz), bs))
    ensures false
  {
    var r, pre := EffectOf(h, sz), h.blocks[..FirstFit(h.blocks, Need64(C, sz))];
    ZeroSizeHeader(h, sz);
    PrefixTiled(h, r.mem, |pre|);
    Stuck(r.mem, h.start, pre, bs);
  }

  lemma {:induction false} PrefixTiled(h: Heap, m': seq<byte>, n: nat)
    requires WellFormed(h) && n <= |h.blocks| && |m'| == |h.mem| && h.start + Sum(h.blocks[..n]) <= |h.mem|
    requires forall x :: 0 <= x < h.start + Sum(h.blocks[..n]) ==> m'[x] == h.mem[x]
    ensures Tiled(h.format, m', h.start, h.blocks[..n])
  {
    assert h.blocks == h.blocks[..n] + h.blocks[n..];
    TiledConcat(h.format, h.mem, h.start, h.blocks[..n], h.blocks[n..]);
    TiledSame(h.format, h.mem, m', h.start, h.blocks[..n]);
  }

  /** A walk that meets the blocks `pre` and then a header of size 0 ends there. */
  lemma {:induction false} Stuck(m: seq<byte>, a: nat, pre: seq<Block>, bs: seq<Block>)
    requires BlocksOk(C, pre) && BlocksOk(C, bs) && Tiled(C, m, a, pre) && Tiled(C, m, a, bs)
    requires Sum(pre) < Sum(bs) && a + Sum(pre) + 8 <= |m| && Load(m, a + Sum(pre) + 4, 4) == 0
    ensures false
    decreases |pre|
  {
    if pre != [] { Stuck(m, a + pre[0].size, pre[1..], bs[1..]); }
  }
}
