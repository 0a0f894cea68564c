/** The allocators' operations as relations between heap states. The C and the
    Rust allocator differ only in the format of a header and in how much they ask
    the kernel for. */
module HeapSpec {
  import opened Bytes
  import opened Options
  import opened Sbrk
  import opened Blocks
  import opened BlockLemmas
  import opened Coalescing
  import opened Placement

  /** The process's memory, the break, and the blocks the headers describe. */
  datatype Heap = Heap(format: Format, original: nat, start: nat, brk: nat, blocks: seq<Block>, mem: seq<byte>)

  ghost predicate WellFormed(h: Heap) {
    && |h.mem| == MEMSIZE_VIRTUAL
    && h.original <= h.start && h.start % 8 == 0
    && h.start + Sum(h.blocks) == h.brk < BREAK_LIMIT
    && BlocksOk(h.format, h.blocks)
    && Tiled(h.format, h.mem, h.start, h.blocks)
  }

  function Header(h: Heap): nat {
    HeaderSize(h.format)
  }

  function Live(h: Heap, p: int): Option<Block> {
    LiveAt(h.format, h.start, h.blocks, p)
  }

  ghost predicate Owns(h: Heap, p: int, x: int) {
    InPayload(h.format, h.start, h.blocks, p, x)
  }

  /** From `h` to `h'` no byte of a payload in use in `h` changed, `except` aside. */
  ghost predicate Kept(h: Heap, h': Heap, except: int) {
    && h'.format == h.format && |h'.mem| == |h.mem|
    && forall p, x :: p != except && 0 <= x < |h.mem| && Owns(h, p, x) ==> h'.mem[x] == h.mem[x]
  }

  ghost predicate SameBlocks(h: Heap, h': Heap) {
    forall p :: Live(h', p) == Live(h, p)
  }

  ghost predicate SameSpace(h: Heap, h': Heap) {
    h'.format == h.format && h'.original == h.original && h'.start == h.start
  }

  /** The requests for which `sbrk(block_size)` either fails or really adds
      `block_size` bytes; see `SupportedExactly`. */
  predicate Supported(h: Heap, sz: nat) {
    GrowBy(h.format, sz) + (h.brk - h.original) < TWO64
  }

  predicate CanGrow(h: Heap, sz: nat) {
    h.brk + GrowBy(h.format, sz) < BREAK_LIMIT
  }

  ghost predicate MallocStep(h: Heap, h': Heap, sz: nat, p: nat) {
    if sz == 0 then p == 0 && h' == h
    else
      match Place(h.format, h.blocks, sz, CanGrow(h, sz))
      case Refused => p == 0 && h' == h
      case Placed(blocks, offset, grow) =>
        && p == h.start + offset + Header(h)
        && SameSpace(h, h') && h'.brk == h.brk + grow && h'.blocks == blocks
        && WellFormed(h') && Kept(h, h', 0)
  }

  ghost predicate FreeStep(h: Heap, h': Heap, p: nat) {
    if p == 0 then h' == h
    else StateSet(h, h', p, Free)
  }

  /** The state byte in the header of the block at `p` is overwritten. */
  ghost predicate StateSet(h: Heap, h': Heap, p: nat, s: State) {
    && SameSpace(h, h') && h'.brk == h.brk
    && h'.blocks == SetState(h.format, h.start, h.blocks, p, s)
    && WellFormed(h') && Kept(h, h', 0)
  }

  ghost predicate CallocStep(h: Heap, h': Heap, num: nat, sz: nat, p: nat) {
    if num == 0 || sz == 0 || num * sz >= TWO64 then p == 0 && h' == h
    else
      && MallocStep(h, h', num * sz, p)
      && (p != 0 ==> forall x :: p <= x < p + num * sz && x < |h'.mem| ==> h'.mem[x] == 0)
  }

  function Min(x: int, y: int): (r: int)
    ensures r <= x && r <= y && (r == x || r == y)
  {
    if x < y then x else y
  }

  /** The `n` bytes at `r` afterwards are the `n` bytes that were at `p`. */
  ghost predicate CopiedBytes(h: Heap, h': Heap, p: nat, r: nat, n: int) {
    && 0 <= n && p + n <= |h.mem| && r + n <= |h'.mem|
    && h'.mem[r..r + n] == h.mem[p..p + n]
  }

  ghost predicate ReallocStep(h: Heap, h': Heap, p: nat, sz: nat, r: nat) {
    if p == 0 then MallocStep(h, h', sz, r)
    else if sz == 0 then r == 0 && FreeStep(h, h', p)
    else
      match Place(h.format, h.blocks, sz, CanGrow(h, sz))
      case Refused => r == 0 && h' == h
      case Placed(blocks, offset, grow) =>
        && r == h.start + offset + Header(h)
        && SameSpace(h, h') && h'.brk == h.brk + grow
        && h'.blocks == SetState(h.format, h.start, blocks, p, Free)
        && WellFormed(h') && Kept(h, h', 0)
        && (Live(h, p).Some? ==> CopiedBytes(h, h', p, r, Min(Usable(h.format, Live(h, p).value), sz)))
  }

  ghost predicate DefragStep(h: Heap, h': Heap) {
    && SameSpace(h, h') && h'.brk == h.brk && h'.blocks == Coalesce(h.blocks)
    && WellFormed(h') && Kept(h, h', 0)
  }

  /** The program stores into a block it owns. */
  ghost predicate WriteStep(h: Heap, h': Heap, p: nat, i: nat, v: byte) {
    && Live(h, p).Some? && i < Usable(h.format, Live(h, p).value) && p + i < |h.mem|
    && h' == h.(mem := h.mem[p + i := v])
  }

  // ----- what the steps mean -----

  /** For a supported request the kernel's answer is the mathematical one. */
  lemma {:induction false} SupportedGrowth(h: Heap, sz: nat)
    requires h.original <= h.brk < BREAK_LIMIT && Supported(h, sz)
    ensures GrowBy(h.format, sz) < TWO64
    ensures var d := Signed64(GrowBy(h.format, sz));
      && (Accepts(h.original, h.brk, d) <==> CanGrow(h, sz))
      && (Accepts(h.original, h.brk, d) ==> NewBreak(h.brk, d) == h.brk + GrowBy(h.format, sz))
  {
    AcceptsExactly(h.original, h.brk, Signed64(GrowBy(h.format, sz)));
  }

  /** Every request up to 2^63 - 16 is supported, whatever the heap. */
  lemma {:induction false} SmallSupported(h: Heap, sz: nat)
    requires WellFormed(h) && sz <= TWO63 - 16
    ensures Supported(h, sz)
  {
  }

  /** No 32-bit size field loses bits: every block, and every block that a request
      can get, is below 2^32 bytes. */
  lemma {:induction false} SizesFit(h: Heap, sz: nat, i: nat)
    requires WellFormed(h)
    ensures i < |h.blocks| ==> h.blocks[i].size < TWO32
    ensures CanGrow(h, sz) || FirstFit(h.blocks, Need(h.format, sz)) < |h.blocks| ==> Need(h.format, sz) < TWO32
  {
    if i < |h.blocks| { Split(h.blocks, i); }
    var n := FirstFit(h.blocks, Need(h.format, sz));
    if n < |h.blocks| { Split(h.blocks, n); }
  }

  /** `round_up(a, n)` on 64 bits. */
  function RoundUp64(a: u64, n: nat): u64
    requires n == 8 || n == 4096
  {
    if n == 8 then Wrap64(a + 7) / 8 * 8 else Wrap64(a + 4095) / 4096 * 4096
  }

  /** The block size as the code computes it, on 64 bits. */
  function Need64(f: Format, sz: u64): u64 {
    Wrap64(RoundUp64(sz, 8) + HeaderSize(f))
  }

  /** What malloc(sz) asks the kernel for: the block size in C, the block size in
      whole pages in Rust. */
  function Request64(f: Format, sz: u64): u64 {
    if f == C then Need64(f, sz) else RoundUp64(Need64(f, sz), 4096)
  }

  lemma {:induction false} RoundUp64Exact(a: u64, n: nat)
    requires n == 8 || n == 4096
    ensures RoundUp64(a, n) == RoundUp(a, n) <==> RoundUp(a, n) < TWO64
  {
  }

  lemma {:induction false} NeedExact(f: Format, sz: u64)
    requires Need(f, sz) < TWO64
    ensures Need64(f, sz) == Need(f, sz)
  {
    RoundUp64Exact(sz, 8);
  }

  lemma {:induction false} Request64Exact(f: Format, sz: u64)
    requires GrowBy(f, sz) < TWO64
    ensures Request64(f, sz) == GrowBy(f, sz)
  {
    NeedExact(f, sz);
    if f == Rust { RoundUp64Exact(Need(f, sz), 4096); }
  }

  /** For every 64-bit request: the request to the kernel does not wrap, and an
      accepted one adds that many bytes, exactly when it is supported. */
  lemma {:induction false} SupportedExactly(h: Heap, sz: u64)
    requires h.original <= h.brk < BREAK_LIMIT
    ensures var d := Signed64(Request64(h.format, sz));
      && Request64(h.format, sz) == GrowBy(h.format, sz)
      && (Accepts(h.original, h.brk, d) ==> NewBreak(h.brk, d) == h.brk + GrowBy(h.format, sz))
      <==> Supported(h, sz)
  {
    var grow := GrowBy(h.format, sz);
    if grow < TWO64 { Request64Exact(h.format, sz); }
    if Supported(h, sz) {
      SupportedGrowth(h, sz);
    } else if grow < TWO64 {
      AcceptsExactly(h.original, h.brk, grow - TWO64);
    }
  }

  /** malloc(sz) refuses: no free block is big enough for the block size it computes,
      and the kernel does not grant its request. */
  predicate Refuses(h: Heap, sz: u64) {
    && FirstFit(h.blocks, Need64(h.format, sz)) == |h.blocks|
    && h.original <= h.brk < BREAK_LIMIT && !Accepts(h.original, h.brk, Signed64(Request64(h.format, sz)))
  }

  /** The requests for which malloc does what it is for: the supported ones, and the
      others that it refuses. */
  predicate Keeps(h: Heap, sz: u64) {
    Supported(h, sz) || Refuses(h, sz)
  }

  /** What is kept beyond the bound: only a block size that wraps to a header or less
      can be refused, and only on a full heap with no free block. */
  lemma {:induction false} KeepsBeyond(h: Heap, sz: u64)
    requires WellFormed(h) && !Supported(h, sz)
    ensures Keeps(h, sz) <==>
      && sz > TWO64 - HeaderSize(h.format)
      && FirstFit(h.blocks, 0) == |h.blocks|
      && h.brk + (if h.format == C then 8 else 4096) >= BREAK_LIMIT
  {
    var need, d := Need64(h.format, sz), Signed64(Request64(h.format, sz));
    AcceptsExactly(h.original, h.brk, d);
    WrappedRequest(h, sz);
    if need <= 16 {
      assert FirstFit(h.blocks, need) == FirstFit(h.blocks, 0) by { FreeFits(h, need); }
    }
  }

  lemma {:induction false} FreeFits(h: Heap, need: nat)
    requires WellFormed(h) && need <= 16
    ensures FirstFit(h.blocks, need) == FirstFit(h.blocks, 0)
  {
    FirstFitUnique(h.blocks, 0, FirstFit(h.blocks, need));
  }

  /** A request that is not supported is negative for the kernel and within the heap,
      or nothing, or the least there is. */
  lemma {:induction false} WrappedRequest(h: Heap, sz: u64)
    requires WellFormed(h) && !Supported(h, sz)
    ensures var need, d := Need64(h.format, sz), Signed64(Request64(h.format, sz));
      if sz > TWO64 - HeaderSize(h.format) then 0 < need <= 16 && d == if h.format == C then 8 else 4096
      else h.original - h.brk <= d <= 0
  {
    if h.format == C { WrappedC(h, sz); } else { WrappedRust(h, sz); }
  }

  lemma {:induction false} WrappedC(h: Heap, sz: u64)
    requires WellFormed(h) && h.format == C && !Supported(h, sz)
    ensures Need64(C, sz) == Request64(C, sz) == if sz > TWO64 - 8 then 8 else Need(C, sz) % TWO64
    ensures sz <= TWO64 - 8 ==> h.original - h.brk <= Signed64(Request64(C, sz)) <= 0
  {
  }

  lemma {:induction false} WrappedRust(h: Heap, sz: u64)
    requires WellFormed(h) && h.format == Rust && !Supported(h, sz)
    ensures sz > TWO64 - 16 ==> 0 < Need64(Rust, sz) <= 16 && Request64(Rust, sz) == 4096
    ensures sz <= TWO64 - 16 ==> h.original - h.brk <= Signed64(Request64(Rust, sz)) <= 0
  {
    if Need(Rust, sz) < TWO64 {
      NeedExact(Rust, sz);
      RoundUp64Exact(Need(Rust, sz), 4096);
    }
  }

  /** No step that hands out a block is possible beyond the bound, so malloc keeps its
      promise there only by refusing. */
  lemma {:induction false} NoBlockBeyond(h: Heap, h': Heap, sz: nat, p: nat)
    requires WellFormed(h) && !Supported(h, sz) && MallocStep(h, h', sz, p)
    ensures p == 0 && h' == h
  {
    SizesFit(h, sz, 0);
  }

  lemma {:induction false} RefusedStep(h: Heap, sz: u64)
    requires WellFormed(h) && sz > 0 && Refuses(h, sz)
    ensures MallocStep(h, h, sz, 0)
  {
    SizesFit(h, sz, 0);
    if Supported(h, sz) {
      SupportedGrowth(h, sz);
      NeedExact(h.format, sz);
      Request64Exact(h.format, sz);
    }
  }

  // ----- the blocks in use after each step -----

  lemma {:induction false} LiveFacts(h: Heap, p: int)
    requires WellFormed(h) && Live(h, p).Some?
    ensures var b := Live(h, p).value;
      && BlockOk(h.format, b) && b.state != Free && p % 8 == 0
      && h.start + Header(h) <= p && p - Header(h) + b.size <= h.brk
  {
    LiveRange(h.format, h.start, h.blocks, p);
    LiveAligned(h.format, h.start, h.blocks, p);
  }

  lemma {:induction false} HeaderOfLive(h: Heap, p: int)
    requires WellFormed(h) && Live(h, p).Some?
    ensures Usable(h.format, Live(h, p).value) > 0
    ensures Header(h) <= p <= |h.mem| && HeaderIs(h.format, h.mem, p - Header(h), Live(h, p).value)
  {
    LiveFacts(h, p);
    var i := LiveIndex(h.format, h.start, h.blocks, p);
    TiledAt(h.format, h.mem, h.start, h.blocks, i);
  }

  /** Live payloads are pairwise disjoint. */
  lemma {:induction false} DisjointBlocks(h: Heap, p: int, q: int)
    requires WellFormed(h) && Live(h, p).Some? && Live(h, q).Some? && p != q
    ensures p + Live(h, p).value.size <= q || q + Live(h, q).value.size <= p
  {
    if p < q { LiveDisjoint(h.format, h.start, h.blocks, p, q); } else { LiveDisjoint(h.format, h.start, h.blocks, q, p); }
  }

  lemma {:induction false} SetStateLive(f: Format, a: nat, bs: seq<Block>, p: int, s: State, q: int)
    requires BlocksOk(f, bs) && LiveAt(f, a, bs, p).Some?
    ensures var b := LiveAt(f, a, bs, p).value;
      LiveAt(f, a, SetState(f, a, bs, p, s), q)
      == if q == p then (if s == Free then None else Some(b.(state := s))) else LiveAt(f, a, bs, q)
    ensures BlocksOk(f, SetState(f, a, bs, p, s)) && Sum(SetState(f, a, bs, p, s)) == Sum(bs)
    decreases |bs|
  {
    var rest, a' := bs[1..], a + bs[0].size;
    var bs' := SetState(f, a, bs, p, s);
    if p == a + HeaderSize(f) {
      if LiveAt(f, a', rest, p).Some? { LiveRange(f, a', rest, p); }
      assert bs'[1..] == rest;
    } else {
      SetStateLive(f, a', rest, p, s, q);
      assert bs'[1..] == SetState(f, a', rest, p, s);
      if q == a + HeaderSize(f) && bs[0].state != Free { LiveRange(f, a', rest, p); }
    }
  }

  /** A header byte belongs to no payload. */
  lemma {:induction false} HeaderUnowned(h: Heap, p: nat, q: int, x: int)
    requires WellFormed(h) && Live(h, p).Some? && Owns(h, q, x)
    ensures x < p - Header(h) || p <= x
  {
    LiveFacts(h, q);
    if q != p { DisjointBlocks(h, p, q); }
  }

  lemma {:induction false} SetStateTiled(f: Format, m: seq<byte>, a: nat, pre: seq<Block>, b: Block,
                                         post: seq<Block>, s: State)
    requires BlocksOk(f, pre) && BlocksOk(f, post) && BlockOk(f, b) && b.state != Free
    requires Tiled(f, m, a, pre + ([b] + post))
    requires HeaderIs(f, m, a + Sum(pre), b) && a + Sum(pre) + b.size <= |m|
    ensures var h := a + Sum(pre);
      Tiled(f, m[h := StateByte(f, s)], a, SetState(f, a, pre + ([b] + post), h + HeaderSize(f), s))
  {
    var h := a + Sum(pre);
    var b', m' := Block(s, if s == Free then 0 else b.slop, b.size), m[h := StateByte(f, s)];
    SumOne(b);
    SumOne(b');
    SetStateAt(f, a, pre, b, post, s);
    if f == C { LoadFrame(m, m', h + 4, 4); } else { LoadFrame(m, m', h + 8, 8); }
    TiledOne(f, m', h, b');
    StretchTiled(f, m, m', a, pre, [b], [b'], post);
  }

  lemma {:induction false} SetStateStep(h0: Heap, h1: Heap, p: nat, s: State)
    requires WellFormed(h0) && Live(h0, p).Some? && Header(h0) <= p <= |h0.mem|
    requires h1 == h0.(blocks := SetState(h0.format, h0.start, h0.blocks, p, s),
                       mem := h0.mem[p - Header(h0) := StateByte(h0.format, s)])
    ensures StateSet(h0, h1, p, s)
  {
    var bs := h0.blocks;
    var i := LiveIndex(h0.format, h0.start, bs, p);
    Split(bs, i);
    TiledAt(h0.format, h0.mem, h0.start, bs, i);
    SetStateTiled(h0.format, h0.mem, h0.start, bs[..i], bs[i], bs[i + 1..], s);
    SetStateLive(h0.format, h0.start, bs, p, s, p);
    forall q, x | q != 0 && 0 <= x < |h0.mem| && Owns(h0, q, x) ensures h1.mem[x] == h0.mem[x] {
      HeaderUnowned(h0, p, q, x);
    }
  }

  /** One block more is in use, and the others are as before. */
  ghost predicate Added(h: Heap, h': Heap, p: nat, b: Block) {
    && Live(h, p) == None
    && forall q :: Live(h', q) == if q == p then Some(b) else Live(h, q)
  }

  /** One block fewer is in use, and the others are as before. */
  ghost predicate Removed(h: Heap, h': Heap, p: nat) {
    && Live(h, p).Some?
    && forall q :: Live(h', q) == if q == p then None else Live(h, q)
  }

  /** What a successful malloc gives its caller: an 8-aligned block of at least
      `sz` usable bytes, new, and nothing else changes. */
  lemma {:induction false} MallocMeaning(h0: Heap, h1: Heap, sz: nat, p: nat) returns (b: Block)
    requires WellFormed(h0) && sz > 0 && p != 0 && MallocStep(h0, h1, sz, p)
    ensures WellFormed(h1) && SameSpace(h0, h1) && Kept(h0, h1, 0)
    ensures GoodBlock(h0.format, b, sz) && Added(h0, h1, p, b) && p % 8 == 0
    ensures FreeBytes(h1.blocks) + b.size == FreeBytes(h0.blocks) + (h1.brk - h0.brk)
  {
    b := PlaceLive(h0.format, h0.start, h0.blocks, sz, CanGrow(h0, sz));
    assert Live(h1, p) == Some(b);
    LiveFacts(h1, p);
  }

  /** A second request that fits beside the first in what the first took its block from
      is served without moving the break. */
  lemma {:induction false} LeftoverIsUsed(h0: Heap, h1: Heap, h2: Heap, sz: nat, p: nat, sz': nat, q: nat)
    requires WellFormed(h0) && sz > 0 && p != 0 && MallocStep(h0, h1, sz, p)
    requires sz' > 0 && MallocStep(h1, h2, sz', q)
    requires Need(h0.format, sz) + Need(h0.format, sz') <= Extent(h0.format, h0.blocks, sz)
    ensures q != 0 && h2.brk == h1.brk
  {
    LeftoverServes(h0.format, h0.blocks, sz, CanGrow(h0, sz), sz', CanGrow(h1, sz'));
  }

  /** On an empty Rust heap malloc(8) and malloc(8) take 24 bytes each of one page. */
  lemma {:induction false} TwoSmallBlocks(h0: Heap, h1: Heap, h2: Heap, sz: nat, p: nat, q: nat)
    requires WellFormed(h0) && h0.format == Rust && h0.blocks == [] && sz == 8 && p != 0
    requires MallocStep(h0, h1, sz, p) && MallocStep(h1, h2, sz, q)
    ensures p == h0.start + 16 && q == h0.start + 40 && h2.brk == h0.start + 4096
    ensures h2.blocks == [Block(Used, 0, 24), Block(Used, 0, 24), Block(State.Free, 0, 4048)]
  {
    assert Carve(Rust, 4096, sz) == [Block(Used, 0, 24), Block(State.Free, 0, 4072)];
    assert h1.blocks == [Block(Used, 0, 24), Block(State.Free, 0, 4072)];
    assert !FitsIn(h1.blocks[0], 24) && FitsIn(h1.blocks[1], 24);
    FirstFitUnique(h1.blocks, 24, 1);
    assert h1.blocks[..1] == [Block(Used, 0, 24)] && h1.blocks[2..] == [];
    SumOne(h1.blocks[0]);
    assert Carve(Rust, 4072, sz) == [Block(Used, 0, 24), Block(State.Free, 0, 4048)];
  }

  lemma {:induction false} FreeMeaning(h0: Heap, h1: Heap, p: nat)
    requires WellFormed(h0) && p != 0 && Live(h0, p).Some? && FreeStep(h0, h1, p)
    ensures Removed(h0, h1, p)
  {
    forall q ensures Live(h1, q) == if q == p then None else Live(h0, q) {
      SetStateLive(h0.format, h0.start, h0.blocks, p, Free, q);
    }
  }

  lemma {:induction false} KeptTrans(h0: Heap, h1: Heap, h2: Heap)
    requires Kept(h0, h1, 0) && Kept(h1, h2, 0)
    requires forall p :: Live(h0, p).Some? ==> Live(h1, p) == Live(h0, p)
    ensures Kept(h0, h2, 0)
  {
    forall p, x | p != 0 && 0 <= x < |h0.mem| && Owns(h0, p, x) ensures h2.mem[x] == h0.mem[x] {
      assert Live(h1, p) == Live(h0, p);
      assert Owns(h1, p, x);
    }
  }

  /** Writing into a new block harms no other. */
  lemma {:induction false} PayloadWritten(h0: Heap, h1: Heap, h2: Heap, p: nat, n: nat, b: Block)
    requires WellFormed(h1) && Kept(h0, h1, 0) && Added(h0, h1, p, b) && n <= b.size - Header(h1)
    requires h2 == h1.(mem := h2.mem) && |h2.mem| == |h1.mem|
    requires forall x :: 0 <= x < |h1.mem| && h1.mem[x] != h2.mem[x] ==> p <= x < p + n
    ensures WellFormed(h2) && Kept(h0, h2, 0)
  {
    assert Live(h1, p) == Some(b);
    forall x | h1.start <= x < h1.start + Sum(h1.blocks) && h1.mem[x] != h2.mem[x]
      ensures Covered(h1.format, h1.start, h1.blocks, x)
    {
      assert InPayload(h1.format, h1.start, h1.blocks, p, x);
    }
    TiledFrame(h1.format, h1.mem, h2.mem, h1.start, h1.blocks);
    forall q, x | q != 0 && 0 <= x < |h0.mem| && Owns(h0, q, x) ensures h2.mem[x] == h0.mem[x] {
      assert Live(h1, q) == Live(h0, q);
      DisjointBlocks(h1, p, q);
    }
  }

  /** realloc is malloc, a copy into the new block, and free. */
  lemma {:induction false} ReallocMeaning(h0: Heap, h1: Heap, h2: Heap, h3: Heap,
                                          p: nat, sz: nat, r: nat, n: nat, b: Block)
    requires WellFormed(h0) && sz > 0 && p != 0 && r != 0 && Live(h0, p).Some?
    requires MallocStep(h0, h1, sz, r) && Added(h0, h1, r, b) && n <= b.size - Header(h0)
    requires h2 == h1.(mem := h2.mem) && WellFormed(h2) && Kept(h0, h2, 0)
    requires n == Min(Usable(h0.format, Live(h0, p).value), sz)
    requires p + n <= |h0.mem| && r + n <= |h2.mem| && |h2.mem| == |h0.mem|
    requires h2.mem[r..r + n] == h0.mem[p..p + n]
    requires FreeStep(h2, h3, p)
    ensures ReallocStep(h0, h3, p, sz, r)
  {
    forall q | Live(h0, q).Some? ensures Live(h2, q) == Live(h0, q) {
      assert Live(h1, q) == Live(h0, q);
    }
    KeptTrans(h0, h2, h3);
    assert Live(h1, r) == Some(b);
    forall x | r <= x < r + n ensures h3.mem[x] == h2.mem[x] {
      assert Owns(h2, r, x);
    }
    assert h3.mem[r..r + n] == h2.mem[r..r + n];
  }

  /** What realloc leaves behind: with size 0 the block is gone; on success it is gone, and a new
      one has room and the old contents; in both cases the others are as before. */
  lemma {:induction false} ReallocEffect(h: Heap, h': Heap, p: nat, sz: nat, r: nat) returns (b: Block)
    requires WellFormed(h) && p != 0 && Live(h, p).Some? && ReallocStep(h, h', p, sz, r)
    ensures sz == 0 ==> r == 0 && Removed(h, h', p)
    ensures sz > 0 && r == 0 ==> h' == h
    ensures sz > 0 && r != 0 ==>
      && GoodBlock(h.format, b, sz) && Live(h, r) == None && r != p
      && (forall q :: Live(h', q) == if q == r then Some(b) else if q == p then None else Live(h, q))
      && CopiedBytes(h, h', p, r, Min(Usable(h.format, Live(h, p).value), sz))
  {
    hide Kept, CopiedBytes, Carve, FirstFit, Place, Fresh, Tiled;
    b := Block(Used, 0, 0);
    if sz == 0 {
      FreeMeaning(h, h', p);
    } else if r != 0 {
      var mid := Place(h.format, h.blocks, sz, CanGrow(h, sz)).blocks;
      b := PlaceLive(h.format, h.start, h.blocks, sz, CanGrow(h, sz));
      assert LiveAt(h.format, h.start, mid, p) == LiveAt(h.format, h.start, h.blocks, p);
      forall q ensures Live(h', q) == if q == r then Some(b) else if q == p then None else Live(h, q) {
        SetStateLive(h.format, h.start, mid, p, State.Free, q);
      }
    }
  }

  /** A payload in use reads the same after a step that keeps it. */
  lemma {:induction false} SameBytes(h0: Heap, h1: Heap, p: nat, n: nat)
    requires WellFormed(h0) && Live(h0, p).Some? && p != 0 && n <= Live(h0, p).value.size - Header(h0)
    requires Kept(h0, h1, 0)
    ensures p + n <= |h0.mem| && h1.mem[p..p + n] == h0.mem[p..p + n]
  {
    LiveFacts(h0, p);
    forall x | p <= x < p + n ensures h1.mem[x] == h0.mem[x] { assert Owns(h0, p, x); }
  }
}
