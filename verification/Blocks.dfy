/** A heap as a sequence of blocks laid end to end, and what the two allocators
    (the C one and the Rust one) do to that sequence.

    There is no free list: a block is found by walking header to header, so all
    that is known about the heap is that its headers tile it. */
module Blocks {
  import opened Bytes
  import opened Options

  datatype State = Free | Internal | Used

  /** `slop` is 0 for a free block: nothing reads the slop byte of one. */
  datatype Block = Block(state: State, slop: nat, size: nat)

  /** The two header layouts. C: state, slop, 2 unused bytes, 32-bit size.
      Rust: state, 7 bytes of padding, 64-bit size. */
  datatype Format = C | Rust

  const MIN_SPLIT: nat := 16

  function HeaderSize(f: Format): nat {
    if f == C then 8 else 16
  }

  function StateByte(f: Format, s: State): byte {
    match s
    case Free => 0
    case Internal => if f == C then 1 else 2
    case Used => if f == C then 2 else 1
  }

  ghost predicate HeaderIs(f: Format, m: seq<byte>, a: nat, b: Block) {
    && a + HeaderSize(f) <= |m|
    && m[a] == StateByte(f, b.state)
    && match f
       case C =>
         && (b.state == Free ==> b.slop == 0)
         && (b.state != Free ==> m[a + 1] == b.slop)
         && Load(m, a + 4, 4) == b.size
       case Rust =>
         && b.slop == 0
         && Load(m, a + 8, 8) == b.size
  }

  predicate BlockOk(f: Format, b: Block) {
    && b.size % 8 == 0
    && b.size >= 16
    && (b.state != Free ==> HeaderSize(f) + b.slop < b.size)
    && (b.state == Free || f == Rust ==> b.slop == 0)
  }

  ghost predicate BlocksOk(f: Format, bs: seq<Block>) {
    forall i :: 0 <= i < |bs| ==> BlockOk(f, bs[i])
  }

  function Sum(bs: seq<Block>): (r: nat)
    ensures bs == [] ==> r == 0
  {
    if bs == [] then 0 else bs[0].size + Sum(bs[1..])
  }

  /** The header walk from `a` meets exactly the blocks `bs`, in order. */
  ghost predicate Tiled(f: Format, m: seq<byte>, a: nat, bs: seq<Block>)
    decreases |bs|
  {
    if bs == [] then a <= |m|
    else HeaderIs(f, m, a, bs[0]) && Tiled(f, m, a + bs[0].size, bs[1..])
  }

  /** The block in use whose payload starts at `k`, if there is one. */
  function LiveAt(f: Format, a: nat, bs: seq<Block>, k: int): (r: Option<Block>)
    decreases |bs|
  {
    if bs == [] then None
    else if bs[0].state != Free && k == a + HeaderSize(f) then Some(bs[0])
    else LiveAt(f, a + bs[0].size, bs[1..], k)
  }

  /** Bytes the caller may use: what heap_info reports and realloc copies. */
  function Usable(f: Format, b: Block): int {
    b.size - HeaderSize(f) - b.slop
  }

  /** Byte `x` belongs to the payload (usable bytes and slop) that starts at `k`. */
  ghost predicate InPayload(f: Format, a: nat, bs: seq<Block>, k: int, x: int) {
    var b := LiveAt(f, a, bs, k);
    b.Some? && k <= x < k + b.value.size - HeaderSize(f)
  }

  ghost predicate Covered(f: Format, a: nat, bs: seq<Block>, x: int) {
    exists k :: InPayload(f, a, bs, k, x)
  }

  function FreeBytes(bs: seq<Block>): (r: nat) {
    if bs == [] then 0
    else (if bs[0].state == Free then bs[0].size else 0) + FreeBytes(bs[1..])
  }

  function LargestFree(bs: seq<Block>): (r: nat) {
    if bs == [] then 0
    else
      var rest := LargestFree(bs[1..]);
      if bs[0].state == Free && bs[0].size > rest then bs[0].size else rest
  }

  function CountUsed(bs: seq<Block>): (r: nat)
    ensures r <= |bs|
  {
    if bs == [] then 0
    else (if bs[0].state == Used then 1 else 0) + CountUsed(bs[1..])
  }

  /** (usable size, payload address) of the caller's blocks, in address order. */
  function UsedList(f: Format, a: nat, bs: seq<Block>): (r: seq<(int, int)>)
    decreases |bs|
    ensures |r| == CountUsed(bs)
  {
    if bs == [] then []
    else (if bs[0].state == Used then [(Usable(f, bs[0]), a + HeaderSize(f))] else [])
         + UsedList(f, a + bs[0].size, bs[1..])
  }

  // ----- malloc -----

  predicate FitsIn(b: Block, need: nat) {
    b.state == Free && b.size >= need
  }

  /** Index of the lowest-addressed free block of at least `need` bytes. */
  function FirstFit(bs: seq<Block>, need: nat): (i: nat)
    ensures i <= |bs|
    ensures i < |bs| ==> FitsIn(bs[i], need)
    ensures forall j :: 0 <= j < i ==> !FitsIn(bs[j], need)
  {
    if bs == [] || FitsIn(bs[0], need) then 0 else 1 + FirstFit(bs[1..], need)
  }

  lemma {:induction false} FirstFitUnique(bs: seq<Block>, need: nat, i: nat)
    requires i <= |bs|
    requires i < |bs| ==> FitsIn(bs[i], need)
    requires forall j :: 0 <= j < i ==> !FitsIn(bs[j], need)
    ensures i == FirstFit(bs, need)
  {
  }

  function Need(f: Format, sz: nat): (r: nat)
    ensures sz + HeaderSize(f) <= r < sz + HeaderSize(f) + 8 && r % 8 == 0
    ensures sz > 0 ==> r >= 16
  {
    RoundUp(sz, 8) + HeaderSize(f)
  }

  function PadSlop(f: Format, sz: nat): (r: nat)
    ensures r < 8
  {
    if f == C then RoundUp(sz, 8) - sz else 0
  }

  /** What a free block of `size` bytes becomes when a request takes it. */
  function Carve(f: Format, size: nat, sz: nat): (r: seq<Block>)
    requires size >= Need(f, sz)
    ensures Sum(r) == size
    ensures 1 <= |r| <= 2 && r[0].state == Used && (|r| == 2 ==> r[1].state == Free)
  {
    var need := Need(f, sz);
    if size - need >= MIN_SPLIT then
      var r := [Block(Used, PadSlop(f, sz), need), Block(Free, 0, size - need)];
      assert r[1..] == [r[1]];
      r
    else
      [Block(Used, if f == C then size - need else 0, size)]
  }

  // ----- defrag -----

  /** Length of the run of free blocks at the front. */
  function RunLength(bs: seq<Block>): (n: nat)
    ensures n <= |bs|
    ensures forall i :: 0 <= i < n ==> bs[i].state == Free
    ensures n < |bs| ==> bs[n].state != Free
  {
    if bs == [] || bs[0].state != Free then 0 else 1 + RunLength(bs[1..])
  }

  function Coalesce(bs: seq<Block>): (r: seq<Block>)
    decreases |bs|
  {
    if bs == [] then []
    else if bs[0].state != Free then [bs[0]] + Coalesce(bs[1..])
    else
      var n := RunLength(bs);
      [Block(Free, 0, Sum(bs[..n]))] + Coalesce(bs[n..])
  }

  ghost predicate NoAdjacentFree(bs: seq<Block>) {
    forall i :: 0 <= i < |bs| - 1 ==> !(bs[i].state == Free && bs[i + 1].state == Free)
  }
}
