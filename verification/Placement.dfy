/** Where malloc puts a block: first fit, splitting, or growing the heap. */
module Placement {
  import opened Bytes
  import opened Options
  import opened Blocks
  import opened BlockLemmas

  /** `blocks` is the heap afterwards, `offset` the place of the new block's
      header and `grow` how far the break moved. */
  datatype Placement = Placed(blocks: seq<Block>, offset: nat, grow: nat) | Refused

  function GrowBy(f: Format, sz: nat): nat {
    if f == C then Need(f, sz) else RoundUp(Need(f, sz), 4096)
  }

  /** The blocks made of freshly obtained heap. */
  function Fresh(f: Format, sz: nat): (r: seq<Block>)
    ensures |r| >= 1
  {
    if f == C then [Block(Used, PadSlop(f, sz), Need(f, sz))] else Carve(f, GrowBy(f, sz), sz)
  }

  function Place(f: Format, bs: seq<Block>, sz: nat, canGrow: bool): (r: Placement)
    ensures r.Refused? <==> !canGrow && FirstFit(bs, Need(f, sz)) == |bs|
  {
    var i := FirstFit(bs, Need(f, sz));
    if i < |bs| then Placed(bs[..i] + (Carve(f, bs[i].size, sz) + bs[i + 1..]), Sum(bs[..i]), 0)
    else if canGrow then Placed(bs + (Fresh(f, sz) + []), Sum(bs), GrowBy(f, sz))
    else Refused
  }

  /** What a caller of malloc(sz) may rely on. */
  ghost predicate GoodBlock(f: Format, b: Block, sz: nat) {
    && b.state == Used && BlockOk(f, b) && Need(f, sz) <= b.size < Need(f, sz) + 16
    && sz <= Usable(f, b)
    && (f == C ==> Usable(f, b) <= RoundUp(sz, 8))
    && b.slop < 256
  }

  lemma {:induction false} FreeOne(b: Block)
    ensures FreeBytes([b]) == if b.state == Free then b.size else 0
  {
    assert [b][1..] == [];
  }

  lemma {:induction false} CarveGood(f: Format, size: nat, sz: nat)
    requires sz > 0 && size % 8 == 0 && size >= Need(f, sz)
    ensures BlocksOk(f, Carve(f, size, sz)) && GoodBlock(f, Carve(f, size, sz)[0], sz)
    ensures f == C && |Carve(f, size, sz)| == 2 ==> Usable(f, Carve(f, size, sz)[0]) == sz
    ensures FreeBytes(Carve(f, size, sz)) + Carve(f, size, sz)[0].size == size
  {
    hide RoundUp, RoundDown;
    var c := Carve(f, size, sz);
    if |c| == 2 {
      assert c[1..] == [c[1]];
      FreeOne(c[1]);
    } else {
      assert c[1..] == [];
    }
  }

  /** The C header records the request itself when the block was split, and the
      rounded request when it was not. */
  lemma {:induction false} RecordedSize(size: nat, sz: nat)
    requires sz > 0 && size % 8 == 0 && size >= Need(C, sz)
    ensures var usable := Usable(C, Carve(C, size, sz)[0]); var split := size - Need(C, sz) >= MIN_SPLIT;
      && usable == (if split then sz else RoundUp(sz, 8))
      && (usable == sz <==> split || sz % 8 == 0)
  {
  }

  /** So the header does not always record the request: malloc(1) in a free block of 24 bytes records 8. */
  lemma {:induction false} RecordedSizeNotRequest()
    ensures Need(C, 1) <= 24 && Carve(C, 24, 1) == [Block(Used, 8, 24)] && Usable(C, Carve(C, 24, 1)[0]) == 8
  {
  }

  lemma {:induction false} FreshGood(f: Format, sz: nat)
    requires sz > 0
    ensures BlocksOk(f, Fresh(f, sz)) && GoodBlock(f, Fresh(f, sz)[0], sz)
    ensures f == C ==> Usable(f, Fresh(f, sz)[0]) == sz && |Fresh(f, sz)| == 1
    ensures Sum(Fresh(f, sz)) == GrowBy(f, sz)
    ensures FreeBytes(Fresh(f, sz)) + Fresh(f, sz)[0].size == GrowBy(f, sz)
    ensures if f == C then GrowBy(f, sz) == Need(f, sz)
            else GrowBy(f, sz) % 4096 == 0 && Need(f, sz) <= GrowBy(f, sz) < Need(f, sz) + 4096
  {
    hide RoundUp, RoundDown, Carve;
    if f == C {
      SumOne(Fresh(f, sz)[0]);
      assert Fresh(f, sz)[1..] == [];
    } else {
      EightsInPages(GrowBy(f, sz));
      CarveGood(f, GrowBy(f, sz), sz);
    }
  }

  /** A used block followed by free ones: one live payload, at the front. */
  lemma {:induction false} FrontLive(f: Format, a: nat, bs: seq<Block>, k: int)
    requires bs != [] && bs[0].state == Used
    requires forall i :: 1 <= i < |bs| ==> bs[i].state == Free
    ensures LiveAt(f, a, bs, k) == if k == a + HeaderSize(f) then Some(bs[0]) else None
  {
    LiveAllFree(f, a + bs[0].size, bs[1..], k);
  }

  /** The stretch of the old heap that malloc replaces, and what it puts there. */
  ghost predicate Replaces(f: Format, bs: seq<Block>, r: Placement, sz: nat,
                           pre: seq<Block>, mid: seq<Block>, mid': seq<Block>, post: seq<Block>) {
    && r.Placed? && bs == pre + (mid + post) && r.blocks == pre + (mid' + post)
    && r.offset == Sum(pre) && Sum(mid') == Sum(mid) + r.grow
    && (forall i :: 0 <= i < |mid| ==> mid[i].state == Free) && (r.grow > 0 ==> mid == [] && post == [])
    && BlocksOk(f, pre) && BlocksOk(f, mid) && BlocksOk(f, post) && GoodNew(f, mid', sz)
  }

  /** A block for the caller, followed by free ones. */
  ghost predicate GoodNew(f: Format, bs: seq<Block>, sz: nat) {
    && bs != [] && BlocksOk(f, bs) && GoodBlock(f, bs[0], sz) && (forall i :: 1 <= i < |bs| ==> bs[i].state == Free)
    && FreeBytes(bs) + bs[0].size == Sum(bs)
  }

  lemma {:induction false} CarveNew(f: Format, size: nat, sz: nat)
    requires sz > 0 && size % 8 == 0 && size >= Need(f, sz)
    ensures GoodNew(f, Carve(f, size, sz), sz)
  {
    CarveGood(f, size, sz);
  }

  lemma {:induction false} FreshNew(f: Format, sz: nat)
    requires sz > 0
    ensures GoodNew(f, Fresh(f, sz), sz)
  {
    hide GoodBlock, RoundUp, RoundDown, FreeBytes, Sum, Carve;
    FreshGood(f, sz);
    if f == Rust {
      EightsInPages(GrowBy(f, sz));
      CarveNew(f, GrowBy(f, sz), sz);
    }
  }

  lemma {:induction false} EightsInPages(x: nat)
    requires x % 4096 == 0
    ensures x % 8 == 0
  {
    var q := x / 4096;
    assert x == 4096 * q;
    assert x == 8 * (512 * q);
  }

  lemma {:induction false} PlaceShape(f: Format, bs: seq<Block>, sz: nat, canGrow: bool)
    returns (pre: seq<Block>, mid: seq<Block>, mid': seq<Block>, post: seq<Block>)
    requires BlocksOk(f, bs) && sz > 0 && Place(f, bs, sz, canGrow).Placed?
    ensures Replaces(f, bs, Place(f, bs, sz, canGrow), sz, pre, mid, mid', post)
  {
    var i := FirstFit(bs, Need(f, sz));
    if i < |bs| {
      pre, mid, mid', post := bs[..i], [bs[i]], Carve(f, bs[i].size, sz), bs[i + 1..];
      PlaceInFit(f, bs, sz, canGrow, i);
    } else {
      pre, mid, mid', post := bs, [], Fresh(f, sz), [];
      PlaceAtEnd(f, bs, sz, canGrow);
    }
  }

  lemma {:induction false} PlaceInFit(f: Format, bs: seq<Block>, sz: nat, canGrow: bool, i: nat)
    requires BlocksOk(f, bs) && sz > 0 && i == FirstFit(bs, Need(f, sz)) < |bs|
    ensures Replaces(f, bs, Place(f, bs, sz, canGrow), sz, bs[..i], [bs[i]], Carve(f, bs[i].size, sz), bs[i + 1..])
  {
    hide Carve, GoodNew, FirstFit, Sum, FreeBytes, Fresh;
    CarveNew(f, bs[i].size, sz);
    SumOne(bs[i]);
    assert bs == bs[..i] + ([bs[i]] + bs[i + 1..]);
  }

  lemma {:induction false} PlaceAtEnd(f: Format, bs: seq<Block>, sz: nat, canGrow: bool)
    requires BlocksOk(f, bs) && sz > 0 && canGrow && FirstFit(bs, Need(f, sz)) == |bs|
    ensures Replaces(f, bs, Place(f, bs, sz, canGrow), sz, bs, [], Fresh(f, sz), [])
  {
    hide GoodNew;
    FreshNew(f, sz);
    FreshGood(f, sz);
    assert bs == bs + ([] + []);
  }

  /** The new block is in the lowest-addressed free block that fits; the heap grows
      only when none does. */
  lemma {:induction false} PlaceFirstFit(f: Format, bs: seq<Block>, sz: nat, canGrow: bool)
    requires sz > 0 && Place(f, bs, sz, canGrow).Placed?
    ensures var r := Place(f, bs, sz, canGrow); var need := Need(f, sz);
      if r.grow > 0 then r.offset == Sum(bs) && forall i :: 0 <= i < |bs| ==> !FitsIn(bs[i], need)
      else exists i :: 0 <= i < |bs| && FitsIn(bs[i], need) && r.offset == Sum(bs[..i])
             && forall j :: 0 <= j < i ==> !FitsIn(bs[j], need)
  {
    var i := FirstFit(bs, Need(f, sz));
    if i < |bs| { assert FitsIn(bs[i], Need(f, sz)); }
  }

  /** What a request takes its block from: the free block that fits, or the growth. */
  function Extent(f: Format, bs: seq<Block>, sz: nat): nat {
    var i := FirstFit(bs, Need(f, sz));
    if i < |bs| then bs[i].size else GrowBy(f, sz)
  }

  /** What is left over of it serves the next request, so the heap does not grow for one
      that fits there. */
  lemma {:induction false} LeftoverServes(f: Format, bs: seq<Block>, sz: nat, canGrow: bool, sz': nat, canGrow': bool)
    requires sz' > 0 && Place(f, bs, sz, canGrow).Placed? && Need(f, sz) + Need(f, sz') <= Extent(f, bs, sz)
    ensures var r := Place(f, Place(f, bs, sz, canGrow).blocks, sz', canGrow'); r.Placed? && r.grow == 0
  {
    var i, need' := FirstFit(bs, Need(f, sz)), Need(f, sz');
    var blocks := Place(f, bs, sz, canGrow).blocks;
    var carved := Carve(f, Extent(f, bs, sz), sz);
    assert FitsIn(carved[1], need');
    assert blocks[i + 1] == carved[1] by {
      if i == |bs| { assert Fresh(f, sz) == carved; }
    }
    assert FirstFit(blocks, need') <= i + 1;
  }

  /** The new block is the only change to the blocks in use; it is big enough. */
  lemma {:induction false} PlaceLive(f: Format, a: nat, bs: seq<Block>, sz: nat, canGrow: bool) returns (b: Block)
    requires BlocksOk(f, bs) && sz > 0 && Place(f, bs, sz, canGrow).Placed?
    ensures var r := Place(f, bs, sz, canGrow);
      var p := a + r.offset + HeaderSize(f);
      && BlocksOk(f, r.blocks) && Sum(r.blocks) == Sum(bs) + r.grow
      && GoodBlock(f, b, sz)
      && LiveAt(f, a, bs, p) == None
      && FreeBytes(r.blocks) + b.size == FreeBytes(bs) + r.grow
      && (forall k :: LiveAt(f, a, r.blocks, k) == if k == p then Some(b) else LiveAt(f, a, bs, k))
  {
    hide LiveAt;
    var r := Place(f, bs, sz, canGrow);
    var p := a + r.offset + HeaderSize(f);
    var pre, mid, mid', post := PlaceShape(f, bs, sz, canGrow);
    b := mid'[0];
    assert BlocksOk(f, mid' + post);
    SumThree(pre, mid, post);
    SumThree(pre, mid', post);
    FreeThree(f, pre, mid, post);
    FreeThree(f, pre, mid', post);
    forall k
      ensures LiveAt(f, a, r.blocks, k) == if k == p then Some(b) else LiveAt(f, a, bs, k)
      ensures k == p ==> LiveAt(f, a, bs, k) == None
    {
      LiveStretch(f, a, pre, mid, mid', post, r.grow, k);
    }
  }

  lemma {:induction false} SumThree(pre: seq<Block>, mid: seq<Block>, post: seq<Block>)
    ensures Sum(pre + (mid + post)) == Sum(pre) + Sum(mid) + Sum(post)
  {
    SumConcat(pre, mid + post);
    SumConcat(mid, post);
  }

  lemma {:induction false} FreeThree(f: Format, pre: seq<Block>, mid: seq<Block>, post: seq<Block>)
    ensures FreeBytes(pre + (mid + post)) == FreeBytes(pre) + FreeBytes(mid) + FreeBytes(post)
    ensures (forall i :: 0 <= i < |mid| ==> mid[i].state == Free) ==> FreeBytes(mid) == Sum(mid)
  {
    FreeBytesConcat(pre, mid + post);
    FreeBytesConcat(mid, post);
    if forall i :: 0 <= i < |mid| ==> mid[i].state == Free { LiveAllFree(f, 0, mid, 0); }
  }

  lemma {:induction false} LiveStretch(f: Format, a: nat, pre: seq<Block>, mid: seq<Block>, mid': seq<Block>,
                                       post: seq<Block>,
                    grow: nat, k: int)
    requires BlocksOk(f, pre) && BlocksOk(f, mid) && BlocksOk(f, mid') && BlocksOk(f, post)
    requires Sum(mid') == Sum(mid) + grow && (grow > 0 ==> mid == [] && post == [])
    requires forall i :: 0 <= i < |mid| ==> mid[i].state == Free
    requires mid' != [] && mid'[0].state == Used && (forall i :: 1 <= i < |mid'| ==> mid'[i].state == Free)
    ensures LiveAt(f, a, pre + (mid' + post), k)
         == if k == a + Sum(pre) + HeaderSize(f) then Some(mid'[0]) else LiveAt(f, a, pre + (mid + post), k)
    ensures k == a + Sum(pre) + HeaderSize(f) ==> LiveAt(f, a, pre + (mid + post), k) == None
  {
    LiveThree(f, a, pre, mid, post, k);
    LiveThree(f, a, pre, mid', post, k);
    LiveAllFree(f, a + Sum(pre), mid, k);
    FrontLive(f, a + Sum(pre), mid', k);
    var c := a + Sum(pre) + Sum(mid);
    if LiveAt(f, c, post, k).Some? { LiveRange(f, c, post, k); }
    if LiveAt(f, a, pre, k).Some? { LiveRange(f, a, pre, k); }
  }

  /** Overwrite the state in the header of the block whose payload is at `p`. */
  function SetState(f: Format, a: nat, bs: seq<Block>, p: int, s: State): (r: seq<Block>)
    ensures |r| == |bs|
    decreases |bs|
  {
    if bs == [] then []
    else if p == a + HeaderSize(f) then [Block(s, if s == Free then 0 else bs[0].slop, bs[0].size)] + bs[1..]
    else [bs[0]] + SetState(f, a + bs[0].size, bs[1..], p, s)
  }

  lemma {:induction false} SetStateAt(f: Format, a: nat, pre: seq<Block>, b: Block, post: seq<Block>, s: State)
    requires BlocksOk(f, pre)
    ensures SetState(f, a, pre + ([b] + post), a + Sum(pre) + HeaderSize(f), s)
         == pre + ([Block(s, if s == Free then 0 else b.slop, b.size)] + post)
    decreases |pre|
  {
    var b' := Block(s, if s == Free then 0 else b.slop, b.size);
    if pre == [] {
      assert pre + ([b] + post) == [b] + post && pre + ([b'] + post) == [b'] + post;
      assert ([b] + post)[1..] == post;
    } else {
      hide SetState, Sum, BlocksOk;
      FrontPassed(f, a, pre, [b] + post, s);
      SetStateAt(f, a + pre[0].size, pre[1..], b, post, s);
      assert [pre[0]] + (pre[1..] + ([b'] + post)) == pre + ([b'] + post);
    }
  }

  /** A block before the one whose state is set is passed over. */
  lemma {:induction false} FrontPassed(f: Format, a: nat, pre: seq<Block>, rest: seq<Block>, s: State)
    requires pre != [] && BlocksOk(f, pre)
    ensures BlocksOk(f, pre[1..]) && Sum(pre) == pre[0].size + Sum(pre[1..])
    ensures SetState(f, a, pre + rest, a + Sum(pre) + HeaderSize(f), s)
         == [pre[0]] + SetState(f, a + pre[0].size, pre[1..] + rest, a + Sum(pre) + HeaderSize(f), s)
  {
    assert (pre + rest)[1..] == pre[1..] + rest;
  }
}
