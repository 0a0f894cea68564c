/** What defrag promises, about the sequence of blocks. */
module Coalescing {
  import opened Bytes
  import opened Options
  import opened Blocks
  import opened BlockLemmas

  ghost predicate SameLive(f: Format, a: nat, x: seq<Block>, y: seq<Block>) {
    forall k :: LiveAt(f, a, x, k) == LiveAt(f, a, y, k)
  }

  /** Taking the first run off: `bs` is a run of free blocks and a rest that
      does not begin with one. */
  lemma {:induction false} RunSplit(f: Format, bs: seq<Block>)
    requires BlocksOk(f, bs) && bs != [] && bs[0].state == Free
    ensures var n := RunLength(bs);
      && 0 < n && bs == bs[..n] + bs[n..]
      && Sum(bs) == Sum(bs[..n]) + Sum(bs[n..])
      && BlockOk(f, Block(Free, 0, Sum(bs[..n])))
      && Sum(bs[..n]) >= bs[0].size
  {
    var n := RunLength(bs);
    assert bs == bs[..n] + bs[n..];
    SumConcat(bs[..n], bs[n..]);
    SumMultiple(f, bs[..n]);
    assert bs[..n] == [bs[0]] + bs[1..n];
    SumConcat([bs[0]], bs[1..n]);
    SumOne(bs[0]);
  }

  function FrontLength(bs: seq<Block>): (n: nat)
    requires bs != []
    ensures 0 < n <= |bs|
  {
    if bs[0].state != Free then 1 else RunLength(bs)
  }

  /** The block defrag makes of the front of the heap. */
  function FrontBlock(bs: seq<Block>): Block
    requires bs != []
  {
    if bs[0].state != Free then bs[0] else Block(Free, 0, Sum(bs[..RunLength(bs)]))
  }

  lemma {:induction false} CoalesceStep(f: Format, bs: seq<Block>)
    requires BlocksOk(f, bs) && bs != []
    ensures var n, h := FrontLength(bs), FrontBlock(bs);
      && Coalesce(bs) == [h] + Coalesce(bs[n..]) && bs == bs[..n] + bs[n..]
      && h.size == Sum(bs[..n]) && BlockOk(f, h)
      && Sum(bs) == Sum(bs[..n]) + Sum(bs[n..])
  {
    if bs[0].state != Free {
      assert bs[..1] == [bs[0]] && bs == bs[..1] + bs[1..];
      SumOne(bs[0]);
    } else {
      RunSplit(f, bs);
    }
  }

  lemma {:induction false} FrontSame(f: Format, a: nat, bs: seq<Block>, k: int)
    requires bs != []
    ensures var n, h := FrontLength(bs), FrontBlock(bs);
      && LiveAt(f, a, [h], k) == LiveAt(f, a, bs[..n], k)
      && FreeBytes([h]) == FreeBytes(bs[..n]) && UsedList(f, a, [h]) == UsedList(f, a, bs[..n])
  {
    if bs[0].state != Free {
      assert bs[..1] == [bs[0]];
    } else {
      LiveAllFree(f, a, bs[..FrontLength(bs)], k);
      LiveAllFree(f, a, [FrontBlock(bs)], k);
      SumOne(FrontBlock(bs));
    }
  }

  /** Nothing is gained or lost: total size, free bytes and every block in use. */
  lemma {:induction false} CoalesceSum(f: Format, bs: seq<Block>)
    requires BlocksOk(f, bs)
    ensures BlocksOk(f, Coalesce(bs))
    ensures Sum(Coalesce(bs)) == Sum(bs)
    decreases |bs|
  {
    if bs != [] {
      CoalesceStep(f, bs);
      var rest := bs[FrontLength(bs)..];
      CoalesceSum(f, rest);
      SumConcat([FrontBlock(bs)], Coalesce(rest));
      SumOne(FrontBlock(bs));
    }
  }

  lemma {:induction false} CoalesceFreeBytes(f: Format, bs: seq<Block>)
    requires BlocksOk(f, bs)
    ensures FreeBytes(Coalesce(bs)) == FreeBytes(bs)
    decreases |bs|
  {
    if bs != [] {
      CoalesceStep(f, bs);
      FrontSame(f, 0, bs, 0);
      var n := FrontLength(bs);
      CoalesceFreeBytes(f, bs[n..]);
      FreeBytesConcat([FrontBlock(bs)], Coalesce(bs[n..]));
      FreeBytesConcat(bs[..n], bs[n..]);
    }
  }

  lemma {:induction false} CoalesceLiveAt(f: Format, a: nat, bs: seq<Block>, k: int)
    requires BlocksOk(f, bs)
    ensures LiveAt(f, a, Coalesce(bs), k) == LiveAt(f, a, bs, k)
    decreases |bs|
  {
    if bs != [] {
      CoalesceStep(f, bs);
      FrontSame(f, a, bs, k);
      var n := FrontLength(bs);
      var h, rest, a' := FrontBlock(bs), bs[n..], a + Sum(bs[..n]);
      CoalesceLiveAt(f, a', rest, k);
      SumOne(h);
      LiveConcat(f, a, [h], Coalesce(rest), k);
      LiveConcat(f, a, bs[..n], rest, k);
    }
  }

  /** Every block in use keeps its address and its header. */
  lemma {:induction false} CoalesceKeepsLive(f: Format, a: nat, bs: seq<Block>)
    requires BlocksOk(f, bs)
    ensures SameLive(f, a, Coalesce(bs), bs)
  {
    forall k ensures LiveAt(f, a, Coalesce(bs), k) == LiveAt(f, a, bs, k) {
      CoalesceLiveAt(f, a, bs, k);
    }
  }

  lemma {:induction false} CoalesceSeparates(bs: seq<Block>)
    ensures NoAdjacentFree(Coalesce(bs))
    ensures bs != [] ==> Coalesce(bs) != [] && Coalesce(bs)[0].state == bs[0].state
    decreases |bs|
  {
    if bs == [] {
    } else if bs[0].state != Free {
      CoalesceSeparates(bs[1..]);
      NoAdjacentCons(bs[0], Coalesce(bs[1..]));
    } else {
      var n := RunLength(bs);
      assert n > 0;
      CoalesceSeparates(bs[n..]);
      NoAdjacentCons(Block(Free, 0, Sum(bs[..n])), Coalesce(bs[n..]));
    }
  }

  lemma {:induction false} NoAdjacentCons(b: Block, bs: seq<Block>)
    requires NoAdjacentFree(bs)
    requires bs != [] && b.state == Free ==> bs[0].state != Free
    ensures NoAdjacentFree([b] + bs)
  {
    var r := [b] + bs;
    forall i | 0 <= i < |r| - 1 ensures !(r[i].state == Free && r[i + 1].state == Free) {
      if i > 0 { assert r[i] == bs[i - 1] && r[i + 1] == bs[i]; }
    }
  }

  lemma {:induction false} CoalesceGrowsLargest(f: Format, bs: seq<Block>)
    requires BlocksOk(f, bs)
    ensures LargestFree(Coalesce(bs)) >= LargestFree(bs)
    decreases |bs|
  {
    if bs == [] {
    } else if bs[0].state != Free {
      CoalesceGrowsLargest(f, bs[1..]);
      assert Coalesce(bs)[1..] == Coalesce(bs[1..]);
    } else {
      var n := RunLength(bs);
      RunSplit(f, bs);
      CoalesceGrowsLargest(f, bs[n..]);
      assert Coalesce(bs)[1..] == Coalesce(bs[n..]);
      LargestFreeConcat(bs[..n], bs[n..]);
      LargestAtMostSum(bs[..n]);
    }
  }

  lemma {:induction false} LargestAtMostSum(bs: seq<Block>)
    ensures LargestFree(bs) <= Sum(bs)
  {
    if bs != [] { LargestAtMostSum(bs[1..]); }
  }

  /** `run` is a run of free blocks between `pre` and `post` that extends
      neither way. */
  ghost predicate MaximalRun(pre: seq<Block>, run: seq<Block>, post: seq<Block>) {
    && run != []
    && (forall j :: 0 <= j < |run| ==> run[j].state == Free)
    && (pre != [] ==> pre[|pre| - 1].state != Free)
    && (post != [] ==> post[0].state != Free)
  }

  /** Each free block of the result is a maximal run of old free blocks. */
  lemma {:induction false} CoalesceMaximalRuns(f: Format, bs: seq<Block>, i: nat)
    returns (pre: seq<Block>, run: seq<Block>, post: seq<Block>)
    requires BlocksOk(f, bs) && i < |Coalesce(bs)| && Coalesce(bs)[i].state == Free
    ensures bs == pre + (run + post) && MaximalRun(pre, run, post)
    ensures Sum(Coalesce(bs)[..i]) == Sum(pre)
    ensures Coalesce(bs)[i] == Block(Free, 0, Sum(run))
    decreases |bs|
  {
    hide RunLength;
    CoalesceStep(f, bs);
    var n, h, c := FrontLength(bs), FrontBlock(bs), Coalesce(bs);
    var front, rest := bs[..n], bs[n..];
    if i == 0 {
      assert c[..0] == [];
      pre, run, post := [], front, rest;
      assert bs == pre + (run + post);
    } else {
      assert c[i] == Coalesce(rest)[i - 1];
      var pre', run', post' := CoalesceMaximalRuns(f, rest, i - 1);
      PrefixSum(h, Coalesce(rest), i - 1);
      RunAfterFront(bs, n, pre', run', post');
      pre, run, post := front + pre', run', post';
    }
  }

  /** A maximal run behind the front is one of the whole: the front ends in a block in use,
      or what comes next does not begin with a free one. */
  lemma {:induction false} RunAfterFront(bs: seq<Block>, n: nat, pre: seq<Block>, run: seq<Block>, post: seq<Block>)
    requires bs != [] && n == FrontLength(bs) < |bs| && bs[n..] == pre + (run + post) && MaximalRun(pre, run, post)
    ensures bs == (bs[..n] + pre) + (run + post) && MaximalRun(bs[..n] + pre, run, post)
    ensures Sum(bs[..n] + pre) == Sum(bs[..n]) + Sum(pre)
  {
    assert bs[n].state == Free ==> bs[n - 1].state != Free;
    RunBehind(bs[..n], bs[n..], pre, run, post);
  }

  lemma {:induction false} RunBehind(front: seq<Block>, rest: seq<Block>,
                                     pre: seq<Block>, run: seq<Block>, post: seq<Block>)
    requires front != [] && rest == pre + (run + post) && MaximalRun(pre, run, post)
    requires rest[0].state == Free ==> front[|front| - 1].state != Free
    ensures front + rest == (front + pre) + (run + post) && MaximalRun(front + pre, run, post)
    ensures Sum(front + pre) == Sum(front) + Sum(pre)
  {
    SumConcat(front, pre);
    assert pre == [] ==> rest[0] == run[0];
  }

  lemma {:induction false} PrefixSum(h: Block, bs: seq<Block>, i: nat)
    requires i <= |bs|
    ensures Sum(([h] + bs)[..i + 1]) == h.size + Sum(bs[..i])
  {
    assert ([h] + bs)[..i + 1] == [h] + bs[..i];
    SumConcat([h], bs[..i]);
    SumOne(h);
  }

  /** A heap with no two adjacent free blocks is determined by its blocks in
      use and its length, so the result of defrag is the only one possible. */
  lemma {:induction false} NormalFormUnique(f: Format, a: nat, x: seq<Block>, y: seq<Block>)
    requires BlocksOk(f, x) && BlocksOk(f, y) && NoAdjacentFree(x) && NoAdjacentFree(y)
    requires Sum(x) == Sum(y) && SameLive(f, a, x, y)
    ensures x == y
    decreases |x|
  {
    if x == [] || y == [] {
      SumMultiple(f, x);
      SumMultiple(f, y);
    } else {
      assert LiveAt(f, a, x, a + HeaderSize(f)) == LiveAt(f, a, y, a + HeaderSize(f));
      if x[0].state == Free && LiveAt(f, a, x, a + HeaderSize(f)).Some? {
        LiveRange(f, a + x[0].size, x[1..], a + HeaderSize(f));
      }
      if y[0].state == Free && LiveAt(f, a, y, a + HeaderSize(f)).Some? {
        LiveRange(f, a + y[0].size, y[1..], a + HeaderSize(f));
      }
      if x[0].state == Free {
        assert y[0].state == Free;
        FirstGapAtMost(f, a, x, y);
        FirstGapAtMost(f, a, y, x);
      }
      assert x[0] == y[0];
      var a' := a + x[0].size;
      forall k ensures LiveAt(f, a', x[1..], k) == LiveAt(f, a', y[1..], k) {
        assert LiveAt(f, a, x, k) == LiveAt(f, a, y, k);
        if LiveAt(f, a', x[1..], k).Some? { LiveRange(f, a', x[1..], k); }
        if LiveAt(f, a', y[1..], k).Some? { LiveRange(f, a', y[1..], k); }
      }
      assert NoAdjacentFree(x[1..]) && NoAdjacentFree(y[1..]) by {
        NoAdjacentTail(x);
        NoAdjacentTail(y);
      }
      NormalFormUnique(f, a', x[1..], y[1..]);
      assert x == [x[0]] + x[1..] && y == [y[0]] + y[1..];
    }
  }

  lemma {:induction false} NoAdjacentTail(bs: seq<Block>)
    requires bs != [] && NoAdjacentFree(bs)
    ensures NoAdjacentFree(bs[1..])
  {
    forall i | 0 <= i < |bs[1..]| - 1 ensures !(bs[1..][i].state == Free && bs[1..][i + 1].state == Free) {
      assert bs[1..][i] == bs[i + 1] && bs[1..][i + 1] == bs[i + 2];
    }
  }

  lemma {:induction false} FirstGapAtMost(f: Format, a: nat, x: seq<Block>, y: seq<Block>)
    requires BlocksOk(f, x) && BlocksOk(f, y) && NoAdjacentFree(x)
    requires x != [] && y != [] && x[0].state == Free && y[0].state == Free
    requires Sum(x) == Sum(y) && SameLive(f, a, x, y)
    ensures y[0].size <= x[0].size
  {
    if |x| == 1 {
      assert x[1..] == [];
    } else {
      var k := a + x[0].size + HeaderSize(f);
      assert x[1].state != Free && x[1..][0] == x[1];
      if k == a + HeaderSize(f) { assert false; }
      assert LiveAt(f, a, x, k) == Some(x[1]);
      assert LiveAt(f, a, y, k).Some?;
      LiveRange(f, a + y[0].size, y[1..], k);
    }
  }

  /** Defragmenting twice is the same as once. */
  lemma {:induction false} CoalesceIdempotent(f: Format, bs: seq<Block>)
    requires BlocksOk(f, bs)
    ensures Coalesce(Coalesce(bs)) == Coalesce(bs)
  {
    var c := Coalesce(bs);
    CoalesceSum(f, bs);
    CoalesceSum(f, c);
    CoalesceSeparates(bs);
    CoalesceSeparates(c);
    CoalesceKeepsLive(f, 0, c);
    NormalFormUnique(f, 0, Coalesce(c), c);
  }

  /** `Coalesce(bs)` is the one heap with the same blocks in use, the same
      length and no two adjacent free blocks. */
  lemma {:induction false} CoalesceCharacterised(f: Format, a: nat, bs: seq<Block>, c: seq<Block>)
    requires BlocksOk(f, bs) && BlocksOk(f, c)
    ensures c == Coalesce(bs) <==> Sum(c) == Sum(bs) && SameLive(f, a, c, bs) && NoAdjacentFree(c)
  {
    CoalesceSum(f, bs);
    CoalesceKeepsLive(f, a, bs);
    CoalesceSeparates(bs);
    if Sum(c) == Sum(bs) && SameLive(f, a, c, bs) && NoAdjacentFree(c) {
      assert SameLive(f, a, c, Coalesce(bs)) by {
        forall k ensures LiveAt(f, a, c, k) == LiveAt(f, a, Coalesce(bs), k) {
          assert LiveAt(f, a, c, k) == LiveAt(f, a, bs, k);
          assert LiveAt(f, a, Coalesce(bs), k) == LiveAt(f, a, bs, k);
        }
      }
      NormalFormUnique(f, a, c, Coalesce(bs));
    }
  }
}
