/** Facts about block sequences: how tilings and live maps split and join. */
module BlockLemmas {
  import opened Bytes
  import opened Options
  import opened Blocks

  lemma {:induction false} SumConcat(x: seq<Block>, y: seq<Block>)
    ensures Sum(x + y) == Sum(x) + Sum(y)
  {
    if x == [] {
      assert x + y == y;
    } else {
      assert (x + y)[1..] == x[1..] + y;
      SumConcat(x[1..], y);
    }
  }

  lemma {:induction false} TiledConcat(f: Format, m: seq<byte>, a: nat, x: seq<Block>, y: seq<Block>)
    ensures Tiled(f, m, a, x + y) ==> Tiled(f, m, a + Sum(x), y)
    ensures Tiled(f, m, a, x + y) && a + Sum(x) <= |m| ==> Tiled(f, m, a, x)
    ensures Tiled(f, m, a, x) && Tiled(f, m, a + Sum(x), y) ==> Tiled(f, m, a, x + y)
    decreases |x|
  {
    if x == [] {
      assert x + y == y;
    } else {
      assert (x + y)[1..] == x[1..] + y;
      TiledConcat(f, m, a + x[0].size, x[1..], y);
    }
  }

  lemma {:induction false} TiledEnd(f: Format, m: seq<byte>, a: nat, bs: seq<Block>)
    requires Tiled(f, m, a, bs)
    ensures a + Sum(bs) <= |m|
    decreases |bs|
  {
    if bs != [] { TiledEnd(f, m, a + bs[0].size, bs[1..]); }
  }

  lemma {:induction false} LiveConcat(f: Format, a: nat, x: seq<Block>, y: seq<Block>, k: int)
    ensures LiveAt(f, a, x + y, k)
         == if LiveAt(f, a, x, k).Some? then LiveAt(f, a, x, k) else LiveAt(f, a + Sum(x), y, k)
    decreases |x|
  {
    if x == [] {
      assert x + y == y;
    } else {
      assert (x + y)[1..] == x[1..] + y;
      LiveConcat(f, a + x[0].size, x[1..], y, k);
    }
  }

  lemma {:induction false} FreeBytesConcat(x: seq<Block>, y: seq<Block>)
    ensures FreeBytes(x + y) == FreeBytes(x) + FreeBytes(y)
  {
    if x == [] {
      assert x + y == y;
    } else {
      assert (x + y)[1..] == x[1..] + y;
      FreeBytesConcat(x[1..], y);
    }
  }

  lemma {:induction false} UsedListConcat(f: Format, a: nat, x: seq<Block>, y: seq<Block>)
    ensures UsedList(f, a, x + y) == UsedList(f, a, x) + UsedList(f, a + Sum(x), y)
    decreases |x|
  {
    if x == [] {
      assert x + y == y;
    } else {
      assert (x + y)[1..] == x[1..] + y;
      UsedListConcat(f, a + x[0].size, x[1..], y);
    }
  }

  lemma {:induction false} LargestFreeConcat(x: seq<Block>, y: seq<Block>)
    ensures LargestFree(x + y) == if LargestFree(x) > LargestFree(y) then LargestFree(x) else LargestFree(y)
  {
    if x == [] {
      assert x + y == y;
    } else {
      assert (x + y)[1..] == x[1..] + y;
      LargestFreeConcat(x[1..], y);
    }
  }

  /** LargestFree is the maximum over the free blocks, and 0 when there are none. */
  lemma {:induction false} LargestFreeIsMax(bs: seq<Block>)
    ensures forall i :: 0 <= i < |bs| && bs[i].state == Free ==> bs[i].size <= LargestFree(bs)
    ensures LargestFree(bs) > 0 ==> exists i :: 0 <= i < |bs| && bs[i].state == Free && bs[i].size == LargestFree(bs)
  {
    if bs != [] {
      var rest := bs[1..];
      LargestFreeIsMax(rest);
      forall i | 0 <= i < |bs| && bs[i].state == Free
        ensures bs[i].size <= LargestFree(bs)
      {
        if i > 0 { assert bs[i] == rest[i - 1]; }
      }
      if LargestFree(bs) > 0 {
        if bs[0].state == Free && bs[0].size > LargestFree(rest) {
          assert bs[0].size == LargestFree(bs);
        } else {
          var i :| 0 <= i < |rest| && rest[i].state == Free && rest[i].size == LargestFree(rest);
          assert bs[i + 1] == rest[i];
        }
      }
    }
  }

  /** A live payload lies inside its tiling, above a header. */
  lemma {:induction false} LiveRange(f: Format, a: nat, bs: seq<Block>, k: int)
    requires BlocksOk(f, bs) && LiveAt(f, a, bs, k).Some?
    ensures var b := LiveAt(f, a, bs, k).value;
      && BlockOk(f, b) && b.state != Free
      && a + HeaderSize(f) <= k && k - HeaderSize(f) + b.size <= a + Sum(bs)
    decreases |bs|
  {
    if bs[0].state != Free && k == a + HeaderSize(f) {
    } else {
      LiveRange(f, a + bs[0].size, bs[1..], k);
    }
  }

  lemma {:induction false} LiveAligned(f: Format, a: nat, bs: seq<Block>, k: int)
    requires BlocksOk(f, bs) && LiveAt(f, a, bs, k).Some? && a % 8 == 0
    ensures k % 8 == 0
    decreases |bs|
  {
    if bs[0].state != Free && k == a + HeaderSize(f) {
    } else {
      SumOfEights(a, bs[0].size);
      LiveAligned(f, a + bs[0].size, bs[1..], k);
    }
  }

  lemma {:induction false} SumOfEights(x: nat, y: nat)
    requires x % 8 == 0 && y % 8 == 0
    ensures (x + y) % 8 == 0
  {
  }

  /** Two live blocks do not overlap, headers included. */
  lemma {:induction false} LiveDisjoint(f: Format, a: nat, bs: seq<Block>, j: int, k: int)
    requires BlocksOk(f, bs) && LiveAt(f, a, bs, j).Some? && LiveAt(f, a, bs, k).Some? && j < k
    ensures j + LiveAt(f, a, bs, j).value.size <= k
    decreases |bs|
  {
    var a', rest := a + bs[0].size, bs[1..];
    if LiveAt(f, a', rest, k).Some? { LiveRange(f, a', rest, k); }
    if LiveAt(f, a', rest, j).Some? {
      LiveRange(f, a', rest, j);
      if LiveAt(f, a', rest, k).Some? { LiveDisjoint(f, a', rest, j, k); }
    }
  }

  /** The place in the sequence of the block a live address names. */
  lemma {:induction false} LiveIndex(f: Format, a: nat, bs: seq<Block>, k: int) returns (i: nat)
    requires BlocksOk(f, bs) && LiveAt(f, a, bs, k).Some?
    ensures i < |bs| && bs[i].state != Free
    ensures k == a + Sum(bs[..i]) + HeaderSize(f) && LiveAt(f, a, bs, k) == Some(bs[i])
    decreases |bs|
  {
    if bs[0].state != Free && k == a + HeaderSize(f) {
      i := 0;
      assert bs[..0] == [];
    } else {
      var j := LiveIndex(f, a + bs[0].size, bs[1..], k);
      i := j + 1;
      assert bs[..i] == [bs[0]] + bs[1..][..j];
      SumConcat([bs[0]], bs[1..][..j]);
      SumOne(bs[0]);
    }
  }

  lemma {:induction false} SumOne(b: Block)
    ensures Sum([b]) == b.size
  {
    assert [b][1..] == [];
  }

  lemma {:induction false} TiledOne(f: Format, m: seq<byte>, a: nat, b: Block)
    ensures Tiled(f, m, a, [b]) <==> HeaderIs(f, m, a, b) && a + b.size <= |m|
  {
    assert [b][1..] == [];
  }

  lemma {:induction false} Split(bs: seq<Block>, i: nat)
    requires i < |bs|
    ensures bs == bs[..i] + ([bs[i]] + bs[i + 1..])
    ensures Sum(bs) == Sum(bs[..i]) + bs[i].size + Sum(bs[i + 1..])
    ensures Sum(bs[..i + 1]) == Sum(bs[..i]) + bs[i].size
  {
    var pre, one, post := bs[..i], [bs[i]], bs[i + 1..];
    assert bs == pre + (one + post);
    assert bs[..i + 1] == pre + one;
    SumConcat(pre, one + post);
    SumConcat(one, post);
    SumConcat(pre, one);
    SumOne(bs[i]);
  }

  /** The walk reaches block `i` at the sum of the sizes before it. */
  lemma {:induction false} TiledAt(f: Format, m: seq<byte>, a: nat, bs: seq<Block>, i: nat)
    requires Tiled(f, m, a, bs) && i < |bs|
    ensures Sum(bs[..i + 1]) == Sum(bs[..i]) + bs[i].size
    ensures HeaderIs(f, m, a + Sum(bs[..i]), bs[i])
    ensures a + Sum(bs[..i]) + bs[i].size <= a + Sum(bs) <= |m|
  {
    Split(bs, i);
    TiledEnd(f, m, a, bs);
    TiledConcat(f, m, a, bs[..i], [bs[i]] + bs[i + 1..]);
    assert ([bs[i]] + bs[i + 1..])[0] == bs[i];
  }

  /** The walk stops exactly at the end: a proper prefix ends strictly below it. */
  lemma {:induction false} PrefixEnd(f: Format, bs: seq<Block>, i: nat)
    requires BlocksOk(f, bs) && i <= |bs|
    ensures Sum(bs[..i]) <= Sum(bs)
    ensures Sum(bs[..i]) == Sum(bs) <==> i == |bs|
  {
    if i == |bs| { assert bs[..i] == bs; } else { Split(bs, i); }
  }

  lemma {:induction false} SumMultiple(f: Format, bs: seq<Block>)
    requires BlocksOk(f, bs)
    ensures Sum(bs) % 8 == 0 && Sum(bs) >= 16 * |bs|
  {
    if bs != [] { SumMultiple(f, bs[1..]); }
  }

  lemma {:induction false} LiveThree(f: Format, a: nat, pre: seq<Block>, mid: seq<Block>, post: seq<Block>, k: int)
    requires BlocksOk(f, pre) && BlocksOk(f, mid) && BlocksOk(f, post)
    ensures LiveAt(f, a, pre + (mid + post), k)
         == if k < a + Sum(pre) then LiveAt(f, a, pre, k)
            else if k < a + Sum(pre) + Sum(mid) then LiveAt(f, a + Sum(pre), mid, k)
            else LiveAt(f, a + Sum(pre) + Sum(mid), post, k)
  {
    var b, c := a + Sum(pre), a + Sum(pre) + Sum(mid);
    LiveConcat(f, a, pre, mid + post, k);
    LiveConcat(f, b, mid, post, k);
    if LiveAt(f, a, pre, k).Some? { LiveRange(f, a, pre, k); }
    if LiveAt(f, b, mid, k).Some? { LiveRange(f, b, mid, k); }
    if LiveAt(f, c, post, k).Some? { LiveRange(f, c, post, k); }
  }

  /** Replacing a stretch of blocks changes the live blocks on that stretch only. */
  lemma {:induction false} LiveReplace(f: Format, a: nat, pre: seq<Block>, mid: seq<Block>, mid': seq<Block>,
                                       post: seq<Block>, k: int)
    requires BlocksOk(f, pre) && BlocksOk(f, mid) && BlocksOk(f, mid') && BlocksOk(f, post)
    requires Sum(mid) == Sum(mid')
    ensures LiveAt(f, a, pre + (mid' + post), k)
         == if a + Sum(pre) <= k < a + Sum(pre) + Sum(mid) then LiveAt(f, a + Sum(pre), mid', k)
            else LiveAt(f, a, pre + (mid + post), k)
  {
    LiveThree(f, a, pre, mid, post, k);
    LiveThree(f, a, pre, mid', post, k);
  }

  /** No live payload byte lies inside a stretch of free blocks. */
  lemma {:induction false} FreeStretchDead(f: Format, a: nat, pre: seq<Block>, mid: seq<Block>,
                                           post: seq<Block>, k: int, x: int)
    requires BlocksOk(f, pre) && BlocksOk(f, mid) && BlocksOk(f, post)
    requires forall i :: 0 <= i < |mid| ==> mid[i].state == Free
    requires InPayload(f, a, pre + (mid + post), k, x)
    ensures x < a + Sum(pre) || x >= a + Sum(pre) + Sum(mid)
  {
    LiveThree(f, a, pre, mid, post, k);
    LiveAllFree(f, a + Sum(pre), mid, k);
    if k < a + Sum(pre) { LiveRange(f, a, pre, k); }
  }

  lemma {:induction false} LiveAllFree(f: Format, a: nat, bs: seq<Block>, k: int)
    requires forall i :: 0 <= i < |bs| ==> bs[i].state == Free
    ensures LiveAt(f, a, bs, k) == None && FreeBytes(bs) == Sum(bs) && UsedList(f, a, bs) == []
    decreases |bs|
  {
    if bs != [] { LiveAllFree(f, a + bs[0].size, bs[1..], k); }
  }

  /** A tiling survives writes that stay off its headers. */
  lemma {:induction false} TiledFrame(f: Format, m: seq<byte>, m': seq<byte>, a: nat, bs: seq<Block>)
    requires Tiled(f, m, a, bs) && |m'| == |m| && BlocksOk(f, bs) && a + Sum(bs) <= |m|
    requires forall x :: a <= x < a + Sum(bs) && m[x] != m'[x] ==> Covered(f, a, bs, x)
    ensures Tiled(f, m', a, bs)
    decreases |bs|
  {
    if bs != [] {
      var a', rest := a + bs[0].size, bs[1..];
      forall x | a <= x < a + HeaderSize(f) ensures m[x] == m'[x] {
        if m[x] != m'[x] {
          var k :| InPayload(f, a, bs, k, x);
          LiveRange(f, a, bs, k);
        }
      }
      HeaderFrame(f, m, m', a, bs[0]);
      forall x | a' <= x < a' + Sum(rest) && m[x] != m'[x] ensures Covered(f, a', rest, x) {
        var k :| InPayload(f, a, bs, k, x);
        assert InPayload(f, a', rest, k, x);
      }
      TiledFrame(f, m, m', a', rest);
    }
  }

  lemma {:induction false} HeaderFrame(f: Format, m: seq<byte>, m': seq<byte>, a: nat, b: Block)
    requires HeaderIs(f, m, a, b) && |m'| == |m|
    requires forall x :: a <= x < a + HeaderSize(f) ==> m[x] == m'[x]
    ensures HeaderIs(f, m', a, b)
  {
    if f == C { LoadFrame(m, m', a + 4, 4); } else { LoadFrame(m, m', a + 8, 8); }
  }

  /** The simplest frame: nothing in the tiling's own range was written. */
  lemma {:induction false} TiledSame(f: Format, m: seq<byte>, m': seq<byte>, a: nat, bs: seq<Block>)
    requires Tiled(f, m, a, bs) && |m'| == |m| && BlocksOk(f, bs) && a + Sum(bs) <= |m|
    requires forall x :: a <= x < a + Sum(bs) ==> m[x] == m'[x]
    ensures Tiled(f, m', a, bs)
  {
    TiledEnd(f, m, a, bs);
    TiledFrame(f, m, m', a, bs);
  }

  /** A stretch of the heap is rewritten and tiled anew; the rest still stands.
      At the end of the heap the stretch may also grow. */
  lemma {:induction false} StretchTiled(f: Format, m: seq<byte>, m': seq<byte>, a: nat,
                                        pre: seq<Block>, mid: seq<Block>, mid': seq<Block>, post: seq<Block>)
    requires Tiled(f, m, a, pre + (mid + post)) && |m'| == |m|
    requires BlocksOk(f, pre) && BlocksOk(f, post)
    requires forall x :: 0 <= x < |m| && m[x] != m'[x] ==> a + Sum(pre) <= x < a + Sum(pre) + Sum(mid')
    requires Tiled(f, m', a + Sum(pre), mid')
    requires Sum(mid') == Sum(mid) || post == []
    ensures Tiled(f, m', a, pre + (mid' + post))
  {
    var b := a + Sum(pre);
    TiledEnd(f, m', b, mid');
    TiledConcat(f, m, a, pre, mid + post);
    TiledConcat(f, m, b, mid, post);
    TiledSame(f, m, m', a, pre);
    if post == [] {
      assert mid' + post == mid';
    } else {
      TiledEnd(f, m, b + Sum(mid), post);
      TiledSame(f, m, m', b + Sum(mid), post);
      TiledConcat(f, m', b, mid', post);
    }
    TiledConcat(f, m', a, pre, mid' + post);
  }

  /** Headers determine the blocks: one memory has one tiling from `a` to `e`. */
  lemma {:induction false} TilingUnique(f: Format, m: seq<byte>, a: nat, x: seq<Block>, y: seq<Block>)
    requires Tiled(f, m, a, x) && Tiled(f, m, a, y)
    requires BlocksOk(f, x) && BlocksOk(f, y)
    requires Sum(x) == Sum(y)
    ensures x == y
    decreases |x|
  {
    if x == [] || y == [] {
    } else {
      assert StateByte(f, x[0].state) == StateByte(f, y[0].state);
      TilingUnique(f, m, a + x[0].size, x[1..], y[1..]);
      assert x == [x[0]] + x[1..] && y == [y[0]] + y[1..];
    }
  }
}
