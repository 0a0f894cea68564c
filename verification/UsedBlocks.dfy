/** The list of the caller's blocks that heap_info reports, and the totals. */
module UsedBlocks {
  import opened Bytes
  import opened Options
  import opened Blocks
  import opened BlockLemmas
  import opened Placement

  /** `b` is the caller's block whose payload is at `k`. */
  ghost predicate IsUsed(f: Format, a: nat, bs: seq<Block>, k: int) {
    LiveAt(f, a, bs, k).Some? && LiveAt(f, a, bs, k).value.state == Used
  }

  ghost predicate SameUsed(f: Format, a: nat, x: seq<Block>, y: seq<Block>) {
    && (forall k :: IsUsed(f, a, x, k) <==> IsUsed(f, a, y, k))
    && (forall k :: IsUsed(f, a, x, k) ==> LiveAt(f, a, x, k) == LiveAt(f, a, y, k))
  }

  ghost predicate Ascending(s: seq<(int, int)>) {
    forall i, j :: 0 <= i < j < |s| ==> s[i].1 < s[j].1
  }

  /** The list holds exactly the used blocks, in address order. */
  lemma {:induction false} UsedListExact(f: Format, a: nat, bs: seq<Block>)
    requires BlocksOk(f, bs)
    ensures Ascending(UsedList(f, a, bs))
    ensures forall e :: e in UsedList(f, a, bs) ==>
              e.1 >= a + HeaderSize(f) && IsUsed(f, a, bs, e.1) && e.0 == Usable(f, LiveAt(f, a, bs, e.1).value)
    ensures forall k :: IsUsed(f, a, bs, k) ==> (Usable(f, LiveAt(f, a, bs, k).value), k) in UsedList(f, a, bs)
    decreases |bs|
  {
    if bs != [] {
      var a', rest := a + bs[0].size, bs[1..];
      UsedListExact(f, a', rest);
      forall e | e in UsedList(f, a, bs)
        ensures e.1 >= a + HeaderSize(f) && IsUsed(f, a, bs, e.1) && e.0 == Usable(f, LiveAt(f, a, bs, e.1).value)
      {
        if e in UsedList(f, a', rest) { assert IsUsed(f, a', rest, e.1); }
      }
      forall k | IsUsed(f, a, bs, k) ensures (Usable(f, LiveAt(f, a, bs, k).value), k) in UsedList(f, a, bs) {
        if !(bs[0].state != Free && k == a + HeaderSize(f)) { assert IsUsed(f, a', rest, k); }
      }
    }
  }

  lemma {:induction false} SameElementsEmpty<T>(x: seq<T>, y: seq<T>)
    requires forall e :: e in x <==> e in y
    ensures x == [] <==> y == []
  {
    assert x != [] ==> x[0] in x;
    assert y != [] ==> y[0] in y;
  }

  lemma {:induction false} AscendingUnique(x: seq<(int, int)>, y: seq<(int, int)>)
    requires Ascending(x) && Ascending(y) && (forall e :: e in x <==> e in y)
    ensures x == y
    decreases |x|
  {
    SameElementsEmpty(x, y);
    if x != [] {
      assert x[0] in y && y[0] in x;
      assert x[0] == y[0];
      forall e ensures e in x[1..] <==> e in y[1..] {
        assert e in x[1..] ==> e in x && e.1 > x[0].1;
        assert e in y[1..] ==> e in y && e.1 > y[0].1;
      }
      AscendingUnique(x[1..], y[1..]);
    }
  }

  /** Two heaps with the same used blocks report the same list. */
  lemma {:induction false} UsedListDetermined(f: Format, a: nat, x: seq<Block>, y: seq<Block>)
    requires BlocksOk(f, x) && BlocksOk(f, y) && SameUsed(f, a, x, y)
    ensures UsedList(f, a, x) == UsedList(f, a, y)
  {
    UsedListExact(f, a, x);
    UsedListExact(f, a, y);
    forall e ensures e in UsedList(f, a, x) <==> e in UsedList(f, a, y) {
      if e in UsedList(f, a, x) { assert IsUsed(f, a, y, e.1); }
      if e in UsedList(f, a, y) { assert IsUsed(f, a, x, e.1); }
    }
    AscendingUnique(UsedList(f, a, x), UsedList(f, a, y));
  }

  lemma {:induction false} SetStateFreeBytes(f: Format, a: nat, bs: seq<Block>, p: int, s: State)
    requires BlocksOk(f, bs) && LiveAt(f, a, bs, p).Some?
    ensures FreeBytes(SetState(f, a, bs, p, s))
         == FreeBytes(bs) + if s == Free then LiveAt(f, a, bs, p).value.size else 0
    decreases |bs|
  {
    var rest, a' := bs[1..], a + bs[0].size;
    var bs' := SetState(f, a, bs, p, s);
    if p == a + HeaderSize(f) {
      if LiveAt(f, a', rest, p).Some? { LiveRange(f, a', rest, p); }
      assert bs'[1..] == rest;
    } else {
      SetStateFreeBytes(f, a', rest, p, s);
      assert bs'[1..] == SetState(f, a', rest, p, s);
    }
  }

  /** One more block of the walk, and the totals over it. */
  lemma {:induction false} TotalsStep(f: Format, a: nat, bs: seq<Block>, n: nat)
    requires n < |bs|
    ensures CountUsed(bs[..n + 1]) == CountUsed(bs[..n]) + if bs[n].state == Used then 1 else 0
    ensures CountUsed(bs[..n + 1]) <= CountUsed(bs)
    ensures FreeBytes(bs[..n + 1]) == FreeBytes(bs[..n]) + if bs[n].state == Free then bs[n].size else 0
    ensures LargestFree(bs[..n + 1])
         == if bs[n].state == Free && bs[n].size > LargestFree(bs[..n]) then bs[n].size else LargestFree(bs[..n])
    ensures UsedList(f, a, bs[..n + 1]) == UsedList(f, a, bs[..n])
         + if bs[n].state == Used then [(Usable(f, bs[n]), a + Sum(bs[..n]) + HeaderSize(f))] else []
  {
    var pre, one, post := bs[..n], [bs[n]], bs[n + 1..];
    assert bs[..n + 1] == pre + one && bs == (pre + one) + post;
    assert one[1..] == [];
    UsedListConcat(f, a, pre, one);
    UsedListConcat(f, a, pre + one, post);
    FreeBytesConcat(pre, one);
    LargestFreeConcat(pre, one);
  }

  /** The totals of heap_info's second pass after `n` blocks; `p` is what the
      result arrays hold so far. */
  datatype Totals = Totals(index: nat, freeSpace: nat, largest: nat)

  ghost predicate Totalled(f: Format, a: nat, bs: seq<Block>, n: nat, t: Totals, p: seq<(int, int)>) {
    && n <= |bs| && t.index == CountUsed(bs[..n]) <= |p|
    && p[..t.index] == UsedList(f, a, bs[..n])
    && t.freeSpace == FreeBytes(bs[..n]) && t.largest == LargestFree(bs[..n])
  }

  lemma {:induction false} TotalledRoom(f: Format, a: nat, bs: seq<Block>, n: nat, t: Totals, p: seq<(int, int)>)
    requires Totalled(f, a, bs, n, t, p) && n < |bs| && |p| == CountUsed(bs) && bs[n].state == Used
    ensures t.index < |p|
  {
    TotalsStep(f, a, bs, n);
  }

  lemma {:induction false} TotalledUsed(f: Format, a: nat, bs: seq<Block>, n: nat, t: Totals, p: seq<(int, int)>,
                                        t': Totals, p': seq<(int, int)>)
    requires Totalled(f, a, bs, n, t, p) && n < |bs| && bs[n].state == Used && t.index < |p|
    requires t' == t.(index := t.index + 1)
    requires p' == p[t.index := (Usable(f, bs[n]), a + Sum(bs[..n]) + HeaderSize(f))]
    ensures Totalled(f, a, bs, n + 1, t', p')
  {
    TotalsStep(f, a, bs, n);
    assert p'[..t.index + 1] == p[..t.index] + [p'[t.index]];
  }

  lemma {:induction false} TotalledFree(f: Format, a: nat, bs: seq<Block>, n: nat, t: Totals, p: seq<(int, int)>)
    requires Totalled(f, a, bs, n, t, p) && n < |bs| && bs[n].state == Free
    ensures Totalled(f, a, bs, n + 1,
                     Totals(t.index, t.freeSpace + bs[n].size, if bs[n].size > t.largest then bs[n].size else t.largest), p)
  {
    TotalsStep(f, a, bs, n);
  }

  lemma {:induction false} TotalledInternal(f: Format, a: nat, bs: seq<Block>, n: nat, t: Totals, p: seq<(int, int)>)
    requires Totalled(f, a, bs, n, t, p) && n < |bs| && bs[n].state == Internal
    ensures Totalled(f, a, bs, n + 1, t, p)
  {
    TotalsStep(f, a, bs, n);
  }

  lemma {:induction false} TotalledAll(f: Format, a: nat, bs: seq<Block>, t: Totals, p: seq<(int, int)>)
    requires Totalled(f, a, bs, |bs|, t, p) && |p| == CountUsed(bs)
    ensures t == Totals(|p|, FreeBytes(bs), LargestFree(bs)) && p == UsedList(f, a, bs)
  {
    assert bs[..|bs|] == bs && p[..|p|] == p;
  }
}
