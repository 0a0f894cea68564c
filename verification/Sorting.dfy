/** Descending order by size, of (size, pointer) pairs. */
module Sorting {

  type Pair = (int, int)

  ghost predicate SortedDesc(s: seq<Pair>) {
    forall i, j :: 0 <= i < j < |s| ==> s[i].0 >= s[j].0
  }

  /** The pairs of one size, in order: what a stable sort must keep. */
  function Filter(s: seq<Pair>, size: int): seq<Pair> {
    if s == [] then []
    else (if s[0].0 == size then [s[0]] else []) + Filter(s[1..], size)
  }

  ghost predicate SameFilters(x: seq<Pair>, y: seq<Pair>) {
    forall size :: Filter(x, size) == Filter(y, size)
  }

  function MergeDesc(x: seq<Pair>, y: seq<Pair>): (r: seq<Pair>)
    ensures |r| == |x| + |y|
  {
    if x == [] then y
    else if y == [] then x
    else if x[0].0 >= y[0].0 then [x[0]] + MergeDesc(x[1..], y)
    else [y[0]] + MergeDesc(x, y[1..])
  }

  function SortDesc(s: seq<Pair>): (r: seq<Pair>)
    decreases |s|
    ensures |r| == |s|
  {
    if |s| <= 1 then s
    else MergeDesc(SortDesc(s[..|s| / 2]), SortDesc(s[|s| / 2..]))
  }

  lemma {:induction false} FilterConcat(x: seq<Pair>, y: seq<Pair>, size: int)
    ensures Filter(x + y, size) == Filter(x, size) + Filter(y, size)
  {
    if x == [] {
      assert x + y == y;
    } else {
      assert (x + y)[1..] == x[1..] + y;
      FilterConcat(x[1..], y, size);
      var head := if x[0].0 == size then [x[0]] else [];
      assert head + (Filter(x[1..], size) + Filter(y, size)) == (head + Filter(x[1..], size)) + Filter(y, size);
    }
  }

  /** A descending sequence has no pair larger than its first. */
  lemma {:induction false} FilterAbove(s: seq<Pair>, size: int)
    requires forall i :: 0 <= i < |s| ==> s[i].0 < size
    ensures Filter(s, size) == []
  {
    if s != [] { FilterAbove(s[1..], size); }
  }

  lemma {:induction false} MergeStable(x: seq<Pair>, y: seq<Pair>, size: int)
    requires SortedDesc(x)
    ensures Filter(MergeDesc(x, y), size) == Filter(x, size) + Filter(y, size)
    decreases |x| + |y|
  {
    if x == [] || y == [] {
    } else if x[0].0 >= y[0].0 {
      MergeStable(x[1..], y, size);
      assert MergeDesc(x, y)[1..] == MergeDesc(x[1..], y);
    } else {
      MergeStable(x, y[1..], size);
      assert MergeDesc(x, y)[1..] == MergeDesc(x, y[1..]);
      if y[0].0 == size { FilterAbove(x, size); }
    }
  }

  lemma {:induction false} MergeElements(x: seq<Pair>, y: seq<Pair>)
    ensures multiset(MergeDesc(x, y)) == multiset(x) + multiset(y)
    decreases |x| + |y|
  {
    if x == [] || y == [] {
    } else if x[0].0 >= y[0].0 {
      MergeElements(x[1..], y);
      FirstElement(x);
      FirstElement(MergeDesc(x, y));
    } else {
      MergeElements(x, y[1..]);
      FirstElement(y);
      FirstElement(MergeDesc(x, y));
    }
  }

  lemma {:induction false} FirstElement(s: seq<Pair>)
    requires s != []
    ensures multiset(s) == multiset{s[0]} + multiset(s[1..])
  {
    assert s == [s[0]] + s[1..];
  }

  ghost predicate AllAtMost(s: seq<Pair>, size: int) {
    forall i :: 0 <= i < |s| ==> s[i].0 <= size
  }

  lemma {:induction false} SortedCons(p: Pair, s: seq<Pair>)
    requires SortedDesc(s) && AllAtMost(s, p.0)
    ensures SortedDesc([p] + s)
  {
  }

  lemma {:induction false} MergeSorted(x: seq<Pair>, y: seq<Pair>, top: int)
    requires SortedDesc(x) && SortedDesc(y) && AllAtMost(x, top) && AllAtMost(y, top)
    ensures SortedDesc(MergeDesc(x, y)) && AllAtMost(MergeDesc(x, y), top)
    decreases |x| + |y|
  {
    if x == [] || y == [] {
    } else if x[0].0 >= y[0].0 {
      MergeSorted(x[1..], y, x[0].0);
      SortedCons(x[0], MergeDesc(x[1..], y));
    } else {
      MergeSorted(x, y[1..], y[0].0);
      SortedCons(y[0], MergeDesc(x, y[1..]));
    }
  }

  lemma {:induction false} UpperBound(x: seq<Pair>, y: seq<Pair>) returns (top: int)
    requires SortedDesc(x) && SortedDesc(y)
    ensures AllAtMost(x, top) && AllAtMost(y, top)
  {
    top := 0;
    if x != [] && x[0].0 > top { top := x[0].0; }
    if y != [] && y[0].0 > top { top := y[0].0; }
  }

  /** Merging the sorted halves keeps equal sizes in their order. */
  lemma {:induction false} HalvesStable(a: seq<Pair>, b: seq<Pair>, x: seq<Pair>, y: seq<Pair>)
    requires SortedDesc(x) && SortedDesc(y) && SameFilters(x, a) && SameFilters(y, b)
    ensures SameFilters(MergeDesc(x, y), a + b)
  {
    forall size ensures Filter(MergeDesc(x, y), size) == Filter(a + b, size) {
      MergeStable(x, y, size);
      FilterConcat(a, b, size);
      assert Filter(x, size) == Filter(a, size) && Filter(y, size) == Filter(b, size);
    }
  }

  /** SortDesc sorts, loses nothing, and keeps equal sizes in their order. */
  lemma {:induction false} SortDescCorrect(s: seq<Pair>)
    ensures SortedDesc(SortDesc(s))
    ensures multiset(SortDesc(s)) == multiset(s)
    ensures SameFilters(SortDesc(s), s)
    decreases |s|
  {
    hide MergeDesc, Filter;
    if |s| > 1 {
      var a, b := s[..|s| / 2], s[|s| / 2..];
      SortDescCorrect(a);
      SortDescCorrect(b);
      var top := UpperBound(SortDesc(a), SortDesc(b));
      MergeSorted(SortDesc(a), SortDesc(b), top);
      MergeElements(SortDesc(a), SortDesc(b));
      assert s == a + b;
      HalvesStable(a, b, SortDesc(a), SortDesc(b));
    }
  }

  lemma {:induction false} EmptyFilters(x: seq<Pair>, y: seq<Pair>)
    requires forall size :: Filter(x, size) == Filter(y, size)
    ensures y == [] ==> x == []
  {
    assert x != [] ==> Filter(x, x[0].0)[0] == x[0];
  }

  lemma {:induction false} FilterTail(x: seq<Pair>, y: seq<Pair>, size: int)
    requires x != [] && y != [] && x[0] == y[0] && Filter(x, size) == Filter(y, size)
    ensures Filter(x[1..], size) == Filter(y[1..], size)
  {
    var head := if x[0].0 == size then [x[0]] else [];
    assert Filter(x, size) == head + Filter(x[1..], size);
    assert Filter(y, size) == head + Filter(y[1..], size);
    assert (head + Filter(x[1..], size))[|head|..] == Filter(x[1..], size);
    assert (head + Filter(y[1..], size))[|head|..] == Filter(y[1..], size);
  }

  /** Sorted order and stability leave no choice. */
  lemma {:induction false} StableSortUnique(x: seq<Pair>, y: seq<Pair>)
    requires SortedDesc(x) && SortedDesc(y) && SameFilters(x, y)
    ensures x == y
    decreases |x|
  {
    if x == [] {
      EmptyFilters(y, x);
    } else {
      EmptyFilters(x, y);
      assert Filter(x, y[0].0) == Filter(y, y[0].0);
      if x[0].0 < y[0].0 { FilterAbove(x, y[0].0); }
      if y[0].0 < x[0].0 { FilterAbove(y, x[0].0); }
      assert Filter(x, x[0].0)[0] == x[0] && Filter(y, y[0].0)[0] == y[0];
      forall size ensures Filter(x[1..], size) == Filter(y[1..], size) {
        assert Filter(x, size) == Filter(y, size);
        FilterTail(x, y, size);
      }
      StableSortUnique(x[1..], y[1..]);
      assert x == [x[0]] + x[1..] && y == [y[0]] + y[1..];
    }
  }

  function Sizes(s: seq<Pair>): (r: seq<int>)
    ensures |r| == |s| && forall i :: 0 <= i < |s| ==> r[i] == s[i].0
  {
    seq(|s|, i requires 0 <= i < |s| => s[i].0)
  }

  lemma {:induction false} DropSame<T>(p: T, x: seq<T>, y: seq<T>)
    requires multiset([p] + x) == multiset([p] + y)
    ensures multiset(x) == multiset(y)
  {
    assert multiset(x) == multiset([p] + x) - multiset{p};
    assert multiset(y) == multiset([p] + y) - multiset{p};
  }

  /** Two descending arrangements of the same pairs list the same sizes, so the
      unstable fallback reports the same size array as the merge sort. */
  lemma {:induction false} SortedSizesUnique(x: seq<Pair>, y: seq<Pair>)
    requires SortedDesc(x) && SortedDesc(y)
    requires multiset(Sizes(x)) == multiset(Sizes(y))
    ensures Sizes(x) == Sizes(y)
    decreases |x|
  {
    assert |multiset(Sizes(x))| == |Sizes(x)| && |multiset(Sizes(y))| == |Sizes(y)|;
    if x != [] {
      var a, b := Sizes(x), Sizes(y);
      assert a[0] in multiset(b) && b[0] in multiset(a);
      assert a[0] in b && b[0] in a;
      assert a[0] == b[0];
      assert a == [a[0]] + a[1..] && b == [b[0]] + b[1..];
      DropSame(a[0], a[1..], b[1..]);
      assert a[1..] == Sizes(x[1..]) && b[1..] == Sizes(y[1..]);
      SortedSizesUnique(x[1..], y[1..]);
    }
  }

  lemma {:induction false} SizesConcat(x: seq<Pair>, y: seq<Pair>)
    ensures Sizes(x + y) == Sizes(x) + Sizes(y)
  {
  }

  lemma {:induction false} SizesOfPermutation(x: seq<Pair>, y: seq<Pair>)
    requires multiset(x) == multiset(y)
    ensures multiset(Sizes(x)) == multiset(Sizes(y))
    decreases |x|
  {
    assert |multiset(x)| == |x| && |multiset(y)| == |y|;
    if x != [] {
      assert x[0] in multiset(y);
      var i :| 0 <= i < |y| && y[i] == x[0];
      var rest := y[..i] + y[i + 1..];
      TakeOut(x, y, i);
      SizesOfPermutation(x[1..], rest);
      SizesConcat([x[0]], x[1..]);
      SizesConcat(y[..i], [y[i]] + y[i + 1..]);
      SizesConcat([y[i]], y[i + 1..]);
      SizesConcat(y[..i], y[i + 1..]);
      assert Sizes([x[0]]) == Sizes([y[i]]);
    }
  }

  lemma {:induction false} TakeOut(x: seq<Pair>, y: seq<Pair>, i: nat)
    requires x != [] && i < |y| && y[i] == x[0] && multiset(x) == multiset(y)
    ensures x == [x[0]] + x[1..] && y == y[..i] + ([y[i]] + y[i + 1..])
    ensures multiset(x[1..]) == multiset(y[..i] + y[i + 1..])
  {
    assert x == [x[0]] + x[1..];
    assert y == y[..i] + ([y[i]] + y[i + 1..]);
    assert multiset(y) == multiset([x[0]] + (y[..i] + y[i + 1..]));
    DropSame(x[0], x[1..], y[..i] + y[i + 1..]);
  }
}
