/** The two sorts of heap_info, on parallel arrays that lie in memory as
    little-endian 64-bit words, inside the heap they describe. */
module HeapSort {
  import opened Bytes
  import opened Sorting

  /** `long sizes[n]` and `void *ptrs[n]`. */
  datatype Arrays = Arrays(sizes: nat, ptrs: nat, n: nat)

  predicate InMemory(m: seq<byte>, a: Arrays) {
    a.sizes + 8 * a.n <= |m| && a.ptrs + 8 * a.n <= |m| && Apart(a.sizes, a.ptrs, a.n)
  }

  predicate Apart(x: nat, y: nat, n: nat) {
    x + 8 * n <= y || y + 8 * n <= x
  }

  /** The scratch arrays overlap neither each other nor the arrays to sort. */
  predicate Separate(a: Arrays, t: Arrays) {
    && a.n == t.n
    && Apart(a.sizes, t.sizes, a.n) && Apart(a.sizes, t.ptrs, a.n)
    && Apart(a.ptrs, t.sizes, a.n) && Apart(a.ptrs, t.ptrs, a.n)
  }

  predicate InCells(a: Arrays, lo: nat, hi: nat, x: int) {
    a.sizes + 8 * lo <= x < a.sizes + 8 * hi || a.ptrs + 8 * lo <= x < a.ptrs + 8 * hi
  }

  /** From `m` to `m'` nothing changed except cells [lo, hi) of the arrays `a`. */
  ghost predicate OnlyCells(m: seq<byte>, m': seq<byte>, a: Arrays, lo: nat, hi: nat) {
    |m| == |m'| && forall x :: 0 <= x < |m| && m[x] != m'[x] ==> InCells(a, lo, hi, x)
  }

  ghost predicate OnlyCells2(m: seq<byte>, m': seq<byte>, a: Arrays, t: Arrays, lo: nat, hi: nat) {
    |m| == |m'| && forall x :: 0 <= x < |m| && m[x] != m'[x] ==> InCells(a, lo, hi, x) || InCells(t, lo, hi, x)
  }

  lemma {:induction false} OnlyCellsTrans(m: seq<byte>, m1: seq<byte>, m2: seq<byte>, a: Arrays, lo: nat,
                                          hi: nat, k: nat)
    requires OnlyCells(m, m1, a, lo, hi) && OnlyCells(m1, m2, a, k, k + 1) && lo <= k < hi
    ensures OnlyCells(m, m2, a, lo, hi)
  {
  }

  lemma {:induction false} OnlyCells2Join(m: seq<byte>, m1: seq<byte>, m2: seq<byte>, a: Arrays, t: Arrays,
                                          lo: nat, hi: nat)
    requires OnlyCells(m, m1, t, lo, hi) && OnlyCells(m1, m2, a, lo, hi)
    ensures OnlyCells2(m, m2, a, t, lo, hi)
  {
  }

  lemma {:induction false} OnlyCells2Trans(m: seq<byte>, m1: seq<byte>, m2: seq<byte>, a: Arrays, t: Arrays,
                        lo: nat, hi: nat, lo': nat, hi': nat)
    requires OnlyCells2(m, m1, a, t, lo, hi) && OnlyCells2(m1, m2, a, t, lo', hi') && lo <= lo' && hi' <= hi
    ensures OnlyCells2(m, m2, a, t, lo, hi)
  {
  }

  lemma {:induction false} OnlyCells2Widen(m: seq<byte>, m': seq<byte>, a: Arrays, t: Arrays, lo: nat, hi: nat,
                                           lo': nat, hi': nat)
    requires OnlyCells2(m, m', a, t, lo', hi') && lo <= lo' && hi' <= hi
    ensures OnlyCells2(m, m', a, t, lo, hi)
  {
  }

  /** The 64-bit word read as a C `long`. */
  function AsLong(x: nat): int {
    if x < TWO63 then x else x - TWO64
  }

  function PairAt(m: seq<byte>, a: Arrays, i: nat): Pair
    requires InMemory(m, a) && i < a.n
  {
    (AsLong(Load(m, a.sizes + 8 * i, 8)), Load(m, a.ptrs + 8 * i, 8))
  }

  /** The arrays `a` hold the pairs `p`. */
  ghost predicate Holds(m: seq<byte>, a: Arrays, p: seq<Pair>) {
    InMemory(m, a) && |p| == a.n && forall i :: 0 <= i < a.n ==> PairAt(m, a, i) == p[i]
  }

  lemma {:induction false} PairFrame(m: seq<byte>, m': seq<byte>, a: Arrays, i: nat)
    requires InMemory(m, a) && |m'| == |m| && i < a.n
    requires forall x :: 0 <= x < |m| && InCells(a, i, i + 1, x) ==> m[x] == m'[x]
    ensures PairAt(m, a, i) == PairAt(m', a, i)
  {
    LoadFrame(m, m', a.sizes + 8 * i, 8);
    LoadFrame(m, m', a.ptrs + 8 * i, 8);
  }

  lemma {:induction false} HoldsFrame(m: seq<byte>, m': seq<byte>, a: Arrays, p: seq<Pair>)
    requires Holds(m, a, p) && |m'| == |m|
    requires forall x :: 0 <= x < |m| && InCells(a, 0, a.n, x) ==> m[x] == m'[x]
    ensures Holds(m', a, p)
  {
    forall i | 0 <= i < a.n ensures PairAt(m', a, i) == p[i] {
      PairFrame(m, m', a, i);
    }
  }

  function StorePair(m: seq<byte>, a: Arrays, k: nat, v: nat, w: nat): (r: seq<byte>)
    requires InMemory(m, a) && k < a.n
    ensures |r| == |m|
    ensures forall x :: 0 <= x < |m| && !InCells(a, k, k + 1, x) ==> r[x] == m[x]
  {
    Store(Store(m, a.sizes + 8 * k, 8, v), a.ptrs + 8 * k, 8, w)
  }

  lemma {:induction false} PairStored(m: seq<byte>, a: Arrays, k: nat, v: nat, w: nat)
    requires InMemory(m, a) && k < a.n && v < TWO64 && w < TWO64
    ensures PairAt(StorePair(m, a, k, v, w), a, k) == (AsLong(v), w)
  {
    var m1 := Store(m, a.sizes + 8 * k, 8, v);
    PowValues();
    LoadStore(m, a.sizes + 8 * k, 8, v);
    LoadStore(m1, a.ptrs + 8 * k, 8, w);
    LoadFrame(m1, StorePair(m, a, k, v, w), a.sizes + 8 * k, 8);
  }

  lemma {:induction false} HoldsStored(m: seq<byte>, a: Arrays, p: seq<Pair>, k: nat, v: nat, w: nat)
    requires Holds(m, a, p) && k < a.n && v < TWO64 && w < TWO64
    ensures Holds(StorePair(m, a, k, v, w), a, p[k := (AsLong(v), w)])
  {
    var m' := StorePair(m, a, k, v, w);
    forall i | 0 <= i < a.n ensures PairAt(m', a, i) == p[k := (AsLong(v), w)][i] {
      if i == k { PairStored(m, a, k, v, w); } else { PairFrame(m, m', a, i); }
    }
  }

  /** `sizes[i]` */
  function SizeAt(mem: array<byte>, a: Arrays, i: nat): int
    requires InMemory(mem[..], a) && i < a.n
    reads mem
  {
    AsLong(Load(mem[..], a.sizes + 8 * i, 8))
  }

  lemma {:induction false} CopyPairFacts(m: seq<byte>, m': seq<byte>, a: Arrays, p: seq<Pair>, i: nat,
                      t: Arrays, q: seq<Pair>, k: nat, v: nat, w: nat)
    requires Holds(m, a, p) && Holds(m, t, q) && Separate(a, t) && i < a.n && k < t.n
    requires v == Load(m, a.sizes + 8 * i, 8) && w == Load(m, a.ptrs + 8 * i, 8)
    requires m' == StorePair(m, t, k, v, w)
    ensures Holds(m', a, p) && Holds(m', t, q[k := p[i]]) && OnlyCells(m, m', t, k, k + 1)
  {
    hide Load;
    LoadBound(m, a.sizes + 8 * i, 8);
    LoadBound(m, a.ptrs + 8 * i, 8);
    PowValues();
    assert PairAt(m, a, i) == p[i];
    HoldsStored(m, t, q, k, v, w);
    HoldsFrame(m, m', a, p);
  }

  /** `t.sizes[k] = a.sizes[i]; t.ptrs[k] = a.ptrs[i];` */
  method CopyPair(mem: array<byte>, a: Arrays, ghost p: seq<Pair>, i: nat, t: Arrays, ghost q: seq<Pair>, k: nat,
                  ghost m0: seq<byte>, ghost lo: nat, ghost hi: nat)
    requires Holds(mem[..], a, p) && Holds(mem[..], t, q) && Separate(a, t) && i < a.n && k < t.n
    requires OnlyCells(m0, mem[..], t, lo, hi) && lo <= k < hi
    modifies mem
    ensures Holds(mem[..], a, p) && Holds(mem[..], t, q[k := p[i]])
    ensures OnlyCells(m0, mem[..], t, lo, hi)
  {
    ghost var m := mem[..];
    var v := LoadField(mem, a.sizes + 8 * i, 8);
    StoreField(mem, t.sizes + 8 * k, 8, v);
    LoadFrame(m, mem[..], a.ptrs + 8 * i, 8);
    var w := LoadField(mem, a.ptrs + 8 * i, 8);
    StoreField(mem, t.ptrs + 8 * k, 8, w);
    CopyPairFacts(m, mem[..], a, p, i, t, q, k, v, w);
    OnlyCellsTrans(m0, m, mem[..], t, lo, hi, k);
  }

  /** `sizes[k] = v; ptrs[k] = w;` */
  method PutPair(mem: array<byte>, a: Arrays, ghost p: seq<Pair>, k: nat, v: nat, w: nat)
    requires Holds(mem[..], a, p) && k < a.n && v < TWO63 && w < TWO64
    modifies mem
    ensures Holds(mem[..], a, p[k := (v, w)])
    ensures OnlyCells(old(mem[..]), mem[..], a, k, k + 1)
  {
    ghost var m := mem[..];
    HoldsStored(m, a, p, k, v, w);
    StoreField(mem, a.sizes + 8 * k, 8, v);
    StoreField(mem, a.ptrs + 8 * k, 8, w);
    assert mem[..] == StorePair(m, a, k, v, w);
  }

  /** Whatever is in memory, the arrays hold something. */
  lemma {:induction false} HoldsSomething(m: seq<byte>, a: Arrays) returns (p: seq<Pair>)
    requires InMemory(m, a)
    ensures Holds(m, a, p)
  {
    p := seq(a.n, i requires 0 <= i < a.n => PairAt(m, a, i));
  }

  // ----- merge -----

  /** The ghost state of the filling loops of `merge`: `q` is what the scratch
      arrays hold, `out` what has been put there from cell `lo` on, `x` and `y`
      what is left of the two halves. */
  datatype Fill = Fill(q: seq<Pair>, out: seq<Pair>, x: seq<Pair>, y: seq<Pair>, i: nat, j: nat, k: nat)

  ghost predicate Layout(p: seq<Pair>, lo: nat, mid: nat, hi: nat, g: Fill) {
    && lo <= g.i <= mid <= g.j <= hi <= |p| && |g.q| == |p| && g.k == g.i + g.j - mid
    && g.x == p[g.i..mid] && g.y == p[g.j..hi] && g.out == g.q[lo..g.k]
  }

  /** What is out, and what is left, make up the merge. */
  ghost predicate Merging(goal: seq<Pair>, g: Fill) {
    g.out + MergeDesc(g.x, g.y) == goal
  }

  ghost function TakeLeft(g: Fill): Fill
    requires g.k < |g.q| && g.x != []
  {
    Fill(g.q[g.k := g.x[0]], g.out + [g.x[0]], g.x[1..], g.y, g.i + 1, g.j, g.k + 1)
  }

  ghost function TakeRight(g: Fill): Fill
    requires g.k < |g.q| && g.y != []
  {
    Fill(g.q[g.k := g.y[0]], g.out + [g.y[0]], g.x, g.y[1..], g.i, g.j + 1, g.k + 1)
  }

  lemma {:induction false} MergeLeft(goal: seq<Pair>, g: Fill)
    requires Merging(goal, g) && g.x != [] && g.k < |g.q|
    requires g.y != [] ==> g.x[0].0 >= g.y[0].0
    ensures Merging(goal, TakeLeft(g))
  {
    assert g.out + ([g.x[0]] + MergeDesc(g.x[1..], g.y)) == g.out + [g.x[0]] + MergeDesc(g.x[1..], g.y);
  }

  lemma {:induction false} MergeRight(goal: seq<Pair>, g: Fill)
    requires Merging(goal, g) && g.y != [] && g.k < |g.q|
    requires g.x != [] ==> g.x[0].0 < g.y[0].0
    ensures Merging(goal, TakeRight(g))
  {
    assert g.out + ([g.y[0]] + MergeDesc(g.x, g.y[1..])) == g.out + [g.y[0]] + MergeDesc(g.x, g.y[1..]);
  }

  lemma {:induction false} Heads(p: seq<Pair>, lo: nat, mid: nat, hi: nat, g: Fill)
    requires Layout(p, lo, mid, hi, g)
    ensures (g.x == [] <==> g.i == mid) && (g.i < mid ==> g.x[0] == p[g.i] && g.k < hi)
    ensures (g.y == [] <==> g.j == hi) && (g.j < hi ==> g.y[0] == p[g.j] && g.k < hi)
  {
  }

  lemma {:induction false} FillLeft(p: seq<Pair>, lo: nat, mid: nat, hi: nat, g: Fill, goal: seq<Pair>)
    requires Layout(p, lo, mid, hi, g) && Merging(goal, g) && g.i < mid
    requires g.j < hi ==> p[g.i].0 >= p[g.j].0
    ensures g.k < hi && g.x != [] && g.x[0] == p[g.i]
    ensures Layout(p, lo, mid, hi, TakeLeft(g)) && Merging(goal, TakeLeft(g))
  {
    Heads(p, lo, mid, hi, g);
    MergeLeft(goal, g);
  }

  lemma {:induction false} FillRight(p: seq<Pair>, lo: nat, mid: nat, hi: nat, g: Fill, goal: seq<Pair>)
    requires Layout(p, lo, mid, hi, g) && Merging(goal, g) && g.j < hi
    requires g.i < mid ==> p[g.i].0 < p[g.j].0
    ensures g.k < hi && g.y != [] && g.y[0] == p[g.j]
    ensures Layout(p, lo, mid, hi, TakeRight(g)) && Merging(goal, TakeRight(g))
  {
    Heads(p, lo, mid, hi, g);
    MergeRight(goal, g);
  }

  lemma {:induction false} FillDone(p: seq<Pair>, lo: nat, mid: nat, hi: nat, g: Fill, goal: seq<Pair>)
    requires Layout(p, lo, mid, hi, g) && Merging(goal, g) && g.i == mid && g.j == hi
    ensures g.q[lo..hi] == goal
  {
    Heads(p, lo, mid, hi, g);
  }

  /** The invariant of the filling loops. */
  ghost predicate Filling(mem: array<byte>, a: Arrays, p: seq<Pair>, t: Arrays, m0: seq<byte>,
                          lo: nat, mid: nat, hi: nat, goal: seq<Pair>, g: Fill)
    reads mem
  {
    && Holds(mem[..], a, p) && Holds(mem[..], t, g.q) && Separate(a, t) && lo <= mid <= hi <= a.n
    && OnlyCells(m0, mem[..], t, lo, hi)
    && Layout(p, lo, mid, hi, g) && Merging(goal, g)
  }

  /** `a.sizes[i] >= a.sizes[j]`, on the pairs that the arrays hold. */
  method LeftFirst(mem: array<byte>, a: Arrays, ghost p: seq<Pair>, i: nat, j: nat) returns (b: bool)
    requires Holds(mem[..], a, p) && i < a.n && j < a.n
    ensures b <==> p[i].0 >= p[j].0
  {
    assert SizeAt(mem, a, i) == PairAt(mem[..], a, i).0 && SizeAt(mem, a, j) == PairAt(mem[..], a, j).0;
    b := SizeAt(mem, a, i) >= SizeAt(mem, a, j);
  }

  method CopyLeft(mem: array<byte>, a: Arrays, ghost p: seq<Pair>, t: Arrays, ghost m0: seq<byte>,
                  lo: nat, mid: nat, hi: nat, ghost goal: seq<Pair>, i: nat, k: nat, ghost g: Fill)
    returns (ghost g': Fill)
    requires Filling(mem, a, p, t, m0, lo, mid, hi, goal, g) && i == g.i < mid && k == g.k
    requires g.j < hi ==> p[g.i].0 >= p[g.j].0
    modifies mem
    ensures Filling(mem, a, p, t, m0, lo, mid, hi, goal, g')
    ensures g'.i == g.i + 1 && g'.j == g.j && g'.k == g.k + 1
  {
    FillLeft(p, lo, mid, hi, g, goal);
    CopyPair(mem, a, p, i, t, g.q, k, m0, lo, hi);
    g' := TakeLeft(g);
  }

  method CopyRight(mem: array<byte>, a: Arrays, ghost p: seq<Pair>, t: Arrays, ghost m0: seq<byte>,
                   lo: nat, mid: nat, hi: nat, ghost goal: seq<Pair>, j: nat, k: nat, ghost g: Fill)
    returns (ghost g': Fill)
    requires Filling(mem, a, p, t, m0, lo, mid, hi, goal, g) && j == g.j < hi && k == g.k
    requires g.i < mid ==> p[g.i].0 < p[g.j].0
    modifies mem
    ensures Filling(mem, a, p, t, m0, lo, mid, hi, goal, g')
    ensures g'.i == g.i && g'.j == g.j + 1 && g'.k == g.k + 1
  {
    FillRight(p, lo, mid, hi, g, goal);
    CopyPair(mem, a, p, j, t, g.q, k, m0, lo, hi);
    g' := TakeRight(g);
  }

  /** The three loops of `merge` that fill the scratch arrays. */
  method MergeToScratch(mem: array<byte>, a: Arrays, ghost p: seq<Pair>, t: Arrays, ghost q0: seq<Pair>,
                        lo: nat, mid: nat, hi: nat) returns (ghost q: seq<Pair>)
    requires Holds(mem[..], a, p) && Holds(mem[..], t, q0) && Separate(a, t)
    requires lo <= mid <= hi <= a.n
    modifies mem
    ensures Holds(mem[..], a, p) && Holds(mem[..], t, q)
    ensures q[lo..hi] == MergeDesc(p[lo..mid], p[mid..hi])
    ensures OnlyCells(old(mem[..]), mem[..], t, lo, hi)
  {
    ghost var m0 := mem[..];
    var i: nat, j: nat, k: nat := lo, mid, lo;
    ghost var goal := MergeDesc(p[lo..mid], p[mid..hi]);
    ghost var g := Fill(q0, [], p[lo..mid], p[mid..hi], lo, mid, lo);
    while i < mid && j < hi
      invariant Filling(mem, a, p, t, m0, lo, mid, hi, goal, g)
      invariant lo <= i <= mid <= j <= hi && g.i == i && g.j == j && g.k == k
    {
      var left := LeftFirst(mem, a, p, i, j);
      if left {
        g := CopyLeft(mem, a, p, t, m0, lo, mid, hi, goal, i, k, g);
        i := i + 1;
      } else {
        g := CopyRight(mem, a, p, t, m0, lo, mid, hi, goal, j, k, g);
        j := j + 1;
      }
      k := k + 1;
    }
    while i < mid
      invariant Filling(mem, a, p, t, m0, lo, mid, hi, goal, g)
      invariant lo <= i <= mid <= j <= hi && g.i == i && g.j == j && g.k == k
      invariant i == mid || j == hi
    {
      g := CopyLeft(mem, a, p, t, m0, lo, mid, hi, goal, i, k, g);
      i, k := i + 1, k + 1;
    }
    while j < hi
      invariant Filling(mem, a, p, t, m0, lo, mid, hi, goal, g)
      invariant lo <= i <= mid <= j <= hi && g.i == i && g.j == j && g.k == k
      invariant i == mid
    {
      g := CopyRight(mem, a, p, t, m0, lo, mid, hi, goal, j, k, g);
      j, k := j + 1, k + 1;
    }
    FillDone(p, lo, mid, hi, g, goal);
    q := g.q;
  }

  ghost function Splice(p: seq<Pair>, lo: nat, s: seq<Pair>): (r: seq<Pair>)
    requires lo + |s| <= |p|
    ensures |r| == |p|
  {
    p[..lo] + s + p[lo + |s|..]
  }

  /** The last loop of `merge`: copy cells [lo, hi) of the scratch arrays back. */
  method CopyBack(mem: array<byte>, a: Arrays, ghost p: seq<Pair>, t: Arrays, ghost q: seq<Pair>, lo: nat, hi: nat)
    requires Holds(mem[..], a, p) && Holds(mem[..], t, q) && Separate(a, t)
    requires lo <= hi <= a.n
    modifies mem
    ensures Holds(mem[..], a, Splice(p, lo, q[lo..hi])) && Holds(mem[..], t, q)
    ensures OnlyCells(old(mem[..]), mem[..], a, lo, hi)
  {
    ghost var m0, r := mem[..], p;
    assert Splice(p, lo, q[lo..lo]) == p;
    for x := lo to hi
      invariant Holds(mem[..], t, q) && Holds(mem[..], a, r)
      invariant r == Splice(p, lo, q[lo..x])
      invariant OnlyCells(m0, mem[..], a, lo, hi)
    {
      CopyPair(mem, t, q, x, a, r, x, m0, lo, hi);
      SpliceNext(p, lo, q, x);
      r := r[x := q[x]];
    }
  }

  lemma {:induction false} SpliceNext(p: seq<Pair>, lo: nat, s: seq<Pair>, x: nat)
    requires lo <= x < |p| == |s|
    ensures Splice(p, lo, s[lo..x])[x := s[x]] == Splice(p, lo, s[lo..x + 1])
  {
  }

  method Merge(mem: array<byte>, a: Arrays, ghost p: seq<Pair>, ghost x: seq<Pair>, ghost y: seq<Pair>,
               t: Arrays, ghost q: seq<Pair>, lo: nat, mid: nat, hi: nat) returns (ghost q': seq<Pair>)
    requires Holds(mem[..], a, p) && Holds(mem[..], t, q) && Separate(a, t)
    requires lo <= mid <= hi <= a.n && p[lo..mid] == x && p[mid..hi] == y
    modifies mem
    ensures Holds(mem[..], a, Splice(p, lo, MergeDesc(x, y))) && Holds(mem[..], t, q')
    ensures OnlyCells2(old(mem[..]), mem[..], a, t, lo, hi)
  {
    q' := MergeToScratch(mem, a, p, t, q, lo, mid, hi);
    ghost var m := mem[..];
    CopyBack(mem, a, p, t, q', lo, hi);
    OnlyCells2Join(old(mem[..]), m, mem[..], a, t, lo, hi);
  }

  method MergeSortDescending(mem: array<byte>, a: Arrays, ghost p: seq<Pair>, ghost s: seq<Pair>,
                             t: Arrays, ghost q: seq<Pair>, lo: nat, hi: nat) returns (ghost q': seq<Pair>)
    requires Holds(mem[..], a, p) && Holds(mem[..], t, q) && Separate(a, t)
    requires lo <= hi <= a.n && s == p[lo..hi]
    modifies mem
    ensures Holds(mem[..], a, Splice(p, lo, SortDesc(s))) && Holds(mem[..], t, q')
    ensures OnlyCells2(old(mem[..]), mem[..], a, t, lo, hi)
    decreases hi - lo
  {
    if hi - lo <= 1 {
      assert p == Splice(p, lo, s);
      q' := q;
      return;
    }
    ghost var m0 := mem[..];
    var mid := lo + (hi - lo) / 2;
    ghost var x, y := SortDesc(p[lo..mid]), SortDesc(p[mid..hi]);
    q' := MergeSortDescending(mem, a, p, p[lo..mid], t, q, lo, mid);
    ghost var m1, p1 := mem[..], Splice(p, lo, x);
    OnlyCells2Widen(m0, m1, a, t, lo, hi, lo, mid);
    SpliceAgrees(p, lo, x, mid, hi);
    q' := MergeSortDescending(mem, a, p1, p[mid..hi], t, q', mid, hi);
    ghost var m2, p2 := mem[..], Splice(p1, mid, y);
    OnlyCells2Trans(m0, m1, m2, a, t, lo, hi, mid, hi);
    SpliceAgrees(p1, mid, y, lo, mid);
    q' := Merge(mem, a, p2, x, y, t, q', lo, mid, hi);
    OnlyCells2Trans(m0, m2, mem[..], a, t, lo, hi, lo, hi);
    SpliceTwice(p, lo, x, y, MergeDesc(x, y));
    SortDescHalves(p, lo, mid, hi);
  }

  lemma {:induction false} SpliceTwice(p: seq<Pair>, lo: nat, x: seq<Pair>, y: seq<Pair>, z: seq<Pair>)
    requires lo + |x| + |y| <= |p| && |z| == |x| + |y|
    ensures Splice(Splice(Splice(p, lo, x), lo + |x|, y), lo, z) == Splice(p, lo, z)
  {
  }

  /** Splicing changes its own stretch and no other. */
  lemma {:induction false} SpliceAgrees(p: seq<Pair>, lo: nat, s: seq<Pair>, i: nat, j: nat)
    requires lo + |s| <= |p| && i <= j <= |p| && (j <= lo || lo + |s| <= i)
    ensures Splice(p, lo, s)[i..j] == p[i..j] && Splice(p, lo, s)[lo..lo + |s|] == s
  {
  }

  lemma {:induction false} SortDescHalves(p: seq<Pair>, lo: nat, mid: nat, hi: nat)
    requires lo + 1 < hi <= |p| && mid == lo + (hi - lo) / 2
    ensures SortDesc(p[lo..hi]) == MergeDesc(SortDesc(p[lo..mid]), SortDesc(p[mid..hi]))
  {
    var s := p[lo..hi];
    assert s[..|s| / 2] == p[lo..mid] && s[|s| / 2..] == p[mid..hi];
  }

  // ----- the fallback -----

  ghost predicate MaxOf(p: seq<Pair>, i: nat, j: nat, m: nat) {
    i <= m < j <= |p| && forall k :: i <= k < j ==> p[k].0 <= p[m].0
  }

  lemma {:induction false} MaxStep(p: seq<Pair>, i: nat, j: nat, m: nat)
    requires MaxOf(p, i, j, m) && j < |p|
    ensures MaxOf(p, i, j + 1, if p[j].0 > p[m].0 then j else m)
  {
  }

  /** The first `i` pairs are in place: descending, and none smaller than any later one. */
  ghost predicate SortedUpTo(s: seq<Pair>, i: nat) {
    forall j, k :: 0 <= j < k < |s| && j < i ==> s[j].0 >= s[k].0
  }

  lemma {:induction false} SelectStep(p: seq<Pair>, i: nat, m: nat)
    requires SortedUpTo(p, i) && MaxOf(p, i, |p|, m)
    ensures SortedUpTo(p[i := p[m]][m := p[i]], i + 1)
    ensures multiset(p[i := p[m]][m := p[i]]) == multiset(p)
    ensures i == m ==> p[i := p[m]][m := p[i]] == p
  {
  }

  /** Selection sort in place, used when there is no room for scratch arrays.
      It is not stable. */
  method SelectionSort(mem: array<byte>, a: Arrays, ghost p: seq<Pair>) returns (ghost r: seq<Pair>)
    requires Holds(mem[..], a, p)
    modifies mem
    ensures Holds(mem[..], a, r) && SortedDesc(r) && multiset(r) == multiset(p)
    ensures OnlyCells(old(mem[..]), mem[..], a, 0, a.n)
  {
    ghost var m0 := mem[..];
    r := p;
    var i := 0;
    while i < a.n
      invariant 0 <= i <= a.n
      invariant Holds(mem[..], a, r) && SortedUpTo(r, i) && multiset(r) == multiset(p)
      invariant OnlyCells(m0, mem[..], a, 0, a.n)
    {
      ghost var m := mem[..];
      var maxIdx := i;
      var j := i + 1;
      while j < a.n
        invariant i <= maxIdx < j <= a.n && mem[..] == m
        invariant MaxOf(r, i, j, maxIdx)
      {
        MaxStep(r, i, j, maxIdx);
        assert SizeAt(mem, a, j) == PairAt(m, a, j).0 && SizeAt(mem, a, maxIdx) == PairAt(m, a, maxIdx).0;
        if SizeAt(mem, a, j) > SizeAt(mem, a, maxIdx) {
          maxIdx := j;
        }
        j := j + 1;
      }
      SelectStep(r, i, maxIdx);
      if maxIdx != i {
        SwapPairs(mem, a, r, i, maxIdx);
        r := r[i := r[maxIdx]][maxIdx := r[i]];
      }
      i := i + 1;
    }
  }

  method SwapPairs(mem: array<byte>, a: Arrays, ghost p: seq<Pair>, i: nat, j: nat)
    requires Holds(mem[..], a, p) && i < j < a.n
    modifies mem
    ensures Holds(mem[..], a, p[i := p[j]][j := p[i]])
    ensures OnlyCells(old(mem[..]), mem[..], a, 0, a.n)
  {
    ghost var m := mem[..];
    SwapWords(mem, a.sizes + 8 * i, a.sizes + 8 * j);
    ghost var m1 := mem[..];
    SwapWords(mem, a.ptrs + 8 * i, a.ptrs + 8 * j);
    SwappedPairs(m, m1, mem[..], a, p, i, j);
    SwappedCells(m, m1, mem[..], a, i, j);
  }

  /** The 64-bit words at `x` and `y` changed places. */
  ghost predicate Swapped(m: seq<byte>, m': seq<byte>, x: nat, y: nat)
    requires x + 8 <= |m| && y + 8 <= |m|
  {
    && |m'| == |m|
    && (forall b :: 0 <= b < |m| && m[b] != m'[b] ==> x <= b < x + 8 || y <= b < y + 8)
    && Load(m', x, 8) == Load(m, y, 8) && Load(m', y, 8) == Load(m, x, 8)
  }

  method SwapWords(mem: array<byte>, x: nat, y: nat)
    requires x + 8 <= mem.Length && y + 8 <= mem.Length && Apart(x, y, 1)
    modifies mem
    ensures Swapped(old(mem[..]), mem[..], x, y)
  {
    ghost var m := mem[..];
    var v := LoadField(mem, x, 8);
    var w := LoadField(mem, y, 8);
    PowValues();
    LoadBound(m, x, 8);
    LoadBound(m, y, 8);
    StoreField(mem, x, 8, w);
    ghost var m1 := mem[..];
    StoreField(mem, y, 8, v);
    LoadStore(m, x, 8, w);
    LoadStore(m1, y, 8, v);
    LoadFrame(m1, mem[..], x, 8);
  }

  lemma {:induction false} SwappedCells(m: seq<byte>, m1: seq<byte>, m2: seq<byte>, a: Arrays, i: nat, j: nat)
    requires InMemory(m, a) && i < j < a.n && |m1| == |m|
    requires Swapped(m, m1, a.sizes + 8 * i, a.sizes + 8 * j) && Swapped(m1, m2, a.ptrs + 8 * i, a.ptrs + 8 * j)
    ensures OnlyCells(m, m2, a, 0, a.n)
  {
    forall x | 0 <= x < |m| && m[x] != m2[x] ensures InCells(a, 0, a.n, x) {
      assert m[x] != m1[x] || m1[x] != m2[x];
    }
  }

  lemma {:induction false} SwappedPairs(m: seq<byte>, m1: seq<byte>, m2: seq<byte>, a: Arrays, p: seq<Pair>,
                                        i: nat, j: nat)
    requires Holds(m, a, p) && i < j < a.n && |m1| == |m|
    requires Swapped(m, m1, a.sizes + 8 * i, a.sizes + 8 * j) && Swapped(m1, m2, a.ptrs + 8 * i, a.ptrs + 8 * j)
    ensures Holds(m2, a, p[i := p[j]][j := p[i]])
  {
    hide Load;
    assert PairAt(m, a, i) == p[i] && PairAt(m, a, j) == p[j];
    LoadFrame(m, m1, a.ptrs + 8 * i, 8);
    LoadFrame(m, m1, a.ptrs + 8 * j, 8);
    LoadFrame(m1, m2, a.sizes + 8 * i, 8);
    LoadFrame(m1, m2, a.sizes + 8 * j, 8);
    forall k | 0 <= k < a.n && k != i && k != j ensures PairAt(m2, a, k) == p[k] {
      OtherPair(m, m1, m2, a, i, j, k);
    }
  }

  lemma {:induction false} OtherPair(m: seq<byte>, m1: seq<byte>, m2: seq<byte>, a: Arrays, i: nat, j: nat, k: nat)
    requires InMemory(m, a) && i < j < a.n && |m1| == |m| && k < a.n && k != i && k != j
    requires Swapped(m, m1, a.sizes + 8 * i, a.sizes + 8 * j) && Swapped(m1, m2, a.ptrs + 8 * i, a.ptrs + 8 * j)
    ensures PairAt(m2, a, k) == PairAt(m, a, k)
  {
    PairFrame(m, m1, a, k);
    PairFrame(m1, m2, a, k);
  }
}
