/** std::sort as the engine uses it: by a strict order, equal elements in some order. */
module Sorting {
  import opened Common

  /** Negative transitivity: what makes "not better" an order in which to sort. */
  ghost predicate StrictWeak<T(!new)>(better: (T, T) -> bool) {
    && (forall a, b :: better(a, b) ==> !better(b, a))
    && (forall a, b, c :: better(a, c) ==> better(a, b) || better(b, c))
  }

  ghost predicate SortedBy<T>(better: (T, T) -> bool, xs: seq<T>) {
    forall i, j :: 0 <= i < j < |xs| ==> !better(xs[j], xs[i])
  }

  /** How many elements from the front, starting at `i`, are better than `x`. */
  function Place<T>(better: (T, T) -> bool, x: T, xs: seq<T>, i: nat := 0): (k: nat)
    requires i <= |xs|
    ensures i <= k <= |xs| && (k < |xs| ==> !better(xs[k], x))
    ensures forall j :: i <= j < k ==> better(xs[j], x)
    decreases |xs| - i
  {
    if i < |xs| && better(xs[i], x) then Place(better, x, xs, i + 1) else i
  }

  function Insert<T>(better: (T, T) -> bool, x: T, xs: seq<T>): seq<T> {
    var k := Place(better, x, xs);
    xs[..k] + [x] + xs[k..]
  }

  function Sort<T>(better: (T, T) -> bool, xs: seq<T>): seq<T> {
    if xs == [] then [] else Insert(better, xs[|xs| - 1], Sort(better, xs[..|xs| - 1]))
  }

  function Map<T, R>(f: T -> R, xs: seq<T>): (ys: seq<R>)
    ensures |ys| == |xs| && forall i :: 0 <= i < |xs| ==> ys[i] == f(xs[i])
  {
    if xs == [] then [] else Map(f, xs[..|xs| - 1]) + [f(xs[|xs| - 1])]
  }

  lemma InsertPermutes<T>(better: (T, T) -> bool, x: T, xs: seq<T>)
    ensures multiset(Insert(better, x, xs)) == multiset(xs) + multiset{x}
  {
    var k := Place(better, x, xs);
    assert xs == xs[..k] + xs[k..];
  }

  lemma {:induction false} SortPermutes<T>(better: (T, T) -> bool, xs: seq<T>)
    ensures multiset(Sort(better, xs)) == multiset(xs) && |Sort(better, xs)| == |xs|
  {
    if xs != [] {
      SortPermutes(better, xs[..|xs| - 1]);
      InsertPermutes(better, xs[|xs| - 1], Sort(better, xs[..|xs| - 1]));
      assert xs == xs[..|xs| - 1] + [xs[|xs| - 1]];
    }
    assert |multiset(xs)| == |xs| && |multiset(Sort(better, xs))| == |Sort(better, xs)|;
  }

  lemma InsertSorts<T(!new)>(better: (T, T) -> bool, x: T, xs: seq<T>)
    requires StrictWeak(better) && SortedBy(better, xs)
    ensures SortedBy(better, Insert(better, x, xs))
  {
    var k := Place(better, x, xs);
    forall j | k <= j < |xs| ensures !better(xs[j], x) {
      assert j > k ==> !better(xs[j], xs[k]);
    }
  }

  lemma {:induction false} SortSorts<T(!new)>(better: (T, T) -> bool, xs: seq<T>)
    requires StrictWeak(better)
    ensures SortedBy(better, Sort(better, xs))
  {
    if xs != [] {
      SortSorts(better, xs[..|xs| - 1]);
      InsertSorts(better, xs[|xs| - 1], Sort(better, xs[..|xs| - 1]));
    }
  }

  lemma MapInsert<T, R>(better: (T, T) -> bool, f: T -> R, x: T, xs: seq<T>)
    ensures multiset(Map(f, Insert(better, x, xs))) == multiset(Map(f, xs)) + multiset{f(x)}
  {
    var k, ys := Place(better, x, xs), Map(f, xs);
    assert Map(f, Insert(better, x, xs)) == ys[..k] + [f(x)] + ys[k..];
    assert ys == ys[..k] + ys[k..];
  }

  /** Sorting permutes whatever the elements stand for. */
  lemma {:induction false} MapSort<T, R>(better: (T, T) -> bool, f: T -> R, xs: seq<T>)
    ensures multiset(Map(f, Sort(better, xs))) == multiset(Map(f, xs))
  {
    if xs != [] {
      MapSort(better, f, xs[..|xs| - 1]);
      MapInsert(better, f, xs[|xs| - 1], Sort(better, xs[..|xs| - 1]));
    }
  }

  lemma MapConcat<T, R>(f: T -> R, xs: seq<T>, ys: seq<T>)
    ensures Map(f, xs + ys) == Map(f, xs) + Map(f, ys)
  {
  }

  lemma MapWithout<T, R>(f: T -> R, xs: seq<T>, x: T, ys: seq<T>)
    ensures multiset(Map(f, xs + [x] + ys)) == multiset(Map(f, xs + ys)) + multiset{f(x)}
  {
    MapConcat(f, xs, [x]);
    MapConcat(f, xs + [x], ys);
    MapConcat(f, xs, ys);
    assert Map(f, [x]) == [f(x)];
  }

  /** Permuted elements have permuted images. */
  lemma {:induction false} MapPermutes<T, R>(f: T -> R, xs: seq<T>, ys: seq<T>)
    requires multiset(xs) == multiset(ys)
    ensures multiset(Map(f, xs)) == multiset(Map(f, ys))
    decreases |xs|
  {
    if xs == [] {
      assert |multiset(ys)| == |ys|;
    } else {
      var init, x := xs[..|xs| - 1], xs[|xs| - 1];
      assert xs == init + [x];
      assert x in multiset(ys);
      var a, b := SplitAt(ys, x);
      assert multiset(init) == multiset(xs) - multiset{x};
      assert multiset(a + b) == multiset(ys) - multiset{x};
      MapPermutes(f, init, a + b);
      MapWithout(f, a, x, b);
    }
  }
}
