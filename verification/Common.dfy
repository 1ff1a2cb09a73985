/** Shared value types: the engine's `std::optional` and its unsigned word size. */
module Common {

  datatype Option<+T> = None | Some(value: T)

  /** One more than the largest `uint64_t` / `size_t`. */
  const WORD: int := 0x1_0000_0000_0000_0000

  /** `SIZE_MAX`, used by the engine as "no index". */
  const SIZE_MAX: nat := 0xFFFF_FFFF_FFFF_FFFF

  type U64 = x: nat | x < 0x1_0000_0000_0000_0000

  /** The unsigned difference `to - from` of two clock readings: wraps when `to` is earlier. */
  function Elapsed(from: U64, to: U64): U64 {
    if to >= from then to - from else WORD + to - from
  }

  lemma AddMod(a: int, b: int)
    ensures (a % WORD + b) % WORD == (a + b) % WORD
  {
  }

  /** Pigeonhole: distinct numbers below `n` are at most `n` many. */
  lemma {:induction false} DistinctBound(xs: seq<nat>, n: nat)
    requires forall i, j :: 0 <= i < j < |xs| ==> xs[i] != xs[j]
    requires forall i :: 0 <= i < |xs| ==> xs[i] < n
    ensures |xs| <= n
    decreases n
  {
    assert |xs| > 0 ==> xs[0] < n;
    if n > 0 && n - 1 in xs {
      var i :| 0 <= i < |xs| && xs[i] == n - 1;
      DistinctBound(xs[..i] + xs[i + 1..], n - 1);
    } else if n > 0 {
      DistinctBound(xs, n - 1);
    }
  }

  function Total(xs: seq<nat>): nat {
    if xs == [] then 0 else Total(xs[..|xs| - 1]) + xs[|xs| - 1]
  }

  lemma {:induction false} TotalConcat(xs: seq<nat>, ys: seq<nat>)
    ensures Total(xs + ys) == Total(xs) + Total(ys)
  {
    if ys == [] {
      assert xs + ys == xs;
    } else {
      var n := |ys| - 1;
      TotalConcat(xs, ys[..n]);
      assert (xs + ys)[..|xs| + n] == xs + ys[..n];
    }
  }

  /** One number may be taken out from anywhere. */
  lemma TotalWithout(xs: seq<nat>, x: nat, ys: seq<nat>)
    ensures Total(xs + [x] + ys) == Total(xs + ys) + x
    ensures multiset(xs + [x] + ys) == multiset(xs + ys) + multiset{x}
  {
    TotalConcat(xs, [x]);
    TotalConcat(xs + [x], ys);
    TotalConcat(xs, ys);
    assert [x][..0] == [];
  }

  lemma SplitAt<T>(xs: seq<T>, x: T) returns (ys: seq<T>, zs: seq<T>)
    requires x in xs
    ensures xs == ys + [x] + zs
  {
    var i :| 0 <= i < |xs| && xs[i] == x;
    ys, zs := xs[..i], xs[i + 1..];
  }

  /** A sum does not depend on the order. */
  lemma {:induction false} TotalPermutes(xs: seq<nat>, ys: seq<nat>)
    requires multiset(xs) == multiset(ys)
    ensures Total(xs) == Total(ys)
    decreases |xs|
  {
    if xs == [] {
      assert |multiset(ys)| == |ys|;
    } else {
      var init, x := xs[..|xs| - 1], xs[|xs| - 1];
      assert xs == init + [x];
      assert x in multiset(ys);
      var a, b := SplitAt(ys, x);
      TotalWithout(a, x, b);
      assert multiset(init) + multiset{x} == multiset(a + b) + multiset{x};
      assert multiset(init) == multiset(init) + multiset{x} - multiset{x};
      assert multiset(a + b) == multiset(a + b) + multiset{x} - multiset{x};
      TotalPermutes(init, a + b);
    }
  }

  function SumOf(x: seq<real>): real {
    if x == [] then 0.0 else x[0] + SumOf(x[1..])
  }
}
