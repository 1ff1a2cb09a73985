/**
 * The logarithmic latency histogram of include/metrics/metrics_collector.hpp: bucketing, the
 * percentile scan, and recording by any number of threads.  log2 and pow are exact: the bucket of
 * v is the largest b with 2^b <= v^10, the value of bucket b the largest w with w^10 <= 2^b.
 */
module Histogram {
  import opened Common

  // --------------------------------------------------------------- arithmetic

  function Power(x: nat, k: nat): (r: nat)
    ensures x > 0 ==> r > 0
  {
    if k == 0 then 1 else x * Power(x, k - 1)
  }

  lemma TimesMono(a: nat, b: nat, c: nat, d: nat)
    requires a <= b && c <= d
    ensures a * c <= b * d
  {
    assert a * c <= b * c && b * c <= b * d;
  }

  lemma {:induction false} PowerMono(x: nat, y: nat, k: nat)
    requires x <= y
    ensures Power(x, k) <= Power(y, k)
  {
    if k > 0 {
      PowerMono(x, y, k - 1);
      TimesMono(x, y, Power(x, k - 1), Power(y, k - 1));
    }
  }

  lemma {:induction false} PowerStrict(x: nat, y: nat, k: nat)
    requires x < y && k > 0
    ensures Power(x, k) < Power(y, k)
  {
    PowerMono(x, y, k - 1);
    TimesMono(x, y - 1, Power(x, k - 1), Power(y, k - 1));
    assert (y - 1) * Power(y, k - 1) == y * Power(y, k - 1) - Power(y, k - 1);
  }

  lemma {:induction false} PowerAdd(x: nat, j: nat, k: nat)
    ensures Power(x, j + k) == Power(x, j) * Power(x, k)
  {
    if j > 0 {
      PowerAdd(x, j - 1, k);
      TimesAssoc(x, Power(x, j - 1), Power(x, k));
    }
  }

  lemma TimesAssoc(a: nat, b: nat, c: nat)
    ensures a * (b * c) == (a * b) * c
  {
  }

  lemma {:induction false} PowerPower(x: nat, j: nat, k: nat)
    ensures Power(Power(x, j), k) == Power(x, j * k)
  {
    if k > 0 {
      PowerPower(x, j, k - 1);
      PowerAdd(x, j, j * (k - 1));
      assert j + j * (k - 1) == j * k;
    }
  }

  lemma {:induction false} PowerGrows(x: nat, j: nat, k: nat)
    requires x > 0 && j <= k
    ensures Power(x, j) <= Power(x, k)
  {
    PowerAdd(x, j, k - j);
    TimesMono(Power(x, j), Power(x, j), 1, Power(x, k - j));
  }

  lemma Doubled(j: nat, v: nat)
    requires Power(2, j) == v
    ensures Power(2, j + j) == v * v
  {
    PowerAdd(2, j, j);
  }

  lemma WordIsPower()
    ensures Power(2, 64) == WORD
  {
    Doubled(1, 2);
    Doubled(2, 4);
    Doubled(4, 0x10);
    Doubled(8, 0x100);
    Doubled(16, 0x1_0000);
    Doubled(32, 0x1_0000_0000);
  }

  /** The largest b with 2^b <= x. */
  function FloorLog2(x: nat): (b: nat)
    requires x > 0
    ensures Power(2, b) <= x < Power(2, b + 1)
  {
    if x == 1 then 0 else FloorLog2(x / 2) + 1
  }

  lemma FloorLog2Mono(x: nat, y: nat)
    requires 0 < x <= y
    ensures FloorLog2(x) <= FloorLog2(y)
  {
    if FloorLog2(y) + 1 <= FloorLog2(x) {
      PowerGrows(2, FloorLog2(y) + 1, FloorLog2(x));
    }
  }

  /** The largest w with w^10 <= x. */
  function Root10(x: nat): (w: nat)
    ensures Power(w, 10) <= x < Power(w + 1, 10)
  {
    if x == 0 then assert Power(1, 10) == 1; 0
    else
      var w := Root10(x - 1);
      if Power(w + 1, 10) <= x then PowerStrict(w + 1, w + 2, 10); w + 1 else w
  }

  // ----------------------------------------------------------------- bucketing

  /** value_to_bucket, for a histogram of `n` buckets. */
  function Bucket(v: nat, n: nat): (b: nat)
    requires n > 0
    ensures b < n
  {
    if v == 0 then 0
    else var b := FloorLog2(Power(v, 10)); if b < n - 1 then b else n - 1
  }

  /** bucket_to_value */
  function BucketValue(b: nat): nat {
    Root10(Power(2, b))
  }

  lemma BucketMono(x: nat, y: nat, n: nat)
    requires x <= y && n > 0
    ensures Bucket(x, n) <= Bucket(y, n)
  {
    if x > 0 {
      PowerMono(x, y, 10);
      FloorLog2Mono(Power(x, 10), Power(y, 10));
    }
  }

  /** No positive value is overestimated, and one whose bucket is not cut off is underestimated by
      less than a tenth root of two, up to rounding. */
  lemma BucketError(v: nat, n: nat)
    requires n > 0 && v > 0
    ensures var w := BucketValue(Bucket(v, n));
            w <= v && (Power(v, 10) < Power(2, n) ==> Power(v, 10) < 2 * Power(w + 1, 10))
  {
    var b, c := FloorLog2(Power(v, 10)), Bucket(v, n);
    PowerGrows(2, c, b);
    var w := BucketValue(c);
    if w > v { PowerStrict(v, w, 10); }
    if Power(v, 10) < Power(2, n) && b >= n { PowerGrows(2, n, b); }
  }

  /** With 640 or more buckets no 64-bit value is cut off. */
  lemma WordFits(v: nat, n: nat)
    requires v < WORD && n >= 640
    ensures Power(v, 10) < Power(2, n)
  {
    WordIsPower();
    PowerStrict(v, WORD, 10);
    PowerPower(2, 64, 10);
    PowerGrows(2, 640, n);
  }

  /** Zero is reported as one: bucket 0 stands for 0 and 1 alike. */
  lemma ZeroReadsAsOne(n: nat)
    requires n > 0
    ensures BucketValue(Bucket(0, n)) == 1
  {
    assert Power(1, 10) == 1;
    if BucketValue(0) > 1 { PowerStrict(1, BucketValue(0), 10); }
  }

  // ------------------------------------------------------- what recording adds up to

  /** The shared counters. */
  datatype Totals = Totals(buckets: seq<nat>, min: nat, max: nat, count: nat, sum: nat)

  function NoTotals(n: nat): Totals {
    Totals(seq(n, _ => 0), SIZE_MAX, 0, 0, 0)
  }

  /** The bucket array after one increment. */
  function Bumped(buckets: seq<nat>, b: nat): seq<nat>
    requires b < |buckets|
  {
    buckets[b := (buckets[b] + 1) % WORD]
  }

  /** One uninterrupted `record`. */
  function Recorded(t: Totals, v: nat): Totals
    requires |t.buckets| > 0
  {
    Totals(Bumped(t.buckets, Bucket(v, |t.buckets|)),
           if v < t.min then v else t.min, if v > t.max then v else t.max,
           (t.count + 1) % WORD, (t.sum + v) % WORD)
  }

  function RecordAll(vals: seq<nat>, n: nat): (t: Totals)
    requires n > 0
    ensures |t.buckets| == n
  {
    if vals == [] then NoTotals(n) else Recorded(RecordAll(vals[..|vals| - 1], n), vals[|vals| - 1])
  }

  /** What values are counted by. */
  datatype Test = InBucket(b: nat) | BelowBucket(b: nat) | Below(v: nat) | AtMost(v: nat)

  ghost predicate Holds(p: Test, x: nat, n: nat)
    requires n > 0
  {
    match p
    case InBucket(b) => Bucket(x, n) == b
    case BelowBucket(b) => Bucket(x, n) < b
    case Below(v) => x < v
    case AtMost(v) => x <= v
  }

  /** How many values pass the test, in a histogram of `n` buckets. */
  ghost function Count(vals: seq<nat>, p: Test, n: nat): nat
    requires n > 0
  {
    if vals == [] then 0
    else Count(vals[..|vals| - 1], p, n) + if Holds(p, vals[|vals| - 1], n) then 1 else 0
  }

  lemma {:induction false} CountImplies(vals: seq<nat>, p: Test, q: Test, n: nat)
    requires n > 0 && forall x: nat :: x in vals && Holds(p, x, n) ==> Holds(q, x, n)
    ensures Count(vals, p, n) <= Count(vals, q, n) <= |vals|
  {
    if vals != [] { CountImplies(vals[..|vals| - 1], p, q, n); }
  }

  lemma {:induction false} CountSplits(vals: seq<nat>, b: nat, n: nat)
    requires n > 0
    ensures Count(vals, BelowBucket(b + 1), n) == Count(vals, BelowBucket(b), n) + Count(vals, InBucket(b), n)
    ensures Count(vals, BelowBucket(b + 1), n) <= |vals|
  {
    if vals != [] { CountSplits(vals[..|vals| - 1], b, n); }
  }

  lemma {:induction false} CountEnds(vals: seq<nat>, n: nat)
    requires n > 0
    ensures Count(vals, BelowBucket(0), n) == 0 && Count(vals, BelowBucket(n), n) == |vals|
  {
    if vals != [] { CountEnds(vals[..|vals| - 1], n); }
  }

  /** The counters say what the values are: how many in each bucket, how many in all, their sum. */
  ghost predicate Tallies(t: Totals, vals: seq<nat>) {
    && |t.buckets| > 0
    && (forall b :: 0 <= b < |t.buckets| ==> t.buckets[b] == Count(vals, InBucket(b), |t.buckets|) % WORD)
    && t.count == |vals| % WORD && t.sum == Total(vals) % WORD
  }

  lemma CountPush(vals: seq<nat>, v: nat, p: Test, n: nat)
    requires n > 0
    ensures Count(vals + [v], p, n) == Count(vals, p, n) + if Holds(p, v, n) then 1 else 0
  {
    assert (vals + [v])[..|vals|] == vals;
  }

  lemma BumpedTallies(buckets: seq<nat>, vals: seq<nat>, v: nat, b: nat)
    requires b < |buckets| && buckets[b] == Count(vals, InBucket(b), |buckets|) % WORD
    ensures Bumped(buckets, Bucket(v, |buckets|))[b] == Count(vals + [v], InBucket(b), |buckets|) % WORD
  {
    CountPush(vals, v, InBucket(b), |buckets|);
    AddMod(Count(vals, InBucket(b), |buckets|), 1);
  }

  lemma RecordedTallies(t: Totals, vals: seq<nat>, v: nat)
    requires Tallies(t, vals)
    ensures Tallies(Recorded(t, v), vals + [v])
  {
    var n, t' := |t.buckets|, Recorded(t, v);
    forall b | 0 <= b < n ensures t'.buckets[b] == Count(vals + [v], InBucket(b), n) % WORD {
      BumpedTallies(t.buckets, vals, v, b);
    }
    assert (vals + [v])[..|vals|] == vals;
    AddMod(|vals|, 1);
    AddMod(Total(vals), v);
  }

  lemma {:induction false} RecordAllTallies(vals: seq<nat>, n: nat)
    requires n > 0
    ensures Tallies(RecordAll(vals, n), vals)
  {
    if vals != [] {
      RecordAllTallies(vals[..|vals| - 1], n);
      RecordedTallies(RecordAll(vals[..|vals| - 1], n), vals[..|vals| - 1], vals[|vals| - 1]);
      assert vals[..|vals| - 1] + [vals[|vals| - 1]] == vals;
    }
  }

  ghost predicate IsMin(m: nat, vals: seq<nat>) {
    (forall x :: x in vals ==> m <= x) && (m in vals || m == SIZE_MAX)
  }

  ghost predicate IsMax(m: nat, vals: seq<nat>) {
    (forall x :: x in vals ==> x <= m) && (m in vals || m == 0)
  }

  lemma {:induction false} RecordAllExtremes(vals: seq<nat>, n: nat)
    requires n > 0
    ensures IsMin(RecordAll(vals, n).min, vals) && IsMax(RecordAll(vals, n).max, vals)
  {
    if vals != [] {
      var front := vals[..|vals| - 1];
      RecordAllExtremes(front, n);
      assert forall x :: x in vals <==> x in front || x == vals[|vals| - 1];
    }
  }

  // -------------------------------------------------------------- the percentile scan

  /** `v` is the k-th smallest of the values, counting from one. */
  ghost predicate IsKth(vals: seq<nat>, k: nat, v: nat) {
    v in vals && Count(vals, Below(v), 1) < k <= Count(vals, AtMost(v), 1)
  }

  /** Add up buckets until `k` values are covered: the bucket where that happens, or their number. */
  function Scan(buckets: seq<nat>, k: nat, i: nat, cumulative: nat): (b: nat)
    requires i <= |buckets|
    ensures i <= b <= |buckets|
    decreases |buckets| - i
  {
    if i == |buckets| then i
    else
      var c := (cumulative + buckets[i]) % WORD;
      if c >= k then i else Scan(buckets, k, i + 1, c)
  }

  function Target(count: nat, p: real): nat
    requires p >= 0.0
  {
    ((count as real) * p / 100.0).Floor
  }

  function Percentile(t: Totals, p: real): nat
    requires p >= 0.0
  {
    if t.count == 0 then 0
    else
      var b := Scan(t.buckets, Target(t.count, p), 0, 0);
      if b < |t.buckets| then BucketValue(b) else t.max
  }

  /** The bucket where the count first reaches `k` is the bucket of the k-th smallest value. */
  lemma BucketOfKth(vals: seq<nat>, n: nat, k: nat, v: nat, i: nat)
    requires i < n && IsKth(vals, k, v)
    requires Count(vals, BelowBucket(i), n) < k <= Count(vals, BelowBucket(i + 1), n)
    ensures Bucket(v, n) == i
  {
    AnyBuckets(vals, Below(v), n, 1);
    AnyBuckets(vals, AtMost(v), n, 1);
    if Bucket(v, n) < i {
      forall x: nat | Holds(AtMost(v), x, n) ensures Holds(BelowBucket(i), x, n) { BucketMono(x, v, n); }
      CountImplies(vals, AtMost(v), BelowBucket(i), n);
    } else if Bucket(v, n) > i {
      forall x: nat | Holds(BelowBucket(i + 1), x, n) ensures Holds(Below(v), x, n) {
        if v <= x { BucketMono(v, x, n); }
      }
      CountImplies(vals, BelowBucket(i + 1), Below(v), n);
    }
  }

  lemma {:induction false} AnyBuckets(vals: seq<nat>, p: Test, n: nat, m: nat)
    requires n > 0 && m > 0 && (p.Below? || p.AtMost?)
    ensures Count(vals, p, n) == Count(vals, p, m)
  {
    if vals != [] { AnyBuckets(vals[..|vals| - 1], p, n, m); }
  }

  lemma WithinWord(a: nat, b: nat)
    requires a + b < WORD
    ensures (a + b % WORD) % WORD == a + b
  {
  }

  lemma ScanStep(t: Totals, vals: seq<nat>, i: nat)
    requires Tallies(t, vals) && i < |t.buckets| && |vals| < WORD
    ensures (Count(vals, BelowBucket(i), |t.buckets|) + t.buckets[i]) % WORD == Count(vals, BelowBucket(i + 1), |t.buckets|)
  {
    CountSplits(vals, i, |t.buckets|);
    WithinWord(Count(vals, BelowBucket(i), |t.buckets|), Count(vals, InBucket(i), |t.buckets|));
  }

  lemma {:induction false} ScanFinds(t: Totals, vals: seq<nat>, k: nat, v: nat, i: nat)
    requires Tallies(t, vals) && i <= |t.buckets| && |vals| < WORD && IsKth(vals, k, v)
    requires Count(vals, BelowBucket(i), |t.buckets|) < k
    ensures Scan(t.buckets, k, i, Count(vals, BelowBucket(i), |t.buckets|)) == Bucket(v, |t.buckets|)
    decreases |t.buckets| - i
  {
    var n := |t.buckets|;
    CountImplies(vals, AtMost(v), AtMost(v), 1);
    CountEnds(vals, n);
    if i < n {
      ScanStep(t, vals, i);
      if Count(vals, BelowBucket(i + 1), n) >= k {
        BucketOfKth(vals, n, k, v, i);
      } else {
        ScanFinds(t, vals, k, v, i + 1);
      }
    }
  }

  lemma {:induction false} ScanMisses(t: Totals, vals: seq<nat>, k: nat, i: nat)
    requires Tallies(t, vals) && i <= |t.buckets| && |vals| < WORD && |vals| < k
    ensures Scan(t.buckets, k, i, Count(vals, BelowBucket(i), |t.buckets|)) == |t.buckets|
    decreases |t.buckets| - i
  {
    if i < |t.buckets| {
      ScanStep(t, vals, i);
      CountSplits(vals, i, |t.buckets|);
      ScanMisses(t, vals, k, i + 1);
    }
  }

  /** The rank: the whole part of count * p / 100. */
  lemma TargetIs(count: nat, p: real, k: nat)
    requires p >= 0.0 && k as real <= count as real * p / 100.0 < (k + 1) as real
    ensures Target(count, p) == k
  {
  }

  /** get_percentile of counters that tally with `vals`, when it looks for the k-th. */
  ghost predicate MeansKth(t: Totals, vals: seq<nat>, k: nat, r: nat) {
    && |t.buckets| > 0
    && (vals == [] ==> r == 0)
    && (vals != [] && k == 0 ==> r == 1)
    && (vals != [] && k > |vals| ==> r == t.max)
    && (forall v {:trigger IsKth(vals, k, v)} :: k > 0 && IsKth(vals, k, v) ==> r == BucketValue(Bucket(v, |t.buckets|)))
  }

  lemma PercentileAt(t: Totals, vals: seq<nat>, p: real)
    requires Tallies(t, vals) && |vals| < WORD && p >= 0.0
    ensures MeansKth(t, vals, Target(|vals|, p), Percentile(t, p))
  {
    var k := Target(|vals|, p);
    CountEnds(vals, |t.buckets|);
    if vals != [] && k == 0 {
      ZeroReadsAsOne(|t.buckets|);
    }
    if vals != [] && k > |vals| {
      ScanMisses(t, vals, k, 0);
    }
    forall v | k > 0 && IsKth(vals, k, v) ensures Percentile(t, p) == BucketValue(Bucket(v, |t.buckets|)) {
      ScanFinds(t, vals, k, v, 0);
    }
  }

  /** get_percentile of counters that tally with `vals`, in all cases: with `k` the whole part of
      total * p / 100, it is 0 on no values, 1 for k = 0, the maximum for k beyond the total, and
      otherwise the value of the bucket of the k-th smallest. */
  lemma PercentileMeaning(t: Totals, vals: seq<nat>, p: real, k: nat)
    requires Tallies(t, vals) && |vals| < WORD && p >= 0.0
    requires k as real <= |vals| as real * p / 100.0 < (k + 1) as real
    ensures MeansKth(t, vals, k, Percentile(t, p))
  {
    TargetIs(|vals|, p, k);
    PercentileAt(t, vals, p);
  }

  /** Against the true order statistic `v`: the answer `w` is no more than `v` exactly when `v` is
      positive, and falls short of a positive `v` whose bucket is not cut off by less than a tenth
      root of two. */
  lemma PercentileError(t: Totals, vals: seq<nat>, k: nat, v: nat, w: nat)
    requires MeansKth(t, vals, k, w) && k > 0 && IsKth(vals, k, v)
    ensures w <= v <==> v > 0
    ensures v > 0 && Power(v, 10) < Power(2, |t.buckets|) ==> Power(v, 10) < 2 * Power(w + 1, 10)
  {
    if v > 0 { BucketError(v, |t.buckets|); } else { ZeroReadsAsOne(|t.buckets|); }
  }

  /** For 1 <= k <= |vals| there is a k-th smallest value ... */
  lemma KthExists(vals: seq<nat>, k: nat)
    requires 0 < k <= |vals|
    ensures exists v :: IsKth(vals, k, v)
  {
    var top := Total(vals) + 1;
    AllBelow(vals, top);
    var v := KthBelow(vals, k, top);
  }

  /** ... and only one. */
  lemma KthUnique(vals: seq<nat>, k: nat, v: nat, w: nat)
    requires IsKth(vals, k, v) && IsKth(vals, k, w)
    ensures v == w
  {
    if v < w { CountImplies(vals, AtMost(v), Below(w), 1); }
    if w < v { CountImplies(vals, AtMost(w), Below(v), 1); }
  }

  lemma {:induction false} AllBelow(vals: seq<nat>, top: nat)
    requires Total(vals) < top
    ensures Count(vals, Below(top), 1) == |vals|
  {
    if vals != [] { AllBelow(vals[..|vals| - 1], top); }
  }

  lemma {:induction false} KthBelow(vals: seq<nat>, k: nat, top: nat) returns (v: nat)
    requires 0 < k <= Count(vals, Below(top), 1)
    ensures IsKth(vals, k, v)
  {
    if top == 0 {
      CountImplies(vals, Below(0), BelowBucket(0), 1);
      CountEnds(vals, 1);
    } else {
      v := top - 1;
      CountImplies(vals, Below(top), AtMost(v), 1);
      if v !in vals {
        CountImplies(vals, AtMost(v), Below(v), 1);
        v := KthBelow(vals, k, v);
      } else if Count(vals, Below(v), 1) >= k {
        v := KthBelow(vals, k, v);
      }
    }
  }

  // --------------------------------------------------------------- the histogram object

  /** LockFreeHistogram used by one thread at a time. */
  class LatencyHistogram {
    const buckets: array<nat>
    var min: nat
    var max: nat
    var count: nat
    var sum: nat

    ghost predicate Valid() { buckets.Length > 0 }

    ghost function View(): Totals
      reads this, buckets
    {
      Totals(buckets[..], min, max, count, sum)
    }

    constructor (n: nat)
      requires n > 0
      ensures Valid() && fresh(buckets) && buckets.Length == n && View() == RecordAll([], n)
    {
      buckets := new nat[n](_ => 0);
      min, max, count, sum := SIZE_MAX, 0, 0, 0;
    }

    method Record(value: nat)
      requires Valid()
      modifies this, buckets
      ensures View() == Recorded(old(View()), value)
    {
      var b := Bucket(value, buckets.Length);
      buckets[b] := (buckets[b] + 1) % WORD;
      if value < min { min := value; }
      if value > max { max := value; }
      count := (count + 1) % WORD;
      sum := (sum + value) % WORD;
    }

    method GetPercentile(p: real) returns (r: nat)
      requires Valid() && p >= 0.0
      ensures r == Percentile(View(), p)
    {
      if count == 0 {
        return 0;
      }
      var target := Target(count, p);
      var cumulative: nat, i: nat := 0, 0;
      while i < buckets.Length
        invariant i <= buckets.Length
        invariant Scan(buckets[..], target, i, cumulative) == Scan(buckets[..], target, 0, 0)
      {
        cumulative := (cumulative + buckets[i]) % WORD;
        if cumulative >= target {
          return BucketValue(i);
        }
        i := i + 1;
      }
      return max;
    }

    method Reset()
      requires Valid()
      modifies this, buckets
      ensures View() == RecordAll([], buckets.Length)
    {
      for i := 0 to buckets.Length
        invariant forall j :: 0 <= j < i ==> buckets[j] == 0
      {
        buckets[i] := 0;
      }
      min, max, count, sum := SIZE_MAX, 0, 0, 0;
    }
  }

  // ------------------------------------------------------ recording by many threads

  /** Where a thread is inside `record`.  The bucket has been incremented by then. */
  datatype Pc =
    | Idle
    | MinLoad(value: nat)
    | MinTry(value: nat, current: nat)
    | MaxLoad(value: nat)
    | MaxTry(value: nat, current: nat)
    | AddCount(value: nat)
    | AddSum(value: nat)

  /** `vals` is history: the values whose recording has begun, in that order. */
  datatype State = State(totals: Totals, threads: seq<Pc>, vals: seq<nat>)

  datatype Event = Record(value: nat) | Go(spurious: bool)

  function Init(n: nat, threads: nat): State
    requires n > 0
  {
    State(RecordAll([], n), seq(threads, _ => Idle), [])
  }

  function Goto(s: State, t: nat, pc: Pc, totals: Totals): State
    requires t < |s.threads|
  {
    s.(threads := s.threads[t := pc], totals := totals)
  }

  /** One atomic step of thread `t`; a failed weak compare-exchange reloads the current value. */
  function Step(s: State, t: nat, e: Event): State
    requires t < |s.threads| && |s.totals.buckets| > 0
  {
    var m := s.totals;
    match e
    case Record(v) =>
      if !s.threads[t].Idle? || v >= WORD then s
      else
        Goto(s, t, MinLoad(v), m.(buckets := Bumped(m.buckets, Bucket(v, |m.buckets|)))).(vals := s.vals + [v])
    case Go(spurious) =>
      match s.threads[t]
      case Idle => s
      case MinLoad(v) => Goto(s, t, MinTry(v, m.min), m)
      case MinTry(v, current) =>
        if v >= current then Goto(s, t, MaxLoad(v), m)
        else if m.min == current && !spurious then Goto(s, t, MaxLoad(v), m.(min := v))
        else Goto(s, t, MinTry(v, m.min), m)
      case MaxLoad(v) => Goto(s, t, MaxTry(v, m.max), m)
      case MaxTry(v, current) =>
        if v <= current then Goto(s, t, AddCount(v), m)
        else if m.max == current && !spurious then Goto(s, t, AddCount(v), m.(max := v))
        else Goto(s, t, MaxTry(v, m.max), m)
      case AddCount(v) => Goto(s, t, AddSum(v), m.(count := (m.count + 1) % WORD))
      case AddSum(v) => Goto(s, t, Idle, m.(sum := (m.sum + v) % WORD))
  }

  /** What a thread still owes to `total_count_` and to `total_sum_`. */
  function OwesCount(pc: Pc): nat { if pc.Idle? || pc.AddSum? then 0 else 1 }

  function OwesSum(pc: Pc): nat { if pc.Idle? then 0 else pc.value }

  function Owed(threads: seq<Pc>, f: Pc -> nat): nat {
    if threads == [] then 0 else Owed(threads[..|threads| - 1], f) + f(threads[|threads| - 1])
  }

  lemma {:induction false} OwedUpdate(threads: seq<Pc>, f: Pc -> nat, t: nat, pc: Pc)
    requires t < |threads|
    ensures Owed(threads[t := pc], f) == Owed(threads, f) - f(threads[t]) + f(pc)
  {
    var n := |threads| - 1;
    if t == n {
      assert threads[t := pc][..n] == threads[..n];
    } else {
      assert threads[t := pc][..n] == threads[..n][t := pc];
      OwedUpdate(threads[..n], f, t, pc);
    }
  }

  lemma {:induction false} OwedIdle(threads: seq<Pc>)
    requires forall t :: 0 <= t < |threads| ==> threads[t].Idle?
    ensures Owed(threads, OwesCount) == 0 && Owed(threads, OwesSum) == 0
  {
    if threads != [] { OwedIdle(threads[..|threads| - 1]); }
  }

  ghost predicate MinPending(pc: Pc, x: nat) { (pc.MinLoad? || pc.MinTry?) && pc.value == x }

  ghost predicate MaxPending(pc: Pc, x: nat) {
    (pc.MinLoad? || pc.MinTry? || pc.MaxLoad? || pc.MaxTry?) && pc.value == x
  }

  /** The minimum is one of the values, and below all of them but those still to be compared. */
  ghost predicate MinOk(s: State) {
    && (s.totals.min in s.vals || s.totals.min == SIZE_MAX)
    && (forall x :: x in s.vals ==>
          s.totals.min <= x || exists t :: 0 <= t < |s.threads| && MinPending(s.threads[t], x))
    && (forall t :: 0 <= t < |s.threads| && s.threads[t].MinTry? ==> s.totals.min <= s.threads[t].current)
  }

  ghost predicate MaxOk(s: State) {
    && (s.totals.max in s.vals || s.totals.max == 0)
    && (forall x :: x in s.vals ==>
          s.totals.max >= x || exists t :: 0 <= t < |s.threads| && MaxPending(s.threads[t], x))
    && (forall t :: 0 <= t < |s.threads| && s.threads[t].MaxTry? ==> s.totals.max >= s.threads[t].current)
  }

  ghost predicate CountOk(s: State) {
    s.totals.count == (|s.vals| - Owed(s.threads, OwesCount)) % WORD
  }

  ghost predicate SumOk(s: State) {
    s.totals.sum == (Total(s.vals) - Owed(s.threads, OwesSum)) % WORD
  }

  ghost predicate BucketsOk(m: Totals, vals: seq<nat>) {
    |m.buckets| > 0 && m.buckets == RecordAll(vals, |m.buckets|).buckets
  }

  ghost predicate ValuesOk(s: State) {
    && (forall x :: x in s.vals ==> x < WORD)
    && (forall t :: 0 <= t < |s.threads| && !s.threads[t].Idle? ==> s.threads[t].value in s.vals)
  }

  ghost predicate Inv(s: State) {
    BucketsOk(s.totals, s.vals) && ValuesOk(s) && MinOk(s) && MaxOk(s) && CountOk(s) && SumOk(s)
  }

  lemma RecordAllPush(vals: seq<nat>, v: nat, n: nat)
    requires n > 0
    ensures RecordAll(vals + [v], n) == Recorded(RecordAll(vals, n), v)
  {
    assert (vals + [v])[..|vals|] == vals;
  }

  lemma BucketsStep(s: State, t: nat, e: Event)
    requires t < |s.threads| && BucketsOk(s.totals, s.vals)
    ensures BucketsOk(Step(s, t, e).totals, Step(s, t, e).vals)
  {
    if e.Record? {
      RecordAllPush(s.vals, e.value, |s.totals.buckets|);
    }
  }

  lemma MinStep(s: State, t: nat, e: Event)
    requires t < |s.threads| && |s.totals.buckets| > 0 && ValuesOk(s) && MinOk(s)
    ensures ValuesOk(Step(s, t, e)) && MinOk(Step(s, t, e))
  {
    var s' := Step(s, t, e);
    forall x | x in s'.vals
      ensures s'.totals.min <= x || exists u :: 0 <= u < |s'.threads| && MinPending(s'.threads[u], x)
    {
      if x in s.vals && s.totals.min > x {
        var u :| 0 <= u < |s.threads| && MinPending(s.threads[u], x);
        assert u != t ==> MinPending(s'.threads[u], x);
        assert MinPending(s'.threads[t], x) || u != t || s'.totals.min <= x;
      } else if x !in s.vals {
        assert MinPending(s'.threads[t], x);
      }
    }
  }

  lemma MaxStep(s: State, t: nat, e: Event)
    requires t < |s.threads| && |s.totals.buckets| > 0 && ValuesOk(s) && MaxOk(s)
    ensures MaxOk(Step(s, t, e))
  {
    var s' := Step(s, t, e);
    forall x | x in s'.vals
      ensures s'.totals.max >= x || exists u :: 0 <= u < |s'.threads| && MaxPending(s'.threads[u], x)
    {
      if x in s.vals && s.totals.max < x {
        var u :| 0 <= u < |s.threads| && MaxPending(s.threads[u], x);
        assert u != t ==> MaxPending(s'.threads[u], x);
        assert MaxPending(s'.threads[t], x) || u != t || s'.totals.max >= x;
      } else if x !in s.vals {
        assert MaxPending(s'.threads[t], x);
      }
    }
  }

  /** What a step does to the counters: each of count and sum grows by what the thread no longer owes. */
  lemma StepOwes(s: State, t: nat, e: Event)
    requires t < |s.threads| && |s.totals.buckets| > 0
    ensures var s' := Step(s, t, e);
            && |s'.threads| == |s.threads| && s'.threads == s.threads[t := s'.threads[t]]
            && s'.totals.count == (if e.Go? && s.threads[t].AddCount? then (s.totals.count + 1) % WORD else s.totals.count)
            && s'.totals.sum == (if e.Go? && s.threads[t].AddSum? then (s.totals.sum + s.threads[t].value) % WORD else s.totals.sum)
            && OwesCount(s'.threads[t]) - OwesCount(s.threads[t]) ==
                 |s'.vals| - |s.vals| - (if e.Go? && s.threads[t].AddCount? then 1 else 0)
            && OwesSum(s'.threads[t]) - OwesSum(s.threads[t]) ==
                 Total(s'.vals) - Total(s.vals) - (if e.Go? && s.threads[t].AddSum? then s.threads[t].value else 0)
  {
    if e.Record? {
      assert (s.vals + [e.value])[..|s.vals|] == s.vals;
    }
  }

  /** A counter that is `total - owed` modulo 2^64 stays so when `d` more is added and `d` less is owed. */
  lemma Accounted(counter: nat, total: int, owed: int, total': int, owed': int, d: int)
    requires counter == (total - owed) % WORD && total' - owed' == total - owed + d
    ensures (counter + d) % WORD == (total' - owed') % WORD && (d == 0 ==> counter == (total' - owed') % WORD)
  {
    AddMod(total - owed, d);
  }

  lemma CountStep(s: State, t: nat, e: Event)
    requires t < |s.threads| && |s.totals.buckets| > 0 && CountOk(s)
    ensures CountOk(Step(s, t, e))
  {
    var s' := Step(s, t, e);
    var owed, owed' := Owed(s.threads, OwesCount), Owed(s'.threads, OwesCount);
    StepOwes(s, t, e);
    OwedUpdate(s.threads, OwesCount, t, s'.threads[t]);
    Accounted(s.totals.count, |s.vals|, owed, |s'.vals|, owed', if e.Go? && s.threads[t].AddCount? then 1 else 0);
  }

  lemma SumStep(s: State, t: nat, e: Event)
    requires t < |s.threads| && |s.totals.buckets| > 0 && SumOk(s)
    ensures SumOk(Step(s, t, e))
  {
    var s' := Step(s, t, e);
    var owed, owed' := Owed(s.threads, OwesSum), Owed(s'.threads, OwesSum);
    StepOwes(s, t, e);
    OwedUpdate(s.threads, OwesSum, t, s'.threads[t]);
    Accounted(s.totals.sum, Total(s.vals), owed, Total(s'.vals), owed', if e.Go? && s.threads[t].AddSum? then s.threads[t].value else 0);
  }

  lemma StepInv(s: State, t: nat, e: Event)
    requires t < |s.threads| && Inv(s)
    ensures Inv(Step(s, t, e)) && |Step(s, t, e).threads| == |s.threads|
  {
    BucketsStep(s, t, e);
    MinStep(s, t, e);
    MaxStep(s, t, e);
    CountStep(s, t, e);
    SumStep(s, t, e);
  }

  /** A schedule names a thread and an event for each step; entries beyond the threads are skipped. */
  function Run(s: State, schedule: seq<(nat, Event)>): State
    requires |s.totals.buckets| > 0
    decreases |schedule|
  {
    if schedule == [] then s
    else
      var (t, e) := schedule[0];
      Run(if t < |s.threads| then Step(s, t, e) else s, schedule[1..])
  }

  lemma {:induction false} RunInv(s: State, schedule: seq<(nat, Event)>)
    requires Inv(s)
    ensures Inv(Run(s, schedule))
    decreases |schedule|
  {
    if schedule != [] {
      var (t, e) := schedule[0];
      if t < |s.threads| { StepInv(s, t, e); }
      RunInv(if t < |s.threads| then Step(s, t, e) else s, schedule[1..]);
    }
  }

  /** When every `record` has returned, the counters are those of recording the same values one
      after the other, whatever the interleaving. */
  lemma QuiescentTotals(n: nat, threads: nat, schedule: seq<(nat, Event)>)
    requires n > 0
    ensures var s := Run(Init(n, threads), schedule);
            (forall t :: 0 <= t < |s.threads| ==> s.threads[t].Idle?) ==> s.totals == RecordAll(s.vals, n)
  {
    var s0 := Init(n, threads);
    OwedIdle(s0.threads);
    RunInv(s0, schedule);
    RunBuckets(s0, schedule);
    var s := Run(s0, schedule);
    if forall t :: 0 <= t < |s.threads| ==> s.threads[t].Idle? {
      QuiescentSerial(s);
    }
  }

  lemma {:induction false} RunBuckets(s: State, schedule: seq<(nat, Event)>)
    requires |s.totals.buckets| > 0
    ensures |Run(s, schedule).totals.buckets| == |s.totals.buckets|
    decreases |schedule|
  {
    if schedule != [] {
      var (t, e) := schedule[0];
      RunBuckets(if t < |s.threads| then Step(s, t, e) else s, schedule[1..]);
    }
  }

  lemma ExtremesUnique(vals: seq<nat>, a: nat, b: nat)
    requires forall x :: x in vals ==> x < WORD
    ensures IsMin(a, vals) && IsMin(b, vals) ==> a == b
    ensures IsMax(a, vals) && IsMax(b, vals) ==> a == b
  {
  }

  lemma QuiescentExtremes(s: State)
    requires MinOk(s) && MaxOk(s) && forall t :: 0 <= t < |s.threads| ==> s.threads[t].Idle?
    ensures IsMin(s.totals.min, s.vals) && IsMax(s.totals.max, s.vals)
  {
  }

  lemma QuiescentCounts(s: State)
    requires CountOk(s) && SumOk(s) && forall t :: 0 <= t < |s.threads| ==> s.threads[t].Idle?
    ensures s.totals.count == |s.vals| % WORD && s.totals.sum == Total(s.vals) % WORD
  {
    OwedIdle(s.threads);
  }

  /** Counters that say the same about the values are the same. */
  lemma TotalsAgree(t: Totals, r: Totals, vals: seq<nat>)
    requires t.buckets == r.buckets && t.count == r.count && t.sum == r.sum && forall x :: x in vals ==> x < WORD
    requires IsMin(t.min, vals) && IsMin(r.min, vals) && IsMax(t.max, vals) && IsMax(r.max, vals)
    ensures t == r
  {
    ExtremesUnique(vals, t.min, r.min);
    ExtremesUnique(vals, t.max, r.max);
  }

  lemma QuiescentSerial(s: State)
    requires Inv(s) && forall t :: 0 <= t < |s.threads| ==> s.threads[t].Idle?
    ensures s.totals == RecordAll(s.vals, |s.totals.buckets|)
  {
    QuiescentCounts(s);
    QuiescentExtremes(s);
    RecordAllTallies(s.vals, |s.totals.buckets|);
    RecordAllExtremes(s.vals, |s.totals.buckets|);
    TotalsAgree(s.totals, RecordAll(s.vals, |s.totals.buckets|), s.vals);
  }

  /** Steps a call of record has left when it runs alone, at most. */
  function Left(m: Totals, pc: Pc): (n: nat)
    ensures n <= 6 && (n == 0 <==> pc.Idle?)
  {
    match pc
    case Idle => 0
    case MinLoad(_) => 6
    case MinTry(_, current) => if current == m.min then 5 else 6
    case MaxLoad(_) => 4
    case MaxTry(_, current) => if current == m.max then 3 else 4
    case AddCount(_) => 2
    case AddSum(_) => 1
  }

  lemma AloneCloser(s: State, t: nat)
    requires t < |s.threads| && |s.totals.buckets| > 0 && !s.threads[t].Idle?
    ensures var s' := Step(s, t, Go(false));
            && |s'.threads| == |s.threads| && |s'.totals.buckets| == |s.totals.buckets|
            && Left(s'.totals, s'.threads[t]) < Left(s.totals, s.threads[t])
  {
  }

  /** The state after `k` steps of thread `t` alone, none of which fails spuriously. */
  function Alone(s: State, t: nat, k: nat): (r: State)
    requires t < |s.threads| && |s.totals.buckets| > 0
    ensures |r.threads| == |s.threads| && |r.totals.buckets| == |s.totals.buckets|
    decreases k
  {
    if k == 0 then s else Alone(Step(s, t, Go(false)), t, k - 1)
  }

  /** From every state a call of record that runs alone has returned after six steps. */
  lemma {:induction false} AloneReturns(s: State, t: nat, k: nat)
    requires t < |s.threads| && |s.totals.buckets| > 0 && Left(s.totals, s.threads[t]) <= k
    ensures Alone(s, t, k).threads[t].Idle?
    decreases k
  {
    if k > 0 {
      if !s.threads[t].Idle? { AloneCloser(s, t); }
      AloneReturns(Step(s, t, Go(false)), t, k - 1);
    }
  }

  lemma AloneStep(s: State, t: nat, k: nat)
    requires t < |s.threads| && |s.totals.buckets| > 0 && k > 0
    ensures Alone(s, t, k) == Alone(Step(s, t, Go(false)), t, k - 1)
  {
  }

  /** Both extremes and then the two counters: what six steps alone make of a call whose bucket is
      counted. */
  lemma SixSteps(s: State, t: nat, v: nat)
    requires t < |s.threads| && |s.totals.buckets| > 0 && s.threads[t] == MinLoad(v)
    ensures var m, r := s.totals, Alone(s, t, 6);
            && r.threads[t].Idle? && r.vals == s.vals
            && r.totals == Totals(m.buckets, if v < m.min then v else m.min, if v > m.max then v else m.max,
                                  (m.count + 1) % WORD, (m.sum + v) % WORD)
  {
    var s1 := Step(s, t, Go(false));
    var s2 := Step(s1, t, Go(false));
    var s3 := Step(s2, t, Go(false));
    var s4 := Step(s3, t, Go(false));
    var s5 := Step(s4, t, Go(false));
    AloneStep(s, t, 6);
    AloneStep(s1, t, 5);
    AloneStep(s2, t, 4);
    AloneStep(s3, t, 3);
    AloneStep(s4, t, 2);
    AloneStep(s5, t, 1);
    assert s2.threads[t] == MaxLoad(v) && s4.threads[t] == AddCount(v);
  }

  /** A call of record that runs alone does what one serial record does. */
  lemma SoloRecord(s: State, t: nat, v: nat)
    requires t < |s.threads| && |s.totals.buckets| > 0 && s.threads[t].Idle? && v < WORD
    ensures var r := Alone(Step(s, t, Event.Record(v)), t, 6);
            r.threads[t].Idle? && r.totals == Recorded(s.totals, v) && r.vals == s.vals + [v]
  {
    SixSteps(Step(s, t, Event.Record(v)), t, v);
  }

  lemma PercentileAfter(n: nat, threads: nat, schedule: seq<(nat, Event)>, p: real, k: nat)
    requires n > 0 && p >= 0.0
    requires var s := Run(Init(n, threads), schedule);
             && (forall t :: 0 <= t < |s.threads| ==> s.threads[t].Idle?) && |s.vals| < WORD && Target(|s.vals|, p) == k
    ensures var s := Run(Init(n, threads), schedule);
            |s.totals.buckets| == n && Tallies(s.totals, s.vals) && MeansKth(s.totals, s.vals, k, Percentile(s.totals, p))
  {
    var s := Run(Init(n, threads), schedule);
    QuiescentTotals(n, threads, schedule);
    RecordAllTallies(s.vals, n);
    PercentileAt(s.totals, s.vals, p);
  }

  /** Percentiles read after all recording threads are done, `k` the whole part of total * p / 100. */
  lemma ConcurrentPercentile(n: nat, threads: nat, schedule: seq<(nat, Event)>, s: State, p: real, k: nat)
    requires n > 0 && p >= 0.0 && s == Run(Init(n, threads), schedule)
    requires (forall t :: 0 <= t < |s.threads| ==> s.threads[t].Idle?) && |s.vals| < WORD
    requires k as real <= |s.vals| as real * p / 100.0 < (k + 1) as real
    ensures |s.totals.buckets| == n && MeansKth(s.totals, s.vals, k, Percentile(s.totals, p))
  {
    TargetIs(|s.vals|, p, k);
    PercentileAfter(n, threads, schedule, p, k);
  }
}
