/**
 * The rolling price averages of src/analytics/market_analytics.cpp.  Prices, volumes and sums are
 * reals; times are unsigned 64-bit nanoseconds whose subtraction wraps.
 */
module Analytics {
  import opened Common

  /** Nanoseconds. */
  type Time = U64

  /** Unsigned addition, as the code adds durations. */
  function Plus(a: Time, b: Time): Time {
    if a + b < WORD then a + b else a + b - WORD
  }

  /** A trade or a price sample with its time. */
  datatype Timed<+T> = Timed(time: Time, item: T)

  // ----------------------------------------------------------- the rolling window

  /** The oldest time that is kept; wraps when `now` is less than the window. */
  function Cutoff(now: Time, window: Time): Time {
    Elapsed(window, now)
  }

  /** remove_expired */
  function DropExpired<T>(q: seq<Timed<T>>, cutoff: nat): seq<Timed<T>> {
    if q != [] && q[0].time < cutoff then DropExpired(q[1..], cutoff) else q
  }

  /** What is kept after a series of updates. */
  function After<T>(us: seq<Timed<T>>, window: Time): seq<Timed<T>> {
    if us == [] then []
    else
      var u := us[|us| - 1];
      DropExpired(After(us[..|us| - 1], window), Cutoff(u.time, window)) + [u]
  }

  /** What a rolling window should hold at time `now`. */
  function InWindow<T>(us: seq<Timed<T>>, now: Time, window: Time): seq<Timed<T>> {
    if us == [] then []
    else
      InWindow(us[..|us| - 1], now, window)
      + if us[|us| - 1].time + window >= now then [us[|us| - 1]] else []
  }

  /** Times do not decrease. */
  ghost predicate Stream<T>(us: seq<Timed<T>>) {
    forall i, j :: 0 <= i < j < |us| ==> us[i].time <= us[j].time
  }

  /** How many updates of a stream are earlier than the window is long. */
  function Early<T>(us: seq<Timed<T>>, window: Time): (e: nat)
    ensures e <= |us|
  {
    if us == [] then 0
    else if us[|us| - 1].time < window then |us|
    else Early(us[..|us| - 1], window)
  }

  /** The last early update and everything after it. */
  function SinceEarly<T>(us: seq<Timed<T>>, window: Time): seq<Timed<T>> {
    var e := Early(us, window);
    us[if e > 0 then e - 1 else 0..]
  }

  lemma {:induction false} InWindowSplits<T>(a: seq<Timed<T>>, b: seq<Timed<T>>, now: Time, window: Time)
    ensures InWindow(a + b, now, window) == InWindow(a, now, window) + InWindow(b, now, window)
  {
    if b == [] {
      assert a + b == a;
    } else {
      assert (a + b)[..|a + b| - 1] == a + b[..|b| - 1];
      InWindowSplits(a, b[..|b| - 1], now, window);
    }
  }

  /** Nothing is in the window exactly when everything is too old. */
  lemma {:induction false} InWindowEmpty<T>(us: seq<Timed<T>>, now: Time, window: Time)
    ensures InWindow(us, now, window) == [] <==> forall i :: 0 <= i < |us| ==> us[i].time + window < now
  {
    if us != [] {
      InWindowEmpty(us[..|us| - 1], now, window);
    }
  }

  lemma {:induction false} InWindowAll<T>(us: seq<Timed<T>>, now: Time, window: Time)
    requires forall i :: 0 <= i < |us| ==> us[i].time + window >= now
    ensures InWindow(us, now, window) == us
  {
    if us != [] {
      InWindowAll(us[..|us| - 1], now, window);
      assert us[..|us| - 1] + [us[|us| - 1]] == us;
    }
  }

  /** Dropping from the front of a stream leaves what is young enough. */
  lemma {:induction false} DropIsInWindow<T>(q: seq<Timed<T>>, now: Time, window: Time)
    requires Stream(q) && window <= now
    ensures DropExpired(q, now - window) == InWindow(q, now, window)
  {
    if q != [] && q[0].time < now - window {
      DropIsInWindow(q[1..], now, window);
      assert q == [q[0]] + q[1..];
      InWindowSplits([q[0]], q[1..], now, window);
      InWindowEmpty([q[0]], now, window);
    } else {
      InWindowAll(q, now, window);
    }
  }

  /** Narrowing a window twice. */
  lemma {:induction false} InWindowTwice<T>(us: seq<Timed<T>>, before: Time, now: Time, window: Time)
    requires before <= now
    ensures InWindow(InWindow(us, before, window), now, window) == InWindow(us, now, window)
  {
    if us != [] {
      var front, u := us[..|us| - 1], us[|us| - 1];
      var w := InWindow(front, before, window);
      InWindowTwice(front, before, now, window);
      if u.time + window >= before {
        assert (w + [u])[..|w|] == w;
        assert InWindow(us, before, window) == w + [u];
      } else {
        assert InWindow(us, before, window) == w;
      }
    }
  }

  lemma {:induction false} InWindowStream<T>(us: seq<Timed<T>>, now: Time, window: Time)
    requires Stream(us)
    ensures Stream(InWindow(us, now, window))
    ensures forall x :: x in InWindow(us, now, window) ==> x in us
  {
    if us != [] {
      var front, u := us[..|us| - 1], us[|us| - 1];
      InWindowStream(front, now, window);
      if u.time + window >= now {
        StreamPush(InWindow(front, now, window), u);
      }
    }
  }

  lemma StreamPush<T>(us: seq<Timed<T>>, u: Timed<T>)
    requires Stream(us) && forall x :: x in us ==> x.time <= u.time
    ensures Stream(us + [u])
  {
    forall i | 0 <= i < |us| ensures us[i].time <= u.time {
      assert us[i] in us;
    }
  }

  /** An update earlier than the window is long wraps the cutoff, and everything before it goes. */
  lemma {:induction false} EarlyDropsAll<T>(q: seq<Timed<T>>, now: Time, window: Time)
    requires now < window && forall x :: x in q ==> x.time <= now
    ensures DropExpired(q, Cutoff(now, window)) == []
  {
    if q != [] {
      assert q[0] in q;
      EarlyDropsAll(q[1..], now, window);
    }
  }

  lemma AfterPush<T>(us: seq<Timed<T>>, u: Timed<T>, window: Time)
    ensures After(us + [u], window) == DropExpired(After(us, window), Cutoff(u.time, window)) + [u]
  {
    assert (us + [u])[..|us|] == us;
  }

  /** One more update that is early, or the first. */
  lemma KeptAlone<T>(us: seq<Timed<T>>, u: Timed<T>, window: Time)
    requires Stream(us + [u]) && (us == [] || u.time < window)
    ensures DropExpired(After(us, window), Cutoff(u.time, window)) + [u] == InWindow([u], u.time, window)
  {
    forall i | 0 <= i < |us| ensures us[i].time <= u.time {
      assert (us + [u])[i].time <= (us + [u])[|us|].time;
    }
    KeptIsOld(us, window, u.time);
    if us != [] { EarlyDropsAll(After(us, window), u.time, window); }
    InWindowAll([u], u.time, window);
  }

  /** One more update that is not early. */
  lemma KeptGrows<T>(s: seq<Timed<T>>, u: Timed<T>, before: Time, window: Time)
    requires Stream(s) && before <= u.time && window <= u.time
    ensures DropExpired(InWindow(s, before, window), Cutoff(u.time, window)) + [u] == InWindow(s + [u], u.time, window)
  {
    InWindowStream(s, before, window);
    DropIsInWindow(InWindow(s, before, window), u.time, window);
    InWindowTwice(s, before, u.time, window);
    InWindowSplits(s, [u], u.time, window);
    InWindowAll([u], u.time, window);
  }

  lemma SinceEarlyGrows<T>(us: seq<Timed<T>>, u: Timed<T>, window: Time)
    ensures SinceEarly(us + [u], window) == if u.time < window || us == [] then [u] else SinceEarly(us, window) + [u]
  {
    assert (us + [u])[..|us|] == us;
  }

  lemma KeptStep<T>(us: seq<Timed<T>>, u: Timed<T>, window: Time)
    requires Stream(us) && Stream(us + [u])
    requires us != [] ==> us[|us| - 1].time <= u.time
                          && After(us, window) == InWindow(SinceEarly(us, window), us[|us| - 1].time, window)
    ensures After(us + [u], window) == InWindow(SinceEarly(us + [u], window), u.time, window)
  {
    AfterPush(us, u, window);
    SinceEarlyGrows(us, u, window);
    if us == [] || u.time < window {
      KeptAlone(us, u, window);
    } else {
      KeptGrows(SinceEarly(us, window), u, us[|us| - 1].time, window);
    }
  }

  /** After any stream of updates, what is kept is what is in the window among the last early
      update and those after it. */
  lemma {:induction false} KeptSinceEarly<T>(us: seq<Timed<T>>, window: Time)
    requires Stream(us) && us != []
    ensures After(us, window) == InWindow(SinceEarly(us, window), us[|us| - 1].time, window)
  {
    var front, u := us[..|us| - 1], us[|us| - 1];
    assert front + [u] == us;
    if front != [] { KeptSinceEarly(front, window); }
    KeptStep(front, u, window);
  }

  lemma {:induction false} KeptIsOld<T>(us: seq<Timed<T>>, window: Time, now: Time)
    requires forall i :: 0 <= i < |us| ==> us[i].time <= now
    ensures forall x :: x in After(us, window) ==> x.time <= now
  {
    if us != [] {
      var front := us[..|us| - 1];
      KeptIsOld(front, window, now);
      DropKeepsOld(After(front, window), Cutoff(us[|us| - 1].time, window), now);
    }
  }

  lemma {:induction false} DropKeepsOld<T>(q: seq<Timed<T>>, cutoff: nat, now: Time)
    requires forall x :: x in q ==> x.time <= now
    ensures forall x :: x in DropExpired(q, cutoff) ==> x.time <= now
  {
    if q != [] && q[0].time < cutoff { DropKeepsOld(q[1..], cutoff, now); }
  }

  /** Leaving out the first `k` changes nothing exactly when the last of them is too old. */
  lemma SuffixWindow<T>(us: seq<Timed<T>>, k: nat, now: Time, window: Time)
    requires Stream(us) && k <= |us|
    ensures InWindow(us[k..], now, window) == InWindow(us, now, window) <==> k == 0 || us[k - 1].time + window < now
  {
    var lost, kept := us[..k], us[k..];
    assert us == lost + kept;
    InWindowSplits(lost, kept, now, window);
    InWindowEmpty(lost, now, window);
    if k > 0 && us[k - 1].time + window < now {
      forall i | 0 <= i < |lost| ensures lost[i].time + window < now {
        assert us[i].time <= us[k - 1].time;
      }
    }
    if InWindow(lost, now, window) == [] {
      assert k > 0 ==> lost[k - 1] == us[k - 1];
    } else {
      assert |InWindow(us, now, window)| > |InWindow(kept, now, window)|;
    }
  }

  /** The window is right exactly when at most one update was early, or all the early updates but
      the last have left the window by now. */
  lemma WindowExactIff<T>(us: seq<Timed<T>>, window: Time)
    requires Stream(us) && us != []
    ensures var e, now := Early(us, window), us[|us| - 1].time;
            After(us, window) == InWindow(us, now, window) <==> e <= 1 || us[e - 2].time + window < now
  {
    var e := Early(us, window);
    KeptSinceEarly(us, window);
    SuffixWindow(us, if e > 0 then e - 1 else 0, us[|us| - 1].time, window);
  }

  /** With all times at least the window, the window is always right. */
  lemma {:induction false} NoneEarly<T>(us: seq<Timed<T>>, window: Time)
    requires forall i :: 0 <= i < |us| ==> us[i].time >= window
    ensures Early(us, window) == 0
  {
    if us != [] { NoneEarly(us[..|us| - 1], window); }
  }

  lemma WindowExact<T>(us: seq<Timed<T>>, window: Time)
    requires Stream(us) && us != [] && forall i :: 0 <= i < |us| ==> us[i].time >= window
    ensures After(us, window) == InWindow(us, us[|us| - 1].time, window)
  {
    NoneEarly(us, window);
    WindowExactIff(us, window);
  }

  /** Two trades at times 1 and 2 with a window of 10: the first is lost at once. */
  lemma EarlyTradeLost<T>(a: T, b: T)
    ensures var us := [Timed(1, a), Timed(2, b)];
            After(us, 10) == [Timed(2, b)] && InWindow(us, 2, 10) == us
  {
    var us := [Timed(1, a), Timed(2, b)];
    assert us[..1] == [Timed(1, a)] && us[..1][..0] == [];
    assert After(us[..1], 10) == [Timed(1, a)];
    EarlyDropsAll(After(us[..1], 10), 2, 10);
    InWindowAll(us, 2, 10);
  }

  // ------------------------------------------------- volume-weighted average price

  datatype Lot = Lot(price: real, volume: real)

  function PriceVolume(ts: seq<Timed<Lot>>): real {
    if ts == [] then 0.0 else ts[0].item.price * ts[0].item.volume + PriceVolume(ts[1..])
  }

  function Volume(ts: seq<Timed<Lot>>): real {
    if ts == [] then 0.0 else ts[0].item.volume + Volume(ts[1..])
  }

  ghost predicate SumsOf(ts: seq<Timed<Lot>>, priceVolume: real, volume: real) {
    priceVolume == PriceVolume(ts) && volume == Volume(ts)
  }

  lemma {:induction false} SumsPush(ts: seq<Timed<Lot>>, t: Timed<Lot>)
    ensures PriceVolume(ts + [t]) == PriceVolume(ts) + t.item.price * t.item.volume
    ensures Volume(ts + [t]) == Volume(ts) + t.item.volume
  {
    if ts == [] {
      assert ts + [t] == [t];
    } else {
      assert (ts + [t])[1..] == ts[1..] + [t];
      SumsPush(ts[1..], t);
    }
  }

  /** The average recomputed from the trades. */
  function VwapOf(ts: seq<Timed<Lot>>): real {
    if Volume(ts) == 0.0 then 0.0 else PriceVolume(ts) / Volume(ts)
  }

  lemma {:induction false} VolumeIsSum(ts: seq<Timed<Lot>>)
    ensures Volume(ts) == SumOf(seq(|ts|, i requires 0 <= i < |ts| => ts[i].item.volume))
  {
    if ts != [] {
      VolumeIsSum(ts[1..]);
      assert seq(|ts|, i requires 0 <= i < |ts| => ts[i].item.volume)[1..]
          == seq(|ts[1..]|, i requires 0 <= i < |ts[1..]| => ts[1..][i].item.volume);
    }
  }

  lemma {:induction false} PriceVolumeIsSum(ts: seq<Timed<Lot>>)
    ensures PriceVolume(ts) == SumOf(seq(|ts|, i requires 0 <= i < |ts| => ts[i].item.price * ts[i].item.volume))
  {
    if ts != [] {
      PriceVolumeIsSum(ts[1..]);
      var a := seq(|ts|, i requires 0 <= i < |ts| => ts[i].item.price * ts[i].item.volume)[1..];
      var b := seq(|ts[1..]|, i requires 0 <= i < |ts[1..]| => ts[1..][i].item.price * ts[1..][i].item.volume);
      forall i | 0 <= i < |b| ensures a[i] == b[i] {
        assert ts[1..][i] == ts[i + 1];
      }
      assert a == b;
    }
  }

  /** The average of trades: what was paid over what was traded, or 0 when nothing was. */
  ghost predicate IsAverage(r: real, ts: seq<Timed<Lot>>) {
    var traded := SumOf(seq(|ts|, i requires 0 <= i < |ts| => ts[i].item.volume));
    var paid := SumOf(seq(|ts|, i requires 0 <= i < |ts| => ts[i].item.price * ts[i].item.volume));
    if traded == 0.0 then r == 0.0 else r * traded == paid
  }

  lemma VwapIsAverage(ts: seq<Timed<Lot>>)
    ensures IsAverage(VwapOf(ts), ts)
  {
    VolumeIsSum(ts);
    PriceVolumeIsSum(ts);
    if Volume(ts) != 0.0 { QuotientTimes(PriceVolume(ts), Volume(ts)); }
  }

  lemma QuotientTimes(n: real, d: real)
    requires d != 0.0
    ensures n / d * d == n
  {
  }

  class Vwap {
    const window: Time
    var trades: seq<Timed<Lot>>
    var priceVolume: real
    var volume: real
    ghost var history: seq<Timed<Lot>>

    /** The running sums are those of the kept trades, and those are what the updates leave. */
    ghost predicate Valid()
      reads this
    {
      SumsOf(trades, priceVolume, volume) && trades == After(history, window)
    }

    constructor (window: Time)
      ensures Valid() && history == [] && this.window == window
    {
      this.window := window;
      trades, priceVolume, volume, history := [], 0.0, 0.0, [];
    }

    method RemoveExpired(now: Time)
      requires SumsOf(trades, priceVolume, volume)
      modifies this`trades, this`priceVolume, this`volume
      ensures trades == DropExpired(old(trades), Cutoff(now, window))
      ensures SumsOf(trades, priceVolume, volume)
    {
      var cutoff := Cutoff(now, window);
      while trades != [] && trades[0].time < cutoff
        invariant DropExpired(trades, cutoff) == DropExpired(old(trades), cutoff)
        invariant SumsOf(trades, priceVolume, volume)
        decreases |trades|
      {
        priceVolume := priceVolume - trades[0].item.price * trades[0].item.volume;
        volume := volume - trades[0].item.volume;
        trades := trades[1..];
      }
    }

    method Append(trade: Timed<Lot>)
      requires SumsOf(trades, priceVolume, volume)
      modifies this`trades, this`priceVolume, this`volume
      ensures trades == old(trades) + [trade] && SumsOf(trades, priceVolume, volume)
    {
      SumsPush(trades, trade);
      trades := trades + [trade];
      priceVolume := priceVolume + trade.item.price * trade.item.volume;
      volume := volume + trade.item.volume;
    }

    method Update(price: real, lots: real, now: Time)
      requires Valid()
      modifies this
      ensures Valid() && history == old(history) + [Timed(now, Lot(price, lots))]
    {
      var trade := Timed(now, Lot(price, lots));
      RemoveExpired(now);
      Append(trade);
      AfterPush(history, trade, window);
      history := history + [trade];
    }

    method GetVwap() returns (r: real)
      requires Valid()
      ensures r == VwapOf(After(history, window)) && IsAverage(r, After(history, window))
    {
      VwapIsAverage(trades);
      if volume == 0.0 {
        return 0.0;
      }
      return priceVolume / volume;
    }

    method Reset()
      modifies this
      ensures Valid() && history == []
    {
      trades, priceVolume, volume, history := [], 0.0, 0.0, [];
    }
  }

  ghost predicate PricedWithin(ts: seq<Timed<Lot>>, lo: real, hi: real) {
    forall i :: 0 <= i < |ts| ==> lo <= ts[i].item.price <= hi && ts[i].item.volume >= 0.0
  }

  lemma WeightedBounds(p: real, v: real, lo: real, hi: real)
    requires lo <= p <= hi && v >= 0.0
    ensures lo * v <= p * v <= hi * v
  {
  }

  lemma Distribute(a: real, x: real, y: real)
    ensures a * (x + y) == a * x + a * y
  {
  }

  /** One more price `p` of weight `v` on top of a weighted sum within bounds. */
  lemma WeightedStep(p: real, v: real, sum: real, w: real, lo: real, hi: real)
    requires lo <= p <= hi && v >= 0.0 && lo * w <= sum <= hi * w
    ensures lo * (v + w) <= p * v + sum <= hi * (v + w)
  {
    WeightedBounds(p, v, lo, hi);
    Distribute(lo, v, w);
    Distribute(hi, v, w);
  }

  lemma {:induction false} PriceVolumeBounds(ts: seq<Timed<Lot>>, lo: real, hi: real)
    requires PricedWithin(ts, lo, hi)
    ensures lo * Volume(ts) <= PriceVolume(ts) <= hi * Volume(ts) && Volume(ts) >= 0.0
  {
    if ts != [] {
      PriceVolumeBounds(ts[1..], lo, hi);
      WeightedStep(ts[0].item.price, ts[0].item.volume, PriceVolume(ts[1..]), Volume(ts[1..]), lo, hi);
    }
  }

  lemma ProductOrder(a: real, b: real, d: real)
    requires a < b && d > 0.0
    ensures a * d < b * d
  {
  }

  lemma QuotientBounds(n: real, d: real, lo: real, hi: real)
    requires d > 0.0 && lo * d <= n <= hi * d
    ensures lo <= n / d <= hi
  {
    var q := n / d;
    assert q * d == n;
    if q < lo { ProductOrder(q, lo, d); }
    if q > hi { ProductOrder(hi, q, d); }
  }

  /** For updates none of which is early, the running average is that of exactly the trades in the
      window, and lies between the least and the greatest of their prices. */
  lemma VwapMeaning(us: seq<Timed<Lot>>, window: Time, lo: real, hi: real)
    requires Stream(us) && us != [] && forall i :: 0 <= i < |us| ==> us[i].time >= window
    ensures var ts := InWindow(us, us[|us| - 1].time, window);
            && After(us, window) == ts && IsAverage(VwapOf(After(us, window)), ts)
            && (PricedWithin(ts, lo, hi) && Volume(ts) != 0.0 ==> lo <= VwapOf(After(us, window)) <= hi)
  {
    WindowExact(us, window);
    var ts := InWindow(us, us[|us| - 1].time, window);
    VwapIsAverage(ts);
    if PricedWithin(ts, lo, hi) && Volume(ts) != 0.0 {
      PriceVolumeBounds(ts, lo, hi);
      QuotientBounds(PriceVolume(ts), Volume(ts), lo, hi);
    }
  }

  // --------------------------------------------------- time-weighted average price

  datatype Tick = Tick(price: real, duration: Time)

  /** How long the first price of a series stood; a price set at time 0 gets no duration. */
  function Stood(ts: seq<Timed<real>>): Time {
    if |ts| < 2 || ts[0].time == 0 then 0 else Elapsed(ts[0].time, ts[1].time)
  }

  /** The samples that a series of prices leads to. */
  function Sampled(ts: seq<Timed<real>>): (r: seq<Timed<Tick>>)
    ensures |r| == |ts|
  {
    if ts == [] then [] else [Timed(ts[0].time, Tick(ts[0].item, Stood(ts)))] + Sampled(ts[1..])
  }

  function Weighted(ss: seq<Timed<Tick>>): real {
    if ss == [] then 0.0 else ss[0].item.price * (ss[0].item.duration as real) + Weighted(ss[1..])
  }

  function Duration(ss: seq<Timed<Tick>>): nat {
    if ss == [] then 0 else ss[0].item.duration + Duration(ss[1..])
  }

  /** The durations added up as the code adds them, with wrap-around. */
  function TotalTime(ss: seq<Timed<Tick>>): Time {
    if ss == [] then 0 else Plus(TotalTime(ss[..|ss| - 1]), ss[|ss| - 1].item.duration)
  }

  /** The average recomputed from the samples. */
  function TwapOf(ss: seq<Timed<Tick>>): real {
    if ss == [] then 0.0
    else if TotalTime(ss) == 0 then ss[|ss| - 1].item.price
    else Weighted(ss) / (TotalTime(ss) as real)
  }

  /** Samples with the last one's duration set. */
  function Closed(ss: seq<Timed<Tick>>, d: Time): seq<Timed<Tick>>
    requires ss != []
  {
    ss[..|ss| - 1] + [ss[|ss| - 1].(item := ss[|ss| - 1].item.(duration := d))]
  }

  lemma {:induction false} DropSampled(ts: seq<Timed<real>>, cutoff: nat)
    ensures DropExpired(Sampled(ts), cutoff) == Sampled(DropExpired(ts, cutoff))
  {
    if ts != [] && ts[0].time < cutoff {
      assert Sampled(ts)[1..] == Sampled(ts[1..]);
      DropSampled(ts[1..], cutoff);
    }
  }

  lemma {:induction false} SampledPush(ts: seq<Timed<real>>, t: Timed<real>)
    ensures var n := |ts|;
            Sampled(ts + [t]) ==
              (if n == 0 || ts[n - 1].time == 0 then Sampled(ts)
               else Closed(Sampled(ts), Elapsed(ts[n - 1].time, t.time))) + [Timed(t.time, Tick(t.item, 0))]
  {
    if |ts| == 0 {
      assert ts + [t] == [t];
    } else if |ts| == 1 {
      assert ts + [t] == [ts[0], t] && (ts + [t])[1..] == [t] && ts[1..] == [];
    } else {
      assert (ts + [t])[1..] == ts[1..] + [t];
      SampledPush(ts[1..], t);
      assert Stood(ts + [t]) == Stood(ts);
    }
  }

  lemma {:induction false} DropLast<T>(q: seq<Timed<T>>, cutoff: nat)
    ensures var r := DropExpired(q, cutoff); |r| <= |q| && (r != [] ==> r[|r| - 1] == q[|q| - 1])
  {
    if q != [] && q[0].time < cutoff { DropLast(q[1..], cutoff); }
  }

  lemma {:induction false} WeightedPush(ss: seq<Timed<Tick>>, s: Timed<Tick>)
    ensures Weighted(ss + [s]) == Weighted(ss) + s.item.price * (s.item.duration as real)
  {
    if ss == [] {
      assert ss + [s] == [s];
    } else {
      assert (ss + [s])[1..] == ss[1..] + [s];
      WeightedPush(ss[1..], s);
    }
  }

  lemma {:induction false} DurationPush(ss: seq<Timed<Tick>>, s: Timed<Tick>)
    ensures Duration(ss + [s]) == Duration(ss) + s.item.duration
  {
    if ss == [] {
      assert ss + [s] == [s];
    } else {
      assert (ss + [s])[1..] == ss[1..] + [s];
      DurationPush(ss[1..], s);
    }
  }

  lemma {:induction false} TotalIsDuration(ss: seq<Timed<Tick>>)
    requires Duration(ss) < WORD
    ensures TotalTime(ss) == Duration(ss)
  {
    if ss != [] {
      DurationPush(ss[..|ss| - 1], ss[|ss| - 1]);
      assert ss[..|ss| - 1] + [ss[|ss| - 1]] == ss;
      TotalIsDuration(ss[..|ss| - 1]);
    }
  }

  class Twap {
    const window: Time
    var samples: seq<Timed<Tick>>
    var lastTime: Time
    ghost var history: seq<Timed<real>>

    ghost predicate Valid()
      reads this
    {
      && samples == Sampled(After(history, window))
      && lastTime == if history == [] then 0 else history[|history| - 1].time
    }

    constructor (window: Time)
      ensures Valid() && history == [] && this.window == window
    {
      this.window := window;
      samples, lastTime, history := [], 0, [];
    }

    method RemoveExpired(now: Time)
      modifies this`samples
      ensures samples == DropExpired(old(samples), Cutoff(now, window))
    {
      var cutoff := Cutoff(now, window);
      while samples != [] && samples[0].time < cutoff
        invariant DropExpired(samples, cutoff) == DropExpired(old(samples), cutoff)
        decreases |samples|
      {
        samples := samples[1..];
      }
    }

    method Update(price: real, now: Time)
      requires Valid()
      modifies this
      ensures Valid() && history == old(history) + [Timed(now, price)]
    {
      RemoveExpired(now);
      ghost var kept := DropExpired(After(history, window), Cutoff(now, window));
      DropSampled(After(history, window), Cutoff(now, window));
      DropLast(After(history, window), Cutoff(now, window));
      SampledPush(kept, Timed(now, price));
      AfterPush(history, Timed(now, price), window);
      assert kept != [] ==> kept[|kept| - 1].time == lastTime;
      if samples != [] && lastTime > 0 {
        samples := Closed(samples, Elapsed(lastTime, now));
      }
      samples := samples + [Timed(now, Tick(price, 0))];
      lastTime := now;
      history := history + [Timed(now, price)];
    }

    method GetTwap() returns (r: real)
      requires Valid()
      ensures r == TwapOf(Sampled(After(history, window)))
    {
      if samples == [] {
        return 0.0;
      }
      var weighted: real, total: Time, i: nat := 0.0, 0, 0;
      while i < |samples|
        invariant i <= |samples|
        invariant weighted == Weighted(samples[..i]) && total == TotalTime(samples[..i])
      {
        WeightedPush(samples[..i], samples[i]);
        assert samples[..i + 1] == samples[..i] + [samples[i]];
        weighted := weighted + samples[i].item.price * (samples[i].item.duration as real);
        total := Plus(total, samples[i].item.duration);
        i := i + 1;
      }
      assert samples[..i] == samples;
      if total == 0 {
        return samples[|samples| - 1].item.price;
      }
      return weighted / (total as real);
    }

    method Reset()
      modifies this
      ensures Valid() && history == []
    {
      samples, lastTime, history := [], 0, [];
    }
  }

  lemma DurationStep(ts: seq<Timed<real>>)
    requires Stream(ts) && |ts| >= 2
    ensures Duration(Sampled(ts)) ==
              (if ts[0].time == 0 then 0 else ts[1].time - ts[0].time) + Duration(Sampled(ts[1..]))
  {
    assert Sampled(ts)[1..] == Sampled(ts[1..]);
  }

  lemma DurationOne(t: Timed<real>)
    ensures Duration(Sampled([t])) == 0
  {
    assert [t][1..] == [];
    assert Sampled([t])[1..] == [];
  }

  /** The durations of a stream add up to last minus first time, exactly when the first time is not
      0, or all are. */
  lemma {:induction false} DurationsTelescope(ts: seq<Timed<real>>)
    requires Stream(ts) && ts != []
    ensures var first, last, d := ts[0].time, ts[|ts| - 1].time, Duration(Sampled(ts));
            d <= last - first && (d == last - first <==> first > 0 || last == 0)
  {
    if |ts| == 1 {
      assert ts == [ts[0]];
      DurationOne(ts[0]);
    } else {
      DurationsTelescope(ts[1..]);
      DurationStep(ts);
    }
  }

  ghost predicate TicksWithin(ss: seq<Timed<Tick>>, lo: real, hi: real) {
    forall i :: 0 <= i < |ss| ==> lo <= ss[i].item.price <= hi
  }

  lemma {:induction false} WeightedWithin(ss: seq<Timed<Tick>>, lo: real, hi: real, d: real)
    requires TicksWithin(ss, lo, hi) && d == Duration(ss) as real
    ensures lo * d <= Weighted(ss) <= hi * d
  {
    if ss != [] {
      var v, w := ss[0].item.duration as real, Duration(ss[1..]) as real;
      WeightedWithin(ss[1..], lo, hi, w);
      WeightedStep(ss[0].item.price, v, Weighted(ss[1..]), w, lo, hi);
      assert d == v + w;
    }
  }

  /** With no wrapped durations, the average lies between the least and the greatest sample. */
  lemma TwapBetween(ss: seq<Timed<Tick>>, lo: real, hi: real)
    requires ss != [] && TicksWithin(ss, lo, hi) && Duration(ss) < WORD
    ensures lo <= TwapOf(ss) <= hi
  {
    TotalIsDuration(ss);
    if Duration(ss) > 0 {
      var d := Duration(ss) as real;
      WeightedWithin(ss, lo, hi, d);
      QuotientBounds(Weighted(ss), d, lo, hi);
    }
  }

  /** How long price `i` of a series stood before the next one; one set at time 0 has no weight. */
  ghost function Span(ts: seq<Timed<real>>, i: nat): int
    requires i + 1 < |ts|
  {
    if ts[i].time == 0 then 0 else ts[i + 1].time - ts[i].time
  }

  ghost function Spans(ts: seq<Timed<real>>): (x: seq<real>)
    requires ts != []
    ensures |x| == |ts| - 1
  {
    seq(|ts| - 1, i requires 0 <= i < |ts| - 1 => Span(ts, i) as real)
  }

  ghost function PricedSpans(ts: seq<Timed<real>>): (x: seq<real>)
    requires ts != []
    ensures |x| == |ts| - 1
  {
    seq(|ts| - 1, i requires 0 <= i < |ts| - 1 => ts[i].item * Span(ts, i) as real)
  }

  lemma SpansTail(ts: seq<Timed<real>>)
    requires |ts| >= 2
    ensures Spans(ts)[1..] == Spans(ts[1..]) && PricedSpans(ts)[1..] == PricedSpans(ts[1..])
  {
    forall i | 0 <= i < |ts| - 2
      ensures Spans(ts)[1..][i] == Spans(ts[1..])[i] && PricedSpans(ts)[1..][i] == PricedSpans(ts[1..])[i]
    {
      assert ts[1..][i] == ts[i + 1] && Span(ts[1..], i) == Span(ts, i + 1);
    }
    assert Spans(ts)[1..] == Spans(ts[1..]);
    assert PricedSpans(ts)[1..] == PricedSpans(ts[1..]);
  }

  lemma {:induction false} SampledSums(ts: seq<Timed<real>>)
    requires Stream(ts) && ts != []
    ensures Duration(Sampled(ts)) as real == SumOf(Spans(ts)) && Weighted(Sampled(ts)) == SumOf(PricedSpans(ts))
  {
    assert Sampled(ts)[1..] == Sampled(ts[1..]);
    if |ts| == 1 {
      assert ts[1..] == [] && Sampled(ts[1..]) == [];
    } else {
      SampledSums(ts[1..]);
      SpansTail(ts);
    }
  }

  /** The time-weighted average of a series of prices: each weighs as long as it stood, the last one not
      at all; when none stood for any time, the last price. */
  ghost predicate IsTimeAverage(r: real, ts: seq<Timed<real>>) {
    ts != [] &&
    if SumOf(Spans(ts)) == 0.0 then r == ts[|ts| - 1].item else r * SumOf(Spans(ts)) == SumOf(PricedSpans(ts))
  }

  lemma LastSample(ts: seq<Timed<real>>)
    requires ts != []
    ensures Sampled(ts)[|ts| - 1].item.price == ts[|ts| - 1].item
    decreases |ts|
  {
    if |ts| > 1 {
      LastSample(ts[1..]);
      assert Sampled(ts)[1..] == Sampled(ts[1..]);
    }
  }

  lemma TwapIsTimeAverage(ts: seq<Timed<real>>)
    requires Stream(ts) && ts != []
    ensures IsTimeAverage(TwapOf(Sampled(ts)), ts)
  {
    SampledSums(ts);
    DurationsTelescope(ts);
    TotalIsDuration(Sampled(ts));
    LastSample(ts);
    if Duration(Sampled(ts)) > 0 { QuotientTimes(Weighted(Sampled(ts)), Duration(Sampled(ts)) as real); }
  }

  /** For updates none of which is early or at time 0, the samples are exactly those in the window,
      their durations add up to the time they span, and the average lies between their prices. */
  lemma TwapMeaning(us: seq<Timed<real>>, window: Time, lo: real, hi: real)
    requires Stream(us) && us != [] && forall i :: 0 <= i < |us| ==> us[i].time >= window && us[i].time > 0
    ensures var ts := InWindow(us, us[|us| - 1].time, window);
            && After(us, window) == ts && ts != []
            && IsTimeAverage(TwapOf(Sampled(After(us, window))), ts)
            && Duration(Sampled(ts)) == ts[|ts| - 1].time - ts[0].time
            && (TicksWithin(Sampled(ts), lo, hi) ==> lo <= TwapOf(Sampled(After(us, window))) <= hi)
  {
    WindowExact(us, window);
    var now := us[|us| - 1].time;
    var ts := InWindow(us, now, window);
    InWindowStream(us, now, window);
    assert ts[|ts| - 1] == us[|us| - 1];
    assert ts[0] in us;
    DurationsTelescope(ts);
    TwapIsTimeAverage(ts);
    if TicksWithin(Sampled(ts), lo, hi) {
      TwapBetween(Sampled(ts), lo, hi);
    }
  }
}
