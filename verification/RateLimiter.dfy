/**
 * The token bucket of src/utils/rate_limiter.cpp.  Doubles are reals; the clock is passed in
 * as nanoseconds.  First the limiter used by one thread at a time, with its window bound;
 * then every interleaving of many threads.
 */
module RateLimiter {
  import opened Common

  const MIN_REFILL: real := 0.001

  datatype Bucket = Bucket(rate: real, capacity: nat, tokens: real, last: U64)

  /** Tokens that `ns` nanoseconds are worth: rate * seconds. */
  function Worth(rate: real, ns: int): real {
    rate * ns as real / 1000000000.0
  }

  /** Constructor: an invalid rate or capacity is replaced, but the tokens start at the capacity asked for. */
  function Created(rate: real, capacity: nat, now: U64): Bucket {
    Bucket(if rate <= 0.0 then 1.0 else rate, if capacity == 0 then 1 else capacity, capacity as real, now)
  }

  function RealMin(a: real, b: real): real {
    if a < b then a else b
  }

  function Refilled(b: Bucket, now: U64): Bucket {
    var add := Worth(b.rate, Elapsed(b.last, now));
    var cap := b.capacity as real;
    if add < MIN_REFILL then b
    else b.(last := now, tokens := if b.tokens < cap then RealMin(b.tokens + add, cap) else b.tokens)
  }

  predicate Grants(b: Bucket, now: U64, need: nat) {
    Refilled(b, now).tokens >= need as real
  }

  function Acquired(b: Bucket, now: U64, need: nat): Bucket {
    var r := Refilled(b, now);
    if Grants(b, now, need) then r.(tokens := r.tokens - need as real) else r
  }

  class Limiter {
    var rate: real
    var capacity: nat
    var tokens: real
    var last: U64

    ghost function Value(): Bucket
      reads this
    {
      Bucket(rate, capacity, tokens, last)
    }

    constructor (ratePerSecond: real, capacity: nat, now: U64)
      ensures Value() == Created(ratePerSecond, capacity, now)
      ensures rate == (if ratePerSecond <= 0.0 then 1.0 else ratePerSecond) && this.capacity == (if capacity == 0 then 1 else capacity)
      ensures tokens == capacity as real && last == now
    {
      rate := ratePerSecond;
      this.capacity := capacity;
      tokens := capacity as real;
      last := now;
      new;
      if ratePerSecond <= 0.0 { rate := 1.0; }
      if capacity == 0 { this.capacity := 1; }
    }

    /** refill; the weak compare-exchange on the tokens fails `failures` times for no reason. */
    method Refill(now: U64, failures: nat)
      modifies this
      ensures Value() == Refilled(old(Value()), now)
      ensures rate == old(rate) && capacity == old(capacity)
      ensures old(rate * Elapsed(last, now) as real / 1000000000.0) < 0.001 ==> Value() == old(Value())
      ensures old(rate * Elapsed(last, now) as real / 1000000000.0) >= 0.001 ==>
                last == now && tokens == old(if tokens >= capacity as real then tokens
                                             else RealMin(tokens + rate * Elapsed(last, now) as real / 1000000000.0, capacity as real))
    {
      var add := Worth(rate, Elapsed(last, now));
      assert add == old(rate * Elapsed(last, now) as real / 1000000000.0);
      if add < MIN_REFILL {
        return;
      }
      last := now;
      var current, cap, left := tokens, capacity as real, failures;
      while current < cap
        invariant current == tokens == old(tokens) && last == now
        invariant capacity == old(capacity) && rate == old(rate)
        decreases left
      {
        var newValue := RealMin(current + add, cap);
        if left == 0 {
          tokens := newValue;
          break;
        }
        current, left := tokens, left - 1;
      }
    }

    /** try_acquire; likewise. */
    method TryAcquire(need: nat, now: U64, failures: nat) returns (ok: bool)
      modifies this
      ensures ok == Grants(old(Value()), now, need)
      ensures Value() == Acquired(old(Value()), now, need)
    {
      Refill(now, failures);
      var current, needed, left := tokens, need as real, failures;
      while current >= needed
        invariant current == tokens && Value() == Refilled(old(Value()), now)
        decreases left
      {
        if left == 0 {
          tokens := current - needed;
          return true;
        }
        current, left := tokens, left - 1;
      }
      return false;
    }
  }

  // ------------------------------------------------------------ serial bound

  ghost predicate Ok(b: Bucket) {
    b.rate > 0.0 && 0.0 <= b.tokens <= b.capacity as real
  }

  /** What the bucket could pay at `now`: its tokens and the time since the last refill. */
  function Potential(b: Bucket, now: U64): real {
    b.tokens + Worth(b.rate, now - b.last)
  }

  lemma WorthAdds(rate: real, x: int, y: int)
    ensures Worth(rate, x + y) == Worth(rate, x) + Worth(rate, y)
    ensures rate > 0.0 && x >= 0 ==> Worth(rate, x) >= 0.0
  {
    assert rate * (x + y) as real == rate * x as real + rate * y as real;
    if rate > 0.0 && x >= 0 {
      assert rate * x as real >= 0.0;
    }
  }

  lemma RefillPotential(b: Bucket, now: U64)
    requires Ok(b) && b.last <= now
    ensures var r := Refilled(b, now);
            && Ok(r) && r.rate == b.rate && r.capacity == b.capacity && r.last <= now
            && Potential(r, now) <= Potential(b, now)
            && Potential(r, now) < b.capacity as real + MIN_REFILL
            && r.tokens + MIN_REFILL >= RealMin(Potential(b, now), b.capacity as real)
  {
    WorthAdds(b.rate, now - b.last, 0);
    assert Worth(b.rate, 0) == 0.0;
  }

  lemma AcquirePays(b: Bucket, now: U64, need: nat)
    requires Ok(b) && b.last <= now
    ensures var a := Acquired(b, now, need); var g := if Grants(b, now, need) then need as real else 0.0;
            && Ok(a) && a.rate == b.rate && a.capacity == b.capacity && b.last <= a.last <= now
            && g + Potential(a, now) == Potential(Refilled(b, now), now) <= Potential(b, now)
            && g + Potential(a, now) < b.capacity as real + MIN_REFILL
    ensures !Grants(b, now, need) ==> RealMin(Potential(b, now), b.capacity as real) < need as real + MIN_REFILL
  {
    RefillPotential(b, now);
  }

  /** What the bucket could pay at `now` is its tokens and rate * time since the last refill.  A refill
      never raises that, leaves it less than 0.001 above capacity, and moves it into the tokens but
      for 0.001. */
  lemma RefillKeeps(b: Bucket, r: Bucket, now: U64)
    requires Ok(b) && b.last <= now && r == Refilled(b, now)
    ensures r.rate == b.rate && r.capacity == b.capacity && b.last <= r.last <= now && 0.0 <= r.tokens <= b.capacity as real
    ensures var before := b.tokens + b.rate * (now - b.last) as real / 1000000000.0;
            var after := r.tokens + r.rate * (now - r.last) as real / 1000000000.0;
            && after <= before && after < b.capacity as real + 0.001
            && r.tokens + 0.001 >= (if before < b.capacity as real then before else b.capacity as real)
  {
    RefillPotential(b, now);
    PotentialIs(b, now);
    PotentialIs(r, now);
  }

  /** A call takes what it grants from what the bucket could pay, and leaves it less than 0.001 above
      capacity; it refuses only when the bucket, capped, could not pay 0.001 more than asked. */
  lemma AcquireSpends(b: Bucket, a: Bucket, now: U64, need: nat)
    requires Ok(b) && b.last <= now && a == Acquired(b, now, need)
    ensures a.rate == b.rate && a.capacity == b.capacity && b.last <= a.last <= now && 0.0 <= a.tokens <= b.capacity as real
    ensures var before := b.tokens + b.rate * (now - b.last) as real / 1000000000.0;
            var after := a.tokens + a.rate * (now - a.last) as real / 1000000000.0;
            if Grants(b, now, need)
            then need as real + after <= before && need as real + after < b.capacity as real + 0.001
            else after <= before && (if before < b.capacity as real then before else b.capacity as real) < need as real + 0.001
  {
    AcquirePays(b, now, need);
    PotentialIs(b, now);
    PotentialIs(a, now);
  }

  datatype Call = Call(now: U64, need: nat)

  /** Calls at non-decreasing clock readings from `from` to `until`. */
  ghost predicate Timely(calls: seq<Call>, from: U64, until: U64) {
    && from <= until
    && (forall i :: 0 <= i < |calls| ==> from <= calls[i].now <= until)
    && (forall i, j :: 0 <= i < j < |calls| ==> calls[i].now <= calls[j].now)
  }

  function After(b: Bucket, calls: seq<Call>): Bucket
    decreases |calls|
  {
    if calls == [] then b else After(Acquired(b, calls[0].now, calls[0].need), calls[1..])
  }

  /** Tokens granted to the calls. */
  function Granted(b: Bucket, calls: seq<Call>): nat
    decreases |calls|
  {
    if calls == [] then 0
    else
      var c := calls[0];
      (if Grants(b, c.now, c.need) then c.need else 0) + Granted(Acquired(b, c.now, c.need), calls[1..])
  }

  lemma {:induction false} AfterOk(b: Bucket, calls: seq<Call>, from: U64, until: U64)
    requires Ok(b) && b.last <= from && Timely(calls, from, until)
    ensures var a := After(b, calls);
            Ok(a) && b.last <= a.last <= until && a.rate == b.rate && a.capacity == b.capacity
    decreases |calls|
  {
    if calls != [] {
      AcquirePays(b, calls[0].now, calls[0].need);
      AfterOk(Acquired(b, calls[0].now, calls[0].need), calls[1..], calls[0].now, until);
    }
  }

  lemma TimePasses(b: Bucket, from: U64, now: U64)
    ensures Potential(b, now) == Potential(b, from) + Worth(b.rate, now - from)
  {
    WorthAdds(b.rate, from - b.last, now - from);
  }

  /** Grants are paid out of the potential and the time that passes. */
  lemma {:induction false} SpendBound(b: Bucket, calls: seq<Call>, from: U64, until: U64)
    requires Ok(b) && b.last <= from && Timely(calls, from, until)
    ensures Granted(b, calls) as real <= Potential(b, from) + Worth(b.rate, until - from)
    decreases |calls|
  {
    TimePasses(b, from, until);
    if calls == [] {
      WorthAdds(b.rate, until - b.last, 0);
    } else {
      var c := calls[0];
      var b' := Acquired(b, c.now, c.need);
      AcquirePays(b, c.now, c.need);
      SpendBound(b', calls[1..], c.now, until);
      TimePasses(b, c.now, until);
    }
  }

  lemma WorthIs(rate: real, ns: int)
    ensures Worth(rate, ns) == rate * ns as real / 1000000000.0
  {
  }

  /** Tokens granted from one clock reading to another: at most capacity + rate * seconds ... */
  ghost predicate WithinRate(granted: nat, capacity: nat, rate: real, from: U64, until: U64) {
    from <= until && granted as real <= capacity as real + rate * (until - from) as real / 1000000000.0
  }

  /** ... or less than 0.001 above that. */
  ghost predicate WithinSlack(granted: nat, capacity: nat, rate: real, from: U64, until: U64) {
    from <= until && (granted as real) < capacity as real + rate * (until - from) as real / 1000000000.0 + 0.001
  }

  lemma Spelled(granted: nat, capacity: nat, rate: real, from: U64, until: U64)
    requires from <= until
    ensures WithinRate(granted, capacity, rate, from, until) <==> granted as real <= capacity as real + Worth(rate, until - from)
    ensures WithinSlack(granted, capacity, rate, from, until)
            <==> (granted as real) < capacity as real + Worth(rate, until - from) + MIN_REFILL
  {
    WorthIs(rate, until - from);
  }

  lemma SpendFrom(b: Bucket, calls: seq<Call>, until: U64)
    requires Ok(b) && Timely(calls, b.last, until)
    ensures Granted(b, calls) as real <= b.capacity as real + Worth(b.rate, until - b.last)
  {
    SpendBound(b, calls, b.last, until);
    assert Worth(b.rate, 0) == 0.0;
  }

  /** The rate and capacity a limiter works with when it was asked for these. */
  ghost predicate InForce(rate: real, capacity: nat, r: real, c: nat) {
    r == (if rate <= 0.0 then 1.0 else rate) && c == (if capacity == 0 then 1 else capacity)
  }

  /** From construction: at most capacity + rate * time is ever granted. */
  lemma BoundFromConstruction(rate: real, capacity: nat, r: real, c: nat, start: U64, calls: seq<Call>, until: U64)
    requires InForce(rate, capacity, r, c) && Timely(calls, start, until)
    ensures WithinRate(Granted(Created(rate, capacity, start), calls), c, r, start, until)
  {
    var b := Created(rate, capacity, start);
    SpendFrom(b, calls, until);
    Spelled(Granted(b, calls), c, r, start, until);
  }

  /** A second refill at the same time does nothing. */
  lemma RefillTwice(b: Bucket, now: U64)
    ensures Refilled(Refilled(b, now), now) == Refilled(b, now)
  {
    assert Worth(b.rate, 0) == 0.0;
  }

  /** The calls from one at `s` on are granted what they would be if the bucket were refilled before. */
  lemma RefilledBefore(b: Bucket, window: seq<Call>)
    requires window != []
    ensures Granted(Refilled(b, window[0].now), window) == Granted(b, window)
  {
    RefillTwice(b, window[0].now);
  }

  /** They are paid by what the bucket could pay at `s` after its refill. */
  lemma WindowSpends(b: Bucket, window: seq<Call>, until: U64)
    requires Ok(b) && window != [] && b.last <= window[0].now && Timely(window, window[0].now, until)
    ensures var s := window[0].now;
            Granted(b, window) as real <= Potential(Refilled(b, s), s) + Worth(b.rate, until - s)
  {
    var s := window[0].now;
    RefillPotential(b, s);
    SpendBound(Refilled(b, s), window, s, until);
    RefilledBefore(b, window);
  }

  /** A run of calls leaves rate and capacity alone, and what a window of calls after it is granted is
      less than capacity + rate * time + 0.001. */
  lemma WindowOf(b0: Bucket, before: seq<Call>, window: seq<Call>, until: U64)
    requires Ok(b0) && window != [] && Timely(before + window, b0.last, until)
    ensures var b := After(b0, before);
            && b.rate == b0.rate && b.capacity == b0.capacity && window[0].now <= until
            && Granted(b, window) as real < b.capacity as real + Worth(b.rate, until - window[0].now) + MIN_REFILL
  {
    var s := window[0].now;
    var all := before + window;
    assert all[|before|] == window[0];
    assert forall i :: 0 <= i < |before| ==> before[i] == all[i];
    assert forall i :: 0 <= i < |window| ==> window[i] == all[|before| + i];
    AfterOk(b0, before, b0.last, s);
    var b := After(b0, before);
    RefillPotential(b, s);
    WindowSpends(b, window, until);
  }

  /** For every window of every serial run: whatever happened before, the calls from the one at
      clock `s` on are granted less than capacity + rate * (until - s) + 0.001 tokens. */
  lemma WindowBound(rate: real, capacity: nat, r: real, c: nat, start: U64, before: seq<Call>, window: seq<Call>, until: U64)
    requires InForce(rate, capacity, r, c) && window != [] && Timely(before + window, start, until)
    ensures WithinSlack(Granted(After(Created(rate, capacity, start), before), window), c, r, window[0].now, until)
  {
    var b := Created(rate, capacity, start);
    WindowOf(b, before, window, until);
    Spelled(Granted(After(b, before), window), c, r, window[0].now, until);
  }

  // --------------------------------------------------------- when the slack is needed

  /** A window of calls that begins at clock `s`. */
  ghost predicate WindowAt(s: U64, window: seq<Call>, until: U64) {
    window != [] && window[0].now == s && Timely(window, s, until)
  }

  lemma WindowWithin(b: Bucket, s: U64, window: seq<Call>, until: U64)
    requires Ok(b) && b.last <= s && WindowAt(s, window, until) && Potential(Refilled(b, s), s) <= b.capacity as real
    ensures Granted(b, window) as real <= b.capacity as real + Worth(b.rate, until - s)
  {
    WindowSpends(b, window, until);
  }

  /** No slack is needed after `s` when the refill leaves no more than the capacity to pay. */
  lemma NoSlack(b: Bucket, r: Bucket, s: U64, window: seq<Call>, until: U64)
    requires Ok(b) && b.last <= s && WindowAt(s, window, until)
    requires r == Refilled(b, s) && r.tokens + b.rate * (s - r.last) as real / 1000000000.0 <= b.capacity as real
    ensures WithinRate(Granted(b, window), b.capacity, b.rate, s, until)
  {
    RefillPotential(b, s);
    PotentialIs(r, s);
    WindowWithin(b, s, window, until);
    Spelled(Granted(b, window), b.capacity, b.rate, s, until);
  }

  lemma PotentialIs(b: Bucket, now: U64)
    ensures Potential(b, now) == b.tokens + b.rate * (now - b.last) as real / 1000000000.0
  {
    WorthIs(b.rate, now - b.last);
  }

  /** The first whole number of nanoseconds worth a token. */
  lemma {:induction false} FirstToken(rate: real, n: nat) returns (k: nat)
    requires rate > 0.0 && Worth(rate, n) >= 1.0
    ensures 0 < k <= n && Worth(rate, k) >= 1.0 && Worth(rate, k - 1) < 1.0
  {
    if n == 0 || Worth(rate, n - 1) < 1.0 {
      k := n;
      assert Worth(rate, 0) == 0.0;
    } else {
      k := FirstToken(rate, n - 1);
    }
  }

  lemma WorthMono(rate: real, x: int, y: int)
    requires rate > 0.0 && x <= y
    ensures Worth(rate, x) <= Worth(rate, y)
  {
    WorthAdds(rate, y - x, x);
  }

  /** From a full bucket whose last refill is a little while ago, too little to refill now: take the
      capacity at `s`, and one token as soon as the time since the last refill is worth one. */
  lemma SlackIsNeeded(b: Bucket, s: U64) returns (window: seq<Call>, until: U64)
    requires Ok(b) && b.capacity >= 1 && b.tokens == b.capacity as real && b.last < s
    requires !EnoughToRefill(b, s) && CanEarnOne(b)
    ensures WindowAt(s, window, until) && !WithinRate(Granted(b, window), b.capacity, b.rate, s, until)
  {
    EnoughIs(b, s);
    EarnsOneIs(b);
    window, until := TwoCalls(b, s);
    Spelled(Granted(b, window), b.capacity, b.rate, s, until);
  }

  /** The time from the last refill to `s` is worth 0.001 or more. */
  ghost predicate EnoughToRefill(b: Bucket, s: U64) {
    b.rate * (s - b.last) as real / 1000000000.0 >= 0.001
  }

  /** The time left on the clock is worth a token. */
  ghost predicate CanEarnOne(b: Bucket) {
    b.rate * (0xFFFF_FFFF_FFFF_FFFF - b.last) as real / 1000000000.0 >= 1.0
  }

  lemma EnoughIs(b: Bucket, s: U64)
    ensures EnoughToRefill(b, s) <==> Worth(b.rate, s - b.last) >= MIN_REFILL
  {
    WorthIs(b.rate, s - b.last);
  }

  lemma EarnsOneIs(b: Bucket)
    ensures CanEarnOne(b) <==> Worth(b.rate, WORD - 1 - b.last) >= 1.0
  {
    WorthIs(b.rate, 0xFFFF_FFFF_FFFF_FFFF - b.last);
  }

  lemma TwoCalls(b: Bucket, s: U64) returns (window: seq<Call>, until: U64)
    requires Ok(b) && b.capacity >= 1 && b.tokens == b.capacity as real && b.last < s
    requires Worth(b.rate, s - b.last) < MIN_REFILL && Worth(b.rate, WORD - 1 - b.last) >= 1.0
    ensures WindowAt(s, window, until)
    ensures Granted(b, window) as real > b.capacity as real + Worth(b.rate, until - s)
  {
    var k := FirstToken(b.rate, WORD - 1 - b.last);
    if k <= s - b.last { WorthMono(b.rate, k, s - b.last); }
    until := b.last + k;
    var c := b.capacity;
    window := [Call(s, c), Call(until, 1)];
    var b1 := Acquired(b, s, c);
    assert b1 == b.(tokens := 0.0);
    TokenLater(b1, until);
    assert window[1..] == [Call(until, 1)];
    WorthAdds(b.rate, k - 1, 1);
    WorthAdds(b.rate, until - s, s - b.last);
    WorthMono(b.rate, 1, s - b.last);
  }

  lemma TokenLater(b: Bucket, now: U64)
    requires b.capacity >= 1 && b.tokens == 0.0 && b.last <= now && Worth(b.rate, now - b.last) >= 1.0
    ensures Granted(b, [Call(now, 1)]) == 1
  {
    var calls := [Call(now, 1)];
    assert Grants(b, now, 1);
    assert calls[1..] == [];
  }

  /** What the refill of a full bucket leaves: at most the capacity, unless some time has passed, but
      too little to refill. */
  lemma FullRefill(b: Bucket, s: U64)
    requires Ok(b) && b.tokens == b.capacity as real && b.last <= s && (s == b.last || Worth(b.rate, s - b.last) >= MIN_REFILL)
    ensures Potential(Refilled(b, s), s) <= b.capacity as real
  {
    assert Worth(b.rate, 0) == 0.0;
  }

  lemma FullNeedsNone(b: Bucket, s: U64, window: seq<Call>, until: U64)
    requires Ok(b) && b.tokens == b.capacity as real && b.last <= s && WindowAt(s, window, until)
    requires s == b.last || EnoughToRefill(b, s)
    ensures WithinRate(Granted(b, window), b.capacity, b.rate, s, until)
  {
    EnoughIs(b, s);
    FullRefill(b, s);
    WindowWithin(b, s, window, until);
    Spelled(Granted(b, window), b.capacity, b.rate, s, until);
  }

  /** Of a full bucket: every window from `s` on stays within capacity + rate * time if and only if no
      time has passed since its last refill, or enough to refill at `s`. */
  lemma SlackIff(b: Bucket, s: U64)
    requires Ok(b) && b.capacity >= 1 && b.tokens == b.capacity as real && b.last <= s
    requires CanEarnOne(b)
    ensures (forall window, until: U64 :: WindowAt(s, window, until) ==> WithinRate(Granted(b, window), b.capacity, b.rate, s, until))
            <==> s == b.last || EnoughToRefill(b, s)
  {
    if s == b.last || EnoughToRefill(b, s) {
      forall window, until: U64 | WindowAt(s, window, until) ensures WithinRate(Granted(b, window), b.capacity, b.rate, s, until) {
        FullNeedsNone(b, s, window, until);
      }
    } else {
      var window, until := SlackIsNeeded(b, s);
      assert !WithinRate(Granted(b, window), b.capacity, b.rate, s, until);
    }
  }

  // -------------------------------------------------------- every interleaving

  /** Program counter of a thread inside try_acquire, with its locals. */
  datatype Pc =
    | Idle
    | LoadLast(need: nat, now: U64)
    | CasLast(need: nat, now: U64, seen: U64, add: real)
    | LoadTokens(need: nat, add: real)
    | CasTokens(need: nat, add: real, current: real)
    | LoadForTake(need: nat)
    | CasTake(need: nat, current: real)

  /** `granted` is history: tokens handed out so far. */
  datatype System = System(rate: real, cap: real, tokens: real, last: U64, clock: U64, threads: seq<Pc>, granted: nat)

  datatype Event = Tick(ns: nat) | Begin(thread: nat, need: nat) | Go(thread: nat, spurious: bool)

  function Start(rate: real, capacity: nat, clock: U64, threads: nat): System {
    var b := Created(rate, capacity, clock);
    System(b.rate, b.capacity as real, b.tokens, clock, clock, seq(threads, _ => Idle), 0)
  }

  /** Where a thread goes with the tokens it has just read: another try, or on. */
  function RefillOrTake(s: System, need: nat, add: real): Pc {
    if s.tokens < s.cap then CasTokens(need, add, s.tokens) else LoadForTake(need)
  }

  function TakeOrFail(s: System, need: nat): Pc {
    if s.tokens >= need as real then CasTake(need, s.tokens) else Idle
  }

  function Goto(s: System, t: nat, pc: Pc): System
    requires t < |s.threads|
  {
    s.(threads := s.threads[t := pc])
  }

  function Advance(s: System, t: nat, spurious: bool): System
    requires t < |s.threads|
  {
    match s.threads[t]
    case Idle => s
    case LoadLast(need, now) =>
      var add := Worth(s.rate, Elapsed(s.last, now));
      Goto(s, t, if add < MIN_REFILL then LoadForTake(need) else CasLast(need, now, s.last, add))
    case CasLast(need, now, seen, add) =>
      if s.last == seen then Goto(s, t, LoadTokens(need, add)).(last := now) else Goto(s, t, LoadForTake(need))
    case LoadTokens(need, add) => Goto(s, t, RefillOrTake(s, need, add))
    case CasTokens(need, add, current) =>
      if s.tokens == current && !spurious
      then Goto(s, t, LoadForTake(need)).(tokens := RealMin(current + add, s.cap))
      else Goto(s, t, RefillOrTake(s, need, add))
    case LoadForTake(need) => Goto(s, t, TakeOrFail(s, need))
    case CasTake(need, current) =>
      if s.tokens == current && !spurious
      then Goto(s, t, Idle).(tokens := current - need as real, granted := s.granted + need)
      else Goto(s, t, TakeOrFail(s, need))
  }

  function Step(s: System, e: Event): System {
    match e
    case Tick(ns) => if s.clock + ns < WORD then s.(clock := s.clock + ns) else s
    case Begin(t, need) =>
      if t < |s.threads| && s.threads[t].Idle? then Goto(s, t, LoadLast(need, s.clock)) else s
    case Go(t, spurious) => if t < |s.threads| then Advance(s, t, spurious) else s
  }

  /** What a thread knows about its own locals. */
  ghost predicate PcOk(s: System, pc: Pc) {
    match pc
    case CasLast(need, now, seen, add) => add >= 0.0
    case LoadTokens(need, add) => add >= 0.0
    case CasTokens(need, add, current) => add >= 0.0 && 0.0 <= current < s.cap
    case CasTake(need, current) => current >= need as real
    case _ => true
  }

  /** The tokens stay within the capacity. */
  ghost predicate Bounded(s: System) {
    && s.rate > 0.0 && 0.0 <= s.tokens <= s.cap
    && forall t :: 0 <= t < |s.threads| ==> PcOk(s, s.threads[t])
  }

  lemma AdvanceBounded(s: System, t: nat, spurious: bool)
    requires Bounded(s) && t < |s.threads|
    ensures Bounded(Advance(s, t, spurious))
  {
    if s.threads[t].LoadLast? {
      WorthAdds(s.rate, Elapsed(s.last, s.threads[t].now), 0);
    }
    var s' := Advance(s, t, spurious);
    assert PcOk(s, s.threads[t]);
    forall u | 0 <= u < |s'.threads| ensures PcOk(s', s'.threads[u]) {
      assert u != t ==> PcOk(s, s.threads[u]);
    }
  }

  lemma StepBounded(s: System, e: Event)
    requires Bounded(s)
    ensures Bounded(Step(s, e))
  {
    var s' := Step(s, e);
    match e
    case Go(t, spurious) => if t < |s.threads| { AdvanceBounded(s, t, spurious); }
    case _ =>
      forall u | 0 <= u < |s'.threads| ensures PcOk(s', s'.threads[u]) {
        assert PcOk(s, s.threads[u]);
      }
  }

  ghost predicate IsRun(run: seq<System>, events: seq<Event>, rate: real, capacity: nat, clock: U64, threads: nat) {
    && |run| == |events| + 1 && run[0] == Start(rate, capacity, clock, threads)
    && forall i :: 0 <= i < |events| ==> run[i + 1] == Step(run[i], events[i])
  }

  /** In every interleaving the tokens stay in [0, capacity], even when the clock difference wraps. */
  lemma {:induction false} RunBounded(run: seq<System>, events: seq<Event>, rate: real, capacity: nat, clock: U64,
                                      threads: nat, k: nat)
    requires IsRun(run, events, rate, capacity, clock, threads) && k < |run|
    ensures Bounded(run[k])
  {
    if k > 0 {
      RunBounded(run, events, rate, capacity, clock, threads, k - 1);
      StepBounded(run[k - 1], events[k - 1]);
    }
  }

  // ------------------------------------------------------ what a call answers

  /** The call is granted what it needs, or refused because there are fewer tokens. */
  ghost predicate Answered(s: System, s': System, need: nat) {
    || (s.tokens >= need as real && s'.tokens == s.tokens - need as real && s'.granted == s.granted + need)
    || (s.tokens < need as real && s'.tokens == s.tokens && s'.granted == s.granted)
  }

  /** A step of a call: it answers, or goes on with the same need. */
  lemma AdvanceAnswers(s: System, t: nat, spurious: bool)
    requires Bounded(s) && t < |s.threads| && !s.threads[t].Idle?
    ensures var s' := Advance(s, t, spurious);
            && |s'.threads| == |s.threads| && (forall u :: 0 <= u < |s.threads| && u != t ==> s'.threads[u] == s.threads[u])
            && (if s'.threads[t].Idle? then Answered(s, s', s.threads[t].need)
                else s'.threads[t].need == s.threads[t].need && s'.granted == s.granted)
  {
    assert PcOk(s, s.threads[t]);
  }

  /** Thread `t` begins a call at step `c` and answers it at step `r`. */
  ghost predicate CallOf(run: seq<System>, events: seq<Event>, t: nat, need: nat, c: nat, r: nat) {
    && c < r < |events| && |run| == |events| + 1 && events[c] == Begin(t, need) && t < |run[c].threads| && run[c].threads[t].Idle?
    && (forall i :: c < i <= r ==> t < |run[i].threads| && !run[i].threads[t].Idle?)
    && t < |run[r + 1].threads| && run[r + 1].threads[t].Idle?
  }

  lemma StepKeepsNeed(s: System, e: Event, t: nat)
    requires Bounded(s) && t < |s.threads| && !s.threads[t].Idle?
    ensures var s' := Step(s, e);
            && |s'.threads| == |s.threads|
            && (if s'.threads[t].Idle? then Answered(s, s', s.threads[t].need) else s'.threads[t].need == s.threads[t].need)
  {
    if e.Go? && e.thread < |s.threads| && !s.threads[e.thread].Idle? { AdvanceAnswers(s, e.thread, e.spurious); }
  }

  lemma {:induction false} NeedStays(run: seq<System>, events: seq<Event>, rate: real, capacity: nat, clock: U64, threads: nat,
                                     t: nat, need: nat, c: nat, r: nat, k: nat)
    requires IsRun(run, events, rate, capacity, clock, threads) && CallOf(run, events, t, need, c, r) && c < k <= r
    ensures run[k].threads[t].need == need
  {
    assert run[k] == Step(run[k - 1], events[k - 1]);
    if k > c + 1 {
      NeedStays(run, events, rate, capacity, clock, threads, t, need, c, r, k - 1);
      RunBounded(run, events, rate, capacity, clock, threads, k - 1);
      StepKeepsNeed(run[k - 1], events[k - 1], t);
    }
  }

  /** In every interleaving each call is granted exactly what it asked for, out of the tokens there are,
      or refused at a step at which there are fewer tokens than it asked for. */
  lemma EveryCallAnswered(run: seq<System>, events: seq<Event>, rate: real, capacity: nat, clock: U64, threads: nat,
                          t: nat, need: nat, c: nat, r: nat)
    requires IsRun(run, events, rate, capacity, clock, threads) && CallOf(run, events, t, need, c, r)
    ensures || (run[r].tokens >= need as real && run[r + 1].tokens == run[r].tokens - need as real && run[r + 1].granted == run[r].granted + need)
            || (run[r].tokens < need as real && run[r + 1].tokens == run[r].tokens && run[r + 1].granted == run[r].granted)
  {
    NeedStays(run, events, rate, capacity, clock, threads, t, need, c, r, r);
    RunBounded(run, events, rate, capacity, clock, threads, r);
    StepKeepsNeed(run[r], events[r], t);
  }

  /** Steps a call has left when it runs alone, at most. */
  function Left(s: System, pc: Pc): (n: nat)
    ensures n <= 6 && (n == 0 <==> pc.Idle?)
  {
    match pc
    case Idle => 0
    case LoadLast(_, _) => 6
    case CasLast(_, _, _, _) => 5
    case LoadTokens(_, _) => 4
    case CasTokens(_, _, current) => if current == s.tokens then 3 else 4
    case LoadForTake(_) => 2
    case CasTake(_, current) => if current == s.tokens then 1 else 2
  }

  lemma AloneCloser(s: System, t: nat)
    requires t < |s.threads| && !s.threads[t].Idle?
    ensures var s' := Advance(s, t, false); |s'.threads| == |s.threads| && Left(s', s'.threads[t]) < Left(s, s.threads[t])
  {
  }

  /** The state after `k` steps of thread `t` alone, none of which fails spuriously. */
  function Alone(s: System, t: nat, k: nat): System
    decreases k
  {
    if k == 0 then s else Alone(Step(s, Go(t, false)), t, k - 1)
  }

  /** From every state a call that runs alone has answered after six steps. */
  lemma {:induction false} AloneAnswers(s: System, t: nat, k: nat)
    requires t < |s.threads| && Left(s, s.threads[t]) <= k
    ensures t < |Alone(s, t, k).threads| && Alone(s, t, k).threads[t].Idle?
    decreases k
  {
    if k > 0 {
      if !s.threads[t].Idle? { AloneCloser(s, t); }
      AloneAnswers(Step(s, Go(t, false)), t, k - 1);
    }
  }

  lemma AloneStep(s: System, t: nat, k: nat)
    requires k > 0
    ensures Alone(s, t, k) == Alone(Step(s, Go(t, false)), t, k - 1)
  {
  }

  lemma {:induction false} AloneIdle(s: System, t: nat, k: nat)
    requires t < |s.threads| && s.threads[t].Idle?
    ensures Alone(s, t, k) == s
    decreases k
  {
    if k > 0 { AloneIdle(s, t, k - 1); }
  }

  /** What the serial limiter sees of the shared state. */
  function BucketOf(s: System, capacity: nat): Bucket {
    Bucket(s.rate, capacity, s.tokens, s.last)
  }

  /** The taking part of a call, alone. */
  lemma SoloTake(s: System, t: nat, need: nat, k: nat)
    requires t < |s.threads| && s.threads[t] == LoadForTake(need) && k >= 2
    ensures var r := Alone(s, t, k);
            && t < |r.threads| && r.threads[t].Idle? && r.rate == s.rate && r.last == s.last
            && (if s.tokens >= need as real then r.tokens == s.tokens - need as real && r.granted == s.granted + need
                else r.tokens == s.tokens && r.granted == s.granted)
  {
    var s1 := Step(s, Go(t, false));
    AloneStep(s, t, k);
    AloneStep(s1, t, k - 1);
    if s.tokens >= need as real { AloneIdle(Step(s1, Go(t, false)), t, k - 2); } else { AloneIdle(s1, t, k - 1); }
  }

  /** The refilling part, alone: in at most four steps the tokens are those of a serial refill. */
  lemma SoloRefill(s: System, t: nat, need: nat, capacity: nat) returns (r: System, k: nat)
    requires t < |s.threads| && s.threads[t] == LoadLast(need, s.clock) && s.cap == capacity as real
    ensures k <= 4 && Alone(s, t, 6) == Alone(r, t, 6 - k) && t < |r.threads| && r.threads[t] == LoadForTake(need)
    ensures BucketOf(r, capacity) == Refilled(BucketOf(s, capacity), s.clock) && r.granted == s.granted
  {
    var s1 := Step(s, Go(t, false));
    AloneStep(s, t, 6);
    r, k := s1, 1;
    if s1.threads[t].CasLast? {
      var s2 := Step(s1, Go(t, false));
      var s3 := Step(s2, Go(t, false));
      AloneStep(s1, t, 5);
      AloneStep(s2, t, 4);
      r, k := s3, 3;
      if s3.threads[t].CasTokens? {
        AloneStep(s3, t, 3);
        r, k := Step(s3, Go(t, false)), 4;
      }
    }
  }

  /** A call that runs alone does what one serial call does. */
  lemma SoloAcquire(s: System, t: nat, need: nat, capacity: nat)
    requires t < |s.threads| && s.threads[t].Idle? && s.cap == capacity as real
    ensures var b, r := BucketOf(s, capacity), Alone(Step(s, Begin(t, need)), t, 6);
            && t < |r.threads| && r.threads[t].Idle? && BucketOf(r, capacity) == Acquired(b, s.clock, need)
            && r.granted == s.granted + if Grants(b, s.clock, need) then need else 0
  {
    var m, k := SoloRefill(Step(s, Begin(t, need)), t, need, capacity);
    SoloTake(m, t, need, 6 - k);
  }

  // --------------------------------------------- bound in every interleaving

  /** A refill that won the race on `last_refill_ns_` and has not paid out yet. */
  function Claim(pc: Pc): real {
    if pc.LoadTokens? || pc.CasTokens? then pc.add else 0.0
  }

  function Claims(threads: seq<Pc>): real {
    if threads == [] then 0.0 else Claims(threads[..|threads| - 1]) + Claim(threads[|threads| - 1])
  }

  lemma {:induction false} ClaimsUpdate(threads: seq<Pc>, t: nat, pc: Pc)
    requires t < |threads|
    ensures Claims(threads[t := pc]) == Claims(threads) - Claim(threads[t]) + Claim(pc)
  {
    var n := |threads| - 1;
    if t == n {
      assert threads[t := pc][..n] == threads[..n];
    } else {
      assert threads[t := pc][..n] == threads[..n][t := pc];
      ClaimsUpdate(threads[..n], t, pc);
    }
  }

  lemma {:induction false} ClaimsNonNegative(s: System, threads: seq<Pc>)
    requires forall t :: 0 <= t < |threads| ==> PcOk(s, threads[t])
    ensures Claims(threads) >= 0.0
  {
    if threads != [] {
      ClaimsNonNegative(s, threads[..|threads| - 1]);
    }
  }

  /** No thread read a time after now, and a pending compare-exchange on the refill time claims the
      worth of the difference it computed. */
  ghost predicate Timed(s: System, pc: Pc) {
    match pc
    case LoadLast(need, now) => now <= s.clock
    case CasLast(need, now, seen, add) => now <= s.clock && add == Worth(s.rate, Elapsed(seen, now))
    case _ => true
  }

  ghost predicate AllTimed(s: System, start: U64) {
    start <= s.last <= s.clock && forall t :: 0 <= t < |s.threads| ==> Timed(s, s.threads[t])
  }

  /** Everything granted, held, claimed or still to be refilled. */
  function Account(s: System): real {
    s.granted as real + s.tokens + Claims(s.threads) + Worth(s.rate, s.clock - s.last)
  }

  /** It was all paid for by the initial capacity and the time since `start`. */
  ghost predicate Paid(s: System, start: U64) {
    AllTimed(s, start) && Account(s) <= s.cap + Worth(s.rate, s.clock - start)
  }

  /** No wrapped difference wins: if this step moves the refill time, it moves it forward. */
  ghost predicate NoWrap(s: System, e: Event) {
    e.Go? && e.thread < |s.threads| ==>
      match s.threads[e.thread]
      case CasLast(need, now, seen, add) => s.last == seen ==> seen <= now
      case _ => true
  }

  lemma AdvanceTimed(s: System, t: nat, spurious: bool, start: U64)
    requires AllTimed(s, start) && t < |s.threads| && NoWrap(s, Go(t, spurious))
    ensures AllTimed(Advance(s, t, spurious), start)
  {
    var s' := Advance(s, t, spurious);
    assert Timed(s, s.threads[t]);
    forall u | 0 <= u < |s'.threads| ensures Timed(s', s'.threads[u]) {
      assert u != t ==> Timed(s, s.threads[u]);
    }
  }

  /** Winning the race on the refill time turns pending time into a claim of the same worth. */
  lemma CasLastAccount(s: System, t: nat)
    requires t < |s.threads| && s.threads[t].CasLast? && Timed(s, s.threads[t]) && NoWrap(s, Go(t, false))
    ensures Account(Advance(s, t, false)) <= Account(s)
  {
    var pc := s.threads[t];
    ClaimsUpdate(s.threads, t, Advance(s, t, false).threads[t]);
    if s.last == pc.seen { WorthAdds(s.rate, s.clock - pc.now, pc.now - pc.seen); }
  }

  lemma AdvanceAccount(s: System, t: nat, spurious: bool)
    requires t < |s.threads| && Timed(s, s.threads[t]) && PcOk(s, s.threads[t]) && NoWrap(s, Go(t, spurious))
    ensures Account(Advance(s, t, spurious)) <= Account(s)
  {
    if s.threads[t].CasLast? {
      CasLastAccount(s, t);
    } else {
      ClaimsUpdate(s.threads, t, Advance(s, t, spurious).threads[t]);
    }
  }

  /** The other half: nothing of the account is lost, except to a full bucket. */
  lemma NothingLost(s: System, t: nat, spurious: bool)
    requires Bounded(s) && t < |s.threads| && Timed(s, s.threads[t]) && NoWrap(s, Go(t, spurious))
    ensures Account(Advance(s, t, spurious)) == Account(s) || Advance(s, t, spurious).tokens == s.cap
  {
    var pc := s.threads[t];
    assert PcOk(s, pc);
    ClaimsUpdate(s.threads, t, Advance(s, t, spurious).threads[t]);
    if pc.CasLast? && s.last == pc.seen { WorthAdds(s.rate, s.clock - pc.now, pc.now - pc.seen); }
  }

  lemma AdvancePaid(s: System, t: nat, spurious: bool, start: U64)
    requires Bounded(s) && Paid(s, start) && t < |s.threads| && NoWrap(s, Go(t, spurious))
    ensures Paid(Advance(s, t, spurious), start)
  {
    assert PcOk(s, s.threads[t]) && Timed(s, s.threads[t]);
    AdvanceTimed(s, t, spurious, start);
    AdvanceAccount(s, t, spurious);
  }

  lemma StepPaid(s: System, e: Event, start: U64)
    requires Bounded(s) && Paid(s, start) && NoWrap(s, e)
    ensures Paid(Step(s, e), start)
  {
    match e
    case Go(t, spurious) => if t < |s.threads| { AdvancePaid(s, t, spurious, start); }
    case Begin(t, need) =>
      if t < |s.threads| { ClaimsUpdate(s.threads, t, LoadLast(need, s.clock)); }
    case Tick(ns) =>
      WorthAdds(s.rate, s.clock - s.last, ns);
      WorthAdds(s.rate, s.clock - start, ns);
      forall u | 0 <= u < |s.threads| ensures Timed(Step(s, e), s.threads[u]) {
        assert Timed(s, s.threads[u]);
      }
  }

  lemma {:induction false} ClaimsIdle(n: nat)
    ensures Claims(seq(n, _ => Idle)) == 0.0
  {
    if n > 0 {
      assert seq(n, _ => Idle)[..n - 1] == seq(n - 1, _ => Idle);
      ClaimsIdle(n - 1);
    }
  }

  lemma {:induction false} RunPaid(run: seq<System>, events: seq<Event>, rate: real, capacity: nat, clock: U64,
                                   threads: nat, k: nat)
    requires IsRun(run, events, rate, capacity, clock, threads) && k < |run|
    requires forall i :: 0 <= i < |events| ==> NoWrap(run[i], events[i])
    ensures Paid(run[k], clock) && run[k].rate == run[0].rate && run[k].cap == run[0].cap
  {
    if k == 0 {
      ClaimsIdle(threads);
    } else {
      RunPaid(run, events, rate, capacity, clock, threads, k - 1);
      RunBounded(run, events, rate, capacity, clock, threads, k - 1);
      StepPaid(run[k - 1], events[k - 1], clock);
    }
  }

  /** In every interleaving in which no wrapped difference wins the race on the refill time, the tokens
      granted since construction are at most capacity + rate * time. */
  lemma ConcurrentBound(run: seq<System>, events: seq<Event>, rate: real, capacity: nat, r: real, c: nat, clock: U64, threads: nat, k: nat)
    requires InForce(rate, capacity, r, c) && IsRun(run, events, rate, capacity, clock, threads) && k < |run|
    requires forall i :: 0 <= i < |events| ==> NoWrap(run[i], events[i])
    ensures WithinRate(run[k].granted, c, r, clock, run[k].clock)
  {
    RunGranted(run, events, rate, capacity, clock, threads, k);
    Spelled(run[k].granted, c, r, clock, run[k].clock);
  }

  lemma RunGranted(run: seq<System>, events: seq<Event>, rate: real, capacity: nat, clock: U64, threads: nat, k: nat)
    requires IsRun(run, events, rate, capacity, clock, threads) && k < |run|
    requires forall i :: 0 <= i < |events| ==> NoWrap(run[i], events[i])
    ensures clock <= run[k].clock && run[k].granted as real <= run[0].cap + Worth(run[0].rate, run[k].clock - clock)
  {
    RunPaid(run, events, rate, capacity, clock, threads, k);
    RunBounded(run, events, rate, capacity, clock, threads, k);
    ClaimsNonNegative(run[k], run[k].threads);
    WorthAdds(run[k].rate, run[k].clock - run[k].last, 0);
  }

  // ------------------------------------------------------------ one thread and more

  /** With one thread nobody moves the refill time between its clock reading and its exchange. */
  ghost predicate InOrder(s: System) {
    && s.last <= s.clock && |s.threads| <= 1
    && (s.threads != [] ==>
          match s.threads[0]
          case LoadLast(need, now) => s.last <= now <= s.clock
          case CasLast(need, now, seen, add) => seen <= now <= s.clock
          case _ => true)
  }

  lemma InOrderStep(s: System, e: Event)
    requires InOrder(s)
    ensures NoWrap(s, e) && InOrder(Step(s, e))
  {
  }

  lemma {:induction false} InOrderRun(run: seq<System>, events: seq<Event>, rate: real, capacity: nat, clock: U64, threads: nat, k: nat)
    requires IsRun(run, events, rate, capacity, clock, threads) && k < |run| && threads <= 1
    ensures InOrder(run[k])
  {
    if k > 0 {
      InOrderRun(run, events, rate, capacity, clock, threads, k - 1);
      InOrderStep(run[k - 1], events[k - 1]);
    }
  }

  /** One thread is always within the bound. */
  lemma OneThreadBound(run: seq<System>, events: seq<Event>, rate: real, capacity: nat, r: real, c: nat, clock: U64, threads: nat, k: nat)
    requires InForce(rate, capacity, r, c) && IsRun(run, events, rate, capacity, clock, threads) && k < |run| && threads <= 1
    ensures WithinRate(run[k].granted, c, r, clock, run[k].clock)
  {
    forall i | 0 <= i < |events| ensures NoWrap(run[i], events[i]) {
      InOrderRun(run, events, rate, capacity, clock, threads, i);
      InOrderStep(run[i], events[i]);
    }
    ConcurrentBound(run, events, rate, capacity, r, c, clock, threads, k);
  }

  lemma Extend(run: seq<System>, events: seq<Event>, rate: real, capacity: nat, clock: U64, threads: nat, e: Event, s: System)
    returns (run': seq<System>, events': seq<Event>)
    requires IsRun(run, events, rate, capacity, clock, threads) && s == Step(run[|run| - 1], e)
    ensures IsRun(run', events', rate, capacity, clock, threads) && run'[|run'| - 1] == s
  {
    run', events' := run + [s], events + [e];
  }

  /** Thread 1 refills and takes everything, `x` nanoseconds after thread 0 read the clock. */
  lemma LateThread(rate: real, capacity: nat, clock: U64, threads: nat, x: nat) returns (run: seq<System>, events: seq<Event>)
    requires rate > 0.0 && capacity >= 1 && threads >= 2 && clock + x < WORD && Worth(rate, x) >= MIN_REFILL
    ensures IsRun(run, events, rate, capacity, clock, threads)
    ensures var s := run[|run| - 1];
            && |s.threads| == threads && s.threads[0] == LoadLast(capacity, clock)
            && s == System(rate, capacity as real, 0.0, clock + x, clock + x, s.threads, capacity)
  {
    var c, now := capacity as real, clock + x;
    var s := Start(rate, capacity, clock, threads);
    run, events := [s], [];
    s := Goto(s, 0, LoadLast(capacity, clock));
    run, events := Extend(run, events, rate, capacity, clock, threads, Begin(0, capacity), s);
    s := s.(clock := now);
    run, events := Extend(run, events, rate, capacity, clock, threads, Tick(x), s);
    s := Goto(s, 1, LoadLast(capacity, now));
    run, events := Extend(run, events, rate, capacity, clock, threads, Begin(1, capacity), s);
    s := Goto(s, 1, CasLast(capacity, now, clock, Worth(rate, x)));
    run, events := Extend(run, events, rate, capacity, clock, threads, Go(1, false), s);
    s := Goto(s, 1, LoadTokens(capacity, Worth(rate, x))).(last := now);
    run, events := Extend(run, events, rate, capacity, clock, threads, Go(1, false), s);
    s := Goto(s, 1, LoadForTake(capacity));
    run, events := Extend(run, events, rate, capacity, clock, threads, Go(1, false), s);
    s := Goto(s, 1, CasTake(capacity, c));
    run, events := Extend(run, events, rate, capacity, clock, threads, Go(1, false), s);
    s := Goto(s, 1, Idle).(tokens := 0.0, granted := capacity);
    run, events := Extend(run, events, rate, capacity, clock, threads, Go(1, false), s);
  }

  /** What a reading `x` nanoseconds old does to a bucket of this rate and capacity: the `x` refill it
      by 0.001 or more but not in full, and the wrapped difference refills it in full. */
  ghost predicate WrapFills(rate: real, capacity: nat, clock: U64, x: nat) {
    && rate > 0.0 && capacity >= 1 && 0 < x && clock + x < WORD
    && 0.001 <= rate * x as real / 1000000000.0 < capacity as real
    && capacity as real <= rate * (0x1_0000_0000_0000_0000 - x) as real / 1000000000.0
  }

  lemma WrapWorth(rate: real, capacity: nat, clock: U64, x: nat)
    requires WrapFills(rate, capacity, clock, x)
    ensures MIN_REFILL <= Worth(rate, x) < capacity as real <= Worth(rate, WORD - x)
  {
    WorthIs(rate, x);
    WorthIs(rate, 0x1_0000_0000_0000_0000 - x);
  }

  lemma LateReading(rate: real, capacity: nat, clock: U64, threads: nat, x: nat) returns (run: seq<System>, events: seq<Event>)
    requires rate > 0.0 && capacity >= 1 && threads >= 2 && 0 < x && clock + x < WORD
    requires MIN_REFILL <= Worth(rate, x) < capacity as real <= Worth(rate, WORD - x)
    ensures IsRun(run, events, rate, capacity, clock, threads)
    ensures run[|run| - 1].granted == 2 * capacity && run[|run| - 1].clock == clock + x
  {
    var c, add := capacity as real, Worth(rate, WORD - x);
    run, events := LateThread(rate, capacity, clock, threads, x);
    var s := run[|run| - 1];
    s := Goto(s, 0, CasLast(capacity, clock, clock + x, add));
    run, events := Extend(run, events, rate, capacity, clock, threads, Go(0, false), s);
    s := Goto(s, 0, LoadTokens(capacity, add)).(last := clock);
    run, events := Extend(run, events, rate, capacity, clock, threads, Go(0, false), s);
    s := Goto(s, 0, CasTokens(capacity, add, 0.0));
    run, events := Extend(run, events, rate, capacity, clock, threads, Go(0, false), s);
    s := Goto(s, 0, LoadForTake(capacity)).(tokens := c);
    run, events := Extend(run, events, rate, capacity, clock, threads, Go(0, false), s);
    s := Goto(s, 0, CasTake(capacity, c));
    run, events := Extend(run, events, rate, capacity, clock, threads, Go(0, false), s);
    s := Goto(s, 0, Idle).(tokens := 0.0, granted := 2 * capacity);
    run, events := Extend(run, events, rate, capacity, clock, threads, Go(0, false), s);
  }

  /** Why the bound needs clock readings in order: thread 0 read the clock before thread 1 refilled,
      subtracts the later refill time from it, takes the wrapped difference for 584 years, refills
      the whole bucket and takes it again.  Twice the capacity is granted within `x` nanoseconds. */
  lemma LateReadingBreaksBound(rate: real, capacity: nat, clock: U64, threads: nat, x: nat) returns (run: seq<System>, events: seq<Event>)
    requires threads >= 2 && WrapFills(rate, capacity, clock, x)
    ensures IsRun(run, events, rate, capacity, clock, threads)
    ensures var s := run[|run| - 1]; s.granted == 2 * capacity && !WithinRate(s.granted, capacity, rate, clock, s.clock)
  {
    WrapWorth(rate, capacity, clock, x);
    run, events := LateReading(rate, capacity, clock, threads, x);
    Spelled(2 * capacity, capacity, rate, clock, clock + x);
  }

  /** Every state of every interleaving of these threads is within the bound. */
  ghost predicate AlwaysWithin(rate: real, capacity: nat, clock: U64, threads: nat) {
    forall run: seq<System>, events, k :: IsRun(run, events, rate, capacity, clock, threads) && 0 <= k < |run| ==>
      WithinRate(run[k].granted, capacity, rate, clock, run[k].clock)
  }

  /** The bound holds in every interleaving if and only if there is no second thread, for every bucket
      that some `x` nanoseconds refill by a thousandth or more but not in full, and their wrapped
      negative in full. */
  lemma BoundIffOneThread(rate: real, capacity: nat, clock: U64, threads: nat, x: nat)
    requires WrapFills(rate, capacity, clock, x)
    ensures AlwaysWithin(rate, capacity, clock, threads) <==> threads <= 1
  {
    if threads <= 1 {
      forall run: seq<System>, events, k | IsRun(run, events, rate, capacity, clock, threads) && 0 <= k < |run|
        ensures WithinRate(run[k].granted, capacity, rate, clock, run[k].clock)
      {
        OneThreadBound(run, events, rate, capacity, rate, capacity, clock, threads, k);
      }
    } else {
      var run, events := LateReadingBreaksBound(rate, capacity, clock, threads, x);
      assert !WithinRate(run[|run| - 1].granted, capacity, rate, clock, run[|run| - 1].clock);
    }
  }
}
