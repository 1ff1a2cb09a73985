/**
 * Progress of the lock-free queue.  Obstruction freedom: from any reachable state, whatever the other
 * threads were doing when they were stopped, an operation that runs alone finishes.  Lock freedom: in
 * every interleaving, some operation finishes within a bounded number of steps, whoever takes them.
 * Both are about compare-exchanges that do not fail spuriously.
 */
module QueueProgress {
  import opened Common
  import opened LockFreeQueue

  /** How far tail is behind the last node: 0 or 1. */
  function Lag<T>(m: Mem<T>): nat {
    if m.tail in m.log.rank && m.log.rank[m.tail] < |m.log.chain| then |m.log.chain| - 1 - m.log.rank[m.tail] else 0
  }

  /** What a pop holds of head or tail is out of date. */
  predicate PopStale<T>(m: Mem<T>, pc: Pc<T>) {
    || ((pc.PopLoadTail? || pc.PopLoadNext? || pc.PopCheck? || pc.PopRead? || pc.PopSwing?) && pc.head != m.head)
    || ((pc.PopLoadNext? || pc.PopCheck? || pc.PopHelp?) && pc.tail != m.tail)
  }

  function PopStage<T>(pc: Pc<T>): (n: nat)
    ensures n <= 7
  {
    match pc
    case PopLoadHead => 5
    case PopLoadTail(_) => 4
    case PopLoadNext(_, _) => 3
    case PopCheck(_, _, _) => 2
    case PopHelp(_, _) => 1
    case PopRead(_, _) => 1
    case PopCount(_, _) => 7
    case PopRetire(_, _) => 6
    case PopTally(_, _) => 5
    case PopReclaim(_, _) => 4
    case PopTake(_, _) => 3
    case PopReset(_, _) => 2
    case PopReturn(_, _) => 1
    case _ => 0
  }

  /** Steps a pop running alone has left, at most. */
  function PopMeasure<T>(m: Mem<T>, pc: Pc<T>): nat {
    if Took(pc) then PopStage(pc)
    else 10 + 6 * (2 * Lag(m) + if PopStale(m, pc) then 1 else 0) + PopStage(pc)
  }

  /** What a push holds of tail, or of its null successor, is out of date. */
  predicate PushStale<T>(m: Mem<T>, pc: Pc<T>) {
    || ((pc.PushLoadNext? || pc.PushCheck? || pc.PushLink? || pc.PushHelp?) && pc.tail != m.tail)
    || ((pc.PushLink? || (pc.PushCheck? && pc.next.None?)) && NextOf(m, pc.tail).Some?)
  }

  function PushStage<T>(pc: Pc<T>): (n: nat)
    ensures n <= 4
  {
    match pc
    case PushLoadTail(_) => 4
    case PushLoadNext(_, _) => 3
    case PushCheck(_, _, _) => 2
    case PushLink(_, _) => 1
    case PushHelp(_, _, _) => 1
    case PushSwing(_, _) => 2
    case PushCount(_) => 1
    case _ => 0
  }

  function PushMeasure<T>(m: Mem<T>, pc: Pc<T>): nat {
    if pc.PushSwing? || pc.PushCount? then PushStage(pc)
    else 10 + 6 * (2 * Lag(m) + if PushStale(m, pc) then 1 else 0) + PushStage(pc)
  }

  predicate Pops<T>(pc: Pc<T>) {
    !pc.Idle? && !Pushing(pc)
  }

  /** Moving tail from its place to the successor takes one off its lag. */
  lemma LagShrinks<T>(m: Mem<T>, x: Id)
    requires Shape(m) && Follows(m, m.tail, x)
    ensures Lag(SwingTail(m, m.tail, x, false)) + 1 == Lag(m)
  {
  }

  /** The thread has finished, or is still in its pop (push) with a smaller measure. */
  ghost predicate PopCloser<T>(m: Mem<T>, pc: Pc<T>, m': Mem<T>, pc': Pc<T>) {
    pc'.Idle? || (Pops(pc') && PopMeasure(m', pc') < PopMeasure(m, pc))
  }

  ghost predicate PushCloser<T>(m: Mem<T>, pc: Pc<T>, m': Mem<T>, pc': Pc<T>) {
    pc'.Idle? || (Pushing(pc') && PushMeasure(m', pc') < PushMeasure(m, pc))
  }

  lemma SoloPopLoad<T>(s: State<T>, t: nat)
    requires t < |s.threads| && (s.threads[t].PopLoadHead? || s.threads[t].PopLoadTail? || s.threads[t].PopLoadNext?)
    ensures var s' := PopStep(s, t, false);
            |s'.threads| == |s.threads| && PopCloser(s.mem, s.threads[t], s'.mem, s'.threads[t])
  {
  }

  lemma SoloPopCheck<T>(s: State<T>, t: nat)
    requires t < |s.threads| && s.threads[t].PopCheck? && ThreadOk(s.mem, t, s.threads[t])
    ensures var s' := PopStep(s, t, false);
            |s'.threads| == |s.threads| && PopCloser(s.mem, s.threads[t], s'.mem, s'.threads[t])
  {
  }

  lemma SoloPopHelp<T>(s: State<T>, t: nat)
    requires t < |s.threads| && s.threads[t].PopHelp? && Shape(s.mem) && ThreadOk(s.mem, t, s.threads[t])
    ensures var s' := PopStep(s, t, false);
            |s'.threads| == |s.threads| && PopCloser(s.mem, s.threads[t], s'.mem, s'.threads[t])
  {
    if s.threads[t].tail == s.mem.tail { LagShrinks(s.mem, s.threads[t].succ); }
  }

  lemma SoloPopSwing<T>(s: State<T>, t: nat)
    requires t < |s.threads| && (s.threads[t].PopRead? || s.threads[t].PopSwing?)
    ensures var s' := PopStep(s, t, false);
            |s'.threads| == |s.threads| && PopCloser(s.mem, s.threads[t], s'.mem, s'.threads[t])
  {
  }

  lemma SoloPopDispose<T>(s: State<T>, t: nat)
    requires t < |s.threads| && Took(s.threads[t]) && !s.threads[t].PopReturn?
    ensures var s' := PopStep(s, t, false);
            |s'.threads| == |s.threads| && PopCloser(s.mem, s.threads[t], s'.mem, s'.threads[t])
  {
  }

  lemma SoloPopReturn<T>(s: State<T>, t: nat)
    requires t < |s.threads| && s.threads[t].PopReturn? && ThreadOk(s.mem, t, s.threads[t])
    ensures var s' := PopStep(s, t, false);
            |s'.threads| == |s.threads| && PopCloser(s.mem, s.threads[t], s'.mem, s'.threads[t])
  {
  }

  /** One step of a pop that runs alone brings it closer to its answer. */
  lemma SoloPopStep<T>(s: State<T>, t: nat)
    requires t < |s.threads| && Pops(s.threads[t]) && Shape(s.mem) && ThreadOk(s.mem, t, s.threads[t])
    ensures var s' := Step(s, t, Go(false));
            |s'.threads| == |s.threads| && PopCloser(s.mem, s.threads[t], s'.mem, s'.threads[t])
  {
    var pc := s.threads[t];
    if pc.PopHelp? {
      SoloPopHelp(s, t);
    } else if pc.PopRead? || pc.PopSwing? {
      SoloPopSwing(s, t);
    } else if pc.PopReturn? {
      SoloPopReturn(s, t);
    } else if Took(pc) {
      SoloPopDispose(s, t);
    } else if pc.PopCheck? {
      SoloPopCheck(s, t);
    } else {
      SoloPopLoad(s, t);
    }
  }

  lemma SoloPushLoad<T>(s: State<T>, t: nat)
    requires t < |s.threads| && (s.threads[t].PushLoadTail? || s.threads[t].PushLoadNext? || s.threads[t].PushCheck?)
    ensures var s' := PushStep(s, t, false);
            |s'.threads| == |s.threads| && PushCloser(s.mem, s.threads[t], s'.mem, s'.threads[t])
  {
  }

  lemma SoloPushLink<T>(s: State<T>, t: nat)
    requires t < |s.threads| && (s.threads[t].PushLink? || s.threads[t].PushSwing? || s.threads[t].PushCount?)
    requires Shape(s.mem) && ThreadOk(s.mem, t, s.threads[t])
    ensures var s' := PushStep(s, t, false);
            |s'.threads| == |s.threads| && PushCloser(s.mem, s.threads[t], s'.mem, s'.threads[t])
  {
  }

  lemma SoloPushHelp<T>(s: State<T>, t: nat)
    requires t < |s.threads| && s.threads[t].PushHelp? && Shape(s.mem) && ThreadOk(s.mem, t, s.threads[t])
    ensures var s' := PushStep(s, t, false);
            |s'.threads| == |s.threads| && PushCloser(s.mem, s.threads[t], s'.mem, s'.threads[t])
  {
    if s.threads[t].tail == s.mem.tail { LagShrinks(s.mem, s.threads[t].succ); }
  }

  /** One step of a push that runs alone brings it closer to its return. */
  lemma SoloPushStep<T>(s: State<T>, t: nat)
    requires t < |s.threads| && Pushing(s.threads[t]) && Shape(s.mem) && ThreadOk(s.mem, t, s.threads[t])
    ensures var s' := Step(s, t, Go(false));
            |s'.threads| == |s.threads| && PushCloser(s.mem, s.threads[t], s'.mem, s'.threads[t])
  {
    var pc := s.threads[t];
    if pc.PushHelp? {
      SoloPushHelp(s, t);
    } else if pc.PushLink? || pc.PushSwing? || pc.PushCount? {
      SoloPushLink(s, t);
    } else {
      SoloPushLoad(s, t);
    }
  }

  function Measure<T>(m: Mem<T>, pc: Pc<T>): nat {
    if Pushing(pc) then PushMeasure(m, pc) else PopMeasure(m, pc)
  }

  lemma SoloStep<T>(s: State<T>, t: nat)
    requires Inv(s) && t < |s.threads| && !s.threads[t].Idle?
    ensures var s' := Step(s, t, Go(false));
            && Inv(s') && |s'.threads| == |s.threads|
            && (s'.threads[t].Idle? || Measure(s'.mem, s'.threads[t]) < Measure(s.mem, s.threads[t]))
  {
    StepInv(s, t, Go(false));
    assert ThreadOk(s.mem, t, s.threads[t]);
    if Pushing(s.threads[t]) { SoloPushStep(s, t); } else { SoloPopStep(s, t); }
  }

  /** The states thread `t` goes through alone. */
  ghost predicate IsAlone<T>(run: seq<State<T>>, t: nat) {
    && run != [] && (forall i :: 0 <= i < |run| ==> t < |run[i].threads|)
    && (forall i :: 0 <= i < |run| - 1 ==> run[i + 1] == Step(run[i], t, Go(false)))
  }

  lemma AloneFrom<T>(s: State<T>, rest: seq<State<T>>, t: nat)
    requires t < |s.threads| && IsAlone(rest, t) && rest[0] == Step(s, t, Go(false))
    ensures IsAlone([s] + rest, t)
  {
    var run := [s] + rest;
    forall i | 0 <= i < |run| - 1 ensures run[i + 1] == Step(run[i], t, Go(false)) {
      if i > 0 { assert rest[i] == Step(rest[i - 1], t, Go(false)); }
    }
  }

  /** Obstruction freedom: from every reachable state, whatever the other threads have begun, an
      operation that runs alone finishes. */
  lemma {:induction false} AloneFinishes<T>(s: State<T>, t: nat) returns (run: seq<State<T>>)
    requires Inv(s) && t < |s.threads|
    ensures IsAlone(run, t) && run[0] == s && run[|run| - 1].threads[t].Idle?
    decreases if s.threads[t].Idle? then 0 else 1, Measure(s.mem, s.threads[t])
  {
    if s.threads[t].Idle? {
      run := [s];
    } else {
      SoloStep(s, t);
      var rest := AloneFinishes(Step(s, t, Go(false)), t);
      AloneFrom(s, rest, t);
      run := [s] + rest;
    }
  }

  // ------------------------------------------------------------------- lock freedom

  /** The operation has taken effect: its value is linked, or it took one. */
  predicate Committed<T>(pc: Pc<T>) {
    Took(pc) || pc.PushSwing? || pc.PushCount?
  }

  /** What one step can do to the memory that other threads measure: tail catches up, or an operation
      takes effect, or neither. */
  ghost predicate Steady<T>(m: Mem<T>, m': Mem<T>) {
    && m'.head == m.head && m'.tail == m.tail && m'.log.chain == m.log.chain && m'.log.rank == m.log.rank
    && (forall x: Id :: NextOf(m', x) == NextOf(m, x))
  }

  ghost predicate CaughtUp<T>(m: Mem<T>, m': Mem<T>) {
    Lag(m') + 1 == Lag(m) && m'.head == m.head && m'.nodes == m.nodes
  }

  ghost predicate TookEffect<T>(m: Mem<T>, m': Mem<T>) {
    Lag(m') <= Lag(m) + 1
  }

  ghost predicate MemMoves<T>(m: Mem<T>, m': Mem<T>, commits: bool) {
    if commits then TookEffect(m, m') else Steady(m, m') || CaughtUp(m, m')
  }

  /** A step raises the measure of another thread only if an operation takes effect in it. */
  lemma OtherMeasure<T>(m: Mem<T>, m': Mem<T>, pc: Pc<T>, commits: bool)
    requires MemMoves(m, m', commits)
    ensures Measure(m', pc) <= Measure(m, pc) + if commits then 18 else 0
  {
  }

  /** What a thread can still do, and make others do: taking effect is worth `w`. */
  function Weight<T>(m: Mem<T>, pc: Pc<T>, w: nat): nat {
    if pc.Idle? then w + 50 else if Committed(pc) then Measure(m, pc) else w + Measure(m, pc)
  }

  lemma OtherWeight<T>(m: Mem<T>, m': Mem<T>, pc: Pc<T>, w: nat, commits: bool)
    requires MemMoves(m, m', commits)
    ensures Weight(m', pc, w) <= Weight(m, pc, w) + if commits then 18 else 0
  {
    OtherMeasure(m, m', pc, commits);
  }

  /** Entries rise by at most `d`, except for `t`. */
  ghost predicate RiseExcept(xs: seq<nat>, ys: seq<nat>, t: int, d: nat) {
    |ys| == |xs| && forall u :: 0 <= u < |xs| && u != t ==> ys[u] <= xs[u] + d
  }

  lemma OneMore(k: nat, c: nat)
    ensures (k + 1) * c == k * c + c
  {
  }

  lemma {:induction false} TotalRises(xs: seq<nat>, ys: seq<nat>, d: nat)
    requires RiseExcept(xs, ys, -1, d)
    ensures Total(ys) <= Total(xs) + |xs| * d
  {
    if xs != [] {
      var n := |xs| - 1;
      TotalRises(xs[..n], ys[..n], d);
      OneMore(n, d);
    }
  }

  lemma {:induction false} TotalOfOthers(xs: seq<nat>, ys: seq<nat>, t: nat, d: nat)
    requires RiseExcept(xs, ys, t, d) && t < |xs|
    ensures Total(ys) - ys[t] <= Total(xs) - xs[t] + |xs| * d
  {
    var n := |xs| - 1;
    OneMore(n, d);
    if t == n { TotalRises(xs[..n], ys[..n], d); } else { TotalOfOthers(xs[..n], ys[..n], t, d); }
  }

  lemma {:induction false} TotalBound(xs: seq<nat>, c: nat)
    requires forall u :: 0 <= u < |xs| ==> xs[u] <= c
    ensures Total(xs) <= |xs| * c
  {
    if xs != [] {
      TotalBound(xs[..|xs| - 1], c);
      OneMore(|xs| - 1, c);
    }
  }

  function Weights<T>(m: Mem<T>, threads: seq<Pc<T>>, w: nat): (xs: seq<nat>)
    ensures |xs| == |threads|
  {
    seq(|threads|, i requires 0 <= i < |threads| => Weight(m, threads[i], w))
  }

  /** The event is one the thread can take, and no compare-exchange fails for no reason. */
  predicate Effective<T>(pc: Pc<T>, e: Event<T>) {
    if pc.Idle? then !e.Go? else e == Go(false)
  }

  /** An attempt to retire a node that failed, which another thread's success or nothing at all can
      cause: it changes nothing. */
  predicate RetireFails<T>(pc: Pc<T>, e: Event<T>) {
    pc.PopRetire? && e == Go(true)
  }

  /** An operation finishes with this step. */
  predicate Completes<T>(pc: Pc<T>, pc': Pc<T>) {
    !pc.Idle? && pc'.Idle?
  }

  ghost predicate StepMoves<T>(m: Mem<T>, pc: Pc<T>, m': Mem<T>, pc': Pc<T>, w: nat) {
    var commits := !Committed(pc) && Committed(pc');
    && MemMoves(m, m', commits)
    && (Completes(pc, pc') || Weight(m', pc', w) + 1 + (if commits then w else 0) <= Weight(m, pc, w))
  }

  lemma MeasureBound<T>(m: Mem<T>, pc: Pc<T>)
    requires Shape(m)
    ensures Measure(m, pc) < 50
  {
  }

  /** Every operation begins with less to do than an idle thread may still do. */
  lemma BeginWeight<T>(m: Mem<T>, pc: Pc<T>, w: nat)
    requires Lag(m) <= 1 && (pc.PushLoadTail? || pc.PopLoadHead?)
    ensures Weight(m, pc, w) < w + 50
  {
  }

  lemma BeginMem<T>(s: State<T>, t: nat, e: Event<T>)
    requires Shape(s.mem) && t < |s.threads| && s.threads[t].Idle? && !e.Go?
    ensures var s' := Step(s, t, e);
            && |s'.threads| == |s.threads| && (s'.threads[t].PushLoadTail? || s'.threads[t].PopLoadHead?)
            && Steady(s.mem, s'.mem) && Lag(s'.mem) <= 1
  {
  }

  lemma BeginMoves<T>(s: State<T>, t: nat, e: Event<T>, w: nat)
    requires Shape(s.mem) && t < |s.threads| && s.threads[t].Idle? && !e.Go?
    ensures var s' := Step(s, t, e);
            |s'.threads| == |s.threads| && StepMoves(s.mem, s.threads[t], s'.mem, s'.threads[t], w)
  {
    var s' := Step(s, t, e);
    BeginMem(s, t, e);
    BeginWeight(s'.mem, s'.threads[t], w);
  }

  lemma PushMem<T>(s: State<T>, t: nat)
    requires t < |s.threads| && Pushing(s.threads[t]) && Shape(s.mem) && ThreadOk(s.mem, t, s.threads[t])
    ensures var s' := PushStep(s, t, false);
            |s'.threads| == |s.threads| && MemMoves(s.mem, s'.mem, !Committed(s.threads[t]) && Committed(s'.threads[t]))
  {
    var pc := s.threads[t];
    if pc.PushHelp? && pc.tail == s.mem.tail { LagShrinks(s.mem, pc.succ); }
    if pc.PushSwing? && pc.tail == s.mem.tail { LagShrinks(s.mem, pc.node); }
  }

  lemma PopMem<T>(s: State<T>, t: nat)
    requires t < |s.threads| && Pops(s.threads[t]) && Shape(s.mem) && ThreadOk(s.mem, t, s.threads[t])
    ensures var s' := PopStep(s, t, false);
            |s'.threads| == |s.threads| && MemMoves(s.mem, s'.mem, !Committed(s.threads[t]) && Committed(s'.threads[t]))
  {
    var pc := s.threads[t];
    if pc.PopHelp? && pc.tail == s.mem.tail { LagShrinks(s.mem, pc.succ); }
  }

  lemma PushStaysCommitted<T>(s: State<T>, t: nat, spurious: bool)
    requires t < |s.threads| && Pushing(s.threads[t]) && Committed(s.threads[t])
    ensures var s' := PushStep(s, t, spurious); |s'.threads| == |s.threads| && (s'.threads[t].Idle? || Committed(s'.threads[t]))
  {
  }

  lemma PopStaysCommitted<T>(s: State<T>, t: nat)
    requires t < |s.threads| && Took(s.threads[t]) && ThreadOk(s.mem, t, s.threads[t])
    ensures var s' := PopStep(s, t, false); |s'.threads| == |s.threads| && (s'.threads[t].Idle? || Committed(s'.threads[t]))
  {
  }

  lemma WeightFalls<T>(m: Mem<T>, pc: Pc<T>, m': Mem<T>, pc': Pc<T>, w: nat)
    requires !pc.Idle? && (pc'.Idle? || Measure(m', pc') < Measure(m, pc))
    requires Committed(pc) ==> pc'.Idle? || Committed(pc')
    ensures Completes(pc, pc') || Weight(m', pc', w) + 1 + (if !Committed(pc) && Committed(pc') then w else 0) <= Weight(m, pc, w)
  {
  }

  lemma GoPushMoves<T>(s: State<T>, t: nat, w: nat)
    requires Shape(s.mem) && t < |s.threads| && Pushing(s.threads[t]) && ThreadOk(s.mem, t, s.threads[t])
    ensures var s' := PushStep(s, t, false);
            |s'.threads| == |s.threads| && StepMoves(s.mem, s.threads[t], s'.mem, s'.threads[t], w)
  {
    var s' := PushStep(s, t, false);
    PushMem(s, t);
    SoloPushStep(s, t);
    if Committed(s.threads[t]) { PushStaysCommitted(s, t, false); }
    WeightFalls(s.mem, s.threads[t], s'.mem, s'.threads[t], w);
  }

  lemma GoPopMoves<T>(s: State<T>, t: nat, w: nat)
    requires Shape(s.mem) && t < |s.threads| && Pops(s.threads[t]) && ThreadOk(s.mem, t, s.threads[t])
    ensures var s' := PopStep(s, t, false);
            |s'.threads| == |s.threads| && StepMoves(s.mem, s.threads[t], s'.mem, s'.threads[t], w)
  {
    var s' := PopStep(s, t, false);
    PopMem(s, t);
    SoloPopStep(s, t);
    if Committed(s.threads[t]) { PopStaysCommitted(s, t); }
    WeightFalls(s.mem, s.threads[t], s'.mem, s'.threads[t], w);
  }

  lemma EffectiveMoves<T>(s: State<T>, t: nat, e: Event<T>, w: nat)
    requires Inv(s) && t < |s.threads| && Effective(s.threads[t], e)
    ensures var s' := Step(s, t, e);
            |s'.threads| == |s.threads| && StepMoves(s.mem, s.threads[t], s'.mem, s'.threads[t], w)
  {
    assert ThreadOk(s.mem, t, s.threads[t]);
    if s.threads[t].Idle? {
      BeginMoves(s, t, e, w);
    } else if Pushing(s.threads[t]) {
      GoPushMoves(s, t, w);
    } else {
      GoPopMoves(s, t, w);
    }
  }

  /** All that is left to do before some operation finishes. */
  function Potential<T>(s: State<T>): nat {
    Total(Weights(s.mem, s.threads, 18 * |s.threads|))
  }

  lemma PotentialFalls<T>(s: State<T>, s': State<T>, t: nat)
    requires Moves(s, s', t) && StepMoves(s.mem, s.threads[t], s'.mem, s'.threads[t], 18 * |s.threads|)
    requires !Completes(s.threads[t], s'.threads[t])
    ensures Potential(s') < Potential(s)
  {
    var w, d := 18 * |s.threads|, if !Committed(s.threads[t]) && Committed(s'.threads[t]) then 18 else 0;
    var xs, ys := Weights(s.mem, s.threads, w), Weights(s'.mem, s'.threads, w);
    forall u | 0 <= u < |xs| && u != t ensures ys[u] <= xs[u] + d {
      OtherWeight(s.mem, s'.mem, s.threads[u], w, d == 18);
    }
    TotalOfOthers(xs, ys, t, d);
  }

  lemma WeightBound<T>(m: Mem<T>, pc: Pc<T>, w: nat)
    requires Shape(m)
    ensures Weight(m, pc, w) <= w + 50
  {
    MeasureBound(m, pc);
  }

  lemma PotentialBound<T>(s: State<T>)
    requires Shape(s.mem)
    ensures Potential(s) <= |s.threads| * (18 * |s.threads| + 50)
  {
    var w := 18 * |s.threads|;
    forall u | 0 <= u < |s.threads| ensures Weight(s.mem, s.threads[u], w) <= w + 50 {
      WeightBound(s.mem, s.threads[u], w);
    }
    TotalBound(Weights(s.mem, s.threads, w), w + 50);
  }

  /** Some operation finishes between steps `i` and `j`. */
  ghost predicate SomeFinish<T>(run: seq<State<T>>, acts: seq<Act<T>>, n: nat, i: nat, j: nat)
    requires IsRun(run, acts, n) && j < |run|
  {
    exists k {:trigger acts[k]} :: i <= k < j && Completes(run[k].threads[acts[k].tid], run[k + 1].threads[acts[k].tid])
  }

  /** Every step between `i` and `j` is one its thread can take, or a failed attempt to retire a node. */
  ghost predicate AllEffective<T>(run: seq<State<T>>, acts: seq<Act<T>>, n: nat, i: nat, j: nat)
    requires IsRun(run, acts, n) && j < |run|
  {
    forall k {:trigger acts[k]} :: i <= k < j ==>
      var pc := run[k].threads[acts[k].tid]; Effective(pc, acts[k].event) || RetireFails(pc, acts[k].event)
  }

  /** The number of steps between `i` and `j` other than failed attempts to retire a node. */
  ghost function StepsTaken<T>(run: seq<State<T>>, acts: seq<Act<T>>, n: nat, i: nat, j: nat): nat
    requires IsRun(run, acts, n) && i <= j < |run|
  {
    if i == j then 0
    else
      var a := acts[j - 1];
      StepsTaken(run, acts, n, i, j - 1) + if RetireFails(run[j - 1].threads[a.tid], a.event) then 0 else 1
  }

  lemma StepInRunFalls<T>(run: seq<State<T>>, acts: seq<Act<T>>, n: nat, k: nat)
    requires IsRun(run, acts, n) && k < |acts| && Effective(run[k].threads[acts[k].tid], acts[k].event)
    requires !Completes(run[k].threads[acts[k].tid], run[k + 1].threads[acts[k].tid])
    ensures Potential(run[k + 1]) < Potential(run[k])
  {
    var t, e := acts[k].tid, acts[k].event;
    RunInv(run, acts, n, k);
    assert IsStep(run, acts, k);
    EffectiveMoves(run[k], t, e, 18 * n);
    StepMovesOne(run[k], t, e);
    PotentialFalls(run[k], run[k + 1], t);
  }

  lemma StepMovesOne<T>(s: State<T>, t: nat, e: Event<T>)
    requires t < |s.threads|
    ensures Moves(s, Step(s, t, e), t)
  {
    if e.Go? {
      PushMovesOne(s, t, e.spurious);
      PopMovesOne(s, t, e.spurious);
    }
  }

  lemma RetireFailsKeeps<T>(s: State<T>, t: nat, e: Event<T>)
    requires t < |s.threads| && RetireFails(s.threads[t], e)
    ensures Step(s, t, e) == s
  {
  }

  lemma {:induction false} StepsArePaid<T>(run: seq<State<T>>, acts: seq<Act<T>>, n: nat, i: nat, j: nat)
    requires IsRun(run, acts, n) && i <= j < |run| && AllEffective(run, acts, n, i, j) && !SomeFinish(run, acts, n, i, j)
    ensures Potential(run[j]) + StepsTaken(run, acts, n, i, j) <= Potential(run[i])
  {
    if i < j {
      StepsArePaid(run, acts, n, i, j - 1);
      var pc, e := run[j - 1].threads[acts[j - 1].tid], acts[j - 1].event;
      assert IsStep(run, acts, j - 1);
      if RetireFails(pc, e) { RetireFailsKeeps(run[j - 1], acts[j - 1].tid, e); } else { StepInRunFalls(run, acts, n, j - 1); }
    }
  }

  lemma PotentialInRun<T>(run: seq<State<T>>, acts: seq<Act<T>>, n: nat, i: nat)
    requires IsRun(run, acts, n) && i < |run|
    ensures Potential(run[i]) <= n * (18 * n + 50)
  {
    RunInv(run, acts, n, i);
    PotentialBound(run[i]);
  }

  /** Lock freedom: whatever the schedule, and however the threads get in each other's way, among any
      18 n^2 + 50 n + 1 steps that `n` threads take one after the other there is one with which an
      operation finishes.  Failed attempts to retire a node may come in between and are not counted. */
  lemma LockFree<T>(run: seq<State<T>>, acts: seq<Act<T>>, n: nat, i: nat, j: nat)
    requires IsRun(run, acts, n) && i <= j < |run| && AllEffective(run, acts, n, i, j)
    requires StepsTaken(run, acts, n, i, j) > n * (18 * n + 50)
    ensures SomeFinish(run, acts, n, i, j)
  {
    if !SomeFinish(run, acts, n, i, j) {
      StepsArePaid(run, acts, n, i, j);
      PotentialInRun(run, acts, n, i);
    }
  }
}
