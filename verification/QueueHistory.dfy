/**
 * Linearizability of the lock-free queue: in every interleaving the effects of the steps, in order, are
 * a history of a sequential queue, and every operation has its effect once, between its call and its
 * return, with the value it was given or answers.  A pop that answers "empty" has no effect, and the
 * queue was empty at one of its steps.
 */
module QueueHistory {
  import opened Common
  import opened LockFreeQueue
  import opened QueueProgress

  /** The sequential queue after these effects, from empty; None if the queue does not allow them. */
  ghost function Replay<T>(h: seq<Effect<T>>): Option<seq<T>> {
    if h == [] then Some([])
    else
      match Replay(h[..|h| - 1])
      case None => None
      case Some(q) =>
        (match h[|h| - 1]
         case Nothing => Some(q)
         case Enqueue(v) => Some(q + [v])
         case Dequeue(v) => if q != [] && q[0] == v then Some(q[1..]) else None)
  }

  /** What the first `k` steps did to the queue. */
  ghost function History<T>(run: seq<State<T>>, acts: seq<Act<T>>, n: nat, k: nat): seq<Effect<T>>
    requires IsRun(run, acts, n) && k < |run|
  {
    if k == 0 then [] else History(run, acts, n, k - 1) + [EffectOf(run[k - 1], acts[k - 1].tid, acts[k - 1].event)]
  }

  lemma ReplayOneMore<T>(h: seq<Effect<T>>, eff: Effect<T>, q: seq<T>, q': seq<T>)
    requires Replay(h) == Some(q) && Refines(q, q', eff)
    ensures Replay(h + [eff]) == Some(q')
  {
    assert (h + [eff])[..|h|] == h;
  }

  lemma StepInRunRefines<T>(run: seq<State<T>>, acts: seq<Act<T>>, n: nat, k: nat)
    requires IsRun(run, acts, n) && 0 < k < |run|
    ensures Refines(Contents(run[k - 1].mem), Contents(run[k].mem), EffectOf(run[k - 1], acts[k - 1].tid, acts[k - 1].event))
  {
    RunInv(run, acts, n, k - 1);
    assert IsStep(run, acts, k - 1);
    StepRefines(run[k - 1], acts[k - 1].tid, acts[k - 1].event);
  }

  /** The effects so far are a history of the sequential queue, and lead to what a walk from `head_`
      meets. */
  lemma {:induction false} HistoryIsLegal<T>(run: seq<State<T>>, acts: seq<Act<T>>, n: nat, k: nat)
    requires IsRun(run, acts, n) && k < |run|
    ensures Replay(History(run, acts, n, k)) == Some(Contents(run[k].mem))
  {
    if k == 0 {
      RunFifo(run, acts, n, 0);
    } else {
      HistoryIsLegal(run, acts, n, k - 1);
      StepInRunRefines(run, acts, n, k);
      ReplayOneMore(History(run, acts, n, k - 1), EffectOf(run[k - 1], acts[k - 1].tid, acts[k - 1].event),
                    Contents(run[k - 1].mem), Contents(run[k].mem));
    }
  }

  // --------------------------------------------------------------- one operation

  function Something<T>(eff: Effect<T>): seq<Effect<T>> {
    if eff.Nothing? then [] else [eff]
  }

  /** What thread `t` did to the queue between steps `c` and `k`. */
  ghost function Own<T>(run: seq<State<T>>, acts: seq<Act<T>>, n: nat, t: nat, c: nat, k: nat): seq<Effect<T>>
    requires IsRun(run, acts, n) && c <= k < |run|
  {
    if k == c then []
    else
      var a := acts[k - 1];
      Own(run, acts, n, t, c, k - 1) + if a.tid == t then Something(EffectOf(run[k - 1], t, a.event)) else []
  }

  /** Thread `t` is called at step `c` and returns at step `r`. */
  ghost predicate Operation<T>(run: seq<State<T>>, acts: seq<Act<T>>, n: nat, t: nat, c: nat, r: nat) {
    && IsRun(run, acts, n) && t < n && c < r < |acts|
    && acts[c].tid == t && !acts[c].event.Go? && run[c].threads[t].Idle?
    && (forall i :: c < i <= r ==> !run[i].threads[t].Idle?)
    && run[r + 1].threads[t].Idle?
  }

  /** A push keeps to its node until it returns, which it does when the node is linked and counted. */
  lemma PushKeepsNode<T>(s: State<T>, t: nat, spurious: bool)
    requires t < |s.threads| && Pushing(s.threads[t])
    ensures var s' := PushStep(s, t, spurious);
            && |s'.threads| == |s.threads|
            && (if s.threads[t].PushCount? then s'.threads[t].Idle?
                else Pushing(s'.threads[t]) && s'.threads[t].node == s.threads[t].node)
  {
  }

  /** A push has its effect when its node gets linked. */
  lemma EffectOfPush<T>(s: State<T>, t: nat, spurious: bool)
    requires t < |s.threads| && Pushing(s.threads[t]) && Shape(s.mem) && ThreadOk(s.mem, t, s.threads[t])
    ensures var pc, s' := s.threads[t], PushStep(s, t, spurious);
            && |s'.threads| == |s.threads|
            && (if !Committed(pc) && Committed(s'.threads[t])
                then DataOf(s.mem, pc.node).Some? && EffectOf(s, t, Go(spurious)) == Enqueue(DataOf(s.mem, pc.node).value)
                else EffectOf(s, t, Go(spurious)) == Effect.Nothing)
  {
    if !s.threads[t].PushLink? { NoEffectOfPush(s, t, spurious); }
  }

  lemma NoEffectOfPush<T>(s: State<T>, t: nat, spurious: bool)
    requires t < |s.threads| && Pushing(s.threads[t]) && !s.threads[t].PushLink?
    ensures var pc, s' := s.threads[t], PushStep(s, t, spurious);
            |s'.threads| == |s.threads| && (Committed(s'.threads[t]) ==> Committed(pc)) && EffectOf(s, t, Go(spurious)) == Effect.Nothing
  {
  }

  /** Where a push of `v` is, and what it has done. */
  ghost predicate PushSoFar<T>(m: Mem<T>, pc: Pc<T>, v: T, own: seq<Effect<T>>) {
    Pushing(pc) && DataOf(m, pc.node) == Some(v) && own == if Committed(pc) then [Enqueue(v)] else []
  }

  /** A step of the push itself. */
  lemma PushGoesOn<T>(s: State<T>, t: nat, e: Event<T>, v: T, own: seq<Effect<T>>)
    requires Inv(s) && t < |s.threads| && PushSoFar(s.mem, s.threads[t], v, own)
    ensures var s' := Step(s, t, e);
            && |s'.threads| == |s.threads|
            && (if s'.threads[t].Idle? then own + Something(EffectOf(s, t, e)) == [Enqueue(v)]
                else PushSoFar(s'.mem, s'.threads[t], v, own + Something(EffectOf(s, t, e))))
  {
    assert ThreadOk(s.mem, t, s.threads[t]);
    StepGrows(s, t, e);
    if e.Go? {
      PushKeepsNode(s, t, e.spurious);
      EffectOfPush(s, t, e.spurious);
      if Committed(s.threads[t]) { PushStaysCommitted(s, t, e.spurious); }
    }
  }

  /** A step of another thread. */
  lemma PushWaits<T>(s: State<T>, u: nat, e: Event<T>, t: nat, v: T, own: seq<Effect<T>>)
    requires Inv(s) && t < |s.threads| && u < |s.threads| && u != t && PushSoFar(s.mem, s.threads[t], v, own)
    ensures var s' := Step(s, u, e);
            |s'.threads| == |s.threads| && PushSoFar(s'.mem, s'.threads[t], v, own)
  {
    StepGrows(s, u, e);
    OtherThreads(s, u, e, t);
  }

  /** Thread `t` does not return between steps `c` and `k`. */
  ghost predicate Busy<T>(run: seq<State<T>>, t: nat, c: nat, k: nat) {
    k < |run| && forall i :: c < i <= k ==> t < |run[i].threads| && !run[i].threads[t].Idle?
  }

  /** The push of `v` that thread `t` began at step `c`, at step `k`. */
  ghost predicate PushAt<T>(run: seq<State<T>>, acts: seq<Act<T>>, n: nat, t: nat, c: nat, v: T, k: nat) {
    && IsRun(run, acts, n) && t < n && c < k < |run|
    && PushSoFar(run[k].mem, run[k].threads[t], v, Own(run, acts, n, t, c, k))
  }

  lemma PushNext<T>(run: seq<State<T>>, acts: seq<Act<T>>, n: nat, t: nat, c: nat, v: T, k: nat)
    requires k > 0 && PushAt(run, acts, n, t, c, v, k - 1) && k < |run| && !run[k].threads[t].Idle?
    ensures PushAt(run, acts, n, t, c, v, k)
  {
    PushOneMore(run, acts, n, t, c, v, k - 1);
  }

  lemma {:induction false} PushInRun<T>(run: seq<State<T>>, acts: seq<Act<T>>, n: nat, t: nat, c: nat, v: T, k: nat)
    requires PushAt(run, acts, n, t, c, v, c + 1) && c < k && Busy(run, t, c, k)
    ensures PushAt(run, acts, n, t, c, v, k)
  {
    if k > c + 1 {
      PushInRun(run, acts, n, t, c, v, k - 1);
      PushNext(run, acts, n, t, c, v, k);
    }
  }

  lemma PushBegins<T>(s: State<T>, t: nat, v: T)
    requires t < |s.threads| && s.threads[t].Idle?
    ensures var s' := Step(s, t, Event.Push(v));
            |s'.threads| == |s.threads| && PushSoFar(s'.mem, s'.threads[t], v, [])
  {
  }

  lemma PushFirst<T>(run: seq<State<T>>, acts: seq<Act<T>>, n: nat, t: nat, c: nat, v: T)
    requires IsRun(run, acts, n) && t < n && c < |acts| && acts[c] == Act(t, Event.Push(v)) && run[c].threads[t].Idle?
    ensures PushSoFar(run[c + 1].mem, run[c + 1].threads[t], v, Own(run, acts, n, t, c, c + 1))
  {
    PushBegins(run[c], t, v);
    assert IsStep(run, acts, c);
    assert Own(run, acts, n, t, c, c) == [];
  }

  lemma PushOneMore<T>(run: seq<State<T>>, acts: seq<Act<T>>, n: nat, t: nat, c: nat, v: T, k: nat)
    requires IsRun(run, acts, n) && t < n && c <= k < |acts| && PushSoFar(run[k].mem, run[k].threads[t], v, Own(run, acts, n, t, c, k))
    ensures if run[k + 1].threads[t].Idle? then Own(run, acts, n, t, c, k + 1) == [Enqueue(v)]
            else PushSoFar(run[k + 1].mem, run[k + 1].threads[t], v, Own(run, acts, n, t, c, k + 1))
  {
    var a, own := acts[k], Own(run, acts, n, t, c, k);
    assert IsStep(run, acts, k);
    RunInv(run, acts, n, k);
    if a.tid == t { PushGoesOn(run[k], t, a.event, v, own); } else { PushWaits(run[k], a.tid, a.event, t, v, own); }
  }

  /** A push of `v` does one thing to the queue between its call and its return: it appends `v`. */
  lemma PushLinearizes<T>(run: seq<State<T>>, acts: seq<Act<T>>, n: nat, t: nat, c: nat, r: nat, v: T)
    requires Operation(run, acts, n, t, c, r) && acts[c].event == Event.Push(v)
    ensures Own(run, acts, n, t, c, r + 1) == [Enqueue(v)]
  {
    PushFirst(run, acts, n, t, c, v);
    PushInRun(run, acts, n, t, c, v, r);
    PushEnds(run, acts, n, t, c, v, r);
  }

  lemma PushEnds<T>(run: seq<State<T>>, acts: seq<Act<T>>, n: nat, t: nat, c: nat, v: T, r: nat)
    requires IsRun(run, acts, n) && t < n && c < r < |acts| && run[r + 1].threads[t].Idle?
    requires PushSoFar(run[r].mem, run[r].threads[t], v, Own(run, acts, n, t, c, r))
    ensures Own(run, acts, n, t, c, r + 1) == [Enqueue(v)]
  {
    PushOneMore(run, acts, n, t, c, v, r);
  }

  /** Where a pop is, and what it has done. */
  ghost predicate PopSoFar<T>(pc: Pc<T>, own: seq<Effect<T>>) {
    Pops(pc) && if Took(pc) then pc.data.Some? && own == [Dequeue(pc.data.value)] else own == []
  }

  /** A pop has its effect when it moves the head, and keeps to the value it took. */
  lemma EffectOfPop<T>(s: State<T>, t: nat, spurious: bool)
    requires t < |s.threads| && Pops(s.threads[t]) && ThreadOk(s.mem, t, s.threads[t]) && Shape(s.mem)
    ensures var pc, s' := s.threads[t], PopStep(s, t, spurious);
            && |s'.threads| == |s.threads|
            && (if !Took(pc) && Took(s'.threads[t])
                then s'.threads[t].data.Some? && EffectOf(s, t, Go(spurious)) == Dequeue(s'.threads[t].data.value)
                else EffectOf(s, t, Go(spurious)) == Effect.Nothing)
  {
    if s.threads[t].PopSwing? { assert s.mem.nodes[s.threads[t].succ].data == s.threads[t].data; }
  }

  lemma PopKeepsValue<T>(s: State<T>, t: nat, spurious: bool)
    requires t < |s.threads| && Took(s.threads[t]) && ThreadOk(s.mem, t, s.threads[t])
    ensures var pc, s' := s.threads[t], PopStep(s, t, spurious);
            && |s'.threads| == |s.threads|
            && (s'.threads[t].Idle? || (Took(s'.threads[t]) && s'.threads[t].data == pc.data))
  {
  }

  /** A pop answers with the value it took, or "empty" after a null load. */
  ghost predicate PopAnswers<T>(t: nat, pc: Pc<T>, s': State<T>, own: seq<Effect<T>>) {
    if Took(pc)
    then pc.PopReturn? && pc.data.Some? && pc.head in s'.results && s'.results[pc.head] == Stamp(t, pc.data.value) && own == [Dequeue(pc.data.value)]
    else pc.PopCheck? && own == []
  }

  lemma PopStays<T>(s: State<T>, t: nat, spurious: bool)
    requires t < |s.threads| && Pops(s.threads[t]) && !s.threads[t].PopReturn? && !s.threads[t].PopCheck?
    ensures var s' := PopStep(s, t, spurious); |s'.threads| == |s.threads| && Pops(s'.threads[t])
  {
  }

  lemma PopReturns<T>(s: State<T>, t: nat, spurious: bool)
    requires t < |s.threads| && s.threads[t].PopReturn? && s.threads[t].data.Some?
    ensures var pc, s' := s.threads[t], PopStep(s, t, spurious);
            && |s'.threads| == |s.threads| && s'.threads[t].Idle?
            && s'.results == s.results[pc.head := Stamp(t, pc.data.value)]
  {
  }

  lemma PopChecks<T>(s: State<T>, t: nat, spurious: bool)
    requires t < |s.threads| && s.threads[t].PopCheck?
    ensures var s' := PopStep(s, t, spurious); |s'.threads| == |s.threads| && !Pushing(s'.threads[t]) && !Took(s'.threads[t])
  {
  }

  /** A step of the pop itself. */
  lemma PopGoesOn<T>(s: State<T>, t: nat, e: Event<T>, own: seq<Effect<T>>)
    requires Inv(s) && t < |s.threads| && PopSoFar(s.threads[t], own)
    ensures var s' := Step(s, t, e);
            && |s'.threads| == |s.threads|
            && (if s'.threads[t].Idle? then PopAnswers(t, s.threads[t], s', own + Something(EffectOf(s, t, e)))
                else PopSoFar(s'.threads[t], own + Something(EffectOf(s, t, e))))
  {
    assert ThreadOk(s.mem, t, s.threads[t]);
    if e.Go? {
      EffectOfPop(s, t, e.spurious);
      if Took(s.threads[t]) { PopKeepsValue(s, t, e.spurious); }
      if s.threads[t].PopReturn? {
        PopReturns(s, t, e.spurious);
      } else if s.threads[t].PopCheck? {
        PopChecks(s, t, e.spurious);
      } else {
        PopStays(s, t, e.spurious);
      }
    }
  }

  lemma PopOneMore<T>(run: seq<State<T>>, acts: seq<Act<T>>, n: nat, t: nat, c: nat, k: nat)
    requires IsRun(run, acts, n) && t < n && c <= k < |acts| && PopSoFar(run[k].threads[t], Own(run, acts, n, t, c, k))
    ensures if run[k + 1].threads[t].Idle? then PopAnswers(t, run[k].threads[t], run[k + 1], Own(run, acts, n, t, c, k + 1))
            else PopSoFar(run[k + 1].threads[t], Own(run, acts, n, t, c, k + 1))
  {
    var a, own := acts[k], Own(run, acts, n, t, c, k);
    assert IsStep(run, acts, k);
    RunInv(run, acts, n, k);
    if a.tid == t { PopGoesOn(run[k], t, a.event, own); } else { OtherThreads(run[k], a.tid, a.event, t); }
  }

  lemma PopFirst<T>(run: seq<State<T>>, acts: seq<Act<T>>, n: nat, t: nat, c: nat)
    requires IsRun(run, acts, n) && t < n && c < |acts| && acts[c] == Act(t, Event.Pop) && run[c].threads[t].Idle?
    ensures PopAt(run, acts, n, t, c, c + 1)
  {
    assert IsStep(run, acts, c);
    assert Own(run, acts, n, t, c, c) == [];
  }

  /** The pop that thread `t` began at step `c`, at step `k`. */
  ghost predicate PopAt<T>(run: seq<State<T>>, acts: seq<Act<T>>, n: nat, t: nat, c: nat, k: nat) {
    IsRun(run, acts, n) && t < n && c < k < |run| && PopSoFar(run[k].threads[t], Own(run, acts, n, t, c, k))
  }

  lemma PopNext<T>(run: seq<State<T>>, acts: seq<Act<T>>, n: nat, t: nat, c: nat, k: nat)
    requires k > 0 && PopAt(run, acts, n, t, c, k - 1) && k < |run| && !run[k].threads[t].Idle?
    ensures PopAt(run, acts, n, t, c, k)
  {
    PopOneMore(run, acts, n, t, c, k - 1);
  }

  lemma {:induction false} PopInRun<T>(run: seq<State<T>>, acts: seq<Act<T>>, n: nat, t: nat, c: nat, k: nat)
    requires PopAt(run, acts, n, t, c, c + 1) && c < k && Busy(run, t, c, k)
    ensures PopAt(run, acts, n, t, c, k)
  {
    if k > c + 1 {
      PopInRun(run, acts, n, t, c, k - 1);
      PopNext(run, acts, n, t, c, k);
    }
  }

  lemma PopEnds<T>(run: seq<State<T>>, acts: seq<Act<T>>, n: nat, t: nat, c: nat, r: nat)
    requires PopAt(run, acts, n, t, c, r) && r < |acts| && run[r + 1].threads[t].Idle?
    ensures PopAnswers(t, run[r].threads[t], run[r + 1], Own(run, acts, n, t, c, r + 1))
  {
    PopOneMore(run, acts, n, t, c, r);
  }

  /** A pop that answers with a value does one thing to the queue between its call and its return: it
      takes that value off the front.  One that answers "empty" does nothing to it, and at one of the
      steps in between, `j`, the queue was empty. */
  lemma PopLinearizes<T>(run: seq<State<T>>, acts: seq<Act<T>>, n: nat, t: nat, c: nat, r: nat) returns (j: nat)
    requires Operation(run, acts, n, t, c, r) && acts[c].event.Pop?
    ensures PopAnswers(t, run[r].threads[t], run[r + 1], Own(run, acts, n, t, c, r + 1))
    ensures c < j <= r && (run[r].threads[t].PopCheck? ==> Contents(run[j].mem) == [])
  {
    PopFirst(run, acts, n, t, c);
    PopInRun(run, acts, n, t, c, r);
    PopEnds(run, acts, n, t, c, r);
    j := r;
    if run[r].threads[t].PopCheck? {
      ReturnIsOwn(run, acts, n, t, r);
      j := EmptyPopSawEmpty(run, acts, n, r);
      assert run[c].threads[t].Idle?;
    }
  }

  /** The step with which an operation returns is its own. */
  lemma ReturnIsOwn<T>(run: seq<State<T>>, acts: seq<Act<T>>, n: nat, t: nat, r: nat)
    requires IsRun(run, acts, n) && t < n && r < |acts| && !run[r].threads[t].Idle? && run[r + 1].threads[t].Idle?
    ensures acts[r].tid == t
  {
    assert IsStep(run, acts, r);
    if acts[r].tid != t { OtherThreads(run[r], acts[r].tid, acts[r].event, t); }
  }

  // --------------------------------------------------------------- giving nodes back

  /** Freed nodes stay freed, and retired ones are retired or freed. */
  lemma StepFreed<T>(s: State<T>, t: nat, e: Event<T>)
    requires t < |s.threads|
    ensures var s' := Step(s, t, e);
            s.freed <= s'.freed && forall x :: x in s.freed + s.retired ==> x in s'.freed + s'.retired
  {
    if e.Go? && Pushing(s.threads[t]) { PushFreesNothing(s, t, e.spurious); } else if e.Go? { PopFreed(s, t, e.spurious); }
  }

  lemma PushFreesNothing<T>(s: State<T>, t: nat, spurious: bool)
    requires t < |s.threads|
    ensures var s' := PushStep(s, t, spurious); s'.freed == s.freed && s'.retired == s.retired
  {
  }

  lemma PopFreed<T>(s: State<T>, t: nat, spurious: bool)
    requires t < |s.threads|
    ensures var s' := PopStep(s, t, spurious);
            s.freed <= s'.freed && forall x :: x in s.freed + s.retired ==> x in s'.freed + s'.retired
  {
    if !s.threads[t].PopTake? { PopKeepsFreed(s, t, spurious); }
  }

  lemma PopKeepsFreed<T>(s: State<T>, t: nat, spurious: bool)
    requires t < |s.threads| && !s.threads[t].PopTake?
    ensures var s' := PopStep(s, t, spurious); s'.freed == s.freed && s.retired <= s'.retired
  {
  }

  /** Past the check of the count: the node is freed when the thread has taken the retired ones. */
  ghost predicate Reclaiming<T>(s: State<T>, t: nat, x: Id) {
    && t < |s.threads|
    && if s.threads[t].PopTake? then x in s.freed + s.retired else (s.threads[t].PopReset? || s.threads[t].PopReturn?) && x in s.freed
  }

  lemma ReclaimGoesOn<T>(s: State<T>, t: nat, spurious: bool, x: Id)
    requires t < |s.threads| && Reclaiming(s, t, x) && ThreadOk(s.mem, t, s.threads[t])
    ensures var s' := PopStep(s, t, spurious);
            |s'.threads| == |s.threads| && if s'.threads[t].Idle? then x in s'.freed else Reclaiming(s', t, x)
  {
  }

  lemma ReclaimOneMore<T>(s: State<T>, u: nat, e: Event<T>, t: nat, x: Id)
    requires Inv(s) && u < |s.threads| && t < |s.threads| && Reclaiming(s, t, x)
    ensures var s' := Step(s, u, e);
            |s'.threads| == |s.threads| && if s'.threads[t].Idle? then x in s'.freed else Reclaiming(s', t, x)
  {
    assert ThreadOk(s.mem, t, s.threads[t]);
    if u != t {
      OtherThreads(s, u, e, t);
      StepFreed(s, u, e);
    } else if e.Go? {
      ReclaimGoesOn(s, t, e.spurious, x);
    }
  }

  lemma ReclaimBegins<T>(s: State<T>, t: nat, e: Event<T>, x: Id)
    requires t < |s.threads| && s.threads[t].PopReclaim? && s.retiredCount >= 100 && e.Go? && x in s.retired
    ensures |Step(s, t, e).threads| == |s.threads| && Reclaiming(Step(s, t, e), t, x)
  {
  }

  /** The thread has returned and the node is freed, or it is still at it. */
  ghost predicate Reclaims<T>(s: State<T>, t: nat, x: Id) {
    t < |s.threads| && if s.threads[t].Idle? then x in s.freed else Reclaiming(s, t, x)
  }

  lemma ReclaimStep<T>(run: seq<State<T>>, acts: seq<Act<T>>, n: nat, t: nat, x: Id, k: nat)
    requires IsRun(run, acts, n) && t < n && 0 < k < |run| && Reclaims(run[k - 1], t, x) && !run[k - 1].threads[t].Idle?
    ensures Reclaims(run[k], t, x)
  {
    RunInv(run, acts, n, k - 1);
    assert IsStep(run, acts, k - 1);
    ReclaimOneMore(run[k - 1], acts[k - 1].tid, acts[k - 1].event, t, x);
  }

  lemma {:induction false} ReclaimInRun<T>(run: seq<State<T>>, acts: seq<Act<T>>, n: nat, t: nat, x: Id, k: nat, r: nat)
    requires IsRun(run, acts, n) && t < n && k < r < |run| && Reclaims(run[k + 1], t, x) && Busy(run, t, k, r - 1)
    ensures Reclaims(run[r], t, x)
  {
    if r > k + 1 {
      ReclaimInRun(run, acts, n, t, x, k, r - 1);
      ReclaimStep(run, acts, n, t, x, r);
    }
  }

  /** A pop that finds 100 or more nodes counted as retired, at step `k`, has every node that was retired
      then deleted by the time it returns, at step `r`, by itself or by another. */
  lemma ReclaimFrees<T>(run: seq<State<T>>, acts: seq<Act<T>>, n: nat, t: nat, x: Id, k: nat, r: nat)
    requires IsRun(run, acts, n) && t < n && k < r < |run| && acts[k].tid == t && acts[k].event.Go?
    requires run[k].threads[t].PopReclaim? && run[k].retiredCount >= 100 && x in run[k].retired
    requires Busy(run, t, k, r - 1) && run[r].threads[t].Idle?
    ensures x in run[r].freed
  {
    assert IsStep(run, acts, k);
    ReclaimBegins(run[k], t, acts[k].event, x);
    ReclaimInRun(run, acts, n, t, x, k, r);
  }

  /** With one thread the count is that of the retired nodes, but for the steps that change one of them
      before the other. */
  ghost predicate Counted<T>(s: State<T>) {
    && |s.threads| == 1
    && match s.threads[0]
       case PopTally(_, _) => |s.retired| == s.retiredCount + 1 <= 100
       case PopReclaim(_, _) => |s.retired| == s.retiredCount <= 100
       case PopTake(_, _) => |s.retired| == s.retiredCount == 100
       case PopReset(_, _) => s.retired == []
       case _ => |s.retired| == s.retiredCount <= 99
  }

  lemma PushCounted<T>(s: State<T>, spurious: bool)
    requires Counted(s) && Pushing(s.threads[0])
    ensures Counted(PushStep(s, 0, spurious))
  {
  }

  lemma PopCounted<T>(s: State<T>, spurious: bool)
    requires Counted(s) && Pops(s.threads[0])
    ensures Counted(PopStep(s, 0, spurious))
  {
    if !Took(s.threads[0]) { TakingCounted(s, spurious); }
  }

  lemma TakingCounted<T>(s: State<T>, spurious: bool)
    requires Counted(s) && Pops(s.threads[0]) && !Took(s.threads[0])
    ensures Counted(PopStep(s, 0, spurious))
  {
  }

  ghost predicate CountedAt<T>(run: seq<State<T>>, acts: seq<Act<T>>, k: nat) {
    IsRun(run, acts, 1) && k < |run| && Counted(run[k])
  }

  lemma StepCounted<T>(s: State<T>, e: Event<T>)
    requires Counted(s)
    ensures Counted(Step(s, 0, e))
  {
    if e.Go? && Pushing(s.threads[0]) { PushCounted(s, e.spurious); } else if e.Go? && Pops(s.threads[0]) { PopCounted(s, e.spurious); }
  }

  lemma CountedNext<T>(run: seq<State<T>>, acts: seq<Act<T>>, k: nat)
    requires k > 0 && CountedAt(run, acts, k - 1) && k < |run|
    ensures CountedAt(run, acts, k)
  {
    assert IsStep(run, acts, k - 1);
    StepCounted(run[k - 1], acts[k - 1].event);
  }

  lemma {:induction false} CountedInRun<T>(run: seq<State<T>>, acts: seq<Act<T>>, k: nat)
    requires IsRun(run, acts, 1) && k < |run|
    ensures CountedAt(run, acts, k)
  {
    if k > 0 {
      CountedInRun(run, acts, k - 1);
      CountedNext(run, acts, k);
    }
  }

  /** With one thread never more than 99 nodes wait to be deleted between two calls. */
  lemma FewRetired<T>(run: seq<State<T>>, acts: seq<Act<T>>, k: nat)
    requires IsRun(run, acts, 1) && k < |run| && run[k].threads[0].Idle?
    ensures |run[k].retired| == run[k].retiredCount <= 99
  {
    CountedInRun(run, acts, k);
  }
}
