/**
 * Recording sessions of src/persistence/market_data_recorder.cpp on top of the lock-free queue:
 * producers push with the queue's own atomic steps, the writer thread pops with them and writes
 * what it gets, `stop` clears the flag at any moment, and `start` opens the same file anew on the
 * same queue once the writer of the last recording is done.  Thread 0 of the queue is the writer.
 */
module RecordingSession {
  import opened Common
  import opened LockFreeQueue
  import opened QueueProgress
  import QueueHistory
  import opened Recorder

  type Queue = State<Update>

  /** The writer loop: test the flag, pop, write; `last` marks the loop after the flag went down. */
  datatype Writer = Test | Popping(last: bool) | Writing(update: Update, last: bool) | Done

  /** A producer inside `record`: it has seen the flag up, or is pushing. */
  datatype Call = NoCall | Checked(update: Update) | InPush(update: Update)

  /** What `record` answered.  An accepted update is the `place`-th value linked, by node `node`. */
  datatype Answer = Refused(thread: nat, update: Update) | Accepted(thread: nat, update: Update, node: Id, place: nat)

  /** What was the case when `stop` came: values linked, calls answered, and whether every call in
      progress had its value linked. */
  datatype StopMark = StopMark(linked: nat, answered: nat, settled: bool)

  /** `written` is what the file holds; `overwritten` what it held in earlier recordings, which the
      next `start` erased: a recorder has one file name and opens it anew.  Both, `answers`, `stop`
      and `emptiedAt` are history; `emptiedAt` counts the values linked when the last loop last read
      a null successor. */
  datatype Session = Session(
    queue: Queue, calls: seq<Call>, recording: bool, writer: Writer, file: seq<Byte>, total: nat,
    overwritten: seq<Update>, written: seq<Update>, answers: seq<Answer>, stop: Option<StopMark>, emptiedAt: Option<nat>)

  datatype Action =
    | Record(thread: nat, update: Update)      // record reads the flag
    | BeginPush(thread: nat)                   // and goes on to push
    | PushStep(thread: nat, spurious: bool)    // one atomic step of that push; the last one answers
    | Stop
    | WriterStep(spurious: bool)
    | Start                                    // the next recording

  function Open(threads: nat): Session
    requires threads > 0
  {
    Session(LockFreeQueue.Init(threads), seq(threads, _ => NoCall), true, Test, Header(BINARY), 0, [], [], [], None, None)
  }

  function StartPop(s: Session, last: bool): Session
    requires |s.queue.threads| > 0
  {
    s.(queue := Step(s.queue, 0, Event.Pop), writer := Popping(last))
  }

  /** The pop has read a null successor: the next check, if it passes, reports an empty queue. */
  predicate SawNull(pc: Pc<Update>) {
    pc.PopCheck? && pc.next.None?
  }

  /** One step of the writer's pop took the queue to `q`; when the pop answers, the loop goes on. */
  function Popped(s: Session, q: Queue, last: bool): Session
    requires 0 < |s.queue.threads| == |q.threads|
  {
    var pc := s.queue.threads[0];
    var s' := s.(queue := q, emptiedAt := if last && SawNull(q.threads[0]) then Some(|q.mem.log.linked|) else s.emptiedAt);
    if !q.threads[0].Idle? then s'
    else if pc.PopReturn? && pc.data.Some? then s'.(writer := Writing(pc.data.value, last))
    else s'.(writer := if last then Done else Test)
  }

  function PopOnce(s: Session, last: bool, spurious: bool): Session
    requires |s.queue.threads| > 0
  {
    OneThreadMoves(s.queue, 0, Go(spurious));
    Popped(s, Step(s.queue, 0, Go(spurious)), last)
  }

  lemma OneThreadMoves(q: Queue, t: nat, e: Event<Update>)
    requires t < |q.threads|
    ensures |Step(q, t, e).threads| == |q.threads|
  {
    if e.Go? {
      PushMovesOne(q, t, e.spurious);
      PopMovesOne(q, t, e.spurious);
    }
  }

  function WriteOnce(s: Session, u: Update): Session {
    s.(file := s.file + WriteUpdate(u), total := s.total + 1, written := s.written + [u])
  }

  function WriterNext(s: Session, spurious: bool): Session
    requires |s.queue.threads| > 0
  {
    match s.writer
    case Test => StartPop(s, !s.recording)
    case Popping(last) => PopOnce(s, last, spurious)
    case Writing(u, last) => if last then StartPop(WriteOnce(s, u), true) else WriteOnce(s, u).(writer := Test)
    case Done => s
  }

  predicate IsProducer(s: Session, t: nat) {
    0 < t < |s.queue.threads| == |s.calls|
  }

  /** Where in link order a linked node's value is. */
  function PlaceOf(m: Mem<Update>, n: Id): nat {
    if n in m.log.rank && m.log.rank[n] > 0 then m.log.rank[n] - 1 else 0
  }

  /** One atomic step of a push took the queue to `q`; when the push returns, `record` answers true. */
  function Pushed(s: Session, t: nat, u: Update, q: Queue): Session
    requires IsProducer(s, t)
  {
    var pc := s.queue.threads[t];
    if pc.PushCount?
    then s.(queue := q, calls := s.calls[t := NoCall],
            answers := s.answers + [Accepted(t, u, pc.node, PlaceOf(s.queue.mem, pc.node))])
    else s.(queue := q)
  }

  function Act(s: Session, a: Action): Session
    requires |s.queue.threads| > 0
  {
    match a
    case Record(t, u) =>
      if !IsProducer(s, t) || !s.calls[t].NoCall? then s
      else if s.recording then s.(calls := s.calls[t := Checked(u)])
      else s.(answers := s.answers + [Refused(t, u)])
    case BeginPush(t) =>
      if IsProducer(s, t) && s.calls[t].Checked?
      then s.(calls := s.calls[t := InPush(s.calls[t].update)], queue := Step(s.queue, t, Event.Push(s.calls[t].update))) else s
    case PushStep(t, spurious) =>
      if IsProducer(s, t) && s.calls[t].InPush? then Pushed(s, t, s.calls[t].update, Step(s.queue, t, Go(spurious))) else s
    case Stop =>
      if s.recording then s.(recording := false, stop := Some(StopMark(|s.queue.mem.log.linked|, |s.answers|, AllSettled(s.queue, s.calls)))) else s
    case WriterStep(spurious) => WriterNext(s, spurious)
    case Start =>
      if Starts(s, a)
      then s.(recording := true, writer := Test, file := Header(BINARY), total := 0,
              overwritten := s.overwritten + s.written, written := [], stop := None, emptiedAt := None)
      else s
  }

  /** `start` takes effect: the last recording is over. */
  predicate Starts(s: Session, a: Action) {
    a.Start? && s.writer.Done? && !s.recording
  }

  /** The producer has no call in progress, or its value is linked. */
  predicate Settled(q: Queue, t: nat, call: Call) {
    call.NoCall? || (call.InPush? && t < |q.threads| && Pushing(q.threads[t]) && q.threads[t].node in q.mem.log.rank)
  }

  predicate AllSettled(q: Queue, calls: seq<Call>) {
    forall t :: 0 <= t < |calls| ==> Settled(q, t, calls[t])
  }

  // ---------------------------------------------------------------- what the queue contributes

  /** A value the writer's pop has taken off the queue and not answered yet. */
  function Taken(pc: Pc<Update>): seq<Update> {
    if Took(pc) then OptionSeq(pc.data) else []
  }

  /** All that matters about one step of thread `t`: the history grows and the other threads stay where
      they are ... */
  ghost predicate MoveFrame(q: Queue, q': Queue, t: nat) {
    && t < |q.threads| == |q'.threads| && Shape(q'.mem) && Grows(q.mem, q'.mem)
    && (forall u :: 0 <= u < |q.threads| && u != t ==> q'.threads[u] == q.threads[u])
  }

  /** ... and in a push nothing is popped, and nothing is linked twice. */
  ghost predicate PushLog(q: Queue, q': Queue, t: nat)
    requires t < |q.threads|
  {
    && q'.mem.log.popped == q.mem.log.popped && q.mem.log.linked <= q'.mem.log.linked
    && (Pushing(q.threads[t]) && q.threads[t].node in q.mem.log.rank ==> q'.mem.log.linked == q.mem.log.linked)
  }

  ghost predicate PushFacts(q: Queue, q': Queue, t: nat) {
    t > 0 && MoveFrame(q, q', t) && PushLog(q, q', t)
  }

  lemma MoveFrameHolds(q: Queue, t: nat, e: Event<Update>)
    requires Inv(q) && t < |q.threads|
    ensures MoveFrame(q, Step(q, t, e), t)
  {
    StepInv(q, t, e);
    StepGrows(q, t, e);
    OneThreadMoves(q, t, e);
    forall u | 0 <= u < |q.threads| && u != t ensures Step(q, t, e).threads[u] == q.threads[u] {
      OtherThreads(q, t, e, u);
    }
  }

  /** A push has no effect but to link its node, which it does once. */
  lemma EffectOfPush(q: Queue, t: nat, e: Event<Update>)
    requires t < |q.threads| && ThreadOk(q.mem, t, q.threads[t]) && !Pops(q.threads[t]) && !e.Pop?
    ensures !EffectOf(q, t, e).Dequeue?
    ensures Pushing(q.threads[t]) && q.threads[t].node in q.mem.log.rank ==> EffectOf(q, t, e).Nothing?
  {
  }

  lemma PushFactsHold(q: Queue, t: nat, e: Event<Update>)
    requires Inv(q) && 0 < t < |q.threads| && !Pops(q.threads[t]) && !e.Pop?
    ensures PushFacts(q, Step(q, t, e), t)
  {
    MoveFrameHolds(q, t, e);
    assert ThreadOk(q.mem, t, q.threads[t]);
    EffectOfPush(q, t, e);
    LogOfStep(q, t, e);
  }

  /** How one step moves the writer's pop from `pc` to `pc'`. */
  ghost predicate PopMoves(pc: Pc<Update>, pc': Pc<Update>) {
    && !Pushing(pc')
    && (Took(pc) && !pc.PopReturn? ==> Took(pc') && pc'.data == pc.data)
    && (pc.PopReturn? && pc.data.Some? ==> pc'.Idle?)
    && (!Took(pc) && !(pc.PopSwing? && Took(pc')) ==> !Took(pc'))
    && (pc'.Idle? ==> pc.PopReturn? || SawNull(pc))
    && (SawNull(pc') ==> pc.PopLoadNext?)
    && (pc.PopSwing? && Took(pc') ==> pc'.data == pc.data)
  }

  lemma PopStays(q: Queue, spurious: bool)
    requires 0 < |q.threads| && Pops(q.threads[0])
    ensures |LockFreeQueue.PopStep(q, 0, spurious).threads| == |q.threads|
    ensures PopMoves(q.threads[0], LockFreeQueue.PopStep(q, 0, spurious).threads[0])
  {
  }

  lemma TookHasData(q: Queue)
    requires Inv(q) && 0 < |q.threads| && Took(q.threads[0])
    ensures q.threads[0].data.Some?
  {
    assert ThreadOk(q.mem, 0, q.threads[0]);
  }

  /** Only a successful head swing removes a value, and the pop then holds that value. */
  lemma EffectOfPop(q: Queue, spurious: bool)
    requires 0 < |q.threads| && Pops(q.threads[0]) && |Step(q, 0, Go(spurious)).threads| == |q.threads|
    requires var pc' := Step(q, 0, Go(spurious)).threads[0]; Took(pc') ==> pc'.data.Some?
    ensures var pc' := Step(q, 0, Go(spurious)).threads[0];
            EffectOf(q, 0, Go(spurious)) ==
              if Took(q.threads[0]) || !Took(pc') then Effect.Nothing else Effect.Dequeue(pc'.data.value)
  {
  }

  lemma LogOfTaking(g: Log<Update>, g': Log<Update>, before: bool, pc': Pc<Update>)
    requires Took(pc') ==> pc'.data.Some?
    requires LogEffect(g, g', 0, if before || !Took(pc') then Effect.Nothing else Effect.Dequeue(pc'.data.value))
    ensures g'.linked == g.linked && |g.popped| <= |g'.popped|
    ensures Values(g'.popped) == Values(g.popped) + if before then [] else Taken(pc')
  {
  }

  /** Reading a null successor means everything linked has been taken. */
  lemma NullSawAll(q: Queue, spurious: bool)
    requires Inv(q) && 0 < |q.threads| && q.threads[0].PopLoadNext?
    ensures SawNull(Step(q, 0, Go(spurious)).threads[0]) ==> |q.mem.log.popped| == |q.mem.log.linked|
  {
    assert ThreadOk(q.mem, 0, q.threads[0]);
    NullNextMeansEmpty(q.mem, q.threads[0].head);
  }

  /** One step of the writer's pop ... */
  ghost predicate PopFrame(q: Queue, q': Queue) {
    MoveFrame(q, q', 0) && PopMoves(q.threads[0], q'.threads[0])
  }

  /** ... in which a value is popped exactly when the writer takes it. */
  ghost predicate PopLog(q: Queue, q': Queue)
    requires 0 < |q.threads| == |q'.threads|
  {
    && (Took(q.threads[0]) ==> q.threads[0].data.Some?)
    && q'.mem.log.linked == q.mem.log.linked && |q.mem.log.popped| <= |q'.mem.log.popped|
    && Values(q'.mem.log.popped) ==
         Values(q.mem.log.popped) + (if Took(q.threads[0]) then [] else Taken(q'.threads[0]))
    && (SawNull(q'.threads[0]) ==> |q.mem.log.popped| == |q.mem.log.linked|)
  }

  ghost predicate PopFacts(q: Queue, q': Queue) {
    PopFrame(q, q') && PopLog(q, q')
  }

  lemma PopFrameHolds(q: Queue, spurious: bool)
    requires Inv(q) && 0 < |q.threads| && Pops(q.threads[0])
    ensures PopFrame(q, Step(q, 0, Go(spurious)))
  {
    MoveFrameHolds(q, 0, Go(spurious));
    PopStays(q, spurious);
  }

  lemma PopLogHolds(q: Queue, spurious: bool)
    requires Inv(q) && 0 < |q.threads| && Pops(q.threads[0]) && Inv(Step(q, 0, Go(spurious))) && PopFrame(q, Step(q, 0, Go(spurious)))
    ensures PopLog(q, Step(q, 0, Go(spurious)))
  {
    var q' := Step(q, 0, Go(spurious));
    if Took(q.threads[0]) { TookHasData(q); }
    if Took(q'.threads[0]) { TookHasData(q'); }
    LogOfStep(q, 0, Go(spurious));
    EffectOfPop(q, spurious);
    LogOfTaking(q.mem.log, q'.mem.log, Took(q.threads[0]), q'.threads[0]);
    if SawNull(q'.threads[0]) { NullSawAll(q, spurious); }
  }

  lemma PopFactsHold(q: Queue, spurious: bool)
    requires Inv(q) && 0 < |q.threads| && Pops(q.threads[0])
    ensures PopFacts(q, Step(q, 0, Go(spurious)))
  {
    StepInv(q, 0, Go(spurious));
    PopFrameHolds(q, spurious);
    PopLogHolds(q, spurious);
  }

  // ------------------------------------------------------------------- the invariant

  /** The dummy node came first, and no producer made it. */
  ghost predicate Rooted(m: Mem<Update>) {
    |m.log.chain| > 0 && m.log.chain[0] == 0 && |m.log.makers| > 0 && m.log.makers[0] == 0
  }

  /** Node `n` was made by thread `t` for `u`. */
  ghost predicate NodeIs(m: Mem<Update>, n: Id, t: nat, u: Update) {
    n < |m.nodes| == |m.log.makers| && m.log.makers[n] == t && m.nodes[n].data == Some(u)
  }

  ghost predicate NotAnswered(answers: seq<Answer>, n: Id) {
    forall i :: 0 <= i < |answers| && answers[i].Accepted? ==> answers[i].node != n
  }

  /** A producer is in the queue's push exactly while its call is pushing, with a node of its own. */
  ghost predicate CallOk(q: Queue, t: nat, call: Call, answers: seq<Answer>)
    requires t < |q.threads|
  {
    if call.InPush?
    then Pushing(q.threads[t]) && NodeIs(q.mem, q.threads[t].node, t, call.update) && NotAnswered(answers, q.threads[t].node)
    else q.threads[t].Idle?
  }

  ghost predicate CallsOk(q: Queue, calls: seq<Call>, answers: seq<Answer>) {
    && 0 < |calls| == |q.threads| && calls[0].NoCall?
    && (forall t :: 0 < t < |calls| ==> CallOk(q, t, calls[t], answers))
  }

  /** An accepted update is where its answer says, in link order. */
  ghost predicate AnswerOk(m: Mem<Update>, a: Answer) {
    a.Accepted? ==>
      && a.node in m.log.rank && m.log.rank[a.node] == a.place + 1
      && a.place < |m.log.linked| && m.log.linked[a.place].value == a.update
  }

  ghost predicate AnswersOk(m: Mem<Update>, answers: seq<Answer>) {
    && (forall i :: 0 <= i < |answers| ==> AnswerOk(m, answers[i]))
    && (forall i, j :: 0 <= i < j < |answers| && answers[i].Accepted? && answers[j].Accepted? ==> answers[i].node != answers[j].node)
  }

  /** What the writer has in hand: popped and not written. */
  function InHand(w: Writer, pc: Pc<Update>): seq<Update> {
    if w.Writing? then [w.update] else if w.Popping? then Taken(pc) else []
  }

  predicate InLastLoop(w: Writer) {
    w.Done? || ((w.Popping? || w.Writing?) && w.last)
  }

  /** The writer's view: what it popped it has written or has in hand, and it pops only inside `pop`. */
  ghost predicate WriterOk(q: Queue, w: Writer, done: seq<Update>) {
    && 0 < |q.threads|
    && (if w.Popping? then Pops(q.threads[0]) else q.threads[0].Idle?)
    && Values(q.mem.log.popped) == done + InHand(w, q.threads[0])
  }

  /** What `stop` found stays true; if every call was settled then, nothing is linked until `start`. */
  ghost predicate StopOk(s: Session) {
    && (s.recording <==> s.stop.None?) && (InLastLoop(s.writer) ==> !s.recording)
    && (s.stop.Some? ==>
          var mark := s.stop.value;
          && mark.linked <= |s.queue.mem.log.linked| && mark.answered <= |s.answers|
          && (forall i :: 0 <= i < mark.answered && s.answers[i].Accepted? ==> s.answers[i].place < mark.linked)
          && (mark.settled ==> AllSettled(s.queue, s.calls) && |s.queue.mem.log.linked| == mark.linked))
  }

  /** The writer has found the queue empty in its last loop, or is about to report that. */
  predicate SeesEmpty(w: Writer, pc: Pc<Update>) {
    w.Done? || (w.Popping? && w.last && SawNull(pc))
  }

  ghost predicate EmptyOk(s: Session)
    requires |s.queue.threads| > 0
  {
    SeesEmpty(s.writer, s.queue.threads[0]) ==>
      s.emptiedAt == Some(|s.queue.mem.log.popped|) && (s.stop.Some? ==> s.stop.value.linked <= |s.queue.mem.log.popped|)
  }

  ghost predicate SessionInv(s: Session) {
    && Shape(s.queue.mem) && Rooted(s.queue.mem)
    && CallsOk(s.queue, s.calls, s.answers) && AnswersOk(s.queue.mem, s.answers)
    && WriterOk(s.queue, s.writer, s.overwritten + s.written) && StopOk(s) && EmptyOk(s)
    && FileOf(s.file, s.written) && s.total == |s.written|
  }

  lemma RootedGrows(m: Mem<Update>, m': Mem<Update>)
    requires Rooted(m) && Grows(m, m')
    ensures Rooted(m')
  {
  }

  lemma AnswersGrow(m: Mem<Update>, m': Mem<Update>, answers: seq<Answer>)
    requires AnswersOk(m, answers) && Grows(m, m') && m.log.linked <= m'.log.linked
    ensures AnswersOk(m', answers)
  {
    forall i | 0 <= i < |answers| ensures AnswerOk(m', answers[i]) {
      assert AnswerOk(m, answers[i]);
    }
  }

  lemma CallGrows(q: Queue, q': Queue, t: nat, call: Call, answers: seq<Answer>)
    requires t < |q.threads| == |q'.threads| && CallOk(q, t, call, answers) && Grows(q.mem, q'.mem)
    requires q'.threads[t] == q.threads[t]
    ensures CallOk(q', t, call, answers)
  {
  }

  lemma CallsGrow(q: Queue, q': Queue, calls: seq<Call>, answers: seq<Answer>)
    requires CallsOk(q, calls, answers) && Grows(q.mem, q'.mem) && |q'.threads| == |q.threads|
    requires forall t :: 0 < t < |q.threads| ==> q'.threads[t] == q.threads[t]
    ensures CallsOk(q', calls, answers)
  {
    forall t | 0 < t < |calls| ensures CallOk(q', t, calls[t], answers) {
      CallGrows(q, q', t, calls[t], answers);
    }
  }

  // --------------------------------------------------------------- the writer keeps it

  lemma PopKeepsWriter(s: Session, q: Queue)
    requires s.writer.Popping? && WriterOk(s.queue, s.writer, s.overwritten + s.written) && PopFacts(s.queue, q)
    ensures var s' := Popped(s, q, s.writer.last); WriterOk(s'.queue, s'.writer, s'.overwritten + s'.written)
  {
    var done, pc, pc' := s.overwritten + s.written, s.queue.threads[0], q.threads[0];
    if Took(pc) {
      assert Taken(pc) == [pc.data.value];
      assert Values(q.mem.log.popped) == done + [pc.data.value];
    } else {
      assert Values(q.mem.log.popped) == done + Taken(pc');
    }
  }

  lemma SettledAsWell(q: Queue, q': Queue, calls: seq<Call>)
    requires 0 < |calls| == |q.threads| == |q'.threads| && calls[0].NoCall? && Grows(q.mem, q'.mem) && AllSettled(q, calls)
    requires forall t :: 0 < t < |q.threads| ==> q'.threads[t] == q.threads[t]
    ensures AllSettled(q', calls)
  {
    forall u | 0 <= u < |calls| ensures Settled(q', u, calls[u]) {
      assert Settled(q, u, calls[u]);
    }
  }

  lemma PopKeepsStop(s: Session, q: Queue)
    requires s.writer.Popping? && StopOk(s) && PopFacts(s.queue, q) && CallsOk(s.queue, s.calls, s.answers)
    ensures StopOk(Popped(s, q, s.writer.last))
  {
    if s.stop.Some? && s.stop.value.settled { SettledAsWell(s.queue, q, s.calls); }
  }

  lemma PopKeepsEmpty(s: Session, q: Queue)
    requires s.writer.Popping? && WriterOk(s.queue, s.writer, s.overwritten + s.written) && StopOk(s) && EmptyOk(s) && PopFacts(s.queue, q)
    ensures EmptyOk(Popped(s, q, s.writer.last))
  {
    assert |Values(q.mem.log.popped)| == |q.mem.log.popped| && |Values(s.queue.mem.log.popped)| == |s.queue.mem.log.popped|;
  }

  lemma PopKeepsInv(s: Session, q: Queue)
    requires SessionInv(s) && s.writer.Popping? && PopFacts(s.queue, q)
    ensures SessionInv(Popped(s, q, s.writer.last))
  {
    RootedGrows(s.queue.mem, q.mem);
    CallsGrow(s.queue, q, s.calls, s.answers);
    AnswersGrow(s.queue.mem, q.mem, s.answers);
    PopKeepsWriter(s, q);
    PopKeepsStop(s, q);
    PopKeepsEmpty(s, q);
  }

  lemma StartPopKeeps(s: Session, last: bool)
    requires SessionInv(s) && s.writer.Test? && last == !s.recording
    ensures SessionInv(StartPop(s, last))
  {
    var q := Step(s.queue, 0, Event.Pop);
    assert q == s.queue.(threads := s.queue.threads[0 := PopLoadHead]);
    GrowsRefl(s.queue.mem);
    CallsGrow(s.queue, q, s.calls, s.answers);
    if s.stop.Some? && s.stop.value.settled { SettledAsWell(s.queue, q, s.calls); }
  }

  lemma WriteKeepsInv(s: Session, u: Update)
    requires SessionInv(s) && s.writer.Writing? && s.writer.update == u
    ensures SessionInv(WriteOnce(s, u).(writer := Test))
  {
    FileGrows(s.file, s.written, u);
    assert s.overwritten + s.written + [u] == s.overwritten + (s.written + [u]) + [];
  }

  lemma LastWriteKeepsInv(s: Session, u: Update)
    requires SessionInv(s) && s.writer == Writing(u, true)
    ensures SessionInv(StartPop(WriteOnce(s, u), true))
  {
    WriteKeepsInv(s, u);
    StartPopKeeps(WriteOnce(s, u).(writer := Test), true);
  }

  lemma WriterKeepsInv(s: Session, spurious: bool)
    requires Inv(s.queue) && SessionInv(s)
    ensures SessionInv(WriterNext(s, spurious))
  {
    match s.writer
    case Test => StartPopKeeps(s, !s.recording);
    case Popping(last) =>
      PopFactsHold(s.queue, spurious);
      PopKeepsInv(s, Step(s.queue, 0, Go(spurious)));
    case Writing(u, last) => if last { LastWriteKeepsInv(s, u); } else { WriteKeepsInv(s, u); }
    case Done =>
  }

  // --------------------------------------------------------------- producers keep it

  /** What a producer's step leaves alone: the writer's side, and the calls of all others. */
  ghost predicate ProducerMoves(s: Session, s': Session, t: nat) {
    && PushFacts(s.queue, s'.queue, t) && |s'.calls| == |s.calls| == |s.queue.threads| && s'.calls == s.calls[t := s'.calls[t]]
    && s' == s.(queue := s'.queue, calls := s'.calls, answers := s'.answers)
    && s.answers <= s'.answers
  }

  lemma ProducerKeepsCalls(s: Session, s': Session, t: nat)
    requires ProducerMoves(s, s', t) && CallsOk(s.queue, s.calls, s.answers)
    requires CallOk(s'.queue, t, s'.calls[t], s'.answers)
    requires forall u :: 0 < u < |s.calls| && u != t && s.calls[u].InPush? ==> NotAnswered(s'.answers, s.queue.threads[u].node)
    ensures CallsOk(s'.queue, s'.calls, s'.answers)
  {
    forall u | 0 < u < |s'.calls| ensures CallOk(s'.queue, u, s'.calls[u], s'.answers) {
      if u != t {
        assert CallOk(s.queue, u, s.calls[u], s.answers);
        CallGrows(s.queue, s'.queue, u, s.calls[u], s.answers);
      }
    }
  }

  /** A linked value stays linked; the call of the thread that moves is settled if it was. */
  ghost predicate StaysSettled(s: Session, s': Session, t: nat)
    requires t < |s.calls| == |s'.calls|
  {
    Settled(s.queue, t, s.calls[t]) ==> Settled(s'.queue, t, s'.calls[t])
  }

  lemma SettledGrows(s: Session, s': Session, t: nat)
    requires ProducerMoves(s, s', t) && AllSettled(s.queue, s.calls) && StaysSettled(s, s', t)
    ensures AllSettled(s'.queue, s'.calls)
  {
    forall u | 0 <= u < |s'.calls| ensures Settled(s'.queue, u, s'.calls[u]) {
      assert Settled(s.queue, u, s.calls[u]);
    }
  }

  lemma ProducerKeepsStop(s: Session, s': Session, t: nat)
    requires ProducerMoves(s, s', t) && StopOk(s) && !s.calls[t].NoCall? && StaysSettled(s, s', t)
    ensures StopOk(s')
  {
    if s.stop.Some? && s.stop.value.settled {
      assert Settled(s.queue, t, s.calls[t]);
      SettledGrows(s, s', t);
    }
  }

  lemma ProducerKeepsInv(s: Session, s': Session, t: nat)
    requires SessionInv(s) && ProducerMoves(s, s', t) && !s.calls[t].NoCall? && StaysSettled(s, s', t)
    requires CallsOk(s'.queue, s'.calls, s'.answers) && AnswersOk(s'.queue.mem, s'.answers)
    ensures SessionInv(s')
  {
    RootedGrows(s.queue.mem, s'.queue.mem);
    ProducerKeepsStop(s, s', t);
  }

  /** The push begins with a fresh node. */
  ghost predicate PushBegins(q: Queue, q': Queue, t: nat, u: Update) {
    && PushFacts(q, q', t) && Pushing(q'.threads[t]) && q'.threads[t].node == |q.mem.nodes|
    && NodeIs(q'.mem, q'.threads[t].node, t, u) && q'.threads[t].node !in q'.mem.log.rank
  }

  lemma PushBeginsHolds(q: Queue, t: nat, u: Update)
    requires Inv(q) && 0 < t < |q.threads| && q.threads[t].Idle?
    ensures PushBegins(q, Step(q, t, Event.Push(u)), t, u)
  {
    PushFactsHold(q, t, Event.Push(u));
  }

  lemma BeginPushKeeps(s: Session, t: nat)
    requires Inv(s.queue) && SessionInv(s) && IsProducer(s, t) && s.calls[t].Checked?
    ensures SessionInv(Act(s, BeginPush(t)))
  {
    assert CallOk(s.queue, t, s.calls[t], s.answers);
    PushBeginsHolds(s.queue, t, s.calls[t].update);
    BegunKeeps(s, t, Step(s.queue, t, Event.Push(s.calls[t].update)));
  }

  lemma BegunKeeps(s: Session, t: nat, q: Queue)
    requires SessionInv(s) && IsProducer(s, t) && s.calls[t].Checked? && PushBegins(s.queue, q, t, s.calls[t].update)
    ensures SessionInv(s.(calls := s.calls[t := InPush(s.calls[t].update)], queue := q))
  {
    var s' := s.(calls := s.calls[t := InPush(s.calls[t].update)], queue := q);
    AnswersGrow(s.queue.mem, q.mem, s.answers);
    FreshNode(s.queue.mem, s.answers, |s.queue.mem.nodes|);
    assert CallOk(q, t, s'.calls[t], s'.answers);
    OthersNotAnswered(s);
    ProducerKeepsCalls(s, s', t);
    ProducerKeepsInv(s, s', t);
  }

  lemma FreshNode(m: Mem<Update>, answers: seq<Answer>, n: Id)
    requires Shape(m) && AnswersOk(m, answers) && n >= |m.nodes|
    ensures NotAnswered(answers, n)
  {
    forall i | 0 <= i < |answers| && answers[i].Accepted? ensures answers[i].node != n {
      assert AnswerOk(m, answers[i]);
    }
  }

  lemma OthersNotAnswered(s: Session)
    requires CallsOk(s.queue, s.calls, s.answers)
    ensures forall u :: 0 < u < |s.calls| && s.calls[u].InPush? ==> NotAnswered(s.answers, s.queue.threads[u].node)
  {
    forall u | 0 < u < |s.calls| && s.calls[u].InPush? ensures NotAnswered(s.answers, s.queue.threads[u].node) {
      assert CallOk(s.queue, u, s.calls[u], s.answers);
    }
  }

  /** A step inside the push, before it returns. */
  lemma PushStepKeeps(s: Session, t: nat, q: Queue)
    requires SessionInv(s) && IsProducer(s, t) && s.calls[t].InPush? && !s.queue.threads[t].PushCount?
    requires PushFacts(s.queue, q, t) && Pushing(q.threads[t]) && q.threads[t].node == s.queue.threads[t].node
    ensures SessionInv(Pushed(s, t, s.calls[t].update, q))
  {
    var s' := Pushed(s, t, s.calls[t].update, q);
    assert CallOk(s.queue, t, s.calls[t], s.answers);
    AnswersGrow(s.queue.mem, q.mem, s.answers);
    assert CallOk(q, t, s'.calls[t], s'.answers);
    OthersNotAnswered(s);
    ProducerKeepsCalls(s, s', t);
    ProducerKeepsInv(s, s', t);
  }

  /** A linked node of a producer is where `PlaceOf` says, with the producer's value. */
  lemma PlaceIsRight(m: Mem<Update>, n: Id, t: nat, u: Update)
    requires Shape(m) && Rooted(m) && NodeIs(m, n, t, u) && t > 0 && n in m.log.rank
    ensures m.log.rank[n] == PlaceOf(m, n) + 1 && PlaceOf(m, n) < |m.log.linked| && m.log.linked[PlaceOf(m, n)].value == u
  {
    assert m.log.chain[m.log.rank[n]] == n;
    assert m.nodes[n].data == Some(u);
  }

  lemma AcceptedOk(m: Mem<Update>, answers: seq<Answer>, a: Answer)
    requires AnswersOk(m, answers) && a.Accepted? && AnswerOk(m, a) && NotAnswered(answers, a.node)
    ensures AnswersOk(m, answers + [a])
  {
  }

  /** Other producers push other nodes. */
  lemma OtherNodes(s: Session, t: nat, a: Answer)
    requires CallsOk(s.queue, s.calls, s.answers) && a.Accepted? && t < |s.queue.threads|
    requires a.node < |s.queue.mem.log.makers| && s.queue.mem.log.makers[a.node] == t
    ensures forall v :: 0 < v < |s.calls| && v != t && s.calls[v].InPush? ==> NotAnswered(s.answers + [a], s.queue.threads[v].node)
  {
    forall v | 0 < v < |s.calls| && v != t && s.calls[v].InPush? ensures NotAnswered(s.answers + [a], s.queue.threads[v].node) {
      assert CallOk(s.queue, v, s.calls[v], s.answers);
    }
  }

  /** The step with which the push returns and `record` answers. */
  lemma AnswerKeeps(s: Session, t: nat, q: Queue)
    requires SessionInv(s) && IsProducer(s, t) && s.calls[t].InPush? && s.queue.threads[t].PushCount?
    requires s.queue.threads[t].node in s.queue.mem.log.rank && PushFacts(s.queue, q, t) && q.threads[t].Idle?
    ensures SessionInv(Pushed(s, t, s.calls[t].update, q))
  {
    var s' := Pushed(s, t, s.calls[t].update, q);
    var n, u, m := s.queue.threads[t].node, s.calls[t].update, s.queue.mem;
    var a := Accepted(t, u, n, PlaceOf(m, n));
    assert CallOk(s.queue, t, s.calls[t], s.answers);
    PlaceIsRight(m, n, t, u);
    AcceptedOk(m, s.answers, a);
    AnswersGrow(m, q.mem, s.answers + [a]);
    OtherNodes(s, t, a);
    ProducerKeepsCalls(s, s', t);
    ProducerKeepsInv(s, s', t);
  }

  /** All that matters about a producer's next step: the queue moves, and the push goes on or returns. */
  ghost predicate PushMoves(q: Queue, q': Queue, t: nat) {
    && PushFacts(q, q', t) && Pushing(q.threads[t])
    && (if q.threads[t].PushCount? then q'.threads[t].Idle? && q.threads[t].node in q.mem.log.rank
        else Pushing(q'.threads[t]) && q'.threads[t].node == q.threads[t].node)
  }

  lemma PushMovesHold(q: Queue, t: nat, spurious: bool)
    requires Inv(q) && 0 < t < |q.threads| && Pushing(q.threads[t])
    ensures PushMoves(q, Step(q, t, Go(spurious)), t)
  {
    assert ThreadOk(q.mem, t, q.threads[t]);
    PushFactsHold(q, t, Go(spurious));
    QueueHistory.PushKeepsNode(q, t, spurious);
  }

  lemma PushedKeeps(s: Session, t: nat, q: Queue)
    requires SessionInv(s) && IsProducer(s, t) && s.calls[t].InPush? && PushMoves(s.queue, q, t)
    ensures SessionInv(Pushed(s, t, s.calls[t].update, q))
  {
    if s.queue.threads[t].PushCount? { AnswerKeeps(s, t, q); } else { PushStepKeeps(s, t, q); }
  }

  lemma PushKeeps(s: Session, t: nat, spurious: bool)
    requires Inv(s.queue) && SessionInv(s) && IsProducer(s, t) && s.calls[t].InPush?
    ensures SessionInv(Act(s, Action.PushStep(t, spurious)))
  {
    assert CallOk(s.queue, t, s.calls[t], s.answers);
    PushMovesHold(s.queue, t, spurious);
    PushedKeeps(s, t, Step(s.queue, t, Go(spurious)));
  }

  // ----------------------------------------------------------------- every action keeps it

  lemma CheckedKeeps(s: Session, t: nat, u: Update)
    requires SessionInv(s) && IsProducer(s, t) && s.calls[t].NoCall? && s.recording
    ensures SessionInv(s.(calls := s.calls[t := Checked(u)]))
  {
    var calls := s.calls[t := Checked(u)];
    forall v | 0 < v < |calls| ensures CallOk(s.queue, v, calls[v], s.answers) {
      assert CallOk(s.queue, v, s.calls[v], s.answers);
    }
  }

  lemma RefusedOk(q: Queue, calls: seq<Call>, answers: seq<Answer>, a: Answer)
    requires CallsOk(q, calls, answers) && AnswersOk(q.mem, answers) && a.Refused?
    ensures CallsOk(q, calls, answers + [a]) && AnswersOk(q.mem, answers + [a])
  {
    forall v | 0 < v < |calls| ensures CallOk(q, v, calls[v], answers + [a]) {
      assert CallOk(q, v, calls[v], answers);
    }
    forall i | 0 <= i < |answers + [a]| ensures AnswerOk(q.mem, (answers + [a])[i]) {
      assert i < |answers| ==> AnswerOk(q.mem, answers[i]);
    }
  }

  lemma RecordKeeps(s: Session, t: nat, u: Update)
    requires SessionInv(s)
    ensures SessionInv(Act(s, Action.Record(t, u)))
  {
    if IsProducer(s, t) && s.calls[t].NoCall? {
      if s.recording { CheckedKeeps(s, t, u); } else { RefusedOk(s.queue, s.calls, s.answers, Refused(t, u)); }
    }
  }

  lemma StopKeeps(s: Session)
    requires SessionInv(s)
    ensures SessionInv(Act(s, Stop))
  {
    forall i | 0 <= i < |s.answers| && s.answers[i].Accepted? ensures s.answers[i].place < |s.queue.mem.log.linked| {
      assert AnswerOk(s.queue.mem, s.answers[i]);
    }
  }

  lemma StartKeeps(s: Session)
    requires SessionInv(s)
    ensures SessionInv(Act(s, Start))
  {
    assert Header(BINARY) + WriteAll([]) == Header(BINARY);
    assert s.overwritten + s.written + [] == s.overwritten + s.written;
  }

  /** A step of the queue: which thread, and what it does. */
  datatype Move = Stay | Move(thread: nat, event: Event<Update>)

  function MoveOf(s: Session, a: Action): Move {
    match a
    case WriterStep(spurious) =>
      if s.writer.Test? || (s.writer.Writing? && s.writer.last) then Move(0, Event.Pop)
      else if s.writer.Popping? then Move(0, Go(spurious)) else Stay
    case BeginPush(t) => if IsProducer(s, t) && s.calls[t].Checked? then Move(t, Event.Push(s.calls[t].update)) else Stay
    case PushStep(t, spurious) => if IsProducer(s, t) && s.calls[t].InPush? then Move(t, Go(spurious)) else Stay
    case _ => Stay
  }

  /** Every action leaves the queue alone or is a step of it. */
  lemma ActMoves(s: Session, a: Action)
    requires 0 < |s.queue.threads|
    ensures match MoveOf(s, a)
            case Stay => Act(s, a).queue == s.queue
            case Move(t, e) => t < |s.queue.threads| && Act(s, a).queue == Step(s.queue, t, e)
  {
  }

  lemma ActKeepsQueue(s: Session, a: Action)
    requires Inv(s.queue) && 0 < |s.queue.threads|
    ensures Inv(Act(s, a).queue)
  {
    ActMoves(s, a);
    match MoveOf(s, a)
    case Stay =>
    case Move(t, e) => StepInv(s.queue, t, e);
  }

  /** Every step of producers, writer, `stop` and `start` keeps the session invariant. */
  lemma ActKeepsInv(s: Session, a: Action)
    requires Inv(s.queue) && SessionInv(s)
    ensures SessionInv(Act(s, a))
  {
    match a
    case WriterStep(spurious) => WriterKeepsInv(s, spurious);
    case Record(t, u) => RecordKeeps(s, t, u);
    case BeginPush(t) => if IsProducer(s, t) && s.calls[t].Checked? { BeginPushKeeps(s, t); }
    case PushStep(t, spurious) =>
      if IsProducer(s, t) && s.calls[t].InPush? { PushKeeps(s, t, spurious); }
    case Stop => StopKeeps(s);
    case Start => StartKeeps(s);
  }

  // ---------------------------------------------------------------------- whole sessions

  /** `run` is a session of the writer and `n - 1` producers, one action per step. */
  ghost predicate IsSession(run: seq<Session>, actions: seq<Action>, n: nat) {
    && n > 0 && |run| == |actions| + 1 && run[0] == Open(n)
    && (forall i :: 0 <= i < |run| ==> |run[i].queue.threads| == n)
    && (forall i {:trigger actions[i]} :: 0 <= i < |actions| ==> run[i + 1] == Act(run[i], actions[i]))
  }

  /** Whether a `start` took effect between steps `k` and `j`. */
  ghost predicate StartedBetween(run: seq<Session>, actions: seq<Action>, k: nat, j: nat)
    requires |run| == |actions| + 1 && j < |run|
  {
    exists x {:trigger actions[x]} :: k <= x < j && Starts(run[x], actions[x])
  }

  lemma OpenShape(n: nat)
    ensures Shape(LockFreeQueue.Init<Update>(n).mem)
  {
    InitInv<Update>(n);
  }

  lemma OpenInv(n: nat)
    requires n > 0
    ensures SessionInv(Open(n))
  {
    OpenShape(n);
    assert Header(BINARY) + WriteAll([]) == Header(BINARY);
  }

  lemma {:induction false} QueueRunInv(run: seq<Session>, actions: seq<Action>, n: nat, k: nat)
    requires IsSession(run, actions, n) && k < |run|
    ensures Inv(run[k].queue)
  {
    if k == 0 {
      InitInv<Update>(n);
    } else {
      QueueRunInv(run, actions, n, k - 1);
      ActKeepsQueue(run[k - 1], actions[k - 1]);
    }
  }

  lemma NextKeepsInv(s: Session, a: Action, s': Session)
    requires Inv(s.queue) && SessionInv(s) && s' == Act(s, a)
    ensures SessionInv(s')
  {
    ActKeepsInv(s, a);
  }

  lemma NextInRun(run: seq<Session>, actions: seq<Action>, n: nat, k: nat)
    requires IsSession(run, actions, n) && 0 < k < |run|
    ensures Inv(run[k - 1].queue) && run[k] == Act(run[k - 1], actions[k - 1])
  {
    QueueRunInv(run, actions, n, k - 1);
  }

  ghost predicate InvAt(run: seq<Session>, actions: seq<Action>, n: nat, k: nat) {
    IsSession(run, actions, n) && k < |run| && SessionInv(run[k])
  }

  lemma InvAtStart(run: seq<Session>, actions: seq<Action>, n: nat)
    requires IsSession(run, actions, n)
    ensures InvAt(run, actions, n, 0)
  {
    OpenInv(n);
  }

  lemma InvNext(run: seq<Session>, actions: seq<Action>, n: nat, k: nat)
    requires k > 0 && InvAt(run, actions, n, k - 1) && k < |run|
    ensures InvAt(run, actions, n, k)
  {
    NextInRun(run, actions, n, k);
    NextKeepsInv(run[k - 1], actions[k - 1], run[k]);
  }

  lemma {:induction false} InvThroughout(run: seq<Session>, actions: seq<Action>, n: nat, k: nat)
    requires IsSession(run, actions, n) && k < |run|
    ensures InvAt(run, actions, n, k)
  {
    if k == 0 {
      InvAtStart(run, actions, n);
    } else {
      InvThroughout(run, actions, n, k - 1);
      InvNext(run, actions, n, k);
    }
  }

  /** The session invariant holds in every state of every interleaving. */
  lemma SessionRunInv(run: seq<Session>, actions: seq<Action>, n: nat, k: nat)
    requires IsSession(run, actions, n) && k < |run|
    ensures SessionInv(run[k])
  {
    InvThroughout(run, actions, n, k);
  }

  /** All values ever pushed, in link order. */
  function AllPushed(s: Session): seq<Update> {
    Values(s.queue.mem.log.linked)
  }

  /** The value at this place of link order is in the file that is on disk now. */
  predicate InFile(s: Session, place: nat) {
    |s.overwritten| <= place < |s.overwritten| + |s.written|
  }

  /** When the writer is done, the file holds exactly the values linked after those of the earlier
      recordings and before the last loop found the queue empty, in link order and once each: all
      that were linked when `stop` came, and all there are if every call in progress then was settled. */
  ghost predicate ExactAtEnd(s: Session) {
    && s.stop.Some? && s.emptiedAt.Some? && s.stop.value.linked <= s.emptiedAt.value <= |AllPushed(s)|
    && |s.overwritten| <= s.emptiedAt.value && s.total == |s.written|
    && s.written == AllPushed(s)[|s.overwritten|..s.emptiedAt.value]
    && (s.stop.value.settled ==> s.written == AllPushed(s)[|s.overwritten|..])
  }

  lemma DoneIsExact(s: Session)
    requires SessionInv(s) && s.writer.Done?
    ensures ExactAtEnd(s)
  {
    Fifo(s.queue.mem);
    var done := s.overwritten + s.written;
    assert done + [] == done && done[|s.overwritten|..] == s.written;
    assert done == AllPushed(s)[..s.emptiedAt.value];
  }

  /** Opening and replaying the file delivers what was written, in order, if it fits the format. */
  lemma RecordedIsReplayed(run: seq<Session>, actions: seq<Action>, n: nat, k: nat)
    requires IsSession(run, actions, n) && k < |run| && run[k].writer.Done?
    ensures var s := run[k];
            && ExactAtEnd(s) && ReadHeader(s.file, BINARY) == Opened(BINARY, WriteAll(s.written))
            && ((forall u :: u in s.written ==> Fits(u)) ==>
                  Replay(WriteAll(s.written)) == Replayed(ClearedAll(s.written), true))
  {
    SessionRunInv(run, actions, n, k);
    var s := run[k];
    DoneIsExact(s);
    HeaderBack(BINARY, WriteAll(s.written));
    StreamRoundTrip(s.written);
  }

  /** An accepted update has its own place in link order, and is in the file exactly when that place is
      behind the earlier recordings and before the point where the last loop found the queue empty. */
  lemma AnswerInFile(run: seq<Session>, actions: seq<Action>, n: nat, k: nat, i: nat, j: nat)
    requires IsSession(run, actions, n) && k < |run| && run[k].writer.Done?
    requires i < |run[k].answers| && j < |run[k].answers| && run[k].answers[i].Accepted? && run[k].answers[j].Accepted?
    ensures var s := run[k]; var a := s.answers[i];
            && ExactAtEnd(s) && a.place < |AllPushed(s)| && AllPushed(s)[a.place] == a.update
            && (InFile(s, a.place) <==> |s.overwritten| <= a.place < s.emptiedAt.value)
            && (InFile(s, a.place) ==> s.written[a.place - |s.overwritten|] == a.update)
            && (i < s.stop.value.answered ==> a.place < s.stop.value.linked)
            && (i != j ==> a.place != s.answers[j].place)
  {
    SessionRunInv(run, actions, n, k);
    var s := run[k];
    DoneIsExact(s);
    PlacesDiffer(s.queue.mem, s.answers, i, j);
  }

  lemma PlacesDiffer(m: Mem<Update>, answers: seq<Answer>, i: nat, j: nat)
    requires Shape(m) && AnswersOk(m, answers) && i < |answers| && j < |answers| && answers[i].Accepted? && answers[j].Accepted?
    ensures AnswerOk(m, answers[i]) && AnswerOk(m, answers[j]) && (i != j ==> answers[i].place != answers[j].place)
  {
    assert AnswerOk(m, answers[i]) && AnswerOk(m, answers[j]);
    assert m.log.chain[m.log.rank[answers[i].node]] == answers[i].node;
    assert m.log.chain[m.log.rank[answers[j].node]] == answers[j].node;
  }

  lemma StartedSplit(run: seq<Session>, actions: seq<Action>, k: nat, j: nat)
    requires |run| == |actions| + 1 && k < j < |run|
    ensures StartedBetween(run, actions, k, j) <==> StartedBetween(run, actions, k, j - 1) || Starts(run[j - 1], actions[j - 1])
  {
  }

  /** The mark of `stop` and the answers given stay until the next `start`. */
  lemma {:induction false} MarkStays(run: seq<Session>, actions: seq<Action>, n: nat, j: nat, k: nat)
    requires IsSession(run, actions, n) && j <= k < |run| && !run[j].recording && run[j].stop.Some?
    requires !StartedBetween(run, actions, j, k)
    ensures run[k].stop == run[j].stop && !run[k].recording && run[j].answers <= run[k].answers
  {
    if j < k {
      StartedSplit(run, actions, j, k);
      MarkStays(run, actions, n, j, k - 1);
      MarkStaysOnce(run[k - 1], actions[k - 1]);
    }
  }

  lemma MarkStaysOnce(s: Session, a: Action)
    requires |s.queue.threads| > 0 && !s.recording && !Starts(s, a)
    ensures Act(s, a).stop == s.stop && !Act(s, a).recording && s.answers <= Act(s, a).answers
  {
  }

  /** A `record` call that answered true before `stop` was written by the time the writer is done: it
      is answer `i` at step `j`, where `stop` comes, and the writer is done at step `k`.  It is in the
      file exactly if an earlier recording had not written it. */
  lemma AcceptedBeforeStopIsRecorded(run: seq<Session>, actions: seq<Action>, n: nat, i: nat, j: nat, k: nat)
    requires IsSession(run, actions, n) && j < k < |run| && actions[j].Stop? && run[j].recording && run[k].writer.Done?
    requires !StartedBetween(run, actions, j + 1, k)
    requires i < |run[j].answers| && run[j].answers[i].Accepted?
    ensures var s := run[k]; var a := run[j].answers[i];
            && a.place < |s.overwritten| + |s.written| && (InFile(s, a.place) <==> |s.overwritten| <= a.place)
            && (InFile(s, a.place) ==> s.written[a.place - |s.overwritten|] == a.update)
  {
    assert run[j + 1] == Act(run[j], actions[j]);
    MarkStays(run, actions, n, j + 1, k);
    assert run[k].answers[i] == run[j].answers[i];
    AnswerInFile(run, actions, n, k, i, i);
  }

  /** Once the writer is done nothing more is written to the file, whoever goes on pushing. */
  lemma {:induction false} DoneIsFinal(run: seq<Session>, actions: seq<Action>, n: nat, k: nat, j: nat)
    requires IsSession(run, actions, n) && k <= j < |run| && run[k].writer.Done?
    requires !StartedBetween(run, actions, k, j)
    ensures run[j].writer.Done? && run[j].file == run[k].file && run[j].written == run[k].written && run[j].overwritten == run[k].overwritten
  {
    if k < j {
      StartedSplit(run, actions, k, j);
      DoneIsFinal(run, actions, n, k, j - 1);
      DoneStays(run[j - 1], actions[j - 1]);
    }
  }

  lemma DoneStays(s: Session, a: Action)
    requires |s.queue.threads| > 0 && s.writer.Done? && !Starts(s, a)
    ensures Act(s, a).writer.Done? && Act(s, a).file == s.file && Act(s, a).written == s.written && Act(s, a).overwritten == s.overwritten
  {
  }

  // ----------------------------------------- what can happen to a call that is not settled

  function Last(run: seq<Session>): Session
    requires run != []
  {
    run[|run| - 1]
  }

  /** The session goes on, without another recording. */
  ghost predicate Continues(run: seq<Session>, actions: seq<Action>, run': seq<Session>, actions': seq<Action>) {
    && run <= run' && actions <= actions' && |run'| == |actions'| + 1
    && !StartedBetween(run', actions', |actions|, |actions'|)
  }

  lemma ContinuesOn(run: seq<Session>, actions: seq<Action>, run1: seq<Session>, actions1: seq<Action>, run2: seq<Session>, actions2: seq<Action>)
    requires Continues(run, actions, run1, actions1) && Continues(run1, actions1, run2, actions2)
    ensures Continues(run, actions, run2, actions2)
  {
    assert forall x :: 0 <= x < |actions1| ==> run2[x] == run1[x] && actions2[x] == actions1[x];
  }

  lemma Extend(run: seq<Session>, actions: seq<Action>, n: nat, a: Action) returns (run': seq<Session>, actions': seq<Action>)
    requires IsSession(run, actions, n) && !Starts(Last(run), a) && |Act(Last(run), a).queue.threads| == n
    ensures IsSession(run', actions', n) && Continues(run, actions, run', actions') && Last(run') == Act(Last(run), a)
    ensures actions' == actions + [a]
  {
    run', actions' := run + [Act(Last(run), a)], actions + [a];
  }

  /** Only the writer moved: calls, answers, and what is linked are as before. */
  ghost predicate WriterOnly(s: Session, s': Session) {
    && s'.calls == s.calls && s'.answers == s.answers && s'.stop == s.stop && s'.overwritten == s.overwritten && s'.recording == s.recording
    && |s'.queue.threads| == |s.queue.threads| && (forall t :: 0 < t < |s.queue.threads| ==> s'.queue.threads[t] == s.queue.threads[t])
    && |s'.queue.mem.log.linked| == |s.queue.mem.log.linked| && s.queue.mem.log.chain <= s'.queue.mem.log.chain
  }

  /** How much the writer has left to do alone: loops, then values, then steps. */
  function WriterStage(s: Session): nat
    requires |s.queue.threads| > 0
  {
    match s.writer
    case Test => 0
    case Popping(_) =>
      var pc := s.queue.threads[0];
      if Took(pc) then 1000 + PopMeasure(s.queue.mem, pc) else 1 + PopMeasure(s.queue.mem, pc)
    case Writing(_, _) => 500
    case Done => 0
  }

  function Remaining(s: Session): nat {
    if |s.queue.mem.log.popped| <= |s.queue.mem.log.linked| then |s.queue.mem.log.linked| - |s.queue.mem.log.popped| else 0
  }

  ghost predicate WriterCloser(s: Session, s': Session)
    requires |s.queue.threads| > 0 && |s'.queue.threads| > 0
  {
    || s'.writer.Done?
    || (InLastLoop(s'.writer) && !InLastLoop(s.writer))
    || (InLastLoop(s'.writer) == InLastLoop(s.writer)
        && (Remaining(s') < Remaining(s) || (Remaining(s') == Remaining(s) && WriterStage(s') < WriterStage(s))))
  }

  lemma LagAtMostOne(m: Mem<Update>)
    requires Shape(m)
    ensures Lag(m) <= 1
  {
  }

  lemma StageBound(m: Mem<Update>, pc: Pc<Update>)
    requires Shape(m)
    ensures PopMeasure(m, pc) < 100
  {
    LagAtMostOne(m);
  }

  lemma PopRemaining(q: Queue, q': Queue)
    requires Shape(q.mem) && PopFacts(q, q') && (Took(q'.threads[0]) ==> q'.threads[0].data.Some?)
    ensures |q.mem.log.popped| <= |q.mem.log.linked| && |q'.mem.log.popped| <= |q'.mem.log.linked|
    ensures |q'.mem.log.popped| == |q.mem.log.popped| + if !Took(q.threads[0]) && Took(q'.threads[0]) then 1 else 0
  {
    Fifo(q.mem);
    Fifo(q'.mem);
    assert |Values(q'.mem.log.popped)| == |q'.mem.log.popped| && |Values(q.mem.log.popped)| == |q.mem.log.popped|;
  }

  lemma PopIsWriterOnly(s: Session, q: Queue)
    requires s.writer.Popping? && PopFacts(s.queue, q)
    ensures WriterOnly(s, Popped(s, q, s.writer.last))
  {
  }

  /** A pop step of the writer alone brings the session closer to its end. */
  lemma PopIsCloser(s: Session, q: Queue)
    requires s.writer.Popping? && Shape(s.queue.mem) && PopFacts(s.queue, q)
    requires Took(q.threads[0]) ==> q.threads[0].data.Some?
    requires PopCloser(s.queue.mem, s.queue.threads[0], q.mem, q.threads[0])
    ensures WriterCloser(s, Popped(s, q, s.writer.last))
  {
    PopRemaining(s.queue, q);
    StageBound(q.mem, q.threads[0]);
  }

  lemma SoloPopFacts(q: Queue)
    requires Inv(q) && 0 < |q.threads| && Pops(q.threads[0])
    ensures var q' := Step(q, 0, Go(false));
            && PopFacts(q, q') && PopCloser(q.mem, q.threads[0], q'.mem, q'.threads[0])
            && (Took(q'.threads[0]) ==> q'.threads[0].data.Some?)
  {
    var q' := Step(q, 0, Go(false));
    PopFactsHold(q, false);
    assert ThreadOk(q.mem, 0, q.threads[0]);
    SoloPopStep(q, 0);
    StepInv(q, 0, Go(false));
    if Took(q'.threads[0]) { TookHasData(q'); }
  }

  lemma PoppingCloser(s: Session)
    requires Inv(s.queue) && WriterOk(s.queue, s.writer, s.overwritten + s.written) && s.writer.Popping?
    ensures var s' := WriterNext(s, false); |s'.queue.threads| > 0 && WriterCloser(s, s') && WriterOnly(s, s')
  {
    SoloPopFacts(s.queue);
    PopIsCloser(s, Step(s.queue, 0, Go(false)));
    PopIsWriterOnly(s, Step(s.queue, 0, Go(false)));
  }

  lemma OtherwiseCloser(s: Session)
    requires Shape(s.queue.mem) && StopOk(s) && WriterOk(s.queue, s.writer, s.overwritten + s.written) && !s.recording && (s.writer.Test? || s.writer.Writing?)
    ensures var s' := WriterNext(s, false); |s'.queue.threads| > 0 && WriterCloser(s, s') && WriterOnly(s, s')
  {
    OneThreadMoves(s.queue, 0, Event.Pop);
    StageBound(s.queue.mem, PopLoadHead);
  }

  lemma WriterStepCloser(s: Session)
    requires Inv(s.queue) && SessionInv(s) && !s.recording && !s.writer.Done?
    ensures var s' := WriterNext(s, false); |s'.queue.threads| > 0 && WriterCloser(s, s') && WriterOnly(s, s')
  {
    if s.writer.Popping? { PoppingCloser(s); } else { OtherwiseCloser(s); }
  }

  lemma WriterStepInRun(run: seq<Session>, actions: seq<Action>, n: nat)
    requires IsSession(run, actions, n) && !Last(run).recording && !Last(run).writer.Done?
    ensures var s' := WriterNext(Last(run), false);
            |s'.queue.threads| == n && WriterCloser(Last(run), s') && WriterOnly(Last(run), s')
  {
    SessionRunInv(run, actions, n, |run| - 1);
    QueueRunInv(run, actions, n, |run| - 1);
    WriterStepCloser(Last(run));
  }

  lemma WriterOnlyTwice(s: Session, s': Session, s'': Session)
    requires WriterOnly(s, s') && WriterOnly(s', s'')
    ensures WriterOnly(s, s'')
  {
  }

  lemma WriterStepOn(run: seq<Session>, actions: seq<Action>, n: nat) returns (run': seq<Session>, actions': seq<Action>)
    requires IsSession(run, actions, n) && !Last(run).recording && !Last(run).writer.Done?
    ensures IsSession(run', actions', n) && Continues(run, actions, run', actions')
    ensures WriterOnly(Last(run), Last(run')) && WriterCloser(Last(run), Last(run'))
  {
    WriterStepInRun(run, actions, n);
    run', actions' := Extend(run, actions, n, WriterStep(false));
  }

  /** After `stop` the writer, left alone, comes to its end. */
  lemma {:induction false} WriterFinishes(run: seq<Session>, actions: seq<Action>, n: nat) returns (run': seq<Session>, actions': seq<Action>)
    requires IsSession(run, actions, n) && !Last(run).recording
    ensures IsSession(run', actions', n) && Continues(run, actions, run', actions')
    ensures Last(run').writer.Done? && WriterOnly(Last(run), Last(run'))
    decreases if Last(run).writer.Done? then 0 else 1, if InLastLoop(Last(run).writer) then 0 else 1, Remaining(Last(run)), WriterStage(Last(run))
  {
    if Last(run).writer.Done? {
      run', actions' := run, actions;
    } else {
      var run1, actions1 := WriterStepOn(run, actions, n);
      run', actions' := WriterFinishes(run1, actions1, n);
      ContinuesOn(run, actions, run1, actions1, run', actions');
      WriterOnlyTwice(Last(run), Last(run1), Last(run'));
    }
  }

  /** The call's value is not linked, or was linked as value number `from` or later. */
  ghost predicate Late(s: Session, t: nat, from: nat) {
    && IsProducer(s, t) && from <= |s.queue.mem.log.linked|
    && (s.calls[t].Checked?
        || (s.calls[t].InPush? && Pushing(s.queue.threads[t])
            && (s.queue.threads[t].node in s.queue.mem.log.rank ==> s.queue.mem.log.rank[s.queue.threads[t].node] > from)))
  }

  /** A node placed among the first ones was there before. */
  lemma PlacedBefore(m: Mem<Update>, m': Mem<Update>, x: Id)
    requires Shape(m) && Shape(m') && m.log.chain <= m'.log.chain && x in m'.log.rank && m'.log.rank[x] < |m.log.chain|
    ensures x in m.log.rank && m.log.rank[x] == m'.log.rank[x]
  {
    assert m'.log.chain[m'.log.rank[x]] == x;
    assert m.log.chain[m'.log.rank[x]] == x;
  }

  /** What is linked anew comes after what was linked before. */
  lemma LinkedLater(m: Mem<Update>, m': Mem<Update>, x: Id, from: nat)
    requires Shape(m) && Shape(m') && m.log.chain <= m'.log.chain && from <= |m.log.linked|
    requires x in m.log.rank ==> m.log.rank[x] > from
    ensures x in m'.log.rank ==> m'.log.rank[x] > from
  {
    if x in m'.log.rank && m'.log.rank[x] < |m.log.chain| { PlacedBefore(m, m', x); }
  }

  /** The writer and its file are as before. */
  ghost predicate FileAsBefore(s: Session, s': Session) {
    && s'.writer == s.writer && s'.file == s.file && s'.written == s.written && s'.overwritten == s.overwritten
    && s'.stop == s.stop && s'.recording == s.recording
  }

  /** Steps the producer has left, alone. */
  function CallMeasure(s: Session, t: nat): nat {
    if !IsProducer(s, t) || s.calls[t].NoCall? then 0
    else if s.calls[t].Checked? then 1000
    else PushMeasure(s.queue.mem, s.queue.threads[t])
  }

  lemma PushBound(m: Mem<Update>, pc: Pc<Update>)
    requires Shape(m)
    ensures PushMeasure(m, pc) < 100
  {
    LagAtMostOne(m);
  }

  /** A step of a late call: nothing but the call moves, and it gets closer to its end. */
  ghost predicate CallCloser(s: Session, s': Session, t: nat, from: nat) {
    && |s'.queue.threads| == |s.queue.threads| && Late(s, t, from) && Late(s', t, from) && FileAsBefore(s, s')
    && s'.calls[t].update == s.calls[t].update && s'.answers == s.answers && CallMeasure(s', t) < CallMeasure(s, t)
  }

  lemma BeginIsCloser(s: Session, t: nat, q: Queue, from: nat)
    requires Late(s, t, from) && s.calls[t].Checked? && PushBegins(s.queue, q, t, s.calls[t].update)
    ensures CallCloser(s, s.(calls := s.calls[t := InPush(s.calls[t].update)], queue := q), t, from)
  {
    PushBound(q.mem, q.threads[t]);
  }

  lemma BeginsLate(s: Session, t: nat, from: nat)
    requires Inv(s.queue) && CallsOk(s.queue, s.calls, s.answers) && Late(s, t, from) && s.calls[t].Checked?
    ensures CallCloser(s, Act(s, BeginPush(t)), t, from)
  {
    assert CallOk(s.queue, t, s.calls[t], s.answers);
    PushBeginsHolds(s.queue, t, s.calls[t].update);
    BeginIsCloser(s, t, Step(s.queue, t, Event.Push(s.calls[t].update)), from);
  }

  lemma PushIsCloser(s: Session, t: nat, q: Queue, from: nat)
    requires Late(s, t, from) && s.calls[t].InPush? && !s.queue.threads[t].PushCount? && Shape(s.queue.mem)
    requires PushFacts(s.queue, q, t) && Pushing(q.threads[t]) && q.threads[t].node == s.queue.threads[t].node
    requires PushCloser(s.queue.mem, s.queue.threads[t], q.mem, q.threads[t])
    ensures CallCloser(s, s.(queue := q), t, from)
  {
    LinkedLater(s.queue.mem, q.mem, s.queue.threads[t].node, from);
  }

  lemma PushesLate(s: Session, t: nat, from: nat)
    requires Inv(s.queue) && Late(s, t, from) && s.calls[t].InPush? && !s.queue.threads[t].PushCount?
    ensures CallCloser(s, Act(s, Action.PushStep(t, false)), t, from)
  {
    assert ThreadOk(s.queue.mem, t, s.queue.threads[t]);
    PushFactsHold(s.queue, t, Go(false));
    QueueHistory.PushKeepsNode(s.queue, t, false);
    SoloPushStep(s.queue, t);
    PushIsCloser(s, t, Step(s.queue, t, Go(false)), from);
  }

  /** The last answer is that of thread `t`, for `u`, placed at `from` or later. */
  ghost predicate AnsweredLate(s: Session, t: nat, u: Update, from: nat) {
    && s.answers != []
    && var a := s.answers[|s.answers| - 1]; a.Accepted? && a.thread == t && a.update == u && a.place >= from
  }

  lemma AnswersLate(s: Session, t: nat, from: nat)
    requires Inv(s.queue) && Late(s, t, from) && s.calls[t].InPush? && s.queue.threads[t].PushCount?
    ensures var s' := Act(s, Action.PushStep(t, false));
            && |s'.queue.threads| == |s.queue.threads| && FileAsBefore(s, s') && AnsweredLate(s', t, s.calls[t].update, from)
            && |s'.answers| == |s.answers| + 1
  {
    assert ThreadOk(s.queue.mem, t, s.queue.threads[t]);
    QueueHistory.PushKeepsNode(s.queue, t, false);
  }

  lemma FileTwice(s: Session, s': Session, s'': Session)
    requires FileAsBefore(s, s') && FileAsBefore(s', s'')
    ensures FileAsBefore(s, s'')
  {
  }

  /** The new actions are steps of the push of thread `t`, and nothing else. */
  ghost predicate OnlyBy(t: nat, actions: seq<Action>, actions': seq<Action>) {
    actions <= actions' && forall x :: |actions| <= x < |actions'| ==> actions'[x] == BeginPush(t) || actions'[x] == Action.PushStep(t, false)
  }

  lemma OnlyByTwice(t: nat, actions: seq<Action>, actions1: seq<Action>, actions2: seq<Action>)
    requires OnlyBy(t, actions, actions1) && OnlyBy(t, actions1, actions2)
    ensures OnlyBy(t, actions, actions2)
  {
    assert forall x :: |actions| <= x < |actions1| ==> actions2[x] == actions1[x];
  }

  /** The next step of the call of thread `t`, alone. */
  function NextStep(s: Session, t: nat): Action {
    if t < |s.calls| && s.calls[t].Checked? then BeginPush(t) else Action.PushStep(t, false)
  }

  /** The call has answered, or is closer to its answer. */
  ghost predicate AnswersOrCloser(s: Session, s': Session, t: nat, from: nat)
    requires t < |s.calls| && !s.calls[t].NoCall?
  {
    || (FileAsBefore(s, s') && AnsweredLate(s', t, s.calls[t].update, from) && |s'.answers| == |s.answers| + 1)
    || CallCloser(s, s', t, from)
  }

  lemma LateStep(s: Session, t: nat, from: nat)
    requires Inv(s.queue) && CallsOk(s.queue, s.calls, s.answers) && Late(s, t, from)
    ensures var s' := Act(s, NextStep(s, t)); |s'.queue.threads| == |s.queue.threads| && AnswersOrCloser(s, s', t, from)
  {
    if s.calls[t].Checked? {
      BeginsLate(s, t, from);
    } else if s.queue.threads[t].PushCount? {
      AnswersLate(s, t, from);
    } else {
      PushesLate(s, t, from);
    }
  }

  lemma CallStepOn(run: seq<Session>, actions: seq<Action>, n: nat, t: nat, from: nat) returns (run': seq<Session>, actions': seq<Action>)
    requires IsSession(run, actions, n) && Late(Last(run), t, from)
    ensures IsSession(run', actions', n) && Continues(run, actions, run', actions') && OnlyBy(t, actions, actions')
    ensures AnswersOrCloser(Last(run), Last(run'), t, from)
  {
    CallsInRun(run, actions, n, |run| - 1);
    LateStep(Last(run), t, from);
    run', actions' := Extend(run, actions, n, NextStep(Last(run), t));
  }

  /** A producer, left alone, finishes its call: `record` answers true. */
  lemma {:induction false} ProducerFinishes(run: seq<Session>, actions: seq<Action>, n: nat, t: nat, from: nat)
    returns (run': seq<Session>, actions': seq<Action>)
    requires IsSession(run, actions, n) && Late(Last(run), t, from)
    ensures IsSession(run', actions', n) && Continues(run, actions, run', actions') && OnlyBy(t, actions, actions')
    ensures FileAsBefore(Last(run), Last(run')) && |Last(run').answers| == |Last(run).answers| + 1
    ensures AnsweredLate(Last(run'), t, Last(run).calls[t].update, from)
    decreases CallMeasure(Last(run), t)
  {
    var u := Last(run).calls[t].update;
    var run1, actions1 := CallStepOn(run, actions, n, t, from);
    if !CallCloser(Last(run), Last(run1), t, from) {
      run', actions' := run1, actions1;
    } else {
      run', actions' := ProducerFinishes(run1, actions1, n, t, from);
      ContinuesOn(run, actions, run1, actions1, run', actions');
      OnlyByTwice(t, actions, actions1, actions');
      FileTwice(Last(run), Last(run1), Last(run'));
    }
  }

  /** A `record` call that finds the flag up, left alone, answers true, with its own update. */
  lemma RecordFinishes(run: seq<Session>, actions: seq<Action>, n: nat, t: nat, u: Update) returns (run': seq<Session>, actions': seq<Action>)
    requires IsSession(run, actions, n) && Last(run).recording && IsProducer(Last(run), t) && Last(run).calls[t].NoCall?
    ensures IsSession(run', actions', n) && Continues(run, actions, run', actions')
    ensures OnlyBy(t, actions + [Action.Record(t, u)], actions') && |Last(run').answers| == |Last(run).answers| + 1
    ensures AnsweredLate(Last(run'), t, u, |Last(run).queue.mem.log.linked|)
  {
    var run1, actions1 := Extend(run, actions, n, Action.Record(t, u));
    run', actions' := ProducerFinishes(run1, actions1, n, t, |Last(run).queue.mem.log.linked|);
    ContinuesOn(run, actions, run1, actions1, run', actions');
  }

  /** A `record` call answers false if and only if it finds the flag down; otherwise it goes on to push. */
  lemma RefusedIff(s: Session, t: nat, u: Update)
    requires IsProducer(s, t) && s.calls[t].NoCall?
    ensures var s' := Act(s, Action.Record(t, u));
            && (!s.recording <==> s'.answers == s.answers + [Refused(t, u)])
            && (s.recording <==> s'.calls == s.calls[t := Checked(u)])
            && (s.recording ==> s'.answers == s.answers) && (!s.recording ==> s'.calls == s.calls)
  {
    assert |s.answers + [Refused(t, u)]| == |s.answers| + 1;
    assert s.calls[t := Checked(u)][t] == Checked(u);
  }

  /** The producer is inside `record` and its value is not linked. */
  predicate Unsettled(s: Session, t: nat) {
    IsProducer(s, t) && !Settled(s.queue, t, s.calls[t])
  }

  /** Whenever a call is not settled after `stop`, some continuation answers it true with its update in
      no recording: the writer comes to its end first. */
  lemma UnsettledCanMiss(run: seq<Session>, actions: seq<Action>, n: nat, t: nat)
    returns (run': seq<Session>, actions': seq<Action>)
    requires IsSession(run, actions, n) && !Last(run).recording && Unsettled(Last(run), t)
    ensures IsSession(run', actions', n) && Continues(run, actions, run', actions')
    ensures var s := Last(run');
            && s.writer.Done? && s.stop == Last(run).stop && |s.overwritten| + |s.written| <= |Last(run).queue.mem.log.linked|
            && AnsweredLate(s, t, Last(run).calls[t].update, |s.overwritten| + |s.written|)
  {
    var run1, actions1 := WriterFinishes(run, actions, n);
    EndsUnsettled(run, actions, run1, actions1, n, t);
    run', actions' := ProducerFinishes(run1, actions1, n, t, |Last(run1).queue.mem.log.linked|);
    ContinuesOn(run, actions, run1, actions1, run', actions');
  }

  /** The writer at its end has left the call as it was, and written at most what is linked. */
  lemma EndsUnsettled(run: seq<Session>, actions: seq<Action>, run1: seq<Session>, actions1: seq<Action>, n: nat, t: nat)
    requires IsSession(run, actions, n) && IsSession(run1, actions1, n) && WriterOnly(Last(run), Last(run1))
    requires Last(run1).writer.Done? && Unsettled(Last(run), t)
    ensures Late(Last(run1), t, |Last(run1).queue.mem.log.linked|) && |Last(run1).overwritten| + |Last(run1).written| <= |Last(run1).queue.mem.log.linked|
    ensures Last(run1).calls[t] == Last(run).calls[t]
  {
    SessionRunInv(run, actions, n, |run| - 1);
    SessionRunInv(run1, actions1, n, |run1| - 1);
    DoneIsExact(Last(run1));
    CallOfUnsettled(Last(run), t);
    StillUnsettled(Last(run), Last(run1), t);
  }

  lemma CallOfUnsettled(s: Session, t: nat)
    requires CallsOk(s.queue, s.calls, s.answers) && Unsettled(s, t)
    ensures s.calls[t].Checked? || (s.calls[t].InPush? && Pushing(s.queue.threads[t]) && s.queue.threads[t].node !in s.queue.mem.log.rank)
  {
    assert CallOk(s.queue, t, s.calls[t], s.answers);
  }

  lemma StillUnsettled(s: Session, s1: Session, t: nat)
    requires Shape(s.queue.mem) && Shape(s1.queue.mem) && WriterOnly(s, s1) && IsProducer(s, t)
    requires s.calls[t].Checked? || (s.calls[t].InPush? && Pushing(s.queue.threads[t]) && s.queue.threads[t].node !in s.queue.mem.log.rank)
    ensures Late(s1, t, |s1.queue.mem.log.linked|)
  {
    if s.calls[t].InPush? { LinkedLater(s.queue.mem, s1.queue.mem, s.queue.threads[t].node, |s.queue.mem.log.linked|); }
  }

  /** Every accepted update is in the file, but for those that earlier recordings had written. */
  ghost predicate AllRecorded(s: Session) {
    forall i :: 0 <= i < |s.answers| && s.answers[i].Accepted? && s.answers[i].place >= |s.overwritten| ==>
      InFile(s, s.answers[i].place)
  }

  /** When `stop` has come: every way on to the writer's end has every accepted update recorded, if
      and only if every call in progress at `stop` was settled (no call in progress is enough). */
  lemma AllRecordedIff(run: seq<Session>, actions: seq<Action>, n: nat)
    requires IsSession(run, actions, n) && |actions| > 0 && actions[|actions| - 1].Stop? && run[|run| - 2].recording
    ensures Last(run).stop.Some?
    ensures Last(run).stop.value.settled <==>
            (forall run', actions' :: IsSession(run', actions', n) && Continues(run, actions, run', actions') && Last(run').writer.Done?
                                      ==> AllRecorded(Last(run')))
  {
    var s := Last(run);
    assert s == Act(run[|run| - 2], actions[|actions| - 1]);
    if s.stop.value.settled {
      forall run', actions' | IsSession(run', actions', n) && Continues(run, actions, run', actions') && Last(run').writer.Done?
        ensures AllRecorded(Last(run'))
      {
        SettledRecordsAll(run, actions, run', actions', n);
      }
    } else {
      var t := FindUnsettled(run, actions, n);
      var run', actions' := UnsettledCanMiss(run, actions, n, t);
      var i := |Last(run').answers| - 1;
      assert !InFile(Last(run'), Last(run').answers[i].place);
      assert !AllRecorded(Last(run'));
    }
  }

  lemma FindUnsettled(run: seq<Session>, actions: seq<Action>, n: nat) returns (t: nat)
    requires IsSession(run, actions, n) && |actions| > 0 && actions[|actions| - 1].Stop? && run[|run| - 2].recording
    requires Last(run).stop.Some? && !Last(run).stop.value.settled
    ensures Unsettled(Last(run), t)
  {
    var s0, s := run[|run| - 2], Last(run);
    assert s == Act(s0, actions[|actions| - 1]);
    SessionRunInv(run, actions, n, |run| - 1);
    var u :| 0 <= u < |s0.calls| && !Settled(s0.queue, u, s0.calls[u]);
    t := u;
  }

  lemma SettledRecordsAll(run: seq<Session>, actions: seq<Action>, run': seq<Session>, actions': seq<Action>, n: nat)
    requires IsSession(run, actions, n) && !Last(run).recording && Last(run).stop.Some? && Last(run).stop.value.settled
    requires IsSession(run', actions', n) && Continues(run, actions, run', actions') && Last(run').writer.Done?
    ensures AllRecorded(Last(run'))
  {
    assert run'[|run| - 1] == Last(run);
    MarkStays(run', actions', n, |run| - 1, |run'| - 1);
    SessionRunInv(run', actions', n, |run'| - 1);
    var s := Last(run');
    DoneIsExact(s);
    forall i | 0 <= i < |s.answers| && s.answers[i].Accepted? ensures s.answers[i].place < |s.overwritten| + |s.written| {
      assert AnswerOk(s.queue.mem, s.answers[i]);
    }
  }

  /** One producer that has read the flag when `stop` comes: `record` answers true, and the file holds
      nothing but its header.  The update stays in the queue for the next recording. */
  lemma LateRecordMissesFile(u: Update) returns (run: seq<Session>, actions: seq<Action>)
    ensures IsSession(run, actions, 2) && Last(run).writer.Done? && Last(run).file == Header(BINARY) && AnsweredLate(Last(run), 1, u, 0)
  {
    run, actions := OneCall(u);
    run, actions := Extend(run, actions, 2, Stop);
    run, actions := UnsettledCanMiss(run, actions, 2, 1);
    NothingWritten(run, actions, 2);
  }

  /** A producer has seen the flag up. */
  lemma OneCall(u: Update) returns (run: seq<Session>, actions: seq<Action>)
    ensures IsSession(run, actions, 2) && Last(run) == Open(2).(calls := [NoCall, Checked(u)])
  {
    run, actions := Extend([Open(2)], [], 2, Action.Record(1, u));
  }

  lemma NothingWritten(run: seq<Session>, actions: seq<Action>, n: nat)
    requires IsSession(run, actions, n) && Last(run).written == []
    ensures Last(run).file == Header(BINARY)
  {
    SessionRunInv(run, actions, n, |run| - 1);
    assert WriteAll([]) == [];
  }

  // ----------------------------------------- which recording a call belongs to

  /** What one action can do to the file: a `start` erases it, any other action lets it grow. */
  ghost predicate FileMoves(s: Session, s': Session, started: bool) {
    && s.answers <= s'.answers
    && (if started then s'.overwritten == s.overwritten + s.written && s'.written == [] && s'.file == Header(BINARY)
        else s'.overwritten == s.overwritten && s.written <= s'.written)
  }

  lemma ActOnFile(s: Session, a: Action)
    requires |s.queue.threads| > 0
    ensures FileMoves(s, Act(s, a), Starts(s, a))
  {
  }

  lemma FileInRun(run: seq<Session>, actions: seq<Action>, n: nat, k: nat)
    requires IsSession(run, actions, n) && 0 < k < |run|
    ensures FileMoves(run[k - 1], run[k], Starts(run[k - 1], actions[k - 1]))
  {
    ActOnFile(run[k - 1], actions[k - 1]);
  }

  /** What became of a value that was in the file at `s0`: `started` says whether a `start` erased it. */
  ghost predicate DiskAfter(s0: Session, s: Session, place: nat, started: bool) {
    && (InFile(s, place) <==> !started) && (started ==> place < |s.overwritten|)
    && (!started ==> s.overwritten == s0.overwritten && s0.written <= s.written)
  }

  lemma DiskOneMore(s0: Session, s: Session, s': Session, place: nat, started: bool, starts: bool)
    requires DiskAfter(s0, s, place, started) && FileMoves(s, s', starts)
    ensures DiskAfter(s0, s', place, started || starts)
  {
  }

  /** What is on disk stays there until the next `start`, and no longer: an update in the file at step
      `k` is in the file at step `j` exactly if no `start` took effect between the two. */
  lemma {:induction false} OnDiskIff(run: seq<Session>, actions: seq<Action>, n: nat, k: nat, j: nat, place: nat)
    requires IsSession(run, actions, n) && k <= j < |run| && InFile(run[k], place)
    ensures InFile(run[j], place) <==> !StartedBetween(run, actions, k, j)
    ensures DiskAfter(run[k], run[j], place, StartedBetween(run, actions, k, j))
  {
    if k < j {
      OnDiskIff(run, actions, n, k, j - 1, place);
      FileInRun(run, actions, n, j);
      StartedSplit(run, actions, k, j);
      DiskOneMore(run[k], run[j - 1], run[j], place, StartedBetween(run, actions, k, j - 1), Starts(run[j - 1], actions[j - 1]));
    }
  }

  lemma ExtendByStart(run: seq<Session>, actions: seq<Action>, n: nat) returns (run': seq<Session>, actions': seq<Action>)
    requires IsSession(run, actions, n)
    ensures IsSession(run', actions', n) && actions' == actions + [Start] && run' == run + [Act(Last(run), Start)]
  {
    run', actions' := run + [Act(Last(run), Start)], actions + [Start];
  }

  /** `stop` comes and the writer comes to its end: what was accepted before has been written. */
  lemma StopAndFinish(run: seq<Session>, actions: seq<Action>, n: nat, i: nat) returns (run': seq<Session>, actions': seq<Action>)
    requires IsSession(run, actions, n) && Last(run).recording && i < |Last(run).answers| && Last(run).answers[i].Accepted?
    ensures IsSession(run', actions', n) && Last(run').writer.Done? && !Last(run').recording
    ensures Last(run').answers == Last(run).answers && Last(run').overwritten == Last(run).overwritten
    ensures Last(run).answers[i].place < |Last(run').overwritten| + |Last(run').written|
  {
    var run1, actions1 := Extend(run, actions, n, Stop);
    run', actions' := WriterFinishes(run1, actions1, n);
    var j := |run| - 1;
    assert run'[j] == run1[j] == Last(run) && actions'[j] == actions1[j] == Stop;
    AcceptedBeforeStopIsRecorded(run', actions', n, i, j, |run'| - 1);
  }

  /** One call is made and answered. */
  lemma OneAnswer(u: Update) returns (run: seq<Session>, actions: seq<Action>)
    ensures IsSession(run, actions, 2) && Last(run).recording && Last(run).overwritten == [] && AnsweredLate(Last(run), 1, u, 0)
  {
    run, actions := OneCall(u);
    run, actions := ProducerFinishes(run, actions, 2, 1, 0);
  }

  /** An update that was accepted and on disk when the writer was done, at step `k`, and is on disk no
      more: `start` was called again, and the file is down to its header. */
  lemma StartErases(u: Update) returns (run: seq<Session>, actions: seq<Action>, k: nat)
    ensures IsSession(run, actions, 2) && k < |run| && run[k].writer.Done? && AnsweredLate(run[k], 1, u, 0)
    ensures var place := run[k].answers[|run[k].answers| - 1].place; InFile(run[k], place) && !InFile(Last(run), place)
    ensures Last(run).file == Header(BINARY)
  {
    run, actions := OneAnswer(u);
    run, actions := StopAndFinish(run, actions, 2, |Last(run).answers| - 1);
    k := |run| - 1;
    run, actions := ExtendByStart(run, actions, 2);
  }

  // ----------------------------------------- a call made within one recording

  ghost predicate AnsweredAfter(answers: seq<Answer>, t: nat, from: nat, given: nat) {
    forall i :: given <= i < |answers| && answers[i].Accepted? && answers[i].thread == t ==> answers[i].place >= from
  }

  /** Thread `t` had no call at some step when `from` values were linked and `given` answers given: its
      call in progress is late, and what it was answered since is placed at `from` or later. */
  ghost predicate CameAfter(s: Session, t: nat, from: nat, given: nat) {
    && IsProducer(s, t) && from <= |s.queue.mem.log.linked| && (s.calls[t].NoCall? || Late(s, t, from))
    && AnsweredAfter(s.answers, t, from, given)
  }

  /** The calls and answers of a thread that does nothing, or only begins a call. */
  ghost predicate CallsElsewhere(s: Session, s': Session, t: nat) {
    && t < |s'.calls| == |s.calls|
    && (s'.calls[t] == s.calls[t] || (s.calls[t].NoCall? && s'.calls[t].Checked?))
    && (s'.answers == s.answers
        || (|s'.answers| == |s.answers| + 1 && s.answers <= s'.answers
            && (s'.answers[|s.answers|].Accepted? ==> s'.answers[|s.answers|].thread != t)))
  }

  ghost predicate QueueElsewhere(q: Queue, q': Queue, t: nat) {
    && t < |q.threads| == |q'.threads| && q'.threads[t] == q.threads[t]
    && q.mem.log.chain <= q'.mem.log.chain && Shape(q.mem) && Shape(q'.mem)
  }

  lemma ElsewhereKeeps(s: Session, s': Session, t: nat, from: nat, given: nat)
    requires QueueElsewhere(s.queue, s'.queue, t) && CallsElsewhere(s, s', t) && CameAfter(s, t, from, given)
    ensures CameAfter(s', t, from, given)
  {
    if s.calls[t].InPush? { LinkedLater(s.queue.mem, s'.queue.mem, s.queue.threads[t].node, from); }
  }

  /** The action moves another thread, or none. */
  predicate NotMoving(s: Session, a: Action, t: nat) {
    MoveOf(s, a).Stay? || MoveOf(s, a).thread != t
  }

  lemma ActsElsewhere(s: Session, a: Action, t: nat)
    requires IsProducer(s, t) && NotMoving(s, a, t)
    ensures CallsElsewhere(s, Act(s, a), t)
  {
  }

  lemma MovesElsewhere(s: Session, a: Action, t: nat)
    requires Inv(s.queue) && IsProducer(s, t) && NotMoving(s, a, t)
    ensures QueueElsewhere(s.queue, Act(s, a).queue, t)
  {
    ActMoves(s, a);
    match MoveOf(s, a)
    case Stay =>
    case Move(u, e) =>
      StepInv(s.queue, u, e);
      StepGrows(s.queue, u, e);
      OtherThreads(s.queue, u, e, t);
  }

  /** The thread's own push goes on or returns. */
  lemma PushedAfter(s: Session, t: nat, q: Queue, from: nat, given: nat)
    requires Shape(s.queue.mem) && PushMoves(s.queue, q, t) && CameAfter(s, t, from, given) && s.calls[t].InPush?
    ensures CameAfter(Pushed(s, t, s.calls[t].update, q), t, from, given)
  {
    LinkedLater(s.queue.mem, q.mem, s.queue.threads[t].node, from);
  }

  lemma PushesAfter(s: Session, t: nat, spurious: bool, from: nat, given: nat)
    requires Inv(s.queue) && CameAfter(s, t, from, given) && s.calls[t].InPush?
    ensures CameAfter(Act(s, Action.PushStep(t, spurious)), t, from, given)
  {
    PushMovesHold(s.queue, t, spurious);
    PushedAfter(s, t, Step(s.queue, t, Go(spurious)), from, given);
  }

  lemma ActKeepsAfter(s: Session, a: Action, t: nat, from: nat, given: nat)
    requires Inv(s.queue) && CallsOk(s.queue, s.calls, s.answers) && CameAfter(s, t, from, given)
    ensures CameAfter(Act(s, a), t, from, given)
  {
    if NotMoving(s, a, t) {
      ActsElsewhere(s, a, t);
      MovesElsewhere(s, a, t);
      ElsewhereKeeps(s, Act(s, a), t, from, given);
    } else if a.BeginPush? {
      BeginsLate(s, t, from);
    } else {
      PushesAfter(s, t, a.spurious, from, given);
    }
  }

  lemma CallsInRun(run: seq<Session>, actions: seq<Action>, n: nat, k: nat)
    requires IsSession(run, actions, n) && k < |run|
    ensures Inv(run[k].queue) && CallsOk(run[k].queue, run[k].calls, run[k].answers)
  {
    SessionRunInv(run, actions, n, k);
    QueueRunInv(run, actions, n, k);
  }

  lemma ActInRunKeepsAfter(run: seq<Session>, actions: seq<Action>, n: nat, k: nat, t: nat, from: nat, given: nat)
    requires IsSession(run, actions, n) && 0 < k < |run| && CameAfter(run[k - 1], t, from, given)
    ensures CameAfter(run[k], t, from, given)
  {
    CallsInRun(run, actions, n, k - 1);
    ActKeepsAfter(run[k - 1], actions[k - 1], t, from, given);
  }

  /** What a thread without a call at step `b` is answered later is placed behind what was linked then. */
  lemma {:induction false} AnsweredSince(run: seq<Session>, actions: seq<Action>, n: nat, b: nat, k: nat, t: nat)
    requires IsSession(run, actions, n) && b <= k < |run| && 0 < t < n && |run[b].calls| == n && run[b].calls[t].NoCall?
    ensures CameAfter(run[k], t, |run[b].queue.mem.log.linked|, |run[b].answers|)
  {
    if b < k {
      AnsweredSince(run, actions, n, b, k - 1, t);
      ActInRunKeepsAfter(run, actions, n, k, t, |run[b].queue.mem.log.linked|, |run[b].answers|);
    }
  }

  /** What was written before is linked before. */
  lemma OverwrittenIsLinked(s: Session)
    requires SessionInv(s)
    ensures |s.overwritten| + |s.written| <= |s.queue.mem.log.linked|
  {
    Fifo(s.queue.mem);
    assert |Values(s.queue.mem.log.popped)| == |s.queue.mem.log.popped| && |Values(s.queue.mem.log.linked)| == |s.queue.mem.log.linked|;
  }

  lemma {:induction false} NothingErased(run: seq<Session>, actions: seq<Action>, n: nat, b: nat, k: nat)
    requires IsSession(run, actions, n) && b <= k < |run| && !StartedBetween(run, actions, b, k)
    ensures run[k].overwritten == run[b].overwritten && run[b].answers <= run[k].answers
  {
    if b < k {
      StartedSplit(run, actions, b, k);
      NothingErased(run, actions, n, b, k - 1);
      FileInRun(run, actions, n, k);
    }
  }

  /** A call made within one recording: thread `t` had no call at step `b`, and at step `j`, when `stop`
      comes, it has been answered true, by answer `i`.  Without another `start` its update is in the
      file on disk when the writer is done, at step `k`. */
  lemma CallWithinIsOnDisk(run: seq<Session>, actions: seq<Action>, n: nat, t: nat, b: nat, i: nat, j: nat, k: nat)
    requires IsSession(run, actions, n) && b <= j < k < |run| && !StartedBetween(run, actions, b, k)
    requires 0 < t < n && |run[b].calls| == n && run[b].calls[t].NoCall?
    requires actions[j].Stop? && run[j].recording && run[k].writer.Done?
    requires |run[b].answers| <= i < |run[j].answers| && run[j].answers[i].Accepted? && run[j].answers[i].thread == t
    ensures var s := run[k]; var a := run[j].answers[i];
            InFile(s, a.place) && s.written[a.place - |s.overwritten|] == a.update
  {
    AnsweredSince(run, actions, n, b, j, t);
    SessionRunInv(run, actions, n, b);
    OverwrittenIsLinked(run[b]);
    NothingErased(run, actions, n, b, k);
    assert !StartedBetween(run, actions, j + 1, k);
    AcceptedBeforeStopIsRecorded(run, actions, n, i, j, k);
  }

  // ----------------------------------------- where each answer comes from

  /** The call of thread `t` in progress at step `k` read the flag, up, at step `j`. */
  ghost predicate BeganAt(run: seq<Session>, actions: seq<Action>, t: nat, k: nat, j: nat)
    requires j < k < |run| == |actions| + 1 && t < |run[k].calls|
  {
    && t < |run[j].calls| && run[j].calls[t].NoCall? && run[j].recording
    && !run[k].calls[t].NoCall? && actions[j] == Action.Record(t, run[k].calls[t].update)
    && |run[j].answers| <= |run[k].answers|
    && (forall m :: |run[j].answers| <= m < |run[k].answers| ==> run[k].answers[m].thread != t)
  }

  /** How one action moves the call of thread `t`, and what it answers. */
  ghost predicate CallMoves(s: Session, a: Action, s': Session, t: nat) {
    && t < |s.calls| == |s'.calls| && s.answers <= s'.answers
    && (s'.calls[t].NoCall? || (!s.calls[t].NoCall? && s'.calls[t].update == s.calls[t].update)
        || (s.calls[t].NoCall? && s.recording && s' == s.(calls := s'.calls) && a == Action.Record(t, s'.calls[t].update)))
    && (|s'.answers| == |s.answers|
        || (|s'.answers| == |s.answers| + 1
            && var b := s'.answers[|s.answers|];
               b.thread == t ==>
                 || (b.Refused? && s.calls[t].NoCall? && !s.recording && a == Action.Record(t, b.update))
                 || (b.Accepted? && !s.calls[t].NoCall? && b.update == s.calls[t].update && s'.calls[t].NoCall?)))
  }

  lemma ActMovesCall(s: Session, a: Action, t: nat)
    requires 0 < t < |s.queue.threads| == |s.calls|
    ensures CallMoves(s, a, Act(s, a), t)
  {
  }

  lemma NewAnswerIsOfProducer(s: Session, a: Action)
    requires 0 < |s.queue.threads| && |Act(s, a).answers| > |s.answers|
    ensures |Act(s, a).answers| == |s.answers| + 1 && IsProducer(s, Act(s, a).answers[|s.answers|].thread)
  {
  }

  lemma CallsLength(run: seq<Session>, actions: seq<Action>, n: nat, k: nat)
    requires IsSession(run, actions, n) && k < |run|
    ensures |run[k].calls| == n
  {
    SessionRunInv(run, actions, n, k);
  }

  lemma AnswersKept(run: seq<Session>, actions: seq<Action>, n: nat, k: nat)
    requires IsSession(run, actions, n) && 0 < k < |run|
    ensures run[k - 1].answers <= run[k].answers
  {
    FileInRun(run, actions, n, k);
  }

  lemma MoveInRun(run: seq<Session>, actions: seq<Action>, n: nat, k: nat, t: nat)
    requires IsSession(run, actions, n) && 0 < k < |run| && 0 < t < n
    ensures |run[k - 1].calls| == n && |run[k].calls| == n && CallMoves(run[k - 1], actions[k - 1], run[k], t)
  {
    CallsLength(run, actions, n, k - 1);
    CallsLength(run, actions, n, k);
    ActMovesCall(run[k - 1], actions[k - 1], t);
  }

  lemma BeganOneMore(run: seq<Session>, actions: seq<Action>, t: nat, k: nat, j: nat)
    requires j < k - 1 && k < |run| == |actions| + 1 && t < |run[k - 1].calls| && BeganAt(run, actions, t, k - 1, j)
    requires CallMoves(run[k - 1], actions[k - 1], run[k], t) && !run[k].calls[t].NoCall?
    ensures BeganAt(run, actions, t, k, j)
  {
  }

  lemma {:induction false} CallBegan(run: seq<Session>, actions: seq<Action>, n: nat, k: nat, t: nat) returns (j: nat)
    requires IsSession(run, actions, n) && k < |run| && 0 < t < n && t < |run[k].calls| && !run[k].calls[t].NoCall?
    ensures j < k && BeganAt(run, actions, t, k, j)
  {
    if k == 0 {
      assert false;
    } else {
      MoveInRun(run, actions, n, k, t);
      if run[k - 1].calls[t].NoCall? {
        j := k - 1;
      } else {
        j := CallBegan(run, actions, n, k - 1, t);
        BeganOneMore(run, actions, t, k, j);
      }
    }
  }

  /** Answer `i` is that of the call that read the flag at step `j`: the first of its thread since then,
      with the call's own update, and false exactly if the flag was down. */
  ghost predicate AnswersStep(run: seq<Session>, actions: seq<Action>, answers: seq<Answer>, i: nat, j: nat)
    requires j < |actions| && |run| == |actions| + 1 && i < |answers|
  {
    var a := answers[i];
    && actions[j] == Action.Record(a.thread, a.update)
    && a.thread < |run[j].calls| && run[j].calls[a.thread].NoCall? && |run[j].answers| <= i
    && (forall m :: |run[j].answers| <= m < i ==> answers[m].thread != a.thread)
    && (a.Refused? <==> !run[j].recording)
  }

  lemma NewestAnswer(run: seq<Session>, actions: seq<Action>, n: nat, k: nat) returns (j: nat)
    requires IsSession(run, actions, n) && 0 < k < |run| && |run[k].answers| > |run[k - 1].answers|
    ensures j < k && |run[k].answers| == |run[k - 1].answers| + 1 && AnswersStep(run, actions, run[k].answers, |run[k - 1].answers|, j)
  {
    NewAnswerIsOfProducer(run[k - 1], actions[k - 1]);
    var t := run[k].answers[|run[k - 1].answers|].thread;
    MoveInRun(run, actions, n, k, t);
    if run[k - 1].calls[t].NoCall? {
      j := k - 1;
    } else {
      j := CallBegan(run, actions, n, k - 1, t);
    }
  }

  /** In every session each answer is that of a call that read the flag before, and false if and only if
      that call found the flag down. */
  lemma {:induction false} EveryAnswer(run: seq<Session>, actions: seq<Action>, n: nat, k: nat, i: nat) returns (j: nat)
    requires IsSession(run, actions, n) && k < |run| && i < |run[k].answers|
    ensures j < k && AnswersStep(run, actions, run[k].answers, i, j)
  {
    if k == 0 {
      assert false;
    } else {
      AnswersKept(run, actions, n, k);
      if i < |run[k - 1].answers| {
        j := EveryAnswer(run, actions, n, k - 1, i);
      } else {
        j := NewestAnswer(run, actions, n, k);
      }
    }
  }
}
