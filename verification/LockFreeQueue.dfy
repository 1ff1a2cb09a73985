/**
 * The multi-producer multi-consumer queue of include/utils/lock_free_queue.hpp as an
 * interleaved step system: one step is one atomic load, store, exchange or
 * compare-exchange of one thread, in any order, for any number of threads.
 *
 * Nodes are never reused, so a node is its position in `nodes`.  The record `log`
 * holds history only: no step reads it to decide what to do.
 */
module LockFreeQueue {
  import opened Common

  type Id = nat

  const RECLAIM_THRESHOLD: nat := 100

  datatype Node<+T> = Node(data: Option<T>, next: Option<Id>)

  /** Program counter of one thread, together with its live local variables. */
  datatype Pc<+T> =
    | Idle
    | PushLoadTail(node: Id)
    | PushLoadNext(node: Id, tail: Id)
    | PushCheck(node: Id, tail: Id, next: Option<Id>)
    | PushLink(node: Id, tail: Id)
    | PushSwing(node: Id, tail: Id)
    | PushCount(node: Id)
    | PushHelp(node: Id, tail: Id, succ: Id)
    | PopLoadHead
    | PopLoadTail(head: Id)
    | PopLoadNext(head: Id, tail: Id)
    | PopCheck(head: Id, tail: Id, next: Option<Id>)
    | PopHelp(tail: Id, succ: Id)
    | PopRead(head: Id, succ: Id)
    | PopSwing(head: Id, succ: Id, data: Option<T>)
    | PopCount(head: Id, data: Option<T>)
    | PopRetire(head: Id, data: Option<T>)
    | PopTally(head: Id, data: Option<T>)
    | PopReclaim(head: Id, data: Option<T>)
    | PopTake(head: Id, data: Option<T>)
    | PopReset(head: Id, data: Option<T>)
    | PopReturn(head: Id, data: Option<T>)

  /** A value together with the thread that linked it, or that swung the head past it. */
  datatype Stamp<+T> = Stamp(tid: nat, value: T)

  /** History of the list itself. */
  datatype Log<T> = Log(
    chain: seq<Id>,         // every node ever linked, in link order, the dummy first
    rank: map<Id, nat>,     // position of a linked node in `chain`
    makers: seq<nat>,       // thread that allocated each node
    linked: seq<Stamp<T>>,  // values in the order of successful links
    popped: seq<Stamp<T>>)  // values in the order of successful head swings

  /** The linked list: its nodes, `head_`, `tail_`, and its history. */
  datatype Mem<T> = Mem(nodes: seq<Node<T>>, head: Id, tail: Id, log: Log<T>)

  datatype State<T> = State(
    mem: Mem<T>,
    size: nat,
    retired: seq<Id>,       // the retired stack, top last
    retiredCount: nat,
    threads: seq<Pc<T>>,
    results: map<Id, Stamp<T>>,  // history: what the pop that moved the head off this node returned, and to whom
    freed: seq<Id>)         // history: nodes handed to `delete`, in order

  /** What the scheduler does to a thread: start an operation, or let it take its next
      step, where a weak compare-exchange may fail for no reason. */
  datatype Event<+T> = Push(value: T) | Pop | Go(spurious: bool)

  function Init<T>(threads: nat): State<T> {
    State(Mem([Node(None, None)], 0, 0, Log([0], map[0 := 0], [0], [], [])),
          0, [], 0, seq(threads, _ => Idle), map[], [])
  }

  function NextOf<T>(m: Mem<T>, n: Id): Option<Id> {
    if n < |m.nodes| then m.nodes[n].next else None
  }

  function DataOf<T>(m: Mem<T>, n: Id): Option<T> {
    if n < |m.nodes| then m.nodes[n].data else None
  }

  function Stamped<T>(t: nat, data: Option<T>): seq<Stamp<T>> {
    match data
    case Some(v) => [Stamp(t, v)]
    case None => []
  }

  /** push: make a fresh node carrying the value. */
  function Allocate<T>(m: Mem<T>, t: nat, v: T): Mem<T> {
    m.(nodes := m.nodes + [Node(Some(v), None)], log := m.log.(makers := m.log.makers + [t]))
  }

  /** push: the successful compare-exchange on `tail->next`. */
  function Link<T>(m: Mem<T>, t: nat, n: Id, tail: Id): Mem<T>
    requires tail < |m.nodes|
  {
    m.(nodes := m.nodes[tail := m.nodes[tail].(next := Some(n))],
       log := m.log.(chain := m.log.chain + [n],
                     rank := m.log.rank[n := |m.log.chain|],
                     linked := m.log.linked + Stamped(t, DataOf(m, n))))
  }

  /** A weak compare-exchange on `tail_`. */
  function SwingTail<T>(m: Mem<T>, from: Id, to: Id, spurious: bool): Mem<T> {
    if m.tail == from && !spurious then m.(tail := to) else m
  }

  /** pop: the successful compare-exchange on `head_`. */
  function SwingHead<T>(m: Mem<T>, t: nat, succ: Id, data: Option<T>): Mem<T> {
    m.(head := succ, log := m.log.(popped := m.log.popped + Stamped(t, data)))
  }

  function Goto<T>(s: State<T>, t: nat, pc: Pc<T>): State<T>
    requires t < |s.threads|
  {
    s.(threads := s.threads[t := pc])
  }

  function PushStep<T>(s: State<T>, t: nat, spurious: bool): State<T>
    requires t < |s.threads|
  {
    match s.threads[t]
    case PushLoadTail(n) => Goto(s, t, PushLoadNext(n, s.mem.tail))
    case PushLoadNext(n, tail) => Goto(s, t, PushCheck(n, tail, NextOf(s.mem, tail)))
    case PushCheck(n, tail, next) =>
      if tail != s.mem.tail then Goto(s, t, PushLoadTail(n))
      else (match next
            case None => Goto(s, t, PushLink(n, tail))
            case Some(x) => Goto(s, t, PushHelp(n, tail, x)))
    case PushLink(n, tail) =>
      if tail < |s.mem.nodes| && NextOf(s.mem, tail).None? && !spurious
      then Goto(s, t, PushSwing(n, tail)).(mem := Link(s.mem, t, n, tail))
      else Goto(s, t, PushLoadTail(n))
    case PushSwing(n, tail) => Goto(s, t, PushCount(n)).(mem := SwingTail(s.mem, tail, n, spurious))
    case PushCount(n) => Goto(s, t, Idle).(size := (s.size + 1) % WORD)
    case PushHelp(n, tail, x) => Goto(s, t, PushLoadTail(n)).(mem := SwingTail(s.mem, tail, x, spurious))
    case _ => s
  }

  function PopStep<T>(s: State<T>, t: nat, spurious: bool): State<T>
    requires t < |s.threads|
  {
    match s.threads[t]
    case PopLoadHead => Goto(s, t, PopLoadTail(s.mem.head))
    case PopLoadTail(h) => Goto(s, t, PopLoadNext(h, s.mem.tail))
    case PopLoadNext(h, tail) => Goto(s, t, PopCheck(h, tail, NextOf(s.mem, h)))
    case PopCheck(h, tail, next) =>
      if h != s.mem.head then Goto(s, t, PopLoadHead)
      else (match next
            case None => if h == tail then Goto(s, t, Idle) else Goto(s, t, PopLoadHead)
            case Some(x) => if h == tail then Goto(s, t, PopHelp(tail, x)) else Goto(s, t, PopRead(h, x)))
    case PopHelp(tail, x) => Goto(s, t, PopLoadHead).(mem := SwingTail(s.mem, tail, x, spurious))
    case PopRead(h, x) => Goto(s, t, PopSwing(h, x, DataOf(s.mem, x)))
    case PopSwing(h, x, data) =>
      if s.mem.head == h && !spurious
      then Goto(s, t, PopCount(h, data)).(mem := SwingHead(s.mem, t, x, data))
      else Goto(s, t, PopLoadHead)
    case PopCount(h, data) => Goto(s, t, PopRetire(h, data)).(size := (s.size - 1) % WORD)
    case PopRetire(h, data) =>
      if spurious then s else Goto(s, t, PopTally(h, data)).(retired := s.retired + [h])
    case PopTally(h, data) =>
      Goto(s, t, PopReclaim(h, data)).(retiredCount := (s.retiredCount + 1) % WORD)
    case PopReclaim(h, data) =>
      Goto(s, t, if s.retiredCount < RECLAIM_THRESHOLD then PopReturn(h, data) else PopTake(h, data))
    case PopTake(h, data) =>
      // exchange the retired stack for null: what was on it is deleted
      if s.retired == [] then Goto(s, t, PopReturn(h, data))
      else Goto(s, t, PopReset(h, data)).(retired := [], freed := s.freed + s.retired)
    case PopReset(h, data) => Goto(s, t, PopReturn(h, data)).(retiredCount := 0)
    case PopReturn(h, data) =>
      // answer with the value, or go round again when the node carried none
      (match data
       case Some(v) => Goto(s, t, Idle).(results := s.results[h := Stamp(t, v)])
       case None => Goto(s, t, PopLoadHead))
    case _ => s
  }

  predicate Pushing<T>(pc: Pc<T>) {
    || pc.PushLoadTail? || pc.PushLoadNext? || pc.PushCheck? || pc.PushLink?
    || pc.PushSwing? || pc.PushCount? || pc.PushHelp?
  }

  /** One atomic step of thread `t`.  An event that does not fit the thread's state changes nothing. */
  function Step<T>(s: State<T>, t: nat, e: Event<T>): State<T>
    requires t < |s.threads|
  {
    match e
    case Push(v) =>
      if s.threads[t].Idle? then Goto(s, t, PushLoadTail(|s.mem.nodes|)).(mem := Allocate(s.mem, t, v)) else s
    case Pop => if s.threads[t].Idle? then Goto(s, t, PopLoadHead) else s
    case Go(spurious) =>
      if Pushing(s.threads[t]) then PushStep(s, t, spurious) else PopStep(s, t, spurious)
  }

  // ---------------------------------------------------------------- invariant

  /** The thread took a value off the queue and has not answered its caller yet. */
  predicate Took<T>(pc: Pc<T>) {
    || pc.PopCount? || pc.PopRetire? || pc.PopTally? || pc.PopReclaim?
    || pc.PopTake? || pc.PopReset? || pc.PopReturn?
  }

  /** The thread still has to put the old head on the retired stack. */
  predicate Holding<T>(pc: Pc<T>) {
    pc.PopCount? || pc.PopRetire?
  }

  /** The linked nodes form one list in link order, nothing follows the last one, every node
      after the dummy carries the value it was linked with, and the head has moved over
      exactly the popped values. */
  ghost predicate Listed<T>(nodes: seq<Node<T>>, head: Id, g: Log<T>)
  {
    && |g.chain| > 0 && |g.makers| == |nodes|
    && (forall i :: 0 <= i < |g.chain| ==> g.chain[i] in g.rank && g.rank[g.chain[i]] == i)
    && (forall n :: n in g.rank ==> n < |nodes| && g.rank[n] < |g.chain| && g.chain[g.rank[n]] == n)
    && (forall n {:trigger nodes[n]} :: n in g.rank ==>
          nodes[n].next == if g.rank[n] + 1 < |g.chain| then Some(g.chain[g.rank[n] + 1]) else None)
    && |g.linked| + 1 == |g.chain|
    && (forall n {:trigger nodes[n]} :: n in g.rank && g.rank[n] > 0 ==> nodes[n].data == Some(g.linked[g.rank[n] - 1].value))
    && head in g.rank && |g.popped| == g.rank[head]
    && (forall i :: 0 <= i < |g.popped| ==> g.popped[i].value == g.linked[i].value)
  }

  /** Head never passes tail; tail is the last or second-to-last node. */
  ghost predicate TailOk<T>(head: Id, tail: Id, g: Log<T>)
  {
    && head in g.rank && tail in g.rank
    && g.rank[head] <= g.rank[tail]
    && g.rank[tail] < |g.chain| <= g.rank[tail] + 2
  }

  ghost predicate Shape<T>(m: Mem<T>) {
    Listed(m.nodes, m.head, m.log) && TailOk(m.head, m.tail, m.log)
  }

  /** A node its maker has not linked yet. */
  ghost predicate Private<T>(m: Mem<T>, t: nat, n: Id) {
    && n < |m.nodes| && n < |m.log.makers| && m.log.makers[n] == t
    && n !in m.log.rank && m.nodes[n].next.None? && m.nodes[n].data.Some?
  }

  ghost predicate WasTail<T>(m: Mem<T>, n: Id) {
    n in m.log.rank && m.tail in m.log.rank && m.log.rank[n] <= m.log.rank[m.tail]
  }

  ghost predicate WasHead<T>(m: Mem<T>, n: Id) {
    n in m.log.rank && m.head in m.log.rank && m.log.rank[n] <= m.log.rank[m.head]
  }

  ghost predicate Follows<T>(m: Mem<T>, n: Id, x: Id) {
    n in m.log.rank && x in m.log.rank && m.log.rank[x] == m.log.rank[n] + 1
  }

  /** What holds of a thread that swung the head off `h` and has not answered yet. */
  ghost predicate Owes<T>(m: Mem<T>, t: nat, h: Id, data: Option<T>) {
    && h in m.log.rank && m.log.rank[h] < |m.log.popped|
    && m.log.popped[m.log.rank[h]].tid == t
    && data == Some(m.log.popped[m.log.rank[h]].value)
  }

  /** What every thread knows at each program point. */
  ghost predicate ThreadOk<T>(m: Mem<T>, t: nat, pc: Pc<T>) {
    match pc
    case Idle => true
    case PushLoadTail(n) => Private(m, t, n)
    case PushLoadNext(n, tail) => Private(m, t, n) && WasTail(m, tail)
    case PushCheck(n, tail, next) =>
      Private(m, t, n) && WasTail(m, tail) && (next.Some? ==> Follows(m, tail, next.value))
    case PushLink(n, tail) => Private(m, t, n) && WasTail(m, tail)
    case PushSwing(n, tail) => WasTail(m, tail) && Follows(m, tail, n)
    case PushCount(n) => n in m.log.rank
    case PushHelp(n, tail, x) => Private(m, t, n) && WasTail(m, tail) && Follows(m, tail, x)
    case PopLoadHead => true
    case PopLoadTail(h) => WasHead(m, h)
    case PopLoadNext(h, tail) => WasHead(m, h) && WasTail(m, tail) && m.log.rank[h] <= m.log.rank[tail]
    case PopCheck(h, tail, next) =>
      && WasHead(m, h) && WasTail(m, tail) && m.log.rank[h] <= m.log.rank[tail]
      && (if next.Some? then Follows(m, h, next.value) else h == tail)
    case PopHelp(tail, x) => WasTail(m, tail) && Follows(m, tail, x)
    case PopRead(h, x) => WasHead(m, h) && Follows(m, h, x) && WasTail(m, x)
    case PopSwing(h, x, data) =>
      && WasHead(m, h) && Follows(m, h, x) && WasTail(m, x)
      && x < |m.nodes| && data == m.nodes[x].data
    case PopCount(h, data) => Owes(m, t, h, data)
    case PopRetire(h, data) => Owes(m, t, h, data)
    case PopTally(h, data) => Owes(m, t, h, data)
    case PopReclaim(h, data) => Owes(m, t, h, data)
    case PopTake(h, data) => Owes(m, t, h, data)
    case PopReset(h, data) => Owes(m, t, h, data)
    case PopReturn(h, data) => Owes(m, t, h, data)
  }

  ghost predicate Threads<T>(s: State<T>) {
    forall t :: 0 <= t < |s.threads| ==> ThreadOk(s.mem, t, s.threads[t])
  }

  /** Nodes given up so far: first the freed ones, then those on the retired stack. */
  function Disposed<T>(s: State<T>): seq<Id> {
    s.freed + s.retired
  }

  /** The thread that moved the head off position `i` has not retired that node yet. */
  ghost predicate StillHeld<T>(s: State<T>, i: nat) {
    && i < |s.mem.log.popped| && i < |s.mem.log.chain| && s.mem.log.popped[i].tid < |s.threads|
    && var pc := s.threads[s.mem.log.popped[i].tid];
       Holding(pc) && pc.head == s.mem.log.chain[i]
  }

  /** The thread that moved the head off position `i` has not answered its caller yet. */
  ghost predicate Unanswered<T>(s: State<T>, i: nat) {
    && i < |s.mem.log.popped| && i < |s.mem.log.chain| && s.mem.log.popped[i].tid < |s.threads|
    && var pc := s.threads[s.mem.log.popped[i].tid];
       Took(pc) && pc.head == s.mem.log.chain[i]
  }

  /** Every old head is disposed of exactly once: it is still held by the thread that moved
      the head off it, or it occurs exactly once among the freed and retired nodes. */
  ghost predicate Disposal<T>(s: State<T>)
  {
    var d, g := Disposed(s), s.mem.log;
    && |g.popped| <= |g.chain|
    && (forall i, j :: 0 <= i < j < |d| ==> d[i] != d[j])
    && (forall i :: 0 <= i < |d| ==> d[i] in g.rank && g.rank[d[i]] < |g.popped|)
    && (forall t :: 0 <= t < |s.threads| && Holding(s.threads[t]) ==> s.threads[t].head !in d)
    && (forall i :: 0 <= i < |g.popped| ==> g.chain[i] in d || StillHeld(s, i))
  }

  /** Every value taken off the queue is answered exactly once, to the thread that took it. */
  ghost predicate Answers<T>(s: State<T>)
  {
    var g := s.mem.log;
    && |g.popped| <= |g.chain|
    && (forall n :: n in s.results ==>
          n in g.rank && g.rank[n] < |g.popped| && s.results[n] == g.popped[g.rank[n]])
    && (forall t :: 0 <= t < |s.threads| && Took(s.threads[t]) ==> s.threads[t].head !in s.results)
    && (forall i :: 0 <= i < |g.popped| ==> g.chain[i] in s.results || Unanswered(s, i))
  }

  /** Linked but not yet counted, minus unlinked but not yet discounted. */
  function Uncounted<T>(threads: seq<Pc<T>>): int {
    if threads == [] then 0
    else Uncounted(threads[..|threads| - 1]) + Weight(threads[|threads| - 1])
  }

  function Weight<T>(pc: Pc<T>): int {
    if pc.PushSwing? || pc.PushCount? then 1 else if pc.PopCount? then -1 else 0
  }

  /** Conservation law of `size_`. */
  ghost predicate Sized<T>(s: State<T>) {
    s.size == (|s.mem.log.linked| - |s.mem.log.popped| - Uncounted(s.threads)) % WORD
  }

  ghost predicate Inv<T>(s: State<T>) {
    Shape(s.mem) && Threads(s) && Disposal(s) && Answers(s) && Sized(s)
  }

  // ----------------------------------------------------------- the linked list

  /** History only grows: what one thread relies on, no other thread takes away. */
  ghost predicate Grows<T>(m: Mem<T>, m': Mem<T>) {
    && |m.nodes| <= |m'.nodes| && |m.log.makers| == |m.nodes| && |m'.log.makers| == |m'.nodes|
    && (forall n :: 0 <= n < |m.nodes| ==>
          m'.nodes[n].data == m.nodes[n].data && m'.log.makers[n] == m.log.makers[n])
    && (forall n :: n in m.log.rank ==> n in m'.log.rank && m'.log.rank[n] == m.log.rank[n])
    && WasHead(m, m.head) && WasHead(m', m'.head) && WasHead(m', m.head)
    && WasTail(m, m.tail) && WasTail(m', m'.tail) && WasTail(m', m.tail)
    && m.log.popped <= m'.log.popped && m.log.chain <= m'.log.chain
  }

  lemma Stable<T>(m: Mem<T>, m': Mem<T>, t: nat, pc: Pc<T>)
    requires Grows(m, m') && ThreadOk(m, t, pc)
    requires Pushing(pc) && Private(m, t, pc.node) ==> Private(m', t, pc.node)
    ensures ThreadOk(m', t, pc)
  {
  }

  lemma AllocateShape<T>(m: Mem<T>, t: nat, v: T)
    requires Shape(m)
    ensures var m' := Allocate(m, t, v);
            Shape(m') && Grows(m, m') && Private(m', t, |m.nodes|)
  {
  }

  /** Only a node without successor can be linked to, so it is the last one, and tail is on it. */
  lemma NullNextIsTail<T>(m: Mem<T>, tail: Id)
    requires Shape(m) && WasTail(m, tail) && NextOf(m, tail).None?
    ensures tail < |m.nodes| && m.tail == tail && m.log.rank[tail] + 1 == |m.log.chain|
  {
    assert m.nodes[tail].next.None?;
    assert m.log.chain[m.log.rank[tail]] == tail && m.log.chain[m.log.rank[m.tail]] == m.tail;
  }

  lemma LinkRanks<T>(m: Mem<T>, t: nat, n: Id, tail: Id)
    requires Listed(m.nodes, m.head, m.log) && Private(m, t, n) && tail < |m.nodes|
    ensures var g := Link(m, t, n, tail).log;
            && (forall i :: 0 <= i < |g.chain| ==> g.chain[i] in g.rank && g.rank[g.chain[i]] == i)
            && (forall x :: x in g.rank ==> x < |m.nodes| && g.rank[x] < |g.chain| && g.chain[g.rank[x]] == x)
  {
  }

  lemma LinkNexts<T>(m: Mem<T>, t: nat, n: Id, tail: Id)
    requires Listed(m.nodes, m.head, m.log) && Private(m, t, n)
    requires tail in m.log.rank && tail < |m.nodes| && m.log.rank[tail] + 1 == |m.log.chain|
    ensures var m' := Link(m, t, n, tail); var g := m'.log;
            forall x {:trigger m'.nodes[x]} :: x in g.rank && x < |m'.nodes| && g.rank[x] < |g.chain| ==>
              m'.nodes[x].next == if g.rank[x] + 1 < |g.chain| then Some(g.chain[g.rank[x] + 1]) else None
  {
    var m' := Link(m, t, n, tail);
    var g := m'.log;
    forall x {:trigger m'.nodes[x]} | x in g.rank && x < |m'.nodes| && g.rank[x] < |g.chain|
      ensures m'.nodes[x].next == if g.rank[x] + 1 < |g.chain| then Some(g.chain[g.rank[x] + 1]) else None
    {
      if x != n && x != tail {
        assert m.nodes[x].next == m'.nodes[x].next;
        assert m.log.chain[m.log.rank[x]] == x && m.log.chain[m.log.rank[tail]] == tail;
      }
    }
  }

  lemma LinkListed<T>(m: Mem<T>, t: nat, n: Id, tail: Id)
    requires Listed(m.nodes, m.head, m.log) && Private(m, t, n)
    requires tail in m.log.rank && tail < |m.nodes| && m.log.rank[tail] + 1 == |m.log.chain|
    ensures var m' := Link(m, t, n, tail); Listed(m'.nodes, m'.head, m'.log)
  {
    LinkRanks(m, t, n, tail);
    LinkNexts(m, t, n, tail);
  }

  lemma LinkShape<T>(m: Mem<T>, t: nat, n: Id, tail: Id)
    requires Shape(m) && Private(m, t, n) && WasTail(m, tail) && NextOf(m, tail).None?
    ensures tail < |m.nodes| && m.tail == tail
    ensures var m' := Link(m, t, n, tail);
            && Shape(m') && Grows(m, m') && ThreadOk(m', t, PushSwing(n, tail))
            && |m'.log.linked| == |m.log.linked| + 1
  {
    NullNextIsTail(m, tail);
    LinkListed(m, t, n, tail);
  }

  lemma SwingTailShape<T>(m: Mem<T>, from: Id, to: Id, spurious: bool)
    requires Shape(m) && Follows(m, from, to)
    ensures Shape(SwingTail(m, from, to, spurious)) && Grows(m, SwingTail(m, from, to, spurious))
  {
  }

  lemma SwingHeadShape<T>(m: Mem<T>, t: nat, h: Id, x: Id, data: Option<T>)
    requires Shape(m) && m.head == h && ThreadOk(m, t, PopSwing(h, x, data))
    ensures var m' := SwingHead(m, t, x, data);
            && Shape(m') && Grows(m, m') && ThreadOk(m', t, PopCount(h, data))
            && |m'.log.popped| == |m.log.popped| + 1
            && m'.log.chain[|m.log.popped|] == h
  {
    assert m.nodes[x].data == data;
  }

  /** A node that once was the head and has no successor is the last one: the queue is empty. */
  lemma NullNextMeansEmpty<T>(m: Mem<T>, h: Id)
    requires Shape(m) && WasHead(m, h)
    ensures NextOf(m, h).None? ==> h == m.head && |m.log.popped| == |m.log.linked|
    ensures NextOf(m, h).Some? ==> Follows(m, h, NextOf(m, h).value)
  {
    assert m.nodes[h].next == NextOf(m, h);
    assert m.log.chain[m.log.rank[h]] == h;
    assert m.log.chain[m.log.rank[m.head]] == m.head;
  }

  // -------------------------------------------------- what one thread's step keeps

  /** Of all threads, only `t` moves. */
  ghost predicate Moves<T>(s: State<T>, s': State<T>, t: nat) {
    t < |s.threads| == |s'.threads| && s'.threads == s.threads[t := s'.threads[t]]
  }

  lemma ThreadsKept<T>(s: State<T>, s': State<T>, t: nat)
    requires Threads(s) && Moves(s, s', t) && Grows(s.mem, s'.mem)
    requires ThreadOk(s'.mem, t, s'.threads[t])
    requires forall u, n :: 0 <= u < |s.threads| && u != t && Private(s.mem, u, n) ==> Private(s'.mem, u, n)
    ensures Threads(s')
  {
    forall u | 0 <= u < |s'.threads| ensures ThreadOk(s'.mem, u, s'.threads[u]) {
      if u != t {
        assert ThreadOk(s.mem, u, s.threads[u]);
        Stable(s.mem, s'.mem, u, s.threads[u]);
      }
    }
  }

  lemma DisposalKept<T>(s: State<T>, s': State<T>, t: nat)
    requires Disposal(s) && Moves(s, s', t) && Disposed(s') == Disposed(s)
    requires Grows(s.mem, s'.mem) && s'.mem.log.popped == s.mem.log.popped
    requires Holding(s'.threads[t]) == Holding(s.threads[t])
    requires Holding(s.threads[t]) ==> s'.threads[t].head == s.threads[t].head
    ensures Disposal(s')
  {
    forall i | 0 <= i < |s.mem.log.popped| ensures s'.mem.log.chain[i] in Disposed(s') || StillHeld(s', i) {
      assert s.mem.log.chain[i] in Disposed(s) || StillHeld(s, i);
    }
  }

  lemma AnswersKept<T>(s: State<T>, s': State<T>, t: nat)
    requires Answers(s) && Moves(s, s', t) && s'.results == s.results
    requires Grows(s.mem, s'.mem) && s'.mem.log.popped == s.mem.log.popped
    requires Took(s'.threads[t]) == Took(s.threads[t])
    requires Took(s.threads[t]) ==> s'.threads[t].head == s.threads[t].head
    ensures Answers(s')
  {
    forall i | 0 <= i < |s.mem.log.popped| ensures s'.mem.log.chain[i] in s'.results || Unanswered(s', i) {
      assert s.mem.log.chain[i] in s.results || Unanswered(s, i);
    }
  }

  lemma {:induction false} UncountedUpdate<T>(threads: seq<Pc<T>>, t: nat, pc: Pc<T>)
    requires t < |threads|
    ensures Uncounted(threads[t := pc]) == Uncounted(threads) - Weight(threads[t]) + Weight(pc)
  {
    var n := |threads| - 1;
    if t == n {
      assert threads[t := pc][..n] == threads[..n];
    } else {
      assert threads[t := pc][..n] == threads[..n][t := pc];
      UncountedUpdate(threads[..n], t, pc);
    }
  }

  lemma {:induction false} UncountedIdle<T>(n: nat)
    ensures Uncounted(seq(n, _ => Pc<T>.Idle)) == 0
  {
    if n > 0 {
      assert seq(n, _ => Pc<T>.Idle)[..n - 1] == seq(n - 1, _ => Pc<T>.Idle);
      UncountedIdle<T>(n - 1);
    }
  }

  /** A step that leaves `size_` alone moves as much into the chain as into the uncounted. */
  lemma SizedKept<T>(s: State<T>, s': State<T>, t: nat)
    requires Sized(s) && Moves(s, s', t) && s'.size == s.size
    requires |s'.mem.log.linked| - |s'.mem.log.popped| - Weight(s'.threads[t])
          == |s.mem.log.linked| - |s.mem.log.popped| - Weight(s.threads[t])
    ensures Sized(s')
  {
    UncountedUpdate(s.threads, t, s'.threads[t]);
  }

  lemma SizedCounted<T>(s: State<T>, s': State<T>, t: nat)
    requires Sized(s) && Moves(s, s', t) && s'.mem == s.mem && Weight(s'.threads[t]) == 0
    requires s'.size == (s.size + Weight(s.threads[t])) % WORD
    ensures Sized(s')
  {
    UncountedUpdate(s.threads, t, s'.threads[t]);
  }

  /** A step inside push, or before the head swing of pop. */
  lemma SearchInv<T>(s: State<T>, s': State<T>, t: nat)
    requires Inv(s) && Moves(s, s', t) && s' == s.(mem := s'.mem, threads := s'.threads)
    requires Shape(s'.mem) && Grows(s.mem, s'.mem) && s'.mem.log.popped == s.mem.log.popped
    requires !Took(s.threads[t]) && !Took(s'.threads[t]) && ThreadOk(s'.mem, t, s'.threads[t])
    requires forall u, n :: 0 <= u < |s.threads| && u != t && Private(s.mem, u, n) ==> Private(s'.mem, u, n)
    requires |s'.mem.log.linked| - Weight(s'.threads[t]) == |s.mem.log.linked| - Weight(s.threads[t])
    ensures Inv(s')
  {
    ThreadsKept(s, s', t);
    DisposalKept(s, s', t);
    AnswersKept(s, s', t);
    SizedKept(s, s', t);
  }

  lemma GrowsRefl<T>(m: Mem<T>)
    requires Shape(m)
    ensures Grows(m, m)
  {
  }

  /** A load of `next` tells the thread what follows; a non-null successor of a head other than
      tail is not beyond tail. */
  lemma LoadsOk<T>(m: Mem<T>, t: nat, pc: Pc<T>)
    requires Shape(m) && ThreadOk(m, t, pc)
    ensures pc.PushLoadNext? ==> ThreadOk(m, t, PushCheck(pc.node, pc.tail, NextOf(m, pc.tail)))
    ensures pc.PopLoadNext? ==> ThreadOk(m, t, PopCheck(pc.head, pc.tail, NextOf(m, pc.head)))
    ensures pc.PopCheck? && pc.next.Some? && pc.head != pc.tail ==> ThreadOk(m, t, PopRead(pc.head, pc.next.value))
  {
    if pc.PushLoadNext? {
      assert m.nodes[pc.tail].next == NextOf(m, pc.tail);
    } else if pc.PopLoadNext? {
      NullNextMeansEmpty(m, pc.head);
      assert m.log.chain[m.log.rank[pc.head]] == pc.head && m.log.chain[m.log.rank[pc.tail]] == pc.tail;
    } else if pc.PopCheck? {
      assert m.log.chain[m.log.rank[pc.head]] == pc.head && m.log.chain[m.log.rank[pc.tail]] == pc.tail;
    }
  }

  /** A step that moves only the thread's own program counter, before it takes anything. */
  lemma LocalInv<T>(s: State<T>, t: nat, pc: Pc<T>)
    requires Inv(s) && t < |s.threads| && !Took(s.threads[t]) && !Took(pc) && ThreadOk(s.mem, t, pc)
    requires Weight(pc) == Weight(s.threads[t])
    ensures Inv(Goto(s, t, pc))
  {
    GrowsRefl(s.mem);
    SearchInv(s, Goto(s, t, pc), t);
  }

  lemma PushLoadInv<T>(s: State<T>, t: nat, spurious: bool)
    requires Inv(s) && t < |s.threads|
    requires var pc := s.threads[t]; pc.PushLoadTail? || pc.PushLoadNext? || pc.PushCheck?
    ensures Inv(PushStep(s, t, spurious))
  {
    assert ThreadOk(s.mem, t, s.threads[t]);
    LoadsOk(s.mem, t, s.threads[t]);
    LocalInv(s, t, PushStep(s, t, spurious).threads[t]);
  }

  /** Linking `n` touches no node that another thread still keeps to itself. */
  lemma LinkKeepsPrivate<T>(m: Mem<T>, t: nat, n: Id, tail: Id, u: nat, x: Id)
    requires Shape(m) && Private(m, t, n) && WasTail(m, tail) && tail < |m.nodes| && u != t && Private(m, u, x)
    ensures Private(Link(m, t, n, tail), u, x)
  {
  }

  lemma LinkInv<T>(s: State<T>, s': State<T>, t: nat, n: Id, tail: Id)
    requires Inv(s) && t < |s.threads| && s.threads[t] == PushLink(n, tail)
    requires NextOf(s.mem, tail).None? && s' == Goto(s, t, PushSwing(n, tail)).(mem := Link(s.mem, t, n, tail))
    ensures Inv(s')
  {
    assert ThreadOk(s.mem, t, s.threads[t]);
    LinkShape(s.mem, t, n, tail);
    forall u, x | 0 <= u < |s.threads| && u != t && Private(s.mem, u, x) ensures Private(s'.mem, u, x) {
      LinkKeepsPrivate(s.mem, t, n, tail, u, x);
    }
    SearchInv(s, s', t);
  }

  lemma PushLinkInv<T>(s: State<T>, t: nat, n: Id, tail: Id, spurious: bool)
    requires Inv(s) && t < |s.threads| && s.threads[t] == PushLink(n, tail)
    ensures Inv(PushStep(s, t, spurious))
  {
    if NextOf(s.mem, tail).None? && !spurious {
      LinkInv(s, PushStep(s, t, spurious), t, n, tail);
    } else {
      assert ThreadOk(s.mem, t, s.threads[t]);
      LocalInv(s, t, PushLoadTail(n));
    }
  }

  lemma SwingTailInv<T>(s: State<T>, s': State<T>, t: nat, from: Id, to: Id, spurious: bool)
    requires Inv(s) && Moves(s, s', t) && s' == s.(mem := SwingTail(s.mem, from, to, spurious), threads := s'.threads)
    requires Follows(s.mem, from, to) && ThreadOk(s.mem, t, s'.threads[t])
    requires !Took(s.threads[t]) && !Took(s'.threads[t]) && Weight(s'.threads[t]) == Weight(s.threads[t])
    ensures Inv(s')
  {
    SwingTailShape(s.mem, from, to, spurious);
    Stable(s.mem, s'.mem, t, s'.threads[t]);
    SearchInv(s, s', t);
  }

  lemma PushHelpInv<T>(s: State<T>, t: nat, spurious: bool)
    requires Inv(s) && t < |s.threads| && (s.threads[t].PushSwing? || s.threads[t].PushHelp?)
    ensures Inv(PushStep(s, t, spurious))
  {
    assert ThreadOk(s.mem, t, s.threads[t]);
    var to := if s.threads[t].PushSwing? then s.threads[t].node else s.threads[t].succ;
    SwingTailInv(s, PushStep(s, t, spurious), t, s.threads[t].tail, to, spurious);
  }

  lemma PopHelpInv<T>(s: State<T>, t: nat, spurious: bool)
    requires Inv(s) && t < |s.threads| && s.threads[t].PopHelp?
    ensures Inv(PopStep(s, t, spurious))
  {
    assert ThreadOk(s.mem, t, s.threads[t]);
    SwingTailInv(s, PopStep(s, t, spurious), t, s.threads[t].tail, s.threads[t].succ, spurious);
  }

  lemma PopLoadInv<T>(s: State<T>, t: nat, spurious: bool)
    requires Inv(s) && t < |s.threads|
    requires var pc := s.threads[t]; pc.PopLoadHead? || pc.PopLoadTail? || pc.PopLoadNext?
    ensures Inv(PopStep(s, t, spurious))
  {
    assert ThreadOk(s.mem, t, s.threads[t]);
    LoadsOk(s.mem, t, s.threads[t]);
    LocalInv(s, t, PopStep(s, t, spurious).threads[t]);
  }

  /** Where the checks of pop lead, and what the thread then knows. */
  lemma PopCheckNext<T>(s: State<T>, t: nat, spurious: bool)
    requires t < |s.threads| && s.threads[t].PopCheck? && Shape(s.mem) && ThreadOk(s.mem, t, s.threads[t])
    ensures var s' := PopStep(s, t, spurious);
            && |s'.threads| == |s.threads| && s' == Goto(s, t, s'.threads[t])
            && !Took(s'.threads[t]) && Weight(s'.threads[t]) == 0 && ThreadOk(s.mem, t, s'.threads[t])
  {
    LoadsOk(s.mem, t, s.threads[t]);
  }

  lemma PopCheckInv<T>(s: State<T>, t: nat, spurious: bool)
    requires Inv(s) && t < |s.threads| && s.threads[t].PopCheck?
    ensures Inv(PopStep(s, t, spurious))
  {
    assert ThreadOk(s.mem, t, s.threads[t]);
    PopCheckNext(s, t, spurious);
    LocalInv(s, t, PopStep(s, t, spurious).threads[t]);
  }

  lemma PopReadInv<T>(s: State<T>, t: nat, spurious: bool)
    requires Inv(s) && t < |s.threads| && s.threads[t].PopRead?
    ensures Inv(PopStep(s, t, spurious))
  {
    var pc := s.threads[t];
    assert ThreadOk(s.mem, t, pc);
    LocalInv(s, t, PopSwing(pc.head, pc.succ, DataOf(s.mem, pc.succ)));
  }

  lemma SwingHeadDisposal<T>(s: State<T>, s': State<T>, t: nat, h: Id)
    requires Disposal(s) && Moves(s, s', t) && Disposed(s') == Disposed(s) && Grows(s.mem, s'.mem)
    requires var k := |s.mem.log.popped|;
             && k < |s'.mem.log.chain| && |s'.mem.log.popped| == k + 1
             && s'.mem.log.popped[k].tid == t && s'.mem.log.chain[k] == h
             && h in s.mem.log.rank && s.mem.log.rank[h] == k
    requires !Holding(s.threads[t]) && Holding(s'.threads[t]) && s'.threads[t].head == h
    ensures Disposal(s')
  {
    var k := |s.mem.log.popped|;
    assert StillHeld(s', k);
    forall i | 0 <= i < k + 1 ensures s'.mem.log.chain[i] in Disposed(s') || StillHeld(s', i) {
      if i < k {
        assert s.mem.log.chain[i] in Disposed(s) || StillHeld(s, i);
      }
    }
  }

  lemma SwingHeadAnswers<T>(s: State<T>, s': State<T>, t: nat, h: Id)
    requires Answers(s) && Moves(s, s', t) && s'.results == s.results && Grows(s.mem, s'.mem)
    requires var k := |s.mem.log.popped|;
             && k < |s'.mem.log.chain| && |s'.mem.log.popped| == k + 1
             && s'.mem.log.popped[k].tid == t && s'.mem.log.chain[k] == h
             && h in s.mem.log.rank && s.mem.log.rank[h] == k
    requires !Took(s.threads[t]) && Took(s'.threads[t]) && s'.threads[t].head == h
    ensures Answers(s')
  {
    var k := |s.mem.log.popped|;
    assert Unanswered(s', k);
    forall i | 0 <= i < k + 1 ensures s'.mem.log.chain[i] in s'.results || Unanswered(s', i) {
      if i < k {
        assert s.mem.log.chain[i] in s.results || Unanswered(s, i);
      }
    }
  }

  lemma SwingHeadInv<T>(s: State<T>, t: nat, h: Id, x: Id, data: Option<T>)
    requires Inv(s) && t < |s.threads| && s.threads[t] == PopSwing(h, x, data) && s.mem.head == h
    ensures Inv(PopStep(s, t, false))
  {
    var s' := PopStep(s, t, false);
    assert ThreadOk(s.mem, t, s.threads[t]);
    SwingHeadShape(s.mem, t, h, x, data);
    ThreadsKept(s, s', t);
    SwingHeadDisposal(s, s', t, h);
    SwingHeadAnswers(s, s', t, h);
    SizedKept(s, s', t);
  }

  lemma PopSwingInv<T>(s: State<T>, t: nat, spurious: bool)
    requires Inv(s) && t < |s.threads| && s.threads[t].PopSwing?
    ensures Inv(PopStep(s, t, spurious))
  {
    var pc := s.threads[t];
    if s.mem.head == pc.head && !spurious {
      SwingHeadInv(s, t, pc.head, pc.succ, pc.data);
    } else {
      LocalInv(s, t, PopLoadHead);
    }
  }

  /** A step that leaves the list alone and keeps the thread among those that owe an answer. */
  lemma FinishInv<T>(s: State<T>, s': State<T>, t: nat)
    requires Inv(s) && Moves(s, s', t) && s'.mem == s.mem && s'.results == s.results && Disposed(s') == Disposed(s)
    requires Took(s.threads[t]) && Took(s'.threads[t]) && s'.threads[t].head == s.threads[t].head
    requires Holding(s'.threads[t]) == Holding(s.threads[t]) && ThreadOk(s.mem, t, s'.threads[t])
    requires Sized(s')
    ensures Inv(s')
  {
    GrowsRefl(s.mem);
    ThreadsKept(s, s', t);
    DisposalKept(s, s', t);
    AnswersKept(s, s', t);
  }

  lemma PushCountInv<T>(s: State<T>, t: nat, spurious: bool)
    requires Inv(s) && t < |s.threads| && s.threads[t].PushCount?
    ensures Inv(PushStep(s, t, spurious))
  {
    var s' := PushStep(s, t, spurious);
    GrowsRefl(s.mem);
    ThreadsKept(s, s', t);
    DisposalKept(s, s', t);
    AnswersKept(s, s', t);
    SizedCounted(s, s', t);
  }

  lemma PopCountInv<T>(s: State<T>, t: nat, spurious: bool)
    requires Inv(s) && t < |s.threads| && s.threads[t].PopCount?
    ensures Inv(PopStep(s, t, spurious))
  {
    var s' := PopStep(s, t, spurious);
    assert ThreadOk(s.mem, t, s.threads[t]);
    SizedCounted(s, s', t);
    FinishInv(s, s', t);
  }

  lemma ReclaimInv<T>(s: State<T>, t: nat, spurious: bool)
    requires Inv(s) && t < |s.threads|
    requires var pc := s.threads[t]; pc.PopTally? || pc.PopReclaim? || pc.PopTake? || pc.PopReset?
    ensures Inv(PopStep(s, t, spurious))
  {
    var s' := PopStep(s, t, spurious);
    assert ThreadOk(s.mem, t, s.threads[t]);
    assert Disposed(s') == Disposed(s);
    SizedKept(s, s', t);
    FinishInv(s, s', t);
  }

  lemma RetireDisposal<T>(s: State<T>, s': State<T>, t: nat, h: Id)
    requires Disposal(s) && Moves(s, s', t) && Disposed(s') == Disposed(s) + [h] && s'.mem == s.mem
    requires Holding(s.threads[t]) && s.threads[t].head == h && !Holding(s'.threads[t])
    requires h in s.mem.log.rank && s.mem.log.rank[h] < |s.mem.log.popped|
    requires forall u :: 0 <= u < |s.threads| && u != t && Holding(s.threads[u]) ==> s.threads[u].head != h
    ensures Disposal(s')
  {
    var d, d' := Disposed(s), Disposed(s');
    assert d'[|d|] == h;
    forall i | 0 <= i < |s.mem.log.popped| ensures s.mem.log.chain[i] in d' || StillHeld(s', i) {
      assert s.mem.log.chain[i] in d || StillHeld(s, i);
    }
  }

  lemma RetireInv<T>(s: State<T>, t: nat, h: Id, data: Option<T>)
    requires Inv(s) && t < |s.threads| && s.threads[t] == PopRetire(h, data)
    ensures Inv(PopStep(s, t, false))
  {
    var s' := PopStep(s, t, false);
    assert ThreadOk(s.mem, t, s.threads[t]);
    forall u | 0 <= u < |s.threads| && u != t && Holding(s.threads[u]) ensures s.threads[u].head != h {
      assert ThreadOk(s.mem, u, s.threads[u]);
    }
    assert Disposed(s') == Disposed(s) + [h];
    RetireDisposal(s, s', t, h);
    GrowsRefl(s.mem);
    ThreadsKept(s, s', t);
    AnswersKept(s, s', t);
    SizedKept(s, s', t);
  }

  lemma ReturnAnswers<T>(s: State<T>, s': State<T>, t: nat, h: Id, v: T)
    requires Answers(s) && Moves(s, s', t) && s'.mem == s.mem && s'.results == s.results[h := Stamp(t, v)]
    requires Took(s.threads[t]) && s.threads[t].head == h && !Took(s'.threads[t])
    requires Owes(s.mem, t, h, Some(v))
    requires forall u :: 0 <= u < |s.threads| && u != t && Took(s.threads[u]) ==> s.threads[u].head != h
    ensures Answers(s')
  {
    forall i | 0 <= i < |s.mem.log.popped| ensures s.mem.log.chain[i] in s'.results || Unanswered(s', i) {
      assert s.mem.log.chain[i] in s.results || Unanswered(s, i);
    }
  }

  lemma ReturnInv<T>(s: State<T>, t: nat, h: Id, data: Option<T>, spurious: bool)
    requires Inv(s) && t < |s.threads| && s.threads[t] == PopReturn(h, data)
    ensures Inv(PopStep(s, t, spurious))
  {
    assert ThreadOk(s.mem, t, s.threads[t]);
    var s' := PopStep(s, t, spurious);
    forall u | 0 <= u < |s.threads| && u != t && Took(s.threads[u]) ensures s.threads[u].head != h {
      assert ThreadOk(s.mem, u, s.threads[u]);
    }
    ReturnAnswers(s, s', t, h, data.value);
    GrowsRefl(s.mem);
    ThreadsKept(s, s', t);
    DisposalKept(s, s', t);
    SizedKept(s, s', t);
  }

  lemma AllocateInv<T>(s: State<T>, t: nat, v: T)
    requires Inv(s) && t < |s.threads| && s.threads[t].Idle?
    ensures Inv(Step(s, t, Push(v)))
  {
    AllocateShape(s.mem, t, v);
    SearchInv(s, Step(s, t, Push(v)), t);
  }

  lemma InitInv<T>(n: nat)
    ensures Inv(Init<T>(n))
  {
    UncountedIdle<T>(n);
  }

  lemma PushStepInv<T>(s: State<T>, t: nat, spurious: bool)
    requires Inv(s) && t < |s.threads| && Pushing(s.threads[t])
    ensures Inv(PushStep(s, t, spurious))
  {
    match s.threads[t]
    case PushLink(n, tail) => PushLinkInv(s, t, n, tail, spurious);
    case PushSwing(_, _) => PushHelpInv(s, t, spurious);
    case PushHelp(_, _, _) => PushHelpInv(s, t, spurious);
    case PushCount(_) => PushCountInv(s, t, spurious);
    case _ => PushLoadInv(s, t, spurious);
  }

  lemma PopStepInv<T>(s: State<T>, t: nat, spurious: bool)
    requires Inv(s) && t < |s.threads| && !Pushing(s.threads[t])
    ensures Inv(PopStep(s, t, spurious))
  {
    var pc := s.threads[t];
    if pc.PopLoadHead? || pc.PopLoadTail? || pc.PopLoadNext? {
      PopLoadInv(s, t, spurious);
    } else if pc.PopCheck? {
      PopCheckInv(s, t, spurious);
    } else if pc.PopRead? {
      PopReadInv(s, t, spurious);
    } else if pc.PopHelp? {
      PopHelpInv(s, t, spurious);
    } else if pc.PopSwing? {
      PopSwingInv(s, t, spurious);
    } else if pc.PopCount? {
      PopCountInv(s, t, spurious);
    } else if pc.PopRetire? {
      if !spurious { RetireInv(s, t, pc.head, pc.data); }
    } else if pc.PopReturn? {
      ReturnInv(s, t, pc.head, pc.data, spurious);
    } else if Took(pc) {
      ReclaimInv(s, t, spurious);
    }
  }

  /** Every step of every thread keeps the whole invariant. */
  lemma StepInv<T>(s: State<T>, t: nat, e: Event<T>)
    requires Inv(s) && t < |s.threads|
    ensures Inv(Step(s, t, e))
  {
    match e
    case Push(v) => if s.threads[t].Idle? { AllocateInv(s, t, v); }
    case Pop => if s.threads[t].Idle? { LocalInv(s, t, PopLoadHead); }
    case Go(spurious) =>
      if Pushing(s.threads[t]) { PushStepInv(s, t, spurious); } else { PopStepInv(s, t, spurious); }
  }

  // --------------------------------------------------------------- history only grows

  lemma PushGrows<T>(s: State<T>, t: nat, spurious: bool)
    requires t < |s.threads| && Pushing(s.threads[t]) && Shape(s.mem) && ThreadOk(s.mem, t, s.threads[t])
    ensures Grows(s.mem, PushStep(s, t, spurious).mem)
  {
    GrowsRefl(s.mem);
    var pc := s.threads[t];
    if pc.PushLink? && NextOf(s.mem, pc.tail).None? {
      LinkShape(s.mem, t, pc.node, pc.tail);
    } else if pc.PushSwing? {
      SwingTailShape(s.mem, pc.tail, pc.node, spurious);
    } else if pc.PushHelp? {
      SwingTailShape(s.mem, pc.tail, pc.succ, spurious);
    }
  }

  lemma PopGrows<T>(s: State<T>, t: nat, spurious: bool)
    requires t < |s.threads| && !Pushing(s.threads[t]) && Shape(s.mem) && ThreadOk(s.mem, t, s.threads[t])
    ensures Grows(s.mem, PopStep(s, t, spurious).mem)
  {
    GrowsRefl(s.mem);
    var pc := s.threads[t];
    if pc.PopHelp? {
      SwingTailShape(s.mem, pc.tail, pc.succ, spurious);
    } else if pc.PopSwing? && s.mem.head == pc.head {
      SwingHeadShape(s.mem, t, pc.head, pc.succ, pc.data);
    }
  }

  /** No step takes back what the history says. */
  lemma StepGrows<T>(s: State<T>, t: nat, e: Event<T>)
    requires Inv(s) && t < |s.threads|
    ensures Grows(s.mem, Step(s, t, e).mem)
  {
    assert ThreadOk(s.mem, t, s.threads[t]);
    GrowsRefl(s.mem);
    match e
    case Push(v) => AllocateShape(s.mem, t, v);
    case Pop =>
    case Go(spurious) =>
      if Pushing(s.threads[t]) { PushGrows(s, t, spurious); } else { PopGrows(s, t, spurious); }
  }

  // ------------------------------------------------------------- main theorems

  function Values<T>(xs: seq<Stamp<T>>): seq<T> {
    seq(|xs|, i requires 0 <= i < |xs| => xs[i].value)
  }

  function OptionSeq<T>(o: Option<T>): seq<T> {
    match o
    case Some(v) => [v]
    case None => []
  }

  /** The values met when following `next` pointers from node `n`. */
  function Walk<T>(m: Mem<T>, n: Id, fuel: nat): seq<T>
    decreases fuel
  {
    if fuel == 0 then []
    else match NextOf(m, n)
         case None => []
         case Some(x) => OptionSeq(DataOf(m, x)) + Walk(m, x, fuel - 1)
  }

  /** The abstract queue: what a walk from `head_` meets. */
  function Contents<T>(m: Mem<T>): seq<T> {
    Walk(m, m.head, |m.nodes|)
  }

  /** The node `k` pointers after `n`. */
  function After<T>(m: Mem<T>, n: Id, k: nat): Option<Id>
    decreases k
  {
    if k == 0 then Some(n)
    else match NextOf(m, n)
         case None => None
         case Some(x) => After(m, x, k - 1)
  }

  lemma NextInChain<T>(m: Mem<T>, i: nat)
    requires Shape(m) && i < |m.log.chain|
    ensures NextOf(m, m.log.chain[i]) == if i + 1 < |m.log.chain| then Some(m.log.chain[i + 1]) else None
    ensures i > 0 ==> DataOf(m, m.log.chain[i]) == Some(m.log.linked[i - 1].value)
  {
    assert m.nodes[m.log.chain[i]].next == NextOf(m, m.log.chain[i]);
  }

  lemma {:induction false} WalkFrom<T>(m: Mem<T>, i: nat, fuel: nat)
    requires Shape(m) && i < |m.log.chain| && fuel + i + 1 >= |m.log.chain|
    ensures Walk(m, m.log.chain[i], fuel) == Values(m.log.linked[i..])
    decreases fuel
  {
    NextInChain(m, i);
    if i + 1 < |m.log.chain| {
      NextInChain(m, i + 1);
      WalkFrom(m, i + 1, fuel - 1);
      assert Values(m.log.linked[i..]) == [m.log.linked[i].value] + Values(m.log.linked[i + 1..]);
    }
  }

  lemma {:induction false} AfterInChain<T>(m: Mem<T>, i: nat, k: nat)
    requires Shape(m) && i < |m.log.chain|
    ensures After(m, m.log.chain[i], k) == if i + k < |m.log.chain| then Some(m.log.chain[i + k]) else None
    decreases k
  {
    NextInChain(m, i);
    if k > 0 && i + 1 < |m.log.chain| {
      AfterInChain(m, i + 1, k - 1);
    }
  }

  /** FIFO: the popped values followed by the queue's contents are the linked values in link
      order; nothing is lost, duplicated or reordered. */
  lemma Fifo<T>(m: Mem<T>)
    requires Shape(m)
    ensures Values(m.log.popped) + Contents(m) == Values(m.log.linked)
    ensures Values(m.log.popped) <= Values(m.log.linked)
    ensures Contents(m) == [] <==> |m.log.popped| == |m.log.linked|
    ensures |Contents(m)| == |m.log.linked| - |m.log.popped|
  {
    ContentsFromLog(m);
    var p, l := m.log.popped, m.log.linked;
    assert Values(p) + Values(l[|p|..]) == Values(l);
  }

  /** What a step does to the abstract queue. */
  datatype Effect<+T> = Nothing | Enqueue(value: T) | Dequeue(value: T)

  /** Read off the program: only a successful link adds and only a successful head swing removes. */
  function EffectOf<T>(s: State<T>, t: nat, e: Event<T>): Effect<T>
    requires t < |s.threads|
  {
    var pc := s.threads[t];
    if !e.Go? || e.spurious then Nothing
    else if pc.PushLink? && NextOf(s.mem, pc.tail).None? && DataOf(s.mem, pc.node).Some?
    then Enqueue(DataOf(s.mem, pc.node).value)
    else if pc.PopSwing? && s.mem.head == pc.head && pc.data.Some? then Dequeue(pc.data.value)
    else Nothing
  }

  ghost predicate Refines<T>(q: seq<T>, q': seq<T>, eff: Effect<T>) {
    match eff
    case Nothing => q' == q
    case Enqueue(v) => q' == q + [v]
    case Dequeue(v) => q == [v] + q'
  }

  ghost predicate LogEffect<T>(g: Log<T>, g': Log<T>, t: nat, eff: Effect<T>) {
    match eff
    case Nothing => g'.linked == g.linked && g'.popped == g.popped
    case Enqueue(v) => g'.linked == g.linked + [Stamp(t, v)] && g'.popped == g.popped
    case Dequeue(v) => g'.linked == g.linked && g'.popped == g.popped + [Stamp(t, v)]
  }

  lemma LogOfPush<T>(s: State<T>, t: nat, spurious: bool)
    requires t < |s.threads| && Pushing(s.threads[t]) && ThreadOk(s.mem, t, s.threads[t]) && Shape(s.mem)
    ensures LogEffect(s.mem.log, PushStep(s, t, spurious).mem.log, t, EffectOf(s, t, Go(spurious)))
  {
  }

  lemma LogOfPop<T>(s: State<T>, t: nat, spurious: bool)
    requires t < |s.threads| && !Pushing(s.threads[t]) && ThreadOk(s.mem, t, s.threads[t]) && Shape(s.mem)
    ensures LogEffect(s.mem.log, PopStep(s, t, spurious).mem.log, t, EffectOf(s, t, Go(spurious)))
  {
    if s.threads[t].PopSwing? {
      assert s.mem.nodes[s.threads[t].succ].data == s.threads[t].data;
    }
  }

  lemma LogOfStep<T>(s: State<T>, t: nat, e: Event<T>)
    requires Inv(s) && t < |s.threads|
    ensures LogEffect(s.mem.log, Step(s, t, e).mem.log, t, EffectOf(s, t, e))
  {
    assert ThreadOk(s.mem, t, s.threads[t]);
    if e.Go? {
      if Pushing(s.threads[t]) { LogOfPush(s, t, e.spurious); } else { LogOfPop(s, t, e.spurious); }
    }
  }

  lemma ContentsEffect<T>(m: Mem<T>, m': Mem<T>, t: nat, eff: Effect<T>)
    requires Shape(m) && Shape(m') && LogEffect(m.log, m'.log, t, eff)
    ensures Refines(Contents(m), Contents(m'), eff)
  {
    ContentsFromLog(m);
    ContentsFromLog(m');
    var (g, g') := (m.log, m'.log);
    match eff
    case Nothing =>
    case Enqueue(v) =>
      assert Values(g'.linked[|g.popped|..]) == Values(g.linked[|g.popped|..]) + [v];
    case Dequeue(v) =>
      assert g'.popped[|g.popped|].value == v;
      assert Values(g.linked[|g.popped|..]) == [v] + Values(g.linked[|g'.popped|..]);
  }

  /** Every step refines an atomic queue: it enqueues at the back, dequeues from the front, or
      leaves the queue as it is. */
  lemma StepRefines<T>(s: State<T>, t: nat, e: Event<T>)
    requires Inv(s) && t < |s.threads|
    ensures Refines(Contents(s.mem), Contents(Step(s, t, e).mem), EffectOf(s, t, e))
  {
    StepInv(s, t, e);
    LogOfStep(s, t, e);
    ContentsEffect(s.mem, Step(s, t, e).mem, t, EffectOf(s, t, e));
  }

  lemma ContentsFromLog<T>(m: Mem<T>)
    requires Shape(m)
    ensures Contents(m) == Values(m.log.linked[|m.log.popped|..])
  {
    DistinctBound(m.log.chain, |m.nodes|);
    assert m.log.chain[m.log.rank[m.head]] == m.head;
    WalkFrom(m, m.log.rank[m.head], |m.nodes|);
  }

  /** A retired or freed node cannot be reached from `head_` or `tail_`. */
  lemma DisposedUnreachable<T>(s: State<T>, x: Id, k: nat)
    requires Inv(s) && x in Disposed(s)
    ensures After(s.mem, s.mem.head, k) != Some(x)
    ensures After(s.mem, s.mem.tail, k) != Some(x)
  {
    var g := s.mem.log;
    assert g.chain[g.rank[s.mem.head]] == s.mem.head && g.chain[g.rank[s.mem.tail]] == s.mem.tail;
    AfterInChain(s.mem, g.rank[s.mem.head], k);
    AfterInChain(s.mem, g.rank[s.mem.tail], k);
  }

  ghost predicate Quiescent<T>(s: State<T>) {
    forall t :: 0 <= t < |s.threads| ==> s.threads[t].Idle?
  }

  lemma {:induction false} QuiescentUncounted<T>(threads: seq<Pc<T>>)
    requires forall t :: 0 <= t < |threads| ==> threads[t].Idle?
    ensures Uncounted(threads) == 0
  {
    if threads != [] {
      QuiescentUncounted(threads[..|threads| - 1]);
    }
  }

  /** When no operation is in progress, `size_` is the queue length. */
  lemma SizeAtQuiescence<T>(s: State<T>)
    requires Inv(s) && Quiescent(s)
    ensures s.size == |Contents(s.mem)| % WORD
  {
    QuiescentUncounted(s.threads);
    Fifo(s.mem);
  }

  /** When no operation is in progress, every value ever taken has been answered exactly once,
      and every old head has been disposed of exactly once. */
  lemma AnsweredAtQuiescence<T>(s: State<T>, i: nat)
    requires Inv(s) && Quiescent(s) && i < |s.mem.log.popped|
    ensures s.mem.log.chain[i] in s.results
    ensures s.results[s.mem.log.chain[i]] == s.mem.log.popped[i]
    ensures multiset(Disposed(s))[s.mem.log.chain[i]] == 1
  {
    assert !Unanswered(s, i) && !StillHeld(s, i);
    OnceIfDistinct(Disposed(s), s.mem.log.chain[i]);
  }

  lemma {:induction false} OnceIfDistinct(d: seq<Id>, x: Id)
    requires forall i, j :: 0 <= i < j < |d| ==> d[i] != d[j]
    ensures multiset(d)[x] == if x in d then 1 else 0
  {
    if d != [] {
      var n := |d| - 1;
      assert d == d[..n] + [d[n]];
      OnceIfDistinct(d[..n], x);
    }
  }

  // ---------------------------------------------------------------- whole runs

  datatype Act<+T> = Act(tid: nat, event: Event<T>)

  /** `run` is an interleaving of `n` threads, one act per step, from the empty queue. */
  ghost predicate IsRun<T>(run: seq<State<T>>, acts: seq<Act<T>>, n: nat) {
    && |run| == |acts| + 1 && run[0] == Init(n)
    && (forall i :: 0 <= i < |run| ==> |run[i].threads| == n)
    && (forall i :: 0 <= i < |acts| ==> acts[i].tid < n)
    && (forall i {:trigger IsStep(run, acts, i)} :: 0 <= i < |acts| ==> IsStep(run, acts, i))
  }

  /** Act `i` leads from state `i` to the next one. */
  ghost predicate IsStep<T>(run: seq<State<T>>, acts: seq<Act<T>>, i: int) {
    && 0 <= i < |acts| && |run| == |acts| + 1 && acts[i].tid < |run[i].threads|
    && run[i + 1] == Step(run[i], acts[i].tid, acts[i].event)
  }

  /** The invariant holds in every state of every interleaving. */
  lemma {:induction false} RunInv<T>(run: seq<State<T>>, acts: seq<Act<T>>, n: nat, i: nat)
    requires IsRun(run, acts, n) && i < |run|
    ensures Inv(run[i])
  {
    if i == 0 {
      InitInv<T>(n);
    } else {
      RunInv(run, acts, n, i - 1);
      assert IsStep(run, acts, i - 1);
      StepInv(run[i - 1], acts[i - 1].tid, acts[i - 1].event);
    }
  }

  /** In every state of every interleaving the values taken by successful head swings are a
      prefix of the values in link order, and the rest is what a walk from `head_` meets. */
  lemma RunFifo<T>(run: seq<State<T>>, acts: seq<Act<T>>, n: nat, i: nat)
    requires IsRun(run, acts, n) && i < |run|
    ensures var g := run[i].mem.log;
            && Values(g.popped) <= Values(g.linked)
            && Values(g.popped) + Contents(run[i].mem) == Values(g.linked)
  {
    RunInv(run, acts, n, i);
    Fifo(run[i].mem);
  }

  lemma PushMovesOne<T>(s: State<T>, t: nat, spurious: bool)
    requires t < |s.threads|
    ensures Moves(s, PushStep(s, t, spurious), t)
  {
  }

  lemma PopMovesOne<T>(s: State<T>, t: nat, spurious: bool)
    requires t < |s.threads|
    ensures Moves(s, PopStep(s, t, spurious), t)
  {
  }

  lemma OtherThreads<T>(s: State<T>, t: nat, e: Event<T>, u: nat)
    requires t < |s.threads| && u < |s.threads| && u != t
    ensures |Step(s, t, e).threads| == |s.threads| && Step(s, t, e).threads[u] == s.threads[u]
  {
    if e.Go? {
      PushMovesOne(s, t, e.spurious);
      PopMovesOne(s, t, e.spurious);
    }
  }

  /** The last step of thread `t` before state `k` that brought it to where it is. */
  lemma {:induction false} LastMove<T>(run: seq<State<T>>, acts: seq<Act<T>>, n: nat, t: nat, k: nat) returns (j: nat)
    requires IsRun(run, acts, n) && k < |run| && t < n && !run[k].threads[t].Idle?
    ensures j < k && acts[j].tid == t && run[j].threads[t] != run[k].threads[t]
    ensures forall i :: j < i <= k ==> run[i].threads[t] == run[k].threads[t]
  {
    assert run[0].threads[t].Idle?;
    assert IsStep(run, acts, k - 1);
    if run[k - 1].threads[t] != run[k].threads[t] {
      var a := acts[k - 1];
      if a.tid != t {
        OtherThreads(run[k - 1], a.tid, a.event, t);
      }
      j := k - 1;
    } else {
      j := LastMove(run, acts, n, t, k - 1);
    }
  }

  lemma PushNeverChecksPop<T>(s: State<T>, t: nat, spurious: bool)
    requires t < |s.threads| && Pushing(s.threads[t])
    ensures |PushStep(s, t, spurious).threads| == |s.threads| && !PushStep(s, t, spurious).threads[t].PopCheck?
  {
  }

  lemma PopChecksAfterLoad<T>(s: State<T>, t: nat, spurious: bool)
    requires t < |s.threads| && !s.threads[t].PopLoadNext? && !s.threads[t].PopCheck?
    ensures |PopStep(s, t, spurious).threads| == |s.threads| && !PopStep(s, t, spurious).threads[t].PopCheck?
  {
  }

  /** The check of a pop leads to the check of no other attempt in one step. */
  lemma PopCheckMovesOn<T>(s: State<T>, t: nat, spurious: bool)
    requires t < |s.threads| && s.threads[t].PopCheck?
    ensures |PopStep(s, t, spurious).threads| == |s.threads| && !PopStep(s, t, spurious).threads[t].PopCheck?
  {
  }

  lemma IntoPopCheck<T>(s: State<T>, t: nat, e: Event<T>)
    requires t < |s.threads| && |Step(s, t, e).threads| == |s.threads|
    requires Step(s, t, e).threads[t].PopCheck? && Step(s, t, e).threads[t] != s.threads[t]
    ensures s.threads[t].PopLoadNext?
    ensures Step(s, t, e).threads[t] == PopCheck(s.threads[t].head, s.threads[t].tail, NextOf(s.mem, s.threads[t].head))
  {
    if e.Go? {
      if Pushing(s.threads[t]) {
        PushNeverChecksPop(s, t, e.spurious);
      } else if s.threads[t].PopCheck? {
        PopCheckMovesOn(s, t, e.spurious);
      } else if !s.threads[t].PopLoadNext? {
        PopChecksAfterLoad(s, t, e.spurious);
      }
    }
  }

  /** A pop answers "empty" only after a null load. */
  lemma EmptyAnswer<T>(s: State<T>, t: nat, e: Event<T>)
    requires t < |s.threads| && |Step(s, t, e).threads| == |s.threads|
    requires s.threads[t].PopCheck? && Step(s, t, e).threads[t].Idle?
    ensures s.threads[t].next.None?
  {
  }

  /** A null load finds the queue empty. */
  lemma NullLoadSawEmpty<T>(s: State<T>, t: nat)
    requires Inv(s) && t < |s.threads| && s.threads[t].PopLoadNext? && NextOf(s.mem, s.threads[t].head).None?
    ensures Contents(s.mem) == []
  {
    assert ThreadOk(s.mem, t, s.threads[t]);
    NullNextMeansEmpty(s.mem, s.threads[t].head);
    Fifo(s.mem);
  }

  /** A pop that reports "empty" at step `k` read `head->next` at an earlier step `j` of the same
      attempt (the thread does not move in between), and the queue was empty at `j`. */
  lemma EmptyPopSawEmpty<T>(run: seq<State<T>>, acts: seq<Act<T>>, n: nat, k: nat) returns (j: nat)
    requires IsRun(run, acts, n) && k < |acts|
    requires var t := acts[k].tid; run[k].threads[t].PopCheck? && run[k + 1].threads[t].Idle?
    ensures j < k && acts[j].tid == acts[k].tid && run[j].threads[acts[k].tid].PopLoadNext?
    ensures forall i :: j < i <= k ==> run[i].threads[acts[k].tid] == run[k].threads[acts[k].tid]
    ensures Contents(run[j].mem) == []
  {
    var t := acts[k].tid;
    j := LastMove(run, acts, n, t, k);
    assert IsStep(run, acts, k) && IsStep(run, acts, j);
    EmptyAnswer(run[k], t, acts[k].event);
    assert run[j + 1].threads[t] == run[k].threads[t];
    IntoPopCheck(run[j], t, acts[j].event);
    RunInv(run, acts, n, j);
    NullLoadSawEmpty(run[j], t);
  }
}
