/**
 * The single-producer single-consumer ring of include/utils/ring_buffer.hpp, once as an object
 * used serially and once as an interleaving of the individual loads and stores of one producer
 * and one consumer.  CAPACITY is a power of two, that is, a divisor of 2^64, and `x & MASK` is
 * `x % CAPACITY`.
 */
module RingBuffer {
  import opened Common
  import opened Modular

  predicate Capacity(c: nat) {
    c > 0 && WORD % c == 0
  }

  /** Unsigned 64-bit wrap-around does not disturb the mask. */
  lemma WrapThenMask(x: int, c: nat)
    requires Capacity(c)
    ensures (x % WORD) % c == x % c
  {
    var k, q := WORD / c, x / WORD;
    assert WORD == c * k;
    assert x == WORD * q + x % WORD;
    assert WORD * q == (k * q) * c;
    ModShift(x % WORD, k * q, c);
  }

  // --------------------------------------------------- one producer and one consumer

  /** Where the producer is inside `push`; the consumer inside `pop`. */
  datatype Producer<+T> = Away | LoadTail(value: T, head: nat) | Store(value: T, head: nat) | Publish(value: T, head: nat)

  datatype Consumer<+T> = Idle | LoadHead(tail: nat) | Take(tail: nat) | Release(tail: nat, value: Option<T>)

  /** A slot is None before its first use and after its value has been moved out.  `pushed` and
      `popped` are history: values published, and values released, in order. */
  datatype State<T> = State(
    slots: seq<Option<T>>, head: nat, tail: nat,
    producer: Producer<T>, consumer: Consumer<T>,
    pushed: seq<T>, popped: seq<T>)

  datatype Event<+T> = StartPush(value: T) | PushStep | StartPop | PopStep

  function Init<T>(c: nat): State<T> {
    State(seq(c, _ => None), 0, 0, Away, Idle, [], [])
  }

  function Next(i: nat, c: nat): nat
    requires c > 0
  {
    (i + 1) % c
  }

  function ProducerStep<T>(s: State<T>): State<T>
    requires |s.slots| > 0
  {
    match s.producer
    case LoadTail(v, h) => s.(producer := if Next(h, |s.slots|) == s.tail then Away else Store(v, h))
    case Store(v, h) =>
      if h < |s.slots| then s.(slots := s.slots[h := Some(v)], producer := Publish(v, h)) else s
    case Publish(v, h) => s.(head := Next(h, |s.slots|), producer := Away, pushed := s.pushed + [v])
    case Away => s
  }

  function Answer<T>(v: Option<T>): seq<T> {
    match v
    case Some(x) => [x]
    case None => []
  }

  function ConsumerStep<T>(s: State<T>): State<T>
    requires |s.slots| > 0
  {
    match s.consumer
    case LoadHead(t) => s.(consumer := if t == s.head then Idle else Take(t))
    case Take(t) =>
      if t < |s.slots| then s.(slots := s.slots[t := None], consumer := Release(t, s.slots[t])) else s
    case Release(t, v) => s.(tail := Next(t, |s.slots|), consumer := Idle, popped := s.popped + Answer(v))
    case Idle => s
  }

  function Step<T>(s: State<T>, e: Event<T>): State<T>
    requires |s.slots| > 0
  {
    match e
    case StartPush(v) => if s.producer.Away? then s.(producer := LoadTail(v, s.head)) else s
    case PushStep => ProducerStep(s)
    case StartPop => if s.consumer.Idle? then s.(consumer := LoadHead(s.tail)) else s
    case PopStep => ConsumerStep(s)
  }

  /** Index of the oldest value whose slot still holds it. */
  function Oldest<T>(s: State<T>): nat {
    |s.popped| + if s.consumer.Release? then 1 else 0
  }

  /** The indices are the counts modulo the capacity, and at most capacity - 1 values are between. */
  ghost predicate Indexed<T>(s: State<T>) {
    && |s.slots| > 0
    && s.head == |s.pushed| % |s.slots| && s.tail == |s.popped| % |s.slots|
    && |s.popped| <= |s.pushed| < |s.popped| + |s.slots|
  }

  ghost predicate Stored<T>(s: State<T>)
    requires |s.slots| > 0
  {
    forall i {:trigger s.pushed[i]} :: Oldest(s) <= i < |s.pushed| ==> s.slots[i % |s.slots|] == Some(s.pushed[i])
  }

  ghost predicate ProducerOk<T>(s: State<T>) {
    match s.producer
    case Away => true
    case LoadTail(v, h) => h == s.head
    case Store(v, h) => h == s.head && |s.pushed| + 1 < |s.popped| + |s.slots|
    case Publish(v, h) =>
      h == s.head && |s.pushed| + 1 < |s.popped| + |s.slots| && h < |s.slots| && s.slots[h] == Some(v)
  }

  ghost predicate ConsumerOk<T>(s: State<T>) {
    match s.consumer
    case Idle => true
    case LoadHead(t) => t == s.tail
    case Take(t) => t == s.tail && |s.popped| < |s.pushed|
    case Release(t, v) => t == s.tail && |s.popped| < |s.pushed| && v == Some(s.pushed[|s.popped|])
  }

  ghost predicate Inv<T>(s: State<T>) {
    Indexed(s) && Stored(s) && s.popped <= s.pushed && ProducerOk(s) && ConsumerOk(s)
  }

  /** `push` finds the ring full exactly when capacity - 1 values are in it, and `pop` finds it
      empty exactly when none is. */
  lemma FullAndEmpty<T>(s: State<T>)
    requires Indexed(s)
    ensures Next(s.head, |s.slots|) == s.tail <==> |s.pushed| - |s.popped| == |s.slots| - 1
    ensures s.head == s.tail <==> |s.pushed| == |s.popped|
  {
    CatchUp(|s.pushed|, |s.popped|, |s.slots|);
    if s.head == s.tail { SameSlot(|s.popped|, |s.pushed|, |s.slots|); }
  }

  lemma StoreInv<T>(s: State<T>)
    requires Inv(s) && s.producer.Store?
    ensures Inv(ProducerStep(s))
  {
    var s' := ProducerStep(s);
    forall i {:trigger s.pushed[i]} | Oldest(s) <= i < |s.pushed| ensures s'.slots[i % |s.slots|] == Some(s.pushed[i]) {
      ModDistinct(i, |s.pushed|, |s.slots|);
    }
  }

  lemma PublishInv<T>(s: State<T>)
    requires Inv(s) && s.producer.Publish?
    ensures Inv(ProducerStep(s))
  {
    ModNext(s.head, |s.pushed|, 1, |s.slots|);
  }

  lemma ProducerInv<T>(s: State<T>)
    requires Inv(s)
    ensures Inv(ProducerStep(s))
  {
    match s.producer
    case Store(_, _) => StoreInv(s);
    case Publish(_, _) => PublishInv(s);
    case _ => FullAndEmpty(s);
  }

  lemma TakeInv<T>(s: State<T>)
    requires Inv(s) && s.consumer.Take?
    ensures Inv(ConsumerStep(s))
  {
    var s' := ConsumerStep(s);
    forall i {:trigger s.pushed[i]} | |s.popped| < i < |s.pushed| ensures s'.slots[i % |s.slots|] == Some(s.pushed[i]) {
      ModDistinct(|s.popped|, i, |s.slots|);
    }
    if s.producer.Publish? { ModDistinct(|s.popped|, |s.pushed|, |s.slots|); }
    assert s.slots[|s.popped| % |s.slots|] == Some(s.pushed[|s.popped|]);
  }

  lemma ReleaseInv<T>(s: State<T>)
    requires Inv(s) && s.consumer.Release?
    ensures Inv(ConsumerStep(s))
  {
    ModNext(s.tail, |s.popped|, 1, |s.slots|);
  }

  lemma ConsumerInv<T>(s: State<T>)
    requires Inv(s)
    ensures Inv(ConsumerStep(s))
  {
    match s.consumer
    case Take(_) => TakeInv(s);
    case Release(_, _) => ReleaseInv(s);
    case _ => FullAndEmpty(s);
  }

  lemma StepInv<T>(s: State<T>, e: Event<T>)
    requires Inv(s)
    ensures Inv(Step(s, e)) && |Step(s, e).slots| == |s.slots|
  {
    match e
    case PushStep => ProducerInv(s);
    case PopStep => ConsumerInv(s);
    case _ =>
  }

  function Run<T>(c: nat, events: seq<Event<T>>): (s: State<T>)
    requires c > 0
    ensures |s.slots| == c
  {
    if events == [] then Init(c) else Step(Run(c, events[..|events| - 1]), events[|events| - 1])
  }

  lemma {:induction false} RunInv<T>(c: nat, events: seq<Event<T>>)
    requires c > 0
    ensures Inv(Run(c, events))
  {
    if events != [] {
      RunInv(c, events[..|events| - 1]);
      StepInv(Run(c, events[..|events| - 1]), events[|events| - 1]);
    }
  }

  /** In every interleaving: what comes out is a prefix of what went in, at most capacity - 1
      values are inside, and the masked difference of the indices is how many. */
  lemma RingIsFifo<T>(c: nat, events: seq<Event<T>>)
    requires Capacity(c)
    ensures var s := Run(c, events);
            && s.popped <= s.pushed && |s.pushed| - |s.popped| <= c - 1
            && ((s.head - s.tail) % WORD) % c == |s.pushed| - |s.popped|
  {
    var s := Run(c, events);
    RunInv(c, events);
    WrapThenMask(s.head - s.tail, c);
    Difference(|s.pushed|, |s.popped|, c);
  }

  /** The producer never writes a slot the consumer may be reading, nor one that holds a value not
      yet taken. */
  lemma ProducerStaysClear<T>(c: nat, events: seq<Event<T>>, i: nat)
    requires c > 0
    ensures var s := Run(c, events);
            s.producer.Store? ==>
              && (s.consumer.Take? || s.consumer.Release? ==> s.producer.head != s.consumer.tail)
              && (|s.popped| <= i < |s.pushed| ==> s.producer.head != i % c)
  {
    var s := Run(c, events);
    RunInv(c, events);
    if s.producer.Store? {
      if |s.popped| < |s.pushed| { ModDistinct(|s.popped|, |s.pushed|, c); }
      if |s.popped| <= i < |s.pushed| { ModDistinct(i, |s.pushed|, c); }
    }
  }

  /** A push that gives up saw the ring full when it loaded the tail; a pop that gives up saw it
      empty when it loaded the head. */
  lemma GivesUpOnlyIf<T>(c: nat, events: seq<Event<T>>)
    requires c > 0
    ensures var s := Run(c, events);
            && (s.producer.LoadTail? ==> (ProducerStep(s).producer.Away? <==> |s.pushed| - |s.popped| == c - 1))
            && (s.consumer.LoadHead? ==> (ConsumerStep(s).consumer.Idle? <==> |s.pushed| == |s.popped|))
  {
    RunInv(c, events);
    FullAndEmpty(Run(c, events));
  }

  /** The state after the first `k` events. */
  function At<T>(c: nat, events: seq<Event<T>>, k: nat): (s: State<T>)
    requires c > 0 && k <= |events|
    ensures |s.slots| == c
  {
    Run(c, events[..k])
  }

  lemma AtNext<T>(c: nat, events: seq<Event<T>>, k: nat)
    requires c > 0 && k < |events|
    ensures At(c, events, k + 1) == Step(At(c, events, k), events[k])
  {
    assert events[..k + 1][..k] == events[..k];
  }

  /** `push(v)` begins at event `b` and returns with event `r`. */
  ghost predicate PushCall<T>(c: nat, events: seq<Event<T>>, v: T, b: nat, r: nat)
    requires c > 0
  {
    && b < r < |events| && events[b] == StartPush(v) && At(c, events, b).producer.Away?
    && (forall i :: b < i <= r ==> !At(c, events, i).producer.Away?) && At(c, events, r + 1).producer.Away?
  }

  lemma {:induction false} PushKeepsValue<T>(c: nat, events: seq<Event<T>>, v: T, b: nat, r: nat, k: nat)
    requires c > 0 && PushCall(c, events, v, b, r) && b < k <= r
    ensures var s := At(c, events, k); s.producer.value == v && s.pushed == At(c, events, b).pushed
  {
    AtNext(c, events, k - 1);
    if k > b + 1 { PushKeepsValue(c, events, v, b, r, k - 1); }
  }

  /** Every call of `push` either puts its own argument in, once, with its last store, or gives up, and
      then the ring was full at its load of the tail. */
  lemma PushDoes<T>(c: nat, events: seq<Event<T>>, v: T, b: nat, r: nat)
    requires c > 0 && PushCall(c, events, v, b, r)
    ensures var s, s' := At(c, events, r), At(c, events, r + 1);
            && s.pushed == At(c, events, b).pushed
            && (s'.pushed == s.pushed + [v] || (s'.pushed == s.pushed && |s.pushed| - |s.popped| == c - 1))
  {
    PushKeepsValue(c, events, v, b, r, r);
    AtNext(c, events, r);
    GivesUpOnlyIf(c, events[..r]);
  }

  /** How many of the events from `i` to `k` are the producer's steps (the consumer's steps). */
  function PushSteps<T>(events: seq<Event<T>>, i: nat, k: nat): nat
    requires i <= k <= |events|
  {
    if i == k then 0 else PushSteps(events, i, k - 1) + if events[k - 1].PushStep? then 1 else 0
  }

  function PopSteps<T>(events: seq<Event<T>>, i: nat, k: nat): nat
    requires i <= k <= |events|
  {
    if i == k then 0 else PopSteps(events, i, k - 1) + if events[k - 1].PopStep? then 1 else 0
  }

  function PushLeft<T>(p: Producer<T>): nat {
    match p
    case Away => 0
    case LoadTail(_, _) => 3
    case Store(_, _) => 2
    case Publish(_, _) => 1
  }

  function PopLeft<T>(p: Consumer<T>): nat {
    match p
    case Idle => 0
    case LoadHead(_) => 3
    case Take(_) => 2
    case Release(_, _) => 1
  }

  /** `push` is wait-free: after three steps of its own it has returned, whatever the consumer does. */
  lemma PushReturns<T>(c: nat, events: seq<Event<T>>, v: T, b: nat, k: nat) returns (r: nat)
    requires c > 0 && b < k <= |events| && events[b] == StartPush(v) && At(c, events, b).producer.Away?
    requires PushSteps(events, b + 1, k) >= 3 || At(c, events, k).producer.Away?
    ensures r < k && PushCall(c, events, v, b, r)
  {
    r := b;
    AtNext(c, events, b);
    while r + 1 < k && !At(c, events, r + 1).producer.Away?
      invariant b <= r < k && (forall i :: b < i <= r ==> !At(c, events, i).producer.Away?)
      invariant At(c, events, r + 1) == Step(At(c, events, r), events[r])
      invariant PushSteps(events, b + 1, r + 1) + PushLeft(At(c, events, r + 1).producer) <= 3
      invariant r > b || At(c, events, b + 1).producer == LoadTail(v, At(c, events, b).head)
    {
      r := r + 1;
      AtNext(c, events, r);
      RunInv(c, events[..r]);
    }
  }

  /** `pop` begins at event `b` and returns with event `r`. */
  ghost predicate PopCall<T>(c: nat, events: seq<Event<T>>, b: nat, r: nat)
    requires c > 0
  {
    && b < r < |events| && events[b].StartPop? && At(c, events, b).consumer.Idle?
    && (forall i :: b < i <= r ==> !At(c, events, i).consumer.Idle?) && At(c, events, r + 1).consumer.Idle?
  }

  /** `pop` is wait-free likewise. */
  lemma PopReturns<T>(c: nat, events: seq<Event<T>>, b: nat, k: nat) returns (r: nat)
    requires c > 0 && b < k <= |events| && events[b].StartPop? && At(c, events, b).consumer.Idle?
    requires PopSteps(events, b + 1, k) >= 3 || At(c, events, k).consumer.Idle?
    ensures r < k && PopCall(c, events, b, r)
  {
    r := b;
    AtNext(c, events, b);
    while r + 1 < k && !At(c, events, r + 1).consumer.Idle?
      invariant b <= r < k && (forall i :: b < i <= r ==> !At(c, events, i).consumer.Idle?)
      invariant At(c, events, r + 1) == Step(At(c, events, r), events[r])
      invariant PopSteps(events, b + 1, r + 1) + PopLeft(At(c, events, r + 1).consumer) <= 3
      invariant r > b || At(c, events, b + 1).consumer.LoadHead?
    {
      r := r + 1;
      AtNext(c, events, r);
      RunInv(c, events[..r]);
    }
  }

  lemma {:induction false} PopWaits<T>(c: nat, events: seq<Event<T>>, b: nat, r: nat, k: nat)
    requires c > 0 && PopCall(c, events, b, r) && b <= k <= r
    ensures At(c, events, k).popped == At(c, events, b).popped
  {
    if k > b {
      AtNext(c, events, k - 1);
      PopWaits(c, events, b, r, k - 1);
    }
  }

  /** Every call of `pop` either takes out the oldest value inside, once, and holds it ready when it
      releases the slot, or gives up, and then the ring was empty at its load of the head. */
  lemma PopDoes<T>(c: nat, events: seq<Event<T>>, b: nat, r: nat)
    requires c > 0 && PopCall(c, events, b, r)
    ensures var s, s' := At(c, events, r), At(c, events, r + 1);
            && s.popped == At(c, events, b).popped
            && (if |s.popped| < |s.pushed| && s'.popped != s.popped
                then s'.popped == s.popped + [s.pushed[|s.popped|]] && s.consumer == Release(s.tail, Some(s.pushed[|s.popped|]))
                else s'.popped == s.popped && |s.pushed| == |s.popped|)
  {
    PopWaits(c, events, b, r, r);
    AtNext(c, events, r);
    RunInv(c, events[..r]);
    GivesUpOnlyIf(c, events[..r]);
  }

  // ------------------------------------------------------------------ the object

  /** The slot `i` places after `tail`, for `i` below the capacity. */
  function Slot(tail: nat, i: nat, c: nat): (k: nat)
    requires tail < c && i < c
    ensures k < c
  {
    if tail + i < c then tail + i else tail + i - c
  }

  lemma NextIsSlot(i: nat, c: nat)
    requires i < c
    ensures Next(i, c) == if i + 1 == c then 0 else i + 1
  {
    ModOfProduct(Next(i, c), 0, c);
    if i + 1 == c { ModOfProduct(0, 1, c); } else { ModOfProduct(i + 1, 0, c); }
  }

  /** The values inside, oldest first, lie in consecutive slots from `tail` up to `head`. */
  ghost predicate Holds<T>(slots: seq<T>, head: nat, tail: nat, contents: seq<T>) {
    && |contents| < |slots| && tail < |slots| && head == Slot(tail, |contents|, |slots|)
    && forall i {:trigger contents[i]} :: 0 <= i < |contents| ==> slots[Slot(tail, i, |slots|)] == contents[i]
  }

  lemma EndsMeet<T>(slots: seq<T>, head: nat, tail: nat, contents: seq<T>)
    requires Holds(slots, head, tail, contents)
    ensures Next(head, |slots|) == tail <==> |contents| == |slots| - 1
    ensures head == tail <==> contents == []
  {
    NextIsSlot(head, |slots|);
  }

  lemma MaskedSize<T>(slots: seq<T>, head: nat, tail: nat, contents: seq<T>)
    requires Holds(slots, head, tail, contents) && Capacity(|slots|)
    ensures ((head - tail) % WORD) % |slots| == |contents|
  {
    WrapThenMask(head - tail, |slots|);
    ModOfProduct(|contents|, if head >= tail then 0 else -1, |slots|);
  }

  lemma PushHolds<T>(slots: seq<T>, head: nat, tail: nat, contents: seq<T>, value: T)
    requires Holds(slots, head, tail, contents) && |contents| < |slots| - 1
    ensures Holds(slots[head := value], Next(head, |slots|), tail, contents + [value])
  {
    NextIsSlot(head, |slots|);
    var slots', contents' := slots[head := value], contents + [value];
    forall i {:trigger contents'[i]} | 0 <= i < |contents'| ensures slots'[Slot(tail, i, |slots|)] == contents'[i] {
      assert i < |contents| ==> contents[i] == contents'[i];
    }
  }

  lemma PopHolds<T>(slots: seq<T>, head: nat, tail: nat, contents: seq<T>)
    requires Holds(slots, head, tail, contents) && contents != []
    ensures slots[tail] == contents[0] && Holds(slots, head, Next(tail, |slots|), contents[1..])
  {
    NextIsSlot(tail, |slots|);
    var rest := contents[1..];
    forall i {:trigger rest[i]} | 0 <= i < |rest| ensures slots[Slot(Next(tail, |slots|), i, |slots|)] == rest[i] {
      assert rest[i] == contents[i + 1];
    }
  }

  /** RingBuffer used by one thread: `contents` lists the values inside, oldest first. */
  class Ring<T(0)> {
    const slots: array<T>
    var head: nat
    var tail: nat
    ghost var contents: seq<T>

    ghost predicate Valid()
      reads this, slots
    {
      Capacity(slots.Length) && Holds(slots[..], head, tail, contents)
    }

    constructor (c: nat)
      requires Capacity(c)
      ensures Valid() && fresh(slots) && slots.Length == c && contents == []
    {
      slots := new T[c];
      head, tail, contents := 0, 0, [];
    }

    method Push(value: T) returns (ok: bool)
      requires Valid()
      modifies this, slots
      ensures Valid()
      ensures ok == (|old(contents)| < slots.Length - 1)
      ensures contents == if ok then old(contents) + [value] else old(contents)
    {
      EndsMeet(slots[..], head, tail, contents);
      var nextHead := Next(head, slots.Length);
      if nextHead == tail {
        return false;
      }
      PushHolds(slots[..], head, tail, contents, value);
      slots[head] := value;
      head := nextHead;
      contents := contents + [value];
      return true;
    }

    method Pop() returns (r: Option<T>)
      requires Valid()
      modifies this
      ensures Valid()
      ensures old(contents) == [] ==> r == None && contents == []
      ensures old(contents) != [] ==> r == Some(old(contents)[0]) && contents == old(contents)[1..]
    {
      EndsMeet(slots[..], head, tail, contents);
      if tail == head {
        return None;
      }
      PopHolds(slots[..], head, tail, contents);
      r := Some(slots[tail]);
      tail := Next(tail, slots.Length);
      contents := contents[1..];
    }

    method Peek() returns (r: Option<T>)
      requires Valid()
      ensures r == if contents == [] then None else Some(contents[0])
    {
      EndsMeet(slots[..], head, tail, contents);
      if tail == head {
        return None;
      }
      PopHolds(slots[..], head, tail, contents);
      r := Some(slots[tail]);
    }

    method Empty() returns (empty: bool)
      requires Valid()
      ensures empty == (contents == [])
    {
      EndsMeet(slots[..], head, tail, contents);
      empty := tail == head;
    }

    method Full() returns (full: bool)
      requires Valid()
      ensures full == (|contents| == slots.Length - 1)
    {
      EndsMeet(slots[..], head, tail, contents);
      full := Next(head, slots.Length) == tail;
    }

    method Size() returns (n: nat)
      requires Valid()
      ensures n == |contents|
    {
      MaskedSize(slots[..], head, tail, contents);
      n := ((head - tail) % WORD) % slots.Length;
    }

    method Clear()
      requires Valid()
      modifies this
      ensures Valid() && contents == []
    {
      head, tail, contents := 0, 0, [];
    }
  }
}
