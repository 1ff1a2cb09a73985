/**
 * The sequence lock of include/utils/seq_lock.hpp and the optimistic read loop of
 * `OrderBook::get_snapshot`, as an interleaved step system: one step is one `fetch_add`
 * on the sequence, one store of a writer, or one load of a reader.
 *
 * A reader is any program that chooses its next load from what it has loaded so far; each
 * reader has its own.  The record field `hist` holds history only.
 */
module SeqLock {
  import opened Common

  type Addr = nat
  type Word = int
  type Memory = map<Addr, Word>

  function Read(m: Memory, a: Addr): Word {
    if a in m then m[a] else 0
  }

  datatype Load = Load(addr: Addr, value: Word)

  /** The next address to load, or None when the body of the read loop is finished. */
  type Program = seq<Load> -> Option<Addr>

  /** The program of each reader. */
  type Programs = nat -> Program

  /** What a reader noted when it loaded the even sequence.  All but `sequence` is history: the
      number of increments so far, the writers inside, and the last completed book. */
  datatype Begin = Begin(sequence: nat, begun: nat, inside: nat, book: nat)

  datatype Reader =
    | Spinning
    | Reading(start: Begin, loads: seq<Load>)
    | Validated(start: Begin, ended: nat, loads: seq<Load>)

  /** `increments` counts every `fetch_add`; `books[k]` is the memory after the k-th time
      that no writer was left inside its section. */
  datatype History = History(increments: nat, books: seq<Memory>)

  datatype State = State(
    sequence: nat,          // the atomic counter, a 64-bit word
    memory: Memory,         // level fields and update counter
    writers: nat,           // threads between write_lock and write_unlock
    readers: seq<Reader>,
    hist: History)

  datatype Event =
    | WriteLock
    | Store(addr: Addr, value: Word)
    | WriteUnlock
    | ReadStep(reader: nat)

  function Init(memory: Memory, readers: nat): State {
    State(0, memory, 0, seq(readers, _ => Spinning), History(0, [memory]))
  }

  function Begins(s: State): Begin
    requires |s.hist.books| > 0
  {
    Begin(s.sequence, s.hist.increments, s.writers, |s.hist.books| - 1)
  }

  /** read_begin spins on an odd sequence; read_retry accepts an unchanged one. */
  function ReaderStep(s: State, prog: Program, r: Reader): Reader
    requires |s.hist.books| > 0
  {
    match r
    case Spinning => if s.sequence % 2 == 1 then Spinning else Reading(Begins(s), [])
    case Reading(b, loads) =>
      (match prog(loads)
       case Some(a) => Reading(b, loads + [Load(a, Read(s.memory, a))])
       case None => if s.sequence == b.sequence then Validated(b, s.hist.increments, loads) else Spinning)
    case Validated(_, _, _) => r
  }

  function Step(s: State, progs: Programs, e: Event): State
    requires |s.hist.books| > 0
  {
    match e
    case WriteLock =>
      s.(sequence := (s.sequence + 1) % WORD, writers := s.writers + 1,
         hist := s.hist.(increments := s.hist.increments + 1))
    case Store(a, v) => if s.writers > 0 then s.(memory := s.memory[a := v]) else s
    case WriteUnlock =>
      if s.writers == 0 then s
      else s.(sequence := (s.sequence + 1) % WORD, writers := s.writers - 1,
              hist := History(s.hist.increments + 1,
                              if s.writers == 1 then s.hist.books + [s.memory] else s.hist.books))
    case ReadStep(i) =>
      if i < |s.readers| then s.(readers := s.readers[i := ReaderStep(s, progs(i), s.readers[i])]) else s
  }

  /** Every loaded value is the one in `m`. */
  ghost predicate ReadsFrom(m: Memory, loads: seq<Load>) {
    forall i :: 0 <= i < |loads| ==> loads[i].value == Read(m, loads[i].addr)
  }

  /** The program chose every address. */
  ghost predicate Follows(prog: Program, loads: seq<Load>) {
    forall i :: 0 <= i < |loads| ==> prog(loads[..i]) == Some(loads[i].addr)
  }

  // ------------------------------------------------------- any number of writers

  /** A reader that began with no writer inside reads the book of that moment for as long as
      nobody has moved the sequence. */
  ghost predicate ReaderOk(s: State, prog: Program, r: Reader) {
    match r
    case Spinning => true
    case Reading(b, loads) =>
      && b.sequence == b.begun % WORD && b.begun <= s.hist.increments && b.book < |s.hist.books| && Follows(prog, loads)
      && (b.inside == 0 && b.begun == s.hist.increments ==>
            s.writers == 0 && b.book == |s.hist.books| - 1 && ReadsFrom(s.hist.books[b.book], loads))
    case Validated(b, end, loads) =>
      && b.sequence == b.begun % WORD && b.book < |s.hist.books| && b.begun <= end
      && Follows(prog, loads) && prog(loads).None?
      && (b.inside == 0 && end < b.begun + WORD ==> ReadsFrom(s.hist.books[b.book], loads))
  }

  /** Outside write sections the memory is the last completed book. */
  ghost predicate Inv(s: State, progs: Programs) {
    && |s.hist.books| > 0 && s.sequence == s.hist.increments % WORD
    && (s.writers == 0 ==> s.memory == s.hist.books[|s.hist.books| - 1])
    && forall i :: 0 <= i < |s.readers| ==> ReaderOk(s, progs(i), s.readers[i])
  }

  lemma ReaderStepOk(s: State, progs: Programs, i: nat)
    requires Inv(s, progs) && i < |s.readers|
    ensures ReaderOk(s, progs(i), ReaderStep(s, progs(i), s.readers[i]))
  {
    var prog := progs(i);
    assert ReaderOk(s, prog, s.readers[i]);
    match s.readers[i]
    case Spinning =>
    case Reading(b, loads) =>
      match prog(loads) {
        case Some(a) => AppendLoad(s, prog, b, loads, a);
        case None => if s.sequence == b.sequence { SameWord(b.begun, s.hist.increments); }
      }
    case Validated(_, _, _) =>
  }

  lemma AppendLoad(s: State, prog: Program, b: Begin, loads: seq<Load>, a: Addr)
    requires |s.hist.books| > 0 && (s.writers == 0 ==> s.memory == s.hist.books[|s.hist.books| - 1])
    requires ReaderOk(s, prog, Reading(b, loads)) && prog(loads) == Some(a)
    ensures ReaderOk(s, prog, Reading(b, loads + [Load(a, Read(s.memory, a))]))
  {
    var more := loads + [Load(a, Read(s.memory, a))];
    forall i | 0 <= i < |more| ensures prog(more[..i]) == Some(more[i].addr) {
      assert more[..i] == loads[..i];
      assert loads[..|loads|] == loads;
    }
  }

  /** Two counts less than one wrap apart that show the same word are the same count. */
  lemma SameWord(b: nat, end: nat)
    requires b <= end && b % WORD == end % WORD
    ensures end < b + WORD ==> b == end
  {
  }

  lemma Advance(s: State, s': State)
    requires s.sequence == s.hist.increments % WORD
    requires s'.sequence == (s.sequence + 1) % WORD && s'.hist.increments == s.hist.increments + 1
    ensures s'.sequence == s'.hist.increments % WORD
  {
  }

  /** A later history keeps what every reader relies on. */
  lemma WriterKeepsReaders(s: State, progs: Programs, s': State)
    requires Inv(s, progs) && s'.readers == s.readers
    requires s.hist.increments < s'.hist.increments && s.hist.books <= s'.hist.books
    ensures forall i :: 0 <= i < |s'.readers| ==> ReaderOk(s', progs(i), s'.readers[i])
  {
    forall i | 0 <= i < |s.readers| ensures ReaderOk(s', progs(i), s.readers[i]) {
      assert ReaderOk(s, progs(i), s.readers[i]);
    }
  }

  lemma StepInv(s: State, progs: Programs, e: Event)
    requires Inv(s, progs)
    ensures Inv(Step(s, progs, e), progs)
  {
    var s' := Step(s, progs, e);
    match e
    case ReadStep(i) =>
      if i < |s.readers| { ReaderStepOk(s, progs, i); }
    case Store(a, v) =>
      forall i | 0 <= i < |s.readers| ensures ReaderOk(s', progs(i), s.readers[i]) {
        assert ReaderOk(s, progs(i), s.readers[i]);
      }
    case _ =>
      if s' != s {
        WriterKeepsReaders(s, progs, s');
        Advance(s, s');
      }
  }

  /** An interleaving of any number of writers and `n` readers. */
  ghost predicate IsRun(run: seq<State>, events: seq<Event>, progs: Programs, m: Memory, n: nat) {
    && |run| == |events| + 1 && run[0] == Init(m, n)
    && (forall i :: 0 <= i < |run| ==> |run[i].hist.books| > 0)
    && (forall i :: 0 <= i < |events| ==> run[i + 1] == Step(run[i], progs, events[i]))
  }

  lemma {:induction false} RunInv(run: seq<State>, events: seq<Event>, progs: Programs, m: Memory, n: nat, k: nat)
    requires IsRun(run, events, progs, m, n) && k < |run|
    ensures Inv(run[k], progs)
  {
    if k > 0 {
      RunInv(run, events, progs, m, n, k - 1);
      StepInv(run[k - 1], progs, events[k - 1]);
    }
  }

  /** What the read loop's body loads when it runs alone on memory `m`, for `n` loads. */
  function Execute(prog: Program, m: Memory, n: nat): seq<Load> {
    if n == 0 then []
    else
      var before := Execute(prog, m, n - 1);
      match prog(before)
      case Some(a) => before + [Load(a, Read(m, a))]
      case None => before
  }

  lemma {:induction false} LoadsAreExecution(prog: Program, m: Memory, loads: seq<Load>)
    requires Follows(prog, loads) && ReadsFrom(m, loads)
    ensures loads == Execute(prog, m, |loads|)
  {
    if loads != [] {
      var n := |loads| - 1;
      var before := loads[..n];
      forall i | 0 <= i < n ensures prog(before[..i]) == Some(before[i].addr) {
        assert before[..i] == loads[..i];
      }
      LoadsAreExecution(prog, m, before);
      assert prog(loads[..n]) == Some(loads[n].addr);
      assert loads == before + [loads[n]];
    }
  }

  /** Where a read began: the step `j` at which the reader loaded the even sequence. */
  lemma {:induction false} ReadBegan(run: seq<State>, events: seq<Event>, progs: Programs, m: Memory, n: nat, k: nat, i: nat)
    returns (j: nat)
    requires IsRun(run, events, progs, m, n) && k < |run| && i < |run[k].readers| && !run[k].readers[i].Spinning?
    ensures j < k && events[j] == ReadStep(i) && run[j].sequence % 2 == 0
    ensures run[k].readers[i].start == Begins(run[j])
  {
    var before := run[k - 1];
    assert |before.readers| == |run[k].readers|;
    if before.readers[i].Spinning? {
      j := k - 1;
    } else {
      j := ReadBegan(run, events, progs, m, n, k - 1, i);
    }
  }

  /** A validated read is atomic whenever no writer was inside at the moment it loaded the even
      sequence: for any number of writers and readers and any interleaving, a reader that left its
      retry loop within 2^64 increments then loaded exactly what it would have loaded running alone
      on the completed book of that moment. */
  lemma QuiescentReadIsAtomic(run: seq<State>, events: seq<Event>, progs: Programs, m: Memory, n: nat, k: nat, i: nat)
    requires IsRun(run, events, progs, m, n) && k < |run| && i < |run[k].readers|
    requires var r := run[k].readers[i]; r.Validated? && r.start.inside == 0 && r.ended < r.start.begun + WORD
    ensures var r := run[k].readers[i];
            && r.start.book < |run[k].hist.books| && progs(i)(r.loads).None? && Follows(progs(i), r.loads)
            && ReadsFrom(run[k].hist.books[r.start.book], r.loads)
            && r.loads == Execute(progs(i), run[k].hist.books[r.start.book], |r.loads|)
  {
    RunInv(run, events, progs, m, n, k);
    var r := run[k].readers[i];
    assert ReaderOk(run[k], progs(i), r);
    LoadsAreExecution(progs(i), run[k].hist.books[r.start.book], r.loads);
  }

  // --------------------------------------------------------- one writer at a time

  /** The sequence counts two increments per completed section, so an even one means no writer is
      inside and tells how many sections are complete. */
  ghost predicate Paired(s: State) {
    && s.writers <= 1 && |s.hist.books| > 0 && s.hist.increments == 2 * (|s.hist.books| - 1) + s.writers
    && forall i :: 0 <= i < |s.readers| && !s.readers[i].Spinning? ==>
         s.readers[i].start.inside == 0 && s.readers[i].start.begun == 2 * s.readers[i].start.book
  }

  lemma EvenMeansQuiet(increments: nat, books: nat, writers: nat)
    requires writers <= 1 && increments == 2 * books + writers && increments % WORD % 2 == 0
    ensures writers == 0
  {
    var q := increments / WORD;
    assert increments == 2 * ((WORD / 2) * q) + increments % WORD;
  }

  lemma StepPaired(s: State, progs: Programs, e: Event)
    requires Inv(s, progs) && Paired(s) && Step(s, progs, e).writers <= 1
    ensures Paired(Step(s, progs, e))
  {
    if s.sequence % 2 == 0 { EvenMeansQuiet(s.hist.increments, |s.hist.books| - 1, s.writers); }
  }

  ghost predicate OneWriter(run: seq<State>) {
    forall i :: 0 <= i < |run| ==> run[i].writers <= 1
  }

  lemma {:induction false} RunPaired(run: seq<State>, events: seq<Event>, progs: Programs, m: Memory, n: nat, k: nat)
    requires IsRun(run, events, progs, m, n) && OneWriter(run) && k < |run|
    ensures Paired(run[k])
  {
    if k > 0 {
      RunPaired(run, events, progs, m, n, k - 1);
      RunInv(run, events, progs, m, n, k - 1);
      StepPaired(run[k - 1], progs, events[k - 1]);
    }
  }

  /** With one writer at a time every validated read is atomic, on the book after `begun / 2`
      completed write sections, where `begun` is the even sequence it started from. */
  lemma ValidatedReadIsAtomic(run: seq<State>, events: seq<Event>, progs: Programs, m: Memory, n: nat, k: nat, i: nat)
    requires IsRun(run, events, progs, m, n) && OneWriter(run) && k < |run| && i < |run[k].readers|
    requires var r := run[k].readers[i]; r.Validated? && r.ended < r.start.begun + WORD
    ensures var r := run[k].readers[i];
            && r.start.begun == 2 * r.start.book && r.start.book < |run[k].hist.books| && progs(i)(r.loads).None?
            && r.loads == Execute(progs(i), run[k].hist.books[r.start.book], |r.loads|)
  {
    RunPaired(run, events, progs, m, n, k);
    QuiescentReadIsAtomic(run, events, progs, m, n, k, i);
  }

  // ------------------------------------------------ with writers inside a read can tear

  /** The program asks for no more than `limit` words. */
  ghost predicate Stops(prog: Program, limit: nat) {
    forall loads :: |loads| >= limit ==> prog(loads).None?
  }

  /** The program reads `a`, then `b`, whatever it finds, and stops after at most `limit` loads. */
  ghost predicate ReadsTwo(prog: Program, a: Addr, b: Addr, limit: nat) {
    && a != b && prog([]) == Some(a) && (forall v :: prog([Load(a, v)]) == Some(b))
    && Stops(prog, limit)
  }

  ghost predicate Extends(run: seq<State>, events: seq<Event>, run': seq<State>, events': seq<Event>) {
    run <= run' && events <= events'
  }

  function Last(run: seq<State>): State
    requires run != []
  {
    run[|run| - 1]
  }

  lemma Extend(run: seq<State>, events: seq<Event>, progs: Programs, m: Memory, n: nat, e: Event)
    returns (run': seq<State>, events': seq<Event>)
    requires IsRun(run, events, progs, m, n)
    ensures IsRun(run', events', progs, m, n) && Extends(run, events, run', events')
    ensures run' == run + [Step(Last(run), progs, e)] && events' == events + [e]
  {
    run', events' := run + [Step(Last(run), progs, e)], events + [e];
  }

  /** A value larger than any the word at `a` has held. */
  lemma {:induction false} FreshValue(run: seq<State>, a: Addr) returns (x: Word)
    ensures forall j :: 0 <= j < |run| ==> Read(run[j].memory, a) < x
  {
    if run == [] {
      x := 0;
    } else {
      x := FreshValue(run[..|run| - 1], a);
      var v := Read(Last(run).memory, a);
      if x <= v { x := v + 1; }
    }
  }

  /** No state of the run has both loaded values in memory. */
  ghost predicate NeverBoth(run: seq<State>, a: Addr, x: Word, b: Addr, y: Word) {
    forall j :: 0 <= j < |run| ==> Read(run[j].memory, a) != x || Read(run[j].memory, b) != y
  }

  /** A reader left alone finishes its program and validates. */
  lemma {:induction false} Finish(run: seq<State>, events: seq<Event>, progs: Programs, m: Memory, n: nat, i: nat, limit: nat)
    returns (run': seq<State>, events': seq<Event>)
    requires IsRun(run, events, progs, m, n) && i < |Last(run).readers|
    requires Stops(progs(i), limit)
    requires var r := Last(run).readers[i]; r.Reading? && r.start.sequence == Last(run).sequence
    ensures IsRun(run', events', progs, m, n) && Extends(run, events, run', events')
    ensures forall j :: |run| <= j < |run'| ==> run'[j].memory == Last(run).memory
    ensures var r, r' := Last(run).readers[i], if i < |Last(run').readers| then Last(run').readers[i] else Spinning;
            && r'.Validated? && r'.start == r.start && r'.ended == Last(run).hist.increments && r.loads <= r'.loads
            && (ReadsFrom(Last(run).memory, r.loads) ==> ReadsFrom(Last(run).memory, r'.loads))
    ensures Last(run') == Last(run).(readers := Last(run').readers) && |Last(run').readers| == |Last(run).readers|
    ensures forall j :: |events| <= j < |events'| ==> events'[j] == ReadStep(i)
    decreases if |Last(run).readers[i].loads| < limit then limit - |Last(run).readers[i].loads| else 0
  {
    var r := Last(run).readers[i];
    var run1, events1 := Extend(run, events, progs, m, n, ReadStep(i));
    if progs(i)(r.loads).None? {
      run', events' := run1, events1;
    } else {
      run', events' := Finish(run1, events1, progs, m, n, i, limit);
    }
  }

  /** What a validated reader loaded is what its program asks for, to the end. */
  lemma ValidatedFollows(run: seq<State>, events: seq<Event>, progs: Programs, m: Memory, n: nat, i: nat)
    requires IsRun(run, events, progs, m, n) && i < |Last(run).readers| && Last(run).readers[i].Validated?
    ensures var loads := Last(run).readers[i].loads; Follows(progs(i), loads) && progs(i)(loads).None?
  {
    RunInv(run, events, progs, m, n, |run| - 1);
    assert ReaderOk(Last(run), progs(i), Last(run).readers[i]);
  }

  /** The only reader has read all its words from memory, and nothing else has happened. */
  ghost predicate ReadAlone(s: State, s': State, prog: Program) {
    && |s'.readers| == |s.readers| == 1 && s' == s.(readers := s'.readers)
    && s'.readers[0].Validated? && s'.readers[0].ended == s'.readers[0].start.begun == s.hist.increments
    && Follows(prog, s'.readers[0].loads) && prog(s'.readers[0].loads).None?
    && ReadsFrom(s.memory, s'.readers[0].loads)
  }

  /** At an even sequence a read that nobody disturbs is validated, with or without a writer inside. */
  lemma SoloRead(run: seq<State>, events: seq<Event>, progs: Programs, m: Memory, limit: nat)
    returns (run': seq<State>, events': seq<Event>)
    requires IsRun(run, events, progs, m, 1) && Last(run).sequence % 2 == 0 && Last(run).readers == [Spinning]
    requires Stops(progs(0), limit)
    ensures IsRun(run', events', progs, m, 1) && events <= events'
    ensures forall j :: |events| <= j < |events'| ==> events'[j] == ReadStep(0)
    ensures ReadAlone(Last(run), Last(run'), progs(0))
  {
    var run1, events1 := Extend(run, events, progs, m, 1, ReadStep(0));
    run', events' := Finish(run1, events1, progs, m, 1, 0, limit);
    ValidatedFollows(run', events', progs, m, 1, 0);
  }

  /** A first writer has made one store when a second one takes the lock. */
  function HalfStored(a: Addr, v: Word): State {
    State(2, map[a := v], 2, [Spinning], History(2, [map[]]))
  }

  lemma TwoInside(progs: Programs, a: Addr, v: Word) returns (run: seq<State>, events: seq<Event>)
    ensures IsRun(run, events, progs, map[], 1) && Last(run) == HalfStored(a, v)
    ensures events == [WriteLock, Store(a, v), WriteLock]
  {
    run, events := [Init(map[], 1)], [];
    run, events := Extend(run, events, progs, map[], 1, WriteLock);
    run, events := Extend(run, events, progs, map[], 1, Store(a, v));
    run, events := Extend(run, events, progs, map[], 1, WriteLock);
  }

  lemma ReadBetween(progs: Programs, a: Addr, v: Word, limit: nat)
    returns (run: seq<State>, events: seq<Event>, steps: seq<Event>)
    requires Stops(progs(0), limit)
    ensures IsRun(run, events, progs, map[], 1) && events == [WriteLock, Store(a, v), WriteLock] + steps
    ensures forall j :: 0 <= j < |steps| ==> steps[j] == ReadStep(0)
    ensures ReadAlone(HalfStored(a, v), Last(run), progs(0))
  {
    var run1, events1 := TwoInside(progs, a, v);
    run, events := SoloRead(run1, events1, progs, map[], limit);
    steps := events[3..];
  }

  /** The run only grew by states with memory `now`, readers of the same sequence and history. */
  ghost predicate Grew(run: seq<State>, run': seq<State>, now: Memory) {
    && 0 < |run| < |run'| && run <= run' && (forall j :: |run| <= j < |run'| ==> run'[j].memory == now)
    && Last(run').writers == Last(run).writers && Last(run').sequence == Last(run).sequence
    && Last(run').hist == Last(run).hist && |Last(run').readers| == |Last(run).readers|
  }

  /** A writer stores a word and the reader loads it. */
  lemma StoreThenLoad(run: seq<State>, events: seq<Event>, progs: Programs, m: Memory, n: nat, i: nat, a: Addr, v: Word)
    returns (run': seq<State>, events': seq<Event>)
    requires IsRun(run, events, progs, m, n) && i < |Last(run).readers| && Last(run).writers > 0
    requires Last(run).readers[i].Reading? && progs(i)(Last(run).readers[i].loads) == Some(a)
    ensures IsRun(run', events', progs, m, n) && Extends(run, events, run', events')
    ensures Grew(run, run', Last(run).memory[a := v])
    ensures Last(run').readers[i] == Reading(Last(run).readers[i].start, Last(run).readers[i].loads + [Load(a, v)])
  {
    run', events' := Extend(run, events, progs, m, n, Store(a, v));
    run', events' := Extend(run', events', progs, m, n, ReadStep(i));
  }

  lemma NeverBothGrew(run: seq<State>, run': seq<State>, now: Memory, a: Addr, x: Word, b: Addr, y: Word)
    requires NeverBoth(run, a, x, b, y) && Grew(run, run', now) && (Read(now, a) != x || Read(now, b) != y)
    ensures NeverBoth(run', a, x, b, y)
  {
    forall j | 0 <= j < |run'| ensures Read(run'[j].memory, a) != x || Read(run'[j].memory, b) != y {
      if j < |run| { assert run'[j] == run[j]; }
    }
  }

  lemma BeginRead(run: seq<State>, events: seq<Event>, progs: Programs, m: Memory, n: nat, i: nat)
    returns (run': seq<State>, events': seq<Event>)
    requires IsRun(run, events, progs, m, n) && i < |Last(run).readers|
    requires Last(run).sequence % 2 == 0 && Last(run).readers[i].Spinning?
    ensures IsRun(run', events', progs, m, n) && Extends(run, events, run', events')
    ensures Grew(run, run', Last(run).memory) && Last(run').readers[i] == Reading(Begins(Last(run)), [])
  {
    run', events' := Extend(run, events, progs, m, n, ReadStep(i));
  }

  lemma StoreOnly(run: seq<State>, events: seq<Event>, progs: Programs, m: Memory, n: nat, a: Addr, v: Word)
    returns (run': seq<State>, events': seq<Event>)
    requires IsRun(run, events, progs, m, n) && Last(run).writers > 0
    ensures IsRun(run', events', progs, m, n) && Extends(run, events, run', events')
    ensures Grew(run, run', Last(run).memory[a := v]) && Last(run').readers == Last(run).readers
  {
    run', events' := Extend(run, events, progs, m, n, Store(a, v));
  }

  /** The reader begins and loads `x` from `a`, stored just before. */
  lemma TearOne(run: seq<State>, events: seq<Event>, progs: Programs, m: Memory, n: nat, i: nat, a: Addr, x: Word, b: Addr, y: Word)
    returns (run': seq<State>, events': seq<Event>)
    requires IsRun(run, events, progs, m, n) && i < |Last(run).readers| && a != b && progs(i)([]) == Some(a)
    requires Last(run).writers > 0 && Last(run).sequence % 2 == 0 && Last(run).readers[i].Spinning?
    requires NeverBoth(run, a, x, b, y) && Read(Last(run).memory, b) != y
    ensures IsRun(run', events', progs, m, n) && Extends(run, events, run', events') && NeverBoth(run', a, x, b, y)
    ensures |Last(run').readers| == |Last(run).readers| && Last(run').readers[i] == Reading(Begins(Last(run)), [Load(a, x)])
    ensures Last(run').memory == Last(run).memory[a := x] && Last(run').writers == Last(run).writers
    ensures Last(run').sequence == Last(run).sequence && Last(run').hist == Last(run).hist
  {
    var m0 := Last(run).memory;
    var run1, events1 := BeginRead(run, events, progs, m, n, i);
    NeverBothGrew(run, run1, m0, a, x, b, y);
    run', events' := StoreThenLoad(run1, events1, progs, m, n, i, a, x);
    NeverBothGrew(run1, run', m0[a := x], a, x, b, y);
    assert [] + [Load(a, x)] == [Load(a, x)];
  }

  /** The first two loads, with a store before each and one in between: both values are seen, and
      were never in memory together. */
  lemma TearTwo(run: seq<State>, events: seq<Event>, progs: Programs, m: Memory, n: nat, i: nat, a: Addr, x: Word, b: Addr, y: Word)
    returns (run': seq<State>, events': seq<Event>)
    requires IsRun(run, events, progs, m, n) && i < |Last(run).readers| && Last(run).writers > 0
    requires Last(run).readers[i].Reading? && Last(run).readers[i].loads == [Load(a, x)]
    requires a != b && progs(i)([Load(a, x)]) == Some(b) && NeverBoth(run, a, x, b, y)
    ensures IsRun(run', events', progs, m, n) && Extends(run, events, run', events') && NeverBoth(run', a, x, b, y)
    ensures i < |Last(run').readers| && Last(run').readers[i] == Reading(Last(run).readers[i].start, [Load(a, x), Load(b, y)])
    ensures Last(run').sequence == Last(run).sequence && Last(run').hist == Last(run).hist
  {
    var m1 := Last(run).memory[a := x + 1];
    var run1, events1 := StoreOnly(run, events, progs, m, n, a, x + 1);
    NeverBothGrew(run, run1, m1, a, x, b, y);
    run', events' := StoreThenLoad(run1, events1, progs, m, n, i, b, y);
    NeverBothGrew(run1, run', m1[b := y], a, x, b, y);
    assert [Load(a, x)] + [Load(b, y)] == [Load(a, x), Load(b, y)];
  }

  /** Whenever a reader loads an even sequence with writers inside, some continuation validates a
      read of values that no state of the whole run had in memory together. */
  lemma OverlapTears(run: seq<State>, events: seq<Event>, progs: Programs, m: Memory, n: nat, i: nat, a: Addr, b: Addr, limit: nat)
    returns (run': seq<State>, events': seq<Event>)
    requires IsRun(run, events, progs, m, n) && i < |Last(run).readers| && ReadsTwo(progs(i), a, b, limit)
    requires Last(run).writers > 0 && Last(run).sequence % 2 == 0 && Last(run).readers[i].Spinning?
    ensures IsRun(run', events', progs, m, n) && Extends(run, events, run', events') && i < |Last(run').readers|
    ensures var r := Last(run').readers[i];
            && r.Validated? && r.start == Begins(Last(run)) && r.ended == r.start.begun
            && forall j :: 0 <= j < |run'| ==> !ReadsFrom(run'[j].memory, r.loads)
  {
    var x := FreshValue(run, a);
    var y := FreshValue(run, b);
    var run1, events1 := TearOne(run, events, progs, m, n, i, a, x, b, y);
    run1, events1 := TearTwo(run1, events1, progs, m, n, i, a, x, b, y);
    run', events' := Finish(run1, events1, progs, m, n, i, limit);
    var loads := Last(run').readers[i].loads;
    assert loads[0] == Load(a, x) && loads[1] == Load(b, y);
    forall j | 0 <= j < |run'| ensures !ReadsFrom(run'[j].memory, loads) {
      if j < |run1| { assert run'[j] == run1[j]; } else { assert run'[j].memory == Last(run1).memory; }
    }
  }

  /** Two writers inside at once, as `write_lock` allows, are enough. */
  lemma TwoWritersTear(progs: Programs, m: Memory, a: Addr, b: Addr, limit: nat)
    returns (run: seq<State>, events: seq<Event>)
    requires ReadsTwo(progs(0), a, b, limit)
    ensures IsRun(run, events, progs, m, 1) && |Last(run).readers| == 1
    ensures var r := Last(run).readers[0];
            && r.Validated? && r.ended == r.start.begun
            && forall j :: 0 <= j < |run| ==> !ReadsFrom(run[j].memory, r.loads)
  {
    run, events := [Init(m, 1)], [];
    run, events := Extend(run, events, progs, m, 1, WriteLock);
    run, events := Extend(run, events, progs, m, 1, WriteLock);
    run, events := OverlapTears(run, events, progs, m, 1, 0, a, b, limit);
    ReadersFixed(run, events, progs, m, 1, |run| - 1);
  }

  lemma {:induction false} ReadersFixed(run: seq<State>, events: seq<Event>, progs: Programs, m: Memory, n: nat, k: nat)
    requires IsRun(run, events, progs, m, n) && k < |run|
    ensures |run[k].readers| == n
  {
    if k > 0 { ReadersFixed(run, events, progs, m, n, k - 1); }
  }

  /** A continuation of `run` in which reader `i` validates the read that begins at its end. */
  ghost predicate ValidatesNext(run: seq<State>, events: seq<Event>, run': seq<State>, events': seq<Event>,
                                progs: Programs, m: Memory, n: nat, i: nat)
    requires run != [] && |Last(run).hist.books| > 0
  {
    && IsRun(run', events', progs, m, n) && Extends(run, events, run', events') && i < |Last(run').readers|
    && var r := Last(run').readers[i];
       r.Validated? && r.start == Begins(Last(run)) && r.ended < r.start.begun + WORD
  }

  /** The loads of reader `i` are those of a book completed by then. */
  ghost predicate ReadsABook(s: State, i: nat) {
    i < |s.readers| && !s.readers[i].Spinning? && exists k :: 0 <= k < |s.hist.books| && ReadsFrom(s.hist.books[k], s.readers[i].loads)
  }

  /** Every book is the memory of some state. */
  lemma {:induction false} BooksWereMemories(run: seq<State>, events: seq<Event>, progs: Programs, m: Memory, n: nat, k: nat, x: nat)
    returns (j: nat)
    requires IsRun(run, events, progs, m, n) && k < |run| && x < |run[k].hist.books|
    ensures j <= k && run[j].memory == run[k].hist.books[x]
  {
    if k == 0 {
      j := 0;
    } else if x < |run[k - 1].hist.books| {
      j := BooksWereMemories(run, events, progs, m, n, k - 1, x);
    } else {
      j := k - 1;
    }
  }

  /** Exactly when: of a reader about to load an even sequence, every continuation that validates
      the read read one completed book, if and only if no writer is inside at that load. */
  lemma AtomicIffQuiet(run: seq<State>, events: seq<Event>, progs: Programs, m: Memory, n: nat, i: nat, a: Addr, b: Addr, limit: nat)
    requires IsRun(run, events, progs, m, n) && i < |Last(run).readers| && ReadsTwo(progs(i), a, b, limit)
    requires Last(run).sequence % 2 == 0 && Last(run).readers[i].Spinning?
    ensures Last(run).writers == 0 <==>
            (forall run', events' :: ValidatesNext(run, events, run', events', progs, m, n, i) ==> ReadsABook(Last(run'), i))
  {
    if Last(run).writers == 0 {
      forall run', events' | ValidatesNext(run, events, run', events', progs, m, n, i) ensures ReadsABook(Last(run'), i) {
        QuiescentReadIsAtomic(run', events', progs, m, n, |run'| - 1, i);
      }
    } else {
      var run', events' := OverlapTears(run, events, progs, m, n, i, a, b, limit);
      assert ValidatesNext(run, events, run', events', progs, m, n, i);
      if ReadsABook(Last(run'), i) {
        var x :| 0 <= x < |Last(run').hist.books| && ReadsFrom(Last(run').hist.books[x], Last(run').readers[i].loads);
        var j := BooksWereMemories(run', events', progs, m, n, |run'| - 1, x);
      }
    }
  }
}
