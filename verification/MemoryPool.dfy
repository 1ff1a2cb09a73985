/**
 * The lock-free object pool of include/core/memory_pool.hpp: slots claimed by compare-exchange in
 * a probe sequence that starts at a shared hint.  Once as an object used serially, once as an
 * interleaving of atomic steps of any number of threads that release only what they hold.
 */
module MemoryPool {
  import opened Common
  import opened Modular

  // ------------------------------------------------------------- probe sequence

  /** Slot tried at the given attempt. */
  function Probe(start: nat, attempt: nat, n: nat): nat
    requires n > 0
  {
    (start + attempt) % n
  }

  /** The attempt at which a probe sequence of `n` tries comes to slot `i`. */
  function AttemptOf(start: nat, i: nat, n: nat): nat
    requires n > 0
  {
    (i - start) % n
  }

  /** A probe sequence of `n` tries visits each of the `n` slots exactly once. */
  lemma ProbeVisitsOnce(start: nat, i: nat, n: nat)
    requires i < n
    ensures AttemptOf(start, i, n) < n && Probe(start, AttemptOf(start, i, n), n) == i
    ensures forall a: nat {:trigger Probe(start, a, n)} :: a < n && Probe(start, a, n) == i ==> a == AttemptOf(start, i, n)
  {
    var a := AttemptOf(start, i, n);
    ModNext(a, i - start, start, n);
    ModOfProduct(i, 0, n);
    forall b: nat {:trigger Probe(start, b, n)} | b < n && Probe(start, b, n) == i ensures b == a {
      if b < a { SameSlot(start + b, start + a, n); } else { SameSlot(start + a, start + b, n); }
    }
  }

  // ------------------------------------------------------------------ addresses

  /** Address of slot `i` in storage at `base` with elements of `size` bytes. */
  function Address(base: nat, size: nat, i: nat): nat {
    base + i * size
  }

  /** The index computation of deallocate, for an address not below `base`. */
  function IndexOf(base: nat, size: nat, address: nat): nat
    requires size > 0 && address >= base
  {
    (address - base) / size
  }

  /** Division inverts slot addressing, for every address inside the slot. */
  lemma IndexInvertsAddress(base: nat, size: nat, i: nat, offset: nat)
    requires offset < size
    ensures IndexOf(base, size, base + i * size + offset) == i && Address(base, size, i) == base + i * size
  {
    var x := i * size + offset;
    ModOfProduct(offset, i, size);
    assert x == size * (x / size) + x % size;
    SameFactor(size, x / size, i);
  }

  lemma SameFactor(c: nat, a: int, b: int)
    requires c > 0 && c * a == b * c
    ensures a == b
  {
    assert c * (a - b) == 0;
    MultipleGap(c, a - b);
  }

  /** An address inside the storage gives the index of a slot: the second range check never fires. */
  lemma IndexInRange(base: nat, size: nat, n: nat, address: nat)
    requires size > 0 && base <= address < Address(base, size, n)
    ensures IndexOf(base, size, address) < n
  {
    var d := address - base;
    assert d == size * (d / size) + d % size;
    if d / size >= n { TimesMonotone(size, n, d / size); }
  }

  lemma TimesMonotone(c: nat, a: nat, b: nat)
    requires a <= b
    ensures a * c <= c * b
  {
  }

  // ------------------------------------------------------------------ the object

  function CountUsed(inUse: seq<bool>): nat {
    if inUse == [] then 0 else CountUsed(inUse[..|inUse| - 1]) + if inUse[|inUse| - 1] then 1 else 0
  }

  /** Claiming a free slot adds one to the count, releasing a used one takes one off. */
  lemma {:induction false} CountUpdate(inUse: seq<bool>, i: nat, used: bool)
    requires i < |inUse|
    ensures CountUsed(inUse[i := used]) == CountUsed(inUse) - (if inUse[i] then 1 else 0) + if used then 1 else 0
  {
    var n := |inUse| - 1;
    if i == n {
      assert inUse[i := used][..n] == inUse[..n];
    } else {
      assert inUse[i := used][..n] == inUse[..n][i := used];
      CountUpdate(inUse[..n], i, used);
    }
  }

  lemma {:induction false} CountFull(inUse: seq<bool>)
    ensures CountUsed(inUse) <= |inUse|
    ensures CountUsed(inUse) == |inUse| <==> forall i :: 0 <= i < |inUse| ==> inUse[i]
  {
    if inUse != [] {
      var front := inUse[..|inUse| - 1];
      CountFull(front);
      assert inUse == front + [inUse[|inUse| - 1]];
    }
  }

  /** `i` is the first slot not in use in the probe sequence from `start`. */
  ghost predicate FirstFree(inUse: seq<bool>, start: nat, i: nat)
    requires i < |inUse|
  {
    && !inUse[i]
    && forall a: nat {:trigger Probe(start, a, |inUse|)} ::
         a < AttemptOf(start, i, |inUse|) ==> inUse[Probe(start, a, |inUse|)]
  }

  /** LockFreePool used by one thread at a time; a slot number stands for the slot's address
      where the address does not matter. */
  class Pool {
    const base: nat
    const size: nat
    const inUse: array<bool>
    var hint: nat

    ghost predicate Valid() { inUse.Length > 0 && size > 0 }

    constructor (n: nat, base: nat, size: nat)
      requires n > 0 && size > 0
      ensures Valid() && fresh(inUse) && inUse.Length == n && this.base == base && this.size == size
      ensures forall i :: 0 <= i < n ==> !inUse[i]
    {
      this.base, this.size, hint := base, size, 0;
      inUse := new bool[n](_ => false);
    }

    /** Null exactly when every slot is in use; otherwise the first free slot of the probe sequence. */
    method Allocate() returns (address: Option<nat>)
      requires Valid()
      modifies this`hint, inUse
      ensures hint == (old(hint) + 1) % WORD
      ensures address.None? <==> forall i :: 0 <= i < inUse.Length ==> old(inUse[..])[i]
      ensures address.None? ==> inUse[..] == old(inUse[..])
      ensures address.Some? ==>
                exists i :: 0 <= i < inUse.Length && address == Some(Address(base, size, i))
                            && FirstFree(old(inUse[..]), old(hint) % inUse.Length, i)
                            && inUse[..] == old(inUse[..])[i := true]
    {
      var n := inUse.Length;
      var start := hint % n;
      hint := (hint + 1) % WORD;
      var attempts := 0;
      while attempts < n
        invariant attempts <= n && inUse[..] == old(inUse[..])
        invariant forall a: nat {:trigger Probe(start, a, n)} :: a < attempts ==> inUse[Probe(start, a, n)]
      {
        var i := Probe(start, attempts, n);
        if !inUse[i] {
          ProbeVisitsOnce(start, i, n);
          inUse[i] := true;
          return Some(Address(base, size, i));
        }
        attempts := attempts + 1;
      }
      forall i | 0 <= i < n ensures inUse[i] {
        ProbeVisitsOnce(start, i, n);
        assert inUse[Probe(start, AttemptOf(start, i, n), n)];
      }
      return None;
    }

    /** Releases the slot the address lies in; null and addresses outside the pool are ignored. */
    method Deallocate(address: Option<nat>)
      requires Valid()
      modifies inUse
      ensures address.Some? && base <= address.value < Address(base, size, inUse.Length) ==>
                var i := IndexOf(base, size, address.value);
                i < inUse.Length && inUse[..] == old(inUse[..])[i := false]
      ensures !(address.Some? && base <= address.value < Address(base, size, inUse.Length)) ==>
                inUse[..] == old(inUse[..])
    {
      if address.None? {
        return;
      }
      var a := address.value;
      if a < base || a >= Address(base, size, inUse.Length) {
        return;
      }
      var i := IndexOf(base, size, a);
      IndexInRange(base, size, inUse.Length, a);
      inUse[i] := false;
    }

    method Allocated() returns (count: nat)
      ensures count == CountUsed(inUse[..])
    {
      count := 0;
      for i := 0 to inUse.Length
        invariant count == CountUsed(inUse[..i])
      {
        assert inUse[..i + 1][..i] == inUse[..i];
        if inUse[i] { count := count + 1; }
      }
      assert inUse[..inUse.Length] == inUse[..];
    }

    method Available() returns (count: nat)
      ensures count == inUse.Length - CountUsed(inUse[..])
    {
      CountFull(inUse[..]);
      var used := Allocated();
      count := inUse.Length - used;
    }

    /** The life of a PoolPtr: what allocate gave, deallocate takes back, and the pool is as before. */
    method BorrowAndReturn() returns (address: Option<nat>)
      requires Valid()
      modifies this`hint, inUse
      ensures inUse[..] == old(inUse[..])
    {
      ghost var before := inUse[..];
      address := Allocate();
      if address.Some? {
        ghost var i :| 0 <= i < inUse.Length && address == Some(Address(base, size, i))
                       && FirstFree(before, old(hint) % inUse.Length, i) && inUse[..] == before[i := true];
        IndexInvertsAddress(base, size, i, 0);
        InsideStorage(base, size, i, inUse.Length);
        Deallocate(address);
        assert before[i := true][i := false] == before;
      }
    }
  }

  lemma InsideStorage(base: nat, size: nat, i: nat, n: nat)
    requires i < n && size > 0
    ensures base <= Address(base, size, i) < Address(base, size, n)
  {
    TimesMonotone(size, i + 1, n);
    assert (i + 1) * size == i * size + size;
  }

  // ------------------------------------------------------------- many threads

  /** A thread inside allocate or deallocate.  `seen` is history: slots this call found in use. */
  datatype Pc = Idle | Trying(start: nat, attempts: nat, seen: set<nat>) | Freeing(slot: nat)

  /** `held` is what each thread got from the pool and has not started to give back; `nulls` counts
      the calls that got nothing. */
  datatype State = State(inUse: seq<bool>, hint: nat, threads: seq<Pc>, held: seq<set<nat>>, nulls: nat)

  datatype Event = Allocate | Free(slot: nat) | Go

  function Init(n: nat, threads: nat): State {
    State(seq(n, _ => false), 0, seq(threads, _ => Idle), seq(threads, _ => {}), 0)
  }

  function Goto(s: State, t: nat, pc: Pc): State
    requires t < |s.threads|
  {
    s.(threads := s.threads[t := pc])
  }

  /** One atomic step of thread `t`.  A thread frees only what it holds. */
  function Step(s: State, t: nat, e: Event): State
    requires t < |s.threads| == |s.held| && |s.inUse| > 0
  {
    var n := |s.inUse|;
    match e
    case Allocate =>
      if s.threads[t].Idle? then Goto(s, t, Trying(s.hint % n, 0, {})).(hint := (s.hint + 1) % WORD) else s
    case Free(i) =>
      if s.threads[t].Idle? && i in s.held[t]
      then Goto(s, t, Freeing(i)).(held := s.held[t := s.held[t] - {i}]) else s
    case Go =>
      match s.threads[t]
      case Idle => s
      case Trying(start, attempts, seen) =>
        if attempts >= n then Goto(s, t, Idle).(nulls := s.nulls + 1)
        else
          var i := Probe(start, attempts, n);
          if s.inUse[i] then Goto(s, t, Trying(start, attempts + 1, seen + {i}))
          else Goto(s, t, Idle).(inUse := s.inUse[i := true], held := s.held[t := s.held[t] + {i}])
      case Freeing(i) =>
        if i < n then Goto(s, t, Idle).(inUse := s.inUse[i := false]) else s
  }

  /** The thread holds the slot, or is giving it back. */
  predicate Owns(s: State, t: nat, i: nat)
    requires t < |s.threads| == |s.held|
  {
    i in s.held[t] || s.threads[t] == Freeing(i)
  }

  ghost predicate Owned(s: State, i: nat)
    requires |s.threads| == |s.held|
  {
    exists t: nat :: t < |s.threads| && Owns(s, t, i)
  }

  /** Owned slots are slots in use, no thread gives back what it holds, no slot has two owners. */
  ghost predicate Exclusive(s: State)
    requires |s.threads| == |s.held|
  {
    && (forall t: nat, i: nat :: t < |s.threads| && Owns(s, t, i) ==> i < |s.inUse| && s.inUse[i])
    && (forall t: nat, u: nat, i: nat :: t < |s.threads| && u < |s.threads| && Owns(s, t, i) && Owns(s, u, i) ==> t == u)
    && (forall t: nat :: t < |s.threads| && s.threads[t].Freeing? ==> s.threads[t].slot !in s.held[t])
  }

  ghost predicate Probing(s: State, t: nat)
    requires t < |s.threads| && |s.inUse| > 0
  {
    s.threads[t].Trying? ==>
      forall a: nat {:trigger Probe(s.threads[t].start, a, |s.inUse|)} ::
        a < s.threads[t].attempts ==> Probe(s.threads[t].start, a, |s.inUse|) in s.threads[t].seen
  }

  ghost predicate Inv(s: State) {
    && |s.inUse| > 0 && |s.threads| == |s.held| && Exclusive(s)
    && (forall i: nat :: i < |s.inUse| && s.inUse[i] ==> Owned(s, i))
    && (forall t: nat :: t < |s.threads| ==> Probing(s, t))
  }

  /** A slot is owned after a step by who owned it before, or by the thread that just claimed it. */
  lemma OwnsBefore(s: State, t: nat, e: Event, u: nat, i: nat)
    requires Inv(s) && t < |s.threads| && u < |s.threads| && Owns(Step(s, t, e), u, i)
    ensures Owns(s, u, i) || (u == t && i < |s.inUse| && !s.inUse[i])
    ensures i < |s.inUse| && Step(s, t, e).inUse[i]
  {
    var s' := Step(s, t, e);
    if u != t {
      assert Owns(s, u, i);
      if s.threads[t].Freeing? { assert Owns(s, t, s.threads[t].slot); }
    } else if e.Free? {
      assert Owns(s, t, i);
    } else if s.threads[t].Freeing? {
      assert Owns(s, t, i) && Owns(s, t, s.threads[t].slot);
      assert s.threads[t].slot !in s.held[t];
    } else if i in s.held[t] {
      assert Owns(s, t, i);
    }
  }

  lemma StepExclusive(s: State, t: nat, e: Event)
    requires Inv(s) && t < |s.threads|
    ensures Exclusive(Step(s, t, e))
  {
    var s' := Step(s, t, e);
    forall u: nat, i: nat | u < |s.threads| && Owns(s', u, i) ensures i < |s.inUse| && s'.inUse[i] {
      OwnsBefore(s, t, e, u, i);
    }
    forall u: nat, v: nat, i: nat | u < |s.threads| && v < |s.threads| && Owns(s', u, i) && Owns(s', v, i) ensures u == v {
      OwnsBefore(s, t, e, u, i);
      OwnsBefore(s, t, e, v, i);
    }
  }

  lemma StepOwned(s: State, t: nat, e: Event, i: nat)
    requires Inv(s) && t < |s.threads| && i < |s.inUse| && Step(s, t, e).inUse[i]
    ensures Owned(Step(s, t, e), i)
  {
    var s' := Step(s, t, e);
    if s.inUse[i] {
      var u: nat :| u < |s.threads| && Owns(s, u, i);
      assert Owns(s', u, i);
    } else {
      assert Owns(s', t, i);
    }
  }

  lemma StepInv(s: State, t: nat, e: Event)
    requires Inv(s) && t < |s.threads|
    ensures Inv(Step(s, t, e)) && |Step(s, t, e).threads| == |s.threads| && |Step(s, t, e).inUse| == |s.inUse|
  {
    var s' := Step(s, t, e);
    StepExclusive(s, t, e);
    forall i: nat | i < |s'.inUse| && s'.inUse[i] ensures Owned(s', i) {
      StepOwned(s, t, e, i);
    }
    forall u: nat | u < |s'.threads| ensures Probing(s', u) {
      assert Probing(s, u);
    }
  }

  function Run(s: State, schedule: seq<(nat, Event)>): (r: State)
    requires |s.threads| == |s.held| && |s.inUse| > 0
    ensures |r.threads| == |r.held| == |s.threads| && |r.inUse| == |s.inUse|
    decreases |schedule|
  {
    if schedule == [] then s
    else
      var (t, e) := schedule[0];
      Run(if t < |s.threads| then Step(s, t, e) else s, schedule[1..])
  }

  lemma {:induction false} RunInv(s: State, schedule: seq<(nat, Event)>)
    requires Inv(s)
    ensures Inv(Run(s, schedule))
    decreases |schedule|
  {
    if schedule != [] {
      var (t, e) := schedule[0];
      if t < |s.threads| { StepInv(s, t, e); }
      RunInv(if t < |s.threads| then Step(s, t, e) else s, schedule[1..]);
    }
  }

  /** In every interleaving no slot has two owners, and the slots in use are the owned ones. */
  lemma NoTwoOwners(n: nat, threads: nat, schedule: seq<(nat, Event)>, t: nat, u: nat, i: nat)
    requires n > 0
    ensures var s := Run(Init(n, threads), schedule);
            && |s.threads| == |s.held|
            && (t < |s.threads| && u < |s.threads| && Owns(s, t, i) && Owns(s, u, i) ==> t == u)
            && (i < |s.inUse| ==> (s.inUse[i] <==> Owned(s, i)))
  {
    RunInv(Init(n, threads), schedule);
  }

  lemma {:induction false} RunSplit(s: State, a: seq<(nat, Event)>, b: (nat, Event))
    requires |s.threads| == |s.held| && |s.inUse| > 0
    ensures var m := Run(s, a); Run(s, a + [b]) == if b.0 < |m.threads| then Step(m, b.0, b.1) else m
    decreases |a|
  {
    if a == [] {
      assert a + [b] == [b] && [b][1..] == [];
    } else {
      var (t, e) := a[0];
      assert (a + [b])[1..] == a[1..] + [b];
      RunSplit(if t < |s.threads| then Step(s, t, e) else s, a[1..], b);
    }
  }

  /** The state after the first `k` steps. */
  function At(n: nat, threads: nat, schedule: seq<(nat, Event)>, k: nat): (s: State)
    requires n > 0 && k <= |schedule|
    ensures |s.threads| == |s.held| == threads && |s.inUse| == n
  {
    Run(Init(n, threads), schedule[..k])
  }

  lemma AtNext(n: nat, threads: nat, schedule: seq<(nat, Event)>, k: nat)
    requires n > 0 && k < |schedule|
    ensures var m, b := At(n, threads, schedule, k), schedule[k];
            At(n, threads, schedule, k + 1) == if b.0 < |m.threads| then Step(m, b.0, b.1) else m
  {
    RunSplit(Init(n, threads), schedule[..k], schedule[k]);
    assert schedule[..k] + [schedule[k]] == schedule[..k + 1];
  }

  /** How many of the steps from `i` to `k` thread `t` takes. */
  function OwnSteps(schedule: seq<(nat, Event)>, t: nat, i: nat, k: nat): nat
    requires i <= k <= |schedule|
  {
    if i == k then 0 else OwnSteps(schedule, t, i, k - 1) + if schedule[k - 1] == (t, Go) then 1 else 0
  }

  /** Steps a thread has left in its call, at most. */
  function Left(pc: Pc, n: nat): (l: nat)
    ensures l == 0 <==> pc.Idle?
  {
    match pc
    case Idle => 0
    case Trying(_, attempts, _) => if attempts < n then n + 1 - attempts else 1
    case Freeing(_) => 1
  }

  lemma StepLeft(s: State, u: nat, e: Event, t: nat)
    requires Inv(s) && u < |s.threads| && t < |s.threads| && !s.threads[t].Idle?
    ensures var s' := Step(s, u, e);
            && |s'.threads| == |s.threads|
            && Left(s'.threads[t], |s.inUse|) + (if (u, e) == (t, Go) then 1 else 0) <= Left(s.threads[t], |s.inUse|)
  {
    if s.threads[t].Freeing? { assert Owns(s, t, s.threads[t].slot); }
  }

  /** Allocate and deallocate are wait-free: a thread in a call has returned after one more of its own
      steps than there are slots, whatever the others do. */
  lemma CallReturns(n: nat, threads: nat, schedule: seq<(nat, Event)>, t: nat, b: nat, k: nat) returns (r: nat)
    requires n > 0 && b < k <= |schedule| && t < threads && !At(n, threads, schedule, b).threads[t].Idle?
    requires OwnSteps(schedule, t, b, k) > n
    ensures b < r <= k && At(n, threads, schedule, r).threads[t].Idle? && OwnSteps(schedule, t, b, r) <= n + 1
    ensures forall i :: b <= i < r ==> !At(n, threads, schedule, i).threads[t].Idle?
  {
    r := b;
    while r < k && !At(n, threads, schedule, r).threads[t].Idle?
      invariant b <= r <= k && (forall i :: b <= i < r ==> !At(n, threads, schedule, i).threads[t].Idle?)
      invariant OwnSteps(schedule, t, b, r) + Left(At(n, threads, schedule, r).threads[t], n) <= n + 1
    {
      AtNext(n, threads, schedule, r);
      RunInv(Init(n, threads), schedule[..r]);
      var s := At(n, threads, schedule, r);
      if schedule[r].0 < |s.threads| { StepLeft(s, schedule[r].0, schedule[r].1, t); }
      r := r + 1;
    }
  }

  /** At step `j` thread `t` was in the call of allocate that it is in at step `k`, and slot `i` in use. */
  ghost predicate FoundInUse(n: nat, threads: nat, schedule: seq<(nat, Event)>, t: nat, i: nat, j: nat, k: nat)
    requires n > 0
  {
    && j < k <= |schedule|
    && (forall m :: j <= m <= k ==> t < |At(n, threads, schedule, m).threads| && At(n, threads, schedule, m).threads[t].Trying?)
    && i < |At(n, threads, schedule, j).inUse| && At(n, threads, schedule, j).inUse[i]
  }

  /** How a step moves a thread inside allocate, and what it sees. */
  lemma TryingMoves(s: State, u: nat, e: Event, t: nat)
    requires |s.threads| == |s.held| && |s.inUse| > 0 && u < |s.threads| && t < |s.threads|
    ensures var s' := Step(s, u, e);
            && |s'.threads| == |s.threads|
            && (s'.threads[t].Trying? ==>
                  if s.threads[t].Trying? then forall i :: i in s'.threads[t].seen && i !in s.threads[t].seen ==> i < |s.inUse| && s.inUse[i]
                  else s'.threads[t].seen == {})
  {
  }

  lemma {:induction false} SeenWasInUse(n: nat, threads: nat, schedule: seq<(nat, Event)>, t: nat, i: nat, k: nat) returns (j: nat)
    requires n > 0 && k <= |schedule|
    requires var s := At(n, threads, schedule, k); t < |s.threads| && s.threads[t].Trying? && i in s.threads[t].seen
    ensures FoundInUse(n, threads, schedule, t, i, j, k)
  {
    if k == 0 {
      assert false;
    } else {
      AtNext(n, threads, schedule, k - 1);
      var m, b := At(n, threads, schedule, k - 1), schedule[k - 1];
      RunInv(Init(n, threads), schedule[..k - 1]);
      if b.0 < |m.threads| { TryingMoves(m, b.0, b.1, t); }
      if i in m.threads[t].seen {
        j := SeenWasInUse(n, threads, schedule, t, i, k - 1);
      } else {
        j := k - 1;
      }
    }
  }

  /** In every interleaving a call that answers null with step `k` has found every slot in use, each
      at some step `j` of this call. */
  lemma NullSawAllInUse(n: nat, threads: nat, schedule: seq<(nat, Event)>, k: nat, i: nat) returns (j: nat)
    requires n > 0 && k < |schedule| && i < |At(n, threads, schedule, k).inUse|
    requires At(n, threads, schedule, k + 1).nulls > At(n, threads, schedule, k).nulls
    ensures FoundInUse(n, threads, schedule, schedule[k].0, i, j, k)
  {
    var s, t := At(n, threads, schedule, k), schedule[k].0;
    AtNext(n, threads, schedule, k);
    RunInv(Init(n, threads), schedule[..k]);
    assert Probing(s, t);
    ProbeVisitsOnce(s.threads[t].start, i, |s.inUse|);
    j := SeenWasInUse(n, threads, schedule, t, i, k);
  }

  /** Thread `t` took slot `i`, which was free. */
  ghost predicate Claims(s: State, s': State, t: nat, i: nat) {
    && t < |s.held| == |s'.held| && i < |s.inUse| && !s.inUse[i]
    && s'.inUse == s.inUse[i := true] && s'.held == s.held[t := s.held[t] + {i}]
  }

  /** A step that ends a call of allocate answers null or takes a slot that was free. */
  lemma AllocateAnswers(s: State, t: nat)
    requires Inv(s) && t < |s.threads| && s.threads[t].Trying?
    ensures var s' := Step(s, t, Go);
            s'.threads[t].Idle? ==>
              || (s'.nulls == s.nulls + 1 && s'.inUse == s.inUse && s'.held == s.held)
              || (s'.nulls == s.nulls && exists i: nat :: Claims(s, s', t, i))
  {
    var pc, n := s.threads[t], |s.inUse|;
    if pc.attempts < n && !s.inUse[Probe(pc.start, pc.attempts, n)] {
      assert Claims(s, Step(s, t, Go), t, Probe(pc.start, pc.attempts, n));
    }
  }

  // --------------------------------------------------------------- calls that run alone

  /** The state after `k` steps of thread `t` alone. */
  function Alone(s: State, t: nat, k: nat): (r: State)
    requires t < |s.threads| == |s.held| && |s.inUse| > 0
    ensures |r.threads| == |r.held| == |s.threads| && |r.inUse| == |s.inUse|
    decreases k
  {
    if k == 0 then s else Alone(Step(s, t, Go), t, k - 1)
  }

  lemma {:induction false} AloneIdle(s: State, t: nat, k: nat)
    requires t < |s.threads| == |s.held| && |s.inUse| > 0 && s.threads[t].Idle?
    ensures Alone(s, t, k) == s
    decreases k
  {
    if k > 0 { AloneIdle(s, t, k - 1); }
  }

  /** The slots tried so far are in use. */
  ghost predicate Tried(s: State, t: nat) {
    && t < |s.threads| == |s.held| && |s.inUse| > 0 && s.threads[t].Trying? && s.threads[t].attempts <= |s.inUse|
    && forall a: nat {:trigger Probe(s.threads[t].start, a, |s.inUse|)} ::
         a < s.threads[t].attempts ==> s.inUse[Probe(s.threads[t].start, a, |s.inUse|)]
  }

  /** What the call leaves: null if every slot is in use, and one more slot claimed otherwise. */
  ghost predicate Allocates(s: State, r: State, t: nat) {
    && t < |r.threads| && r.threads[t].Idle?
    && if forall i :: 0 <= i < |s.inUse| ==> s.inUse[i]
       then r.nulls == s.nulls + 1 && r.inUse == s.inUse && r.held == s.held
       else r.nulls == s.nulls && exists i: nat :: Claims(s, r, t, i)
  }

  lemma TriedAll(s: State, t: nat, i: nat)
    requires Tried(s, t) && s.threads[t].attempts == |s.inUse| && i < |s.inUse|
    ensures s.inUse[i]
  {
    ProbeVisitsOnce(s.threads[t].start, i, |s.inUse|);
  }

  lemma ClaimAllocates(s: State, t: nat)
    requires Tried(s, t) && s.threads[t].attempts < |s.inUse|
    requires !s.inUse[Probe(s.threads[t].start, s.threads[t].attempts, |s.inUse|)]
    ensures Allocates(s, Step(s, t, Go), t)
  {
    assert Claims(s, Step(s, t, Go), t, Probe(s.threads[t].start, s.threads[t].attempts, |s.inUse|));
  }

  lemma NullAllocates(s: State, t: nat)
    requires Tried(s, t) && s.threads[t].attempts == |s.inUse|
    ensures Allocates(s, Step(s, t, Go), t)
  {
    forall i | 0 <= i < |s.inUse| ensures s.inUse[i] { TriedAll(s, t, i); }
  }

  lemma {:induction false} SoloTries(s: State, t: nat, k: nat)
    requires Tried(s, t) && s.threads[t].attempts + k > |s.inUse|
    ensures Allocates(s, Alone(s, t, k), t)
    decreases k
  {
    var pc, n, s' := s.threads[t], |s.inUse|, Step(s, t, Go);
    if pc.attempts == n {
      NullAllocates(s, t);
      AloneIdle(s', t, k - 1);
    } else if s.inUse[Probe(pc.start, pc.attempts, n)] {
      SoloTries(s', t, k - 1);
      SameAllocation(s, s', Alone(s', t, k - 1), t);
    } else {
      ClaimAllocates(s, t);
      AloneIdle(s', t, k - 1);
    }
  }

  lemma SameAllocation(s: State, s': State, r: State, t: nat)
    requires s'.inUse == s.inUse && s'.held == s.held && s'.nulls == s.nulls && Allocates(s', r, t)
    ensures Allocates(s, r, t)
  {
    if !forall i :: 0 <= i < |s.inUse| ==> s.inUse[i] {
      var i: nat :| Claims(s', r, t, i);
      assert Claims(s, r, t, i);
    }
  }

  /** A call of allocate that runs alone answers null if and only if every slot is in use, and otherwise
      claims one that was free, after at most one more step than there are slots. */
  lemma SoloAllocate(s: State, t: nat)
    requires t < |s.threads| == |s.held| && |s.inUse| > 0 && s.threads[t].Idle?
    ensures Allocates(s, Alone(Step(s, t, Allocate), t, |s.inUse| + 1), t)
  {
    var s' := Step(s, t, Allocate);
    SoloTries(s', t, |s.inUse| + 1);
    SameAllocation(s, s', Alone(s', t, |s.inUse| + 1), t);
  }

  /** Deallocate gives the slot back with its own step. */
  lemma SoloFree(s: State, t: nat, i: nat)
    requires Inv(s) && t < |s.threads| && s.threads[t].Idle? && i in s.held[t]
    ensures var r := Step(Step(s, t, Free(i)), t, Go);
            && i < |s.inUse| && s.inUse[i] && r.threads[t].Idle?
            && r.inUse == s.inUse[i := false] && r.held == s.held[t := s.held[t] - {i}]
  {
    assert Owns(s, t, i);
  }
}
