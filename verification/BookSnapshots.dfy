/**
 * `get_snapshot` and `update_level` of include/core/order_book.hpp over the sequence lock: the book
 * as words in memory, an update as the stores of one write section, a snapshot as the loads of one
 * reader, and what a validated snapshot shows.  The price tables and cached best indices are not
 * among the words, since no snapshot loads them.
 */
module BookSnapshots {
  import opened Common
  import opened Sorting
  import opened OrderBook
  import PriceIndex
  import SeqLock

  type Memory = SeqLock.Memory
  type Addr = SeqLock.Addr

  // --------------------------------------------------------------- the book in memory

  datatype Field = Price | Quantity | Count

  function FieldNumber(f: Field): nat {
    match f case Price => 0 case Quantity => 1 case Count => 2
  }

  /** The word of the update counter. */
  const NUMBER: Addr := 0

  /** The word of one field of one level. */
  function Cell(side: Side, i: nat, f: Field): Addr {
    1 + 2 * (3 * i + FieldNumber(f)) + if side.Bid? then 0 else 1
  }

  function FieldOf(l: Level, f: Field): nat {
    match f case Price => l.price case Quantity => l.quantity case Count => l.count
  }

  ghost predicate HoldsSide(m: Memory, side: Side, levels: seq<Level>) {
    forall i, f :: 0 <= i < |levels| ==> SeqLock.Read(m, Cell(side, i, f)) == FieldOf(levels[i], f)
  }

  /** The memory holds the book. */
  ghost predicate Holds(m: Memory, b: Book) {
    && HoldsSide(m, Bid, b.bids.levels) && HoldsSide(m, Ask, b.asks.levels)
    && SeqLock.Read(m, NUMBER) == b.sequence
  }

  // ------------------------------------------------------- get_snapshot as a program

  /** The scan of one side: all prices in slot order. */
  function Scan(side: Side, n: nat): seq<Addr> {
    seq(n, i requires 0 <= i < n => Cell(side, i, Price))
  }

  /** The fields of the picked levels, three words each. */
  function Emit(side: Side, picks: seq<Pick>): seq<Addr> {
    if picks == [] then []
    else
      var i := picks[0].index;
      [Cell(side, i, Price), Cell(side, i, Quantity), Cell(side, i, Count)] + Emit(side, picks[1..])
  }

  function PricesIn(m: Memory, side: Side, n: nat): seq<int> {
    seq(n, i requires 0 <= i < n => SeqLock.Read(m, Cell(side, i, Price)))
  }

  /** The picks a snapshot of depth `d` emits when it finds these prices. */
  function Chosen(side: Side, prices: seq<int>, d: nat): seq<Pick> {
    var r := Ranked(side, prices);
    r[..Min(d, |r|)]
  }

  function SideAddrs(m: Memory, side: Side, n: nat, d: nat): seq<Addr> {
    Scan(side, n) + Emit(side, Chosen(side, PricesIn(m, side, n), d))
  }

  /** All addresses that a snapshot running alone on `m` loads, in order. */
  function Addrs(m: Memory, n: nat, d: nat): seq<Addr> {
    SideAddrs(m, Bid, n, d) + (SideAddrs(m, Ask, n, d) + [NUMBER])
  }

  /** What the loads say about the memory; a price keeps the value of the scan. */
  function Seen(loads: seq<SeqLock.Load>): Memory {
    if loads == [] then map[]
    else
      var m, l := Seen(loads[..|loads| - 1]), loads[|loads| - 1];
      if l.addr in m then m else m[l.addr := l.value]
  }

  /** The body of the retry loop: each next address follows from what has been loaded. */
  function GetSnapshot(n: nat, d: nat): SeqLock.Program {
    (loads: seq<SeqLock.Load>) =>
      var a := Addrs(Seen(loads), n, d);
      if |loads| < |a| then Some(a[|loads|]) else None
  }

  /** `x` read as an unsigned word. */
  function Unsigned(x: int): nat {
    if x >= 0 then x else 0
  }

  /** The first `count` rows in a list of loads, three loads each. */
  function RowsIn(loads: seq<SeqLock.Load>, count: nat): seq<Row> {
    if count == 0 || |loads| < 3 then []
    else
      [Row(Unsigned(loads[0].value), Unsigned(loads[1].value), Unsigned(loads[2].value))] + RowsIn(loads[3..], count - 1)
  }

  function Drop(loads: seq<SeqLock.Load>, k: nat): seq<SeqLock.Load> {
    if k <= |loads| then loads[k..] else []
  }

  function BidCount(loads: seq<SeqLock.Load>, n: nat, d: nat): nat {
    |Chosen(Bid, PricesIn(Seen(loads), Bid, n), d)|
  }

  function AskCount(loads: seq<SeqLock.Load>, n: nat, d: nat): nat {
    |Chosen(Ask, PricesIn(Seen(loads), Ask, n), d)|
  }

  /** The rows emitted after the scan of the bids. */
  function BidRows(loads: seq<SeqLock.Load>, n: nat, d: nat): seq<Row> {
    RowsIn(Drop(loads, n), BidCount(loads, n, d))
  }

  /** The rows emitted after the scan of the asks. */
  function AskRows(loads: seq<SeqLock.Load>, n: nat, d: nat): seq<Row> {
    AskRowsAfter(loads, n, BidCount(loads, n, d), AskCount(loads, n, d))
  }

  function AskRowsAfter(loads: seq<SeqLock.Load>, n: nat, bids: nat, asks: nat): seq<Row> {
    RowsIn(Drop(Drop(loads, n + 3 * bids), n), asks)
  }

  function Number(loads: seq<SeqLock.Load>): int {
    if loads == [] then 0 else loads[|loads| - 1].value
  }

  // ----------------------------------------------------- a snapshot on one memory

  /** Two memories that agree on the first `k` addresses agree on the next one. */
  lemma {:induction false} AddrsAgree(m: Memory, m': Memory, n: nat, d: nat, k: nat)
    requires k <= |Addrs(m', n, d)|
    requires forall j :: 0 <= j < k ==> SeqLock.Read(m, Addrs(m', n, d)[j]) == SeqLock.Read(m', Addrs(m', n, d)[j])
    ensures k < |Addrs(m, n, d)| <==> k < |Addrs(m', n, d)|
    ensures k < |Addrs(m', n, d)| ==> k < |Addrs(m, n, d)| && Addrs(m, n, d)[k] == Addrs(m', n, d)[k]
  {
    var p, p' := Emit(Bid, Chosen(Bid, PricesIn(m, Bid, n), d)), Emit(Bid, Chosen(Bid, PricesIn(m', Bid, n), d));
    var q, q' := Emit(Ask, Chosen(Ask, PricesIn(m, Ask, n), d)), Emit(Ask, Chosen(Ask, PricesIn(m', Ask, n), d));
    if k >= n {
      BidScanFirst(m', n, d);
      SamePrices(m, m', Bid, n, Addrs(m', n, d), 0, k);
    }
    if k >= n + |p'| + n {
      AskScanNext(m', n, d);
      SamePrices(m, m', Ask, n, Addrs(m', n, d), n + |p'|, k);
    }
    PartwiseNext(Scan(Bid, n), p, Scan(Ask, n), q, p', q', k);
  }

  /** The k-th element depends only on the parts up to it. */
  lemma PartwiseNext(s1: seq<Addr>, e: seq<Addr>, s2: seq<Addr>, f: seq<Addr>, e': seq<Addr>, f': seq<Addr>, k: nat)
    requires k >= |s1| ==> e == e'
    requires k >= |s1| + |e'| + |s2| ==> f == f'
    ensures var a, a' := (s1 + e) + ((s2 + f) + [NUMBER]), (s1 + e') + ((s2 + f') + [NUMBER]);
            (k < |a| <==> k < |a'|) && (k < |a| && k < |a'| ==> a[k] == a'[k])
  {
    var a, a' := (s1 + e) + ((s2 + f) + [NUMBER]), (s1 + e') + ((s2 + f') + [NUMBER]);
    if k < |s1| {
      SameStart(a, s1, e + ((s2 + f) + [NUMBER]), k);
      SameStart(a', s1, e' + ((s2 + f') + [NUMBER]), k);
    } else if k < |s1| + |e'| + |s2| {
      SameStart(a, s1 + e + s2, f + [NUMBER], k);
      SameStart(a', s1 + e + s2, f' + [NUMBER], k);
    }
  }

  lemma SameStart(a: seq<Addr>, x: seq<Addr>, y: seq<Addr>, k: nat)
    requires a == x + y && k < |x|
    ensures k < |a| && a[k] == x[k]
  {
  }

  lemma BidScanFirst(m: Memory, n: nat, d: nat)
    ensures |Addrs(m, n, d)| >= n && forall i :: 0 <= i < n ==> Addrs(m, n, d)[0 + i] == Cell(Bid, i, Price)
  {
  }

  lemma AskScanNext(m: Memory, n: nat, d: nat)
    ensures var b := n + |Emit(Bid, Chosen(Bid, PricesIn(m, Bid, n), d))|;
            |Addrs(m, n, d)| >= b + n && forall i :: 0 <= i < n ==> Addrs(m, n, d)[b + i] == Cell(Ask, i, Price)
  {
  }

  lemma {:induction false} SamePrices(m: Memory, m': Memory, side: Side, n: nat, a: seq<Addr>, start: nat, k: nat)
    requires start + n <= k <= |a| && forall i :: 0 <= i < n ==> a[start + i] == Cell(side, i, Price)
    requires forall j :: 0 <= j < k ==> SeqLock.Read(m, a[j]) == SeqLock.Read(m', a[j])
    ensures PricesIn(m, side, n) == PricesIn(m', side, n)
  {
    forall i | 0 <= i < n ensures PricesIn(m, side, n)[i] == PricesIn(m', side, n)[i] {
      assert SeqLock.Read(m, a[start + i]) == SeqLock.Read(m', a[start + i]);
    }
  }

  lemma {:induction false} SeenReads(m: Memory, loads: seq<SeqLock.Load>)
    requires SeqLock.ReadsFrom(m, loads)
    ensures forall a :: a in Seen(loads) ==> Seen(loads)[a] == SeqLock.Read(m, a)
    ensures forall j :: 0 <= j < |loads| ==> loads[j].addr in Seen(loads)
  {
    if loads != [] {
      var front := loads[..|loads| - 1];
      SeenReads(m, front);
      forall j | 0 <= j < |loads| ensures loads[j].addr in Seen(loads) {
        if j < |front| { assert front[j] == loads[j]; }
      }
    }
  }

  /** The loads went along these addresses so far. */
  ghost predicate Along(a: seq<Addr>, loads: seq<SeqLock.Load>) {
    |loads| <= |a| && forall i :: 0 <= i < |loads| ==> loads[i].addr == a[i]
  }

  lemma {:induction false} AlongMore(a: seq<Addr>, loads: seq<SeqLock.Load>)
    requires loads != [] && Along(a, loads[..|loads| - 1])
    requires |loads| <= |a| && loads[|loads| - 1].addr == a[|loads| - 1]
    ensures Along(a, loads)
  {
    forall i | 0 <= i < |loads| ensures loads[i].addr == a[i] {
      if i < |loads| - 1 { assert loads[..|loads| - 1][i] == loads[i]; }
    }
  }

  /** A snapshot that reads one memory loads what it would load alone. */
  lemma {:induction false} LoadsAlong(m: Memory, n: nat, d: nat, loads: seq<SeqLock.Load>)
    requires SeqLock.Follows(GetSnapshot(n, d), loads) && SeqLock.ReadsFrom(m, loads)
    ensures Along(Addrs(m, n, d), loads)
  {
    if loads != [] {
      var front := loads[..|loads| - 1];
      FollowsPrefix(GetSnapshot(n, d), loads);
      LoadsAlong(m, n, d, front);
      NextAddr(m, n, d, front);
      assert GetSnapshot(n, d)(front) == Some(loads[|loads| - 1].addr);
      AlongMore(Addrs(m, n, d), loads);
    }
  }

  lemma LoadsAddrs(m: Memory, n: nat, d: nat, loads: seq<SeqLock.Load>)
    requires SeqLock.Follows(GetSnapshot(n, d), loads) && SeqLock.ReadsFrom(m, loads) && GetSnapshot(n, d)(loads).None?
    ensures Along(Addrs(m, n, d), loads) && |loads| == |Addrs(m, n, d)|
  {
    LoadsAlong(m, n, d, loads);
    NextAddr(m, n, d, loads);
  }

  lemma FollowsPrefix(prog: SeqLock.Program, loads: seq<SeqLock.Load>)
    requires loads != [] && SeqLock.Follows(prog, loads)
    ensures SeqLock.Follows(prog, loads[..|loads| - 1])
  {
    var front := loads[..|loads| - 1];
    forall i | 0 <= i < |front| ensures prog(front[..i]) == Some(front[i].addr) {
      assert front[..i] == loads[..i];
    }
  }

  lemma {:induction false} NextAddr(m: Memory, n: nat, d: nat, loads: seq<SeqLock.Load>)
    requires SeqLock.ReadsFrom(m, loads) && Along(Addrs(m, n, d), loads)
    ensures GetSnapshot(n, d)(loads) == if |loads| < |Addrs(m, n, d)| then Some(Addrs(m, n, d)[|loads|]) else None
  {
    SeenReads(m, loads);
    AddrsAgree(Seen(loads), m, n, d, |loads|);
  }

  /** The loads of these addresses from one memory. */
  function LoadsOf(m: Memory, a: seq<Addr>): (loads: seq<SeqLock.Load>)
    ensures |loads| == |a|
  {
    if a == [] then [] else [SeqLock.Load(a[0], SeqLock.Read(m, a[0]))] + LoadsOf(m, a[1..])
  }

  lemma {:induction false} LoadsOfAlong(m: Memory, a: seq<Addr>, loads: seq<SeqLock.Load>)
    requires SeqLock.ReadsFrom(m, loads) && |loads| == |a| && forall i :: 0 <= i < |a| ==> loads[i].addr == a[i]
    ensures loads == LoadsOf(m, a)
  {
    if a != [] {
      assert loads[0] == SeqLock.Load(a[0], SeqLock.Read(m, a[0]));
      LoadsOfAlong(m, a[1..], loads[1..]);
      assert loads == [loads[0]] + loads[1..];
    }
  }

  lemma {:induction false} LoadsOfParts(m: Memory, a: seq<Addr>, b: seq<Addr>)
    ensures LoadsOf(m, a + b) == LoadsOf(m, a) + LoadsOf(m, b)
  {
    if a == [] {
      assert a + b == b;
    } else {
      assert (a + b)[1..] == a[1..] + b;
      LoadsOfParts(m, a[1..], b);
    }
  }

  lemma DropParts(x: seq<SeqLock.Load>, y: seq<SeqLock.Load>)
    ensures Drop(x + y, |x|) == y
  {
  }

  /** The first emitted row. */
  lemma {:induction false} EmittedRow(m: Memory, side: Side, levels: seq<Level>, p: seq<Pick>, tail: seq<SeqLock.Load>)
    requires HoldsSide(m, side, levels) && p != [] && p[0].index < |levels|
    ensures var loads := LoadsOf(m, Emit(side, p)) + tail;
            && |loads| >= 3 && loads[3..] == LoadsOf(m, Emit(side, p[1..])) + tail
            && Row(Unsigned(loads[0].value), Unsigned(loads[1].value), Unsigned(loads[2].value)) == RowAt(levels)(p[0])
  {
    var i := p[0].index;
    var cells := [Cell(side, i, Price), Cell(side, i, Quantity), Cell(side, i, Count)];
    LoadsOfParts(m, cells, Emit(side, p[1..]));
    ThreeLoads(m, cells);
    AfterThree(LoadsOf(m, cells), LoadsOf(m, Emit(side, p[1..])), tail);
  }

  lemma AfterThree(x: seq<SeqLock.Load>, y: seq<SeqLock.Load>, tail: seq<SeqLock.Load>)
    requires |x| == 3
    ensures var loads := (x + y) + tail;
            |loads| >= 3 && loads[0] == x[0] && loads[1] == x[1] && loads[2] == x[2] && loads[3..] == y + tail
  {
  }

  lemma {:induction false} MapCons(levels: seq<Level>, p: seq<Pick>)
    requires p != []
    ensures Map(RowAt(levels), p) == [RowAt(levels)(p[0])] + Map(RowAt(levels), p[1..])
  {
  }

  /** Emitted rows are the rows of the picked levels, whatever follows. */
  lemma {:induction false} EmittedRows(m: Memory, side: Side, levels: seq<Level>, p: seq<Pick>, tail: seq<SeqLock.Load>)
    requires HoldsSide(m, side, levels) && forall k :: 0 <= k < |p| ==> p[k].index < |levels|
    ensures RowsIn(LoadsOf(m, Emit(side, p)) + tail, |p|) == Map(RowAt(levels), p)
    ensures |Emit(side, p)| == 3 * |p|
  {
    if p != [] {
      EmittedRows(m, side, levels, p[1..], tail);
      EmittedRow(m, side, levels, p, tail);
      MapCons(levels, p);
    }
  }

  lemma {:induction false} ThreeLoads(m: Memory, a: seq<Addr>)
    requires |a| == 3
    ensures var l := LoadsOf(m, a);
            && |l| == 3 && l[0].value == SeqLock.Read(m, a[0]) && l[1].value == SeqLock.Read(m, a[1])
            && l[2].value == SeqLock.Read(m, a[2])
  {
    assert a[1..][1..] == a[2..] && a[2..][1..] == [];
    assert LoadsOf(m, a)[1..] == LoadsOf(m, a[1..]);
    assert LoadsOf(m, a[1..])[1..] == LoadsOf(m, a[2..]);
  }

  lemma HeldPrices(m: Memory, side: Side, levels: seq<Level>)
    requires HoldsSide(m, side, levels)
    ensures PricesIn(m, side, |levels|) == Prices(levels)
  {
  }

  /** The chosen picks of the held book, as rows, are a snapshot of the side. */
  lemma {:induction false} ChosenIsSnapshot(side: Side, levels: seq<Level>, d: nat)
    ensures IsSnapshot(side, levels, d, Map(RowAt(levels), Chosen(side, Prices(levels), d)))
  {
    RankedIsFull(side, levels);
    var r := Ranked(side, Prices(levels));
    assert Map(RowAt(levels), r)[..Min(d, |r|)] == Map(RowAt(levels), r[..Min(d, |r|)]);
  }

  /** The rows emitted for one side, whatever follows, are a snapshot of it. */
  lemma {:induction false} SideShown(m: Memory, side: Side, levels: seq<Level>, d: nat, tail: seq<SeqLock.Load>)
    requires HoldsSide(m, side, levels)
    ensures var p := Chosen(side, PricesIn(m, side, |levels|), d);
            && |Emit(side, p)| == 3 * |p|
            && IsSnapshot(side, levels, d, RowsIn(LoadsOf(m, Emit(side, p)) + tail, |p|))
  {
    HeldPrices(m, side, levels);
    var p := Chosen(side, Prices(levels), d);
    forall k | 0 <= k < |p| ensures p[k].index < |levels| {
      RankedAreSlots(side, Prices(levels), k);
    }
    EmittedRows(m, side, levels, p, tail);
    ChosenIsSnapshot(side, levels, d);
  }

  /** The prices as the snapshot saw them are those of the memory. */
  lemma {:induction false} SeenPrices(m: Memory, side: Side, n: nat, loads: seq<SeqLock.Load>, a: seq<Addr>)
    requires SeqLock.ReadsFrom(m, loads) && Along(a, loads) && |loads| == |a|
    requires forall x :: x in Scan(side, n) ==> x in a
    ensures PricesIn(Seen(loads), side, n) == PricesIn(m, side, n)
  {
    SeenReads(m, loads);
    forall i | 0 <= i < n ensures PricesIn(Seen(loads), side, n)[i] == PricesIn(m, side, n)[i] {
      var x := Cell(side, i, Price);
      assert Scan(side, n)[i] == x && x in Scan(side, n);
      assert x in a;
      var j :| 0 <= j < |a| && a[j] == x;
      assert loads[j].addr in Seen(loads);
    }
  }

  lemma ScansInAddrs(m: Memory, n: nat, d: nat)
    ensures forall x :: x in Scan(Bid, n) || x in Scan(Ask, n) ==> x in Addrs(m, n, d)
  {
  }

  /** The loads of a snapshot alone on `m`, part by part. */
  lemma {:induction false} LoadsByPart(m: Memory, n: nat, d: nat)
    ensures var eb, ea := Emit(Bid, Chosen(Bid, PricesIn(m, Bid, n), d)), Emit(Ask, Chosen(Ask, PricesIn(m, Ask, n), d));
            LoadsOf(m, Addrs(m, n, d)) ==
              (LoadsOf(m, Scan(Bid, n)) + LoadsOf(m, eb)) + ((LoadsOf(m, Scan(Ask, n)) + LoadsOf(m, ea)) + LoadsOf(m, [NUMBER]))
  {
    var eb, ea := Emit(Bid, Chosen(Bid, PricesIn(m, Bid, n), d)), Emit(Ask, Chosen(Ask, PricesIn(m, Ask, n), d));
    LoadsOfParts(m, Scan(Bid, n) + eb, (Scan(Ask, n) + ea) + [NUMBER]);
    LoadsOfParts(m, Scan(Bid, n), eb);
    LoadsOfParts(m, Scan(Ask, n) + ea, [NUMBER]);
    LoadsOfParts(m, Scan(Ask, n), ea);
  }

  /** Where the parts of a list of loads begin. */
  lemma {:induction false} PartsOf(l: seq<SeqLock.Load>, s1: seq<SeqLock.Load>, e1: seq<SeqLock.Load>, s2: seq<SeqLock.Load>, e2: seq<SeqLock.Load>, last: SeqLock.Load)
    requires l == (s1 + e1) + ((s2 + e2) + [last])
    ensures Drop(l, |s1|) == e1 + ((s2 + e2) + [last]) && Drop(Drop(l, |s1| + |e1|), |s2|) == e2 + [last]
    ensures Number(l) == last.value
  {
    assert l == s1 + (e1 + ((s2 + e2) + [last]));
    DropParts(s1, e1 + ((s2 + e2) + [last]));
    DropParts(s1 + e1, (s2 + e2) + [last]);
    assert (s2 + e2) + [last] == s2 + (e2 + [last]);
    DropParts(s2, e2 + [last]);
  }

  /** A finished snapshot that read one memory holding the book shows that book: both listings and
      the update counter. */
  lemma {:induction false} SnapshotOfBook(m: Memory, b: Book, n: nat, d: nat, loads: seq<SeqLock.Load>)
    requires Holds(m, b) && Sized(b, n)
    requires SeqLock.Follows(GetSnapshot(n, d), loads) && SeqLock.ReadsFrom(m, loads) && GetSnapshot(n, d)(loads).None?
    ensures IsSnapshot(Bid, b.bids.levels, d, BidRows(loads, n, d))
    ensures IsSnapshot(Ask, b.asks.levels, d, AskRows(loads, n, d))
    ensures Number(loads) == b.sequence
  {
    LoadsAddrs(m, n, d, loads);
    ScansInAddrs(m, n, d);
    SeenPrices(m, Bid, n, loads, Addrs(m, n, d));
    SeenPrices(m, Ask, n, loads, Addrs(m, n, d));
    LoadsOfAlong(m, Addrs(m, n, d), loads);
    LoadsByPart(m, n, d);
    ShownInParts(m, b, n, d, loads, Chosen(Bid, PricesIn(m, Bid, n), d), Chosen(Ask, PricesIn(m, Ask, n), d));
  }

  lemma {:induction false} ShownInParts(m: Memory, b: Book, n: nat, d: nat, loads: seq<SeqLock.Load>, p: seq<Pick>, q: seq<Pick>)
    requires Holds(m, b) && Sized(b, n)
    requires p == Chosen(Bid, PricesIn(m, Bid, n), d) == Chosen(Bid, PricesIn(Seen(loads), Bid, n), d)
    requires q == Chosen(Ask, PricesIn(m, Ask, n), d) == Chosen(Ask, PricesIn(Seen(loads), Ask, n), d)
    requires loads == (LoadsOf(m, Scan(Bid, n)) + LoadsOf(m, Emit(Bid, p)))
                      + ((LoadsOf(m, Scan(Ask, n)) + LoadsOf(m, Emit(Ask, q))) + LoadsOf(m, [NUMBER]))
    ensures IsSnapshot(Bid, b.bids.levels, d, BidRows(loads, n, d))
    ensures IsSnapshot(Ask, b.asks.levels, d, AskRows(loads, n, d))
    ensures Number(loads) == b.sequence
  {
    var s1, e1, s2, e2 := LoadsOf(m, Scan(Bid, n)), LoadsOf(m, Emit(Bid, p)), LoadsOf(m, Scan(Ask, n)), LoadsOf(m, Emit(Ask, q));
    var last := SeqLock.Load(NUMBER, SeqLock.Read(m, NUMBER));
    LoadOne(m, NUMBER);
    PartsOf(loads, s1, e1, s2, e2, last);
    SideShown(m, Bid, b.bids.levels, d, (s2 + e2) + [last]);
    SideShown(m, Ask, b.asks.levels, d, [last]);
    BidRowsAre(loads, n, d, e1 + ((s2 + e2) + [last]), |p|);
    AskRowsAre(loads, n, d, e2 + [last], |p|, |q|);
  }

  lemma LoadOne(m: Memory, x: Addr)
    ensures LoadsOf(m, [x]) == [SeqLock.Load(x, SeqLock.Read(m, x))]
  {
    assert [x][1..] == [];
  }

  lemma {:induction false} BidRowsAre(loads: seq<SeqLock.Load>, n: nat, d: nat, rest: seq<SeqLock.Load>, count: nat)
    requires BidCount(loads, n, d) == count && Drop(loads, n) == rest
    ensures BidRows(loads, n, d) == RowsIn(rest, count)
  {
  }

  lemma {:induction false} AskRowsAre(loads: seq<SeqLock.Load>, n: nat, d: nat, rest: seq<SeqLock.Load>, bids: nat, asks: nat)
    requires BidCount(loads, n, d) == bids && AskCount(loads, n, d) == asks && Drop(Drop(loads, n + 3 * bids), n) == rest
    ensures AskRows(loads, n, d) == RowsIn(rest, asks)
  {
    assert AskRows(loads, n, d) == AskRowsAfter(loads, n, bids, asks);
    AskRowsAfterAre(loads, n, rest, bids, asks);
  }

  lemma {:induction false} AskRowsAfterAre(loads: seq<SeqLock.Load>, n: nat, rest: seq<SeqLock.Load>, bids: nat, asks: nat)
    requires Drop(Drop(loads, n + 3 * bids), n) == rest
    ensures AskRowsAfter(loads, n, bids, asks) == RowsIn(rest, asks)
  {
  }

  // ----------------------------------------------- update_level and clear as write sections

  datatype Write = Write(addr: Addr, value: int)

  /** The stores of one update, in order. */
  function UpdateWrites(b: Book, side: Side, l: Level): seq<Write>
    requires |SideOf(b, side).levels| < SIZE_MAX
  {
    if !Accepts(SideOf(b, side), l.price) then []
    else
      var i := Target(SideOf(b, side), l.price);
      [Write(Cell(side, i, Price), l.price), Write(Cell(side, i, Quantity), l.quantity), Write(Cell(side, i, Count), l.count)]
      + (if l.quantity == 0 then [Write(Cell(side, i, Price), 0)] else [])
      + [Write(NUMBER, (b.sequence + 1) % WORD)]
  }

  /** The stores of clear: level by level, bids and asks. */
  function ClearWrites(n: nat): seq<Write> {
    if n == 0 then []
    else
      ClearWrites(n - 1)
      + [Write(Cell(Bid, n - 1, Price), 0), Write(Cell(Bid, n - 1, Quantity), 0), Write(Cell(Bid, n - 1, Count), 0),
         Write(Cell(Ask, n - 1, Price), 0), Write(Cell(Ask, n - 1, Quantity), 0), Write(Cell(Ask, n - 1, Count), 0)]
  }

  function Writes(b: Book, op: Op): seq<Write>
    requires |b.bids.levels| < SIZE_MAX && |b.asks.levels| < SIZE_MAX
  {
    match op
    case Update(side, l) => UpdateWrites(b, side, l)
    case Clear => ClearWrites(|b.bids.levels|)
  }

  function Perform(m: Memory, ws: seq<Write>): Memory
    decreases |ws|
  {
    if ws == [] then m else Perform(m[ws[0].addr := ws[0].value], ws[1..])
  }

  lemma {:induction false} PerformParts(m: Memory, a: seq<Write>, b: seq<Write>)
    ensures Perform(m, a + b) == Perform(Perform(m, a), b)
    decreases |a|
  {
    if a == [] {
      assert a + b == b;
    } else {
      assert (a + b)[1..] == a[1..] + b;
      PerformParts(m[a[0].addr := a[0].value], a[1..], b);
    }
  }

  lemma {:induction false} PerformThree(m: Memory, x: Write, y: Write, z: Write)
    ensures Perform(m, [x, y, z]) == m[x.addr := x.value][y.addr := y.value][z.addr := z.value]
  {
    var m1 := m[x.addr := x.value];
    assert [x, y, z][1..] == [y, z] && [y, z][1..] == [z];
    assert Perform(m, [x, y, z]) == Perform(m1, [y, z]);
    assert Perform(m1, [y, z]) == Perform(m1[y.addr := y.value], [z]);
    PerformOne(m1[y.addr := y.value], z);
  }

  lemma PerformOne(m: Memory, x: Write)
    ensures Perform(m, [x]) == m[x.addr := x.value]
  {
    assert [x][1..] == [];
  }

  /** Memory `m'` is `m` with level `i` of the side set to `l`. */
  ghost predicate LevelSet(m: Memory, m': Memory, side: Side, i: nat, l: Level) {
    && (forall f :: SeqLock.Read(m', Cell(side, i, f)) == FieldOf(l, f))
    && (forall side', i', f :: (side' != side || i' != i) ==> SeqLock.Read(m', Cell(side', i', f)) == SeqLock.Read(m, Cell(side', i', f)))
  }

  lemma SetLevel(m: Memory, side: Side, i: nat, l: Level)
    ensures var m' := Perform(m, [Write(Cell(side, i, Price), l.price), Write(Cell(side, i, Quantity), l.quantity), Write(Cell(side, i, Count), l.count)]);
            LevelSet(m, m', side, i, l) && SeqLock.Read(m', NUMBER) == SeqLock.Read(m, NUMBER)
  {
    PerformThree(m, Write(Cell(side, i, Price), l.price), Write(Cell(side, i, Quantity), l.quantity), Write(Cell(side, i, Count), l.count));
  }

  lemma HoldsSet(m: Memory, m': Memory, side: Side, levels: seq<Level>, i: nat, l: Level)
    requires HoldsSide(m, side, levels) && LevelSet(m, m', side, i, l) && i < |levels|
    ensures HoldsSide(m', side, levels[i := l])
  {
  }

  lemma HoldsOther(m: Memory, m': Memory, side: Side, i: nat, l: Level, other: Side, levels: seq<Level>)
    requires HoldsSide(m, other, levels) && LevelSet(m, m', side, i, l) && other != side
    ensures HoldsSide(m', other, levels)
  {
  }

  lemma NumberOnly(m: Memory, side: Side, levels: seq<Level>, v: int)
    requires HoldsSide(m, side, levels)
    ensures HoldsSide(m[NUMBER := v], side, levels)
  {
  }

  /** The level stores of one accepted update. */
  lemma UpdateLevelSet(m: Memory, side: Side, i: nat, l: Level)
    ensures var ws := [Write(Cell(side, i, Price), l.price), Write(Cell(side, i, Quantity), l.quantity), Write(Cell(side, i, Count), l.count)]
                      + (if l.quantity == 0 then [Write(Cell(side, i, Price), 0)] else []);
            LevelSet(m, Perform(m, ws), side, i, if l.quantity == 0 then l.(price := 0) else l)
  {
    var three := [Write(Cell(side, i, Price), l.price), Write(Cell(side, i, Quantity), l.quantity), Write(Cell(side, i, Count), l.count)];
    SetLevel(m, side, i, l);
    if l.quantity == 0 {
      PerformParts(m, three, [Write(Cell(side, i, Price), 0)]);
      PerformOne(Perform(m, three), Write(Cell(side, i, Price), 0));
    } else {
      assert three + [] == three;
    }
  }

  /** A book that differs in one level and the counter is held after those stores. */
  lemma OneLevelCarries(m: Memory, m1: Memory, b: Book, b': Book, side: Side, i: nat, stored: Level)
    requires Holds(m, b) && LevelSet(m, m1, side, i, stored) && i < |SideOf(b, side).levels|
    requires SideOf(b', side).levels == SideOf(b, side).levels[i := stored]
    requires forall other :: other != side ==> SideOf(b', other).levels == SideOf(b, other).levels
    ensures Holds(m1[NUMBER := b'.sequence], b')
  {
    var other := if side.Bid? then Ask else Bid;
    HoldsSet(m, m1, side, SideOf(b, side).levels, i, stored);
    HoldsOther(m, m1, side, i, stored, other, SideOf(b, other).levels);
    NumberOnly(m1, Bid, b'.bids.levels, b'.sequence);
    NumberOnly(m1, Ask, b'.asks.levels, b'.sequence);
  }

  /** One update, executed in its section, carries the held book on. */
  lemma UpdateCarries(m: Memory, b: Book, side: Side, l: Level)
    requires Holds(m, b) && |b.bids.levels| == |b.asks.levels| < SIZE_MAX
    ensures Holds(Perform(m, UpdateWrites(b, side, l)), Apply(b, Op.Update(side, l)))
  {
    var s := SideOf(b, side);
    if Accepts(s, l.price) {
      var i, n := Target(s, l.price), (b.sequence + 1) % WORD;
      var ws := [Write(Cell(side, i, Price), l.price), Write(Cell(side, i, Quantity), l.quantity), Write(Cell(side, i, Count), l.count)]
                + (if l.quantity == 0 then [Write(Cell(side, i, Price), 0)] else []);
      PerformParts(m, ws, [Write(NUMBER, n)]);
      PerformOne(Perform(m, ws), Write(NUMBER, n));
      UpdateLevelSet(m, side, i, l);
      OneLevelCarries(m, Perform(m, ws), b, Apply(b, Op.Update(side, l)), side, i, if l.quantity == 0 then l.(price := 0) else l);
    }
  }

  /** The first `n` levels of both sides are zero, the counter is as in `m`. */
  ghost predicate Zeroed(m: Memory, m': Memory, n: nat) {
    && (forall side, i, f :: 0 <= i < n ==> SeqLock.Read(m', Cell(side, i, f)) == 0)
    && SeqLock.Read(m', NUMBER) == SeqLock.Read(m, NUMBER)
  }

  lemma ZeroLevel(m: Memory, m0: Memory, n: nat)
    requires Zeroed(m0, m, n)
    ensures Zeroed(m0, Perform(m, [Write(Cell(Bid, n, Price), 0), Write(Cell(Bid, n, Quantity), 0), Write(Cell(Bid, n, Count), 0),
                                   Write(Cell(Ask, n, Price), 0), Write(Cell(Ask, n, Quantity), 0), Write(Cell(Ask, n, Count), 0)]), n + 1)
  {
    var x := [Write(Cell(Bid, n, Price), 0), Write(Cell(Bid, n, Quantity), 0), Write(Cell(Bid, n, Count), 0)];
    var y := [Write(Cell(Ask, n, Price), 0), Write(Cell(Ask, n, Quantity), 0), Write(Cell(Ask, n, Count), 0)];
    assert x + y == [Write(Cell(Bid, n, Price), 0), Write(Cell(Bid, n, Quantity), 0), Write(Cell(Bid, n, Count), 0),
                     Write(Cell(Ask, n, Price), 0), Write(Cell(Ask, n, Quantity), 0), Write(Cell(Ask, n, Count), 0)];
    PerformParts(m, x, y);
    SetLevel(m, Bid, n, NO_LEVEL);
    SetLevel(Perform(m, x), Ask, n, NO_LEVEL);
    assert forall f :: FieldOf(NO_LEVEL, f) == 0;
  }

  lemma {:induction false} ClearZeroes(m: Memory, n: nat)
    ensures Zeroed(m, Perform(m, ClearWrites(n)), n)
  {
    if n > 0 {
      ClearZeroes(m, n - 1);
      PerformParts(m, ClearWrites(n - 1),
                   [Write(Cell(Bid, n - 1, Price), 0), Write(Cell(Bid, n - 1, Quantity), 0), Write(Cell(Bid, n - 1, Count), 0),
                    Write(Cell(Ask, n - 1, Price), 0), Write(Cell(Ask, n - 1, Quantity), 0), Write(Cell(Ask, n - 1, Count), 0)]);
      ZeroLevel(Perform(m, ClearWrites(n - 1)), m, n - 1);
    }
  }

  /** One call, executed in its section, carries the held book on. */
  lemma SectionCarries(m: Memory, b: Book, op: Op)
    requires Holds(m, b) && |b.bids.levels| == |b.asks.levels| < SIZE_MAX
    ensures Holds(Perform(m, Writes(b, op)), Apply(b, op))
  {
    match op
    case Update(side, l) => UpdateCarries(m, b, side, l);
    case Clear => ClearZeroes(m, |b.bids.levels|);
  }

  // ------------------------------------------------------------- writers and snapshots together

  /** The sequence lock with one writing thread at a time.  `books` and `ops` are history: the books
      after each completed section, and the calls that made them. */
  datatype System = System(lock: SeqLock.State, books: seq<Book>, ops: seq<Op>, current: Option<Op>, todo: seq<Write>)

  datatype Action =
    | Begin(op: Op)        // a writer takes the lock
    | StoreNext            // and makes its next store
    | End                  // and gives the lock back
    | Load(reader: nat)    // a step of a snapshot

  /** Reader `i` takes snapshots of depth `depths(i)`. */
  function Readers(n: nat, depths: nat -> nat): SeqLock.Programs {
    (i: nat) => GetSnapshot(n, depths(i))
  }

  function Start(n: nat, readers: nat): System {
    System(SeqLock.Init(map[], readers), [EmptyBook(n)], [], None, [])
  }

  ghost predicate WellFormed(s: System, n: nat) {
    |s.lock.hist.books| > 0 && |s.books| > 0 && n < SIZE_MAX && forall k :: 0 <= k < |s.books| ==> Sized(s.books[k], n)
  }

  function LastBook(s: System): Book
    requires |s.books| > 0
  {
    s.books[|s.books| - 1]
  }

  function Act(s: System, n: nat, depths: nat -> nat, a: Action): System
    requires |s.lock.hist.books| > 0 && |s.books| > 0
    requires |LastBook(s).bids.levels| < SIZE_MAX && |LastBook(s).asks.levels| < SIZE_MAX
  {
    var progs := Readers(n, depths);
    match a
    case Begin(op) =>
      if s.current.Some? then s
      else s.(lock := SeqLock.Step(s.lock, progs, SeqLock.WriteLock), current := Some(op), todo := Writes(LastBook(s), op))
    case StoreNext =>
      if s.current.None? || s.todo == [] then s
      else s.(lock := SeqLock.Step(s.lock, progs, SeqLock.Store(s.todo[0].addr, s.todo[0].value)), todo := s.todo[1..])
    case End =>
      if s.current.None? || s.todo != [] then s
      else s.(lock := SeqLock.Step(s.lock, progs, SeqLock.WriteUnlock), current := None,
              books := s.books + [Apply(LastBook(s), s.current.value)], ops := s.ops + [s.current.value])
    case Load(i) => s.(lock := SeqLock.Step(s.lock, progs, SeqLock.ReadStep(i)))
  }

  /** Every completed memory holds its book, and a section under way will hold the next one. */
  ghost predicate SystemInv(s: System, n: nat, depths: nat -> nat) {
    && WellFormed(s, n) && SeqLock.Inv(s.lock, Readers(n, depths)) && SeqLock.Paired(s.lock)
    && |s.books| == |s.lock.hist.books| && (forall k :: 0 <= k < |s.books| ==> Holds(s.lock.hist.books[k], s.books[k]))
    && IsRun(s.books, s.ops, n)
    && s.lock.writers == (if s.current.Some? then 1 else 0)
    && (s.current.Some? ==> Holds(Perform(s.lock.memory, s.todo), Apply(LastBook(s), s.current.value)))
  }

  lemma StartInv(n: nat, readers: nat, depths: nat -> nat)
    requires n < SIZE_MAX
    ensures SystemInv(Start(n, readers), n, depths)
  {
    assert forall f :: FieldOf(NO_LEVEL, f) == 0;
  }

  lemma BeginKeeps(s: System, n: nat, depths: nat -> nat, op: Op)
    requires SystemInv(s, n, depths) && s.current.None?
    ensures SystemInv(Act(s, n, depths, Begin(op)), n, depths)
  {
    SeqLock.StepInv(s.lock, Readers(n, depths), SeqLock.WriteLock);
    SeqLock.StepPaired(s.lock, Readers(n, depths), SeqLock.WriteLock);
    SectionCarries(s.lock.memory, LastBook(s), op);
  }

  lemma StoreKeeps(s: System, n: nat, depths: nat -> nat)
    requires SystemInv(s, n, depths) && s.current.Some? && s.todo != []
    ensures SystemInv(Act(s, n, depths, StoreNext), n, depths)
  {
    var e := SeqLock.Store(s.todo[0].addr, s.todo[0].value);
    SeqLock.StepInv(s.lock, Readers(n, depths), e);
    SeqLock.StepPaired(s.lock, Readers(n, depths), e);
  }

  lemma EndKeeps(s: System, n: nat, depths: nat -> nat)
    requires SystemInv(s, n, depths) && s.current.Some? && s.todo == []
    ensures SystemInv(Act(s, n, depths, End), n, depths)
  {
    SeqLock.StepInv(s.lock, Readers(n, depths), SeqLock.WriteUnlock);
    SeqLock.StepPaired(s.lock, Readers(n, depths), SeqLock.WriteUnlock);
    RunGrows(s.books, s.ops, n, s.current.value);
  }

  lemma LoadKeeps(s: System, n: nat, depths: nat -> nat, i: nat)
    requires SystemInv(s, n, depths)
    ensures SystemInv(Act(s, n, depths, Load(i)), n, depths)
  {
    SeqLock.StepInv(s.lock, Readers(n, depths), SeqLock.ReadStep(i));
    SeqLock.StepPaired(s.lock, Readers(n, depths), SeqLock.ReadStep(i));
  }

  lemma ActKeeps(s: System, n: nat, depths: nat -> nat, a: Action)
    requires SystemInv(s, n, depths)
    ensures SystemInv(Act(s, n, depths, a), n, depths)
  {
    match a
    case Begin(op) => if s.current.None? { BeginKeeps(s, n, depths, op); }
    case StoreNext => if s.current.Some? && s.todo != [] { StoreKeeps(s, n, depths); }
    case End => if s.current.Some? && s.todo == [] { EndKeeps(s, n, depths); }
    case Load(i) => LoadKeeps(s, n, depths, i);
  }

  /** An interleaving of serial writers and `readers` snapshot takers. */
  ghost predicate IsSystemRun(run: seq<System>, actions: seq<Action>, n: nat, depths: nat -> nat, readers: nat) {
    && |run| == |actions| + 1 && run[0] == Start(n, readers) && n < SIZE_MAX
    && (forall i :: 0 <= i < |run| ==> WellFormed(run[i], n))
    && (forall i {:trigger IsSystemStep(run, actions, n, depths, i)} :: 0 <= i < |actions| ==> IsSystemStep(run, actions, n, depths, i))
  }

  /** Action `i` leads from state `i` to the next one. */
  ghost predicate IsSystemStep(run: seq<System>, actions: seq<Action>, n: nat, depths: nat -> nat, i: int) {
    0 <= i < |actions| && |run| == |actions| + 1 && WellFormed(run[i], n) && run[i + 1] == Act(run[i], n, depths, actions[i])
  }

  lemma {:induction false} SystemRunInv(run: seq<System>, actions: seq<Action>, n: nat, depths: nat -> nat, readers: nat, k: nat)
    requires IsSystemRun(run, actions, n, depths, readers) && k < |run|
    ensures SystemInv(run[k], n, depths)
  {
    if k == 0 {
      StartInv(n, readers, depths);
    } else {
      SystemRunInv(run, actions, n, depths, readers, k - 1);
      assert IsSystemStep(run, actions, n, depths, k - 1);
      ActKeeps(run[k - 1], n, depths, actions[k - 1]);
    }
  }

  /** A reader's loads show the book after seq/2 completed sections: both sorted listings to depth
      `d` and the update counter. */
  ghost predicate ShowsBook(s: System, n: nat, d: nat, r: SeqLock.Reader) {
    && r.Validated? && r.start.begun == 2 * r.start.book && r.start.book < |s.books| && IsRun(s.books, s.ops, n)
    && IsSnapshot(Bid, s.books[r.start.book].bids.levels, d, BidRows(r.loads, n, d))
    && IsSnapshot(Ask, s.books[r.start.book].asks.levels, d, AskRows(r.loads, n, d))
    && Number(r.loads) == s.books[r.start.book].sequence
  }

  lemma ReaderShows(s: System, n: nat, depths: nat -> nat, i: nat)
    requires SystemInv(s, n, depths) && i < |s.lock.readers|
    requires var r := s.lock.readers[i]; r.Validated? && r.ended < r.start.begun + WORD
    ensures ShowsBook(s, n, depths(i), s.lock.readers[i])
  {
    var r := s.lock.readers[i];
    assert SeqLock.ReaderOk(s.lock, Readers(n, depths)(i), r);
    SnapshotOfBook(s.lock.hist.books[r.start.book], s.books[r.start.book], n, depths(i), r.loads);
  }

  /** In every interleaving of serial updates and any number of snapshots, a snapshot that leaves
      its retry loop (within 2^64 increments) shows the book after seq/2 completed write sections. */
  lemma SnapshotShowsBook(run: seq<System>, actions: seq<Action>, n: nat, depths: nat -> nat, readers: nat, k: nat, i: nat)
    requires IsSystemRun(run, actions, n, depths, readers) && k < |run| && i < |run[k].lock.readers|
    requires var r := run[k].lock.readers[i]; r.Validated? && r.ended < r.start.begun + WORD
    ensures ShowsBook(run[k], n, depths(i), run[k].lock.readers[i])
  {
    SystemRunInv(run, actions, n, depths, readers, k);
    ReaderShows(run[k], n, depths, i);
  }

  /** Every update of this side was faithful when it happened. */
  ghost predicate AllFaithful(books: seq<Book>, ops: seq<Op>, side: Side) {
    |books| == |ops| + 1 && forall j :: 0 <= j < |ops| ==> FaithfulOp(side, SideOf(books[j], side), ops[j])
  }

  /** Both listings show the top of the reference book after the first `made` calls. */
  ghost predicate ShowsReference(ops: seq<Op>, n: nat, made: nat, d: nat, bids: seq<Row>, asks: seq<Row>) {
    && made <= |ops|
    && TopOf(Bid, RefRun(ops[..made], Bid, n), d, bids) && TopOf(Ask, RefRun(ops[..made], Ask, n), d, asks)
  }

  lemma FaithfulSnapshots(books: seq<Book>, ops: seq<Op>, n: nat, made: nat, d: nat, bids: seq<Row>, asks: seq<Row>)
    requires IsRun(books, ops, n) && n <= PriceIndex.TABLE_SIZE && AllFaithful(books, ops, Bid) && AllFaithful(books, ops, Ask) && made < |books|
    requires IsSnapshot(Bid, books[made].bids.levels, d, bids) && IsSnapshot(Ask, books[made].asks.levels, d, asks)
    ensures ShowsReference(ops, n, made, d, bids, asks)
  {
    RunSnapshot(books, ops, n, Bid, made, d, bids);
    RunSnapshot(books, ops, n, Ask, made, d, asks);
  }

  lemma BookShowsReference(s: System, n: nat, d: nat, r: SeqLock.Reader)
    requires ShowsBook(s, n, d, r) && n <= PriceIndex.TABLE_SIZE && AllFaithful(s.books, s.ops, Bid) && AllFaithful(s.books, s.ops, Ask)
    ensures ShowsReference(s.ops, n, r.start.book, d, BidRows(r.loads, n, d), AskRows(r.loads, n, d))
  {
    FaithfulSnapshots(s.books, s.ops, n, r.start.book, d, BidRows(r.loads, n, d), AskRows(r.loads, n, d));
  }

  /** With faithful updates a validated snapshot shows the top of the reference map: the best quotes in
      strict price order, as many as asked for and present. */
  lemma {:induction false} SnapshotShowsReference(run: seq<System>, actions: seq<Action>, n: nat, depths: nat -> nat, readers: nat, k: nat, i: nat)
    requires IsSystemRun(run, actions, n, depths, readers) && k < |run| && i < |run[k].lock.readers|
    requires var r := run[k].lock.readers[i]; r.Validated? && r.ended < r.start.begun + WORD
    requires n <= PriceIndex.TABLE_SIZE && AllFaithful(run[k].books, run[k].ops, Bid) && AllFaithful(run[k].books, run[k].ops, Ask)
    ensures var s := run[k]; var r := s.lock.readers[i];
            && r.start.begun == 2 * r.start.book
            && ShowsReference(s.ops, n, r.start.book, depths(i), BidRows(r.loads, n, depths(i)), AskRows(r.loads, n, depths(i)))
  {
    SnapshotShowsBook(run, actions, n, depths, readers, k, i);
    BookShowsReference(run[k], n, depths(i), run[k].lock.readers[i]);
  }

  // ------------------------------------------------------- updates and snapshots come to an end

  lemma ActWellFormed(run: seq<System>, actions: seq<Action>, n: nat, depths: nat -> nat, readers: nat, a: Action)
    requires IsSystemRun(run, actions, n, depths, readers)
    ensures WellFormed(run[|run| - 1], n) && WellFormed(Act(run[|run| - 1], n, depths, a), n)
  {
    SystemRunInv(run, actions, n, depths, readers, |run| - 1);
    ActKeeps(run[|run| - 1], n, depths, a);
  }

  lemma GoOn(run: seq<System>, actions: seq<Action>, n: nat, depths: nat -> nat, readers: nat, a: Action)
    returns (run': seq<System>, actions': seq<Action>)
    requires IsSystemRun(run, actions, n, depths, readers)
    ensures IsSystemRun(run', actions', n, depths, readers) && actions' == actions + [a]
    ensures run' == run + [Act(run[|run| - 1], n, depths, a)]
  {
    ActWellFormed(run, actions, n, depths, readers, a);
    run', actions' := run + [Act(run[|run| - 1], n, depths, a)], actions + [a];
    forall k | 0 <= k < |actions'| ensures IsSystemStep(run', actions', n, depths, k) {
      assert k < |actions| ==> IsSystemStep(run, actions, n, depths, k);
    }
  }

  function Stores(k: nat): seq<Action> {
    if k == 0 then [] else [StoreNext] + Stores(k - 1)
  }

  /** The section under way has made its stores, and nothing else has happened. */
  ghost predicate StoresMade(s: System, s': System) {
    && s'.current == s.current && s'.todo == [] && s'.books == s.books && s'.ops == s.ops
    && s'.lock == s.lock.(memory := s'.lock.memory)
  }

  lemma {:induction false} StoresFinish(run: seq<System>, actions: seq<Action>, n: nat, depths: nat -> nat, readers: nat)
    returns (run': seq<System>, actions': seq<Action>)
    requires IsSystemRun(run, actions, n, depths, readers) && run[|run| - 1].current.Some?
    ensures IsSystemRun(run', actions', n, depths, readers) && actions' == actions + Stores(|run[|run| - 1].todo|)
    ensures StoresMade(run[|run| - 1], run'[|run'| - 1])
    decreases |run[|run| - 1].todo|
  {
    if run[|run| - 1].todo == [] {
      run', actions' := run, actions;
    } else {
      var run1, actions1 := GoOn(run, actions, n, depths, readers, StoreNext);
      run', actions' := StoresFinish(run1, actions1, n, depths, readers);
    }
  }

  /** One update has been made: a book and its call more, and two steps of the sequence. */
  ghost predicate Updated(s: System, s': System, op: Op)
    requires |s.books| > 0 && |LastBook(s).bids.levels| < SIZE_MAX && |LastBook(s).asks.levels| < SIZE_MAX
  {
    && s'.books == s.books + [Apply(LastBook(s), op)] && s'.ops == s.ops + [op] && s'.current.None?
    && s'.lock.readers == s.lock.readers && s'.lock.sequence == ((s.lock.sequence + 1) % WORD + 1) % WORD
  }

  lemma BeginDoes(s: System, s': System, n: nat, depths: nat -> nat, op: Op)
    requires WellFormed(s, n) && s.current.None? && s' == Act(s, n, depths, Action.Begin(op))
    ensures s'.current == Some(op) && s'.todo == Writes(LastBook(s), op) && s'.books == s.books && s'.ops == s.ops
    ensures s'.lock.sequence == (s.lock.sequence + 1) % WORD && s'.lock.readers == s.lock.readers
  {
  }

  lemma EndDoes(s: System, s': System, n: nat, depths: nat -> nat, op: Op)
    requires WellFormed(s, n) && s.current == Some(op) && s.todo == [] && s.lock.writers > 0 && s' == Act(s, n, depths, End)
    ensures s'.current.None? && s'.books == s.books + [Apply(LastBook(s), op)] && s'.ops == s.ops + [op]
    ensures s'.lock.sequence == (s.lock.sequence + 1) % WORD && s'.lock.readers == s.lock.readers
  {
  }

  lemma WriterInside(run: seq<System>, actions: seq<Action>, n: nat, depths: nat -> nat, readers: nat)
    requires IsSystemRun(run, actions, n, depths, readers) && run[|run| - 1].current.Some?
    ensures run[|run| - 1].lock.writers > 0
  {
    SystemRunInv(run, actions, n, depths, readers, |run| - 1);
  }

  lemma BeginOn(run: seq<System>, actions: seq<Action>, n: nat, depths: nat -> nat, readers: nat, op: Op)
    returns (run': seq<System>, actions': seq<Action>)
    requires IsSystemRun(run, actions, n, depths, readers) && run[|run| - 1].current.None?
    ensures IsSystemRun(run', actions', n, depths, readers) && actions' == actions + [Action.Begin(op)]
    ensures WellFormed(run[|run| - 1], n) && SectionBegun(run[|run| - 1], run'[|run'| - 1], op)
  {
    run', actions' := GoOn(run, actions, n, depths, readers, Action.Begin(op));
    BeginDoes(run[|run| - 1], run'[|run'| - 1], n, depths, op);
  }

  ghost predicate SectionBegun(s: System, s': System, op: Op)
    requires |s.books| > 0 && |LastBook(s).bids.levels| < SIZE_MAX && |LastBook(s).asks.levels| < SIZE_MAX
  {
    && s'.current == Some(op) && s'.todo == Writes(LastBook(s), op) && s'.books == s.books && s'.ops == s.ops
    && s'.lock.sequence == (s.lock.sequence + 1) % WORD && s'.lock.readers == s.lock.readers
  }

  ghost predicate SectionEnded(s: System, s': System, op: Op)
    requires |s.books| > 0 && |LastBook(s).bids.levels| < SIZE_MAX && |LastBook(s).asks.levels| < SIZE_MAX
  {
    && s'.current.None? && s'.books == s.books + [Apply(LastBook(s), op)] && s'.ops == s.ops + [op]
    && s'.lock.sequence == (s.lock.sequence + 1) % WORD && s'.lock.readers == s.lock.readers
  }

  lemma EndOn(run: seq<System>, actions: seq<Action>, n: nat, depths: nat -> nat, readers: nat, op: Op)
    returns (run': seq<System>, actions': seq<Action>)
    requires IsSystemRun(run, actions, n, depths, readers) && run[|run| - 1].current == Some(op) && run[|run| - 1].todo == []
    ensures IsSystemRun(run', actions', n, depths, readers) && actions' == actions + [End]
    ensures WellFormed(run[|run| - 1], n) && SectionEnded(run[|run| - 1], run'[|run'| - 1], op)
  {
    WriterInside(run, actions, n, depths, readers);
    run', actions' := GoOn(run, actions, n, depths, readers, End);
    EndDoes(run[|run| - 1], run'[|run'| - 1], n, depths, op);
  }

  lemma SectionDone(s: System, s1: System, s2: System, s': System, op: Op)
    requires |s.books| > 0 && |LastBook(s).bids.levels| < SIZE_MAX && |LastBook(s).asks.levels| < SIZE_MAX
    requires SectionBegun(s, s1, op) && StoresMade(s1, s2) && SectionEnded(s2, s', op)
    ensures Updated(s, s', op)
  {
  }

  /** A call that takes the lock while nobody has it completes with its own stores and its unlock. */
  lemma UpdateFinishes(run: seq<System>, actions: seq<Action>, n: nat, depths: nat -> nat, readers: nat, op: Op)
    returns (run': seq<System>, actions': seq<Action>)
    requires IsSystemRun(run, actions, n, depths, readers) && run[|run| - 1].current.None?
    ensures IsSystemRun(run', actions', n, depths, readers)
    ensures WellFormed(run[|run| - 1], n) && Updated(run[|run| - 1], run'[|run'| - 1], op)
    ensures actions' == actions + [Action.Begin(op)] + Stores(|Writes(LastBook(run[|run| - 1]), op)|) + [End]
  {
    var run1, actions1 := BeginOn(run, actions, n, depths, readers, op);
    var run2, actions2 := StoresFinish(run1, actions1, n, depths, readers);
    run', actions' := EndOn(run2, actions2, n, depths, readers, op);
    SectionDone(run[|run| - 1], run1[|run1| - 1], run2[|run2| - 1], run'[|run'| - 1], op);
  }

  /** Reader `i` has gone on, and nothing else has happened. */
  ghost predicate OnlyLoads(s: System, s': System, i: nat) {
    && i < |s.lock.readers| == |s'.lock.readers|
    && s' == s.(lock := s.lock.(readers := s'.lock.readers))
    && s'.lock.readers == s.lock.readers[i := s'.lock.readers[i]]
  }

  lemma LoadDoes(s: System, s': System, n: nat, depths: nat -> nat, i: nat)
    requires WellFormed(s, n) && i < |s.lock.readers| && s' == Act(s, n, depths, Load(i))
    ensures OnlyLoads(s, s', i) && s'.lock.readers[i] == SeqLock.ReaderStep(s.lock, GetSnapshot(n, depths(i)), s.lock.readers[i])
  {
  }

  lemma LoadOn(run: seq<System>, actions: seq<Action>, n: nat, depths: nat -> nat, readers: nat, i: nat)
    returns (run': seq<System>, actions': seq<Action>)
    requires IsSystemRun(run, actions, n, depths, readers) && i < |run[|run| - 1].lock.readers|
    ensures IsSystemRun(run', actions', n, depths, readers) && actions' == actions + [Load(i)]
    ensures WellFormed(run[|run| - 1], n) && OnlyLoads(run[|run| - 1], run'[|run'| - 1], i)
    ensures run'[|run'| - 1].lock.readers[i]
         == SeqLock.ReaderStep(run[|run| - 1].lock, GetSnapshot(n, depths(i)), run[|run| - 1].lock.readers[i])
  {
    run', actions' := GoOn(run, actions, n, depths, readers, Load(i));
    LoadDoes(run[|run| - 1], run'[|run'| - 1], n, depths, i);
  }

  /** The snapshot is past its load of an even sequence, which has not moved. */
  ghost predicate Undisturbed(s: System, i: nat) {
    i < |s.lock.readers| && s.lock.readers[i].Reading? && s.lock.readers[i].start.sequence == s.lock.sequence
  }

  /** It has been validated, or has loaded one more of at most `limit` words. */
  ghost predicate Nearer(s: System, s': System, i: nat, limit: nat) {
    && Undisturbed(s, i) && OnlyLoads(s, s', i)
    && var r, r' := s.lock.readers[i], s'.lock.readers[i];
       && (r'.Validated? || (r'.Reading? && |r.loads| < |r'.loads| <= limit)) && r'.start == r.start
       && (r'.Validated? ==> r'.ended == s.lock.hist.increments)
  }

  lemma NearerStep(s: System, s': System, n: nat, d: nat, i: nat, limit: nat)
    requires |s.lock.hist.books| > 0 && Undisturbed(s, i) && OnlyLoads(s, s', i) && SeqLock.Stops(GetSnapshot(n, d), limit)
    requires s'.lock.readers[i] == SeqLock.ReaderStep(s.lock, GetSnapshot(n, d), s.lock.readers[i])
    ensures Nearer(s, s', i, limit)
  {
  }

  lemma NearerOn(run: seq<System>, actions: seq<Action>, n: nat, depths: nat -> nat, readers: nat, i: nat)
    returns (run': seq<System>, actions': seq<Action>)
    requires IsSystemRun(run, actions, n, depths, readers) && Undisturbed(run[|run| - 1], i)
    ensures IsSystemRun(run', actions', n, depths, readers) && actions' == actions + [Load(i)]
    ensures Nearer(run[|run| - 1], run'[|run'| - 1], i, 8 * n + 1)
  {
    run', actions' := LoadOn(run, actions, n, depths, readers, i);
    SnapshotStops(n, depths(i));
    NearerStep(run[|run| - 1], run'[|run'| - 1], n, depths(i), i, 8 * n + 1);
  }

  lemma {:induction false} LoadsFinish(run: seq<System>, actions: seq<Action>, n: nat, depths: nat -> nat, readers: nat, i: nat)
    returns (run': seq<System>, actions': seq<Action>)
    requires IsSystemRun(run, actions, n, depths, readers) && Undisturbed(run[|run| - 1], i)
    ensures IsSystemRun(run', actions', n, depths, readers) && actions <= actions' && OnlyLoads(run[|run| - 1], run'[|run'| - 1], i)
    ensures forall x :: |actions| <= x < |actions'| ==> actions'[x] == Load(i)
    ensures var r, r' := run[|run| - 1].lock.readers[i], run'[|run'| - 1].lock.readers[i];
            r'.Validated? && r'.start == r.start && r'.ended == run[|run| - 1].lock.hist.increments
    decreases var l := |run[|run| - 1].lock.readers[i].loads|; if l <= 8 * n + 1 then 8 * n + 1 - l else 0
  {
    var run1, actions1 := NearerOn(run, actions, n, depths, readers, i);
    if run1[|run1| - 1].lock.readers[i].Validated? {
      run', actions' := run1, actions1;
    } else {
      run', actions' := LoadsFinish(run1, actions1, n, depths, readers, i);
    }
  }

  lemma ReadOn(run: seq<System>, actions: seq<Action>, n: nat, depths: nat -> nat, readers: nat, i: nat)
    returns (run': seq<System>, actions': seq<Action>)
    requires IsSystemRun(run, actions, n, depths, readers) && run[|run| - 1].current.None?
    requires i < |run[|run| - 1].lock.readers| && run[|run| - 1].lock.readers[i].Spinning?
    ensures IsSystemRun(run', actions', n, depths, readers) && actions' == actions + [Load(i)]
    ensures OnlyLoads(run[|run| - 1], run'[|run'| - 1], i) && Undisturbed(run'[|run'| - 1], i)
    ensures var s, r := run[|run| - 1], run'[|run'| - 1].lock.readers[i];
            r.start.begun == s.lock.hist.increments && r.start.book == |s.books| - 1
  {
    QuietIsEven(run, actions, n, depths, readers);
    run', actions' := LoadOn(run, actions, n, depths, readers, i);
  }

  /** A snapshot that begins while nobody writes, and that nobody disturbs, is validated by its own loads
      and shows the current book. */
  lemma SnapshotFinishes(run: seq<System>, actions: seq<Action>, n: nat, depths: nat -> nat, readers: nat, i: nat)
    returns (run': seq<System>, actions': seq<Action>)
    requires IsSystemRun(run, actions, n, depths, readers) && run[|run| - 1].current.None?
    requires i < |run[|run| - 1].lock.readers| && run[|run| - 1].lock.readers[i].Spinning?
    ensures IsSystemRun(run', actions', n, depths, readers) && OnlyLoads(run[|run| - 1], run'[|run'| - 1], i)
    ensures actions <= actions' && forall x :: |actions| <= x < |actions'| ==> actions'[x] == Load(i)
    ensures var s := run'[|run'| - 1]; ShowsBook(s, n, depths(i), s.lock.readers[i]) && s.lock.readers[i].start.book == |s.books| - 1
  {
    var run1, actions1 := ReadOn(run, actions, n, depths, readers, i);
    run', actions' := LoadsFinish(run1, actions1, n, depths, readers, i);
    SnapshotShowsBook(run', actions', n, depths, readers, |run'| - 1, i);
  }

  lemma QuietIsEven(run: seq<System>, actions: seq<Action>, n: nat, depths: nat -> nat, readers: nat)
    requires IsSystemRun(run, actions, n, depths, readers) && run[|run| - 1].current.None?
    ensures var s := run[|run| - 1]; s.lock.sequence % 2 == 0 && |s.lock.hist.books| == |s.books| > 0
  {
    SystemRunInv(run, actions, n, depths, readers, |run| - 1);
  }

  // ------------------------------------------------------- snapshots are programs that can tear

  lemma {:induction false} PicksCount(prices: seq<int>)
    ensures |Picks(prices)| <= |prices|
  {
    if prices != [] { PicksCount(prices[..|prices| - 1]); }
  }

  lemma {:induction false} EmitCount(side: Side, picks: seq<Pick>)
    ensures |Emit(side, picks)| == 3 * |picks|
  {
    if picks != [] { EmitCount(side, picks[1..]); }
  }

  lemma SideAddrsCount(m: Memory, side: Side, n: nat, d: nat)
    ensures n <= |SideAddrs(m, side, n, d)| <= 4 * n
  {
    var prices := PricesIn(m, side, n);
    PicksCount(prices);
    SortPermutes(BetterPick(side), Picks(prices));
    EmitCount(side, Chosen(side, prices, d));
  }

  /** With two levels or more, `get_snapshot` is a program that reads two words whatever it finds, and
      stops. */
  lemma SnapshotReadsTwo(n: nat, d: nat)
    requires n >= 2
    ensures SeqLock.ReadsTwo(GetSnapshot(n, d), Cell(Bid, 0, Price), Cell(Bid, 1, Price), 8 * n + 1)
  {
    var prog := GetSnapshot(n, d);
    FirstAddrs([], n, d);
    forall v ensures prog([SeqLock.Load(Cell(Bid, 0, Price), v)]) == Some(Cell(Bid, 1, Price)) {
      FirstAddrs([SeqLock.Load(Cell(Bid, 0, Price), v)], n, d);
    }
    SnapshotStops(n, d);
  }

  lemma FirstAddrs(loads: seq<SeqLock.Load>, n: nat, d: nat)
    requires |loads| < n
    ensures GetSnapshot(n, d)(loads) == Some(Cell(Bid, |loads|, Price))
  {
    BidScanFirst(Seen(loads), n, d);
    assert Addrs(Seen(loads), n, d)[0 + |loads|] == Cell(Bid, |loads|, Price);
    SideAddrsCount(Seen(loads), Bid, n, d);
  }

  // ------------------------------------------------- two overlapping updates and a torn snapshot

  /** Every reader takes snapshots of depth `d`. */
  function OneDepth(n: nat, d: nat): SeqLock.Programs {
    (i: nat) => GetSnapshot(n, d)
  }

  function StoreEvents(ws: seq<Write>): seq<SeqLock.Event> {
    if ws == [] then [] else [SeqLock.Store(ws[0].addr, ws[0].value)] + StoreEvents(ws[1..])
  }

  /** A writer inside makes these stores. */
  lemma {:induction false} StoreAll(run: seq<SeqLock.State>, events: seq<SeqLock.Event>, progs: SeqLock.Programs, m: Memory, n: nat, ws: seq<Write>)
    returns (run': seq<SeqLock.State>, events': seq<SeqLock.Event>)
    requires SeqLock.IsRun(run, events, progs, m, n) && SeqLock.Last(run).writers > 0
    ensures SeqLock.IsRun(run', events', progs, m, n) && events' == events + StoreEvents(ws)
    ensures SeqLock.Last(run') == SeqLock.Last(run).(memory := Perform(SeqLock.Last(run).memory, ws))
    decreases |ws|
  {
    if ws == [] {
      run', events' := run, events;
    } else {
      run', events' := SeqLock.Extend(run, events, progs, m, n, SeqLock.Store(ws[0].addr, ws[0].value));
      run', events' := StoreAll(run', events', progs, m, n, ws[1..]);
    }
  }

  /** Only level 0 is taken. */
  ghost predicate OnlyFirst(levels: seq<Level>) {
    |levels| > 0 && levels[0].price != 0 && forall i :: 0 < i < |levels| ==> levels[i].price == 0
  }

  lemma {:induction false} OneRow(levels: seq<Level>)
    requires OnlyFirst(levels)
    ensures Rows(levels) == [RowOf(levels[0])]
  {
    if |levels| == 1 {
      assert levels[..0] == [];
    } else {
      OneRow(levels[..|levels| - 1]);
    }
  }

  lemma {:induction false} NoRows(n: nat)
    ensures Rows(EmptySide(n).levels) == []
  {
    if n > 0 {
      NoRows(n - 1);
      assert EmptySide(n).levels[..n - 1] == EmptySide(n - 1).levels;
    }
  }

  lemma SingleSnapshot(side: Side, levels: seq<Level>, d: nat, rows: seq<Row>)
    requires OnlyFirst(levels) && d >= 1 && IsSnapshot(side, levels, d, rows)
    ensures rows == [RowOf(levels[0])]
  {
    OneRow(levels);
    var full :| FullSnapshot(side, levels, full) && rows == full[..Min(d, |full|)];
    SameMembers(side, levels, full, RowOf(levels[0]));
    assert |full| == 1 && full[0] == RowOf(levels[0]);
  }

  lemma EmptySnapshot(side: Side, n: nat, d: nat, rows: seq<Row>)
    requires IsSnapshot(side, EmptySide(n).levels, d, rows)
    ensures rows == []
  {
    NoRows(n);
    var full :| FullSnapshot(side, EmptySide(n).levels, full) && rows == full[..Min(d, |full|)];
    SameMembers(side, EmptySide(n).levels, full, Row(0, 0, 0));
  }

  /** The first bid of an empty book: what it stores, and the book it makes. */
  lemma FirstBid(n: nat, l: Level)
    requires 1 <= n <= PriceIndex.TABLE_SIZE && l.price != 0 && l.quantity != 0
    ensures var b, op := EmptyBook(n), Op.Update(Bid, l);
            && |Writes(b, op)| > 0 && Writes(b, op)[0] == Write(Cell(Bid, 0, Price), l.price)
            && Apply(b, op).bids.levels == b.bids.levels[0 := l] && Sized(Apply(b, op), n)
  {
    var s := EmptySide(n);
    EmptyMirrors(Bid, n);
    EmptyQuotes(n);
    if PriceIndex.Present(s.table, l.price) { PresentIsQuoted(s.levels, s.table, l.price); }
    NewPrice(Bid, s, l);
  }

  /** A book whose first bid has got its price and nothing else. */
  function HalfBook(n: nat, p: nat): Book
    requires n > 0
  {
    var b := EmptyBook(n);
    b.(bids := b.bids.(levels := b.bids.levels[0 := Level(p, 0, 0, 0)]))
  }

  lemma HalfHeld(n: nat, p: nat)
    requires n > 0
    ensures Holds(map[Cell(Bid, 0, Price) := p], HalfBook(n, p)) && Sized(HalfBook(n, p), n)
  {
    assert forall f :: FieldOf(NO_LEVEL, f) == 0;
  }

  lemma SnapshotStops(n: nat, d: nat)
    ensures SeqLock.Stops(GetSnapshot(n, d), 8 * n + 1)
  {
    forall loads: seq<SeqLock.Load> | |loads| >= 8 * n + 1 ensures GetSnapshot(n, d)(loads).None? {
      SideAddrsCount(Seen(loads), Bid, n, d);
      SideAddrsCount(Seen(loads), Ask, n, d);
    }
  }

  lemma HalfListed(n: nat, d: nat, p: nat, rows: seq<Row>)
    requires n > 0 && d > 0 && p != 0 && IsSnapshot(Bid, HalfBook(n, p).bids.levels, d, rows)
    ensures rows == [Row(p, 0, 0)]
  {
    SingleSnapshot(Bid, HalfBook(n, p).bids.levels, d, rows);
  }

  /** The listing shows the half-made level, and no other. */
  lemma HalfShown(n: nat, d: nat, p: nat, m: Memory, loads: seq<SeqLock.Load>)
    requires n > 0 && d > 0 && p != 0 && m == map[Cell(Bid, 0, Price) := p]
    requires SeqLock.Follows(GetSnapshot(n, d), loads) && GetSnapshot(n, d)(loads).None? && SeqLock.ReadsFrom(m, loads)
    ensures BidRows(loads, n, d) == [Row(p, 0, 0)]
  {
    HalfHeld(n, p);
    SnapshotOfBook(m, HalfBook(n, p), n, d, loads);
    HalfListed(n, d, p, BidRows(loads, n, d));
  }

  lemma InNoBook(n: nat, d: nat, l: Level, b: Book)
    requires n > 0 && d > 0 && l.price != 0 && l.quantity != 0
    requires b.bids.levels == EmptySide(n).levels || b.bids.levels == EmptySide(n).levels[0 := l]
    ensures !IsSnapshot(Bid, b.bids.levels, d, [Row(l.price, 0, 0)])
  {
    if IsSnapshot(Bid, b.bids.levels, d, [Row(l.price, 0, 0)]) {
      if b.bids.levels == EmptySide(n).levels {
        EmptySnapshot(Bid, n, d, [Row(l.price, 0, 0)]);
      } else {
        SingleSnapshot(Bid, b.bids.levels, d, [Row(l.price, 0, 0)]);
      }
    }
  }

  /** Both writers make their remaining stores and give the lock back. */
  lemma BothFinish(run: seq<SeqLock.State>, events: seq<SeqLock.Event>, progs: SeqLock.Programs, a: seq<Write>, b: seq<Write>)
    returns (run': seq<SeqLock.State>, events': seq<SeqLock.Event>)
    requires SeqLock.IsRun(run, events, progs, map[], 1) && SeqLock.Last(run).writers == 2
    ensures SeqLock.IsRun(run', events', progs, map[], 1)
    ensures events' == events + StoreEvents(a) + StoreEvents(b) + [SeqLock.WriteUnlock, SeqLock.WriteUnlock]
    ensures var s, s' := SeqLock.Last(run), SeqLock.Last(run');
            s'.readers == s.readers && s'.writers == 0 && s'.hist.books == s.hist.books + [Perform(Perform(s.memory, a), b)]
  {
    run', events' := StoreAll(run, events, progs, map[], 1, a);
    run', events' := StoreAll(run', events', progs, map[], 1, b);
    run', events' := SeqLock.Extend(run', events', progs, map[], 1, SeqLock.WriteUnlock);
    run', events' := SeqLock.Extend(run', events', progs, map[], 1, SeqLock.WriteUnlock);
  }

  /** What two overlapping updates do: the first stores its price, the second takes the lock, `steps`
      happen, then both make the rest of their stores and give the lock back. */
  function Overlap(first: seq<Write>, second: seq<Write>, steps: seq<SeqLock.Event>): seq<SeqLock.Event>
    requires first != []
  {
    [SeqLock.WriteLock, SeqLock.Store(first[0].addr, first[0].value), SeqLock.WriteLock] + steps
    + StoreEvents(first[1..]) + StoreEvents(second) + [SeqLock.WriteUnlock, SeqLock.WriteUnlock]
  }

  /** One snapshot was taken, and validated, and shows this bid alone. */
  ghost predicate ShowsOnly(s: SeqLock.State, n: nat, d: nat, row: Row) {
    && |s.readers| == 1 && s.readers[0].Validated? && s.readers[0].ended == s.readers[0].start.begun
    && BidRows(s.readers[0].loads, n, d) == [row]
  }

  lemma HalfReadShown(s: SeqLock.State, s': SeqLock.State, n: nat, d: nat, p: nat)
    requires n > 0 && d > 0 && p != 0 && s.memory == map[Cell(Bid, 0, Price) := p]
    requires SeqLock.ReadAlone(s, s', GetSnapshot(n, d))
    ensures ShowsOnly(s', n, d, Row(p, 0, 0))
  {
    HalfShown(n, d, p, s.memory, s'.readers[0].loads);
  }

  /** The snapshot is taken while the first writer has stored its price only and the second is inside. */
  lemma HalfwayRun(n: nat, d: nat, p: nat) returns (run: seq<SeqLock.State>, events: seq<SeqLock.Event>, steps: seq<SeqLock.Event>)
    requires n > 0 && d > 0 && p != 0
    ensures events == [SeqLock.WriteLock, SeqLock.Store(Cell(Bid, 0, Price), p), SeqLock.WriteLock] + steps
    ensures SeqLock.IsRun(run, events, OneDepth(n, d), map[], 1)
    ensures forall j :: 0 <= j < |steps| ==> steps[j] == SeqLock.ReadStep(0)
    ensures ShowsOnly(SeqLock.Last(run), n, d, Row(p, 0, 0)) && SeqLock.Last(run).writers == 2
    ensures SeqLock.Last(run).hist.books == [map[]] && SeqLock.Last(run).memory == map[Cell(Bid, 0, Price) := p]
  {
    var progs := OneDepth(n, d);
    assert progs(0) == GetSnapshot(n, d);
    SnapshotStops(n, d);
    run, events, steps := SeqLock.ReadBetween(progs, Cell(Bid, 0, Price), p, 8 * n + 1);
    HalfReadShown(SeqLock.HalfStored(Cell(Bid, 0, Price), p), SeqLock.Last(run), n, d, p);
  }

  lemma OverlapRun(n: nat, d: nat, p: nat, first: seq<Write>, second: seq<Write>)
    returns (run: seq<SeqLock.State>, steps: seq<SeqLock.Event>)
    requires n > 0 && d > 0 && p != 0 && first != [] && first[0] == Write(Cell(Bid, 0, Price), p)
    ensures SeqLock.IsRun(run, Overlap(first, second, steps), OneDepth(n, d), map[], 1)
    ensures forall j :: 0 <= j < |steps| ==> steps[j] == SeqLock.ReadStep(0)
    ensures ShowsOnly(SeqLock.Last(run), n, d, Row(p, 0, 0))
    ensures SeqLock.Last(run).hist.books
         == [map[], Perform(Perform(map[Cell(Bid, 0, Price) := p], first[1..]), second)]
  {
    var run1, events1, events2;
    run1, events1, steps := HalfwayRun(n, d, p);
    run, events2 := BothFinish(run1, events1, OneDepth(n, d), first[1..], second);
  }

  /** Two overlapping calls of `update_level` and a torn snapshot: a bid on an empty book and any ask
      after it.  The snapshot is validated and shows a level with a price and no quantity, which is
      in the book neither before, nor after the first call, nor after both. */
  lemma OverlappingUpdatesTear(n: nat, d: nat, l: Level, ask: Level) returns (run: seq<SeqLock.State>, steps: seq<SeqLock.Event>)
    requires 1 <= n <= PriceIndex.TABLE_SIZE && d > 0 && l.price != 0 && l.quantity != 0
    ensures var b0 := EmptyBook(n); var b1 := Apply(b0, Op.Update(Bid, l));
            && Sized(b1, n) && Writes(b0, Op.Update(Bid, l)) != []
            && SeqLock.IsRun(run, Overlap(Writes(b0, Op.Update(Bid, l)), Writes(b1, Op.Update(Ask, ask)), steps), OneDepth(n, d), map[], 1)
    ensures forall j :: 0 <= j < |steps| ==> steps[j] == SeqLock.ReadStep(0)
    ensures ShowsOnly(SeqLock.Last(run), n, d, Row(l.price, 0, 0))
    ensures var b0 := EmptyBook(n); var b1 := Apply(b0, Op.Update(Bid, l)); var b2 := Apply(b1, Op.Update(Ask, ask));
            && var books := SeqLock.Last(run).hist.books;
            && |books| == 2 && Holds(books[0], b0) && Holds(books[1], b2)
            && (forall b <- [b0, b1, b2] :: !IsSnapshot(Bid, b.bids.levels, d, [Row(l.price, 0, 0)]))
  {
    var b0, op := EmptyBook(n), Op.Update(Bid, l);
    var b1 := Apply(b0, op);
    FirstBid(n, l);
    var b2 := Apply(b1, Op.Update(Ask, ask));
    run, steps := OverlapRun(n, d, l.price, Writes(b0, op), Writes(b1, Op.Update(Ask, ask)));
    BooksHeld(n, l, Op.Update(Ask, ask));
    forall b | b in [b0, b1, b2] ensures !IsSnapshot(Bid, b.bids.levels, d, [Row(l.price, 0, 0)]) {
      InNoBook(n, d, l, b);
    }
  }

  lemma BooksHeld(n: nat, l: Level, second: Op)
    requires 1 <= n <= PriceIndex.TABLE_SIZE && l.price != 0 && l.quantity != 0
    ensures var b0 := EmptyBook(n); var w := Writes(b0, Op.Update(Bid, l)); var b1 := Apply(b0, Op.Update(Bid, l));
            && Sized(b1, n) && w != [] && Holds(map[], b0)
            && Holds(Perform(Perform(map[Cell(Bid, 0, Price) := l.price], w[1..]), Writes(b1, second)), Apply(b1, second))
  {
    var b0, op := EmptyBook(n), Op.Update(Bid, l);
    FirstBid(n, l);
    assert forall f :: FieldOf(NO_LEVEL, f) == 0;
    SectionCarries(map[], b0, op);
    var w := Writes(b0, op);
    assert map[][Cell(Bid, 0, Price) := l.price] == map[Cell(Bid, 0, Price) := l.price];
    assert Perform(map[], w) == Perform(map[Cell(Bid, 0, Price) := l.price], w[1..]);
    SectionCarries(Perform(map[], w), Apply(b0, op), second);
  }
}
