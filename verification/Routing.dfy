/**
 * The multi-exchange book of src/core/aggregated_order_book.cpp: updates, merged listings and
 * the greedy allocation loop of smart order routing.  Doubles are reals.  `Side::BUY` in the
 * source is read as "takes asks".
 */
module Routing {
  import opened Common
  import opened Sorting

  datatype Exchange = Unknown | Binance | Coinbase | Kraken

  /** What a market order takes: a buy walks the asks upwards, a sell walks the bids downwards. */
  datatype Order = Buy | Sell

  datatype Quote = Quote(price: real, quantity: real, count: nat)

  datatype Update = Update(symbol: string, exchange: Exchange, timestamp: nat, bids: seq<Quote>, asks: seq<Quote>)

  datatype Level = Level(exchange: Exchange, price: real, quantity: real, count: nat, timestamp: nat)

  datatype ExchangeBook = ExchangeBook(bids: map<real, Level>, asks: map<real, Level>, lastUpdate: nat)

  type Books = map<Exchange, ExchangeBook>

  /** One quote: a positive quantity sets the level, anything else erases it. */
  function Quoted(m: map<real, Level>, u: Update, q: Quote): map<real, Level> {
    if q.quantity > 0.0 then m[q.price := Level(u.exchange, q.price, q.quantity, q.count, u.timestamp)]
    else m - {q.price}
  }

  function AllQuoted(m: map<real, Level>, u: Update, qs: seq<Quote>): map<real, Level> {
    if qs == [] then m else Quoted(AllQuoted(m, u, qs[..|qs| - 1]), u, qs[|qs| - 1])
  }

  function BookOf(books: Books, e: Exchange): ExchangeBook {
    if e in books then books[e] else ExchangeBook(map[], map[], 0)
  }

  function Updated(books: Books, symbol: string, u: Update): Books {
    if u.symbol != symbol then books
    else
      var b := BookOf(books, u.exchange);
      books[u.exchange := ExchangeBook(AllQuoted(b.bids, u, u.bids), AllQuoted(b.asks, u, u.asks), u.timestamp)]
  }

  /** Every stored level sits under its own price, at its own exchange, with a positive quantity. */
  ghost predicate SideKept(m: map<real, Level>, e: Exchange) {
    forall p :: p in m ==> m[p].price == p && m[p].exchange == e && m[p].quantity > 0.0
  }

  ghost predicate Kept(books: Books) {
    forall e :: e in books ==> SideKept(books[e].bids, e) && SideKept(books[e].asks, e)
  }

  lemma {:induction false} AllQuotedKept(m: map<real, Level>, u: Update, qs: seq<Quote>)
    requires SideKept(m, u.exchange)
    ensures SideKept(AllQuoted(m, u, qs), u.exchange)
  {
    if qs != [] {
      AllQuotedKept(m, u, qs[..|qs| - 1]);
    }
  }

  /** The last quote for a price in an update, if any. */
  function LastQuote(qs: seq<Quote>, p: real): Option<Quote> {
    if qs == [] then None
    else if qs[|qs| - 1].price == p then Some(qs[|qs| - 1])
    else LastQuote(qs[..|qs| - 1], p)
  }

  /** The last quote for a price decides: its level if positive, no level otherwise; prices not
      mentioned keep what they had. */
  lemma {:induction false} LastQuoteWins(m: map<real, Level>, u: Update, qs: seq<Quote>, p: real)
    ensures var m' := AllQuoted(m, u, qs);
            match LastQuote(qs, p)
            case None => (p in m' <==> p in m) && (p in m ==> m'[p] == m[p])
            case Some(q) => (p in m' <==> q.quantity > 0.0)
                            && (p in m' ==> m'[p] == Level(u.exchange, p, q.quantity, q.count, u.timestamp))
  {
    if qs != [] {
      LastQuoteWins(m, u, qs[..|qs| - 1], p);
    }
  }

  lemma {:induction false} LastQuoteAt(qs: seq<Quote>, p: real)
    ensures match LastQuote(qs, p)
            case None => forall i :: 0 <= i < |qs| ==> qs[i].price != p
            case Some(q) => exists i :: 0 <= i < |qs| && qs[i] == q && q.price == p && forall j :: i < j < |qs| ==> qs[j].price != p
  {
    if qs != [] {
      var n := |qs| - 1;
      LastQuoteAt(qs[..n], p);
      if qs[n].price != p && LastQuote(qs[..n], p).Some? {
        var i :| 0 <= i < n && qs[..n][i] == LastQuote(qs[..n], p).value && (forall j :: i < j < n ==> qs[..n][j].price != p);
        forall j | i < j < |qs| ensures qs[j].price != p {
          if j < n { assert qs[..n][j] == qs[j]; }
        }
        assert qs[i] == qs[..n][i];
      }
    }
  }

  /** What quotes of exchange `e` at time `timestamp` make of a side: each price mentioned has the level
      of its last quote if that is positive and none otherwise, all other prices are as before. */
  ghost predicate QuotedBy(before: map<real, Level>, after: map<real, Level>, e: Exchange, timestamp: nat, qs: seq<Quote>) {
    && (forall i :: 0 <= i < |qs| && (forall j :: i < j < |qs| ==> qs[j].price != qs[i].price) ==>
          (qs[i].price in after <==> qs[i].quantity > 0.0)
          && (qs[i].quantity > 0.0 ==> after[qs[i].price] == Level(e, qs[i].price, qs[i].quantity, qs[i].count, timestamp)))
    && (forall p :: (forall i :: 0 <= i < |qs| ==> qs[i].price != p) ==>
          (p in after <==> p in before) && (p in before ==> after[p] == before[p]))
  }

  lemma LastDecides(m: map<real, Level>, u: Update, qs: seq<Quote>, i: nat)
    requires i < |qs| && forall j :: i < j < |qs| ==> qs[j].price != qs[i].price
    ensures var q, after := qs[i], AllQuoted(m, u, qs);
            && (q.price in after <==> q.quantity > 0.0)
            && (q.quantity > 0.0 ==> after[q.price] == Level(u.exchange, q.price, q.quantity, q.count, u.timestamp))
  {
    LastQuoteAt(qs, qs[i].price);
    LastQuoteWins(m, u, qs, qs[i].price);
  }

  lemma OthersKept(m: map<real, Level>, u: Update, qs: seq<Quote>, p: real)
    requires forall i :: 0 <= i < |qs| ==> qs[i].price != p
    ensures var after := AllQuoted(m, u, qs); (p in after <==> p in m) && (p in m ==> after[p] == m[p])
  {
    LastQuoteAt(qs, p);
    LastQuoteWins(m, u, qs, p);
  }

  lemma AllQuotedBy(m: map<real, Level>, u: Update, qs: seq<Quote>)
    ensures QuotedBy(m, AllQuoted(m, u, qs), u.exchange, u.timestamp, qs)
  {
    var after := AllQuoted(m, u, qs);
    forall i | 0 <= i < |qs| && (forall j :: i < j < |qs| ==> qs[j].price != qs[i].price)
      ensures (qs[i].price in after <==> qs[i].quantity > 0.0)
           && (qs[i].quantity > 0.0 ==> after[qs[i].price] == Level(u.exchange, qs[i].price, qs[i].quantity, qs[i].count, u.timestamp))
    {
      LastDecides(m, u, qs, i);
    }
    forall p | forall i :: 0 <= i < |qs| ==> qs[i].price != p
      ensures (p in after <==> p in m) && (p in m ==> after[p] == m[p])
    {
      OthersKept(m, u, qs, p);
    }
  }

  /** An update of this book: its bid quotes make the bids of its exchange and its ask quotes the asks,
      and the other exchanges keep their books. */
  ghost predicate UpdatedBy(before: Books, after: Books, u: Update) {
    && after.Keys == before.Keys + {u.exchange}
    && (forall e :: e in before && e != u.exchange ==> after[e] == before[e])
    && after[u.exchange].lastUpdate == u.timestamp
    && QuotedBy(if u.exchange in before then before[u.exchange].bids else map[], after[u.exchange].bids, u.exchange, u.timestamp, u.bids)
    && QuotedBy(if u.exchange in before then before[u.exchange].asks else map[], after[u.exchange].asks, u.exchange, u.timestamp, u.asks)
  }

  /** Updates of the book's own symbol do that, and others nothing. */
  lemma UpdatedMeaning(books: Books, symbol: string, u: Update)
    ensures if u.symbol == symbol then UpdatedBy(books, Updated(books, symbol, u), u) else Updated(books, symbol, u) == books
  {
    if u.symbol == symbol {
      var b := BookOf(books, u.exchange);
      AllQuotedBy(b.bids, u, u.bids);
      AllQuotedBy(b.asks, u, u.asks);
    }
  }

  lemma UpdatedKept(books: Books, symbol: string, u: Update)
    requires Kept(books)
    ensures Kept(Updated(books, symbol, u))
  {
    var b := BookOf(books, u.exchange);
    AllQuotedKept(b.bids, u, u.bids);
    AllQuotedKept(b.asks, u, u.asks);
  }

  function Taken(b: ExchangeBook, order: Order): map<real, Level> {
    if order.Buy? then b.asks else b.bids
  }

  /** `l` is one of the levels the order can take: a buy takes asks, a sell takes bids. */
  ghost predicate Offered(books: Books, order: Order, l: Level) {
    && l.exchange in books
    && if order.Buy? then l.price in books[l.exchange].asks && books[l.exchange].asks[l.price] == l
       else l.price in books[l.exchange].bids && books[l.exchange].bids[l.price] == l
  }

  ghost predicate NoDup(levels: seq<Level>) {
    forall i, j :: 0 <= i < j < |levels| ==> levels[i] != levels[j]
  }

  /** The list holds every level the order can take, each once. */
  ghost predicate Lists(books: Books, order: Order, levels: seq<Level>) {
    NoDup(levels) && forall l :: l in levels <==> Offered(books, order, l)
  }

  predicate BetterPrice(order: Order, a: real, b: real) {
    if order.Buy? then a < b else a > b
  }

  /** Cheapest first for a buy, dearest first for a sell. */
  ghost predicate SortedBest(order: Order, levels: seq<Level>) {
    forall i, j :: 0 <= i < j < |levels| ==>
      if order.Buy? then levels[i].price <= levels[j].price else levels[i].price >= levels[j].price
  }

  /** The first `depth` levels of some best-first listing of everything the order can take. */
  ghost predicate IsTop(books: Books, order: Order, depth: nat, top: seq<Level>) {
    exists all :: Lists(books, order, all) && SortedBest(order, all) && top == if |all| > depth then all[..depth] else all
  }

  class AggregatedBook {
    const symbol: string
    var books: Books

    constructor (symbol: string)
      ensures this.symbol == symbol && books == map[] && Kept(books)
    {
      this.symbol := symbol;
      books := map[];
    }

    /** The two quote loops of `update`, for a book of this symbol. */
    method Store(u: Update)
      requires u.symbol == symbol
      modifies this
      ensures books == Updated(old(books), symbol, u)
    {
      var b := BookOf(books, u.exchange);
      var bids, asks := b.bids, b.asks;
      for i := 0 to |u.bids|
        invariant bids == AllQuoted(b.bids, u, u.bids[..i])
      {
        assert u.bids[..i + 1][..i] == u.bids[..i];
        bids := Quoted(bids, u, u.bids[i]);
      }
      for i := 0 to |u.asks|
        invariant asks == AllQuoted(b.asks, u, u.asks[..i])
      {
        assert u.asks[..i + 1][..i] == u.asks[..i];
        asks := Quoted(asks, u, u.asks[i]);
      }
      assert u.bids[..|u.bids|] == u.bids && u.asks[..|u.asks|] == u.asks;
      books := books[u.exchange := ExchangeBook(bids, asks, u.timestamp)];
    }

    /** `update`, under the lock. */
    method Apply(u: Update)
      requires Kept(books)
      modifies this
      ensures Kept(books)
      ensures if u.symbol == symbol then UpdatedBy(old(books), books, u) else books == old(books)
    {
      if u.symbol != symbol {
        return;
      }
      UpdatedKept(books, symbol, u);
      UpdatedMeaning(books, symbol, u);
      Store(u);
    }

    /** Collect the levels of all exchanges. */
    method Collect(order: Order) returns (levels: seq<Level>)
      requires Kept(books)
      ensures Lists(books, order, levels)
    {
      levels := [];
      var left := books.Keys;
      while left != {}
        invariant left <= books.Keys && NoDup(levels)
        invariant forall l :: l in levels <==> l.exchange !in left && Offered(books, order, l)
        decreases left
      {
        var e :| e in left;
        var side := Taken(books[e], order);
        var more := CollectSide(side, e);
        levels := Joined(levels, more);
        left := left - {e};
      }
    }

    /** merge_bids and merge_asks: the best `depth` levels across exchanges. */
    method Merge(order: Order, depth: nat) returns (top: seq<Level>)
      requires Kept(books)
      ensures IsTop(books, order, depth, top)
    {
      var levels := Collect(order);
      var sorted := SortBest(order, levels);
      SortBestSorts(order, levels);
      SameListing(books, order, levels, sorted);
      top := if |sorted| > depth then sorted[..depth] else sorted;
    }

    /** The allocation loop of recommend_routing: `levels` is the list it walks. */
    method Route(order: Order, quantity: real) returns (allocations: map<Exchange, real>, levels: seq<Level>)
      requires Kept(books)
      ensures Lists(books, order, levels) && SortedBest(order, levels)
      ensures forall e :: Share(allocations, e) == Allocated(levels, Fills(levels, quantity), e)
      ensures quantity <= 0.0 ==> forall e :: Share(allocations, e) == 0.0
      ensures quantity > 0.0 ==>
                && (forall e :: Share(allocations, e) <= Liquidity(levels, e))
                && TotalShares(allocations) == Least(quantity, TotalQuantity(levels))
    {
      var collected := Collect(order);
      levels := SortBest(order, collected);
      SortBestSorts(order, collected);
      SameListing(books, order, collected, levels);
      assert forall l :: l in levels ==> l.quantity > 0.0;
      allocations := Allocate(levels, quantity);
      if quantity <= 0.0 {
        forall e ensures Share(allocations, e) == 0.0 {
          NothingLeft(levels, quantity, e);
        }
      } else {
        FillsTotal(levels, quantity);
        FillsLength(levels, quantity);
        AllocatedTotal(levels, Fills(levels, quantity));
        forall e ensures Share(allocations, e) <= Liquidity(levels, e) {
          AllocatedWithinLiquidity(levels, quantity, e);
        }
      }
    }
  }

  /** Levels of one exchange. */
  method CollectSide(side: map<real, Level>, e: Exchange) returns (levels: seq<Level>)
    requires SideKept(side, e)
    ensures NoDup(levels) && forall l :: l in levels <==> l.price in side && side[l.price] == l
  {
    levels := [];
    var left := side.Keys;
    while left != {}
      invariant left <= side.Keys && NoDup(levels)
      invariant forall l :: l in levels <==> l.price !in left && l.price in side && side[l.price] == l
      decreases left
    {
      if forall p :: p !in left { NoPrice(left); }
      var p :| p in left;
      levels := levels + [side[p]];
      left := left - {p};
    }
  }

  lemma NoPrice(s: set<real>)
    requires forall p :: p !in s
    ensures s == {}
  {
    assert forall p :: p in s <==> p in {};
  }

  method Joined(a: seq<Level>, b: seq<Level>) returns (c: seq<Level>)
    requires NoDup(a) && NoDup(b) && forall l :: l in a ==> l !in b
    ensures c == a + b && NoDup(c) && forall l :: l in c <==> l in a || l in b
  {
    c := a + b;
    forall i, j | 0 <= i < j < |c| ensures c[i] != c[j] {
      assert i < |a| <= j ==> c[i] in a && c[j] in b;
    }
  }

  function BetterLevel(order: Order): (Level, Level) -> bool {
    (a: Level, b: Level) => BetterPrice(order, a.price, b.price)
  }

  /** std::sort by price, best first; ties in some order. */
  function SortBest(order: Order, levels: seq<Level>): seq<Level> {
    Sort(BetterLevel(order), levels)
  }

  lemma SortBestSorts(order: Order, levels: seq<Level>)
    ensures multiset(SortBest(order, levels)) == multiset(levels) && SortedBest(order, SortBest(order, levels))
  {
    SortPermutes(BetterLevel(order), levels);
    assert StrictWeak(BetterLevel(order));
    SortSorts(BetterLevel(order), levels);
    var sorted := SortBest(order, levels);
    forall i, j | 0 <= i < j < |sorted|
      ensures if order.Buy? then sorted[i].price <= sorted[j].price else sorted[i].price >= sorted[j].price
    {
      assert !BetterLevel(order)(sorted[j], sorted[i]);
    }
  }

  /** A permutation of a listing is a listing. */
  lemma SameListing(books: Books, order: Order, a: seq<Level>, b: seq<Level>)
    requires Lists(books, order, a) && multiset(a) == multiset(b)
    ensures Lists(books, order, b)
  {
    forall l ensures l in b <==> Offered(books, order, l) {
      assert l in b <==> l in multiset(b);
      assert l in a <==> l in multiset(a);
    }
    forall i, j | 0 <= i < j < |b| ensures b[i] != b[j] {
      if b[i] == b[j] {
        assert b == b[..i] + [b[i]] + b[i + 1..j] + [b[j]] + b[j + 1..];
        assert multiset(b)[b[i]] >= 2;
        OnceIfNoDup(a, b[i]);
      }
    }
  }

  lemma {:induction false} OnceIfNoDup(a: seq<Level>, l: Level)
    requires NoDup(a)
    ensures multiset(a)[l] <= 1
  {
    if a != [] {
      var n := |a| - 1;
      OnceIfNoDup(a[..n], l);
      assert a == a[..n] + [a[n]];
    }
  }

  // ------------------------------------------------------------- greedy fill

  function Least(a: real, b: real): real {
    if b < a then b else a
  }

  /** What the walk takes from a level of quantity `x` when `q` is still wanted. */
  function Fill(q: real, x: real): real {
    if q <= 0.0 then 0.0 else Least(q, x)
  }

  /** Quantity taken from each level. */
  function Fills(levels: seq<Level>, q: real): seq<real> {
    if levels == [] then []
    else [Fill(q, levels[0].quantity)] + Fills(levels[1..], q - Fill(q, levels[0].quantity))
  }

  lemma {:induction false} FillsLength(levels: seq<Level>, q: real)
    ensures |Fills(levels, q)| == |levels|
  {
    if levels != [] { FillsLength(levels[1..], q - Fill(q, levels[0].quantity)); }
  }

  function TotalQuantity(levels: seq<Level>): real {
    if levels == [] then 0.0 else levels[0].quantity + TotalQuantity(levels[1..])
  }

  /** Money paid (or received) at each level of a fill. */
  function Payments(levels: seq<Level>, x: seq<real>): seq<real>
    requires |x| == |levels|
  {
    seq(|x|, i requires 0 <= i < |x| => levels[i].price * x[i])
  }

  function Cost(levels: seq<Level>, x: seq<real>): real
    requires |x| == |levels|
  {
    SumOf(Payments(levels, x))
  }

  function Allocated(levels: seq<Level>, x: seq<real>, e: Exchange): real {
    if levels == [] || x == [] then 0.0
    else (if levels[0].exchange == e then x[0] else 0.0) + Allocated(levels[1..], x[1..], e)
  }

  /** What an exchange offers in the list. */
  function Liquidity(levels: seq<Level>, e: Exchange): real {
    if levels == [] then 0.0
    else (if levels[0].exchange == e then levels[0].quantity else 0.0) + Liquidity(levels[1..], e)
  }

  function Share(allocations: map<Exchange, real>, e: Exchange): real {
    if e in allocations then allocations[e] else 0.0
  }

  function TotalShares(a: map<Exchange, real>): real {
    Share(a, Unknown) + Share(a, Binance) + Share(a, Coinbase) + Share(a, Kraken)
  }

  /** The loop itself: stop when nothing is wanted any more. */
  method Allocate(levels: seq<Level>, quantity: real) returns (allocations: map<Exchange, real>)
    ensures forall e :: Share(allocations, e) == Allocated(levels, Fills(levels, quantity), e)
  {
    allocations := map[];
    var remaining := quantity;
    var i := 0;
    assert levels[0..] == levels;
    while i < |levels| && remaining > 0.0
      invariant i <= |levels|
      invariant forall e :: Share(allocations, e) + Allocated(levels[i..], Fills(levels[i..], remaining), e)
                         == Allocated(levels, Fills(levels, quantity), e)
    {
      var level := levels[i];
      var fill := Least(remaining, level.quantity);
      assert levels[i..][1..] == levels[i + 1..];
      assert Fills(levels[i..], remaining)[1..] == Fills(levels[i + 1..], remaining - fill);
      allocations := allocations[level.exchange := Share(allocations, level.exchange) + fill];
      remaining := remaining - fill;
      i := i + 1;
    }
    forall e ensures Allocated(levels[i..], Fills(levels[i..], remaining), e) == 0.0 {
      NothingLeft(levels[i..], remaining, e);
    }
  }

  lemma {:induction false} NothingLeft(levels: seq<Level>, q: real, e: Exchange)
    requires levels == [] || q <= 0.0
    ensures Allocated(levels, Fills(levels, q), e) == 0.0
  {
    if levels != [] {
      NothingLeft(levels[1..], q, e);
      assert Fills(levels, q)[1..] == Fills(levels[1..], q);
    }
  }

  /** The fill takes exactly the smaller of what is asked and what there is. */
  lemma {:induction false} FillsTotal(levels: seq<Level>, q: real)
    requires forall l :: l in levels ==> l.quantity > 0.0
    ensures SumOf(Fills(levels, q)) == if q <= 0.0 then 0.0 else Least(q, TotalQuantity(levels))
    ensures TotalQuantity(levels) >= 0.0
  {
    if levels != [] {
      var f := Fill(q, levels[0].quantity);
      FillsTotal(levels[1..], q - f);
      assert Fills(levels, q)[1..] == Fills(levels[1..], q - f);
      assert levels[0] in levels;
    }
  }

  lemma {:induction false} AllocatedTotal(levels: seq<Level>, x: seq<real>)
    requires |x| <= |levels|
    ensures Allocated(levels, x, Unknown) + Allocated(levels, x, Binance)
          + Allocated(levels, x, Coinbase) + Allocated(levels, x, Kraken) == SumOf(x)
  {
    if x != [] { AllocatedTotal(levels[1..], x[1..]); }
  }

  /** No exchange is asked for more than it offers. */
  lemma {:induction false} AllocatedWithinLiquidity(levels: seq<Level>, q: real, e: Exchange)
    requires forall l :: l in levels ==> l.quantity > 0.0
    ensures 0.0 <= Allocated(levels, Fills(levels, q), e) <= Liquidity(levels, e)
  {
    if levels != [] {
      var f := Fill(q, levels[0].quantity);
      AllocatedWithinLiquidity(levels[1..], q - f, e);
      assert Fills(levels, q)[1..] == Fills(levels[1..], q - f);
      assert levels[0] in levels;
    }
  }

  // ------------------------------------------------------------- optimality

  /** A fill any router could make: within what each level offers. */
  ghost predicate Feasible(levels: seq<Level>, x: seq<real>) {
    |x| == |levels| && forall i :: 0 <= i < |x| ==> 0.0 <= x[i] <= levels[i].quantity
  }

  /** The fill is full before level `m`, and takes nothing after it. */
  ghost predicate IsPivot(levels: seq<Level>, x: seq<real>, m: nat) {
    && m < |levels| == |x| && 0.0 <= x[m] <= levels[m].quantity
    && (forall i :: 0 <= i < m ==> x[i] == levels[i].quantity)
    && (forall i :: m < i < |x| ==> x[i] == 0.0)
  }

  lemma PivotLater(l: Level, levels: seq<Level>, x: seq<real>, m: nat)
    requires IsPivot(levels, x, m)
    ensures IsPivot([l] + levels, [l.quantity] + x, m + 1)
  {
  }

  lemma PivotFirst(levels: seq<Level>, q: real)
    requires levels != [] && 0.0 <= Fill(q, levels[0].quantity) <= levels[0].quantity
    requires q <= Fill(q, levels[0].quantity) || |levels| == 1
    ensures IsPivot(levels, Fills(levels, q), 0)
  {
    var f := Fill(q, levels[0].quantity);
    FillsLength(levels, q);
    forall i | 0 < i < |levels| ensures Fills(levels, q)[i] == 0.0 {
      ZeroFills(levels[1..], q - f, i - 1);
      assert Fills(levels, q)[i] == Fills(levels[1..], q - f)[i - 1];
    }
  }

  /** There is a level at which the walk stops. */
  lemma {:induction false} Pivot(levels: seq<Level>, q: real) returns (m: nat)
    requires levels != [] && forall l :: l in levels ==> l.quantity > 0.0
    ensures IsPivot(levels, Fills(levels, q), m)
  {
    assert levels[0] in levels;
    var f := Fill(q, levels[0].quantity);
    if f < levels[0].quantity || |levels| == 1 {
      m := 0;
      PivotFirst(levels, q);
    } else {
      var k := Pivot(levels[1..], q - f);
      PivotLater(levels[0], levels[1..], Fills(levels[1..], q - f), k);
      assert [levels[0]] + levels[1..] == levels;
      m := k + 1;
    }
  }

  lemma {:induction false} ZeroFills(levels: seq<Level>, q: real, i: nat)
    requires q <= 0.0 && i < |levels|
    ensures |Fills(levels, q)| == |levels| && Fills(levels, q)[i] == 0.0
  {
    FillsLength(levels, q);
    if i > 0 { ZeroFills(levels[1..], q, i - 1); }
  }

  /** `c` is no better than `b` for the order: no cheaper for a buy, no better paid for a sell. */
  ghost predicate NoBetter(order: Order, c: real, b: real) {
    if order.Buy? then c >= b else c <= b
  }

  /** A level priced `a` away from the pivot, on which another fill takes `d` more: more of what is
      worse than the pivot, or less of what is better. */
  ghost predicate Outward(order: Order, a: real, d: real) {
    if order.Buy? then (a >= 0.0 && d >= 0.0) || (a <= 0.0 && d <= 0.0)
    else (a <= 0.0 && d >= 0.0) || (a >= 0.0 && d <= 0.0)
  }

  lemma OutwardCost(order: Order, a: real, p: real, x: real, y: real)
    requires Outward(order, a - p, y - x)
    ensures NoBetter(order, a * y - a * x, p * y - p * x)
  {
    var b, d := a - p, y - x;
    assert NoBetter(order, b * d, 0.0);
    assert b * d == a * d - p * d;
    assert a * d == a * y - a * x && p * d == p * y - p * x;
  }

  /** What a fill would pay at each level if every unit were priced `p`. */
  ghost function AtPrice(x: seq<real>, p: real): seq<real> {
    seq(|x|, i requires 0 <= i < |x| => p * x[i])
  }

  lemma {:induction false} AtPriceTotal(x: seq<real>, p: real, total: real)
    requires SumOf(x) == total
    ensures SumOf(AtPrice(x, p)) == p * total
  {
    if x != [] {
      AtPriceTotal(x[1..], p, total - x[0]);
      var a, b := AtPrice(x, p)[1..], AtPrice(x[1..], p);
      assert forall i :: 0 <= i < |b| ==> a[i] == b[i];
      assert a == b;
    }
  }

  lemma SameTotal(x: seq<real>, y: seq<real>, p: real)
    requires SumOf(x) == SumOf(y)
    ensures SumOf(AtPrice(x, p)) == SumOf(AtPrice(y, p))
  {
    AtPriceTotal(x, p, SumOf(x));
    AtPriceTotal(y, p, SumOf(x));
  }

  /** Differences that are no better one by one are no better in total. */
  lemma {:induction false} SumsNoBetter(order: Order, u: seq<real>, v: seq<real>, a: seq<real>, b: seq<real>)
    requires |u| == |v| == |a| == |b|
    requires forall i :: 0 <= i < |u| ==> NoBetter(order, u[i] - v[i], a[i] - b[i])
    ensures NoBetter(order, SumOf(u) - SumOf(v), SumOf(a) - SumOf(b))
  {
    if u != [] {
      SumsNoBetter(order, u[1..], v[1..], a[1..], b[1..]);
    }
  }

  lemma PaymentNoBetter(order: Order, levels: seq<Level>, x: seq<real>, y: seq<real>, p: real, i: nat)
    requires |x| == |y| == |levels| && i < |x| && Outward(order, levels[i].price - p, y[i] - x[i])
    ensures NoBetter(order, Payments(levels, y)[i] - Payments(levels, x)[i], AtPrice(y, p)[i] - AtPrice(x, p)[i])
  {
    OutwardCost(order, levels[i].price, p, x[i], y[i]);
  }

  lemma PaymentsNoBetter(order: Order, levels: seq<Level>, x: seq<real>, y: seq<real>, p: real)
    requires |x| == |y| == |levels|
    requires forall i :: 0 <= i < |x| ==> Outward(order, levels[i].price - p, y[i] - x[i])
    ensures NoBetter(order, SumOf(Payments(levels, y)) - SumOf(Payments(levels, x)), SumOf(AtPrice(y, p)) - SumOf(AtPrice(x, p)))
  {
    forall i | 0 <= i < |x|
      ensures NoBetter(order, Payments(levels, y)[i] - Payments(levels, x)[i], AtPrice(y, p)[i] - AtPrice(x, p)[i])
    {
      PaymentNoBetter(order, levels, x, y, p, i);
    }
    SumsNoBetter(order, Payments(levels, y), Payments(levels, x), AtPrice(y, p), AtPrice(x, p));
  }

  /** The exchange argument: when every unit that `y` adds to `x` is priced at `p` or worse and every
      unit it drops at `p` or better, then `y`, of the same size, is no better for the order. */
  lemma ExchangeArgument(order: Order, levels: seq<Level>, x: seq<real>, y: seq<real>, p: real)
    requires |x| == |y| == |levels| && SumOf(x) == SumOf(y)
    requires forall i :: 0 <= i < |x| ==> Outward(order, levels[i].price - p, y[i] - x[i])
    ensures NoBetter(order, Cost(levels, y), Cost(levels, x))
  {
    PaymentsNoBetter(order, levels, x, y, p);
    SameTotal(x, y, p);
  }

  /** Seen from the pivot of the greedy fill, any feasible fill moves outward on every level. */
  lemma OutwardFromPivot(order: Order, levels: seq<Level>, x: seq<real>, y: seq<real>, m: nat, i: nat)
    requires SortedBest(order, levels) && Feasible(levels, y) && |x| == |levels| && m < |levels| && i < |levels|
    requires i < m ==> x[i] == levels[i].quantity
    requires m < i ==> x[i] == 0.0
    ensures Outward(order, levels[i].price - levels[m].price, y[i] - x[i])
  {
  }

  lemma FillsFeasible(levels: seq<Level>, q: real)
    requires forall l :: l in levels ==> l.quantity > 0.0
    ensures Feasible(levels, Fills(levels, q))
  {
    FillsLength(levels, q);
    if levels != [] {
      var m := Pivot(levels, q);
      forall i | 0 <= i < |levels| ensures 0.0 <= Fills(levels, q)[i] <= levels[i].quantity {
        assert levels[i] in levels;
      }
    }
  }

  lemma OutwardEverywhere(order: Order, levels: seq<Level>, x: seq<real>, y: seq<real>, m: nat)
    requires SortedBest(order, levels) && Feasible(levels, y) && |x| == |levels| && m < |levels|
    requires forall i :: 0 <= i < m ==> x[i] == levels[i].quantity
    requires forall i :: m < i < |levels| ==> x[i] == 0.0
    ensures forall i :: 0 <= i < |x| ==> Outward(order, levels[i].price - levels[m].price, y[i] - x[i])
  {
    forall i | 0 <= i < |x| ensures Outward(order, levels[i].price - levels[m].price, y[i] - x[i]) {
      OutwardFromPivot(order, levels, x, y, m, i);
    }
  }

  lemma GreedyNoBetter(order: Order, levels: seq<Level>, q: real, y: seq<real>)
    requires SortedBest(order, levels) && forall l :: l in levels ==> l.quantity > 0.0
    requires Feasible(levels, y) && SumOf(y) == SumOf(Fills(levels, q))
    ensures Feasible(levels, Fills(levels, q))
    ensures NoBetter(order, Cost(levels, y), Cost(levels, Fills(levels, q)))
  {
    FillsFeasible(levels, q);
    var x := Fills(levels, q);
    if levels != [] {
      var m := Pivot(levels, q);
      OutwardEverywhere(order, levels, x, y, m);
      ExchangeArgument(order, levels, x, y, levels[m].price);
    }
  }

  /** The level-by-level fill `x` costs a buy no more, and pays a sell no less, than any other fill of
      the same size from the same levels. */
  lemma GreedyIsOptimal(order: Order, levels: seq<Level>, q: real, x: seq<real>, y: seq<real>)
    requires SortedBest(order, levels) && forall l :: l in levels ==> l.quantity > 0.0
    requires x == Fills(levels, q) && Feasible(levels, y) && SumOf(y) == SumOf(x)
    ensures Feasible(levels, x)
    ensures var paid, other := SumOf(seq(|levels|, i requires 0 <= i < |levels| => levels[i].price * x[i])),
                               SumOf(seq(|levels|, i requires 0 <= i < |levels| => levels[i].price * y[i]));
            if order.Buy? then paid <= other else paid >= other
  {
    GreedyNoBetter(order, levels, q, y);
    assert Payments(levels, x) == seq(|levels|, i requires 0 <= i < |levels| => levels[i].price * x[i]);
    assert Payments(levels, y) == seq(|levels|, i requires 0 <= i < |levels| => levels[i].price * y[i]);
  }
}
