/**
 * The in-place code of `OrderBook` in include/core/order_book.hpp, run by one thread at a
 * time: every method is proved to compute the values defined in module OrderBook.
 */
module OrderBookEngine {
  import opened Common
  import opened PriceIndex
  import opened OrderBook
  import opened Sorting

  /** The collect, sort and emit loops of get_snapshot for one side. */
  method SnapshotSide(side: Side, levels: array<Level>, depth: nat) returns (rows: seq<Row>)
    ensures IsSnapshot(side, levels[..], depth, rows)
  {
    ghost var ls := levels[..];
    ghost var prices := Prices(ls);
    var picks: seq<Pick> := [];
    for i := 0 to levels.Length
      invariant picks == Picks(prices[..i])
    {
      assert prices[..i + 1][..i] == prices[..i];
      if levels[i].price > 0 {
        picks := picks + [Pick(levels[i].price, i)];
      }
    }
    assert prices[..levels.Length] == prices;
    picks := Sort(BetterPick(side), picks);
    ghost var full := Map(RowAt(ls), picks);
    RankedIsFull(side, ls);
    rows := [];
    var n := Min(depth, |picks|);
    for i := 0 to n
      invariant rows == full[..i]
    {
      RankedAreSlots(side, prices, i);
      var l := levels[picks[i].index];
      rows := rows + [Row(l.price, l.quantity, l.count)];
    }
  }

  /** fixed_to_double, exact. */
  function ToReal(price: nat): real {
    price as real / PRICE_SCALE as real
  }

  function QuantityOf(): Row -> nat {
    (r: Row) => r.quantity
  }

  /** The quantities of the occupied levels, added up. */
  function Volume(levels: seq<Level>): nat {
    Total(Map(QuantityOf(), Rows(levels)))
  }

  lemma VolumeOneMore(levels: seq<Level>)
    requires levels != []
    ensures var init, l := levels[..|levels| - 1], levels[|levels| - 1];
            Volume(levels) == Volume(init) + if l.price != 0 then l.quantity else 0
  {
    var init, l := levels[..|levels| - 1], levels[|levels| - 1];
    assert Rows(levels) == Rows(init) + if l.price != 0 then [RowOf(l)] else [];
    if l.price == 0 {
      assert Rows(levels) == Rows(init);
    } else {
      MapConcat(QuantityOf(), Rows(init), [RowOf(l)]);
      TotalConcat(Map(QuantityOf(), Rows(init)), [l.quantity]);
      assert Map(QuantityOf(), [RowOf(l)]) == [l.quantity] && Total([l.quantity]) == l.quantity;
    }
  }

  lemma QuantitiesOf(rows: seq<Row>)
    ensures Map(QuantityOf(), rows) == seq(|rows|, i requires 0 <= i < |rows| => rows[i].quantity)
  {
  }

  /** The rows of every full snapshot have the volume between them. */
  lemma VolumeOfRows(side: Side, levels: seq<Level>, rows: seq<Row>)
    requires FullSnapshot(side, levels, rows)
    ensures Volume(levels) == Total(seq(|rows|, i requires 0 <= i < |rows| => rows[i].quantity))
  {
    MapPermutes(QuantityOf(), rows, Rows(levels));
    TotalPermutes(Map(QuantityOf(), rows), Map(QuantityOf(), Rows(levels)));
    QuantitiesOf(rows);
  }

  method FindFreeSlot(levels: array<Level>) returns (f: nat)
    requires levels.Length < SIZE_MAX
    ensures f == FreeSlot(levels[..])
  {
    for i := 0 to levels.Length
      invariant FreeSlot(levels[..]) == FreeSlot(levels[..], i)
    {
      if levels[i].price == 0 {
        return i;
      }
    }
    return SIZE_MAX;
  }

  /** The scan of update_best_level. */
  method ScanBest(side: Side, levels: array<Level>) returns (best: nat)
    requires levels.Length < SIZE_MAX
    ensures best == BestIndex(side, levels[..], levels.Length)
  {
    var bestPrice := 0;
    best := SIZE_MAX;
    for i := 0 to levels.Length
      invariant best == BestIndex(side, levels[..], i)
      invariant bestPrice == if best == SIZE_MAX then 0 else levels[best].price
    {
      var price := levels[i].price;
      if price > 0 {
        if side.Bid? {
          if bestPrice == 0 || price > bestPrice {
            bestPrice, best := price, i;
          }
        } else {
          if bestPrice == 0 || price < bestPrice {
            bestPrice, best := price, i;
          }
        }
      }
    }
  }

  /** The depth and volume counts of get_statistics for one side. */
  method CountSide(levels: array<Level>) returns (depth: nat, volume: nat)
    ensures depth == |Rows(levels[..])| && volume == Volume(levels[..]) % WORD
  {
    depth, volume := 0, 0;
    for i := 0 to levels.Length
      invariant depth == |Rows(levels[..i])| && volume == Volume(levels[..i]) % WORD
    {
      assert levels[..i + 1][..i] == levels[..i];
      VolumeOneMore(levels[..i + 1]);
      if levels[i].price > 0 {
        AddMod(Volume(levels[..i]), levels[i].quantity);
        depth, volume := depth + 1, (volume + levels[i].quantity) % WORD;
      }
    }
    assert levels[..levels.Length] == levels[..];
  }

  /** The level array, price table and cached best index of one side. */
  class BookSideObject {
    const side: Side
    const levels: array<Level>
    const priceMap: PriceIndexMap
    var best: nat

    ghost function Repr(): set<object> {
      {this, levels, priceMap, priceMap.table}
    }

    ghost predicate Shaped() {
      priceMap.Valid() && levels.Length < SIZE_MAX
    }

    ghost function Value(): BookSide
      requires Shaped()
      reads Repr()
    {
      BookSide(levels[..], priceMap.table[..], best)
    }

    /** The table answers only indices of levels, and the cached best index is right. */
    ghost predicate Valid()
      reads Repr()
    {
      Shaped() && SideValid(side, Value(), levels.Length)
    }

    constructor (side: Side, maxLevels: nat)
      requires maxLevels < SIZE_MAX
      ensures Valid() && fresh(Repr()) && this.side == side && Value() == EmptySide(maxLevels)
    {
      this.side := side;
      levels := new Level[maxLevels](_ => NO_LEVEL);
      priceMap := new PriceIndexMap();
      best := SIZE_MAX;
      new;
      assert levels[..] == EmptySide(maxLevels).levels;
      EmptySideOk(side, maxLevels);
    }

    /** The stores of update_level once slot `idx` is chosen. */
    method Place(idx: nat, known: bool, l: Level)
      requires Shaped() && idx < levels.Length && known == Lookup(priceMap.table[..], l.price).Some?
      modifies levels, priceMap.table
      ensures levels[..] == LevelsAfter(old(levels[..]), idx, l)
      ensures priceMap.table[..] == TableAfter(old(priceMap.table[..]), idx, l)
    {
      if !known {
        var done := priceMap.Insert(l.price, idx);
      }
      levels[idx] := l;
      if l.quantity == 0 {
        var done := priceMap.Remove(l.price);
        levels[idx] := l.(price := 0);
      }
    }

    /** Find the price's slot, or a free one, or SIZE_MAX. */
    method Choose(price: nat) returns (idx: nat, known: bool)
      requires Valid()
      ensures idx == Target(Value(), price) && known == Lookup(priceMap.table[..], price).Some?
      ensures idx == SIZE_MAX || idx < levels.Length
    {
      TargetInRange(Value(), price);
      var existing := priceMap.Find(price);
      known := existing.Some?;
      if existing.Some? {
        idx := existing.value;
      } else {
        idx := FindFreeSlot(levels);
      }
    }

    /** update_level on this side: false when the price is unknown and no slot is free. */
    method Update(l: Level) returns (ok: bool)
      requires Valid()
      modifies Repr()
      ensures Valid()
      ensures ok == Accepts(old(Value()), l.price)
      ensures Value() == Updated(side, old(Value()), l)
    {
      ghost var b := Value();
      UpdateSideValid(side, b, l, levels.Length);
      var idx, known := Choose(l.price);
      if idx == SIZE_MAX {
        return false;
      }
      Place(idx, known, l);
      best := ScanBest(side, levels);
      assert Value() == Written(side, b, idx, l);
      return true;
    }

    method Clear()
      requires Valid()
      modifies Repr()
      ensures Valid() && Value() == EmptySide(levels.Length)
    {
      EmptySideOk(side, levels.Length);
      for i := 0 to levels.Length
        modifies levels
        invariant forall j :: 0 <= j < i ==> levels[j] == NO_LEVEL
      {
        levels[i] := NO_LEVEL;
      }
      priceMap.Clear();
      best := SIZE_MAX;
      assert levels[..] == EmptySide(levels.Length).levels;
    }
  }

  class OrderBookObject {
    const bids: BookSideObject
    const asks: BookSideObject
    var sequence: nat

    ghost predicate Valid()
      reads this, bids.Repr(), asks.Repr()
    {
      && bids.Valid() && asks.Valid() && bids.side == Bid && asks.side == Ask
      && bids.Repr() !! asks.Repr() && this !in bids.Repr() && this !in asks.Repr()
      && bids.levels.Length == asks.levels.Length
    }

    ghost function State(): Book
      requires Valid()
      reads this, bids.Repr(), asks.Repr()
    {
      Book(bids.Value(), asks.Value(), sequence)
    }

    constructor (maxLevels: nat)
      requires maxLevels < SIZE_MAX
      ensures Valid() && fresh(bids.Repr()) && fresh(asks.Repr()) && State() == EmptyBook(maxLevels)
    {
      bids := new BookSideObject(Bid, maxLevels);
      asks := new BookSideObject(Ask, maxLevels);
      sequence := 0;
    }

    /** update_level, inside its write section. */
    method UpdateLevel(side: Side, l: Level) returns (ok: bool)
      requires Valid()
      modifies this, bids.Repr(), asks.Repr()
      ensures Valid()
      ensures State() == Apply(old(State()), Op.Update(side, l))
      ensures ok == Returns(old(State()), Op.Update(side, l))
    {
      if side.Bid? {
        ok := bids.Update(l);
      } else {
        ok := asks.Update(l);
      }
      if ok {
        sequence := (sequence + 1) % WORD;
      }
    }

    method Clear()
      requires Valid()
      modifies this, bids.Repr(), asks.Repr()
      ensures Valid()
      ensures State() == Apply(old(State()), Op.Clear)
    {
      bids.Clear();
      asks.Clear();
    }

    /** The body of the retry loop of get_snapshot, with no writer around. */
    method GetSnapshot(depth: nat) returns (bidRows: seq<Row>, askRows: seq<Row>, number: nat)
      requires Valid()
      ensures IsSnapshot(Bid, State().bids.levels, depth, bidRows)
      ensures IsSnapshot(Ask, State().asks.levels, depth, askRows)
      ensures number == State().sequence
    {
      bidRows := SnapshotSide(Bid, bids.levels, depth);
      askRows := SnapshotSide(Ask, asks.levels, depth);
      number := sequence;
    }

    /** The spread agrees with the fronts of any snapshot of depth at least one. */
    method GetSpread() returns (spread: real)
      requires Valid()
      ensures SpreadAgrees(State(), spread)
    {
      FrontsOf(State());
      if bids.best == SIZE_MAX || asks.best == SIZE_MAX {
        return 0.0;
      }
      return ToReal(asks.levels[asks.best].price) - ToReal(bids.levels[bids.best].price);
    }

    /** The mid price agrees with the fronts of any snapshot of depth at least one. */
    method GetMidPrice() returns (mid: real)
      requires Valid()
      ensures MidAgrees(State(), mid)
    {
      FrontsOf(State());
      if bids.best == SIZE_MAX || asks.best == SIZE_MAX {
        return 0.0;
      }
      return (ToReal(bids.levels[bids.best].price) + ToReal(asks.levels[asks.best].price)) / 2.0;
    }

    /** get_book_imbalance, from the wrapped volumes. */
    method GetBookImbalance() returns (imbalance: real)
      requires Valid()
      ensures imbalance == Imbalance(Volume(State().bids.levels) % WORD, Volume(State().asks.levels) % WORD)
    {
      var bidDepth, bidVolume := CountSide(bids.levels);
      var askDepth, askVolume := CountSide(asks.levels);
      imbalance := Imbalance(bidVolume, askVolume);
    }

    /** get_statistics: spread and mid price agree with snapshots, depths are the lengths of full
        snapshots and volumes the sums of their quantities, duplicates or not. */
    method GetStatistics() returns (stats: Statistics)
      requires Valid()
      ensures SpreadAgrees(State(), stats.spread) && MidAgrees(State(), stats.mid)
      ensures forall rows: seq<Row> :: FullSnapshot(Bid, State().bids.levels, rows) ==> stats.bidDepth == |rows|
      ensures forall rows: seq<Row> :: FullSnapshot(Ask, State().asks.levels, rows) ==> stats.askDepth == |rows|
      ensures forall rows: seq<Row> :: FullSnapshot(Bid, State().bids.levels, rows) ==>
                stats.bidVolume == Total(seq(|rows|, i requires 0 <= i < |rows| => rows[i].quantity)) % WORD
      ensures forall rows: seq<Row> :: FullSnapshot(Ask, State().asks.levels, rows) ==>
                stats.askVolume == Total(seq(|rows|, i requires 0 <= i < |rows| => rows[i].quantity)) % WORD
      ensures stats.imbalance == Imbalance(stats.bidVolume, stats.askVolume)
    {
      var spread := GetSpread();
      var mid := GetMidPrice();
      var imbalance := GetBookImbalance();
      var bidDepth, bidVolume := CountSide(bids.levels);
      var askDepth, askVolume := CountSide(asks.levels);
      DepthsOf(State());
      VolumesOf(State());
      stats := Statistics(spread, mid, imbalance, bidDepth, askDepth, bidVolume, askVolume);
    }
  }

  datatype Statistics = Statistics(
    spread: real, mid: real, imbalance: real, bidDepth: nat, askDepth: nat, bidVolume: nat, askVolume: nat)

  /** The 64-bit word read as a signed number. */
  function Signed(x: nat): int {
    if x < WORD / 2 then x else x - WORD
  }

  /** Difference of the volumes over their sum, which wraps; 0 when the sum is 0. */
  function Imbalance(bidVolume: nat, askVolume: nat): real {
    var sum := (bidVolume + askVolume) % WORD;
    if sum == 0 then 0.0 else (Signed(bidVolume) - Signed(askVolume)) as real / sum as real
  }

  /** The imbalance of two volumes: in [-1, 1], 0 for an empty book. */
  function TrueImbalance(bidVolume: nat, askVolume: nat): real {
    if bidVolume + askVolume == 0 then 0.0 else (bidVolume - askVolume) as real / (bidVolume + askVolume) as real
  }

  /** It is 1 exactly when only bids have volume, and -1 exactly when only asks have. */
  lemma ImbalanceMeaning(bidVolume: nat, askVolume: nat)
    ensures -1.0 <= TrueImbalance(bidVolume, askVolume) <= 1.0
    ensures TrueImbalance(bidVolume, askVolume) == 1.0 <==> bidVolume > 0 && askVolume == 0
    ensures TrueImbalance(bidVolume, askVolume) == -1.0 <==> askVolume > 0 && bidVolume == 0
  {
    if bidVolume + askVolume > 0 { QuotientRange((bidVolume - askVolume) as real, (bidVolume + askVolume) as real); }
  }

  lemma QuotientRange(d: real, s: real)
    requires s > 0.0 && -s <= d <= s
    ensures -1.0 <= d / s <= 1.0 && (d / s == 1.0 <==> d == s) && (d / s == -1.0 <==> d == -s)
  {
    var q := d / s;
    assert q * s == d;
  }

  lemma QuotientSign(d: real, s: real)
    requires s > 0.0
    ensures (d > 0.0 ==> d / s > 0.0) && (d < 0.0 ==> d / s < 0.0) && (d == 0.0 ==> d / s == 0.0)
  {
    var q := d / s;
    assert q * s == d;
  }

  lemma QuotientsDiffer(d: real, s: real, t: real)
    requires d != 0.0 && 0.0 < s < t
    ensures d / s != d / t
  {
    var x, y := d / s, d / t;
    assert x * s == d && y * t == d;
  }

  const HALF: nat := 0x8000_0000_0000_0000

  lemma BothSmall(b: nat, a: nat)
    requires b < HALF && a < HALF
    ensures Imbalance(b, a) == TrueImbalance(b, a)
  {
  }

  lemma BothLarge(b: nat, a: nat)
    requires HALF <= b < WORD && HALF <= a < WORD
    ensures Imbalance(b, a) == TrueImbalance(b, a) <==> b == a
  {
    var d, s, t := (b - a) as real, b + a - WORD, b + a;
    assert (b + a) % WORD == s;
    if b == a {
      QuotientSign(0.0, t as real);
      if s > 0 { QuotientSign(0.0, s as real); }
    } else {
      QuotientsDiffer(d, s as real, t as real);
    }
  }

  /** Read as negative, one large volume turns the sign around. */
  lemma OneLarge(b: nat, a: nat)
    requires b < WORD && a < WORD && (b < HALF <==> a >= HALF)
    ensures Imbalance(b, a) != TrueImbalance(b, a)
  {
    var d, d' := (b - a) as real, (Signed(b) - Signed(a)) as real;
    var s, t := (b + a) % WORD, b + a;
    QuotientSign(d, t as real);
    if s > 0 { QuotientSign(d', s as real); }
  }

  /** Of the volumes one at or above 2^63 and one below, the code takes the smaller for the larger: the
      imbalance has the wrong sign, or is 0 when they add up to 2^64. */
  lemma ImbalanceTurns(bidVolume: nat, askVolume: nat)
    requires bidVolume < WORD && askVolume < WORD
    ensures bidVolume < 0x8000_0000_0000_0000 <= askVolume ==>
              if bidVolume + askVolume == WORD then Imbalance(bidVolume, askVolume) == 0.0 else Imbalance(bidVolume, askVolume) > 0.0
    ensures askVolume < 0x8000_0000_0000_0000 <= bidVolume ==>
              if bidVolume + askVolume == WORD then Imbalance(bidVolume, askVolume) == 0.0 else Imbalance(bidVolume, askVolume) < 0.0
  {
    var s := (bidVolume + askVolume) % WORD;
    if s > 0 { QuotientSign((Signed(bidVolume) - Signed(askVolume)) as real, s as real); }
  }

  /** The code computes the imbalance exactly when both volumes fit a signed word, or are equal. */
  lemma ImbalanceExactIff(bidVolume: nat, askVolume: nat)
    requires bidVolume < WORD && askVolume < WORD
    ensures Imbalance(bidVolume, askVolume)
              == (if bidVolume + askVolume == 0 then 0.0 else (bidVolume - askVolume) as real / (bidVolume + askVolume) as real)
            <==> (bidVolume < 0x8000_0000_0000_0000 && askVolume < 0x8000_0000_0000_0000) || bidVolume == askVolume
  {
    if bidVolume < HALF && askVolume < HALF {
      BothSmall(bidVolume, askVolume);
    } else if bidVolume >= HALF && askVolume >= HALF {
      BothLarge(bidVolume, askVolume);
    } else {
      OneLarge(bidVolume, askVolume);
    }
  }

  lemma DepthsOf(b: Book)
    ensures forall rows: seq<Row> :: FullSnapshot(Bid, b.bids.levels, rows) ==> |Rows(b.bids.levels)| == |rows|
    ensures forall rows: seq<Row> :: FullSnapshot(Ask, b.asks.levels, rows) ==> |Rows(b.asks.levels)| == |rows|
  {
    forall rows: seq<Row> | FullSnapshot(Bid, b.bids.levels, rows) ensures |Rows(b.bids.levels)| == |rows| {
      SameMembers(Bid, b.bids.levels, rows, Row(0, 0, 0));
    }
    forall rows: seq<Row> | FullSnapshot(Ask, b.asks.levels, rows) ensures |Rows(b.asks.levels)| == |rows| {
      SameMembers(Ask, b.asks.levels, rows, Row(0, 0, 0));
    }
  }

  lemma VolumesOf(b: Book)
    ensures forall rows: seq<Row> :: FullSnapshot(Bid, b.bids.levels, rows) ==>
              Volume(b.bids.levels) == Total(seq(|rows|, i requires 0 <= i < |rows| => rows[i].quantity))
    ensures forall rows: seq<Row> :: FullSnapshot(Ask, b.asks.levels, rows) ==>
              Volume(b.asks.levels) == Total(seq(|rows|, i requires 0 <= i < |rows| => rows[i].quantity))
  {
    forall rows: seq<Row> | FullSnapshot(Bid, b.bids.levels, rows)
      ensures Volume(b.bids.levels) == Total(seq(|rows|, i requires 0 <= i < |rows| => rows[i].quantity))
    {
      VolumeOfRows(Bid, b.bids.levels, rows);
    }
    forall rows: seq<Row> | FullSnapshot(Ask, b.asks.levels, rows)
      ensures Volume(b.asks.levels) == Total(seq(|rows|, i requires 0 <= i < |rows| => rows[i].quantity))
    {
      VolumeOfRows(Ask, b.asks.levels, rows);
    }
  }

  /** Both sides of a snapshot of depth at least one. */
  ghost predicate AreSnapshots(b: Book, depth: nat, bidRows: seq<Row>, askRows: seq<Row>) {
    depth >= 1 && IsSnapshot(Bid, b.bids.levels, depth, bidRows) && IsSnapshot(Ask, b.asks.levels, depth, askRows)
  }

  /** Spread and mid price as a reader of a snapshot would compute them, in units of 10^-8; 0 with a
      side missing. */
  ghost function SpreadOf(bidRows: seq<Row>, askRows: seq<Row>): real {
    if bidRows == [] || askRows == [] then 0.0 else (askRows[0].price - bidRows[0].price) as real / 100000000.0
  }

  ghost function MidOf(bidRows: seq<Row>, askRows: seq<Row>): real {
    if bidRows == [] || askRows == [] then 0.0
    else (bidRows[0].price + askRows[0].price) as real / 200000000.0
  }

  /** What the fronts of every snapshot of depth at least one give. */
  ghost predicate SpreadAgrees(b: Book, spread: real) {
    forall depth, bidRows, askRows :: AreSnapshots(b, depth, bidRows, askRows) ==> spread == SpreadOf(bidRows, askRows)
  }

  ghost predicate MidAgrees(b: Book, mid: real) {
    forall depth, bidRows, askRows :: AreSnapshots(b, depth, bidRows, askRows) ==> mid == MidOf(bidRows, askRows)
  }

  /** The front of a snapshot side is the cached best level. */
  ghost predicate FrontIs(b: BookSide, rows: seq<Row>) {
    && (rows == [] <==> b.best == SIZE_MAX)
    && (rows != [] ==> b.best < |b.levels| && rows[0].price == b.levels[b.best].price)
  }

  lemma FrontsOf(b: Book)
    requires IsBest(Bid, b.bids.levels, |b.bids.levels|, b.bids.best)
    requires IsBest(Ask, b.asks.levels, |b.asks.levels|, b.asks.best)
    ensures forall depth, rows :: depth >= 1 && IsSnapshot(Bid, b.bids.levels, depth, rows) ==> FrontIs(b.bids, rows)
    ensures forall depth, rows :: depth >= 1 && IsSnapshot(Ask, b.asks.levels, depth, rows) ==> FrontIs(b.asks, rows)
  {
    forall depth, rows | depth >= 1 && IsSnapshot(Bid, b.bids.levels, depth, rows) ensures FrontIs(b.bids, rows) {
      FrontOf(Bid, b.bids, depth, rows);
    }
    forall depth, rows | depth >= 1 && IsSnapshot(Ask, b.asks.levels, depth, rows) ensures FrontIs(b.asks, rows) {
      FrontOf(Ask, b.asks, depth, rows);
    }
  }

  /** The cached best level is the first row of every snapshot of depth at least one. */
  lemma FrontOf(side: Side, b: BookSide, depth: nat, rows: seq<Row>)
    requires IsBest(side, b.levels, |b.levels|, b.best) && depth >= 1 && IsSnapshot(side, b.levels, depth, rows)
    ensures rows == [] <==> b.best == SIZE_MAX
    ensures rows != [] ==> b.best < |b.levels| && rows[0].price == b.levels[b.best].price
  {
    var full :| FullSnapshot(side, b.levels, full) && rows == full[..Min(depth, |full|)];
    BestIsFront(side, b.levels, b.best, full);
  }
}
