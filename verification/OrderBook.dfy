/**
 * One order book of include/core/order_book.hpp: two unsorted level arrays, a price table
 * for each, cached best indices and an update counter.  This file gives the book as a value
 * and proves what every serial run of `update_level` and `clear` keeps; OrderBookClass.dfy
 * proves that the in-place code computes exactly these values.
 */
module OrderBook {
  import opened Common
  import opened PriceIndex
  import opened Sorting

  datatype Side = Bid | Ask

  datatype Level = Level(price: nat, quantity: nat, count: nat, timestamp: nat)

  const NO_LEVEL := Level(0, 0, 0, 0)

  datatype BookSide = BookSide(levels: seq<Level>, table: Table, best: nat)

  datatype Book = Book(bids: BookSide, asks: BookSide, sequence: nat)

  function EmptySide(maxLevels: nat): BookSide {
    BookSide(seq(maxLevels, _ => NO_LEVEL), CLEARED, SIZE_MAX)
  }

  function EmptyBook(maxLevels: nat): Book {
    Book(EmptySide(maxLevels), EmptySide(maxLevels), 0)
  }

  /** find_free_slot: the first unoccupied index from `i` on, or SIZE_MAX. */
  function FreeSlot(levels: seq<Level>, i: nat := 0): (f: nat)
    requires i <= |levels| < SIZE_MAX
    ensures f == SIZE_MAX <==> forall k :: i <= k < |levels| ==> levels[k].price != 0
    ensures f != SIZE_MAX ==> i <= f < |levels| && levels[f].price == 0 && forall k :: i <= k < f ==> levels[k].price != 0
    decreases |levels| - i
  {
    if i == |levels| then SIZE_MAX else if levels[i].price == 0 then i else FreeSlot(levels, i + 1)
  }

  predicate Better(side: Side, a: int, b: int) {
    if side.Bid? then a > b else a < b
  }

  /** update_best_level: the scan over the first `n` levels. */
  function BestIndex(side: Side, levels: seq<Level>, n: nat): (b: nat)
    requires n <= |levels| < SIZE_MAX
    ensures b == SIZE_MAX || (b < n && levels[b].price != 0)
  {
    if n == 0 then SIZE_MAX
    else
      var b := BestIndex(side, levels, n - 1);
      if levels[n - 1].price != 0 && (b == SIZE_MAX || Better(side, levels[n - 1].price, levels[b].price))
      then n - 1 else b
  }

  /** Where `update_level` puts the price: its level if the table knows it, else a free slot. */
  function Target(b: BookSide, price: nat): nat
    requires |b.levels| < SIZE_MAX
  {
    match Lookup(b.table, price)
    case Some(i) => i
    case None => FreeSlot(b.levels)
  }

  /** The table after slot `idx` was used for level `l`. */
  function TableAfter(t: Table, idx: nat, l: Level): Table {
    var t' := if Lookup(t, l.price).None? then Inserted(t, l.price, idx) else t;
    if l.quantity == 0 then Removed(t', l.price) else t'
  }

  function LevelsAfter(levels: seq<Level>, idx: nat, l: Level): seq<Level>
    requires idx < |levels|
  {
    levels[idx := if l.quantity == 0 then l.(price := 0) else l]
  }

  /** The part of `update_level` that touches one side, when slot `idx` is used. */
  function Written(side: Side, b: BookSide, idx: nat, l: Level): BookSide
    requires idx < |b.levels| < SIZE_MAX
  {
    var levels := LevelsAfter(b.levels, idx, l);
    BookSide(levels, TableAfter(b.table, idx, l), BestIndex(side, levels, |levels|))
  }

  /** Whether `update_level` finds a slot. */
  predicate Accepts(b: BookSide, price: nat)
    requires |b.levels| < SIZE_MAX
  {
    Target(b, price) < |b.levels|
  }

  function Updated(side: Side, b: BookSide, l: Level): BookSide
    requires |b.levels| < SIZE_MAX
  {
    if Accepts(b, l.price) then Written(side, b, Target(b, l.price), l) else b
  }

  // ------------------------------------------- table and levels stay in step

  ghost predicate Backed(t: Table, i: nat) {
    exists j :: 0 <= j < TABLE_SIZE && Live(t, j) && t[j].index == i
  }

  /** Non-empty table entries and occupied level slots are in one-to-one correspondence with
      equal prices. */
  ghost predicate InStep(levels: seq<Level>, t: Table) {
    && (forall j :: 0 <= j < TABLE_SIZE && Live(t, j) ==>
          t[j].index < |levels| && levels[t[j].index].price == t[j].price)
    && (forall i, j :: 0 <= i < j < TABLE_SIZE && Live(t, i) && Live(t, j) ==> t[i].index != t[j].index)
    && (forall i :: 0 <= i < |levels| && levels[i].price != 0 ==> Backed(t, i))
  }

  lemma LookupInStep(levels: seq<Level>, t: Table, price: nat)
    requires InStep(levels, t) && |levels| < SIZE_MAX && price != 0
    ensures Lookup(t, price).Some? <==> Present(t, price)
    ensures Present(t, price) ==>
              var s := StopSlot(t, price);
              && Live(t, s) && t[s].price == price && Lookup(t, price).value == t[s].index
              && t[s].index < |levels| && levels[t[s].index].price == price
  {
  }

  /** By pigeonhole: while fewer level slots are taken than the table has entries, one is empty. */
  lemma FewLevelsGiveRoom(used: seq<nat>, t: Table, n: nat, price: nat)
    requires |used| == TABLE_SIZE && n < TABLE_SIZE
    requires forall j :: 0 <= j < TABLE_SIZE && Live(t, j) ==> used[j] < n
    requires forall i, j :: 0 <= i < j < TABLE_SIZE && Live(t, i) && Live(t, j) ==> used[i] != used[j]
    ensures HasRoom(t, price)
  {
    if forall j :: 0 <= j < TABLE_SIZE ==> Live(t, j) {
      DistinctBound(used, n);
      assert false;
    } else {
      var j :| 0 <= j < TABLE_SIZE && !Live(t, j);
      EmptySlotGivesRoom(t, price, j);
    }
  }

  /** While a level slot is free the table has an empty slot, so the insertion whose result
      `update_level` ignores always succeeds: there are no more levels than table entries. */
  lemma FreeLevelGivesRoom(levels: seq<Level>, t: Table, f: nat, price: nat)
    requires InStep(levels, t) && |levels| <= TABLE_SIZE && f < |levels| && levels[f].price == 0
    ensures HasRoom(t, price)
  {
    // count the levels without the free one
    var used: seq<nat> := seq(TABLE_SIZE, j requires 0 <= j < TABLE_SIZE => if t[j].index < f then t[j].index else if t[j].index > 0 then t[j].index - 1 else 0);
    forall j | 0 <= j < TABLE_SIZE && Live(t, j) ensures used[j] < |levels| - 1 && t[j].index != f {
    }
    FewLevelsGiveRoom(used, t, |levels| - 1, price);
  }

  lemma OverwriteInStep(levels: seq<Level>, t: Table, idx: nat, l: Level)
    requires InStep(levels, t) && idx < |levels| && levels[idx].price == l.price
    ensures InStep(levels[idx := l], t)
  {
  }

  lemma EraseInStep(levels: seq<Level>, t: Table, s: nat, l: Level)
    requires InStep(levels, t) && Live(t, s) && l.price == 0
    ensures t[s].index < |levels| && InStep(levels[t[s].index := l], t[s := EMPTY])
  {
    var t', levels' := t[s := EMPTY], levels[t[s].index := l];
    forall j | 0 <= j < TABLE_SIZE && Live(t', j) ensures t[j].index != t[s].index && Live(t, j) {
    }
    forall i | 0 <= i < |levels| && levels'[i].price != 0 ensures Backed(t', i) {
      assert Backed(t, i);
      var j :| 0 <= j < TABLE_SIZE && Live(t, j) && t[j].index == i;
      assert Live(t', j) && t'[j].index == i;
    }
  }

  lemma InsertInStep(levels: seq<Level>, t: Table, s: nat, f: nat, l: Level)
    requires InStep(levels, t) && s < TABLE_SIZE && !Live(t, s)
    requires f < |levels| && levels[f].price == 0 && l.price != 0
    ensures InStep(levels[f := l], t[s := Entry(l.price, f)])
  {
    var t', levels' := t[s := Entry(l.price, f)], levels[f := l];
    forall j | 0 <= j < TABLE_SIZE && Live(t, j) ensures t[j].index != f {
    }
    forall i | 0 <= i < |levels| && levels'[i].price != 0 ensures Backed(t', i) {
      if i == f {
        assert Live(t', s) && t'[s].index == i;
      } else {
        assert Backed(t, i);
        var j :| 0 <= j < TABLE_SIZE && Live(t, j) && t[j].index == i;
        assert Live(t', j) && t'[j].index == i;
      }
    }
  }

  /** What a slot that holds no price says does not matter. */
  lemma DeadSlotInStep(levels: seq<Level>, t: Table, s: nat, e: Entry)
    requires InStep(levels, t) && s < TABLE_SIZE && !Live(t, s) && e.price == 0
    ensures InStep(levels, t[s := e])
  {
    var t' := t[s := e];
    forall i | 0 <= i < |levels| && levels[i].price != 0 ensures Backed(t', i) {
      assert Backed(t, i);
      var j :| 0 <= j < TABLE_SIZE && Live(t, j) && t[j].index == i;
      assert Live(t', j) && t'[j].index == i;
    }
  }

  lemma DeadSlotIntact(t: Table, s: nat, e: Entry)
    requires Intact(t) && s < TABLE_SIZE && !Live(t, s) && e.price == 0
    ensures Intact(t[s := e])
  {
    var t' := t[s := e];
    forall j, i | 0 <= j < TABLE_SIZE && 0 <= i < TABLE_SIZE && Live(t', j) && Crosses(t', j, i) ensures Live(t', i) {
      assert Live(t, j) && Crosses(t, j, i);
    }
    forall i, j | 0 <= i < j < TABLE_SIZE && Live(t', i) && Live(t', j) ensures t'[i].price != t'[j].price {
      assert Live(t, i) && Live(t, j);
    }
  }

  /** Inserting a new price and removing it again leaves its slot cleared. */
  lemma InsertThenRemove(t: Table, price: nat, index: nat)
    requires HasRoom(t, price) && !Live(t, StopSlot(t, price))
    ensures Removed(Inserted(t, price, index), price) == t[StopSlot(t, price) := EMPTY]
  {
    var k := Probe(t, price);
    var t' := Inserted(t, price, index);
    assert At(t', price, k).price == price;
    forall i | 0 <= i < k ensures !Stops(At(t', price, i), price) {
      assert Slot(Home(price), i) != Slot(Home(price), k);
      assert At(t', price, i) == At(t, price, i);
    }
    assert Probe(t', price) == k;
  }

  /** `update_level` on a price the table knows. */
  lemma KnownPrice(side: Side, b: BookSide, l: Level)
    requires InStep(b.levels, b.table) && |b.levels| < SIZE_MAX && l.price != 0 && Present(b.table, l.price)
    ensures var s := StopSlot(b.table, l.price);
            && Accepts(b, l.price) && Live(b.table, s) && b.table[s].price == l.price
            && Target(b, l.price) == b.table[s].index && b.levels[b.table[s].index].price == l.price
    ensures var s := StopSlot(b.table, l.price); var w := Updated(side, b, l);
            && w.table == (if l.quantity == 0 then b.table[s := EMPTY] else b.table)
            && w.levels == b.levels[b.table[s].index := if l.quantity == 0 then l.(price := 0) else l]
  {
    LookupInStep(b.levels, b.table, l.price);
  }

  /** `update_level` on a price the table does not know, with a level slot free and room in the table. */
  lemma NewPriceWithRoom(side: Side, b: BookSide, l: Level)
    requires InStep(b.levels, b.table) && |b.levels| < SIZE_MAX && l.price != 0 && !Present(b.table, l.price)
    requires Accepts(b, l.price) ==> HasRoom(b.table, l.price)
    ensures Target(b, l.price) == FreeSlot(b.levels)
    ensures Accepts(b, l.price) ==>
              && b.levels[Target(b, l.price)].price == 0 && !Live(b.table, StopSlot(b.table, l.price))
              && Updated(side, b, l).table
                   == b.table[StopSlot(b.table, l.price) := if l.quantity == 0 then EMPTY else Entry(l.price, Target(b, l.price))]
              && Updated(side, b, l).levels == b.levels[Target(b, l.price) := if l.quantity == 0 then l.(price := 0) else l]
  {
    LookupInStep(b.levels, b.table, l.price);
    if Accepts(b, l.price) {
      InsertThenRemove(b.table, l.price, Target(b, l.price));
    }
  }

  /** `update_level` on a price the table does not know. */
  lemma NewPrice(side: Side, b: BookSide, l: Level)
    requires InStep(b.levels, b.table) && |b.levels| <= TABLE_SIZE && l.price != 0 && !Present(b.table, l.price)
    ensures Target(b, l.price) == FreeSlot(b.levels)
    ensures Accepts(b, l.price) ==>
              && HasRoom(b.table, l.price)
              && b.levels[Target(b, l.price)].price == 0 && !Live(b.table, StopSlot(b.table, l.price))
              && Updated(side, b, l).table
                   == b.table[StopSlot(b.table, l.price) := if l.quantity == 0 then EMPTY else Entry(l.price, Target(b, l.price))]
              && Updated(side, b, l).levels == b.levels[Target(b, l.price) := if l.quantity == 0 then l.(price := 0) else l]
  {
    LookupInStep(b.levels, b.table, l.price);
    if Accepts(b, l.price) {
      FreeLevelGivesRoom(b.levels, b.table, Target(b, l.price), l.price);
    }
    NewPriceWithRoom(side, b, l);
  }

  /** `update_level` at price 0: the slot where the probe for 0 ends holds no price, and may still
      hold the index of an earlier update at price 0. */
  lemma ZeroPrice(side: Side, b: BookSide, l: Level)
    requires InStep(b.levels, b.table) && |b.levels| <= TABLE_SIZE && l.price == 0
    ensures Accepts(b, 0) ==>
              && HasRoom(b.table, 0) && !Live(b.table, StopSlot(b.table, 0))
              && Updated(side, b, l).levels == b.levels[Target(b, 0) := l]
              && Updated(side, b, l).table
                   == b.table[StopSlot(b.table, 0) := if l.quantity == 0 then EMPTY else Entry(0, Target(b, 0))]
    ensures !Accepts(b, 0) ==> Lookup(b.table, 0).Some? || forall i :: 0 <= i < |b.levels| ==> b.levels[i].price != 0
  {
    if Accepts(b, 0) {
      if Lookup(b.table, 0).None? {
        FreeLevelGivesRoom(b.levels, b.table, Target(b, 0), 0);
        InsertThenRemove(b.table, 0, Target(b, 0));
      } else {
        assert b.table[StopSlot(b.table, 0)] == Entry(0, Target(b, 0));
      }
    }
  }

  /** The update does not go to an occupied level under price 0, the mark of a free slot. */
  predicate Harmless(b: BookSide, l: Level)
    requires |b.levels| < SIZE_MAX
  {
    l.price != 0 || !Accepts(b, 0) || b.levels[Target(b, 0)].price == 0
  }

  /** Every harmless update keeps table and levels in step, whatever deletions did before. */
  lemma UpdateInStep(side: Side, b: BookSide, l: Level)
    requires InStep(b.levels, b.table) && |b.levels| <= TABLE_SIZE && Harmless(b, l)
    ensures var w := Updated(side, b, l); InStep(w.levels, w.table) && |w.levels| == |b.levels|
  {
    if l.price == 0 {
      ZeroInStep(side, b, l);
    } else if Present(b.table, l.price) {
      KnownPrice(side, b, l);
      if l.quantity == 0 {
        EraseInStep(b.levels, b.table, StopSlot(b.table, l.price), l.(price := 0));
      } else {
        OverwriteInStep(b.levels, b.table, Target(b, l.price), l);
      }
    } else {
      NewPrice(side, b, l);
      if Accepts(b, l.price) { NewInStep(side, b, l); }
    }
  }

  lemma ZeroInStep(side: Side, b: BookSide, l: Level)
    requires InStep(b.levels, b.table) && |b.levels| <= TABLE_SIZE && l.price == 0 && Harmless(b, l)
    ensures var w := Updated(side, b, l); InStep(w.levels, w.table) && |w.levels| == |b.levels|
  {
    ZeroPrice(side, b, l);
    if Accepts(b, 0) {
      var i, s := Target(b, 0), StopSlot(b.table, 0);
      OverwriteInStep(b.levels, b.table, i, l);
      DeadSlotInStep(b.levels[i := l], b.table, s, if l.quantity == 0 then EMPTY else Entry(0, i));
    }
  }

  lemma NewInStep(side: Side, b: BookSide, l: Level)
    requires InStep(b.levels, b.table) && |b.levels| < SIZE_MAX && l.price != 0 && !Present(b.table, l.price)
    requires Accepts(b, l.price) && HasRoom(b.table, l.price)
    ensures var w := Updated(side, b, l); InStep(w.levels, w.table) && |w.levels| == |b.levels|
  {
    NewPriceWithRoom(side, b, l);
    var i, s := Target(b, l.price), StopSlot(b.table, l.price);
    if l.quantity == 0 {
      OverwriteInStep(b.levels, b.table, i, l.(price := 0));
      DeadSlotInStep(b.levels[i := l.(price := 0)], b.table, s, EMPTY);
    } else {
      InsertInStep(b.levels, b.table, s, i, l);
    }
  }

  /** Exactly the harmless updates keep table and levels in step. */
  lemma UpdateInStepIff(side: Side, b: BookSide, l: Level)
    requires InStep(b.levels, b.table) && |b.levels| <= TABLE_SIZE
    ensures var w := Updated(side, b, l); InStep(w.levels, w.table) <==> Harmless(b, l)
  {
    if Harmless(b, l) {
      UpdateInStep(side, b, l);
    } else {
      ZeroPrice(side, b, l);
      var w, i := Updated(side, b, l), Target(b, 0);
      assert Backed(b.table, i);
      var j :| 0 <= j < TABLE_SIZE && Live(b.table, j) && b.table[j].index == i;
      assert Live(w.table, j) && w.levels[w.table[j].index].price != w.table[j].price;
    }
  }

  // --------------------------------------------- refinement of a plain map

  datatype Quote = Quote(quantity: nat, count: nat)

  ghost predicate Distinct(levels: seq<Level>) {
    forall i, j :: 0 <= i < j < |levels| && levels[i].price != 0 && levels[j].price != 0 ==>
      levels[i].price != levels[j].price
  }

  /** The side as a map from price to what is quoted there. */
  ghost function Quotes(levels: seq<Level>): map<nat, Quote> {
    if levels == [] then map[]
    else
      var l, m := levels[|levels| - 1], Quotes(levels[..|levels| - 1]);
      if l.price == 0 then m else m[l.price := Quote(l.quantity, l.count)]
  }

  lemma {:induction false} QuotedSomewhere(levels: seq<Level>, p: nat) returns (i: nat)
    requires p in Quotes(levels)
    ensures i < |levels| && levels[i].price == p != 0
  {
    var n := |levels| - 1;
    if levels[n].price == p && p != 0 {
      i := n;
    } else {
      i := QuotedSomewhere(levels[..n], p);
    }
  }

  /** Every occupied level is quoted, with its own quantity and count when prices are distinct. */
  lemma {:induction false} LevelQuoted(levels: seq<Level>, i: nat)
    requires i < |levels| && levels[i].price != 0
    ensures levels[i].price in Quotes(levels)
    ensures Distinct(levels) ==> Quotes(levels)[levels[i].price] == Quote(levels[i].quantity, levels[i].count)
  {
    var n := |levels| - 1;
    if i < n {
      LevelQuoted(levels[..n], i);
      assert Distinct(levels) ==> Distinct(levels[..n]);
    }
  }

  lemma IntactMeansDistinct(levels: seq<Level>, t: Table)
    requires InStep(levels, t) && Intact(t)
    ensures Distinct(levels)
  {
    forall i, j | 0 <= i < j < |levels| && levels[i].price != 0 && levels[j].price != 0
      ensures levels[i].price != levels[j].price
    {
      assert Backed(t, i) && Backed(t, j);
      var a :| 0 <= a < TABLE_SIZE && Live(t, a) && t[a].index == i;
      var c :| 0 <= c < TABLE_SIZE && Live(t, c) && t[c].index == j;
      assert a != c;
    }
  }

  /** What `find` finds is quoted. */
  lemma PresentIsQuoted(levels: seq<Level>, t: Table, price: nat)
    requires InStep(levels, t) && |levels| < SIZE_MAX && price != 0 && Present(t, price)
    ensures price in Quotes(levels)
  {
    LookupInStep(levels, t, price);
    LevelQuoted(levels, t[StopSlot(t, price)].index);
  }

  /** On an intact table `find` succeeds exactly for the quoted prices. */
  lemma PresentMeansQuoted(levels: seq<Level>, t: Table, price: nat)
    requires InStep(levels, t) && |levels| < SIZE_MAX && Intact(t) && price != 0
    ensures Present(t, price) <==> price in Quotes(levels)
  {
    if Present(t, price) { PresentIsQuoted(levels, t, price); }
    if price in Quotes(levels) {
      var i := QuotedSomewhere(levels, price);
      assert Backed(t, i);
      var j :| 0 <= j < TABLE_SIZE && Live(t, j) && t[j].index == i;
      ProbeFindsLive(t, j);
    }
  }

  /** Writing a level whose price is its own or not quoted elsewhere updates the map. */
  lemma {:induction false} QuotesPut(levels: seq<Level>, i: nat, l: Level)
    requires i < |levels| && l.price != 0 && (levels[i].price == l.price || levels[i].price == 0)
    requires forall k :: 0 <= k < |levels| && k != i ==> levels[k].price != l.price
    ensures Quotes(levels[i := l]) == Quotes(levels)[l.price := Quote(l.quantity, l.count)]
  {
    var n := |levels| - 1;
    if i == n {
      assert levels[i := l][..n] == levels[..n];
    } else {
      assert levels[i := l][..n] == levels[..n][i := l];
      QuotesPut(levels[..n], i, l);
    }
  }

  lemma {:induction false} QuotesErase(levels: seq<Level>, i: nat, l: Level)
    requires Distinct(levels) && i < |levels| && l.price == 0
    ensures Quotes(levels[i := l]) == Quotes(levels) - {levels[i].price}
  {
    var n := |levels| - 1;
    var init := levels[..n];
    if i == n {
      assert levels[i := l][..n] == init;
      if levels[n].price in Quotes(init) {
        var k := QuotedSomewhere(init, levels[n].price);
      }
    } else {
      assert levels[i := l][..n] == init[i := l];
      QuotesErase(init, i, l);
      if levels[n].price != 0 {
        assert levels[i].price != levels[n].price;
      }
    }
  }

  /** Deleting this price from the side cuts nobody's probe path. */
  ghost predicate SafeUpdate(b: BookSide, l: Level) {
    l.price != 0 && l.quantity == 0 && Present(b.table, l.price) ==> SafeToRemove(b.table, l.price)
  }

  ghost predicate Sound(b: BookSide) {
    |b.levels| <= TABLE_SIZE && InStep(b.levels, b.table) && Intact(b.table)
  }

  lemma UpdateIntact(side: Side, b: BookSide, l: Level)
    requires Sound(b) && Harmless(b, l) && SafeUpdate(b, l)
    ensures Sound(Updated(side, b, l))
  {
    UpdateInStep(side, b, l);
    if l.price == 0 {
      ZeroPrice(side, b, l);
      if Accepts(b, 0) { DeadSlotIntact(b.table, StopSlot(b.table, 0), if l.quantity == 0 then EMPTY else Entry(0, Target(b, 0))); }
    } else if Present(b.table, l.price) {
      KnownPrice(side, b, l);
      RemoveKeepsIntactIff(b.table, l.price);
    } else {
      NewPrice(side, b, l);
      if Accepts(b, l.price) {
        if l.quantity == 0 {
          DeadSlotIntact(b.table, StopSlot(b.table, l.price), EMPTY);
        } else {
          InsertKeepsIntact(b.table, l.price, Target(b, l.price));
        }
      }
    }
  }

  /** The update on the plain map. */
  ghost function QuotesUpdated(m: map<nat, Quote>, l: Level): map<nat, Quote> {
    if l.quantity == 0 then m - {l.price} else m[l.price := Quote(l.quantity, l.count)]
  }

  lemma NoZeroQuote(levels: seq<Level>)
    ensures 0 !in Quotes(levels)
  {
    if 0 in Quotes(levels) {
      var i := QuotedSomewhere(levels, 0);
    }
  }

  lemma QuotesOverwriteFree(levels: seq<Level>, i: nat, l: Level)
    requires i < |levels| && levels[i].price == 0 && l.price == 0 && Distinct(levels)
    ensures Quotes(levels[i := l]) == Quotes(levels)
  {
    QuotesErase(levels, i, l);
    NoZeroQuote(levels);
  }

  /** Overwriting a level under its own price, or clearing it, is the update on the map. */
  lemma QuotesOverwrite(levels: seq<Level>, i: nat, l: Level)
    requires Distinct(levels) && i < |levels| && levels[i].price == l.price != 0
    ensures Quotes(levels[i := if l.quantity == 0 then l.(price := 0) else l]) == QuotesUpdated(Quotes(levels), l)
  {
    if l.quantity == 0 { QuotesErase(levels, i, l.(price := 0)); } else { QuotesPut(levels, i, l); }
  }

  /** A free slot takes a price quoted nowhere, or stays free. */
  lemma QuotesFill(levels: seq<Level>, i: nat, l: Level)
    requires Distinct(levels) && i < |levels| && levels[i].price == 0 && l.price != 0 && l.price !in Quotes(levels)
    ensures Quotes(levels[i := if l.quantity == 0 then l.(price := 0) else l]) == QuotesUpdated(Quotes(levels), l)
  {
    if l.quantity == 0 {
      QuotesOverwriteFree(levels, i, l.(price := 0));
    } else {
      Unquoted(levels, l.price);
      QuotesPut(levels, i, l);
    }
  }

  lemma Unquoted(levels: seq<Level>, price: nat)
    requires price != 0 && price !in Quotes(levels)
    ensures forall k :: 0 <= k < |levels| ==> levels[k].price != price
  {
    forall k | 0 <= k < |levels| ensures levels[k].price != price {
      if levels[k].price == price { LevelQuoted(levels, k); }
    }
  }

  /** All slots taken means as many quotes as slots. */
  lemma {:induction false} FullMeansCount(levels: seq<Level>)
    requires Distinct(levels)
    ensures |Quotes(levels)| <= |levels|
    ensures (forall i :: 0 <= i < |levels| ==> levels[i].price != 0) <==> |Quotes(levels)| == |levels|
  {
    if levels != [] {
      var n := |levels| - 1;
      var init, l := levels[..n], levels[n];
      FullMeansCount(init);
      assert forall i :: 0 <= i < n ==> levels[i] == init[i];
      if l.price != 0 && l.price in Quotes(init) {
        var k := QuotedSomewhere(init, l.price);
      }
    }
  }

  // ------------------------------------------ exactly when an update refines the map

  /** The side is the map: in step, no price twice, and the same quotes. */
  ghost predicate Mirrors(b: BookSide, m: map<nat, Quote>) {
    |b.levels| <= TABLE_SIZE && InStep(b.levels, b.table) && Distinct(b.levels) && Quotes(b.levels) == m
  }

  /** One side of the reference book: a plain map with room for `maxLevels` prices. */
  ghost predicate RefAccepts(m: map<nat, Quote>, price: nat, maxLevels: nat) {
    price in m || |m| < maxLevels
  }

  ghost function RefUpdated(m: map<nat, Quote>, l: Level, maxLevels: nat): map<nat, Quote> {
    if RefAccepts(m, l.price, maxLevels) then QuotesUpdated(m, l) else m
  }

  /** A quoted price is found; and an update at price 0 is refused, or is a deletion that goes to a
      free level. */
  ghost predicate Faithful(b: BookSide, l: Level)
    requires |b.levels| < SIZE_MAX
  {
    if l.price == 0 then !Accepts(b, 0) || (l.quantity == 0 && b.levels[Target(b, 0)].price == 0)
    else l.price in Quotes(b.levels) ==> Present(b.table, l.price)
  }

  /** The update does what the reference does, and answers the same. */
  ghost predicate UpdateMirrors(side: Side, b: BookSide, m: map<nat, Quote>, l: Level)
    requires |b.levels| < SIZE_MAX
  {
    && Mirrors(Updated(side, b, l), RefUpdated(m, l, |b.levels|))
    && (Accepts(b, l.price) <==> RefAccepts(m, l.price, |b.levels|))
  }

  lemma FreeMeansRoom(levels: seq<Level>)
    requires Distinct(levels) && |levels| < SIZE_MAX
    ensures FreeSlot(levels) != SIZE_MAX <==> |Quotes(levels)| < |levels|
  {
    FullMeansCount(levels);
  }

  lemma KnownMirrors(side: Side, b: BookSide, m: map<nat, Quote>, l: Level)
    requires Mirrors(b, m) && l.price != 0 && Present(b.table, l.price)
    ensures UpdateMirrors(side, b, m, l)
  {
    UpdateInStep(side, b, l);
    KnownPrice(side, b, l);
    PresentIsQuoted(b.levels, b.table, l.price);
    QuotesOverwrite(b.levels, Target(b, l.price), l);
  }

  lemma NewMirrors(side: Side, b: BookSide, m: map<nat, Quote>, l: Level)
    requires Mirrors(b, m) && l.price != 0 && l.price !in m
    ensures UpdateMirrors(side, b, m, l)
  {
    if Present(b.table, l.price) { PresentIsQuoted(b.levels, b.table, l.price); }
    UpdateInStep(side, b, l);
    NewPrice(side, b, l);
    FreeMeansRoom(b.levels);
    Unquoted(b.levels, l.price);
    if Accepts(b, l.price) { QuotesFill(b.levels, Target(b, l.price), l); }
  }

  lemma ZeroRefused(side: Side, b: BookSide, m: map<nat, Quote>, l: Level)
    requires Mirrors(b, m) && InRange(b.levels, b.table) && l.price == 0 && !Accepts(b, 0)
    ensures UpdateMirrors(side, b, m, l)
  {
    TargetInRange(b, 0);
    NoZeroQuote(b.levels);
    FreeMeansRoom(b.levels);
  }

  lemma ZeroDeleted(side: Side, b: BookSide, m: map<nat, Quote>, l: Level)
    requires Mirrors(b, m) && l.price == 0 && l.quantity == 0 && Accepts(b, 0) && b.levels[Target(b, 0)].price == 0
    ensures UpdateMirrors(side, b, m, l)
  {
    ZeroInStep(side, b, l);
    ZeroPrice(side, b, l);
    ZeroDeletedQuotes(b.levels, Target(b, 0), l);
  }

  lemma ZeroDeletedQuotes(levels: seq<Level>, i: nat, l: Level)
    requires Distinct(levels) && |levels| < SIZE_MAX && i < |levels| && levels[i].price == 0 && l.price == 0 && l.quantity == 0
    ensures Distinct(levels[i := l]) && Quotes(levels[i := l]) == Quotes(levels) == QuotesUpdated(Quotes(levels), l)
    ensures |Quotes(levels)| < |levels|
  {
    QuotesOverwriteFree(levels, i, l);
    NoZeroQuote(levels);
    FullMeansCount(levels);
  }

  lemma FaithfulMirrors(side: Side, b: BookSide, m: map<nat, Quote>, l: Level)
    requires Mirrors(b, m) && InRange(b.levels, b.table) && Faithful(b, l)
    ensures UpdateMirrors(side, b, m, l)
  {
    if l.price == 0 {
      if Accepts(b, 0) { ZeroDeleted(side, b, m, l); } else { ZeroRefused(side, b, m, l); }
    } else if Present(b.table, l.price) {
      KnownMirrors(side, b, m, l);
    } else {
      NewMirrors(side, b, m, l);
    }
  }

  /** A quoted price that is not found: the update opens a second level, or deletes nothing, or is
      refused where the reference accepts. */
  lemma HiddenBreaks(side: Side, b: BookSide, m: map<nat, Quote>, l: Level)
    requires Mirrors(b, m) && l.price != 0 && l.price in m && !Present(b.table, l.price)
    ensures !UpdateMirrors(side, b, m, l)
  {
    NewPrice(side, b, l);
    if Accepts(b, l.price) {
      var i := QuotedSomewhere(b.levels, l.price);
      var f := Target(b, l.price);
      var w := Updated(side, b, l);
      if l.quantity == 0 {
        QuotesOverwriteFree(b.levels, f, l.(price := 0));
      } else {
        assert w.levels[i].price == l.price == w.levels[f].price && i != f;
      }
    }
  }

  lemma ZeroBreaks(side: Side, b: BookSide, m: map<nat, Quote>, l: Level)
    requires Mirrors(b, m) && l.price == 0 && !Faithful(b, l)
    ensures !UpdateMirrors(side, b, m, l)
  {
    UpdateInStepIff(side, b, l);
    FreeMeansRoom(b.levels);
    NoZeroQuote(Updated(side, b, l).levels);
  }

  /** Exactly the faithful updates do on the side what the reference does on the map. */
  lemma UpdateMirrorsIff(side: Side, b: BookSide, m: map<nat, Quote>, l: Level)
    requires Mirrors(b, m) && InRange(b.levels, b.table)
    ensures UpdateMirrors(side, b, m, l) <==> Faithful(b, l)
  {
    if Faithful(b, l) {
      FaithfulMirrors(side, b, m, l);
    } else if l.price == 0 {
      ZeroBreaks(side, b, m, l);
    } else {
      HiddenBreaks(side, b, m, l);
    }
  }

  /** On a sound side every update at another price than 0 is faithful. */
  lemma SoundIsFaithful(b: BookSide, l: Level)
    requires Sound(b) && l.price != 0
    ensures Faithful(b, l)
  {
    PresentMeansQuoted(b.levels, b.table, l.price);
  }

  // ------------------------------------------ an unsafe deletion hides a price

  /** If a deletion is not safe, some other quoted price `q` can no longer be found, and the next
      update of `q` opens a second level for it. */
  lemma UnsafeDeleteDuplicates(side: Side, b: BookSide, gone: Level) returns (q: nat, i: nat, k: nat)
    requires Sound(b) && gone.price != 0 && gone.quantity == 0 && !SafeUpdate(b, gone)
    ensures q in Quotes(b.levels) && q != gone.price
    ensures !Present(Updated(side, b, gone).table, q)
    ensures forall l: Level :: l.price == q && l.quantity != 0 ==>
              var after := Updated(side, Updated(side, b, gone), l);
              i < |after.levels| && k < |after.levels| && i != k && after.levels[i].price == q == after.levels[k].price
  {
    KnownPrice(side, b, gone);
    var t, s := b.table, StopSlot(b.table, gone.price);
    var j :| 0 <= j < TABLE_SIZE && j != s && Live(t, j) && Crosses(t, j, s);
    q, i := t[j].price, t[j].index;
    LevelQuoted(b.levels, i);
    CutProbe(t, j, s);
    var b' := Updated(side, b, gone);
    UpdateInStep(side, b, gone);
    k := FreeSlot(b'.levels);
    assert b'.levels[t[s].index].price == 0;
    assert b'.levels[i].price == q;
    forall l: Level | l.price == q && l.quantity != 0
      ensures var after := Updated(side, b', l);
              i < |after.levels| && k < |after.levels| && i != k && after.levels[i].price == q == after.levels[k].price
    {
      NewPrice(side, b', l);
    }
  }

  /** Clearing a slot on the path of entry `j` makes the probe for it stop there. */
  lemma CutProbe(t: Table, j: nat, s: nat)
    requires Intact(t) && Live(t, j) && s < TABLE_SIZE && s != j && Crosses(t, j, s)
    ensures !Present(t[s := EMPTY], t[j].price)
  {
    var t', p, h := t[s := EMPTY], t[j].price, Home(t[j].price);
    var k := Dist(h, s);
    assert At(t', p, k) == EMPTY;
    forall i | 0 <= i < k ensures !Stops(At(t', p, i), p) {
      var x := Slot(h, i);
      assert Dist(h, x) == i && Crosses(t, j, x);
      assert Live(t, x);
    }
    assert Probe(t', p) == k;
  }

  // ----------------------------------------------------------- best levels

  /** The cached index points at a greatest bid or least ask, or is SIZE_MAX on an empty side. */
  ghost predicate IsBest(side: Side, levels: seq<Level>, n: nat, best: nat)
    requires n <= |levels|
  {
    && (best == SIZE_MAX <==> forall i :: 0 <= i < n ==> levels[i].price == 0)
    && (best != SIZE_MAX ==>
          && best < n && levels[best].price != 0
          && forall i :: 0 <= i < n && levels[i].price != 0 ==>
               if side.Bid? then levels[i].price <= levels[best].price else levels[best].price <= levels[i].price)
  }

  lemma {:induction false} BestIndexIsBest(side: Side, levels: seq<Level>, n: nat)
    requires n <= |levels| < SIZE_MAX
    ensures IsBest(side, levels, n, BestIndex(side, levels, n))
  {
    if n > 0 {
      BestIndexIsBest(side, levels, n - 1);
    }
  }

  // ------------------------------------------------------------ serial runs

  datatype Op = Update(side: Side, level: Level) | Clear

  function SideOf(b: Book, side: Side): BookSide {
    if side.Bid? then b.bids else b.asks
  }

  predicate Sized(b: Book, maxLevels: nat) {
    |b.bids.levels| == |b.asks.levels| == maxLevels
  }

  /** The value returned by the call (`clear` returns nothing). */
  predicate Returns(b: Book, op: Op)
    requires |SideOf(b, Bid).levels| < SIZE_MAX && |SideOf(b, Ask).levels| < SIZE_MAX
  {
    op.Update? && Accepts(SideOf(b, op.side), op.level.price)
  }

  /** One call of `update_level` or `clear`. */
  function Apply(b: Book, op: Op): Book
    requires |SideOf(b, Bid).levels| < SIZE_MAX && |SideOf(b, Ask).levels| < SIZE_MAX
  {
    match op
    case Clear => Book(EmptySide(|b.bids.levels|), EmptySide(|b.asks.levels|), b.sequence)
    case Update(side, l) =>
      var w := Updated(side, SideOf(b, side), l);
      var n := Count(b.sequence, Returns(b, op));
      if side.Bid? then Book(w, b.asks, n) else Book(b.bids, w, n)
  }

  /** The 64-bit counter after a call that answered `yes` or not. */
  function Count(n: nat, yes: bool): nat {
    if yes then (n + 1) % WORD else n
  }

  /** What the call does to one side. */
  function ApplySide(side: Side, b: BookSide, op: Op): BookSide
    requires |b.levels| < SIZE_MAX
  {
    match op
    case Clear => EmptySide(|b.levels|)
    case Update(s, l) => if s == side then Updated(side, b, l) else b
  }

  lemma ApplyBySide(b: Book, op: Op, side: Side)
    requires |b.bids.levels| < SIZE_MAX && |b.asks.levels| < SIZE_MAX
    ensures SideOf(Apply(b, op), side) == ApplySide(side, SideOf(b, side), op)
  {
  }

  /** What every serial run keeps on a side, whatever the prices. */
  ghost predicate SideValid(side: Side, b: BookSide, maxLevels: nat) {
    |b.levels| == maxLevels < SIZE_MAX && InRange(b.levels, b.table) && IsBest(side, b.levels, |b.levels|, b.best)
  }

  /** Every index the table can answer is one of a level. */
  ghost predicate InRange(levels: seq<Level>, t: Table) {
    forall j :: 0 <= j < TABLE_SIZE ==> t[j].index < |levels| || t[j].index == SIZE_MAX
  }

  lemma EmptySideOk(side: Side, maxLevels: nat)
    requires maxLevels < SIZE_MAX
    ensures SideValid(side, EmptySide(maxLevels), maxLevels)
    ensures InStep(EmptySide(maxLevels).levels, CLEARED) && Intact(CLEARED)
  {
  }

  /** The slot chosen for a price is a level's or none, so the unchecked store stays in bounds. */
  lemma TargetInRange(b: BookSide, price: nat)
    requires |b.levels| < SIZE_MAX && InRange(b.levels, b.table)
    ensures Target(b, price) == SIZE_MAX || Accepts(b, price)
  {
  }

  lemma UpdateSideValid(side: Side, b: BookSide, l: Level, maxLevels: nat)
    requires SideValid(side, b, maxLevels)
    ensures SideValid(side, Updated(side, b, l), maxLevels)
  {
    var w := Updated(side, b, l);
    BestIndexIsBest(side, w.levels, |w.levels|);
  }

  lemma ApplySideValid(side: Side, b: BookSide, op: Op, maxLevels: nat)
    requires SideValid(side, b, maxLevels)
    ensures SideValid(side, ApplySide(side, b, op), maxLevels)
  {
    match op
    case Clear => EmptySideOk(side, maxLevels);
    case Update(s, l) =>
      if s == side { UpdateSideValid(side, b, l, maxLevels); }
  }

  /** The call, if it is an update of this side, is harmless. */
  ghost predicate HarmlessOp(side: Side, b: BookSide, op: Op) {
    op.Update? && op.side == side ==> |b.levels| < SIZE_MAX && Harmless(b, op.level)
  }

  lemma ApplyInStepIff(side: Side, b: BookSide, op: Op)
    requires InStep(b.levels, b.table) && |b.levels| <= TABLE_SIZE
    ensures var w := ApplySide(side, b, op); InStep(w.levels, w.table) <==> HarmlessOp(side, b, op)
  {
    match op
    case Clear => EmptySideOk(side, |b.levels|);
    case Update(s, l) =>
      if s == side { UpdateInStepIff(side, b, l); }
  }

  /** A serial run from the empty book. */
  ghost predicate IsRun(run: seq<Book>, ops: seq<Op>, maxLevels: nat) {
    && |run| == |ops| + 1 && run[0] == EmptyBook(maxLevels) && maxLevels < SIZE_MAX
    && (forall i :: 0 <= i < |run| ==> Sized(run[i], maxLevels))
    && (forall i :: 0 <= i < |ops| ==> run[i + 1] == Apply(run[i], ops[i]))
  }

  lemma RunStep(run: seq<Book>, ops: seq<Op>, maxLevels: nat, side: Side, k: nat)
    requires IsRun(run, ops, maxLevels) && k < |ops|
    ensures |SideOf(run[k], side).levels| == maxLevels
    ensures SideOf(run[k + 1], side) == ApplySide(side, SideOf(run[k], side), ops[k])
  {
    ApplyBySide(run[k], ops[k], side);
  }

  /** On every serial run, whatever the prices, the cached best indices are right and the table
      only ever answers indices of levels. */
  lemma {:induction false} RunValid(run: seq<Book>, ops: seq<Op>, maxLevels: nat, side: Side, k: nat)
    requires IsRun(run, ops, maxLevels) && k < |run|
    ensures SideValid(side, SideOf(run[k], side), maxLevels)
  {
    if k == 0 {
      EmptySideOk(side, maxLevels);
    } else {
      RunValid(run, ops, maxLevels, side, k - 1);
      RunStep(run, ops, maxLevels, side, k - 1);
      ApplySideValid(side, SideOf(run[k - 1], side), ops[k - 1], maxLevels);
    }
  }

  /** At every point of every serial run the cached best bid is a greatest of the occupied bids, the
      cached best ask a least of the occupied asks, and there is none exactly on an empty side. */
  lemma RunBestPrices(run: seq<Book>, ops: seq<Op>, maxLevels: nat, k: nat)
    requires IsRun(run, ops, maxLevels) && k < |run|
    ensures var bids, best := run[k].bids.levels, run[k].bids.best;
            && (best < |bids| <==> exists i :: 0 <= i < |bids| && bids[i].price != 0)
            && (best < |bids| ==> bids[best].price != 0)
            && (best < |bids| ==> forall i :: 0 <= i < |bids| ==> bids[best].price >= bids[i].price)
    ensures var asks, best := run[k].asks.levels, run[k].asks.best;
            && (best < |asks| <==> exists i :: 0 <= i < |asks| && asks[i].price != 0)
            && (best < |asks| ==> asks[best].price != 0)
            && (best < |asks| ==> forall i :: 0 <= i < |asks| && asks[i].price != 0 ==> asks[best].price <= asks[i].price)
  {
    RunValid(run, ops, maxLevels, Bid, k);
    RunValid(run, ops, maxLevels, Ask, k);
  }

  ghost predicate SideInStep(b: BookSide) {
    InStep(b.levels, b.table)
  }

  /** Harmless updates keep table and levels in one-to-one correspondence, even after deletions
      cut probe paths. */
  lemma {:induction false} RunInStep(run: seq<Book>, ops: seq<Op>, maxLevels: nat, side: Side, k: nat)
    requires IsRun(run, ops, maxLevels) && maxLevels <= TABLE_SIZE && k < |run|
    requires forall i :: 0 <= i < k ==> HarmlessOp(side, SideOf(run[i], side), ops[i])
    ensures SideInStep(SideOf(run[k], side))
  {
    if k == 0 {
      EmptySideOk(side, maxLevels);
    } else {
      RunInStep(run, ops, maxLevels, side, k - 1);
      RunStep(run, ops, maxLevels, side, k - 1);
      ApplyInStepIff(side, SideOf(run[k - 1], side), ops[k - 1]);
    }
  }

  /** The correspondence holds all along a serial run if and only if all its updates are harmless. */
  lemma RunInStepIff(run: seq<Book>, ops: seq<Op>, maxLevels: nat, side: Side)
    requires IsRun(run, ops, maxLevels) && maxLevels <= TABLE_SIZE
    ensures (forall k :: 0 <= k < |run| ==> SideInStep(SideOf(run[k], side)))
            <==> (forall i :: 0 <= i < |ops| ==> HarmlessOp(side, SideOf(run[i], side), ops[i]))
  {
    if forall i :: 0 <= i < |ops| ==> HarmlessOp(side, SideOf(run[i], side), ops[i]) {
      forall k | 0 <= k < |run| ensures SideInStep(SideOf(run[k], side)) {
        RunInStep(run, ops, maxLevels, side, k);
      }
    }
    if forall k :: 0 <= k < |run| ==> SideInStep(SideOf(run[k], side)) {
      forall i | 0 <= i < |ops| ensures HarmlessOp(side, SideOf(run[i], side), ops[i]) {
        RunStep(run, ops, maxLevels, side, i);
        assert SideInStep(SideOf(run[i], side)) && SideInStep(SideOf(run[i + 1], side));
        ApplyInStepIff(side, SideOf(run[i], side), ops[i]);
      }
    }
  }

  function Trues(answers: seq<bool>): nat {
    if answers == [] then 0
    else Trues(answers[..|answers| - 1]) + (if answers[|answers| - 1] then 1 else 0)
  }

  /** What the calls of a run answered. */
  function Answers(run: seq<Book>, ops: seq<Op>, maxLevels: nat): seq<bool>
    requires |ops| < |run| && maxLevels < SIZE_MAX && forall i :: 0 <= i < |run| ==> Sized(run[i], maxLevels)
  {
    seq(|ops|, i requires 0 <= i < |ops| => assert Sized(run[i], maxLevels); Returns(run[i], ops[i]))
  }

  lemma {:induction false} CountTrues(counts: seq<nat>, answers: seq<bool>, k: nat)
    requires |counts| == |answers| + 1 && counts[0] == 0 && k < |counts|
    requires forall i :: 0 <= i < |answers| ==> counts[i + 1] == Count(counts[i], answers[i])
    ensures counts[k] == Trues(answers[..k]) % WORD
  {
    if k > 0 {
      CountTrues(counts, answers, k - 1);
      assert answers[..k][..k - 1] == answers[..k - 1];
      assert answers[k - 1] == answers[..k][k - 1];
    }
  }

  /** `sequence_number_` counts the true answers, modulo 2^64. */
  lemma SequenceCounts(run: seq<Book>, ops: seq<Op>, maxLevels: nat, k: nat)
    requires IsRun(run, ops, maxLevels) && k < |run|
    ensures run[k].sequence == Trues(Answers(run, ops, maxLevels)[..k]) % WORD
  {
    var counts := seq(|run|, i requires 0 <= i < |run| => run[i].sequence);
    var answers := Answers(run, ops, maxLevels);
    forall i | 0 <= i < |answers| ensures counts[i + 1] == Count(counts[i], answers[i]) {
      assert run[i + 1] == Apply(run[i], ops[i]);
    }
    CountTrues(counts, answers, k);
  }

  // ------------------------------------- refinement of the reference book by a run

  ghost function RefApply(m: map<nat, Quote>, side: Side, op: Op, maxLevels: nat): map<nat, Quote> {
    match op
    case Clear => map[]
    case Update(s, l) => if s == side then RefUpdated(m, l, maxLevels) else m
  }

  ghost function RefRun(ops: seq<Op>, side: Side, maxLevels: nat): map<nat, Quote> {
    if ops == [] then map[]
    else RefApply(RefRun(ops[..|ops| - 1], side, maxLevels), side, ops[|ops| - 1], maxLevels)
  }

  lemma {:induction false} EmptyQuotes(maxLevels: nat)
    ensures Quotes(EmptySide(maxLevels).levels) == map[]
  {
    if maxLevels > 0 {
      EmptyQuotes(maxLevels - 1);
      assert EmptySide(maxLevels).levels[..maxLevels - 1] == EmptySide(maxLevels - 1).levels;
    }
  }

  lemma EmptyMirrors(side: Side, maxLevels: nat)
    requires maxLevels <= TABLE_SIZE
    ensures Mirrors(EmptySide(maxLevels), map[])
  {
    EmptySideOk(side, maxLevels);
    EmptyQuotes(maxLevels);
  }

  /** The call, if it is an update of this side, is faithful. */
  ghost predicate FaithfulOp(side: Side, b: BookSide, op: Op) {
    op.Update? && op.side == side ==> |b.levels| < SIZE_MAX && Faithful(b, op.level)
  }

  /** What the call does to the side is what the reference does to the map, with the same answer. */
  ghost predicate ApplyMirrors(side: Side, b: BookSide, m: map<nat, Quote>, op: Op)
    requires |b.levels| < SIZE_MAX
  {
    && Mirrors(ApplySide(side, b, op), RefApply(m, side, op, |b.levels|))
    && (op.Update? && op.side == side ==> (Accepts(b, op.level.price) <==> RefAccepts(m, op.level.price, |b.levels|)))
  }

  lemma ApplyMirrorsIff(side: Side, b: BookSide, m: map<nat, Quote>, op: Op)
    requires Mirrors(b, m) && InRange(b.levels, b.table)
    ensures ApplyMirrors(side, b, m, op) <==> FaithfulOp(side, b, op)
  {
    match op
    case Clear => EmptyMirrors(side, |b.levels|);
    case Update(s, l) => if s == side { UpdateMirrorsIff(side, b, m, l); }
  }

  /** At point `k` of the run the side is the reference map, and the next call answers what the
      reference answers. */
  ghost predicate RefinesAt(run: seq<Book>, ops: seq<Op>, maxLevels: nat, side: Side, k: nat)
    requires IsRun(run, ops, maxLevels) && k < |run|
  {
    && Mirrors(SideOf(run[k], side), RefRun(ops[..k], side, maxLevels))
    && (k < |ops| && ops[k].Update? && ops[k].side == side ==>
          (Returns(run[k], ops[k]) <==> RefAccepts(RefRun(ops[..k], side, maxLevels), ops[k].level.price, maxLevels)))
  }

  lemma RefRunStep(ops: seq<Op>, side: Side, maxLevels: nat, k: nat)
    requires k < |ops|
    ensures RefRun(ops[..k + 1], side, maxLevels) == RefApply(RefRun(ops[..k], side, maxLevels), side, ops[k], maxLevels)
  {
    assert ops[..k + 1][..k] == ops[..k];
  }

  lemma {:induction false} RunMirrors(run: seq<Book>, ops: seq<Op>, maxLevels: nat, side: Side, k: nat)
    requires IsRun(run, ops, maxLevels) && maxLevels <= TABLE_SIZE && k < |run|
    requires forall i :: 0 <= i < k ==> FaithfulOp(side, SideOf(run[i], side), ops[i])
    ensures Mirrors(SideOf(run[k], side), RefRun(ops[..k], side, maxLevels))
  {
    if k == 0 {
      EmptyMirrors(side, maxLevels);
    } else {
      RunMirrors(run, ops, maxLevels, side, k - 1);
      RunValid(run, ops, maxLevels, side, k - 1);
      RunStep(run, ops, maxLevels, side, k - 1);
      RefRunStep(ops, side, maxLevels, k - 1);
      ApplyMirrorsIff(side, SideOf(run[k - 1], side), RefRun(ops[..k - 1], side, maxLevels), ops[k - 1]);
    }
  }

  /** Full refinement on every serial run whose updates of a side are faithful when they happen: at
      every point that side is the reference map, and `update_level` answers what the reference
      answers. */
  lemma RunRefines(run: seq<Book>, ops: seq<Op>, maxLevels: nat, side: Side, k: nat)
    requires IsRun(run, ops, maxLevels) && maxLevels <= TABLE_SIZE && k < |run|
    requires forall i :: 0 <= i < |ops| ==> FaithfulOp(side, SideOf(run[i], side), ops[i])
    ensures RefinesAt(run, ops, maxLevels, side, k)
  {
    RunMirrors(run, ops, maxLevels, side, k);
    if k < |ops| {
      RunValid(run, ops, maxLevels, side, k);
      ApplyMirrorsIff(side, SideOf(run[k], side), RefRun(ops[..k], side, maxLevels), ops[k]);
    }
  }

  /** A side refines the reference map all along a serial run if and only if every update of it is
      faithful when it happens: a quoted price is found, and price 0 is refused, or deleted from a
      free level. */
  lemma RunRefinesIff(run: seq<Book>, ops: seq<Op>, maxLevels: nat, side: Side)
    requires IsRun(run, ops, maxLevels) && maxLevels <= TABLE_SIZE
    ensures (forall k :: 0 <= k < |run| ==> RefinesAt(run, ops, maxLevels, side, k))
            <==> (forall i :: 0 <= i < |ops| ==> FaithfulOp(side, SideOf(run[i], side), ops[i]))
  {
    if forall i :: 0 <= i < |ops| ==> FaithfulOp(side, SideOf(run[i], side), ops[i]) {
      forall k | 0 <= k < |run| ensures RefinesAt(run, ops, maxLevels, side, k) {
        RunRefines(run, ops, maxLevels, side, k);
      }
    }
    if forall k :: 0 <= k < |run| ==> RefinesAt(run, ops, maxLevels, side, k) {
      forall i | 0 <= i < |ops| ensures FaithfulOp(side, SideOf(run[i], side), ops[i]) {
        assert RefinesAt(run, ops, maxLevels, side, i) && RefinesAt(run, ops, maxLevels, side, i + 1);
        RunValid(run, ops, maxLevels, side, i);
        RunStep(run, ops, maxLevels, side, i);
        RefRunStep(ops, side, maxLevels, i);
        ApplyMirrorsIff(side, SideOf(run[i], side), RefRun(ops[..i], side, maxLevels), ops[i]);
      }
    }
  }

  // ---------------------------------------------------- a table that stays searchable

  /** The call, if it is an update of this side, is harmless, and safe if it is a deletion. */
  ghost predicate SafeOp(side: Side, b: BookSide, op: Op) {
    op.Update? && op.side == side ==> |b.levels| < SIZE_MAX && Harmless(b, op.level) && SafeUpdate(b, op.level)
  }

  lemma ApplySoundIff(side: Side, b: BookSide, op: Op)
    requires Sound(b)
    ensures Sound(ApplySide(side, b, op)) <==> SafeOp(side, b, op)
  {
    ApplyInStepIff(side, b, op);
    match op
    case Clear => EmptySideOk(side, |b.levels|);
    case Update(s, l) =>
      if s == side {
        if Harmless(b, l) && SafeUpdate(b, l) { UpdateIntact(side, b, l); }
        if l.price != 0 && l.quantity == 0 && Present(b.table, l.price) {
          KnownPrice(side, b, l);
          RemoveKeepsIntactIff(b.table, l.price);
        }
      }
  }

  lemma {:induction false} RunSound(run: seq<Book>, ops: seq<Op>, maxLevels: nat, side: Side, k: nat)
    requires IsRun(run, ops, maxLevels) && maxLevels <= TABLE_SIZE && k < |run|
    requires forall i :: 0 <= i < k ==> SafeOp(side, SideOf(run[i], side), ops[i])
    ensures Sound(SideOf(run[k], side))
  {
    if k == 0 {
      EmptySideOk(side, maxLevels);
    } else {
      RunSound(run, ops, maxLevels, side, k - 1);
      RunStep(run, ops, maxLevels, side, k - 1);
      ApplySoundIff(side, SideOf(run[k - 1], side), ops[k - 1]);
    }
  }

  /** On a serial run a side stays sound throughout (table and levels in step, every quoted price
      found) if and only if every update is harmless and every deletion safe when it happens. */
  lemma RunSoundIff(run: seq<Book>, ops: seq<Op>, maxLevels: nat, side: Side)
    requires IsRun(run, ops, maxLevels) && maxLevels <= TABLE_SIZE
    ensures (forall k :: 0 <= k < |run| ==> Sound(SideOf(run[k], side)))
            <==> (forall i :: 0 <= i < |ops| ==> SafeOp(side, SideOf(run[i], side), ops[i]))
  {
    if forall i :: 0 <= i < |ops| ==> SafeOp(side, SideOf(run[i], side), ops[i]) {
      forall k | 0 <= k < |run| ensures Sound(SideOf(run[k], side)) {
        RunSound(run, ops, maxLevels, side, k);
      }
    }
    if forall k :: 0 <= k < |run| ==> Sound(SideOf(run[k], side)) {
      forall i | 0 <= i < |ops| ensures SafeOp(side, SideOf(run[i], side), ops[i]) {
        RunStep(run, ops, maxLevels, side, i);
        assert Sound(SideOf(run[i], side)) && Sound(SideOf(run[i + 1], side));
        ApplySoundIff(side, SideOf(run[i], side), ops[i]);
      }
    }
  }

  /** So a run at other prices than 0 whose deletions are safe refines the map. */
  lemma SafeRunRefines(run: seq<Book>, ops: seq<Op>, maxLevels: nat, side: Side, k: nat)
    requires IsRun(run, ops, maxLevels) && maxLevels <= TABLE_SIZE && k < |run|
    requires forall i :: 0 <= i < |ops| ==> SafeOp(side, SideOf(run[i], side), ops[i])
    requires forall i :: 0 <= i < |ops| && ops[i].Update? && ops[i].side == side ==> ops[i].level.price != 0
    ensures RefinesAt(run, ops, maxLevels, side, k)
  {
    forall i | 0 <= i < |ops| ensures FaithfulOp(side, SideOf(run[i], side), ops[i]) {
      RunSound(run, ops, maxLevels, side, i);
      if ops[i].Update? && ops[i].side == side { SoundIsFaithful(SideOf(run[i], side), ops[i].level); }
    }
    RunRefines(run, ops, maxLevels, side, k);
  }

  // ------------------------------------------------------ concrete failing runs

  /** Opening a level on a sound side. */
  lemma OpenLevel(side: Side, b: BookSide, m: map<nat, Quote>, l: Level)
    requires Sound(b) && Mirrors(b, m) && InRange(b.levels, b.table) && l.price != 0 && l.quantity != 0
    ensures Sound(Updated(side, b, l)) && UpdateMirrors(side, b, m, l)
    ensures InRange(Updated(side, b, l).levels, Updated(side, b, l).table)
  {
    UpdateIntact(side, b, l);
    SoundIsFaithful(b, l);
    FaithfulMirrors(side, b, m, l);
  }

  /** Two prices with the same home slot, one after the other in a table that was empty. */
  lemma SecondPriceCrossesFirst(side: Side, maxLevels: nat, p: Level, q: Level)
    requires 2 <= maxLevels <= TABLE_SIZE && p.price != 0 && q.price != 0 && p.quantity != 0 && q.quantity != 0
    requires p.price != q.price && p.price % TABLE_SIZE == q.price % TABLE_SIZE
    ensures var b := Updated(side, Updated(side, EmptySide(maxLevels), p), q);
            && Sound(b) && Mirrors(b, map[p.price := Quote(p.quantity, p.count), q.price := Quote(q.quantity, q.count)])
            && InRange(b.levels, b.table) && Present(b.table, p.price) && !SafeToRemove(b.table, p.price)
  {
    var b0 := EmptySide(maxLevels);
    EmptySideOk(side, maxLevels);
    EmptyMirrors(side, maxLevels);
    var h := Home(p.price);
    SameHome(p.price, q.price);
    assert At(b0.table, p.price, 0) == EMPTY;
    assert Probe(b0.table, p.price) == 0;
    OpenLevel(side, b0, map[], p);
    NewPrice(side, b0, p);
    var b1 := Updated(side, b0, p);
    assert b1.table == CLEARED[h := Entry(p.price, 0)];
    assert At(b1.table, q.price, 0).price == p.price && At(b1.table, q.price, 1) == EMPTY;
    assert Probe(b1.table, q.price) == 1;
    OpenLevel(side, b1, map[p.price := Quote(p.quantity, p.count)], q);
    NewPrice(side, b1, q);
    var b2 := Updated(side, b1, q);
    var j := Slot(h, 1);
    assert b2.table[j].price == q.price && b2.table[h].price == p.price;
    assert Probe(b2.table, p.price) == 0;
    assert Live(b2.table, j) && Crosses(b2.table, j, h);
  }

  /** The unsafe deletion itself still refines: the side shows the one price left, until that price
      is updated. */
  lemma UnsafeDeleteStillMirrors(side: Side, maxLevels: nat, p: Level, q: Level)
    requires 2 <= maxLevels <= TABLE_SIZE && p.price != 0 && q.price != 0 && p.quantity != 0 && q.quantity != 0
    requires p.price != q.price && p.price % TABLE_SIZE == q.price % TABLE_SIZE
    ensures var b := Updated(side, Updated(side, EmptySide(maxLevels), p), q);
            Mirrors(Updated(side, b, p.(quantity := 0)), map[q.price := Quote(q.quantity, q.count)])
  {
    SecondPriceCrossesFirst(side, maxLevels, p, q);
    DeleteOneOfTwo(side, Updated(side, Updated(side, EmptySide(maxLevels), p), q), p, q.price,
                   Quote(p.quantity, p.count), Quote(q.quantity, q.count));
  }

  lemma DeleteOneOfTwo(side: Side, b: BookSide, p: Level, q: nat, a: Quote, c: Quote)
    requires p.price != 0 && p.price != q && Mirrors(b, map[p.price := a, q := c]) && Present(b.table, p.price)
    ensures Mirrors(Updated(side, b, p.(quantity := 0)), map[q := c])
  {
    KnownMirrors(side, b, map[p.price := a, q := c], p.(quantity := 0));
    assert map[p.price := a, q := c] - {p.price} == map[q := c];
  }

  /** The chain-cutting run: add `p`, add `q`, delete `p`, update `q` again leaves `q` on two
      levels, for every pair of distinct prices that agree modulo the table size. */
  lemma CollidingPricesDuplicate(side: Side, maxLevels: nat, p: Level, q: Level, again: Level)
    requires 2 <= maxLevels <= TABLE_SIZE && p.price != 0 && q.price != 0 && p.quantity != 0 && q.quantity != 0
    requires p.price != q.price && p.price % TABLE_SIZE == q.price % TABLE_SIZE
    requires again.price == q.price && again.quantity != 0
    ensures var b := Updated(side, Updated(side, EmptySide(maxLevels), p), q);
            var c := Updated(side, Updated(side, b, p.(quantity := 0)), again);
            exists i, k :: 0 <= i < k < |c.levels| && c.levels[i].price == q.price == c.levels[k].price
  {
    SecondPriceCrossesFirst(side, maxLevels, p, q);
    DuplicateAfterDelete(side, Updated(side, Updated(side, EmptySide(maxLevels), p), q), p, q.price, again);
  }

  lemma DuplicateAfterDelete(side: Side, b: BookSide, p: Level, q: nat, again: Level)
    requires Sound(b) && p.price != 0 && Quotes(b.levels).Keys == {p.price, q}
    requires Present(b.table, p.price) && !SafeToRemove(b.table, p.price)
    requires again.price == q && again.quantity != 0
    ensures var c := Updated(side, Updated(side, b, p.(quantity := 0)), again);
            exists i, k :: 0 <= i < k < |c.levels| && c.levels[i].price == q == c.levels[k].price
  {
    var x, i, k := UnsafeDeleteDuplicates(side, b, p.(quantity := 0));
    assert x == q;
    var c := Updated(side, Updated(side, b, p.(quantity := 0)), again);
    assert c.levels[i].price == q == c.levels[k].price;
    if k < i {
      assert c.levels[k].price == q == c.levels[i].price;
    }
  }

  /** Why prices must not be zero: zero marks a free slot.  After an update at price 0, an update at
      another price `p` and a second one at price 0, the level of `p` is gone, undeleted. */
  lemma ZeroPriceErases(side: Side, maxLevels: nat, z: Level, p: Level)
    requires 1 <= maxLevels <= TABLE_SIZE && z.price == 0 && z.quantity != 0
    requires p.price % TABLE_SIZE != 0 && p.quantity != 0
    ensures var b := Updated(side, Updated(side, EmptySide(maxLevels), z), p);
            && b.levels[0] == p
            && Updated(side, b, z).levels == b.levels[0 := z]
  {
    var b0 := EmptySide(maxLevels);
    var h, g := Home(0), Home(p.price);
    SameHome(p.price, 0);
    assert At(b0.table, 0, 0) == EMPTY && Probe(b0.table, 0) == 0;
    var b1 := Updated(side, b0, z);
    assert b1.levels == b0.levels[0 := z];
    assert b1.table == CLEARED[h := Entry(0, 0)];
    assert At(b1.table, p.price, 0) == EMPTY && Probe(b1.table, p.price) == 0;
    var b2 := Updated(side, b1, p);
    assert b2.table[h] == Entry(0, 0);
    assert At(b2.table, 0, 0) == Entry(0, 0) && Probe(b2.table, 0) == 0;
  }

  // ------------------------------------------------- more levels than table entries

  lemma ApplySized(b: Book, op: Op, n: nat)
    requires Sized(b, n) && n < SIZE_MAX
    ensures Sized(Apply(b, op), n)
  {
  }

  lemma RunGrows(books: seq<Book>, ops: seq<Op>, n: nat, op: Op)
    requires IsRun(books, ops, n)
    ensures IsRun(books + [Apply(books[|books| - 1], op)], ops + [op], n)
  {
    ApplySized(books[|books| - 1], op, n);
  }

  /** The call asks the table to insert an unknown price, and it has room. */
  ghost predicate InsertFits(b: BookSide, price: nat)
    requires |b.levels| < SIZE_MAX
  {
    Accepts(b, price) && Lookup(b.table, price).None? ==> HasRoom(b.table, price)
  }

  /** The first `k` levels are taken, by the prices from 1 to `k`. */
  ghost predicate Filled(b: BookSide, n: nat, k: nat) {
    |b.levels| == n && k <= n < SIZE_MAX && InStep(b.levels, b.table) && LevelsFilled(b.levels, k)
  }

  lemma NotYetPresent(b: BookSide, n: nat, k: nat)
    requires Filled(b, n, k)
    ensures !Present(b.table, k + 1)
  {
    if Present(b.table, k + 1) { LookupInStep(b.levels, b.table, k + 1); }
  }

  lemma NextIsFree(b: BookSide, n: nat, k: nat)
    requires Filled(b, n, k) && k < n
    ensures FreeSlot(b.levels) == k
  {
    assert b.levels[k].price == 0;
  }

  lemma RoomWhileFilling(b: BookSide, n: nat, k: nat, price: nat)
    requires Filled(b, n, k) && k < TABLE_SIZE
    ensures HasRoom(b.table, price)
  {
    var used: seq<nat> := seq(TABLE_SIZE, j requires 0 <= j < TABLE_SIZE => b.table[j].index);
    FewLevelsGiveRoom(used, b.table, k, price);
  }

  ghost predicate LevelsFilled(levels: seq<Level>, k: nat) {
    (forall i :: 0 <= i < k && i < |levels| ==> levels[i].price == i + 1) && (forall i :: k <= i < |levels| ==> levels[i].price == 0)
  }

  lemma FillLevels(levels: seq<Level>, k: nat, l: Level)
    requires LevelsFilled(levels, k) && k < |levels| && l.price == k + 1
    ensures LevelsFilled(levels[k := l], k + 1)
  {
  }

  lemma FillOne(side: Side, b: BookSide, n: nat, k: nat)
    requires Filled(b, n, k) && k < n && k < TABLE_SIZE
    ensures Filled(Updated(side, b, Level(k + 1, 1, 0, 0)), n, k + 1)
  {
    var l := Level(k + 1, 1, 0, 0);
    NotYetPresent(b, n, k);
    NextIsFree(b, n, k);
    RoomWhileFilling(b, n, k, l.price);
    OpenNew(side, b, l);
    FillLevels(b.levels, k, l);
  }

  /** A new price with room in the table and a level free. */
  lemma OpenNew(side: Side, b: BookSide, l: Level)
    requires InStep(b.levels, b.table) && |b.levels| < SIZE_MAX && l.price != 0 && l.quantity != 0
    requires !Present(b.table, l.price) && HasRoom(b.table, l.price) && FreeSlot(b.levels) < |b.levels|
    ensures var w := Updated(side, b, l); InStep(w.levels, w.table) && w.levels == b.levels[FreeSlot(b.levels) := l]
  {
    LookupInStep(b.levels, b.table, l.price);
    NewInStep(side, b, l);
    NewPriceWithRoom(side, b, l);
  }

  /** Table slots of the first `k` levels. */
  lemma {:induction false} BackingSlots(b: BookSide, n: nat, k: nat, m: nat) returns (slots: seq<nat>)
    requires Filled(b, n, k) && m <= k
    ensures |slots| == m && forall i :: 0 <= i < m ==> slots[i] < TABLE_SIZE && Live(b.table, slots[i]) && b.table[slots[i]].index == i
  {
    if m == 0 {
      slots := [];
    } else {
      slots := BackingSlots(b, n, k, m - 1);
      assert Backed(b.table, m - 1);
      var j: nat :| j < TABLE_SIZE && Live(b.table, j) && b.table[j].index == m - 1;
      slots := slots + [j];
    }
  }

  /** With as many levels taken as the table has entries, the next insertion fails. */
  lemma FullTable(b: BookSide, n: nat)
    requires Filled(b, n, TABLE_SIZE) && TABLE_SIZE < n
    ensures !InsertFits(b, TABLE_SIZE + 1)
  {
    NotYetPresent(b, n, TABLE_SIZE);
    NextIsFree(b, n, TABLE_SIZE);
    LookupInStep(b.levels, b.table, TABLE_SIZE + 1);
    var slots := BackingSlots(b, n, TABLE_SIZE, TABLE_SIZE);
    if HasRoom(b.table, TABLE_SIZE + 1) {
      var s := StopSlot(b.table, TABLE_SIZE + 1);
      DistinctBound(slots + [s], TABLE_SIZE);
    }
  }

  /** All updates of this side are harmless when they happen. */
  ghost predicate HarmlessRun(run: seq<Book>, ops: seq<Op>, side: Side) {
    |run| == |ops| + 1 && forall i :: 0 <= i < |ops| ==> HarmlessOp(side, SideOf(run[i], side), ops[i])
  }

  lemma HarmlessGrows(run: seq<Book>, ops: seq<Op>, side: Side, b: Book, op: Op)
    requires HarmlessRun(run, ops, side) && HarmlessOp(side, SideOf(run[|run| - 1], side), op)
    ensures HarmlessRun(run + [b], ops + [op], side)
  {
  }

  /** The update that opens a bid level at price `k`. */
  function Opening(k: nat): Op {
    Op.Update(Bid, Level(k, 1, 0, 0))
  }

  lemma FillNext(b: Book, n: nat, k: nat)
    requires Sized(b, n) && n < SIZE_MAX && Filled(b.bids, n, k) && k < n && k < TABLE_SIZE
    ensures Filled(Apply(b, Opening(k + 1)).bids, n, k + 1) && HarmlessOp(Bid, SideOf(b, Bid), Opening(k + 1))
  {
    FillOne(Bid, b.bids, n, k);
  }

  lemma FillRunOneMore(run: seq<Book>, ops: seq<Op>, n: nat, k: nat) returns (run': seq<Book>, ops': seq<Op>)
    requires IsRun(run, ops, n) && |ops| == k < n && k < TABLE_SIZE && Filled(run[k].bids, n, k) && HarmlessRun(run, ops, Bid)
    ensures IsRun(run', ops', n) && |ops'| == k + 1 && Filled(run'[k + 1].bids, n, k + 1) && HarmlessRun(run', ops', Bid)
  {
    var b, op := run[k], Opening(k + 1);
    FillNext(b, n, k);
    RunGrows(run, ops, n, op);
    HarmlessGrows(run, ops, Bid, Apply(b, op), op);
    run', ops' := run + [Apply(b, op)], ops + [op];
  }

  /** A run that opens bid levels at 1, 2, 3, ... */
  lemma {:induction false} FillRun(n: nat, k: nat) returns (run: seq<Book>, ops: seq<Op>)
    requires k <= n < SIZE_MAX && k <= TABLE_SIZE
    ensures IsRun(run, ops, n) && |ops| == k && Filled(run[k].bids, n, k) && HarmlessRun(run, ops, Bid)
  {
    if k == 0 {
      run, ops := [EmptyBook(n)], [];
      EmptySideOk(Bid, n);
    } else {
      run, ops := FillRun(n, k - 1);
      run, ops := FillRunOneMore(run, ops, n, k - 1);
    }
  }

  /** Whatever price comes next, the table has room if it is asked to insert. */
  ghost predicate AllFit(b: BookSide)
    requires |b.levels| < SIZE_MAX
  {
    forall price :: InsertFits(b, price)
  }

  ghost predicate FitsAt(run: seq<Book>, n: nat, side: Side, k: nat)
    requires k < |run| && n < SIZE_MAX
  {
    Sized(run[k], n) && AllFit(SideOf(run[k], side))
  }

  ghost predicate AlwaysFits(run: seq<Book>, n: nat, side: Side)
    requires n < SIZE_MAX
  {
    forall k :: 0 <= k < |run| ==> FitsAt(run, n, side, k)
  }

  lemma SmallTableAlwaysFits(run: seq<Book>, ops: seq<Op>, n: nat, side: Side)
    requires IsRun(run, ops, n) && n <= TABLE_SIZE && HarmlessRun(run, ops, side)
    ensures AlwaysFits(run, n, side)
  {
    forall k | 0 <= k < |run| ensures FitsAt(run, n, side, k) {
      RunInStep(run, ops, n, side, k);
      SmallTableFits(SideOf(run[k], side));
    }
  }

  lemma NotAllFit(b: BookSide, price: nat)
    requires |b.levels| < SIZE_MAX && !InsertFits(b, price)
    ensures !AllFit(b)
  {
  }

  lemma DoesNotFit(run: seq<Book>, n: nat, k: nat)
    requires k < |run| && k == TABLE_SIZE < n < SIZE_MAX && Filled(run[k].bids, n, k)
    ensures !AlwaysFits(run, n, Bid)
  {
    FullTable(run[k].bids, n);
    NotAllFit(run[k].bids, TABLE_SIZE + 1);
    assert !FitsAt(run, n, Bid, k);
  }

  lemma LargeTableFails(n: nat) returns (run: seq<Book>, ops: seq<Op>)
    requires TABLE_SIZE < n < SIZE_MAX
    ensures IsRun(run, ops, n) && HarmlessRun(run, ops, Bid) && !AlwaysFits(run, n, Bid)
  {
    run, ops := FillRun(n, TABLE_SIZE);
    DoesNotFit(run, n, TABLE_SIZE);
  }

  /** The insertion whose result `update_level` ignores never fails on any run of harmless updates,
      if and only if there are no more levels than table entries. */
  lemma InsertFitsIff(n: nat)
    requires n < SIZE_MAX
    ensures n <= TABLE_SIZE <==>
            (forall run, ops :: IsRun(run, ops, n) && HarmlessRun(run, ops, Bid) ==> AlwaysFits(run, n, Bid))
  {
    if n <= TABLE_SIZE {
      forall run, ops | IsRun(run, ops, n) && HarmlessRun(run, ops, Bid) ensures AlwaysFits(run, n, Bid) {
        SmallTableAlwaysFits(run, ops, n, Bid);
      }
    } else {
      var run, ops := LargeTableFails(n);
    }
  }

  lemma SmallTableFits(b: BookSide)
    requires InStep(b.levels, b.table) && |b.levels| <= TABLE_SIZE
    ensures AllFit(b)
  {
    forall price: nat | Accepts(b, price) && Lookup(b.table, price).None? ensures HasRoom(b.table, price) {
      FreeLevelGivesRoom(b.levels, b.table, Target(b, price), price);
    }
  }

  // -------------------------------------------------------------- snapshots

  /** A row of a snapshot side. */
  datatype Row = Row(price: nat, quantity: nat, count: nat)

  function RowOf(l: Level): Row {
    Row(l.price, l.quantity, l.count)
  }

  /** The occupied levels in slot order. */
  function Rows(levels: seq<Level>): seq<Row> {
    if levels == [] then []
    else
      var l := levels[|levels| - 1];
      Rows(levels[..|levels| - 1]) + (if l.price != 0 then [RowOf(l)] else [])
  }

  ghost predicate SortedRows(side: Side, rows: seq<Row>) {
    forall i, j :: 0 <= i < j < |rows| ==>
      if side.Bid? then rows[i].price >= rows[j].price else rows[i].price <= rows[j].price
  }

  /** `full` lists the occupied levels, bids downwards and asks upwards, in some order among equal prices. */
  ghost predicate FullSnapshot(side: Side, levels: seq<Level>, full: seq<Row>) {
    multiset(full) == multiset(Rows(levels)) && SortedRows(side, full)
  }

  function Min(a: nat, b: nat): nat {
    if a < b then a else b
  }

  lemma {:induction false} RowsMember(levels: seq<Level>, r: Row) returns (i: nat)
    requires r in Rows(levels)
    ensures i < |levels| && levels[i].price != 0 && r == RowOf(levels[i])
  {
    var n := |levels| - 1;
    if r in Rows(levels[..n]) {
      i := RowsMember(levels[..n], r);
    } else {
      i := n;
    }
  }

  lemma {:induction false} LevelInRows(levels: seq<Level>, i: nat)
    requires i < |levels| && levels[i].price != 0
    ensures RowOf(levels[i]) in Rows(levels)
  {
    var n := |levels| - 1;
    if i < n {
      LevelInRows(levels[..n], i);
    }
  }

  lemma SameMembers(side: Side, levels: seq<Level>, full: seq<Row>, r: Row)
    requires FullSnapshot(side, levels, full)
    ensures r in full <==> r in Rows(levels)
    ensures |full| == |Rows(levels)|
  {
    assert r in full <==> r in multiset(full);
    assert r in Rows(levels) <==> r in multiset(Rows(levels));
    assert |full| == |multiset(full)| && |Rows(levels)| == |multiset(Rows(levels))|;
  }

  /** The cached best index agrees with the front of any snapshot, duplicates or not. */
  lemma BestIsFront(side: Side, levels: seq<Level>, best: nat, full: seq<Row>)
    requires IsBest(side, levels, |levels|, best) && FullSnapshot(side, levels, full)
    ensures full == [] <==> best == SIZE_MAX
    ensures full != [] ==> best < |levels| && full[0].price == levels[best].price
  {
    if best != SIZE_MAX {
      LevelInRows(levels, best);
      SameMembers(side, levels, full, RowOf(levels[best]));
    }
    if full != [] {
      SameMembers(side, levels, full, full[0]);
      var i := RowsMember(levels, full[0]);
      if best != SIZE_MAX {
        var j :| 0 <= j < |full| && full[j] == RowOf(levels[best]);
        assert j > 0 ==> if side.Bid? then full[0].price >= full[j].price else full[0].price <= full[j].price;
      }
    }
  }

  lemma {:induction false} RowsCount(levels: seq<Level>)
    requires Distinct(levels)
    ensures |Rows(levels)| == |Quotes(levels)|
  {
    if levels != [] {
      var n := |levels| - 1;
      var init, l := levels[..n], levels[n];
      RowsCount(init);
      if l.price != 0 && l.price in Quotes(init) {
        var k := QuotedSomewhere(init, l.price);
      }
    }
  }

  /** With distinct prices a snapshot of depth `d` is the best `d` quotes in strict price order:
      every row is the quote of its price, bids strictly fall and asks strictly rise, it has
      min(d, number of quotes) rows, and every bid left out is lower than every row, every ask
      left out higher. */
  lemma SnapshotIsTop(side: Side, levels: seq<Level>, full: seq<Row>, d: nat)
    requires Distinct(levels) && FullSnapshot(side, levels, full)
    ensures |full| == |Quotes(levels)|
    ensures var r := full[..Min(d, |full|)];
            && (forall i :: 0 <= i < |r| ==>
                  r[i].price in Quotes(levels) && Quotes(levels)[r[i].price] == Quote(r[i].quantity, r[i].count))
            && (forall i, j :: 0 <= i < j < |r| ==> if side.Bid? then r[i].price > r[j].price else r[i].price < r[j].price)
            && (forall p, i :: p in Quotes(levels) && 0 <= i < |r| && (forall j :: 0 <= j < |r| ==> r[j].price != p) ==>
                  if side.Bid? then r[i].price > p else r[i].price < p)
  {
    RowsCount(levels);
    forall i | 0 <= i < |full|
      ensures full[i].price in Quotes(levels) && Quotes(levels)[full[i].price] == Quote(full[i].quantity, full[i].count)
    {
      SameMembers(side, levels, full, full[i]);
      var k := RowsMember(levels, full[i]);
      LevelQuoted(levels, k);
    }
    assert multiset(full) == multiset(Rows(levels));
    StrictOrder(side, levels, full);
    var r := full[..Min(d, |full|)];
    forall p, i | p in Quotes(levels) && 0 <= i < |r| && (forall j :: 0 <= j < |r| ==> r[j].price != p)
      ensures if side.Bid? then r[i].price > p else r[i].price < p
    {
      var k := QuotedSomewhere(levels, p);
      LevelInRows(levels, k);
      SameMembers(side, levels, full, RowOf(levels[k]));
      var j :| 0 <= j < |full| && full[j] == RowOf(levels[k]);
      assert forall x :: 0 <= x < |r| ==> r[x] == full[x];
      assert if side.Bid? then full[i].price > full[j].price else full[i].price < full[j].price;
    }
    SameMembers(side, levels, full, Row(0, 0, 0));
  }

  /** Equal prices in a permutation of rows with distinct prices would be equal rows twice. */
  lemma StrictOrder(side: Side, levels: seq<Level>, full: seq<Row>)
    requires Distinct(levels) && FullSnapshot(side, levels, full)
    ensures forall i, j :: 0 <= i < j < |full| ==>
              if side.Bid? then full[i].price > full[j].price else full[i].price < full[j].price
  {
    forall i, j | 0 <= i < j < |full|
      ensures if side.Bid? then full[i].price > full[j].price else full[i].price < full[j].price
    {
      if full[i].price == full[j].price {
        SameMembers(side, levels, full, full[i]);
        SameMembers(side, levels, full, full[j]);
        var a := RowsMember(levels, full[i]);
        var c := RowsMember(levels, full[j]);
        assert a == c;
        TwiceInMultiset(full, i, j);
        OnceInRows(levels, full[i]);
      }
    }
  }

  lemma TwiceInMultiset(xs: seq<Row>, i: nat, j: nat)
    requires i < j < |xs| && xs[i] == xs[j]
    ensures multiset(xs)[xs[i]] >= 2
  {
    assert xs == xs[..i] + [xs[i]] + xs[i + 1..j] + [xs[j]] + xs[j + 1..];
  }

  lemma {:induction false} OnceInRows(levels: seq<Level>, r: Row)
    requires Distinct(levels)
    ensures multiset(Rows(levels))[r] <= 1
  {
    if levels != [] {
      var n := |levels| - 1;
      OnceInRows(levels[..n], r);
      var init := Rows(levels[..n]);
      if levels[n].price != 0 && RowOf(levels[n]) == r && r in init {
        var k := RowsMember(levels[..n], r);
      }
    }
  }

  /** A snapshot of depth `d` of the reference book `m`: the `d` highest bids, falling, or the
      `d` lowest asks, rising. */
  ghost predicate TopOf(side: Side, m: map<nat, Quote>, d: nat, rows: seq<Row>) {
    && |rows| == Min(d, |m|)
    && (forall i :: 0 <= i < |rows| ==> rows[i].price in m && m[rows[i].price] == Quote(rows[i].quantity, rows[i].count))
    && (forall i, j :: 0 <= i < j < |rows| ==> if side.Bid? then rows[i].price > rows[j].price else rows[i].price < rows[j].price)
    && (forall p, i :: p in m && 0 <= i < |rows| && (forall j :: 0 <= j < |rows| ==> rows[j].price != p) ==>
          if side.Bid? then rows[i].price > p else rows[i].price < p)
  }

  /** One side of a snapshot: the first `depth` rows of a full sorted listing. */
  ghost predicate IsSnapshot(side: Side, levels: seq<Level>, depth: nat, rows: seq<Row>) {
    exists full :: FullSnapshot(side, levels, full) && rows == full[..Min(depth, |full|)]
  }

  /** What the snapshot loop collects before sorting: a price and the slot it is in. */
  datatype Pick = Pick(price: int, index: nat)

  function Prices(levels: seq<Level>): (ps: seq<int>)
    ensures |ps| == |levels| && forall i :: 0 <= i < |ps| ==> ps[i] == levels[i].price
  {
    seq(|levels|, i requires 0 <= i < |levels| => levels[i].price)
  }

  /** The occupied slots, in slot order. */
  function Picks(prices: seq<int>): seq<Pick> {
    if prices == [] then []
    else
      var n := |prices| - 1;
      Picks(prices[..n]) + if prices[n] > 0 then [Pick(prices[n], n)] else []
  }

  function BetterPick(side: Side): (Pick, Pick) -> bool {
    (a: Pick, b: Pick) => Better(side, a.price, b.price)
  }

  /** The picks sorted by price, best first. */
  function Ranked(side: Side, prices: seq<int>): seq<Pick> {
    Sort(BetterPick(side), Picks(prices))
  }

  lemma {:induction false} PicksAreSlots(prices: seq<int>, p: Pick)
    requires p in Picks(prices)
    ensures p.index < |prices| && prices[p.index] == p.price
  {
    var n := |prices| - 1;
    if p in Picks(prices[..n]) { PicksAreSlots(prices[..n], p); }
  }

  lemma RankedAreSlots(side: Side, prices: seq<int>, i: nat)
    requires i < |Ranked(side, prices)|
    ensures var p := Ranked(side, prices)[i]; p.index < |prices| && prices[p.index] == p.price
  {
    var p := Ranked(side, prices)[i];
    SortPermutes(BetterPick(side), Picks(prices));
    assert p in multiset(Ranked(side, prices));
    assert p in multiset(Picks(prices));
    PicksAreSlots(prices, p);
  }

  function RowAt(levels: seq<Level>): Pick -> Row {
    (p: Pick) => if p.index < |levels| then RowOf(levels[p.index]) else Row(0, 0, 0)
  }

  lemma {:induction false} PickedRows(levels: seq<Level>, n: nat)
    requires n <= |levels|
    ensures Map(RowAt(levels), Picks(Prices(levels)[..n])) == Rows(levels[..n])
  {
    if n > 0 {
      PickedRows(levels, n - 1);
      var ps := Prices(levels)[..n];
      assert ps[..n - 1] == Prices(levels)[..n - 1] && levels[..n][..n - 1] == levels[..n - 1];
    }
  }

  lemma RankedPermutes(side: Side, levels: seq<Level>)
    ensures multiset(Map(RowAt(levels), Ranked(side, Prices(levels)))) == multiset(Rows(levels))
  {
    var ps := Prices(levels);
    assert ps[..|levels|] == ps && levels[..|levels|] == levels;
    PickedRows(levels, |levels|);
    MapSort(BetterPick(side), RowAt(levels), Picks(ps));
  }

  lemma BetterPickOrders(side: Side)
    ensures StrictWeak(BetterPick(side))
  {
  }

  lemma RankedSorted(side: Side, prices: seq<int>)
    ensures forall i, j :: 0 <= i < j < |Ranked(side, prices)| ==>
              !Better(side, Ranked(side, prices)[j].price, Ranked(side, prices)[i].price)
  {
    BetterPickOrders(side);
    SortSorts(BetterPick(side), Picks(prices));
    var picks := Ranked(side, prices);
    forall i, j | 0 <= i < j < |picks| ensures !Better(side, picks[j].price, picks[i].price) {
      assert !BetterPick(side)(picks[j], picks[i]);
    }
  }

  lemma RankedPrice(side: Side, levels: seq<Level>, i: nat)
    requires i < |Ranked(side, Prices(levels))|
    ensures Map(RowAt(levels), Ranked(side, Prices(levels)))[i].price == Ranked(side, Prices(levels))[i].price
  {
    RankedAreSlots(side, Prices(levels), i);
  }

  /** The rows of the ranked picks are a full snapshot. */
  lemma RankedIsFull(side: Side, levels: seq<Level>)
    ensures FullSnapshot(side, levels, Map(RowAt(levels), Ranked(side, Prices(levels))))
  {
    RankedPermutes(side, levels);
    RankedSorted(side, Prices(levels));
    var rows := Map(RowAt(levels), Ranked(side, Prices(levels)));
    forall i, j | 0 <= i < j < |rows|
      ensures if side.Bid? then rows[i].price >= rows[j].price else rows[i].price <= rows[j].price
    {
      RankedPrice(side, levels, i);
      RankedPrice(side, levels, j);
    }
  }

  /** What a snapshot shows at any point of a run of faithful updates: the top of the reference book. */
  lemma RunSnapshot(run: seq<Book>, ops: seq<Op>, maxLevels: nat, side: Side, k: nat, d: nat, rows: seq<Row>)
    requires IsRun(run, ops, maxLevels) && maxLevels <= TABLE_SIZE && k < |run|
    requires forall i :: 0 <= i < |ops| ==> FaithfulOp(side, SideOf(run[i], side), ops[i])
    requires IsSnapshot(side, SideOf(run[k], side).levels, d, rows)
    ensures TopOf(side, RefRun(ops[..k], side, maxLevels), d, rows)
  {
    RunMirrors(run, ops, maxLevels, side, k);
    var b := SideOf(run[k], side);
    var full :| FullSnapshot(side, b.levels, full) && rows == full[..Min(d, |full|)];
    SnapshotIsTop(side, b.levels, full, d);
  }
}
