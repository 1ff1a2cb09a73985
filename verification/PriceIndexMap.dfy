/**
 * The open-addressing price table of include/core/order_book.hpp: linear probing over a
 * fixed array, price 0 marking an empty slot.  Deletion writes that empty marker (the
 * documentation speaks of tombstones; the code leaves none), so it can cut the probe path
 * of another entry.  This module states exactly when it does.
 */
module PriceIndex {
  import opened Common

  const TABLE_SIZE: nat := 4096
  const MULTIPLIER: nat := 0x9E3779B97F4A7C15

  datatype Entry = Entry(price: nat, index: nat)

  const EMPTY := Entry(0, SIZE_MAX)

  type Table = t: seq<Entry> | |t| == TABLE_SIZE witness seq(TABLE_SIZE, _ => EMPTY)

  /** Multiplicative hash: the low 12 bits of the 64-bit product. */
  function Home(price: nat): (h: nat)
    ensures h < TABLE_SIZE
  {
    price * MULTIPLIER % WORD % TABLE_SIZE
  }

  /** The slot `k` places after `h`, with wrap-around. */
  function Slot(h: nat, k: nat): (i: nat)
    requires h < TABLE_SIZE && k < TABLE_SIZE
    ensures i < TABLE_SIZE
  {
    if h + k < TABLE_SIZE then h + k else h + k - TABLE_SIZE
  }

  /** How many places slot `j` comes after `h`. */
  function Dist(h: nat, j: nat): (k: nat)
    requires h < TABLE_SIZE && j < TABLE_SIZE
    ensures k < TABLE_SIZE && Slot(h, k) == j
  {
    if h <= j then j - h else j + TABLE_SIZE - h
  }

  /** The entry met after `k` probes for `price`. */
  function At(t: Table, price: nat, k: nat): Entry
    requires k < TABLE_SIZE
  {
    t[Slot(Home(price), k)]
  }

  predicate Stops(e: Entry, price: nat) {
    e.price == 0 || e.price == price
  }

  /** Number of probes before the first slot that is empty or holds `price`; TABLE_SIZE if none. */
  function Probe(t: Table, price: nat, k: nat := 0): (r: nat)
    requires k <= TABLE_SIZE
    ensures k <= r <= TABLE_SIZE
    ensures r < TABLE_SIZE ==> Stops(At(t, price, r), price)
    ensures forall i :: k <= i < r ==> !Stops(At(t, price, i), price)
    decreases TABLE_SIZE - k
  {
    if k == TABLE_SIZE || Stops(At(t, price, k), price) then k else Probe(t, price, k + 1)
  }

  function Lookup(t: Table, price: nat): Option<nat> {
    if Present(t, price) && t[StopSlot(t, price)].index != SIZE_MAX
    then Some(t[StopSlot(t, price)].index) else None
  }

  predicate HasRoom(t: Table, price: nat) {
    Probe(t, price) < TABLE_SIZE
  }

  /** The slot where the probe for `price` ends. */
  function StopSlot(t: Table, price: nat): (s: nat)
    requires HasRoom(t, price)
    ensures s < TABLE_SIZE && Stops(t[s], price)
  {
    Slot(Home(price), Probe(t, price))
  }

  function Inserted(t: Table, price: nat, index: nat): Table {
    if HasRoom(t, price) then t[StopSlot(t, price) := Entry(price, index)] else t
  }

  predicate Present(t: Table, price: nat) {
    HasRoom(t, price) && t[StopSlot(t, price)].price == price
  }

  function Removed(t: Table, price: nat): Table {
    if Present(t, price) then t[StopSlot(t, price) := EMPTY] else t
  }

  const CLEARED: Table := seq(TABLE_SIZE, _ => EMPTY)

  class PriceIndexMap {
    const table: array<Entry>

    ghost predicate Valid() {
      table.Length == TABLE_SIZE
    }

    constructor ()
      ensures Valid() && fresh(table) && table[..] == CLEARED
    {
      table := new Entry[TABLE_SIZE](_ => EMPTY);
      new;
      assert table[..] == CLEARED;
    }

    method Find(price: nat) returns (r: Option<nat>)
      requires Valid()
      ensures r == Lookup(table[..], price)
    {
      ghost var t := table[..];
      var idx, attempts := Home(price), 0;
      while attempts < TABLE_SIZE
        invariant attempts <= TABLE_SIZE
        invariant attempts < TABLE_SIZE ==> idx == Slot(Home(price), attempts)
        invariant Probe(t, price) == Probe(t, price, attempts)
      {
        if table[idx].price == price {
          return if table[idx].index != SIZE_MAX then Some(table[idx].index) else None;
        }
        if table[idx].price == 0 {
          return None;
        }
        idx := (idx + 1) % TABLE_SIZE;
        attempts := attempts + 1;
      }
      return None;
    }

    method Insert(price: nat, index: nat) returns (done: bool)
      requires Valid()
      modifies table
      ensures done == HasRoom(old(table[..]), price)
      ensures table[..] == Inserted(old(table[..]), price, index)
    {
      ghost var t := table[..];
      var idx, attempts := Home(price), 0;
      while attempts < TABLE_SIZE
        invariant attempts <= TABLE_SIZE && table[..] == t
        invariant attempts < TABLE_SIZE ==> idx == Slot(Home(price), attempts)
        invariant Probe(t, price) == Probe(t, price, attempts)
      {
        if table[idx].price == 0 || table[idx].price == price {
          assert Probe(t, price) == attempts && StopSlot(t, price) == idx;
          table[idx] := Entry(price, index);
          assert table[..] == t[idx := Entry(price, index)];
          return true;
        }
        idx := (idx + 1) % TABLE_SIZE;
        attempts := attempts + 1;
      }
      return false;
    }

    method Remove(price: nat) returns (done: bool)
      requires Valid()
      modifies table
      ensures done == Present(old(table[..]), price)
      ensures table[..] == Removed(old(table[..]), price)
    {
      ghost var t := table[..];
      var idx, attempts := Home(price), 0;
      while attempts < TABLE_SIZE
        invariant attempts <= TABLE_SIZE && table[..] == t
        invariant attempts < TABLE_SIZE ==> idx == Slot(Home(price), attempts)
        invariant Probe(t, price) == Probe(t, price, attempts)
      {
        if table[idx].price == price {
          table[idx] := EMPTY;
          return true;
        }
        if table[idx].price == 0 {
          return false;
        }
        idx := (idx + 1) % TABLE_SIZE;
        attempts := attempts + 1;
      }
      return false;
    }

    method Clear()
      requires Valid()
      modifies table
      ensures table[..] == CLEARED
    {
      for i := 0 to TABLE_SIZE
        invariant forall j :: 0 <= j < i ==> table[j] == EMPTY
      {
        table[i] := EMPTY;
      }
      assert table[..] == CLEARED;
    }
  }

  // -------------------------------------------------------------- the hash

  /** Two prices share a home slot exactly when they agree modulo the table size: the
      multiplier is odd and the table size divides the word. */
  lemma SameHome(p: nat, q: nat)
    ensures Home(p) == Home(q) <==> p % TABLE_SIZE == q % TABLE_SIZE
  {
    LowBits(p * MULTIPLIER);
    LowBits(q * MULTIPLIER);
    OddMultiplier(p, q);
  }

  lemma LowBits(x: nat)
    ensures x % WORD % TABLE_SIZE == x % TABLE_SIZE
  {
    var high := x / WORD;
    assert x == x % WORD + (WORD / TABLE_SIZE * high) * TABLE_SIZE;
  }

  /** 829 inverts the multiplier modulo the table size: 829 * MULTIPLIER = 1 + TABLE_SIZE * 2307420064750715709. */
  lemma OddMultiplier(p: nat, q: nat)
    ensures p * MULTIPLIER % TABLE_SIZE == q * MULTIPLIER % TABLE_SIZE <==> p % TABLE_SIZE == q % TABLE_SIZE
  {
    var d := p - q;
    SameRemainder(p, q);
    SameRemainder(p * MULTIPLIER, q * MULTIPLIER);
    if d % TABLE_SIZE == 0 {
      var e := d / TABLE_SIZE;
      Multiple(d * MULTIPLIER, e * MULTIPLIER);
    }
    if d * MULTIPLIER % TABLE_SIZE == 0 {
      var e := d * MULTIPLIER / TABLE_SIZE;
      assert d * MULTIPLIER == TABLE_SIZE * e;
      Multiple(d, 829 * e - 2307420064750715709 * d);
    }
  }

  lemma Multiple(x: int, e: int)
    requires x == TABLE_SIZE * e
    ensures x % TABLE_SIZE == 0
  {
  }

  lemma SameRemainder(x: nat, y: nat)
    ensures x % TABLE_SIZE == y % TABLE_SIZE <==> (x - y) % TABLE_SIZE == 0
  {
    var a, b := x / TABLE_SIZE, y / TABLE_SIZE;
    var r := x % TABLE_SIZE - y % TABLE_SIZE;
    assert x - y == TABLE_SIZE * (a - b) + r;
  }

  /** Fixed-point scale of include/core/types.hpp. */
  const PRICE_SCALE: nat := 100000000

  /** Fixed-point prices of whole currency units use only 16 home slots. */
  lemma WholeUnitHomes(u: nat, v: nat)
    ensures Home(u * PRICE_SCALE) == Home(v * PRICE_SCALE) <==> u % 16 == v % 16
  {
    SameHome(u * PRICE_SCALE, v * PRICE_SCALE);
    SameRemainder(u * PRICE_SCALE, v * PRICE_SCALE);
    Scaled(u - v);
    SameRemainder16(u, v);
  }

  lemma SameRemainder16(x: nat, y: nat)
    ensures x % 16 == y % 16 <==> (x - y) % 16 == 0
  {
    assert x - y == 16 * (x / 16 - y / 16) + (x % 16 - y % 16);
  }

  /** The scale is 256 times an odd number. */
  lemma Scaled(d: int)
    ensures d * PRICE_SCALE % TABLE_SIZE == 0 <==> d % 16 == 0
  {
    if d % 16 == 0 {
      Multiple(d * PRICE_SCALE, d / 16 * 390625);
    }
    if d * PRICE_SCALE % TABLE_SIZE == 0 {
      var e := d * PRICE_SCALE / TABLE_SIZE;
      assert d * PRICE_SCALE == TABLE_SIZE * e;
      assert d == 16 * (e - 24414 * d);
    }
  }

  // ---------------------------------------------------- the table as a finite map

  predicate Live(t: Table, j: nat) {
    j < TABLE_SIZE && t[j].price != 0
  }

  /** Slot `i` lies on the probe path of entry `j`, before `j` itself. */
  predicate Crosses(t: Table, j: nat, i: nat)
    requires j < TABLE_SIZE && i < TABLE_SIZE
  {
    Dist(Home(t[j].price), i) < Dist(Home(t[j].price), j)
  }

  /** Every live entry is reachable from its home slot through non-empty slots, and no price
      occurs twice. */
  ghost predicate Intact(t: Table) {
    && (forall j, i :: 0 <= j < TABLE_SIZE && 0 <= i < TABLE_SIZE && Live(t, j) && Crosses(t, j, i) ==> Live(t, i))
    && (forall i, j :: 0 <= i < j < TABLE_SIZE && Live(t, i) && Live(t, j) ==> t[i].price != t[j].price)
  }

  /** In an intact table every live entry sits where the probe for its price ends. */
  lemma ProbeFindsLive(t: Table, j: nat)
    requires Intact(t) && Live(t, j)
    ensures Probe(t, t[j].price) == Dist(Home(t[j].price), j)
    ensures Present(t, t[j].price)
  {
    var p := t[j].price;
    var h := Home(p);
    var k := Dist(h, j);
    assert At(t, p, k) == t[j];
    forall i | 0 <= i < k ensures !Stops(At(t, p, i), p) {
      var s := Slot(h, i);
      assert Dist(h, s) == i && Crosses(t, j, s);
      assert Live(t, s);
    }
  }

  /** `find` on an intact table answers exactly the stored mapping. */
  lemma LookupExact(t: Table, price: nat, index: nat)
    requires Intact(t) && price != 0 && index != SIZE_MAX
    ensures Lookup(t, price) == Some(index) <==> Entry(price, index) in t
    ensures Present(t, price) <==> exists j :: 0 <= j < TABLE_SIZE && t[j].price == price
  {
    forall j | 0 <= j < TABLE_SIZE && t[j].price == price
      ensures Present(t, price) && t[StopSlot(t, price)] == t[j]
    {
      assert Live(t, j);
      ProbeFindsLive(t, j);
    }
  }

  /** Some empty slot is enough for `insert` to succeed: the probe visits every slot. */
  lemma EmptySlotGivesRoom(t: Table, price: nat, j: nat)
    requires j < TABLE_SIZE && Stops(t[j], price)
    ensures HasRoom(t, price)
  {
    assert At(t, price, Dist(Home(price), j)) == t[j];
  }

  /** `insert` keeps an intact table intact, maps the price to the index, and leaves every other
      price alone; it fails exactly on a full table without that price. */
  lemma InsertKeepsMap(t: Table, price: nat, index: nat)
    requires Intact(t) && price != 0
    ensures Intact(Inserted(t, price, index))
    ensures HasRoom(t, price) <==> exists j :: 0 <= j < TABLE_SIZE && Stops(t[j], price)
    ensures HasRoom(t, price) ==> Entry(price, index) in Inserted(t, price, index)
    ensures forall e: Entry :: e.price != price && e.price != 0 ==> (e in Inserted(t, price, index) <==> e in t)
  {
    forall j | 0 <= j < TABLE_SIZE && Stops(t[j], price) ensures HasRoom(t, price) {
      EmptySlotGivesRoom(t, price, j);
    }
    if HasRoom(t, price) {
      var s := StopSlot(t, price);
      assert Stops(t[s], price);
      InsertKeepsIntact(t, price, index);
      assert Inserted(t, price, index)[s] == Entry(price, index);
      forall e: Entry | e.price != price && e.price != 0 ensures e in Inserted(t, price, index) <==> e in t {
        OtherEntries(t, s, Entry(price, index), e);
      }
    }
  }

  lemma OtherEntries(t: Table, s: nat, x: Entry, e: Entry)
    requires s < TABLE_SIZE && e != x && e != t[s]
    ensures e in t[s := x] <==> e in t
  {
    if e in t {
      var j :| 0 <= j < TABLE_SIZE && t[j] == e;
      assert t[s := x][j] == e;
    }
  }

  lemma InsertKeepsIntact(t: Table, price: nat, index: nat)
    requires Intact(t) && price != 0 && HasRoom(t, price)
    ensures Intact(Inserted(t, price, index))
  {
    var h, k := Home(price), Probe(t, price);
    var s := Slot(h, k);
    var t' := Inserted(t, price, index);
    forall j, i | 0 <= j < TABLE_SIZE && 0 <= i < TABLE_SIZE && Live(t', j) && Crosses(t', j, i)
      ensures Live(t', i)
    {
      if j == s {
        assert t[i] == At(t, price, Dist(h, i));
      } else if i != s {
        assert Live(t, j) && Crosses(t, j, i);
        assert Live(t, i);
      }
    }
    forall j | 0 <= j < TABLE_SIZE && j != s && Live(t, j) ensures t[j].price != price {
      if t[j].price == price {
        ProbeFindsLive(t, j);
      }
    }
  }

  /** `remove` as written keeps the table intact exactly when no other live entry's probe path
      crosses the cleared slot. */
  lemma RemoveKeepsIntactIff(t: Table, price: nat)
    requires Intact(t) && price != 0 && Present(t, price)
    ensures Intact(Removed(t, price)) <==> SafeToRemove(t, price)
  {
    var s := StopSlot(t, price);
    var t' := Removed(t, price);
    if Intact(t') {
      forall j | 0 <= j < TABLE_SIZE && j != s && Live(t, j) ensures !Crosses(t, j, s) {
        assert Live(t', j) && !Live(t', s);
        assert Crosses(t, j, s) <==> Crosses(t', j, s);
      }
    }
    if SafeToRemove(t, price) {
      forall j, i | 0 <= j < TABLE_SIZE && 0 <= i < TABLE_SIZE && Live(t', j) && Crosses(t', j, i)
        ensures Live(t', i)
      {
        assert j != s && Live(t, j) && Crosses(t, j, i) && Live(t, i);
      }
      forall i, j | 0 <= i < j < TABLE_SIZE && Live(t', i) && Live(t', j) ensures t'[i].price != t'[j].price {
        assert Live(t, i) && Live(t, j);
      }
    }
  }

  /** What a caller would check before deleting: nobody else's probe path goes over the slot. */
  ghost predicate SafeToRemove(t: Table, price: nat) {
    HasRoom(t, price) ==>
      var s := StopSlot(t, price);
      forall j :: 0 <= j < TABLE_SIZE && j != s && Live(t, j) ==> !Crosses(t, j, s)
  }
}
