/** Index arithmetic modulo a capacity, for the ring buffer and the memory pool. */
module Modular {

  lemma MultipleGap(c: int, d: int)
    requires -c < c * d < c
    ensures d == 0
  {
    if d >= 1 { TimesAtLeast(c, d); }
    if d <= -1 { TimesAtLeast(c, -d); }
  }

  lemma TimesAtLeast(c: int, d: int)
    requires c >= 0 && d >= 1
    ensures c * d >= c
  {
  }

  lemma ModOfProduct(r: int, q: int, c: int)
    requires c > 0 && 0 <= r < c
    ensures (q * c + r) % c == r
  {
    var x := q * c + r;
    var d := x / c - q;
    assert x == c * (x / c) + x % c;
    assert c * d == c * (x / c) - c * q;
    MultipleGap(c, d);
  }

  lemma ModShift(x: int, q: int, c: int)
    requires c > 0
    ensures (x + q * c) % c == x % c
  {
    ModOfProduct(x % c, x / c + q, c);
    assert (x / c + q) * c == (x / c) * c + q * c;
  }

  lemma ModSame(a: int, b: int, c: int)
    requires c > 0 && a % c == b % c
    ensures a - b == (a / c - b / c) * c
  {
    assert a == c * (a / c) + a % c && b == c * (b / c) + b % c;
  }

  lemma ModNext(a: int, b: int, d: int, c: int)
    requires c > 0 && a % c == b % c
    ensures (a + d) % c == (b + d) % c
  {
    ModSame(a, b, c);
    ModShift(b + d, a / c - b / c, c);
  }

  /** Less than a lap apart, equal slots mean equal counts. */
  lemma SameSlot(lo: nat, hi: nat, c: nat)
    requires c > 0 && lo <= hi < lo + c && lo % c == hi % c
    ensures lo == hi
  {
    ModSame(hi, lo, c);
    MultipleGap(c, hi / c - lo / c);
  }

  /** Positions closer than one lap fall into different slots. */
  lemma ModDistinct(i: nat, j: nat, c: nat)
    requires i < j < i + c
    ensures i % c != j % c
  {
    if i % c == j % c { SameSlot(i, j, c); }
  }

  /** The index after `p` values catches up with that of `q` values when a lap less one is between. */
  lemma CatchUp(p: nat, q: nat, c: nat)
    requires q <= p < q + c
    ensures (p % c + 1) % c == q % c <==> p - q == c - 1
  {
    ModNext(p % c, p, 1, c);
    ModShift(q, 1, c);
    if (p + 1) % c == (q + c) % c { SameSlot(p + 1, q + c, c); }
  }

  lemma Difference(p: nat, q: nat, c: nat)
    requires q <= p < q + c
    ensures (p % c - q % c) % c == p - q
  {
    var k := q / c - p / c;
    assert p % c - q % c == k * c + (p - q) by {
      assert p == c * (p / c) + p % c && q == c * (q / c) + q % c;
    }
    ModOfProduct(p - q, k, c);
  }
}
