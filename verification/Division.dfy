/** Euclidean division of naturals, for the address and token arithmetic. */
module Division {
  lemma DivBounds(v: nat, d: nat)
    requires d > 0
    ensures v / d * d <= v < v / d * d + d
    ensures 0 <= v / d
  {
    assert v == v / d * d + v % d;
  }

  lemma Scales(a: int, b: int, d: nat)
    requires a <= b
    ensures a * d <= b * d
  {
  }

  lemma QuotientIs(v: nat, d: nat, q: nat)
    requires d > 0 && q * d <= v < q * d + d
    ensures v / d == q
  {
    DivBounds(v, d);
    var k := v / d;
    if k < q {
      Scales(k + 1, q, d);
    } else if q < k {
      Scales(q + 1, k, d);
    }
  }

  lemma QuotientTwice(v: nat, x: nat, y: nat)
    requires x > 0 && y > 0
    ensures x * y > 0 && v / (x * y) == v / x / y
  {
    var q := v / x;
    DivBounds(v, x);
    DivBounds(q, y);
    var r := q / y;
    Scales(r * y, q, x);
    Scales(q + 1, r * y + y, x);
    QuotientIs(v, x * y, r);
  }
}
