/** Facts about products and quotients of natural numbers. */
module Quotients {
  lemma DivBounds(x: nat, q: nat)
    requires q > 0
    ensures q * (x / q) <= x < q * (x / q) + q
  {
  }

  lemma MulMonotone(a: nat, b: nat, c: nat)
    requires a <= b
    ensures a * c <= b * c && c * a <= c * b
  {
  }

  lemma DivMonotone(x: nat, y: nat, q: nat)
    requires x <= y && q > 0
    ensures x / q <= y / q
  {
    DivBounds(x, q);
    DivBounds(y, q);
    if x / q > y / q {
      MulMonotone(y / q + 1, x / q, q);
    }
  }

  lemma QuotientIs(x: nat, d: nat, q: nat)
    requires q > 0 && q * d <= x < q * d + q
    ensures x / q == d
  {
    DivBounds(x, q);
    var e := x / q;
    if e < d {
      MulMonotone(e + 1, d, q);
    } else if e > d {
      MulMonotone(d + 1, e, q);
    }
  }

  // r is x over q, rounded down.
  predicate IsFloor(r: int, x: int, q: nat) {
    q * r <= x < q * r + q
  }

  lemma FloorIs(x: nat, q: nat)
    requires q > 0
    ensures IsFloor(x / q, x, q)
  {
    DivBounds(x, q);
  }

  lemma FloorIsNatural(r: int, x: int, q: nat)
    requires IsFloor(r, x, q) && x >= 0
    ensures r >= 0
  {
    NoSignChange(q, r + 1);
    assert q * r + q == q * (r + 1);
  }

  lemma NoSignChange(q: nat, k: int)
    ensures k <= 0 ==> q * k <= 0
  {
    if k <= 0 {
      MulMonotone(0, -k, q);
    }
  }

  lemma ScaledQuotient(x: nat, y: nat, k: nat)
    requires y > 0 && k > 0
    ensures k * y > 0 && (k * x) / (k * y) == x / y
  {
    var d := x / y;
    DivBounds(x, y);
    Scaled(k, y * d, x, y * d + y);
    Regroup(k, y, d);
    assert k * y >= 1;
    QuotientIs(k * x, d, k * y);
  }

  lemma Scaled(k: nat, a: nat, x: nat, b: nat)
    requires k > 0 && a <= x < b
    ensures k * a <= k * x < k * b
  {
    MulMonotone(a, x, k);
    MulMonotone(x + 1, b, k);
  }

  lemma Regroup(k: nat, y: nat, d: nat)
    ensures k * (y * d) == k * y * d && k * (y * d + y) == k * y * d + k * y
  {
  }

  lemma AtMostFloor(r: nat, x: nat, q: nat, y: nat)
    requires IsFloor(r, x, q)
    ensures y <= r <==> q * y <= x
  {
    if y <= r {
      MulMonotone(y, r, q);
    } else {
      MulMonotone(r + 1, y, q);
    }
  }

  // The part p of q of an amount, rounded down.
  function Part(amount: nat, p: nat, q: nat): nat
    requires q > 0
  {
    amount * p / q
  }

  lemma PartGrows(a: nat, b: nat, p1: nat, p2: nat, q: nat)
    requires a <= b && p1 <= p2 && q > 0
    ensures Part(a, p1, q) <= Part(b, p2, q)
  {
    MulMonotone(a, b, p1);
    MulMonotone(p1, p2, b);
    DivMonotone(a * p1, b * p2, q);
  }

  lemma WholePart(b: nat, q: nat)
    requires q > 0
    ensures Part(b, q, q) == b
  {
    QuotientIs(b * q, b, q);
  }

  lemma PartAtMost(b: nat, p: nat, q: nat)
    requires q > 0 && p <= q
    ensures Part(b, p, q) <= b
  {
    PartGrows(b, b, p, q, q);
    WholePart(b, q);
  }

  // Taking y off the dividend leaves the quotient exactly when y is within the remainder.
  lemma SameQuotientIff(x: nat, y: nat, q: nat)
    requires q > 0 && y <= x
    ensures (x - y) / q == x / q <==> y <= x % q
  {
    var d := x / q;
    assert x == q * d + x % q;
    if y <= x % q {
      QuotientIs(x - y, d, q);
    } else {
      QuotientBelow(x - y, d, q);
    }
  }

  lemma QuotientBelow(x: nat, d: nat, q: nat)
    requires q > 0 && x < q * d
    ensures x / q < d
  {
    DivBounds(x, q);
    if x / q >= d {
      MulMonotone(d, x / q, q);
    }
  }
}
