/** The few facts about products and quotients that the solver needs by name. */
module Arithmetic {
  import opened Common

  function Pow2(n: nat): Positive {
    if n == 0 then 1 else 2 * Pow2(n - 1)
  }

  lemma {:induction false} ProductMonotone(a: int, b: int, c: nat)
    requires a <= b
    ensures a * c <= b * c
  {
  }

  lemma {:induction false} RowsApart(a: nat, b: nat, n: nat)
    requires a < b
    ensures a * n + n <= b * n
  {
    assert b * n == a * n + n + (b - a - 1) * n;
  }

  lemma {:induction false} QuotientRemainder(n: nat, d: nat, r: nat)
    requires d > 0
    ensures n / d == r <==> r * d <= n < (r + 1) * d
    ensures n / d == r ==> n % d == n - r * d
  {
    var q := n / d;
    assert n == q * d + n % d;
    if r < q {
      ProductMonotone(r + 1, q, d);
    } else if q < r {
      ProductMonotone(q + 1, r, d);
    }
    assert (q + 1) * d == q * d + d;
  }

  predicate Divides(d: nat, x: nat) {
    d > 0 && x % d == 0
  }

  lemma {:induction false} MultipleDivides(k: nat, d: nat)
    requires d > 0
    ensures Divides(d, k * d)
  {
    QuotientRemainder(k * d, d, k);
  }

  lemma {:induction false} DividesTransitive(a: nat, b: nat, c: nat)
    requires Divides(a, b) && Divides(b, c)
    ensures Divides(a, c)
  {
    var i, j := b / a, c / b;
    assert b == i * a && c == j * b;
    assert c == j * i * a;
    MultipleDivides(j * i, a);
  }

  function RoundUp(x: nat, unit: nat): nat
    requires unit > 0
  {
    (x + unit - 1) / unit * unit
  }

  /** Rounding up moves nothing exactly when the unit divides. */
  lemma {:induction false} RoundUpExact(x: nat, unit: nat)
    requires unit > 0
    ensures RoundUp(x, unit) == x <==> Divides(unit, x)
    ensures Divides(unit, RoundUp(x, unit))
    ensures x <= RoundUp(x, unit)
  {
    var q := (x + unit - 1) / unit;
    MultipleDivides(q, unit);
    QuotientRemainder(x + unit - 1, unit, q);
    if Divides(unit, x) {
      assert x == x / unit * unit;
      QuotientRemainder(x + unit - 1, unit, x / unit);
    }
  }

  /** Rounding up gives the least multiple that is large enough. */
  lemma {:induction false} RoundUpLeast(x: nat, unit: nat, y: nat)
    requires Divides(unit, y) && x <= y
    ensures RoundUp(x, unit) <= y
  {
    var k, q := y / unit, (x + unit - 1) / unit;
    assert y == k * unit;
    QuotientRemainder(x + unit - 1, unit, q);
    if q > k {
      ProductMonotone(k + 1, q, unit);
    } else {
      ProductMonotone(q, k, unit);
    }
  }

  /** Rounding up makes good a drift below a multiple exactly if the drift is less than the unit. */
  lemma {:induction false} RoundUpDrift(x: nat, drift: nat, unit: nat)
    requires Divides(unit, x) && drift <= x
    ensures RoundUp(x - drift, unit) <= x
    ensures RoundUp(x - drift, unit) == x <==> drift < unit
  {
    RoundUpLeast(x - drift, unit, x);
    var k := x / unit;
    assert x == k * unit && (k + 1) * unit == x + unit && (k - 1) * unit == x - unit;
    if drift < unit {
      QuotientRemainder(x - drift + unit - 1, unit, k);
      assert (x - drift + unit - 1) / unit == k;
    } else {
      ProductMonotone(1, k, unit);
      MultipleDivides(k - 1, unit);
      RoundUpLeast(x - drift, unit, (k - 1) * unit);
    }
  }
}
