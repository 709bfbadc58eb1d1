/** The truncated Neumann series for 1/x, evaluated by Horner's rule, and its worst-case error. */
module Neumann {
  import opened Linear

  function Pow(x: real, k: nat): real {
    if k == 0 then 1.0 else Times(x, Pow(x, k - 1))
  }

  /** 1 + r + ... + r^d. */
  function Series(r: real, d: nat): real {
    if d == 0 then 1.0 else Series(r, d - 1) + Pow(r, d)
  }

  lemma {:induction false} SeriesHorner(r: real, d: nat)
    ensures Series(r, d + 1) == 1.0 + Times(r, Series(r, d))
  {
    if d == 0 {
      assert Series(r, 1) == Series(r, 0) + Pow(r, 1);
      assert Pow(r, 1) == Times(r, Pow(r, 0));
    } else {
      SeriesHorner(r, d - 1);
      Spread(r, Series(r, d - 1), Pow(r, d));
    }
  }

  lemma Spread(r: real, a: real, b: real)
    ensures Times(r, a + b) == Times(r, a) + Times(r, b)
  {
  }

  /** Multiplied by x the series misses one by a power. */
  lemma {:induction false} SeriesTimes(x: real, d: nat)
    ensures Times(x, Series(1.0 - x, d)) == 1.0 - Pow(1.0 - x, d + 1)
  {
    var r := 1.0 - x;
    if d == 0 {
      assert Pow(r, 1) == Times(r, Pow(r, 0));
      UnitTimes(x, r);
    } else {
      SeriesTimes(x, d - 1);
      Spread(x, Series(r, d - 1), Pow(r, d));
      OneLess(x, Pow(r, d));
    }
  }

  lemma UnitTimes(x: real, r: real)
    ensures Times(x, 1.0) == x && Times(r, 1.0) == r
  {
  }

  lemma OneLess(x: real, p: real)
    ensures Times(1.0 - x, p) == p - Times(x, p)
  {
  }

  lemma {:induction false} PowBetween(a: real, b: real, k: nat)
    requires 0.0 <= a <= b
    ensures 0.0 <= Pow(a, k) <= Pow(b, k)
  {
    if k > 0 {
      PowBetween(a, b, k - 1);
      ProductOrder(a, Pow(a, k - 1), b, Pow(b, k - 1));
    }
  }

  lemma ProductOrder(a: real, p: real, b: real, q: real)
    requires 0.0 <= a <= b && 0.0 <= p <= q
    ensures 0.0 <= Times(a, p) <= Times(b, q)
  {
    TimesNonNegative(a, p);
    TimesNonNegative(a, q - p);
    TimesNonNegative(b - a, q);
    assert a * (q - p) == a * q - a * p && (b - a) * q == b * q - a * q;
  }

  /** Horner's rule on 1 - x. */
  method InvPoly(degree: nat, x: real) returns (acc: real)
    ensures acc == Series(1.0 - x, degree)
    ensures Times(x, acc) == 1.0 - Pow(1.0 - x, degree + 1)
  {
    var r := 1.0 - x;
    acc := 1.0;
    for k := 0 to degree
      invariant acc == Series(r, k)
    {
      SeriesHorner(r, k);
      acc := 1.0 + Times(r, acc);
    }
    SeriesTimes(x, degree);
  }

  /** The claimed worst-case error on [1/kappa, 1]. */
  function ErrorBound(degree: nat, kappa: real): real
    requires kappa >= 1.0
  {
    var delta := 1.0 / kappa;
    DeltaRange(kappa);
    Pow(1.0 - delta, degree + 1) / delta
  }

  lemma DeltaRange(kappa: real)
    requires kappa >= 1.0
    ensures 0.0 < 1.0 / kappa <= 1.0
  {
    var d := 1.0 / kappa;
    assert d * kappa == 1.0;
    assert (d - 1.0) * kappa == 1.0 - kappa;
    if d <= 0.0 {
      TimesNonNegative(-d, kappa);
    }
    if d > 1.0 {
      TimesPositive(d - 1.0, kappa);
    }
  }

  /** The error of the series is a power over x. */
  lemma ErrorIs(x: real, d: nat)
    requires 0.0 < x <= 1.0
    ensures 1.0 / x - Series(1.0 - x, d) == Pow(1.0 - x, d + 1) / x
    ensures Pow(1.0 - x, d + 1) >= 0.0
  {
    SeriesTimes(x, d);
    PowBetween(1.0 - x, 1.0 - x, d + 1);
    hide Pow, Series;
    QuotientOf(x, Series(1.0 - x, d), Pow(1.0 - x, d + 1));
  }

  lemma QuotientOf(x: real, s: real, p: real)
    requires x > 0.0 && Times(x, s) == 1.0 - p
    ensures 1.0 / x - s == p / x
  {
    var q, i := p / x, 1.0 / x;
    assert q * x == p && i * x == 1.0;
    assert (i - s - q) * x == 0.0 by { assert (i - s - q) * x == i * x - s * x - q * x; }
    assert -(i - s - q) * x == -((i - s - q) * x);
    if i - s - q > 0.0 {
      TimesPositive(i - s - q, x);
    } else if i - s - q < 0.0 {
      TimesPositive(-(i - s - q), x);
    }
  }

  /** The bound holds on the whole interval, and it is attained at its left end. */
  lemma NeumannBound(x: real, kappa: real, d: nat)
    requires kappa >= 1.0 && 1.0 / kappa <= x <= 1.0
    ensures Abs(1.0 / x - Series(1.0 - x, d)) <= ErrorBound(d, kappa)
    ensures x == 1.0 / kappa ==> Abs(1.0 / x - Series(1.0 - x, d)) == ErrorBound(d, kappa)
  {
    DeltaRange(kappa);
    var delta := 1.0 / kappa;
    ErrorIs(x, d);
    PowBetween(1.0 - x, 1.0 - delta, d + 1);
    hide Pow, Series;
    QuotientOrder(Pow(1.0 - x, d + 1), x, Pow(1.0 - delta, d + 1), delta);
  }

  lemma QuotientOrder(p: real, x: real, q: real, y: real)
    requires 0.0 <= p <= q && 0.0 < y <= x
    ensures 0.0 <= p / x <= q / y
  {
    var a, b := p / x, q / y;
    assert a * x == p && b * y == q;
    assert (a - b) * y == a * y - b * y && a * (x - y) == a * x - a * y;
    if a < 0.0 {
      TimesPositive(-a, x);
    }
    if b < a {
      TimesPositive(a - b, y);
      TimesNonNegative(a, x - y);
    }
  }
}
