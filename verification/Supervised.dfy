/** The readouts of a supervised run: the rank statistic of its scores and the least-squares head. */
module Supervised {
  import opened Linear

  // ---- the rank statistic

  /** What a positive score earns against a negative one: a win, a tie at half weight, or nothing. */
  function Duel(a: real, b: real): real { if a > b then 1.0 else if a == b then 0.5 else 0.0 }

  /** What score a earns against the negatives among the first k. */
  function Earned(scores: seq<real>, labels: seq<real>, threshold: real, a: real, k: nat): real
    requires k <= |scores| == |labels|
  {
    if k == 0 then 0.0 else
      Earned(scores, labels, threshold, a, k - 1) + if labels[k - 1] <= threshold then Duel(a, scores[k - 1]) else 0.0
  }

  /** What the positives among the first k earn against all the negatives. */
  function Wins(scores: seq<real>, labels: seq<real>, threshold: real, k: nat): real
    requires k <= |scores| == |labels|
  {
    if k == 0 then 0.0 else
      Wins(scores, labels, threshold, k - 1) +
      if labels[k - 1] > threshold then Earned(scores, labels, threshold, scores[k - 1], |scores|) else 0.0
  }

  function Positives(labels: seq<real>, threshold: real, k: nat): nat
    requires k <= |labels|
  {
    if k == 0 then 0 else Positives(labels, threshold, k - 1) + if labels[k - 1] > threshold then 1 else 0
  }

  function Negatives(labels: seq<real>, threshold: real, k: nat): nat
    requires k <= |labels|
  {
    if k == 0 then 0 else Negatives(labels, threshold, k - 1) + if labels[k - 1] <= threshold then 1 else 0
  }

  /** Both classes occur. */
  predicate BothOccur(labels: seq<real>, threshold: real) {
    Positives(labels, threshold, |labels|) > 0 && Negatives(labels, threshold, |labels|) > 0
  }

  function PairCount(labels: seq<real>, threshold: real): real {
    Times(Positives(labels, threshold, |labels|) as real, Negatives(labels, threshold, |labels|) as real)
  }

  lemma {:induction false} EarnedRange(scores: seq<real>, labels: seq<real>, threshold: real, a: real, k: nat)
    requires k <= |scores| == |labels|
    ensures 0.0 <= Earned(scores, labels, threshold, a, k) <= Negatives(labels, threshold, k) as real
  {
    if k > 0 {
      EarnedRange(scores, labels, threshold, a, k - 1);
    }
  }

  lemma {:induction false} WinsRange(scores: seq<real>, labels: seq<real>, threshold: real, k: nat)
    requires k <= |scores| == |labels|
    ensures 0.0 <= Wins(scores, labels, threshold, k) <= Times(Positives(labels, threshold, k) as real, Negatives(labels, threshold, |labels|) as real)
  {
    var neg := Negatives(labels, threshold, |labels|) as real;
    if k == 0 {
      TimesZero(neg);
    } else {
      WinsRange(scores, labels, threshold, k - 1);
      EarnedRange(scores, labels, threshold, scores[k - 1], |scores|);
      OneMore(Positives(labels, threshold, k - 1) as real, neg);
    }
  }

  lemma OneMore(p: real, q: real)
    ensures Times(p + 1.0, q) == Times(p, q) + q
  {
  }

  /** The area under the ROC curve; one class alone reads as chance. */
  method Auc(scores: seq<real>, labels: seq<real>, threshold: real) returns (r: real)
    requires |scores| == |labels|
    ensures !BothOccur(labels, threshold) ==> r == 0.5
    ensures BothOccur(labels, threshold) ==> Times(r, PairCount(labels, threshold)) == Wins(scores, labels, threshold, |scores|)
    ensures 0.0 <= r <= 1.0
  {
    var pos, neg, wins := 0.0, 0.0, 0.0;
    for i := 0 to |scores|
      invariant pos == Positives(labels, threshold, i) as real
      invariant wins == Wins(scores, labels, threshold, i)
    {
      if labels[i] > threshold {
        pos := pos + 1.0;
        ghost var before := wins;
        for j := 0 to |scores|
          invariant wins == before + Earned(scores, labels, threshold, scores[i], j)
        {
          if labels[j] <= threshold {
            wins := wins + if scores[i] > scores[j] then 1.0 else if scores[i] == scores[j] then 0.5 else 0.0;
          }
        }
      }
    }
    for i := 0 to |labels|
      invariant neg == Negatives(labels, threshold, i) as real
    {
      if labels[i] <= threshold {
        neg := neg + 1.0;
      }
    }
    if pos == 0.0 || neg == 0.0 {
      return 0.5;
    }
    WinsRange(scores, labels, threshold, |scores|);
    TimesPositive(pos, neg);
    RatioWithin(wins, pos * neg);
    r := wins / (pos * neg);
  }

  lemma RatioWithin(w: real, n: real)
    requires n > 0.0 && 0.0 <= w <= n
    ensures Times(w / n, n) == w && 0.0 <= w / n <= 1.0
  {
    var q := w / n;
    assert q * n == w;
    if q < 0.0 {
      TimesPositive(-q, n);
    }
    if q > 1.0 {
      TimesPositive(q - 1.0, n);
    }
  }

  ghost predicate Increasing(f: real -> real) { forall x, y | x < y :: f(x) < f(y) }

  ghost predicate Decreasing(f: real -> real) { forall x, y | x < y :: f(x) > f(y) }

  ghost function Mapped(f: real -> real, s: seq<real>): (r: seq<real>)
    ensures |r| == |s| && forall i | 0 <= i < |s| :: r[i] == f(s[i])
  {
    seq(|s|, i requires 0 <= i < |s| => f(s[i]))
  }

  lemma {:induction false} EarnedMapped(scores: seq<real>, labels: seq<real>, threshold: real, f: real -> real, a: real, k: nat)
    requires k <= |scores| == |labels|
    ensures Increasing(f) ==> Earned(Mapped(f, scores), labels, threshold, f(a), k) == Earned(scores, labels, threshold, a, k)
    ensures Decreasing(f) ==>
      Earned(Mapped(f, scores), labels, threshold, f(a), k) + Earned(scores, labels, threshold, a, k) == Negatives(labels, threshold, k) as real
  {
    if k > 0 {
      EarnedMapped(scores, labels, threshold, f, a, k - 1);
      var b := scores[k - 1];
      if a < b {
        assert Increasing(f) ==> f(a) < f(b);
        assert Decreasing(f) ==> f(a) > f(b);
      } else if b < a {
        assert Increasing(f) ==> f(b) < f(a);
        assert Decreasing(f) ==> f(b) > f(a);
      }
    }
  }

  /** A strictly increasing map of the scores changes nothing; a strictly decreasing one turns the statistic round. */
  lemma {:induction false} WinsMapped(scores: seq<real>, labels: seq<real>, threshold: real, f: real -> real, k: nat)
    requires k <= |scores| == |labels|
    ensures Increasing(f) ==> Wins(Mapped(f, scores), labels, threshold, k) == Wins(scores, labels, threshold, k)
    ensures Decreasing(f) ==>
      Wins(Mapped(f, scores), labels, threshold, k) + Wins(scores, labels, threshold, k) ==
        Times(Positives(labels, threshold, k) as real, Negatives(labels, threshold, |labels|) as real)
  {
    var neg := Negatives(labels, threshold, |labels|) as real;
    if k == 0 {
      TimesZero(neg);
    } else {
      WinsMapped(scores, labels, threshold, f, k - 1);
      EarnedMapped(scores, labels, threshold, f, scores[k - 1], |scores|);
      OneMore(Positives(labels, threshold, k - 1) as real, neg);
    }
  }

  /** The statistic of mapped scores: the same, or one minus it. */
  lemma AucMapped(scores: seq<real>, labels: seq<real>, threshold: real, f: real -> real, r: real, mapped: real)
    requires |scores| == |labels| && BothOccur(labels, threshold)
    requires Times(r, PairCount(labels, threshold)) == Wins(scores, labels, threshold, |scores|)
    requires Times(mapped, PairCount(labels, threshold)) == Wins(Mapped(f, scores), labels, threshold, |scores|)
    ensures Increasing(f) ==> mapped == r
    ensures Decreasing(f) ==> mapped == 1.0 - r
  {
    WinsMapped(scores, labels, threshold, f, |scores|);
    TimesPositive(Positives(labels, threshold, |labels|) as real, Negatives(labels, threshold, |labels|) as real);
    hide Wins, Earned, Positives, Negatives;
    var n := PairCount(labels, threshold);
    if Increasing(f) {
      SameQuotient(mapped, r, n);
    }
    if Decreasing(f) {
      Complement(r, n);
      SameQuotient(mapped, 1.0 - r, n);
    }
  }

  lemma Complement(r: real, n: real)
    ensures Times(1.0 - r, n) == n - Times(r, n)
  {
  }

  lemma SameQuotient(x: real, y: real, n: real)
    requires n > 0.0 && Times(x, n) == Times(y, n)
    ensures x == y
  {
    if x < y {
      TimesPositive(y - x, n);
      DifferenceTimes(y, x, n);
    } else if y < x {
      TimesPositive(x - y, n);
      DifferenceTimes(x, y, n);
    }
  }

  lemma DifferenceTimes(x: real, y: real, n: real)
    ensures Times(x - y, n) == Times(x, n) - Times(y, n)
  {
  }

  // ---- the least-squares head

  function Sum(z: seq<real>, k: nat): real
    requires k <= |z|
  {
    if k == 0 then 0.0 else Sum(z, k - 1) + z[k - 1]
  }

  /** The sum of products of deviations from two centres. */
  function Deviations(z: seq<real>, y: seq<real>, mz: real, my: real, k: nat): real
    requires k <= |z| == |y|
  {
    if k == 0 then 0.0 else Deviations(z, y, mz, my, k - 1) + Times(z[k - 1] - mz, y[k - 1] - my)
  }

  /** How far the line s z + b is from y. */
  function Residual(s: real, b: real, z: real, y: real): real { s * z + b - y }

  /** The same for the line through the centres, with slope s. */
  function Lean(s: real, u: real, w: real): real { s * u - w }

  /** The squared error of the line s z + b. */
  function Loss(z: seq<real>, y: seq<real>, s: real, b: real, k: nat): real
    requires k <= |z| == |y|
  {
    if k == 0 then 0.0 else
      Loss(z, y, s, b, k - 1) + Times(Residual(s, b, z[k - 1], y[k - 1]), Residual(s, b, z[k - 1], y[k - 1]))
  }

  function MeanOf(z: seq<real>): real
    requires z != []
  {
    Sum(z, |z|) / |z| as real
  }

  /** The spread of z, and its co-spread with y. */
  function Spread(z: seq<real>): real
    requires z != []
  {
    Deviations(z, z, MeanOf(z), MeanOf(z), |z|)
  }

  function CoSpread(z: seq<real>, y: seq<real>): real
    requires z != [] && |z| == |y|
  {
    Deviations(z, y, MeanOf(z), MeanOf(y), |z|)
  }

  lemma TermSplit(s: real, u: real, w: real, c: real)
    ensures Times(Lean(s, u, w) + c, Lean(s, u, w) + c) ==
      Times(Times(s, s), Times(u, u)) - Times(2.0 * s, Times(u, w)) + Times(w, w) + Times(2.0 * c, Lean(s, u, w)) + Times(c, c)
  {
    var p := s * u;
    assert (p - w + c) * (p - w + c) == p * p - 2.0 * (p * w) + w * w + 2.0 * (c * (p - w)) + c * c;
    assert p * p == (s * s) * (u * u) && 2.0 * (p * w) == (2.0 * s) * (u * w);
  }

  lemma PartsAdd(s: real, c: real, a: real, a1: real, b: real, b1: real, d: real, d1: real)
    ensures Times(Times(s, s), a + a1) == Times(Times(s, s), a) + Times(Times(s, s), a1)
    ensures Times(2.0 * s, b + b1) == Times(2.0 * s, b) + Times(2.0 * s, b1)
    ensures Times(2.0 * c, d + d1) == Times(2.0 * c, d) + Times(2.0 * c, d1)
  {
  }

  lemma OneMoreSquare(k: nat, c: real)
    requires k > 0
    ensures Times(k as real, Times(c, c)) == Times((k - 1) as real, Times(c, c)) + Times(c, c)
  {
  }

  /** The loss around any two centres, in terms of deviations from them. */
  lemma {:induction false} LossSplit(z: seq<real>, y: seq<real>, mz: real, my: real, s: real, b: real, k: nat)
    requires k <= |z| == |y|
    ensures var c := s * mz + b - my;
      Loss(z, y, s, b, k) ==
        Times(Times(s, s), Deviations(z, z, mz, mz, k)) - Times(2.0 * s, Deviations(z, y, mz, my, k)) + Deviations(y, y, my, my, k) +
        Times(2.0 * c, Centred(z, y, mz, my, s, k)) + Times(k as real, Times(c, c))
  {
    hide Times, Residual, Lean;
    var c := s * mz + b - my;
    if k == 0 {
      LossSplitNothing(s, c);
    } else {
      LossSplit(z, y, mz, my, s, b, k - 1);
      var u, w := z[k - 1] - mz, y[k - 1] - my;
      SameResidual(s, z[k - 1], mz, b, y[k - 1], my);
      TermSplit(s, u, w, c);
      PartsAdd(s, c, Deviations(z, z, mz, mz, k - 1), Times(u, u), Deviations(z, y, mz, my, k - 1), Times(u, w),
               Centred(z, y, mz, my, s, k - 1), Lean(s, u, w));
      OneMoreSquare(k, c);
    }
  }

  lemma LossSplitNothing(s: real, c: real)
    ensures Times(Times(s, s), 0.0) == 0.0 && Times(2.0 * s, 0.0) == 0.0 && Times(2.0 * c, 0.0) == 0.0 && Times(0.0, Times(c, c)) == 0.0
  {
  }

  lemma SameResidual(s: real, z: real, mz: real, b: real, y: real, my: real)
    ensures Residual(s, b, z, y) == Lean(s, z - mz, y - my) + (s * mz + b - my)
  {
    assert s * (z - mz) == s * z - s * mz;
  }

  /** The sum of s u - w, which vanishes around the means. */
  function Centred(z: seq<real>, y: seq<real>, mz: real, my: real, s: real, k: nat): real
    requires k <= |z| == |y|
  {
    if k == 0 then 0.0 else Centred(z, y, mz, my, s, k - 1) + Lean(s, z[k - 1] - mz, y[k - 1] - my)
  }

  lemma {:induction false} CentredIs(z: seq<real>, y: seq<real>, mz: real, my: real, s: real, k: nat)
    requires k <= |z| == |y|
    ensures Centred(z, y, mz, my, s, k) ==
      Times(s, Sum(z, k) - Times(k as real, mz)) - (Sum(y, k) - Times(k as real, my))
  {
    if k == 0 {
      CentredNothing(s, mz, my);
    } else {
      CentredIs(z, y, mz, my, s, k - 1);
      CentredStep(s, Sum(z, k - 1) - Times((k - 1) as real, mz), z[k - 1] - mz);
      KTimes(k, mz);
      KTimes(k, my);
    }
  }

  lemma CentredNothing(s: real, x: real, y: real)
    ensures Times(0.0, x) == 0.0 && Times(0.0, y) == 0.0 && Times(s, 0.0) == 0.0
  {
  }

  lemma CentredStep(s: real, a: real, u: real)
    ensures Times(s, a + u) == Times(s, a) + s * u
  {
  }

  lemma KTimes(k: nat, m: real)
    requires k > 0
    ensures Times(k as real, m) == Times((k - 1) as real, m) + m
  {
  }

  lemma MeanCentres(z: seq<real>)
    requires z != []
    ensures Sum(z, |z|) == Times(|z| as real, MeanOf(z))
  {
  }

  /** The loss of any line, around the means. */
  lemma LossAtMeans(z: seq<real>, y: seq<real>, s: real, b: real)
    requires z != [] && |z| == |y|
    ensures var c := s * MeanOf(z) + b - MeanOf(y);
      Loss(z, y, s, b, |z|) ==
        Times(Times(s, s), Spread(z)) - Times(2.0 * s, CoSpread(z, y)) + Spread(y) + Times(|z| as real, Times(c, c))
  {
    hide Loss, Deviations, Sum, Centred;
    LossSplit(z, y, MeanOf(z), MeanOf(y), s, b, |z|);
    CentredIs(z, y, MeanOf(z), MeanOf(y), s, |z|);
    MeanCentres(z);
    MeanCentres(y);
    VanishingTerm(s, s * MeanOf(z) + b - MeanOf(y));
  }

  lemma VanishingTerm(s: real, c: real)
    ensures Times(s, 0.0) == 0.0 && Times(2.0 * c, 0.0) == 0.0
  {
  }

  /** The line minimises the squared error over all lines. */
  ghost predicate IsBest(z: seq<real>, y: seq<real>, s: real, b: real)
    requires |z| == |y|
  {
    forall t: real, a: real :: Loss(z, y, s, b, |z|) <= Loss(z, y, t, a, |z|)
  }

  lemma {:induction false} SpreadNonNegative(z: seq<real>, m: real, k: nat)
    requires k <= |z|
    ensures Deviations(z, z, m, m, k) >= 0.0
  {
    if k > 0 {
      SpreadNonNegative(z, m, k - 1);
      TimesSquare(z[k - 1] - m);
    }
  }

  lemma {:induction false} NoSpreadNoCoSpread(z: seq<real>, y: seq<real>, mz: real, my: real, k: nat)
    requires k <= |z| == |y| && Deviations(z, z, mz, mz, k) == 0.0
    ensures Deviations(z, y, mz, my, k) == 0.0
  {
    if k > 0 {
      SpreadNonNegative(z, mz, k - 1);
      TimesSquare(z[k - 1] - mz);
      NoSpreadNoCoSpread(z, y, mz, my, k - 1);
      TimesZero(y[k - 1] - my);
    }
  }

  /** With positive spread the quadratic in the slope is lowest at cov / var. */
  lemma SlopeIsBest(v: real, q: real, s: real, t: real)
    requires v > 0.0 && Times(s, v) == q
    ensures Times(Times(t, t), v) - Times(2.0 * t, q) >= Times(Times(s, s), v) - Times(2.0 * s, q)
    ensures Times(Times(s, s), v) - Times(2.0 * s, q) == -Times(s, q)
  {
    TimesSquare(t - s);
    TimesNonNegative(Times(t - s, t - s), v);
    assert ((t - s) * (t - s)) * v == (t * t) * v - 2.0 * t * (s * v) + (s * s) * v;
    assert 2.0 * s * q == 2.0 * ((s * s) * v) && s * q == (s * s) * v;
  }

  /** Exactly when the returned line is the global minimiser: there is enough spread to divide by, or no slope to find. */
  lemma HeadIsBestExactly(z: seq<real>, y: seq<real>, s: real, b: real)
    requires z != [] && |z| == |y| && b == MeanOf(y) - s * MeanOf(z)
    requires if Spread(z) < 1e-12 then s == 0.0 else Times(s, Spread(z)) == CoSpread(z, y)
    ensures IsBest(z, y, s, b) <==> Spread(z) >= 1e-12 || CoSpread(z, y) == 0.0
  {
    hide Loss, Deviations, Sum;
    SpreadNonNegative(z, MeanOf(z), |z|);
    LossAtMeans(z, y, s, b);
    var v, q := Spread(z), CoSpread(z, y);
    assert s * MeanOf(z) + b - MeanOf(y) == 0.0;
    VanishingTerm(|z| as real, 0.0);
    hide Spread, CoSpread, MeanOf;
    if v >= 1e-12 || q == 0.0 {
      forall t: real, a: real ensures Loss(z, y, s, b, |z|) <= Loss(z, y, t, a, |z|) {
        LossAtMeans(z, y, t, a);
        var c := t * MeanOf(z) + a - MeanOf(y);
        TimesSquare(c);
        TimesNonNegative(|z| as real, Times(c, c));
        if v >= 1e-12 {
          SlopeIsBest(v, q, s, t);
        } else {
          TimesSquare(t);
          TimesNonNegative(Times(t, t), v);
          VanishingTerm(2.0 * t, 0.0);
          ZeroSlope(v);
        }
      }
    } else {
      SteeperIsBetter(z, y, s, b);
    }
  }

  /** Two scores a ten-millionth apart and the labels zero and one: the line through both points is refused for a flat one. */
  lemma NarrowSpreadMissesSlope()
    ensures var z, y := [0.0, 1e-7], [0.0, 1.0];
      Spread(z) < 1e-12 && CoSpread(z, y) != 0.0 && !IsBest(z, y, 0.0, 0.5)
  {
    var z, y := [0.0, 1e-7], [0.0, 1.0];
    assert Sum(z, 1) == 0.0 && Sum(y, 1) == 0.0;
    assert MeanOf(z) == 5e-8 && MeanOf(y) == 0.5;
    assert Deviations(z, z, 5e-8, 5e-8, 1) == Times(-5e-8, -5e-8) && Deviations(z, y, 5e-8, 0.5, 1) == Times(-5e-8, -0.5);
    HeadIsBestExactly(z, y, 0.0, 0.5);
  }

  lemma ZeroSlope(v: real)
    ensures Times(Times(0.0, 0.0), v) == 0.0 && Times(2.0 * 0.0, v) == 0.0
  {
    TimesZero(v);
  }

  /** Below the threshold a flat line is returned although a sloped one is better. */
  lemma SteeperIsBetter(z: seq<real>, y: seq<real>, s: real, b: real)
    requires z != [] && |z| == |y| && Spread(z) < 1e-12 && s == 0.0 && b == MeanOf(y) - s * MeanOf(z) && CoSpread(z, y) != 0.0
    ensures !IsBest(z, y, s, b)
  {
    hide Loss, Deviations, Sum, MeanOf;
    var v, q := Spread(z), CoSpread(z, y);
    SpreadNonNegative(z, MeanOf(z), |z|);
    if v == 0.0 {
      NoSpreadNoCoSpread(z, y, MeanOf(z), MeanOf(y), |z|);
      assert false;
    }
    var t := q / v;
    var a := MeanOf(y) - t * MeanOf(z);
    LossAtMeans(z, y, s, b);
    LossAtMeans(z, y, t, a);
    hide Spread, CoSpread;
    VanishingTerm(|z| as real, 0.0);
    assert t * MeanOf(z) + a - MeanOf(y) == 0.0 && s * MeanOf(z) + b - MeanOf(y) == 0.0;
    assert Times(t, v) == q;
    SlopeIsBest(v, q, t, 0.0);
    ZeroSlope(v);
    ZeroSlope(q);
    PositiveGain(t, v, q);
    assert Loss(z, y, t, a, |z|) < Loss(z, y, s, b, |z|);
  }

  lemma PositiveGain(t: real, v: real, q: real)
    requires v > 0.0 && Times(t, v) == q && q != 0.0
    ensures Times(t, q) > 0.0
  {
    if t == 0.0 {
      TimesZero(v);
    }
    TimesSquare(t);
    TimesPositive(Times(t, t), v);
    assert t * q == (t * t) * v;
  }

  /** The least-squares affine head. */
  method FitHeadMse(z: seq<real>, y: seq<real>) returns (s: real, b: real)
    requires z != [] && |z| == |y|
    ensures b == MeanOf(y) - s * MeanOf(z)
    ensures if Spread(z) < 1e-12 then s == 0.0 else Times(s, Spread(z)) == CoSpread(z, y)
    ensures IsBest(z, y, s, b) <==> Spread(z) >= 1e-12 || CoSpread(z, y) == 0.0
  {
    hide Spread, CoSpread, IsBest;
    var mz := Average(z);
    var my := Average(y);
    var cov, vr := Accumulate(z, y, mz, my);
    SpreadIs(z, y);
    if vr < 1e-12 {
      s, b := 0.0, my;
      FlatLine(mz);
    } else {
      s := cov / vr;
      b := my - s * mz;
      SlopeTimes(cov, vr);
    }
    HeadIsBestExactly(z, y, s, b);
  }

  lemma SpreadIs(z: seq<real>, y: seq<real>)
    requires z != [] && |z| == |y|
    ensures Spread(z) == Deviations(z, z, MeanOf(z), MeanOf(z), |z|)
    ensures CoSpread(z, y) == Deviations(z, y, MeanOf(z), MeanOf(y), |z|)
  {
  }

  lemma FlatLine(m: real)
    ensures 0.0 * m == 0.0
  {
  }

  lemma SlopeTimes(q: real, v: real)
    requires v != 0.0
    ensures Times(q / v, v) == q
  {
  }

  method Average(z: seq<real>) returns (m: real)
    requires z != []
    ensures m == MeanOf(z)
  {
    var total := 0.0;
    for i := 0 to |z|
      invariant total == Sum(z, i)
    {
      total := total + z[i];
    }
    m := total / |z| as real;
  }

  method Accumulate(z: seq<real>, y: seq<real>, mz: real, my: real) returns (cov: real, vr: real)
    requires |z| == |y|
    ensures cov == Deviations(z, y, mz, my, |z|) && vr == Deviations(z, z, mz, mz, |z|)
  {
    cov, vr := 0.0, 0.0;
    for i := 0 to |z|
      invariant cov == Deviations(z, y, mz, my, i) && vr == Deviations(z, z, mz, mz, i)
    {
      cov := cov + Times(z[i] - mz, y[i] - my);
      vr := vr + Times(z[i] - mz, z[i] - mz);
    }
  }
}
