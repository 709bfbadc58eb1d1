/**
  How much of a displaced vacuum the leak budget can see.  The budget adds up the mass
  between the cutoff and a fixed pad above it; what a large displacement carries past
  the pad is neither kept nor counted.
*/
module CvLeak {
  import opened Wrappers
  import opened Linear
  import opened ComplexNumbers
  import opened CvFibers
  import opened CvFock

  // ---- the exponential

  /** The k-th term of the exponential series at a. */
  function Term(a: real, k: nat): real {
    if k == 0 then 1.0 else Times(Term(a, k - 1), Times(a, Reciprocal(k as real)))
  }

  /** The first k terms. */
  function Series(a: real, k: nat): real {
    if k == 0 then 0.0 else Series(a, k - 1) + Term(a, k - 1)
  }

  /** All that is used of the exponential: it is positive, and times e^-a no partial series at a exceeds one. */
  ghost predicate Exponential(maths: Maths) { forall a | a >= 0.0 :: ExponentialAt(maths, a) }

  ghost predicate ExponentialAt(maths: Maths, a: real) {
    var start := maths.exp(Times(-0.5, a));
    start > 0.0 && forall k: nat :: Times(Times(start, start), Series(a, k)) <= 1.0
  }

  // ---- the mass of a level

  /** The probability of m photons after displacing the vacuum. */
  function Weight(d: Displacement, m: nat): real { Times(Times(d.start, d.start), Term(NormSq(d.alpha), m)) }

  lemma NormOfScaled(t: real, x: Complex, y: Complex)
    ensures NormSq(Scale(t, Mul(x, y))) == Times(NormSq(x), Times(NormSq(y), Times(t, t)))
  {
    var u := Mul(x, y);
    assert (t * u.re) * (t * u.re) == (t * t) * (u.re * u.re) && (t * u.im) * (t * u.im) == (t * t) * (u.im * u.im);
    assert u.re * u.re + u.im * u.im == (x.re * x.re + x.im * x.im) * (y.re * y.re + y.im * y.im) by { NormProduct(x.re, x.im, y.re, y.im); }
    RegroupNorm(t * t, NormSq(x), NormSq(y), u.re * u.re, u.im * u.im);
  }

  lemma RegroupNorm(tt: real, x: real, y: real, p: real, q: real)
    requires p + q == x * y
    ensures tt * p + tt * q == x * (y * tt)
  {
    assert tt * p + tt * q == tt * (x * y);
    assert tt * (x * y) == x * (y * tt);
  }

  lemma NormProduct(a: real, b: real, c: real, d: real)
    ensures (a * c - b * d) * (a * c - b * d) + (a * d + b * c) * (a * d + b * c) == (a * a + b * b) * (c * c + d * d)
  {
    assert (a * c - b * d) * (a * c - b * d) == (a * a) * (c * c) - 2.0 * ((a * b) * (c * d)) + (b * b) * (d * d);
    assert (a * d + b * c) * (a * d + b * c) == (a * a) * (d * d) + 2.0 * ((a * b) * (c * d)) + (b * b) * (c * c);
    assert (a * a + b * b) * (c * c + d * d) == (a * a) * (c * c) + (a * a) * (d * d) + (b * b) * (c * c) + (b * b) * (d * d);
  }

  lemma ReciprocalOfRoot(root: nat -> real, m: nat)
    requires Rooted(root) && m > 0
    ensures Times(Reciprocal(root(m)), Reciprocal(root(m))) == Reciprocal(m as real)
  {
    RootPositive(root, m);
    assert RootAt(root, m);
    SquareOfInverse(root(m), Reciprocal(root(m)), m as real, Reciprocal(m as real));
  }

  lemma SquareOfInverse(x: real, q: real, y: real, p: real)
    requires x != 0.0 && q == Reciprocal(x) && y == Times(x, x) && y != 0.0 && p == Reciprocal(y)
    ensures Times(q, q) == p
  {
    assert x * q == 1.0 && y * p == 1.0;
    assert (q * q) * (x * x) == (x * q) * (x * q);
    assert q * q == (q * q) * (y * p) == ((q * q) * (x * x)) * p;
  }

  lemma {:induction false} LevelWeighs(d: Displacement, m: nat)
    requires Rooted(d.root)
    ensures NormSq(d.At(m, 0)) == Weight(d, m)
  {
    hide Mul, Scale, Reciprocal, NormSq, Times;
    if m == 0 {
      NormOfReal(d.start);
    } else {
      LevelWeighs(d, m - 1);
      ReciprocalOfRoot(d.root, m);
      NormOfScaled(Reciprocal(d.root(m)), d.At(m - 1, 0), d.alpha);
      TimesTogether(Times(d.start, d.start), Term(NormSq(d.alpha), m - 1), Times(NormSq(d.alpha), Reciprocal(m as real)));
    }
  }

  lemma NormOfReal(x: real)
    ensures NormSq(C(x, 0.0)) == Times(Times(x, x), 1.0)
  {
  }

  lemma TimesTogether(a: real, b: real, c: real)
    ensures Times(Times(a, b), c) == Times(a, Times(b, c))
  {
    assert (a * b) * c == a * (b * c);
  }

  /** The vacuum: all of its mass on the lowest level. */
  ghost predicate IsVacuum(s: seq<Complex>) { |s| > 0 && forall k | 0 <= k < |s| :: s[k] == if k == 0 then ONE else ZERO }

  lemma {:induction false} VacuumRow(d: Displacement, s: seq<Complex>, m: nat, k: nat)
    requires IsVacuum(s) && 0 < k <= |s|
    ensures DRow(d, s, m, k) == d.At(m, 0)
  {
    hide Mul, Add, Displacement.At;
    if k == 1 {
      assert DRow(d, s, m, 0) == ZERO;
      MulOne(d.At(m, 0));
      AddZero(d.At(m, 0));
    } else {
      VacuumRow(d, s, m, k - 1);
      MulNothing(d.At(m, k - 1));
      AddZero(d.At(m, 0));
    }
  }

  lemma DisplacedWeighs(maths: Maths, s: seq<Complex>, alpha: Complex, m: nat)
    requires maths.Valid() && IsVacuum(s)
    ensures NormSq(DisplacedLevels(maths, s, alpha)(m)) == Weight(maths.Displacing(alpha), m)
  {
    hide Maths.Displacing, Maths.Valid, NormSq, Displacement.At, DRow, Weight;
    DisplacingRooted(maths, alpha);
    VacuumRow(maths.Displacing(alpha), s, m, |s|);
    LevelWeighs(maths.Displacing(alpha), m);
  }

  // ---- the sums

  /** The mass up to a level is the partial series. */
  lemma {:induction false} MassIsSeries(maths: Maths, s: seq<Complex>, alpha: Complex, k: nat)
    requires maths.Valid() && IsVacuum(s)
    ensures MassBetween(DisplacedLevels(maths, s, alpha), 0, k) ==
      var d := maths.Displacing(alpha); Times(Times(d.start, d.start), Series(NormSq(alpha), k))
  {
    hide NormSq, Times, DisplacedLevels;
    var d := maths.Displacing(alpha);
    if k == 0 {
      TimesByZero(Times(d.start, d.start));
    } else {
      MassIsSeries(maths, s, alpha, k - 1);
      DisplacedWeighs(maths, s, alpha, k - 1);
      DistributeTimes(Times(d.start, d.start), Series(NormSq(alpha), k - 1), Term(NormSq(alpha), k - 1));
    }
  }

  /** The photons on the first levels are |alpha|^2 times the mass on one level fewer: the mean of the whole is |alpha|^2. */
  lemma {:induction false} PhotonsAreMass(maths: Maths, s: seq<Complex>, alpha: Complex, k: nat)
    requires maths.Valid() && IsVacuum(s)
    ensures var f := DisplacedLevels(maths, s, alpha);
      PhotonsBetween(f, 0, k + 1) == Times(NormSq(alpha), MassBetween(f, 0, k))
  {
    hide NormSq, Times, DisplacedLevels, Maths.Displacing, Weight, Reciprocal;
    var f := DisplacedLevels(maths, s, alpha);
    if k == 0 {
      assert PhotonsBetween(f, 0, 1) == PhotonsBetween(f, 0, 0) + Times(0 as real, NormSq(f(0)));
      TimesZero(NormSq(f(0)));
      TimesByZero(NormSq(alpha));
    } else {
      PhotonsAreMass(maths, s, alpha, k - 1);
      DisplacedWeighs(maths, s, alpha, k - 1);
      DisplacedWeighs(maths, s, alpha, k);
      NextWeight(maths.Displacing(alpha), k);
      assert maths.Displacing(alpha).alpha == alpha by { AlphaKept(maths, alpha); }
      DistributeTimes(NormSq(alpha), MassBetween(f, 0, k - 1), NormSq(f(k - 1)));
    }
  }

  lemma AlphaKept(maths: Maths, alpha: Complex)
    ensures maths.Displacing(alpha).alpha == alpha && maths.Displacing(alpha).start == maths.exp(Times(-0.5, NormSq(alpha)))
  {
  }

  lemma NextWeight(d: Displacement, m: nat)
    requires m > 0
    ensures Times(m as real, Weight(d, m)) == Times(NormSq(d.alpha), Weight(d, m - 1))
  {
    hide NormSq;
    ReciprocalCancels(m as real);
    hide Reciprocal;
    NextProduct(m as real, Reciprocal(m as real), d.start * d.start, Term(NormSq(d.alpha), m - 1), NormSq(d.alpha));
  }

  lemma NextProduct(m: real, q: real, s: real, t: real, a: real)
    requires Times(m, q) == 1.0
    ensures Times(m, Times(s, Times(t, Times(a, q)))) == Times(a, Times(s, t))
  {
    assert m * (s * (t * (a * q))) == (m * q) * (a * (s * t));
  }

  lemma WeightPositive(d: Displacement, m: nat)
    requires d.start > 0.0
    ensures Weight(d, m) >= 0.0 && (d.alpha != ZERO ==> Weight(d, m) > 0.0)
    ensures d.alpha == ZERO && m > 0 ==> Weight(d, m) == 0.0
  {
    hide Times, NormSq;
    TimesPositive(d.start, d.start);
    AlphaWeighs(d.alpha);
    TermPositive(NormSq(d.alpha), m);
    TimesNonNegative(Times(d.start, d.start), Term(NormSq(d.alpha), m));
    if d.alpha != ZERO {
      TimesPositive(Times(d.start, d.start), Term(NormSq(d.alpha), m));
    }
    TimesByZero(Times(d.start, d.start));
  }

  lemma AlphaWeighs(a: Complex)
    ensures NormSq(a) >= 0.0 && (NormSq(a) == 0.0 <==> a == ZERO)
  {
    TimesSquare(a.re);
    TimesSquare(a.im);
  }

  lemma {:induction false} TermPositive(a: real, k: nat)
    requires a >= 0.0
    ensures Term(a, k) >= 0.0 && (a > 0.0 ==> Term(a, k) > 0.0) && (a == 0.0 && k > 0 ==> Term(a, k) == 0.0)
  {
    hide Times, Reciprocal;
    if k > 0 {
      TermPositive(a, k - 1);
      var q := Reciprocal(k as real);
      assert q > 0.0 by { ReciprocalPositive(k as real); }
      TimesNonNegative(a, q);
      TimesNonNegative(Term(a, k - 1), Times(a, q));
      if a > 0.0 {
        TimesPositive(a, q);
        TimesPositive(Term(a, k - 1), Times(a, q));
      } else {
        TimesZero(q);
        TimesByZero(Term(a, k - 1));
      }
    }
  }

  lemma ReciprocalPositive(x: real)
    requires x > 0.0
    ensures Reciprocal(x) > 0.0
  {
  }

  // ---- what the budget sees

  lemma {:induction false} MassSplits(f: nat -> Complex, lo: nat, hi: nat)
    requires lo <= hi
    ensures MassBetween(f, 0, hi) == MassBetween(f, 0, lo) + MassBetween(f, lo, hi)
    decreases hi
  {
    hide NormSq;
    if lo < hi {
      MassSplits(f, lo, hi - 1);
    }
  }

  /**
    After the vacuum is displaced, the mass that is kept and the mass recorded as lost
    never exceed one together, and make up one exactly when the displacement is zero:
    every other displacement loses mass that no budget records.
  */
  lemma RecordedMass(maths: Maths, before: Fock, alpha: Complex, after: Fock)
    requires maths.Valid() && Exponential(maths) && IsVacuum(before.amps) && before.lostNorm == 0.0 && before.lostWeight == 0.0
    requires Moved(maths, before, after, DisplacedLevels(maths, before.amps, alpha))
    ensures var all := MassBetween(LevelsOf(after.amps), 0, |after.amps|) + after.lostNorm;
      && all == MassBetween(DisplacedLevels(maths, before.amps, alpha), 0, |after.amps| + PAD)
      && all <= 1.0 && (all == 1.0 <==> alpha == ZERO)
  {
    hide NormSq, Times, DisplacedLevels, MassBetween, PhotonsBetween, Maths.Displacing, Weight, Series;
    var n, f := |after.amps|, DisplacedLevels(maths, before.amps, alpha);
    SameLevels(LevelsOf(after.amps), f, 0, n);
    MassSplits(f, n, n + PAD);
    PhotonsOutweighMass(f, n, n + PAD);
    PhotonsOutweighMass(f, 0, n);
    RootOfFraction(maths, 0.0);
    MassAtMostOne(maths, before.amps, alpha, n + PAD);
  }

  lemma MassAtMostOne(maths: Maths, s: seq<Complex>, alpha: Complex, k: nat)
    requires maths.Valid() && Exponential(maths) && IsVacuum(s) && k > 0
    ensures var all := MassBetween(DisplacedLevels(maths, s, alpha), 0, k); all <= 1.0 && (all == 1.0 <==> alpha == ZERO)
  {
    hide NormSq, Times, DisplacedLevels, Maths.Displacing, Weight, Series, MassBetween;
    var f, d := DisplacedLevels(maths, s, alpha), maths.Displacing(alpha);
    AlphaKept(maths, alpha);
    AlphaWeighs(alpha);
    assert ExponentialAt(maths, NormSq(alpha));
    MassIsSeries(maths, s, alpha, k);
    MassIsSeries(maths, s, alpha, k + 1);
    if alpha == ZERO {
      ZeroWhole(maths, s, k);
    } else {
      DisplacedWeighs(maths, s, alpha, k);
      WeightPositive(d, k);
      assert MassBetween(f, 0, k + 1) == MassBetween(f, 0, k) + NormSq(f(k)) by { NextMass(f, k); }
    }
  }

  lemma NextMass(f: nat -> Complex, k: nat)
    ensures MassBetween(f, 0, k + 1) == MassBetween(f, 0, k) + NormSq(f(k))
  {
    hide NormSq;
  }

  lemma {:induction false} ZeroWhole(maths: Maths, s: seq<Complex>, k: nat)
    requires maths.Valid() && IsVacuum(s) && k > 0
    ensures MassBetween(DisplacedLevels(maths, s, ZERO), 0, k) == 1.0
  {
    hide NormSq, DisplacedLevels, Maths.Valid;
    var f := DisplacedLevels(maths, s, ZERO);
    ZeroDisplacement(maths, s, ZERO, k - 1);
    UnitNorm();
    if k == 1 {
      assert MassBetween(f, 0, 0) == 0.0;
    } else {
      ZeroWhole(maths, s, k - 1);
    }
  }

  lemma UnitNorm()
    ensures NormSq(ONE) == 1.0 && NormSq(ZERO) == 0.0
  {
  }

  // ---- displacements the budget does not see

  function Power(k: nat): real { if k == 0 then 1.0 else 2.0 * Power(k - 1) }

  lemma Doubles(a: real, k: nat, t: real)
    requires t >= 0.0 && a >= 2.0 * (k as real) && k > 0
    ensures Times(t, Times(a, Reciprocal(k as real))) >= 2.0 * t
  {
    var q := Reciprocal(k as real);
    ReciprocalCancels(k as real);
    ReciprocalPositive(k as real);
    hide Reciprocal;
    assert a * q >= 2.0 by { RatioLarge(a, k as real, q); }
    TimesNonNegative(t, a * q - 2.0);
    assert t * (a * q - 2.0) == t * (a * q) - 2.0 * t;
  }

  lemma RatioLarge(a: real, k: real, q: real)
    requires q > 0.0 && Times(k, q) == 1.0 && a >= 2.0 * k
    ensures a * q >= 2.0
  {
    TimesNonNegative(a - 2.0 * k, q);
    assert (a - 2.0 * k) * q == a * q - 2.0 * (k * q);
  }

  /** As long as the terms double, all before one are at most that one. */
  lemma {:induction false} SeriesBelowTerm(a: real, k: nat)
    requires a >= 2.0 * (k as real)
    ensures Series(a, k) <= Term(a, k) && Term(a, k) >= 0.0
  {
    hide Times, Reciprocal;
    TermPositive(a, k);
    if k > 0 {
      SeriesBelowTerm(a, k - 1);
      Doubles(a, k, Term(a, k - 1));
    }
  }

  lemma {:induction false} TermsDouble(a: real, k: nat, j: nat)
    requires a >= 2.0 * ((k + j) as real)
    ensures Term(a, k + j) >= Times(Power(j), Term(a, k))
  {
    hide Times, Reciprocal;
    if j == 0 {
      OneTimesIs(Term(a, k));
    } else {
      TermsDouble(a, k, j - 1);
      TermPositive(a, k + j - 1);
      Doubles(a, k + j, Term(a, k + j - 1));
      TwoTimes(Power(j - 1), Term(a, k));
    }
  }

  lemma OneTimesIs(x: real)
    ensures Times(1.0, x) == x
  {
  }

  lemma TwoTimes(p: real, x: real)
    ensures Times(2.0 * p, x) == 2.0 * Times(p, x)
  {
    assert (2.0 * p) * x == 2.0 * (p * x);
  }

  lemma {:induction false} PowerPositive(k: nat)
    ensures Power(k) >= 1.0
  {
    if k > 0 {
      PowerPositive(k - 1);
    }
  }

  lemma Chain(w: real, p: real, series: real, term: real, later: real, all: real)
    requires w >= 0.0 && p >= 1.0 && series <= term && later >= Times(p, term) && Times(w, all) <= 1.0 && all >= later
    ensures Times(p, Times(w, series)) <= 1.0
  {
    TimesNonNegative(p, term - series);
    assert p * (term - series) == p * term - p * series;
    assert later >= p * series;
    TimesNonNegative(w, all - p * series);
    assert w * (all - p * series) == w * all - w * (p * series);
    assert p * (w * series) == w * (p * series);
  }

  /**
    A displacement with |alpha|^2 at least twice a level that lies j above the pad: of
    the displaced vacuum, no more than 2^-j is kept or recorded, whatever the cutoff.
  */
  lemma FarDisplacementUnseen(maths: Maths, before: Fock, alpha: Complex, after: Fock, j: nat)
    requires maths.Valid() && Exponential(maths) && IsVacuum(before.amps) && before.lostNorm == 0.0 && before.lostWeight == 0.0
    requires Moved(maths, before, after, DisplacedLevels(maths, before.amps, alpha))
    requires NormSq(alpha) >= 2.0 * ((|before.amps| + PAD + j) as real)
    ensures var n := |before.amps|;
      && Times(Power(j), MassBetween(LevelsOf(after.amps), 0, n) + after.lostNorm) <= 1.0
      && Times(Power(j), after.lostWeight) <= (n + PAD - 1) as real
      && MassBetween(LevelsOf(after.amps), 0, n) > 0.0
  {
    hide NormSq, Times, DisplacedLevels, MassBetween, PhotonsBetween, Maths.Displacing, Weight, Series, Term, Power;
    var n, a, f, d := |before.amps|, NormSq(alpha), DisplacedLevels(maths, before.amps, alpha), maths.Displacing(alpha);
    var k := n + PAD;
    RecordedMass(maths, before, alpha, after);
    MassIsSeries(maths, before.amps, alpha, k);
    AlphaKept(maths, alpha);
    AlphaWeighs(alpha);
    assert ExponentialAt(maths, a);
    var w := Times(d.start, d.start);
    TimesPositive(d.start, d.start);
    SeriesBelowTerm(a, k);
    TermsDouble(a, k, j);
    PowerPositive(j);
    SeriesHolds(a, k + j);
    Chain(w, Power(j), Series(a, k), Term(a, k), Term(a, k + j), Series(a, k + j + 1));
    WeightWithin(maths, before, alpha, after, Power(j));
    KeptSome(maths, before, alpha, after);
  }

  lemma {:induction false} SeriesNonNegative(a: real, k: nat)
    requires a >= 0.0
    ensures Series(a, k) >= 0.0
  {
    if k > 0 {
      SeriesNonNegative(a, k - 1);
      TermPositive(a, k - 1);
    }
  }

  lemma SeriesHolds(a: real, k: nat)
    requires a >= 0.0
    ensures Series(a, k + 1) >= Term(a, k)
  {
    SeriesNonNegative(a, k);
  }

  /** The recorded photons are at most the highest padded level's for each unit of recorded mass. */
  lemma WeightWithin(maths: Maths, before: Fock, alpha: Complex, after: Fock, p: real)
    requires maths.Valid() && IsVacuum(before.amps) && before.lostNorm == 0.0 && before.lostWeight == 0.0 && p >= 0.0
    requires Moved(maths, before, after, DisplacedLevels(maths, before.amps, alpha))
    requires Times(p, MassBetween(LevelsOf(after.amps), 0, |before.amps|) + after.lostNorm) <= 1.0
    requires MassBetween(DisplacedLevels(maths, before.amps, alpha), 0, |before.amps| + PAD) <= 1.0
    ensures Times(p, after.lostWeight) <= (|before.amps| + PAD - 1) as real
  {
    hide NormSq, Times, DisplacedLevels, MassBetween, PhotonsBetween;
    var n, f := |before.amps|, DisplacedLevels(maths, before.amps, alpha);
    PhotonsOutweighMass(f, n, n + PAD);
    PhotonsOutweighMass(LevelsOf(after.amps), 0, n);
    RootOfFraction(maths, 0.0);
    var top, spill := (n + PAD - 1) as real, MassBetween(f, n, n + PAD);
    assert after.lostWeight <= Times(top, spill);
    var kept := MassBetween(LevelsOf(after.amps), 0, n);
    MassSplits(f, n, n + PAD);
    PhotonsOutweighMass(f, 0, n);
    assert after.lostNorm == spill;
    LessPhotons(p, kept, spill, top, after.lostWeight);
  }

  lemma LessPhotons(p: real, kept: real, spill: real, top: real, photons: real)
    requires p >= 0.0 && kept >= 0.0 && spill >= 0.0 && top >= 0.0 && photons <= Times(top, spill) && Times(p, kept + spill) <= 1.0
    ensures Times(p, photons) <= top
  {
    TimesNonNegative(p, kept);
    assert p * (kept + spill) == p * kept + p * spill;
    TimesNonNegative(p, top * spill - photons);
    assert p * (top * spill - photons) == top * (p * spill) - p * photons;
    TimesNonNegative(top, 1.0 - p * spill);
    assert top * (1.0 - p * spill) == top - top * (p * spill);
  }

  lemma KeptSome(maths: Maths, before: Fock, alpha: Complex, after: Fock)
    requires maths.Valid() && Exponential(maths) && IsVacuum(before.amps)
    requires Moved(maths, before, after, DisplacedLevels(maths, before.amps, alpha))
    ensures MassBetween(LevelsOf(after.amps), 0, |before.amps|) > 0.0
  {
    hide NormSq, Times, DisplacedLevels, PhotonsBetween, Maths.Displacing, Term;
    var n, f, d := |before.amps|, DisplacedLevels(maths, before.amps, alpha), maths.Displacing(alpha);
    SameLevels(LevelsOf(after.amps), f, 0, n);
    MassSplits(f, 1, n);
    PhotonsOutweighMass(f, 1, n);
    AlphaKept(maths, alpha);
    AlphaWeighs(alpha);
    assert ExponentialAt(maths, NormSq(alpha));
    DisplacedWeighs(maths, before.amps, alpha, 0);
    TimesPositive(d.start, d.start);
    TermPositive(NormSq(alpha), 0);
    assert Weight(d, 0) > 0.0 by { WeightOfVacuum(d); }
    assert MassBetween(f, 0, 1) == MassBetween(f, 0, 0) + NormSq(f(0));
  }

  lemma WeightOfVacuum(d: Displacement)
    requires d.start > 0.0
    ensures Weight(d, 0) > 0.0
  {
    TimesPositive(d.start, d.start);
  }

  lemma {:induction false} PowerAdds(j: nat, k: nat)
    ensures Power(j + k) == Times(Power(j), Power(k))
  {
    hide Times;
    if j == 0 {
      OneTimesIs(Power(k));
    } else {
      PowerAdds(j - 1, k);
      TwoTimes(Power(j - 1), Power(k));
    }
  }

  lemma NinetySix()
    ensures Power(96) >= 1e9
  {
    assert Power(4) == 2.0 * (2.0 * (2.0 * (2.0 * Power(0))));
    PowerAdds(4, 4);
    PowerAdds(8, 8);
    PowerAdds(16, 16);
    PowerAdds(32, 64);
    PowerPositive(64);
    assert Power(32) == 65536.0 * 65536.0;
    AtLeastFirst(Power(32), Power(64));
  }

  lemma AtLeastFirst(a: real, b: real)
    requires a >= 0.0 && b >= 1.0
    ensures Times(a, b) >= a
  {
    TimesNonNegative(a, b - 1.0);
  }

  lemma SmallShare(p: real, w: real)
    requires p >= 1e9 && w >= 0.0 && Times(p, w) <= 103.0
    ensures w <= 1e-6
  {
    TimesNonNegative(p - 1e9, w);
    assert (p - 1e9) * w == p * w - 1e9 * w;
  }

  lemma TwentySquared()
    ensures NormSq(C(20.0, 0.0)) == 400.0
  {
  }

  /**
    The vacuum on eight levels, displaced by twenty: the mean photon number is four
    hundred, yet a readout that tolerates a millionth of a photon lost answers seven at most.
  */
  method FarReadout(maths: Maths) returns (r: Result<real, CvError>, ghost levels: nat -> Complex)
    requires maths.Valid() && Exponential(maths)
    ensures r.Ok? && 0.0 <= r.value <= 7.0
    ensures exists s :: |s| == 8 && IsVacuum(s) && levels == DisplacedLevels(maths, s, C(20.0, 0.0))
    ensures forall k: nat :: PhotonsBetween(levels, 0, k + 1) == Times(400.0, MassBetween(levels, 0, k))
  {
    hide NormSq, Times, Settled, DisplacedLevels, MassBetween, PhotonsBetween, Maths.Valid, Exponential, Power;
    var alpha := C(20.0, 0.0);
    var made := Vacuum(8);
    var s := made.value;
    ghost var before := s.View();
    var moved := s.Displace(maths, Some(alpha));
    ghost var after := s.View();
    levels := DisplacedLevels(maths, before.amps, alpha);
    TwentySquared();
    FarDisplacementUnseen(maths, before, alpha, after, 96);
    NinetySix();
    SmallShare(Power(96), after.lostWeight);
    forall k: nat ensures PhotonsBetween(levels, 0, k + 1) == Times(400.0, MassBetween(levels, 0, k)) {
      PhotonsAreMass(maths, before.amps, alpha, k);
    }
    r := s.ExpectN(1e-6);
  }
}
