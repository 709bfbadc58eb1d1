/**
  How much of a squeezed vacuum the leak budget can see.  The even levels weigh as the
  central binomial coefficients do, and the square of a partial sum of those stays below
  a geometric sum.
*/
module CvSqueezeLeak {
  import opened Linear
  import opened ComplexNumbers
  import opened CvFibers
  import opened CvSqueeze
  import opened CvFock
  import opened CvLeak
  import Neumann

  // ---- sums

  function SumOf(f: nat -> real, k: nat): real {
    if k == 0 then 0.0 else SumOf(f, k - 1) + f(k - 1)
  }

  /** The first k terms of the reversed sum are the last k of the sum. */
  lemma {:induction false} SumReversed(f: nat -> real, g: nat -> real, n: nat, k: nat)
    requires k <= n && forall i: nat | i < n :: g(i) == f(n - 1 - i)
    ensures SumOf(g, k) == SumOf(f, n) - SumOf(f, n - k)
  {
    if k > 0 { SumReversed(f, g, n, k - 1); }
  }

  // ---- the central binomial coefficients

  /** The k-th central binomial coefficient over 4^k. */
  function Central(k: nat): real {
    if k == 0 then 1.0 else Times(Central(k - 1), (2 * k - 1) as real / (2 * k) as real)
  }

  lemma {:induction false} CentralPositive(k: nat)
    ensures Central(k) > 0.0
  {
    if k > 0 {
      CentralPositive(k - 1);
      TimesPositive(Central(k - 1), (2 * k - 1) as real / (2 * k) as real);
    }
  }

  lemma CentralNext(k: nat)
    requires k > 0
    ensures Times((2 * k) as real, Central(k)) == Times((2 * k - 1) as real, Central(k - 1))
  {
    var x, q := Central(k - 1), (2 * k - 1) as real / (2 * k) as real;
    assert q * (2 * k) as real == (2 * k - 1) as real;
    assert (2 * k) as real * (x * q) == x * (q * (2 * k) as real);
  }

  /** The products whose indices add up to n. */
  function Pairs(n: nat): nat -> real { (i: nat) => if i <= n then Times(Central(i), Central(n - i)) else 0.0 }

  function Weighted(n: nat): nat -> real { (i: nat) => Times(i as real, Pairs(n)(i)) }

  lemma WeightedAt(n: nat, i: nat)
    requires i <= n
    ensures Weighted(n)(i) == Times(i as real, Pairs(n)(i)) && Pairs(n)(i) == Times(Central(i), Central(n - i))
  {
    hide Times, Central;
  }

  /** By symmetry the average index of a product is n/2. */
  lemma TwiceWeighted(n: nat)
    ensures 2.0 * SumOf(Weighted(n), n + 1) == Times(n as real, SumOf(Pairs(n), n + 1))
  {
    hide Central, Times, Weighted, Pairs, Backwards;
    BackwardsAt(n);
    SumReversed(Weighted(n), Backwards(n), n + 1, n + 1);
    assert SumOf(Weighted(n), 0) == 0.0;
    SharesAddUp(n, n + 1);
  }

  /** The same sum from its other end. */
  function Backwards(n: nat): nat -> real { (i: nat) => if i <= n then Weighted(n)(n - i) else 0.0 }

  lemma BackwardsAt(n: nat)
    ensures forall i: nat | i <= n :: Backwards(n)(i) == Weighted(n)(n - i)
  {
  }

  lemma {:induction false} SharesAddUp(n: nat, k: nat)
    requires k <= n + 1
    ensures SumOf(Weighted(n), k) + SumOf(Backwards(n), k) == Times(n as real, SumOf(Pairs(n), k))
  {
    hide Central, Times, Weighted, Pairs, Backwards;
    if k == 0 {
      TimesByZero(n as real);
    } else {
      var i := k - 1;
      SharesAddUp(n, i);
      BackwardsAt(n);
      WeightedAt(n, i);
      WeightedAt(n, n - i);
      TwoShares(i as real, (n - i) as real, Central(i), Central(n - i));
      assert i as real + (n - i) as real == n as real;
      DistributeTimes(n as real, SumOf(Pairs(n), i), Pairs(n)(i));
    }
  }

  lemma TwoShares(i: real, j: real, x: real, y: real)
    ensures Times(i + j, Times(x, y)) == Times(i, Times(x, y)) + Times(j, Times(y, x))
  {
    assert x * y == y * x;
    assert (i + j) * (x * y) == i * (x * y) + j * (x * y);
  }

  lemma WeightedNext(n: nat, i: nat)
    requires i < n
    ensures 2.0 * Weighted(n)(i + 1) == 2.0 * Weighted(n - 1)(i) + Pairs(n - 1)(i)
  {
    hide Central, Times, Weighted, Pairs;
    CentralNext(i + 1);
    WeightedAt(n, i + 1);
    WeightedAt(n - 1, i);
    assert (2 * (i + 1)) as real == 2.0 * (i as real + 1.0);
    ShiftShare(i as real, Central(i + 1), Central(i), Central(n - 1 - i));
  }

  lemma ShiftShare(i: real, next: real, x: real, y: real)
    requires Times(2.0 * (i + 1.0), next) == Times(2.0 * (i + 1.0) - 1.0, x)
    ensures 2.0 * Times(i + 1.0, Times(next, y)) == 2.0 * Times(i, Times(x, y)) + Times(x, y)
  {
    assert 2.0 * ((i + 1.0) * (next * y)) == (2.0 * (i + 1.0) * next) * y;
    assert ((2.0 * (i + 1.0) - 1.0) * x) * y == (2.0 * i + 1.0) * (x * y);
    assert (2.0 * i + 1.0) * (x * y) == 2.0 * (i * (x * y)) + x * y;
  }

  lemma {:induction false} WeightedSums(n: nat, k: nat)
    requires n > 0 && k <= n
    ensures 2.0 * SumOf(Weighted(n), k + 1) == 2.0 * SumOf(Weighted(n - 1), k) + SumOf(Pairs(n - 1), k)
  {
    if k == 0 {
      assert SumOf(Weighted(n), 1) == SumOf(Weighted(n), 0) + Weighted(n)(0);
      TimesZero(Pairs(n)(0));
    } else {
      hide Weighted, Pairs;
      WeightedSums(n, k - 1);
      WeightedNext(n, k - 1);
    }
  }

  /** The products whose indices add up to n make up one: the square of the series is geometric. */
  lemma {:induction false} PairsMakeOne(n: nat)
    ensures SumOf(Pairs(n), n + 1) == 1.0
  {
    hide SumOf, Pairs;
    if n == 0 {
      FirstPair();
    } else {
      PairsMakeOne(n - 1);
      PairsStep(n);
    }
  }

  lemma PairsStep(n: nat)
    requires n > 0 && SumOf(Pairs(n - 1), n) == 1.0
    ensures SumOf(Pairs(n), n + 1) == 1.0
  {
    hide *;
    TwiceWeighted(n);
    TwiceWeighted(n - 1);
    WeightedSums(n, n);
    assert (n - 1) as real == n as real - 1.0;
    SumShares(n as real, SumOf(Pairs(n), n + 1));
  }

  lemma FirstPair()
    ensures SumOf(Pairs(0), 1) == 1.0
  {
    assert SumOf(Pairs(0), 1) == SumOf(Pairs(0), 0) + Pairs(0)(0);
    assert Pairs(0)(0) == Times(1.0, 1.0);
  }

  lemma SumShares(n: real, all: real)
    requires n >= 1.0 && Times(n, all) == Times(n - 1.0, 1.0) + 1.0
    ensures all == 1.0
  {
    assert n * (all - 1.0) == n * all - n;
    if all > 1.0 { TimesPositive(n, all - 1.0); } else if all < 1.0 { TimesPositive(n, 1.0 - all); }
  }

  // ---- the partial sums

  /** The weight of level 2i, up to the common factor. */
  function Share(t: real, i: nat): real { Times(Central(i), Neumann.Pow(t, i)) }

  /** The weight of the first k even levels. */
  function Partial(t: real, k: nat): real {
    if k == 0 then 0.0 else Partial(t, k - 1) + Share(t, k - 1)
  }

  /** The first k shares, each with the partial sum that leaves n in all. */
  function Square(t: real, n: nat, k: nat): real
    requires k <= n
  {
    if k == 0 then 0.0 else Square(t, n, k - 1) + Times(Share(t, k - 1), Partial(t, n - (k - 1)))
  }

  lemma {:induction false} PowTimes(t: real, i: nat, j: nat)
    ensures Times(Neumann.Pow(t, i), Neumann.Pow(t, j)) == Neumann.Pow(t, i + j)
  {
    if i == 0 {
      TimesOne(Neumann.Pow(t, j));
    } else {
      PowTimes(t, i - 1, j);
      TimesTogether(t, Neumann.Pow(t, i - 1), Neumann.Pow(t, j));
    }
  }

  lemma TimesOne(x: real)
    ensures Times(1.0, x) == x && Times(x, 1.0) == x
  {
  }

  lemma SharesTogether(t: real, n: nat, i: nat)
    requires i <= n
    ensures Times(Share(t, i), Share(t, n - i)) == Times(Neumann.Pow(t, n), Pairs(n)(i))
  {
    hide Central, Neumann.Pow, Times;
    PowTimes(t, i, n - i);
    Exchange(Central(i), Neumann.Pow(t, i), Central(n - i), Neumann.Pow(t, n - i));
  }

  lemma Exchange(x: real, p: real, y: real, q: real)
    ensures Times(Times(x, p), Times(y, q)) == Times(Times(p, q), Times(x, y))
  {
    assert (x * p) * (y * q) == (p * q) * (x * y);
  }

  /** One more in all adds one power of t for each pair of shares. */
  lemma {:induction false} SquareNext(t: real, n: nat, k: nat)
    requires k <= n
    ensures Square(t, n + 1, k) == Square(t, n, k) + Times(Neumann.Pow(t, n), SumOf(Pairs(n), k))
  {
    hide Share, Pairs, Neumann.Pow, Times, Partial;
    if k == 0 {
      TimesByZero(Neumann.Pow(t, n));
    } else {
      var i := k - 1;
      SquareNext(t, n, i);
      SharesTogether(t, n, i);
      DistributeTimes(Neumann.Pow(t, n), SumOf(Pairs(n), i), Pairs(n)(i));
      DistributeTimes(Share(t, i), Partial(t, n - i), Share(t, n - i));
      PartialNext(t, n - i);
      assert n + 1 - i == n - i + 1;
    }
  }

  lemma PartialNext(t: real, k: nat)
    ensures Partial(t, k + 1) == Partial(t, k) + Share(t, k)
  {
  }

  lemma SquareLast(t: real, n: nat)
    ensures Square(t, n + 1, n + 1) == Square(t, n + 1, n) + Times(Share(t, n), Partial(t, 1))
  {
    hide Partial, Share, Times;
  }

  /** The whole square is the geometric sum. */
  lemma {:induction false} SquareIsGeometric(t: real, n: nat)
    ensures Square(t, n + 1, n + 1) == Neumann.Series(t, n)
  {
    hide Pairs, Share, Neumann.Pow, Times, Partial, SumOf, Square;
    FirstShare(t);
    SquareLast(t, n);
    if n == 0 {
      TimesOne(1.0);
      assert Square(t, 1, 0) == 0.0 by { NoSquare(t, 1); }
    } else {
      SquareIsGeometric(t, n - 1);
      SquareNext(t, n, n);
      PairsMakeOne(n);
      PairsFirst(n);
      SharesTogether(t, n, n);
      assert Share(t, n - n) == 1.0;
      TimesOne(Share(t, n));
      DistributeTimes(Neumann.Pow(t, n), SumOf(Pairs(n), n), Pairs(n)(n));
      TimesOne(Neumann.Pow(t, n));
    }
  }

  lemma NoSquare(t: real, n: nat)
    ensures Square(t, n, 0) == 0.0
  {
  }

  lemma PairsFirst(n: nat)
    ensures SumOf(Pairs(n), n + 1) == SumOf(Pairs(n), n) + Pairs(n)(n)
  {
  }

  lemma FirstShare(t: real)
    ensures Share(t, 0) == 1.0 && Partial(t, 1) == 1.0
  {
    TimesOne(1.0);
    assert Partial(t, 1) == Partial(t, 0) + Share(t, 0);
  }

  lemma {:induction false} PowNonNegative(t: real, i: nat)
    requires t >= 0.0
    ensures Neumann.Pow(t, i) >= 0.0 && (t > 0.0 ==> Neumann.Pow(t, i) > 0.0)
  {
    if i > 0 {
      PowNonNegative(t, i - 1);
      TimesNonNegative(t, Neumann.Pow(t, i - 1));
      if t > 0.0 { TimesPositive(t, Neumann.Pow(t, i - 1)); }
    }
  }

  lemma ShareNonNegative(t: real, i: nat)
    requires t >= 0.0
    ensures Share(t, i) >= 0.0
  {
    CentralPositive(i);
    PowNonNegative(t, i);
    TimesNonNegative(Central(i), Neumann.Pow(t, i));
  }

  lemma {:induction false} PartialGrows(t: real, i: nat, k: nat)
    requires t >= 0.0 && i <= k
    ensures 0.0 <= Partial(t, i) <= Partial(t, k)
    decreases k
  {
    hide Share;
    if i < k {
      PartialGrows(t, i, k - 1);
      ShareNonNegative(t, k - 1);
    } else if k > 0 {
      PartialGrows(t, k - 1, k - 1);
      ShareNonNegative(t, k - 1);
    }
  }

  lemma {:induction false} SquareGrows(t: real, n: nat, k: nat, m: nat)
    requires t >= 0.0 && k <= m <= n
    ensures Square(t, n, k) <= Square(t, n, m)
    decreases m
  {
    hide Share, Partial;
    if k < m {
      SquareGrows(t, n, k, m - 1);
      ShareNonNegative(t, m - 1);
      PartialGrows(t, n - (m - 1), n);
      TimesNonNegative(Share(t, m - 1), Partial(t, n - (m - 1)));
    }
  }

  /** The square of the sum of the first k shares holds only products counted among the first 2k. */
  lemma {:induction false} PartialSquared(t: real, k: nat, j: nat)
    requires t >= 0.0 && j <= k
    ensures Times(Partial(t, j), Partial(t, k)) <= Square(t, 2 * k, j)
  {
    if j == 0 {
      TimesZero(Partial(t, k));
    } else {
      hide Share;
      var i := j - 1;
      PartialSquared(t, k, i);
      ShareNonNegative(t, i);
      PartialGrows(t, k, 2 * k - i);
      AtLeast(Share(t, i), Partial(t, k), Partial(t, 2 * k - i));
      CollectTimes(Partial(t, i), Share(t, i), Partial(t, k));
    }
  }

  lemma AtLeast(u: real, x: real, y: real)
    requires u >= 0.0 && x <= y
    ensures Times(u, x) <= Times(u, y)
  {
    TimesNonNegative(u, y - x);
    assert u * (y - x) == u * y - u * x;
  }

  /** The partial sums of (1 - t)^(-1/2): squared and times 1 - t they miss one by a power of t. */
  lemma PartialBound(t: real, k: nat)
    requires 0.0 <= t < 1.0 && k > 0
    ensures Times(1.0 - t, Times(Partial(t, k), Partial(t, k))) <= 1.0 - Neumann.Pow(t, 2 * k)
  {
    hide Partial, Square, Neumann.Series, Neumann.Pow;
    PartialSquared(t, k, k);
    SquareGrows(t, 2 * k, k, 2 * k);
    SquareIsGeometric(t, 2 * k - 1);
    Neumann.SeriesTimes(1.0 - t, 2 * k - 1);
    AtLeast(1.0 - t, Times(Partial(t, k), Partial(t, k)), Neumann.Series(t, 2 * k - 1));
  }

  // ---- the squeezed vacuum

  /** All that is used of the hyperbolic functions. */
  ghost predicate Hyperbolic(maths: Maths) { forall r :: HyperbolicAt(maths, r) }

  ghost predicate HyperbolicAt(maths: Maths, r: real) {
    var sech := Reciprocal(maths.cosh(r));
    maths.cosh(r) > 0.0 && Times(sech, sech) + Times(maths.tanh(r), maths.tanh(r)) == 1.0 && (maths.tanh(r) == 0.0 ==> r == 0.0)
  }

  lemma RatioSquared(s: Squeeze, k: nat)
    requires s.Valid() && k > 0
    ensures Times(s.ratio(k), s.ratio(k)) == (2 * k - 1) as real / (2 * k) as real
  {
    assert s.RatioAt(k);
  }

  /** The mass of level 2k of the squeezed vacuum. */
  lemma {:induction false} EvenWeighs(s: Squeeze, k: nat)
    requires s.Valid()
    ensures Times(s.Even(k), s.Even(k)) == Times(Times(s.start, s.start), Share(Times(s.tanh, s.tanh), k))
  {
    if k == 0 {
      FirstShare(Times(s.tanh, s.tanh));
      TimesOne(Times(s.start, s.start));
    } else {
      EvenWeighs(s, k - 1);
      RatioSquared(s, k);
      hide Times;
      EvenStep(s.Even(k - 1), s.tanh, s.ratio(k), Times(s.start, s.start), Central(k - 1), Neumann.Pow(Times(s.tanh, s.tanh), k - 1));
    }
  }

  lemma EvenStep(e: real, h: real, r: real, w: real, c: real, p: real)
    requires Times(e, e) == Times(w, Times(c, p))
    ensures Times(Times(e, Times(-h, r)), Times(e, Times(-h, r))) == Times(w, Times(Times(c, Times(r, r)), Times(Times(h, h), p)))
  {
    assert (e * (-h * r)) * (e * (-h * r)) == (e * e) * ((h * h) * (r * r));
    assert (w * (c * p)) * ((h * h) * (r * r)) == w * ((c * (r * r)) * ((h * h) * p));
  }

  lemma {:induction false} SqueezedVacuumRow(s: Squeeze, a: seq<Complex>, m: nat, k: nat)
    requires IsVacuum(a) && 0 < k <= |a|
    ensures SRow(s, a, m, k) == C(s.At(m, 0), 0.0)
  {
    hide Mul, Add, Squeeze.At;
    if k == 1 {
      assert SRow(s, a, m, 0) == ZERO;
      MulOne(C(s.At(m, 0), 0.0));
      AddZero(C(s.At(m, 0), 0.0));
    } else {
      SqueezedVacuumRow(s, a, m, k - 1);
      MulNothing(C(s.At(m, k - 1), 0.0));
      AddZero(C(s.At(m, 0), 0.0));
    }
  }

  lemma SqueezedWeighs(maths: Maths, a: seq<Complex>, r: real, m: nat)
    requires maths.Valid() && IsVacuum(a)
    ensures var s := maths.Squeezing(r);
      NormSq(SqueezedLevels(maths, a, r)(m)) ==
        if m % 2 == 1 then 0.0 else Times(Times(s.start, s.start), Share(Times(s.tanh, s.tanh), m / 2))
  {
    hide Maths.Squeezing, Maths.Valid, SRow, Share, Times;
    var s := maths.Squeezing(r);
    SqueezingValid(maths, r);
    SqueezedVacuumRow(s, a, m, |a|);
    NormOfReal(s.At(m, 0));
    TimesOne(Times(s.At(m, 0), s.At(m, 0)));
    if m % 2 == 1 {
      ParityKept(s, m, 0);
      TimesZero(0.0);
    } else {
      EvenWeighs(s, m / 2);
    }
  }

  /** The mass on the first m levels is that of the even ones. */
  lemma {:induction false} SqueezedMass(maths: Maths, a: seq<Complex>, r: real, m: nat)
    requires maths.Valid() && IsVacuum(a)
    ensures var s := maths.Squeezing(r);
      MassBetween(SqueezedLevels(maths, a, r), 0, m) == Times(Times(s.start, s.start), Partial(Times(s.tanh, s.tanh), (m + 1) / 2))
  {
    hide NormSq, Times, SqueezedLevels, Maths.Squeezing, Share;
    var s := maths.Squeezing(r);
    var w, t := Times(s.start, s.start), Times(s.tanh, s.tanh);
    if m == 0 {
      TimesByZero(w);
    } else {
      SqueezedMass(maths, a, r, m - 1);
      SqueezedWeighs(maths, a, r, m - 1);
      if m % 2 == 1 {
        DistributeTimes(w, Partial(t, m / 2), Share(t, m / 2));
        assert (m + 1) / 2 == m / 2 + 1 && (m - 1) / 2 == m / 2 && (m - 1 + 1) / 2 == m / 2;
      } else {
        assert (m + 1) / 2 == m / 2 && (m - 1) % 2 == 1;
      }
    }
  }

  lemma StartSquared(maths: Maths, r: real)
    requires maths.Valid() && Hyperbolic(maths)
    ensures var s := maths.Squeezing(r);
      var w, t := Times(s.start, s.start), Times(s.tanh, s.tanh);
      w > 0.0 && Times(w, w) == 1.0 - t && 0.0 <= t < 1.0 && (t == 0.0 <==> r == 0.0)
  {
    hide Times, Reciprocal;
    assert HyperbolicAt(maths, r);
    var c := maths.cosh(r);
    assert maths.SqrtAt(c);
    RootOfFraction(maths, c);
    SquareOfInverse(maths.sqrt(c), Reciprocal(maths.sqrt(c)), c, Reciprocal(c));
    ReciprocalPositive(c);
    TimesPositive(Reciprocal(c), Reciprocal(c));
    TimesSquare(maths.tanh(r));
  }

  /** The mass found on the first m levels, squared, misses one by at least a power of tanh^2. */
  lemma SqueezedMassBound(maths: Maths, a: seq<Complex>, r: real, m: nat)
    requires maths.Valid() && Hyperbolic(maths) && IsVacuum(a) && m > 0
    ensures var all := MassBetween(SqueezedLevels(maths, a, r), 0, m);
      all >= 0.0 && Times(all, all) <= 1.0 - Neumann.Pow(Times(maths.tanh(r), maths.tanh(r)), 2 * ((m + 1) / 2))
  {
    hide MassBetween, SqueezedLevels, Times, Partial, Neumann.Pow;
    StartSquared(maths, r);
    SqueezedMass(maths, a, r, m);
    var s := maths.Squeezing(r);
    var w, t := Times(s.start, s.start), Times(s.tanh, s.tanh);
    var p := Partial(t, (m + 1) / 2);
    PartialBound(t, (m + 1) / 2);
    PartialGrows(t, 0, (m + 1) / 2);
    TimesNonNegative(w, p);
    Exchange(w, p, w, p);
    SquareOfProduct(w, p);
  }

  lemma SquareOfProduct(w: real, p: real)
    ensures Times(Times(w, p), Times(w, p)) == Times(Times(w, w), Times(p, p))
  {
    assert (w * p) * (w * p) == (w * w) * (p * p);
  }

  /**
    After the vacuum is squeezed, the mass that is kept and the mass recorded as lost
    never exceed one together, and make up one exactly when the squeezing is zero.
    Their square misses one by at least tanh(r)^(2 (cutoff + PAD)).
  */
  lemma RecordedSqueezedMass(maths: Maths, before: Fock, r: real, after: Fock)
    requires maths.Valid() && Hyperbolic(maths) && IsVacuum(before.amps) && before.lostNorm == 0.0 && before.lostWeight == 0.0
    requires Moved(maths, before, after, SqueezedLevels(maths, before.amps, r))
    ensures var all := MassBetween(LevelsOf(after.amps), 0, |after.amps|) + after.lostNorm;
      && all == MassBetween(SqueezedLevels(maths, before.amps, r), 0, |after.amps| + PAD)
      && all <= 1.0 && (all == 1.0 <==> r == 0.0)
      && Times(all, all) <= 1.0 - Neumann.Pow(Times(maths.tanh(r), maths.tanh(r)), 2 * ((|after.amps| + PAD + 1) / 2))
  {
    hide NormSq, Times, SqueezedLevels, MassBetween, PhotonsBetween, Maths.Squeezing, Neumann.Pow;
    var n, f := |after.amps|, SqueezedLevels(maths, before.amps, r);
    var whole := MassBetween(f, 0, n + PAD);
    SameLevels(LevelsOf(after.amps), f, 0, n);
    MassSplits(f, n, n + PAD);
    PhotonsOutweighMass(f, n, n + PAD);
    PhotonsOutweighMass(f, 0, n);
    RootOfFraction(maths, 0.0);
    SqueezedMassBound(maths, before.amps, r, n + PAD);
    SqueezedWhole(maths, before.amps, r, n + PAD);
  }

  lemma SqueezedWhole(maths: Maths, a: seq<Complex>, r: real, m: nat)
    requires maths.Valid() && Hyperbolic(maths) && IsVacuum(a) && m > 0
    ensures var all := MassBetween(SqueezedLevels(maths, a, r), 0, m); all <= 1.0 && (all == 1.0 <==> r == 0.0)
  {
    hide NormSq, Times, SqueezedLevels, MassBetween, Maths.Squeezing, Neumann.Pow;
    var t := Times(maths.tanh(r), maths.tanh(r));
    var all := MassBetween(SqueezedLevels(maths, a, r), 0, m);
    SqueezedMassBound(maths, a, r, m);
    assert 0.0 <= t && (t == 0.0 <==> r == 0.0) by { StartSquared(maths, r); TanhOf(maths, r); }
    PowNonNegative(t, 2 * ((m + 1) / 2));
    AtMostOne(all);
    if r == 0.0 {
      UnsqueezedWhole(maths, a, m);
    }
  }

  lemma TanhOf(maths: Maths, r: real)
    ensures maths.Squeezing(r).tanh == maths.tanh(r)
  {
  }

  lemma AtMostOne(x: real)
    requires x >= 0.0 && Times(x, x) <= 1.0
    ensures x <= 1.0 && (x == 1.0 <==> Times(x, x) == 1.0)
  {
    if x > 1.0 {
      TimesPositive(x - 1.0, x + 1.0);
      Products(x);
    } else {
      TimesNonNegative(x, 1.0 - x);
      Products(x);
      TimesOne(1.0);
    }
  }

  lemma {:induction false} UnsqueezedWhole(maths: Maths, a: seq<Complex>, m: nat)
    requires maths.Valid() && IsVacuum(a) && m > 0
    ensures MassBetween(SqueezedLevels(maths, a, 0.0), 0, m) == 1.0
  {
    hide NormSq, SqueezedLevels, Maths.Valid;
    ZeroSqueeze(maths, a, m - 1);
    UnitNorm();
    if m == 1 {
      assert MassBetween(SqueezedLevels(maths, a, 0.0), 0, 0) == 0.0;
    } else {
      UnsqueezedWhole(maths, a, m - 1);
    }
  }
}
