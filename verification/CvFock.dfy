/**
  One continuous-variable mode truncated at a cutoff: gates that overwrite the
  amplitudes and bank what falls past the cutoff, and a photon-number readout that
  refuses once too much has fallen.
*/
module CvFock {
  import opened Wrappers
  import opened Linear
  import opened ComplexNumbers
  import opened CvFibers
  import opened CvSqueeze

  /** The real functions the gates use. */
  datatype Maths = Maths(sqrt: real -> real, exp: real -> real, cosh: real -> real, tanh: real -> real, cos: real -> real, sin: real -> real) {
    ghost predicate Valid() {
      && (forall x | x >= 0.0 :: SqrtAt(x))
      && (forall x :: CircleAt(x))
      && exp(0.0) == 1.0 && cosh(0.0) == 1.0 && tanh(0.0) == 0.0
    }

    ghost predicate SqrtAt(x: real) { sqrt(x) >= 0.0 && Times(sqrt(x), sqrt(x)) == x }

    ghost predicate CircleAt(x: real) { Times(cos(x), cos(x)) + Times(sin(x), sin(x)) == 1.0 }

    function Root(): nat -> real { (m: nat) => sqrt(m as real) }

    function Displacing(alpha: Complex): Displacement {
      Displacement(exp(Times(-0.5, NormSq(alpha))), alpha, Root())
    }

    function Squeezing(r: real): Squeeze {
      Squeeze(Reciprocal(sqrt(cosh(r))), Reciprocal(cosh(r)), tanh(r), Root(),
              (k: nat) => if k == 0 then 0.0 else sqrt((2 * k - 1) as real / (2 * k) as real))
    }
  }

  lemma MathsRooted(maths: Maths)
    requires maths.Valid()
    ensures Rooted(maths.Root())
  {
    forall m: nat ensures RootAt(maths.Root(), m) {
      assert maths.SqrtAt(m as real);
    }
  }

  lemma DisplacingRooted(maths: Maths, alpha: Complex)
    requires maths.Valid()
    ensures Rooted(maths.Displacing(alpha).root)
  {
    MathsRooted(maths);
  }

  lemma DisplacingZero(maths: Maths)
    requires maths.Valid()
    ensures maths.Displacing(ZERO).start == 1.0 && maths.Displacing(ZERO).alpha == ZERO
  {
    hide NormSq, Times;
    NothingWeighsNothing();
    TimesByZero(-0.5);
  }

  lemma SqueezingValid(maths: Maths, r: real)
    requires maths.Valid()
    ensures maths.Squeezing(r).Valid()
  {
    MathsRooted(maths);
    forall k: nat | k > 0 ensures maths.Squeezing(r).RatioAt(k) {
      var q := (2 * k - 1) as real / (2 * k) as real;
      assert maths.SqrtAt(q);
      assert Times(q, (2 * k) as real) == (2 * k - 1) as real;
    }
  }

  // ---- sums over levels

  /** The probability mass on the levels from lo to hi. */
  ghost function MassBetween(f: nat -> Complex, lo: nat, hi: nat): real
    requires lo <= hi
    decreases hi
  {
    if lo == hi then 0.0 else MassBetween(f, lo, hi - 1) + NormSq(f(hi - 1))
  }

  /** The same, each level counted with its photon number. */
  ghost function PhotonsBetween(f: nat -> Complex, lo: nat, hi: nat): real
    requires lo <= hi
    decreases hi
  {
    if lo == hi then 0.0 else PhotonsBetween(f, lo, hi - 1) + Times((hi - 1) as real, NormSq(f(hi - 1)))
  }

  ghost function LevelsOf(s: seq<Complex>): nat -> Complex { (m: nat) => if m < |s| then s[m] else ZERO }

  lemma {:induction false} SameLevels(f: nat -> Complex, g: nat -> Complex, lo: nat, hi: nat)
    requires lo <= hi && forall m: nat | lo <= m < hi :: NormSq(f(m)) == NormSq(g(m))
    ensures MassBetween(f, lo, hi) == MassBetween(g, lo, hi) && PhotonsBetween(f, lo, hi) == PhotonsBetween(g, lo, hi)
    decreases hi
  {
    hide NormSq;
    if lo < hi {
      SameLevels(f, g, lo, hi - 1);
    }
  }

  lemma NormNonNegative(a: Complex)
    ensures NormSq(a) >= 0.0
  {
    TimesSquare(a.re);
    TimesSquare(a.im);
  }

  /** What falls past level lo carries at least lo photons for each unit of mass, and less than hi. */
  lemma {:induction false} PhotonsOutweighMass(f: nat -> Complex, lo: nat, hi: nat)
    requires lo <= hi
    ensures MassBetween(f, lo, hi) >= 0.0 && PhotonsBetween(f, lo, hi) >= 0.0
    ensures PhotonsBetween(f, lo, hi) >= Times(lo as real, MassBetween(f, lo, hi))
    ensures PhotonsBetween(f, lo, hi) <= Times((if hi == 0 then 0 else hi - 1) as real, MassBetween(f, lo, hi))
    decreases hi
  {
    if lo == hi {
      TimesByZero(lo as real);
    } else {
      PhotonsOutweighMass(f, lo, hi - 1);
      var x, y := NormSq(f(hi - 1)), MassBetween(f, lo, hi - 1);
      NormNonNegative(f(hi - 1));
      hide NormSq;
      WeightStep(lo as real, (hi - 1) as real, x, y);
      if hi - 1 > 0 {
        WeightStep((hi - 2) as real, (hi - 1) as real, y, x);
      }
    }
  }

  lemma WeightStep(a: real, b: real, x: real, y: real)
    requires 0.0 <= a <= b && x >= 0.0 && y >= 0.0
    ensures Times(b, x) >= Times(a, x) >= 0.0 && Times(a, x + y) == Times(a, x) + Times(a, y) && Times(b, x + y) == Times(b, x) + Times(b, y)
    ensures Times(b, y) >= Times(a, y)
  {
    TimesNonNegative(a, x);
    TimesNonNegative(b - a, x);
    TimesNonNegative(b - a, y);
  }

  // ---- the state

  datatype CvError = TruncationLeak(lost: real, tolerance: real) | CutoffTooSmall(cutoff: nat, needed: nat) | Unrepresentable

  const PAD := 96

  function Min(x: real, y: real): real { if x <= y then x else y }

  /** A state as a value. */
  datatype Fock = Fock(amps: seq<Complex>, lostNorm: real, lostWeight: real) {
    predicate Valid() { |amps| > 0 && lostNorm >= 0.0 && lostWeight >= 0.0 }
  }

  class FockState {
    var amps: array<Complex>
    var lostNorm: real
    var lostWeight: real

    ghost function View(): (f: Fock)
      reads this, amps
    {
      Fock(amps[..], lostNorm, lostWeight)
    }

    ghost predicate Valid()
      reads this
    {
      amps.Length > 0 && lostNorm >= 0.0 && lostWeight >= 0.0
    }

    constructor (amps: array<Complex>, lostNorm: real, lostWeight: real)
      requires amps.Length > 0 && lostNorm >= 0.0 && lostWeight >= 0.0
      ensures Valid() && this.amps == amps && this.lostNorm == lostNorm && this.lostWeight == lostWeight
    {
      this.amps, this.lostNorm, this.lostWeight := amps, lostNorm, lostWeight;
    }

    /** The squared norm of what is represented. */
    method NormSquared() returns (r: real)
      ensures r == MassBetween(LevelsOf(amps[..]), 0, amps.Length) && r >= 0.0
    {
      r := 0.0;
      ghost var f := LevelsOf(amps[..]);
      for k := 0 to amps.Length
        invariant r == MassBetween(f, 0, k)
      {
        r := r + NormSq(amps[k]);
      }
      PhotonsOutweighMass(f, 0, amps.Length);
    }

    /** The mean photon number, refused when more photons have fallen past the cutoff than the caller tolerates. */
    method ExpectN(tolerance: real) returns (r: Result<real, CvError>)
      requires Valid()
      ensures lostWeight > tolerance <==> r.Err? && r.error == TruncationLeak(lostWeight, tolerance)
      ensures lostWeight <= tolerance && MassBetween(LevelsOf(amps[..]), 0, amps.Length) == 0.0 <==> r == Err(Unrepresentable)
      ensures r.Ok? <==> lostWeight <= tolerance && MassBetween(LevelsOf(amps[..]), 0, amps.Length) != 0.0
      ensures r.Ok? ==> var f := LevelsOf(amps[..]);
        && Times(r.value, MassBetween(f, 0, amps.Length)) == PhotonsBetween(f, 0, amps.Length)
        && 0.0 <= r.value <= (amps.Length - 1) as real
    {
      if lostWeight > tolerance {
        return Err(TruncationLeak(lostWeight, tolerance));
      }
      var norm := NormSquared();
      if norm <= 0.0 {
        return Err(Unrepresentable);
      }
      var n := 0.0;
      ghost var f := LevelsOf(amps[..]);
      for k := 0 to amps.Length
        invariant n == PhotonsBetween(f, 0, k)
      {
        n := n + Times(k as real, NormSq(amps[k]));
      }
      PhotonsOutweighMass(f, 0, amps.Length);
      QuotientBounds(n, norm, (amps.Length - 1) as real);
      return Ok(n / norm);
    }

    /** A phase on every level. */
    method Rotate(maths: Maths, angles: seq<real>)
      requires Valid() && maths.Valid() && |angles| == amps.Length
      modifies amps
      ensures forall k | 0 <= k < amps.Length :: NormSq(amps[k]) == old(NormSq(amps[k])) && (old(amps[k]) == ZERO ==> amps[k] == ZERO)
      ensures forall k | 0 <= k < amps.Length :: amps[k] == Mul(old(amps[k]), C(maths.cos(angles[k]), maths.sin(angles[k])))
    {
      hide NormSq, Mul;
      for k := 0 to amps.Length
        invariant forall j | 0 <= j < k :: NormSq(amps[j]) == old(NormSq(amps[j])) && (old(amps[j]) == ZERO ==> amps[j] == ZERO)
        invariant forall j | 0 <= j < k :: amps[j] == Mul(old(amps[j]), C(maths.cos(angles[j]), maths.sin(angles[j])))
        invariant forall j | k <= j < amps.Length :: amps[j] == old(amps[j])
      {
        PhaseKeepsNorm(maths, amps[k], angles[k]);
        amps[k] := Mul(amps[k], C(maths.cos(angles[k]), maths.sin(angles[k])));
      }
    }

    /** exp(i chi n^2): a phase on every level, and no leak. */
    method Kerr(maths: Maths, chi: Option<real>) returns (r: Result<(), CvError>)
      requires Valid() && maths.Valid()
      modifies amps
      ensures Valid() && (r.Ok? <==> chi.Some?)
      ensures forall k | 0 <= k < amps.Length :: NormSq(amps[k]) == old(NormSq(amps[k])) && (old(amps[k]) == ZERO ==> amps[k] == ZERO)
      ensures r.Ok? ==> forall k | 0 <= k < amps.Length ::
        var angle := Times(chi.value, Times(k as real, k as real));
        amps[k] == Mul(old(amps[k]), C(maths.cos(angle), maths.sin(angle)))
      ensures r.Err? ==> amps[..] == old(amps[..])
    {
      hide NormSq, Mul;
      if chi.None? {
        return Err(Unrepresentable);
      }
      var angles := seq(amps.Length, (k: nat) => Times(chi.value, Times(k as real, k as real)));
      Rotate(maths, angles);
      return Ok(());
    }

    /** exp(i phi n): a phase on every level, and no leak. */
    method PhaseShift(maths: Maths, phi: Option<real>) returns (r: Result<(), CvError>)
      requires Valid() && maths.Valid()
      modifies amps
      ensures Valid() && (r.Ok? <==> phi.Some?)
      ensures forall k | 0 <= k < amps.Length :: NormSq(amps[k]) == old(NormSq(amps[k])) && (old(amps[k]) == ZERO ==> amps[k] == ZERO)
      ensures r.Ok? ==> forall k | 0 <= k < amps.Length ::
        var angle := Times(phi.value, k as real);
        amps[k] == Mul(old(amps[k]), C(maths.cos(angle), maths.sin(angle)))
      ensures r.Err? ==> amps[..] == old(amps[..])
    {
      hide NormSq, Mul;
      if phi.None? {
        return Err(Unrepresentable);
      }
      var angles := seq(amps.Length, (k: nat) => Times(phi.value, k as real));
      Rotate(maths, angles);
      return Ok(());
    }

    /** Keep what lies below the cutoff and bank what lies above it, with the root of what was lost before. */
    method Settle(maths: Maths, out: array<Complex>)
      requires Valid() && maths.Valid() && out != amps && out.Length == amps.Length + PAD
      modifies this`lostNorm, this`lostWeight, amps
      ensures Valid()
      ensures forall m | 0 <= m < amps.Length :: amps[m] == old(out[m])
      ensures Settled(maths, LevelsOf(old(out[..])), amps.Length, old(lostNorm), old(lostWeight), lostNorm, lostWeight)
    {
      hide NormSq, MassBetween, PhotonsBetween, LevelsOf;
      var mass, weight := Spill(out, amps.Length);
      var prior := maths.sqrt(lostNorm);
      assert maths.SqrtAt(lostNorm);
      CopyInto(out, amps);
      lostNorm := Min(mass + prior, 1.0);
      lostWeight := lostWeight + (weight + prior);
    }

    /** The displacement D(alpha), applied on a padded ladder. */
    method Displace(maths: Maths, alpha: Option<Complex>) returns (r: Result<(), CvError>)
      requires Valid() && maths.Valid()
      modifies this`lostNorm, this`lostWeight, amps
      ensures Valid() && (r.Ok? <==> alpha.Some?)
      ensures r.Ok? ==>
        var f := DisplacedLevels(maths, old(amps[..]), alpha.value);
        && (forall m: nat | m < amps.Length :: amps[m] == f(m))
        && Settled(maths, f, amps.Length, old(lostNorm), old(lostWeight), lostNorm, lostWeight)
      ensures r.Err? ==> amps[..] == old(amps[..]) && lostNorm == old(lostNorm) && lostWeight == old(lostWeight)
    {
      if alpha.None? {
        return Err(Unrepresentable);
      }
      var out := new Complex[amps.Length + PAD](_ => ZERO);
      DisplacingRooted(maths, alpha.value);
      hide Maths.Displacing, DRow, NormSq, MassBetween, PhotonsBetween;
      DisplaceFiber(maths.Displacing(alpha.value), amps[..], out);
      ghost var f, g := DisplacedLevels(maths, old(amps[..]), alpha.value), LevelsOf(out[..]);
      SameLevels(f, g, amps.Length, amps.Length + PAD);
      Settle(maths, out);
      return Ok(());
    }

    /** The squeeze S(r) for real r, applied on a padded ladder. */
    method SqueezeBy(maths: Maths, x: Option<real>) returns (r: Result<(), CvError>)
      requires Valid() && maths.Valid()
      modifies this`lostNorm, this`lostWeight, amps
      ensures Valid() && (r.Ok? <==> x.Some?)
      ensures r.Ok? ==>
        var f := SqueezedLevels(maths, old(amps[..]), x.value);
        && (forall m: nat | m < amps.Length :: amps[m] == f(m))
        && Settled(maths, f, amps.Length, old(lostNorm), old(lostWeight), lostNorm, lostWeight)
      ensures r.Err? ==> amps[..] == old(amps[..]) && lostNorm == old(lostNorm) && lostWeight == old(lostWeight)
    {
      if x.None? {
        return Err(Unrepresentable);
      }
      var out := new Complex[amps.Length + PAD](_ => ZERO);
      hide Maths.Squeezing, SRow, NormSq, MassBetween, PhotonsBetween;
      SqueezeFiber(maths.Squeezing(x.value), amps[..], out);
      ghost var f, g := SqueezedLevels(maths, old(amps[..]), x.value), LevelsOf(out[..]);
      SameLevels(f, g, amps.Length, amps.Length + PAD);
      Settle(maths, out);
      return Ok(());
    }
  }

  /** The mass and the photon-weighted mass above the cutoff. */
  method Spill(out: array<Complex>, cutoff: nat) returns (mass: real, weight: real)
    requires cutoff <= out.Length
    ensures mass == MassBetween(LevelsOf(out[..]), cutoff, out.Length) && mass >= 0.0
    ensures weight == PhotonsBetween(LevelsOf(out[..]), cutoff, out.Length) && weight >= 0.0
  {
    hide NormSq;
    mass, weight := 0.0, 0.0;
    ghost var f := LevelsOf(out[..]);
    for k := cutoff to out.Length
      invariant mass == MassBetween(f, cutoff, k) && weight == PhotonsBetween(f, cutoff, k)
    {
      mass := mass + NormSq(out[k]);
      weight := weight + Times(k as real, NormSq(out[k]));
    }
    PhotonsOutweighMass(f, cutoff, out.Length);
  }

  method CopyInto(source: array<Complex>, target: array<Complex>)
    requires source != target && target.Length <= source.Length
    modifies target
    ensures forall m | 0 <= m < target.Length :: target[m] == source[m]
  {
    for m := 0 to target.Length
      invariant forall j | 0 <= j < m :: target[j] == source[j]
    {
      target[m] := source[m];
    }
  }

  lemma NothingWeighsNothing()
    ensures NormSq(ZERO) == 0.0
  {
  }

  lemma QuotientBounds(n: real, norm: real, top: real)
    requires norm > 0.0 && n >= 0.0 && n <= Times(top, norm)
    ensures Times(n / norm, norm) == n && 0.0 <= n / norm <= top
  {
    var q := n / norm;
    assert q * norm == n;
    if q < 0.0 {
      TimesPositive(-q, norm);
    }
    if q > top {
      TimesPositive(q - top, norm);
    }
  }

  lemma PhaseKeepsNorm(maths: Maths, a: Complex, angle: real)
    requires maths.Valid()
    ensures NormSq(Mul(a, C(maths.cos(angle), maths.sin(angle)))) == NormSq(a)
    ensures a == ZERO ==> Mul(a, C(maths.cos(angle), maths.sin(angle))) == ZERO
  {
    assert maths.CircleAt(angle);
    MulZero(C(maths.cos(angle), maths.sin(angle)));
    UnitFactorKeepsNorm(a, maths.cos(angle), maths.sin(angle));
  }

  lemma UnitFactorKeepsNorm(a: Complex, c: real, s: real)
    requires Times(c, c) + Times(s, s) == 1.0
    ensures NormSq(Mul(a, C(c, s))) == NormSq(a)
  {
    var x, y := a.re, a.im;
    assert (x * c - y * s) * (x * c - y * s) == (x * x) * (c * c) - 2.0 * ((x * y) * (c * s)) + (y * y) * (s * s);
    assert (x * s + y * c) * (x * s + y * c) == (x * x) * (s * s) + 2.0 * ((x * y) * (c * s)) + (y * y) * (c * c);
    assert (x * x) * (c * c) + (x * x) * (s * s) == (x * x) * (c * c + s * s);
    assert (y * y) * (s * s) + (y * y) * (c * c) == (y * y) * (c * c + s * s);
  }

  ghost function DisplacedLevels(maths: Maths, s: seq<Complex>, alpha: Complex): nat -> Complex {
    (m: nat) => DRow(maths.Displacing(alpha), s, m, |s|)
  }

  ghost function SqueezedLevels(maths: Maths, s: seq<Complex>, r: real): nat -> Complex {
    (m: nat) => SRow(maths.Squeezing(r), s, m, |s|)
  }

  // ---- the leak budget

  /** How the budget moves when the levels f are cut at the cutoff. */
  ghost predicate Settled(maths: Maths, f: nat -> Complex, cutoff: nat, norm: real, weight: real, norm': real, weight': real) {
    && norm' == Min(MassBetween(f, cutoff, cutoff + PAD) + maths.sqrt(norm), 1.0)
    && weight' == weight + (PhotonsBetween(f, cutoff, cutoff + PAD) + maths.sqrt(norm))
  }

  lemma RootOfFraction(maths: Maths, x: real)
    requires maths.Valid() && x >= 0.0
    ensures maths.sqrt(x) >= 0.0 && (maths.sqrt(x) == 0.0 <==> x == 0.0)
    ensures x <= 1.0 ==> x <= maths.sqrt(x) <= 1.0
  {
    assert maths.SqrtAt(x);
    var y := maths.sqrt(x);
    TimesSquare(y);
    if x <= 1.0 {
      if y > 1.0 {
        TimesPositive(y - 1.0, y + 1.0);
        Products(y);
      } else {
        TimesNonNegative(y, 1.0 - y);
        Products(y);
      }
    }
  }

  lemma Products(y: real)
    ensures Times(y - 1.0, y + 1.0) == Times(y, y) - 1.0 && Times(y, 1.0 - y) == y - Times(y, y)
  {
  }

  /**
    The photon-weighted loss never shrinks, and grows by at least the cutoff for each
    unit of spilled mass; the plain loss never shrinks exactly when it started at one or less.
  */
  lemma BudgetGrows(maths: Maths, f: nat -> Complex, cutoff: nat, norm: real, weight: real, norm': real, weight': real)
    requires maths.Valid() && norm >= 0.0 && weight >= 0.0 && Settled(maths, f, cutoff, norm, weight, norm', weight')
    ensures weight' >= weight + Times(cutoff as real, MassBetween(f, cutoff, cutoff + PAD)) && weight' >= weight
    ensures 0.0 <= norm' <= 1.0
    ensures norm' >= norm <==> norm <= 1.0
  {
    PhotonsOutweighMass(f, cutoff, cutoff + PAD);
    RootOfFraction(maths, norm);
    TimesNonNegative(cutoff as real, MassBetween(f, cutoff, cutoff + PAD));
  }

  // ---- doing nothing

  lemma {:induction false} IdentityRow(d: Displacement, s: seq<Complex>, m: nat, k: nat)
    requires Rooted(d.root) && d.alpha == ZERO && d.start == 1.0 && k <= |s|
    ensures DRow(d, s, m, k) == if m < k then s[m] else ZERO
  {
    hide Mul, Add, Displacement.At;
    if k > 0 {
      IdentityRow(d, s, m, k - 1);
      NoDisplacement(d, m, k - 1);
      MulZero(s[k - 1]);
      MulOne(s[k - 1]);
      AddZero(s[k - 1]);
      AddZero(DRow(d, s, m, k - 1));
    }
  }

  /** Displacing by zero leaves every amplitude alone and puts nothing past the cutoff. */
  lemma ZeroDisplacement(maths: Maths, s: seq<Complex>, alpha: Complex, m: nat)
    requires maths.Valid() && alpha == ZERO
    ensures DisplacedLevels(maths, s, alpha)(m) == LevelsOf(s)(m)
  {
    hide Maths.Displacing, DRow, Maths.Valid;
    DisplacingRooted(maths, ZERO);
    DisplacingZero(maths);
    IdentityRow(maths.Displacing(ZERO), s, m, |s|);
  }

  /**
    A gate that spills nothing past the cutoff still moves the leak budget: it stands
    still exactly when nothing had been lost before.
  */
  lemma QuietGateStillCharges(maths: Maths, s: seq<Complex>, f: nat -> Complex, norm: real, weight: real, norm': real, weight': real)
    requires maths.Valid() && |s| > 0 && norm >= 0.0
    requires (forall m: nat :: f(m) == LevelsOf(s)(m)) && Settled(maths, f, |s|, norm, weight, norm', weight')
    ensures weight' == weight <==> norm == 0.0
    ensures norm <= 1.0 ==> norm' == maths.sqrt(norm)
  {
    hide NormSq, MassBetween, PhotonsBetween, Maths.Valid;
    SameLevels(f, LevelsOf([]), |s|, |s| + PAD);
    NothingAbove(|s|, |s| + PAD);
    RootOfFraction(maths, norm);
  }

  lemma {:induction false} NothingAbove(lo: nat, hi: nat)
    requires lo <= hi
    ensures MassBetween(LevelsOf([]), lo, hi) == 0.0 && PhotonsBetween(LevelsOf([]), lo, hi) == 0.0
    decreases hi
  {
    hide NormSq, Times;
    if lo < hi {
      NothingAbove(lo, hi - 1);
      NothingWeighsNothing();
      TimesByZero((hi - 1) as real);
    }
  }

  lemma {:induction false} UnsqueezedRow(s: Squeeze, a: seq<Complex>, m: nat, k: nat)
    requires Rooted(s.root) && s.tanh == 0.0 && s.sech == 1.0 && s.start == 1.0 && k <= |a|
    ensures SRow(s, a, m, k) == if m < k then a[m] else ZERO
  {
    hide Mul, Add, Squeeze.At;
    if k > 0 {
      UnsqueezedRow(s, a, m, k - 1);
      NoSqueeze(s, m, k - 1);
      MulZero(a[k - 1]);
      MulOne(a[k - 1]);
      AddZero(a[k - 1]);
      AddZero(SRow(s, a, m, k - 1));
    }
  }

  /** Squeezing by zero leaves every amplitude alone. */
  lemma ZeroSqueeze(maths: Maths, a: seq<Complex>, m: nat)
    requires maths.Valid()
    ensures SqueezedLevels(maths, a, 0.0)(m) == if m < |a| then a[m] else ZERO
  {
    MathsRooted(maths);
    assert maths.SqrtAt(1.0);
    UnitRoot(maths.sqrt(1.0));
    UnsqueezedRow(maths.Squeezing(0.0), a, m, |a|);
  }

  // ---- building a state

  /** The state with no photons. */
  method Vacuum(cutoff: nat) returns (r: Result<FockState, CvError>)
    ensures r.Ok? <==> cutoff > 0
    ensures r.Ok? ==> var s := r.value;
      fresh(s) && fresh(s.amps) && s.Valid() && s.amps.Length == cutoff && s.lostNorm == 0.0 && s.lostWeight == 0.0 &&
      forall k | 0 <= k < cutoff :: s.amps[k] == if k == 0 then ONE else ZERO
  {
    if cutoff == 0 {
      return Err(CutoffTooSmall(cutoff, 1));
    }
    var amps := new Complex[cutoff](_ => ZERO);
    amps[0] := ONE;
    var s := new FockState(amps, 0.0, 0.0);
    return Ok(s);
  }

  ghost predicate Finite(amps: seq<Option<Complex>>) { forall i | 0 <= i < |amps| :: amps[i].Some? }

  /** A state from given amplitudes with the tail the caller knows to lie past the cutoff. */
  method FromAmplitudesWeighted(amps: seq<Option<Complex>>, tail: Option<real>, weight: Option<real>) returns (r: Result<FockState, CvError>)
    ensures r.Ok? <==> amps != [] && tail.Some? && tail.value >= 0.0 && Finite(amps) && weight.Some? && weight.value >= 0.0
    ensures amps == [] ==> r == Err(CutoffTooSmall(0, 1))
    ensures r.Ok? ==> var s := r.value;
      fresh(s) && fresh(s.amps) && s.Valid() && s.amps.Length == |amps| && s.lostNorm == tail.value && s.lostWeight == weight.value &&
      forall k | 0 <= k < |amps| :: s.amps[k] == amps[k].value
  {
    if amps == [] {
      return Err(CutoffTooSmall(0, 1));
    }
    if tail.None? || tail.value < 0.0 {
      return Err(Unrepresentable);
    }
    var kept := new Complex[|amps|](_ => ZERO);
    for k := 0 to |amps|
      invariant forall j | 0 <= j < k :: amps[j].Some? && kept[j] == amps[j].value
    {
      if amps[k].None? {
        return Err(Unrepresentable);
      }
      kept[k] := amps[k].value;
    }
    if weight.None? || weight.value < 0.0 {
      return Err(Unrepresentable);
    }
    var s := new FockState(kept, tail.value, weight.value);
    return Ok(s);
  }

  // ---- runs

  datatype CvGate = KerrGate(chi: Option<real>) | PhaseGate(phi: Option<real>) | DisplaceGate(alpha: Option<Complex>) | SqueezeGate(r: Option<real>)

  /** All photon numbers of one parity are empty. */
  ghost predicate ParityEmpty(s: seq<Complex>, p: nat) {
    forall k | 0 <= k < |s| && k % 2 == p :: s[k] == ZERO
  }

  lemma SqueezeKeepsParity(maths: Maths, a: seq<Complex>, x: real, p: nat, m: nat)
    requires p < 2 && ParityEmpty(a, p) && m % 2 == p
    ensures SqueezedLevels(maths, a, x)(m) == ZERO
  {
    SectorKept(maths.Squeezing(x), a, m, |a|);
  }

  /** The gate's parameter is a finite number. */
  predicate Defined(gate: CvGate) {
    match gate
    case KerrGate(chi) => chi.Some?
    case PhaseGate(phi) => phi.Some?
    case DisplaceGate(alpha) => alpha.Some?
    case SqueezeGate(r) => r.Some?
  }

  /** `after` is `before` with a phase on every level. */
  ghost predicate Turned(maths: Maths, before: Fock, after: Fock, angle: nat -> real) {
    && |after.amps| == |before.amps| && after.lostNorm == before.lostNorm && after.lostWeight == before.lostWeight
    && forall k: nat | k < |before.amps| :: after.amps[k] == Mul(before.amps[k], C(maths.cos(angle(k)), maths.sin(angle(k))))
  }

  /** `after` holds the levels below the cutoff, and its losses count those of the pad above it; what lies past the pad is not counted. */
  ghost predicate Moved(maths: Maths, before: Fock, after: Fock, f: nat -> Complex) {
    && |after.amps| == |before.amps| && (forall m: nat | m < |before.amps| :: after.amps[m] == f(m))
    && Settled(maths, f, |before.amps|, before.lostNorm, before.lostWeight, after.lostNorm, after.lostWeight)
  }

  /** What each gate does to a state. */
  ghost predicate GateDone(maths: Maths, gate: CvGate, before: Fock, after: Fock)
    requires Defined(gate)
  {
    match gate
    case KerrGate(chi) => Turned(maths, before, after, (k: nat) => Times(chi.value, Times(k as real, k as real)))
    case PhaseGate(phi) => Turned(maths, before, after, (k: nat) => Times(phi.value, k as real))
    case DisplaceGate(alpha) => Moved(maths, before, after, DisplacedLevels(maths, before.amps, alpha.value))
    case SqueezeGate(r) => Moved(maths, before, after, SqueezedLevels(maths, before.amps, r.value))
  }

  /**
    What every gate keeps: the cutoff, and the growth of the losses; the parity of a
    state unless the gate displaces; and all of the losses when the gate is diagonal.
  */
  lemma GateKeeps(maths: Maths, gate: CvGate, before: Fock, after: Fock, p: nat)
    requires maths.Valid() && before.Valid() && Defined(gate) && GateDone(maths, gate, before, after) && p < 2
    ensures after.Valid() && |after.amps| == |before.amps| && after.lostWeight >= before.lostWeight
    ensures before.lostNorm <= 1.0 ==> before.lostNorm <= after.lostNorm <= 1.0
    ensures !gate.DisplaceGate? && ParityEmpty(before.amps, p) ==> ParityEmpty(after.amps, p)
    ensures gate.KerrGate? || gate.PhaseGate? ==>
      after.lostNorm == before.lostNorm && after.lostWeight == before.lostWeight &&
      MassBetween(LevelsOf(after.amps), 0, |after.amps|) == MassBetween(LevelsOf(before.amps), 0, |before.amps|)
  {
    hide NormSq, Mul, Settled, DisplacedLevels, SqueezedLevels, Maths.Valid, MassBetween;
    match gate
    case KerrGate(chi) => TurnedKeeps(maths, before, after, (k: nat) => Times(chi.value, Times(k as real, k as real)), p);
    case PhaseGate(phi) => TurnedKeeps(maths, before, after, (k: nat) => Times(phi.value, k as real), p);
    case DisplaceGate(alpha) => MovedKeeps(maths, before, after, DisplacedLevels(maths, before.amps, alpha.value));
    case SqueezeGate(r) =>
      MovedKeeps(maths, before, after, SqueezedLevels(maths, before.amps, r.value));
      if ParityEmpty(before.amps, p) {
        forall m: nat | m < |after.amps| && m % 2 == p ensures after.amps[m] == ZERO {
          SqueezeKeepsParity(maths, before.amps, r.value, p, m);
        }
      }
  }

  lemma TurnedKeeps(maths: Maths, before: Fock, after: Fock, angle: nat -> real, p: nat)
    requires maths.Valid() && before.Valid() && Turned(maths, before, after, angle)
    ensures MassBetween(LevelsOf(after.amps), 0, |after.amps|) == MassBetween(LevelsOf(before.amps), 0, |before.amps|)
    ensures ParityEmpty(before.amps, p) ==> ParityEmpty(after.amps, p)
  {
    hide NormSq, Mul, Maths.Valid, MassBetween, PhotonsBetween;
    forall k: nat | k < |before.amps| ensures NormSq(after.amps[k]) == NormSq(before.amps[k]) && (before.amps[k] == ZERO ==> after.amps[k] == ZERO) {
      PhaseKeepsNorm(maths, before.amps[k], angle(k));
    }
    SameLevels(LevelsOf(after.amps), LevelsOf(before.amps), 0, |before.amps|);
  }

  lemma MovedKeeps(maths: Maths, before: Fock, after: Fock, f: nat -> Complex)
    requires maths.Valid() && before.Valid() && Moved(maths, before, after, f)
    ensures after.Valid() && after.lostWeight >= before.lostWeight
    ensures before.lostNorm <= 1.0 ==> before.lostNorm <= after.lostNorm <= 1.0
  {
    hide Settled, Maths.Valid;
    BudgetGrows(maths, f, |before.amps|, before.lostNorm, before.lostWeight, after.lostNorm, after.lostWeight);
  }

  /** One gate. */
  method ApplyGate(maths: Maths, s: FockState, gate: CvGate) returns (r: Result<(), CvError>)
    requires s.Valid() && maths.Valid()
    modifies s, s.amps
    ensures s.Valid() && s.amps == old(s.amps)
    ensures r.Ok? <==> Defined(gate)
    ensures if r.Ok? then GateDone(maths, gate, old(s.View()), s.View()) else s.View() == old(s.View())
  {
    hide NormSq, Mul, Settled, DisplacedLevels, SqueezedLevels;
    match gate
    case KerrGate(chi) => r := s.Kerr(maths, chi);
    case PhaseGate(phi) => r := s.PhaseShift(maths, phi);
    case DisplaceGate(alpha) => r := s.Displace(maths, alpha);
    case SqueezeGate(x) => r := s.SqueezeBy(maths, x);
  }

  ghost predicate NoDisplacing(gates: seq<CvGate>) { forall i | 0 <= i < |gates| :: !gates[i].DisplaceGate? }

  /** The readout's refusal. */
  predicate Leaks(lost: real, tolerance: real) { lost > tolerance }

  /** A state for each moment of a run of the first gates. */
  ghost predicate Traces(maths: Maths, gates: seq<CvGate>, trace: seq<Fock>) {
    && 0 < |trace| <= |gates| + 1
    && forall i | 0 <= i < |trace| - 1 :: Defined(gates[i]) && GateDone(maths, gates[i], trace[i], trace[i + 1])
  }

  /**
    Over any run the photon-weighted loss never shrinks, so a readout refused for leaking
    stays refused at the same tolerance; the plain loss stays a fraction and never shrinks
    when it starts as one; and runs that never displace keep the parity.
  */
  lemma {:induction false} RunKeeps(maths: Maths, gates: seq<CvGate>, trace: seq<Fock>, i: nat, p: nat)
    requires maths.Valid() && p < 2 && Traces(maths, gates, trace) && trace[0].Valid() && i < |trace|
    ensures trace[i].Valid() && |trace[i].amps| == |trace[0].amps| && trace[i].lostWeight >= trace[0].lostWeight
    ensures forall tolerance: real :: Leaks(trace[0].lostWeight, tolerance) ==> Leaks(trace[i].lostWeight, tolerance)
    ensures trace[0].lostNorm <= 1.0 ==> trace[0].lostNorm <= trace[i].lostNorm <= 1.0
    ensures NoDisplacing(gates) && ParityEmpty(trace[0].amps, p) ==> ParityEmpty(trace[i].amps, p)
  {
    hide ParityEmpty, GateDone, Maths.Valid;
    if i > 0 {
      RunKeeps(maths, gates, trace, i - 1, p);
      GateKeeps(maths, gates[i - 1], trace[i - 1], trace[i], p);
    }
  }

  /** Any run of gates, stopping at the first refused one. */
  method RunGates(maths: Maths, s: FockState, gates: seq<CvGate>) returns (r: Result<(), CvError>, ghost trace: seq<Fock>)
    requires s.Valid() && maths.Valid()
    modifies s, s.amps
    ensures s.Valid() && s.amps == old(s.amps)
    ensures Traces(maths, gates, trace) && trace[0] == old(s.View()) && trace[|trace| - 1] == s.View()
    ensures if r.Ok? then |trace| == |gates| + 1 else |trace| <= |gates| && !Defined(gates[|trace| - 1])
  {
    hide GateDone;
    trace := [s.View()];
    for i := 0 to |gates|
      invariant s.Valid() && s.amps == old(s.amps)
      invariant Traces(maths, gates, trace) && trace[0] == old(s.View()) && trace[|trace| - 1] == s.View()
      invariant |trace| == i + 1
    {
      var step := ApplyGate(maths, s, gates[i]);
      if step.Err? {
        r := step;
        return;
      }
      trace := trace + [s.View()];
    }
    r := Ok(());
  }
}
