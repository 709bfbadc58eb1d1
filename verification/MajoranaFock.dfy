/**
  The Majorana monomials as operators on n fermionic modes under the
  Jordan-Wigner encoding.  This is the meaning the algebra of labels is
  measured against: products, the rotation rule, the vacuum readout and the
  bound on every readout are proved of the operators.
*/
module MajoranaFock {
  import opened Bits
  import opened ComplexNumbers
  import opened Majorana

  // ---- one Majorana operator on one basis state

  function Flip(o: Bits, j: nat): (r: Bits)
    requires j < |o|
    ensures |r| == |o|
  {
    o[j := !o[j]]
  }

  /** The power of i that operator k picks up on the basis state o: the Z string, and Y against X. */
  function GammaPhase(k: nat, o: Bits): int
    requires k / 2 < |o|
  {
    2 * Ones(o, k / 2) + if k % 2 == 0 then 0 else if o[k / 2] then 3 else 1
  }

  lemma {:induction false} OnesOfFlip(o: Bits, j: nat, k: nat)
    requires j < |o| && k <= |o|
    ensures Ones(Flip(o, j), k) == Ones(o, k) + if j < k then (if o[j] then -1 else 1) else 0
  {
    if k == 0 {
    } else {
      OnesOfFlip(o, j, k - 1);
    }
  }

  /** Every Majorana operator squares to one. */
  lemma GammaSquares(k: nat, o: Bits)
    requires k / 2 < |o|
    ensures (GammaPhase(k, o) + GammaPhase(k, Flip(o, k / 2))) % 4 == 0
  {
    OnesOfFlip(o, k / 2, k / 2);
  }

  /** Two different Majorana operators anticommute. */
  lemma GammaAnticommute(j: nat, k: nat, o: Bits)
    requires j / 2 < |o| && k / 2 < |o| && j != k
    ensures Flip(Flip(o, j / 2), k / 2) == Flip(Flip(o, k / 2), j / 2)
    ensures (GammaPhase(j, o) + GammaPhase(k, Flip(o, j / 2)) -
             GammaPhase(k, o) - GammaPhase(j, Flip(o, k / 2)) - 2) % 4 == 0
  {
    OnesOfFlip(o, j / 2, k / 2);
    OnesOfFlip(o, k / 2, j / 2);
  }

  // ---- ordered products

  ghost predicate Fits(b: Bits, o: Bits) { |b| == 2 * |o| }

  /** Where the ascending product of the generators of b from index k on sends the basis state o. */
  function Target(b: Bits, k: nat, o: Bits): (r: Bits)
    requires Fits(b, o) && k <= |b|
    ensures |r| == |o|
    decreases |b| - k
  {
    if k == |b| then o else
      var p := Target(b, k + 1, o);
      if b[k] then Flip(p, k / 2) else p
  }

  /** The power of i it picks up. */
  function ProductPhase(b: Bits, k: nat, o: Bits): int
    requires Fits(b, o) && k <= |b|
    decreases |b| - k
  {
    if k == |b| then 0 else
      ProductPhase(b, k + 1, o) + if b[k] then GammaPhase(k, Target(b, k + 1, o)) else 0
  }

  lemma {:induction false} SameTail(b: Bits, d: Bits, k: nat, o: Bits)
    requires Fits(b, o) && |d| == |b| && k <= |b| && b[k..] == d[k..]
    ensures Target(b, k, o) == Target(d, k, o) && ProductPhase(b, k, o) == ProductPhase(d, k, o)
    decreases |b| - k
  {
    if k < |b| {
      assert b[k] == b[k..][0] && d[k] == d[k..][0];
      assert b[k + 1..] == b[k..][1..] && d[k + 1..] == d[k..][1..];
      SameTail(b, d, k + 1, o);
    }
  }

  /** Putting one more generator in front: it moves past the smaller ones at a sign each, and meets its own kind. */
  lemma {:induction false} GammaInFront(k: nat, d: Bits, j: nat, o: Bits)
    requires Fits(d, o) && j <= k < |d|
    ensures Flip(Target(d, j, o), k / 2) == Target(Flip(d, k), j, o)
    ensures (ProductPhase(d, j, o) + GammaPhase(k, Target(d, j, o)) -
             ProductPhase(Flip(d, k), j, o) - 2 * (Ones(d, k) - Ones(d, j))) % 4 == 0
    decreases k - j
  {
    hide GammaPhase, Ones;
    var d' := Flip(d, k);
    if j == k {
      assert d[k + 1..] == d'[k + 1..];
      SameTail(d, d', k + 1, o);
      GammaSquares(k, Target(d, k + 1, o));
    } else {
      GammaInFront(k, d, j + 1, o);
      OnesStep(d, j);
      var x := Target(d, j + 1, o);
      var rest := ProductPhase(d, j + 1, o) + GammaPhase(k, x) -
        ProductPhase(d', j + 1, o) - 2 * (Ones(d, k) - Ones(d, j + 1));
      if d[j] {
        GammaAnticommute(j, k, x);
        SumMod4(rest, GammaPhase(j, x) + GammaPhase(k, Flip(x, j / 2)) - GammaPhase(k, x) - GammaPhase(j, Flip(x, k / 2)) - 2);
      }
    }
  }

  lemma OnesStep(d: Bits, j: nat)
    requires j < |d|
    ensures Ones(d, j + 1) == Ones(d, j) + if d[j] then 1 else 0
  {
  }

  lemma SumMod4(a: int, b: int)
    requires a % 4 == 0 && b % 4 == 0
    ensures (a + b) % 4 == 0
  {
  }

  /** The bits of c from index k on. */
  function Tail(c: Bits, k: nat): (r: Bits)
    ensures |r| == |c|
  {
    seq(|c|, i requires 0 <= i < |c| => i >= k && c[i])
  }

  lemma {:induction false} OnesBelowTail(c: Bits, b: Bits, k: nat, m: nat)
    requires |c| == |b| && m <= k <= |b|
    ensures Ones(Xor(Tail(c, k), b), m) == Ones(b, m)
  {
    if m == 0 {
    } else {
      OnesBelowTail(c, b, k, m - 1);
    }
  }

  /** The ordered product of c after that of b is, up to sign, the ordered product of their symmetric difference. */
  lemma {:induction false} ProductRule(c: Bits, b: Bits, k: nat, o: Bits)
    requires Fits(b, o) && |c| == |b| && k <= |c|
    ensures Target(c, k, Target(b, 0, o)) == Target(Xor(Tail(c, k), b), 0, o)
    ensures (ProductPhase(b, 0, o) + ProductPhase(c, k, Target(b, 0, o)) -
             ProductPhase(Xor(Tail(c, k), b), 0, o) -
             2 * (Inversions(c, b, |c|) - Inversions(c, b, k))) % 4 == 0
    decreases |c| - k
  {
    var d := Xor(Tail(c, k), b);
    if k == |c| {
      assert d == b;
    } else {
      ProductRule(c, b, k + 1, o);
      var d1 := Xor(Tail(c, k + 1), b);
      if c[k] {
        assert d == Flip(d1, k);
        GammaInFront(k, d1, 0, o);
        OnesBelowTail(c, b, k + 1, k);
      } else {
        assert d == d1;
      }
    }
  }

  // ---- monomials

  /** The power of i the Hermitian monomial M_b picks up on the basis state o. */
  function MonomialPhase(b: Bits, o: Bits): int
    requires Fits(b, o)
  {
    HermitianPhase(Length(b)) + ProductPhase(b, 0, o)
  }

  /** Which modes a monomial flips. */
  function Modes(b: Bits, n: nat): (r: Bits)
    requires |b| == 2 * n
    ensures |r| == n
  {
    seq(n, j requires 0 <= j < n => b[2 * j] != b[2 * j + 1])
  }

  lemma {:induction false} TargetIsXor(b: Bits, k: nat, o: Bits)
    requires Fits(b, o) && k <= |b|
    ensures Target(b, k, o) == Xor(o, Modes(Tail(b, k), |o|))
    decreases |b| - k
  {
    if k == |b| {
    } else {
      TargetIsXor(b, k + 1, o);
      forall j | 0 <= j < |o| ensures Target(b, k, o)[j] == Xor(o, Modes(Tail(b, k), |o|))[j] {
        assert j == k / 2 || (2 * j != k && 2 * j + 1 != k);
      }
    }
  }

  lemma TargetOfAll(b: Bits, o: Bits)
    requires Fits(b, o)
    ensures Target(b, 0, o) == Xor(o, Modes(b, |o|))
  {
    TargetIsXor(b, 0, o);
    assert Tail(b, 0) == b;
  }

  /** The product of two monomials is the monomial of the symmetric difference times the power of i the code computes. */
  lemma MonomialProduct(c: Bits, b: Bits, o: Bits)
    requires Fits(b, o) && |c| == |b|
    ensures Target(c, 0, Target(b, 0, o)) == Target(Xor(c, b), 0, o)
    ensures (MonomialPhase(b, o) + MonomialPhase(c, Target(b, 0, o)) - MonomialPhase(Xor(c, b), o) - MulPhase(c, b)) % 4 == 0
  {
    hide HermitianPhase, Length, ProductPhase, Inversions, MulPhase, Target, Xor, Tail;
    ProductRule(c, b, 0, o);
    WholeTail(c);
    MulPhaseModFour(c, b);
    var t := Inversions(c, b, |c|);
    SumMod4(
      ProductPhase(b, 0, o) + ProductPhase(c, 0, Target(b, 0, o)) - ProductPhase(Xor(c, b), 0, o) - 2 * t,
      HermitianPhase(Length(c)) + HermitianPhase(Length(b)) - HermitianPhase(Length(Xor(c, b))) + 2 * t - MulPhase(c, b));
    assert MonomialPhase(b, o) + MonomialPhase(c, Target(b, 0, o)) - MonomialPhase(Xor(c, b), o) - MulPhase(c, b) ==
      ProductPhase(b, 0, o) + ProductPhase(c, 0, Target(b, 0, o)) - ProductPhase(Xor(c, b), 0, o) - 2 * t +
      (HermitianPhase(Length(c)) + HermitianPhase(Length(b)) - HermitianPhase(Length(Xor(c, b))) + 2 * t - MulPhase(c, b));
  }

  lemma WholeTail(c: Bits)
    ensures Tail(c, 0) == c
  {
  }

  lemma MulPhaseModFour(c: Bits, b: Bits)
    requires |c| == |b|
    ensures (HermitianPhase(Length(c)) + HermitianPhase(Length(b)) - HermitianPhase(Length(Xor(c, b)))
             + 2 * Inversions(c, b, |c|) - MulPhase(c, b)) % 4 == 0
    ensures Inversions(c, b, 0) == 0
  {
    CountIsInversions(c, b);
    PhaseSum(HermitianPhase(Length(c)), HermitianPhase(Length(b)), HermitianPhase(Length(Xor(c, b))), Inversions(c, b, |c|));
  }

  lemma PhaseSum(p: nat, q: nat, r: nat, t: nat)
    ensures (p + q - r + 2 * t - (p + q + 4 - r + 2 * (t % 2)) % 4) % 4 == 0
  {
    var k := p + q + 4 - r + 2 * (t % 2);
    assert p + q - r + 2 * t - k % 4 == 4 * (k / 4) - 4 + 4 * (t / 2);
  }

  lemma {:induction false} ZeroTarget(n: nat, k: nat, o: Bits)
    requires |o| == n && k <= 2 * n
    ensures Target(Zero(2 * n), k, o) == o && ProductPhase(Zero(2 * n), k, o) == 0
    decreases 2 * n - k
  {
    if k < 2 * n {
      ZeroTarget(n, k + 1, o);
    }
  }

  // ---- state vectors

  type Vector = Bits -> Complex

  /** The monomial applied to a state vector. */
  function Apply(n: nat, b: Bits, psi: Vector): Vector
    requires |b| == 2 * n
  {
    o => if |o| != n then ZERO else
      var p := Xor(o, Modes(b, n));
      TimesI(MonomialPhase(b, p), psi(p))
  }

  function TimesIVector(e: int, psi: Vector): Vector { o => TimesI(e, psi(o)) }

  ghost predicate SameVector(n: nat, psi: Vector, phi: Vector) {
    forall o | |o| == n :: psi(o) == phi(o)
  }

  /** The real inner product of two state vectors. */
  ghost function Pair(n: nat, psi: Vector, phi: Vector): real {
    SumAll(n, o => Inner(psi(o), phi(o)))
  }

  lemma PairSame(n: nat, a: Vector, b: Vector, a': Vector, b': Vector)
    requires SameVector(n, a, a') && SameVector(n, b, b')
    ensures Pair(n, a, b) == Pair(n, a', b')
  {
    SumSame([], n, o => Inner(a(o), b(o)), o => Inner(a'(o), b'(o)));
  }

  lemma PairSymmetric(n: nat, a: Vector, b: Vector)
    ensures Pair(n, a, b) == Pair(n, b, a)
  {
    forall o | |o| == n ensures Inner(a(o), b(o)) == Inner(b(o), a(o)) { InnerSymmetric(a(o), b(o)); }
    SumSame([], n, o => Inner(a(o), b(o)), o => Inner(b(o), a(o)));
  }

  /** Multiplying by i is skew: it can be moved to the other side at a sign. */
  lemma PairSkew(n: nat, a: Vector, b: Vector)
    ensures Pair(n, TimesIVector(1, a), b) == -Pair(n, a, TimesIVector(1, b))
  {
    hide TimesI, Inner;
    var f: Bits -> real := o => Inner(a(o), TimesI(1, b(o)));
    forall o | |o| == n ensures Inner(TimesI(1, a(o)), b(o)) == -1.0 * f(o) { TimesIInner(1, a(o), b(o)); }
    SumScaled([], n, o => Inner(TimesIVector(1, a)(o), b(o)), -1.0, f);
    SumSame([], n, f, o => Inner(a(o), TimesIVector(1, b)(o)));
  }

  /** A monomial keeps inner products. */
  lemma ApplyKeepsPair(n: nat, b: Bits, psi: Vector, phi: Vector)
    requires |b| == 2 * n
    ensures Pair(n, Apply(n, b, psi), Apply(n, b, phi)) == Pair(n, psi, phi)
  {
    hide TimesI, Inner, MonomialPhase;
    var f: Bits -> real := o => Inner(psi(o), phi(o));
    var g: Bits -> real := o => Inner(Apply(n, b, psi)(o), Apply(n, b, phi)(o));
    forall o | |o| == n ensures g(o) == f(Xor(o, Modes(b, n))) {
      var p := Xor(o, Modes(b, n));
      TimesIInner(MonomialPhase(b, p), psi(p), phi(p));
      assert Apply(n, b, psi)(o) == TimesI(MonomialPhase(b, p), psi(p));
      assert Apply(n, b, phi)(o) == TimesI(MonomialPhase(b, p), phi(p));
    }
    SumXor(n, f, g, Modes(b, n));
  }

  /** Composition of monomials on state vectors. */
  lemma ApplyProduct(n: nat, c: Bits, b: Bits, psi: Vector)
    requires |b| == |c| == 2 * n
    ensures SameVector(n, Apply(n, c, Apply(n, b, psi)), TimesIVector(MulPhase(c, b), Apply(n, Xor(c, b), psi)))
  {
    forall o | |o| == n
      ensures Apply(n, c, Apply(n, b, psi))(o) == TimesIVector(MulPhase(c, b), Apply(n, Xor(c, b), psi))(o)
    {
      ApplyProductAt(n, c, b, psi, o);
    }
  }

  lemma ApplyProductAt(n: nat, c: Bits, b: Bits, psi: Vector, o: Bits)
    requires |b| == |c| == 2 * n && |o| == n
    ensures Apply(n, c, Apply(n, b, psi))(o) == TimesI(MulPhase(c, b), Apply(n, Xor(c, b), psi)(o))
  {
    hide MonomialPhase, MulPhase, TimesI;
    var d := Xor(c, b);
    var q := Xor(o, Modes(c, n));
    var p := Xor(q, Modes(b, n));
    assert Modes(d, n) == Xor(Modes(c, n), Modes(b, n));
    XorAssociative(o, Modes(c, n), Modes(b, n));
    assert p == Xor(o, Modes(d, n));
    XorTwice(q, Modes(b, n));
    TargetOfAll(b, p);
    MonomialProduct(c, b, p);
    assert Apply(n, c, Apply(n, b, psi))(o) == TimesI(MonomialPhase(c, q), TimesI(MonomialPhase(b, p), psi(p)));
    TimesITwice(MonomialPhase(c, q), MonomialPhase(b, p), psi(p));
    TimesITwice(MulPhase(c, b), MonomialPhase(d, p), psi(p));
    TimesISame(MonomialPhase(c, q) + MonomialPhase(b, p), MulPhase(c, b) + MonomialPhase(d, p), psi(p));
  }

  lemma TimesISame(e: int, f: int, a: Complex)
    requires (e - f) % 4 == 0
    ensures TimesI(e, a) == TimesI(f, a)
  {
    assert e % 4 == f % 4;
  }

  lemma ApplyIdentity(n: nat, psi: Vector)
    ensures SameVector(n, Apply(n, Zero(2 * n), psi), psi)
  {
    NoOnes(2 * n, 2 * n);
    forall o | |o| == n ensures Apply(n, Zero(2 * n), psi)(o) == psi(o) {
      assert Xor(o, Modes(Zero(2 * n), n)) == o;
      ZeroTarget(n, 0, o);
    }
  }

  lemma ApplyTwice(n: nat, c: Bits, psi: Vector)
    requires |c| == 2 * n
    ensures SameVector(n, Apply(n, c, Apply(n, c, psi)), psi)
  {
    ApplyProduct(n, c, c, psi);
    SelfPhase(c);
    ApplyIdentity(n, psi);
    hide Apply, TimesI;
    forall o | |o| == n ensures TimesI(0, psi(o)) == psi(o) { TimesIZero(psi(o)); }
  }

  lemma TimesIZero(a: Complex)
    ensures TimesI(0, a) == a
  {
  }

  /** Monomials are Hermitian. */
  lemma Hermitian(n: nat, c: Bits, a: Vector, b: Vector)
    requires |c| == 2 * n
    ensures Pair(n, Apply(n, c, a), b) == Pair(n, a, Apply(n, c, b))
  {
    hide Apply, Pair;
    var ca := Apply(n, c, a);
    ApplyKeepsPair(n, c, ca, b);
    ApplyTwice(n, c, a);
    PairSame(n, Apply(n, c, ca), Apply(n, c, b), a, Apply(n, c, b));
  }

  function Combine(s: real, a: Vector, t: real, b: Vector): Vector {
    o => Add(Scale(s, a(o)), Scale(t, b(o)))
  }

  lemma PairLinear(n: nat, x: Vector, s: real, a: Vector, t: real, b: Vector)
    ensures Pair(n, x, Combine(s, a, t, b)) == s * Pair(n, x, a) + t * Pair(n, x, b)
  {
    hide Inner, Add, Scale, PlusOf, ScaledBy;
    var f: Bits -> real := o => Inner(x(o), a(o));
    var g: Bits -> real := o => Inner(x(o), b(o));
    var h: Bits -> real := o => Inner(x(o), Combine(s, a, t, b)(o));
    forall o | |o| == n ensures h(o) == PlusOf(ScaledBy(s, f), ScaledBy(t, g))(o) {
      InnerLinear(s, a(o), t, b(o), x(o));
      PlusScaledAt(s, f, t, g, o);
    }
    TotalSame(n, h, PlusOf(ScaledBy(s, f), ScaledBy(t, g)));
    TotalPlus(n, ScaledBy(s, f), ScaledBy(t, g));
    TotalScaled(n, s, f);
    TotalScaled(n, t, g);
  }

  lemma ApplyLinear(n: nat, c: Bits, s: real, a: Vector, t: real, b: Vector)
    requires |c| == 2 * n
    ensures SameVector(n, Apply(n, c, Combine(s, a, t, b)), Combine(s, Apply(n, c, a), t, Apply(n, c, b)))
  {
    hide TimesI, Add, Scale, MonomialPhase;
    forall o | |o| == n
      ensures Apply(n, c, Combine(s, a, t, b))(o) == Combine(s, Apply(n, c, a), t, Apply(n, c, b))(o)
    {
      var p := Xor(o, Modes(c, n));
      TimesILinear(MonomialPhase(c, p), s, a(p), t, b(p));
    }
  }

  lemma ApplyAfterI(n: nat, c: Bits, a: Vector)
    requires |c| == 2 * n
    ensures SameVector(n, Apply(n, c, TimesIVector(1, a)), TimesIVector(1, Apply(n, c, a)))
  {
    hide TimesI, MonomialPhase;
    forall o | |o| == n ensures Apply(n, c, TimesIVector(1, a))(o) == TimesIVector(1, Apply(n, c, a))(o) {
      var p := Xor(o, Modes(c, n));
      TimesITwice(MonomialPhase(c, p), 1, a(p));
      TimesITwice(1, MonomialPhase(c, p), a(p));
    }
  }

  // ---- readouts and rotations

  /** The expectation of the monomial M_b in the state psi. */
  ghost function Readout(n: nat, psi: Vector, b: Bits): real
    requires |b| == 2 * n
  {
    Pair(n, psi, Apply(n, b, psi))
  }

  ghost function Mass(n: nat, psi: Vector): real { Pair(n, psi, psi) }

  /** The state after exp(-i phi M_c / 2), where u and v are the cosine and sine of phi / 2. */
  function Rotor(n: nat, c: Bits, u: real, v: real, psi: Vector): Vector
    requires |c| == 2 * n
  {
    Combine(u, psi, -v, TimesIVector(1, Apply(n, c, psi)))
  }

  /** No monomial reads more than the mass of the state. */
  lemma ReadoutBound(n: nat, psi: Vector, b: Bits)
    requires |b| == 2 * n
    ensures -Mass(n, psi) <= Readout(n, psi, b) <= Mass(n, psi)
  {
    hide Inner, Apply;
    var phi := Apply(n, b, psi);
    ApplyKeepsPair(n, b, psi, psi);
    var f: Bits -> real := o => Inner(psi(o), phi(o));
    var g: Bits -> real := o => Inner(psi(o), psi(o));
    var h: Bits -> real := o => Inner(phi(o), phi(o));
    var gh: Bits -> real := o => g(o) + h(o);
    var ff: Bits -> real := o => 2.0 * f(o);
    var mf: Bits -> real := o => -2.0 * f(o);
    forall o | |o| == n ensures ff(o) <= gh(o) && mf(o) <= gh(o) { InnerBound(psi(o), phi(o)); }
    SumAtMost([], n, ff, gh);
    SumAtMost([], n, mf, gh);
    SumPlus([], n, gh, g, h);
    SumScaled([], n, ff, 2.0, f);
    SumScaled([], n, mf, -2.0, f);
  }

  /** How a monomial reads after the rotation: itself, or mixed with its image. */
  ghost function Pullback(n: nat, psi: Vector, c: Bits, cos: real, sin: real, b: Bits): real
    requires |b| == |c| == 2 * n
  {
    if Commutes(b, c) then Readout(n, psi, b) else
      var (k, s) := RotateBy(b, c);
      cos * Readout(n, psi, b) + sin * s * Readout(n, psi, k)
  }

  /** M_b M_c is M_c M_b, up to the sign that says whether they commute. */
  lemma SwapFactors(n: nat, c: Bits, b: Bits, psi: Vector, o: Bits)
    requires |b| == |c| == 2 * n && |o| == n
    ensures Apply(n, b, Apply(n, c, psi))(o) ==
      TimesI(if Commutes(b, c) then 0 else 2, Apply(n, c, Apply(n, b, psi))(o))
  {
    hide Apply, TimesI, MulPhase;
    ApplyProductAt(n, b, c, psi, o);
    ApplyProductAt(n, c, b, psi, o);
    XorTwice(b, c);
    PhaseSwap(c, b);
    var z := Apply(n, Xor(c, b), psi)(o);
    var e := if Commutes(b, c) then 0 else 2;
    TimesITwice(e, MulPhase(c, b), z);
    TimesISame(MulPhase(b, c), e + MulPhase(c, b), z);
  }

  /** i M_c M_b is the image monomial with the sign the code computes. */
  lemma ImageMonomial(n: nat, c: Bits, b: Bits, psi: Vector, o: Bits)
    requires |b| == |c| == 2 * n && |o| == n && !Commutes(b, c)
    ensures TimesI(1, Apply(n, c, Apply(n, b, psi))(o)) == Scale(RotateBy(b, c).1, Apply(n, Xor(c, b), psi)(o))
  {
    hide Apply, MulPhase;
    ApplyProductAt(n, c, b, psi, o);
    PhaseParity(c, b);
    TimesITwice(1, MulPhase(c, b), Apply(n, Xor(c, b), psi)(o));
  }

  lemma PairOfI(n: nat, e: int, a: Vector, b: Vector)
    ensures Pair(n, TimesIVector(e, a), TimesIVector(e, b)) == Pair(n, a, b)
  {
    hide TimesI, Inner;
    var f: Bits -> real := o => Inner(TimesIVector(e, a)(o), TimesIVector(e, b)(o));
    var g: Bits -> real := o => Inner(a(o), b(o));
    forall o | |o| == n ensures f(o) == g(o) {
      assert TimesIVector(e, a)(o) == TimesI(e, a(o)) && TimesIVector(e, b)(o) == TimesI(e, b(o));
      TimesIInner(e, a(o), b(o));
    }
    SumSame([], n, f, g);
  }

  lemma PairMinus(n: nat, a: Vector, b: Vector)
    ensures Pair(n, a, TimesIVector(2, b)) == -Pair(n, a, b)
  {
    hide TimesI, Inner;
    var f: Bits -> real := o => Inner(a(o), b(o));
    forall o | |o| == n ensures Inner(a(o), TimesI(2, b(o))) == -1.0 * f(o) { TimesIInner(1, a(o), b(o)); }
    SumScaled([], n, o => Inner(a(o), TimesIVector(2, b)(o)), -1.0, f);
  }

  /** The four terms of a readout of u psi - v w. */
  lemma ReadoutOfCombination(n: nat, b: Bits, u: real, v: real, a: Vector, w: Vector)
    requires |b| == 2 * n
    ensures var ma, mw := Apply(n, b, a), Apply(n, b, w);
      Readout(n, Combine(u, a, -v, w), b) ==
      u * (u * Pair(n, a, ma) - v * Pair(n, w, ma)) - v * (u * Pair(n, a, mw) - v * Pair(n, w, mw))
  {
    hide Pair, Apply, Combine;
    var x, ma, mw := Combine(u, a, -v, w), Apply(n, b, a), Apply(n, b, w);
    ApplyLinear(n, b, u, a, -v, w);
    PairSame(n, x, Apply(n, b, x), x, Combine(u, ma, -v, mw));
    PairLinear(n, x, u, ma, -v, mw);
    PairSymmetric(n, x, ma);
    PairSymmetric(n, x, mw);
    PairLinear(n, ma, u, a, -v, w);
    PairLinear(n, mw, u, a, -v, w);
    PairSymmetric(n, ma, a);
    PairSymmetric(n, ma, w);
    PairSymmetric(n, mw, a);
    PairSymmetric(n, mw, w);
  }

  /** The pairings that involve the rotated part w = i M_c psi, in terms of psi alone. */
  lemma RotatedPairings(n: nat, c: Bits, b: Bits, psi: Vector)
    requires |b| == |c| == 2 * n
    ensures var w := TimesIVector(1, Apply(n, c, psi));
      var ma, mw := Apply(n, b, psi), Apply(n, b, w);
      var jz := TimesIVector(1, Apply(n, c, ma));
      && Pair(n, w, ma) == -Pair(n, psi, jz)
      && Pair(n, psi, mw) == (if Commutes(b, c) then Pair(n, psi, jz) else -Pair(n, psi, jz))
      && Pair(n, w, mw) == (if Commutes(b, c) then Readout(n, psi, b) else -Readout(n, psi, b))
  {
    hide Pair, Apply, TimesI;
    var mc := Apply(n, c, psi);
    var w := TimesIVector(1, mc);
    var ma, mw := Apply(n, b, psi), Apply(n, b, w);
    var z := Apply(n, c, ma);
    var jz := TimesIVector(1, z);
    var e := if Commutes(b, c) then 0 else 2;
    // w against M_b psi
    PairSkew(n, mc, ma);
    Hermitian(n, c, psi, TimesIVector(1, ma));
    ApplyAfterI(n, c, ma);
    PairSame(n, psi, Apply(n, c, TimesIVector(1, ma)), psi, jz);
    // M_b w is i M_c M_b psi up to the sign
    ApplyAfterI(n, b, mc);
    forall o | |o| == n ensures mw(o) == TimesI(e, jz(o)) {
      SwapFactors(n, c, b, psi, o);
      TimesITwice(1, e, z(o));
      TimesITwice(e, 1, z(o));
    }
    PairSame(n, psi, mw, psi, TimesIVector(e, jz));
    PairSame(n, w, mw, w, TimesIVector(e, jz));
    PairOfI(n, 1, mc, z);
    ApplyKeepsPair(n, c, psi, ma);
    if Commutes(b, c) {
      forall o | |o| == n ensures TimesI(0, jz(o)) == jz(o) { TimesIZero(jz(o)); }
      PairSame(n, psi, TimesIVector(0, jz), psi, jz);
      PairSame(n, w, TimesIVector(0, jz), w, jz);
    } else {
      PairMinus(n, psi, jz);
      PairMinus(n, w, jz);
    }
  }

  /** The rotation rule of the engine, proved of the operators: how a monomial reads after a rotation. */
  lemma RotationRule(n: nat, c: Bits, u: real, v: real, psi: Vector, b: Bits)
    requires |b| == |c| == 2 * n && u * u + v * v == 1.0
    ensures Readout(n, Rotor(n, c, u, v, psi), b) == Pullback(n, psi, c, u * u - v * v, 2.0 * (u * v), b)
  {
    hide Pair, Apply, RotateBy, Combine, TimesIVector, Readout, MulPhase, Ones, Shared;
    var w := TimesIVector(1, Apply(n, c, psi));
    var ma, mw := Apply(n, b, psi), Apply(n, b, w);
    ReadoutOfCombination(n, b, u, v, psi, w);
    RotatedPairings(n, c, b, psi);
    var r, x, y, z := Readout(n, psi, b), Pair(n, w, ma), Pair(n, psi, mw), Pair(n, w, mw);
    assert Pair(n, psi, ma) == r by { ReadoutIsPair(n, psi, b); }
    if Commutes(b, c) {
      CollectCommuting(u, v, r, x, y, z);
    } else {
      var (k, s) := RotateBy(b, c);
      assert |k| == 2 * n by { RotateBack(b, c); }
      ImageReadout(n, c, b, psi);
      CollectAnticommuting(u, v, r, s, Readout(n, psi, k), x, y, z);
    }
  }

  lemma ReadoutIsPair(n: nat, psi: Vector, b: Bits)
    requires |b| == 2 * n
    ensures Readout(n, psi, b) == Pair(n, psi, Apply(n, b, psi))
  {
  }

  lemma ImageVector(n: nat, c: Bits, b: Bits, psi: Vector)
    requires |b| == |c| == 2 * n && !Commutes(b, c)
    ensures var s, mk := RotateBy(b, c).1, Apply(n, Xor(c, b), psi);
      SameVector(n, TimesIVector(1, Apply(n, c, Apply(n, b, psi))), Combine(s, mk, 0.0, mk))
  {
    hide Apply, RotateBy, TimesI, Add, Scale, MulPhase, Commutes;
    var s, mk := RotateBy(b, c).1, Apply(n, Xor(c, b), psi);
    forall o | |o| == n ensures TimesI(1, Apply(n, c, Apply(n, b, psi))(o)) == Combine(s, mk, 0.0, mk)(o) {
      ImageMonomial(n, c, b, psi, o);
      AddNothing(s, mk(o));
    }
  }

  lemma ImageReadout(n: nat, c: Bits, b: Bits, psi: Vector)
    requires |b| == |c| == 2 * n && !Commutes(b, c)
    ensures var (k, s) := RotateBy(b, c);
      Pair(n, psi, TimesIVector(1, Apply(n, c, Apply(n, b, psi)))) == s * Readout(n, psi, k)
  {
    hide Apply, Pair, MulPhase, SameVector, TimesIVector, Combine;
    var s, mk := RotateBy(b, c).1, Apply(n, Xor(c, b), psi);
    ImageVector(n, c, b, psi);
    assert SameVector(n, psi, psi) by { SameAsItself(n, psi); }
    PairSame(n, psi, TimesIVector(1, Apply(n, c, Apply(n, b, psi))), psi, Combine(s, mk, 0.0, mk));
    PairLinear(n, psi, s, mk, 0.0, mk);
  }

  lemma SameAsItself(n: nat, psi: Vector)
    ensures SameVector(n, psi, psi)
  {
  }

  lemma CollectCommuting(u: real, v: real, r: real, x: real, y: real, z: real)
    requires u * u + v * v == 1.0 && y == -x && z == r
    ensures u * (u * r - v * x) - v * (u * y - v * z) == r
  {
    assert u * (u * r - v * x) == (u * u) * r - (u * v) * x;
    assert v * (u * (-x) - v * r) == -((u * v) * x) - (v * v) * r;
    assert (u * u) * r + (v * v) * r == (u * u + v * v) * r;
  }

  lemma CollectAnticommuting(u: real, v: real, r: real, s: real, k: real, x: real, y: real, z: real)
    requires x == -(s * k) && y == x && z == -r
    ensures u * (u * r - v * x) - v * (u * y - v * z) == (u * u - v * v) * r + 2.0 * (u * v) * s * k
  {
    assert u * (u * r - v * x) == (u * u) * r - (u * v) * x;
    assert v * (u * x - v * (-r)) == (u * v) * x + (v * v) * r;
    assert (u * u - v * v) * r == (u * u) * r - (v * v) * r;
    assert 2.0 * (u * v) * s * k == 2.0 * ((u * v) * (s * k));
    assert (u * v) * x == -((u * v) * (s * k));
  }

  /** Rotations keep the mass of a state. */
  lemma RotorKeepsMass(n: nat, c: Bits, u: real, v: real, psi: Vector)
    requires |c| == 2 * n && u * u + v * v == 1.0
    ensures Mass(n, Rotor(n, c, u, v, psi)) == Mass(n, psi)
  {
    var one, phi := Zero(2 * n), Rotor(n, c, u, v, psi);
    NoOnes(2 * n, 2 * n);
    SharedZero(one, c, 2 * n);
    assert Commutes(one, c) by {
      assert Length(one) * Length(c) == 0;
    }
    RotationRule(n, c, u, v, psi, one);
    ApplyIdentity(n, psi);
    ApplyIdentity(n, phi);
    PairSame(n, psi, Apply(n, one, psi), psi, psi);
    PairSame(n, phi, Apply(n, one, phi), phi, phi);
  }

  lemma {:induction false} SharedZero(a: Bits, b: Bits, k: nat)
    requires k <= |a| && k <= |b| && Ones(a, k) == 0
    ensures Shared(a, b, k) == 0
  {
    if k == 0 {
    } else {
      SharedZero(a, b, k - 1);
    }
  }

  // ---- the vacuum

  function Vacuum(n: nat): Vector {
    o => if o == Zero(n) then ONE else ZERO
  }

  /** Every mode is touched by both of its operators or by neither. */
  predicate Paired(b: Bits)
    requires |b| % 2 == 0
  {
    forall j | 0 <= j < |b| / 2 :: b[2 * j] == b[2 * j + 1]
  }

  /** The number of modes from j on that carry both operators. */
  function PairCount(b: Bits, j: nat): nat
    requires 2 * j <= |b| && |b| % 2 == 0
    decreases |b| - 2 * j
  {
    if 2 * j == |b| then 0 else PairCount(b, j + 1) + if b[2 * j] then 1 else 0
  }

  /** The vacuum readout the code computes: a sign per empty paired mode, or nothing at all. */
  function VacuumExpectation(b: Bits): real
    requires |b| % 2 == 0
  {
    if !Paired(b) then 0.0 else if PairCount(b, 0) % 2 == 0 then 1.0 else -1.0
  }

  lemma {:induction false} PairedProduct(b: Bits, n: nat, j: nat)
    requires |b| == 2 * n && j <= n && Paired(b)
    ensures Target(b, 2 * j, Zero(n)) == Zero(n)
    ensures ProductPhase(b, 2 * j, Zero(n)) == PairCount(b, j)
    decreases n - j
  {
    if j == n {
    } else {
      PairedProduct(b, n, j + 1);
      if b[2 * j] {
        var z := Zero(n);
        NoOnes(n, j);
        OnesOfFlip(z, j, j);
        assert Target(b, 2 * j + 1, z) == Flip(z, j);
        assert Flip(Flip(z, j), j) == z;
        assert GammaPhase(2 * j + 1, z) == 1;
        assert GammaPhase(2 * j, Flip(z, j)) == 0;
      }
    }
  }

  lemma {:induction false} PairedLength(b: Bits, j: nat)
    requires |b| % 2 == 0 && 2 * j <= |b| && Paired(b)
    ensures Ones(b, |b|) == Ones(b, 2 * j) + 2 * PairCount(b, j)
    decreases |b| - 2 * j
  {
    if 2 * j == |b| {
    } else {
      PairedLength(b, j + 1);
      OnesStep(b, 2 * j);
      OnesStep(b, 2 * j + 1);
    }
  }

  /** On the vacuum a paired monomial picks up i^(2p), p the number of its pairs. */
  lemma PairedPhase(p: nat)
    ensures (HermitianPhase(2 * p) + p - 2 * p) % 4 == 0
  {
    hide Tri, HermitianPhase;
    PhaseIsTri(2 * p);
    TriOfDouble(p);
    OffsetMod4(Tri(2 * p), p, Tri(p));
  }

  lemma TriOfDouble(p: nat)
    ensures Tri(2 * p) == 4 * Tri(p) + p
  {
    TriSum(p, p);
    TriClosed(p);
    hide Tri;
    assert p * (p - 1) == p * p - p;
  }

  lemma OffsetMod4(w: nat, p: nat, t: nat)
    requires w == 4 * t + p
    ensures (w % 4 + p - 2 * p) % 4 == 0
  {
    assert w % 4 + p - 2 * p == 4 * (t - w / 4);
  }

  lemma PairedMonomial(n: nat, b: Bits)
    requires |b| == 2 * n && Paired(b)
    ensures (MonomialPhase(b, Zero(n)) - 2 * PairCount(b, 0)) % 4 == 0
  {
    PairedProduct(b, n, 0);
    PairedLength(b, 0);
    PairedPhase(PairCount(b, 0));
  }

  /** Pairing with the vacuum reads off one amplitude. */
  lemma PairWithVacuum(n: nat, phi: Vector)
    ensures Pair(n, Vacuum(n), phi) == phi(Zero(n)).re
  {
    var psi, z := Vacuum(n), Zero(n);
    var f: Bits -> real := o => Inner(psi(o), phi(o));
    var zero: Bits -> real := o => 0.0;
    SumOfZero([], n, zero);
    forall o | |o| == n && o != z ensures f(o) == zero(o) {
      assert psi(o) == ZERO;
      InnerZero(phi(o));
    }
    SumChange(n, zero, f, z);
  }

  lemma UnpairedMonomial(n: nat, b: Bits)
    requires |b| == 2 * n && !Paired(b)
    ensures Vacuum(n)(Modes(b, n)) == ZERO
  {
    var j :| 0 <= j < n && b[2 * j] != b[2 * j + 1];
    assert Modes(b, n)[j] && !Zero(n)[j];
  }

  lemma PowerOfMinusOne(p: nat)
    ensures TimesI(2 * p, ONE).re == if p % 2 == 0 then 1.0 else -1.0
  {
  }

  lemma TimesIOfZero(e: int)
    ensures TimesI(e, ZERO) == ZERO
  {
  }

  /** The code's vacuum readout is the expectation in the vacuum state. */
  lemma VacuumReadout(n: nat, b: Bits)
    requires |b| == 2 * n
    ensures Readout(n, Vacuum(n), b) == VacuumExpectation(b)
  {
    hide Pair, TimesI, MonomialPhase, PairCount;
    var psi, z, m := Vacuum(n), Zero(n), Modes(b, n);
    PairWithVacuum(n, Apply(n, b, psi));
    assert Xor(z, m) == m;
    assert Apply(n, b, psi)(z) == TimesI(MonomialPhase(b, m), psi(m));
    if Paired(b) {
      assert m == z;
      PairedMonomial(n, b);
      TimesISame(MonomialPhase(b, z), 2 * PairCount(b, 0), ONE);
      PowerOfMinusOne(PairCount(b, 0));
    } else {
      UnpairedMonomial(n, b);
      TimesIOfZero(MonomialPhase(b, m));
    }
  }

  lemma VacuumMass(n: nat)
    ensures Mass(n, Vacuum(n)) == 1.0
  {
    PairWithVacuum(n, Vacuum(n));
  }
}
