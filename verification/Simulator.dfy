/**
  The statevector oracle on whole circuits: which matrix each gate applies to which
  pairs of amplitudes, the run over a list of gates, and what every run conserves.
*/
module Simulator {
  import opened Wrappers
  import opened Linear
  import opened ComplexNumbers
  import opened Statevector

  /** Cosine, sine and the constants the gate table uses. */
  datatype Trig = Trig(cos: real -> real, sin: real -> real, halfPi: real, quarterPi: real, rt2: real) {
    ghost predicate Valid() {
      && (forall t :: Circle(t))
      && (forall s, t :: Sums(s, t))
      && Times(rt2, rt2) == 0.5
    }

    ghost predicate Circle(t: real) {
      Times(cos(t), cos(t)) + Times(sin(t), sin(t)) == 1.0
    }

    ghost predicate Sums(s: real, t: real) {
      && cos(s + t) == Times(cos(s), cos(t)) - Times(sin(s), sin(t))
      && sin(s + t) == Times(sin(s), cos(t)) + Times(cos(s), sin(t))
    }

    function Cis(t: real): Complex { C(cos(t), sin(t)) }
  }

  datatype Gate =
    | Id | Barrier | Measure | Reset
    | H(q: nat) | X(q: nat) | Y(q: nat) | Z(q: nat) | S(q: nat) | Sdg(q: nat) | T(q: nat) | Tdg(q: nat)
    | Rx(q: nat, theta: real) | Ry(q: nat, theta: real) | Rz(q: nat, theta: real)
    | U1(q: nat, lam: real) | U2(q: nat, phi: real, lam: real) | U3(q: nat, theta: real, phi: real, lam: real)
    | CX(c: nat, q: nat) | CY(c: nat, q: nat) | CZ(c: nat, q: nat) | CRz(c: nat, q: nat, theta: real)
    | CU3(c: nat, q: nat, theta: real, phi: real, lam: real)
    | Swap(a: nat, b: nat) | Rbs(a: nat, b: nat, theta: real)
    | CCX(c: nat, d: nat, q: nat) | CSwap(c: nat, a: nat, b: nat)
    | Rxy(q: nat, from: real, upto: real, theta: real, phi: real) | CSum(c: nat, q: nat)
    | Other

  function Phases(lower: Complex, upper: Complex): Kernel { Kernel(lower, ZERO, ZERO, upper) }

  const YKERNEL := Kernel(ZERO, C(0.0, -1.0), C(0.0, 1.0), ZERO)

  function RxKernel(c: real, s: real): Kernel { Kernel(C(c, 0.0), C(0.0, -s), C(0.0, -s), C(c, 0.0)) }

  function RyKernel(c: real, s: real): Kernel { Kernel(C(c, 0.0), C(-s, 0.0), C(s, 0.0), C(c, 0.0)) }

  function RzKernel(trig: Trig, theta: real): Kernel { Phases(trig.Cis(-theta / 2.0), trig.Cis(theta / 2.0)) }

  function HKernel(r: real): Kernel { Kernel(C(r, 0.0), C(r, 0.0), C(r, 0.0), C(-r, 0.0)) }

  function U3Kernel(trig: Trig, theta: real, phi: real, lam: real): Kernel {
    var c, s := trig.cos(theta / 2.0), trig.sin(theta / 2.0);
    Kernel(C(c, 0.0), Scale(-s, trig.Cis(lam)), Scale(s, trig.Cis(phi)), Scale(c, trig.Cis(phi + lam)))
  }

  function RxyKernel(trig: Trig, theta: real, phi: real): Kernel {
    var c, s := C(trig.cos(theta / 2.0), 0.0), C(0.0, -trig.sin(theta / 2.0));
    var cf, sf := trig.cos(phi), trig.sin(phi);
    Kernel(c, Add(Mul(s, C(cf, 0.0)), Mul(s, C(0.0, -sf))), Add(Mul(s, C(cf, 0.0)), Mul(s, C(0.0, sf))), c)
  }

  datatype Action = Nothing | Mix(wires: Wires, kernel: Kernel) | Refused

  /** What each gate does to the amplitudes. */
  function ActionOf(trig: Trig, gate: Gate): Action {
    match gate
    case Id => Nothing
    case Barrier => Nothing
    case Measure => Nothing
    case Reset => Refused
    case H(q) => Mix(Single(q), HKernel(trig.rt2))
    case X(q) => Mix(Single(q), NOT)
    case Y(q) => Mix(Single(q), YKERNEL)
    case Z(q) => Mix(Single(q), Phases(ONE, C(-1.0, 0.0)))
    case S(q) => Mix(Single(q), Phases(ONE, C(0.0, 1.0)))
    case Sdg(q) => Mix(Single(q), Phases(ONE, C(0.0, -1.0)))
    case T(q) => Mix(Single(q), Phases(ONE, trig.Cis(trig.quarterPi)))
    case Tdg(q) => Mix(Single(q), Phases(ONE, trig.Cis(-trig.quarterPi)))
    case Rx(q, theta) => Mix(Single(q), RxKernel(trig.cos(theta / 2.0), trig.sin(theta / 2.0)))
    case Ry(q, theta) => Mix(Single(q), RyKernel(trig.cos(theta / 2.0), trig.sin(theta / 2.0)))
    case Rz(q, theta) => Mix(Single(q), RzKernel(trig, theta))
    case U1(q, lam) => Mix(Single(q), Phases(ONE, trig.Cis(lam)))
    case U2(q, phi, lam) => Mix(Single(q), U3Kernel(trig, trig.halfPi, phi, lam))
    case U3(q, theta, phi, lam) => Mix(Single(q), U3Kernel(trig, theta, phi, lam))
    case CX(c, q) => Mix(Controlled(c, q), NOT)
    case CY(c, q) => Mix(Controlled(c, q), YKERNEL)
    case CZ(c, q) => Mix(Controlled(c, q), Phases(ONE, C(-1.0, 0.0)))
    case CRz(c, q, theta) => Mix(Controlled(c, q), RzKernel(trig, theta))
    case CU3(c, q, theta, phi, lam) => Mix(Controlled(c, q), U3Kernel(trig, theta, phi, lam))
    case Swap(a, b) => Mix(Exchange(a, b), NOT)
    case Rbs(a, b, theta) => Mix(Exchange(b, a), Givens(trig.cos(theta), trig.sin(theta)))
    case CCX(c, d, q) => Mix(Toffoli(c, d, q), NOT)
    case CSwap(c, a, b) => Mix(ControlledExchange(c, a, b), NOT)
    case Rxy(q, from, upto, theta, phi) =>
      if from != 0.0 || upto != 1.0 then Refused else Mix(Single(q), RxyKernel(trig, theta, phi))
    case CSum(c, q) => Mix(Controlled(c, q), NOT)
    case Other => Refused
  }

  predicate Fits(n: nat, trig: Trig, gate: Gate) {
    var act := ActionOf(trig, gate);
    act.Mix? ==> act.wires.Valid(n)
  }

  // ---- every matrix of the table is unitary

  lemma PhasesUnitary(p: Complex, q: Complex)
    requires NormSq(p) == 1.0 && NormSq(q) == 1.0
    ensures Unitary(Phases(p, q))
  {
    MulZero(q);
    MulCommutes(Conj(p), ZERO);
    MulZero(Conj(p));
    assert Conj(ZERO) == ZERO;
  }

  lemma RealRotationUnitary(c: real, s: real)
    requires c * c + s * s == 1.0
    ensures Unitary(RyKernel(c, s)) && Unitary(RxKernel(c, s)) && Unitary(Givens(c, s))
  {
    assert -(c * s) + s * c == 0.0;
    assert c * -s == -(c * s);
    assert -s * -s == s * s;
  }

  lemma HUnitary(r: real)
    requires r * r == 0.5
    ensures Unitary(HKernel(r))
  {
    assert r * -r == -(r * r);
    assert -r * -r == r * r;
  }

  lemma UnitPhase(trig: Trig, t: real)
    requires trig.Valid()
    ensures NormSq(trig.Cis(t)) == 1.0
  {
    assert trig.Circle(t);
  }

  lemma ScaledNorm(t: real, a: Complex)
    ensures NormSq(Scale(t, a)) == Times(t, t) * NormSq(a)
  {
    assert (t * a.re) * (t * a.re) == (t * t) * (a.re * a.re);
    assert (t * a.im) * (t * a.im) == (t * t) * (a.im * a.im);
  }

  lemma PhasesAddUp(trig: Trig, s: real, t: real)
    requires trig.Valid()
    ensures trig.Cis(s + t) == Mul(trig.Cis(s), trig.Cis(t))
  {
    assert trig.Sums(s, t);
  }

  /** conj(c) (-s L) + conj(s P) (c P L) vanishes for a phase P. */
  lemma CrossCancels(c: real, s: real, p: Complex, l: Complex)
    requires NormSq(p) == 1.0
    ensures Add(Mul(Conj(C(c, 0.0)), Scale(-s, l)), Mul(Conj(Scale(s, p)), Scale(c, Mul(p, l)))) == ZERO
  {
    ConjTimesSelf(p, l);
    ScaledProduct(s, c, Conj(p), Mul(p, l));
    assert Conj(Scale(s, p)) == Scale(s, Conj(p));
    RealProduct(c, s, l);
  }

  lemma ConjTimesSelf(p: Complex, l: Complex)
    requires NormSq(p) == 1.0
    ensures Mul(Conj(p), Mul(p, l)) == l
  {
    MulAssociative(Conj(p), p, l);
    assert Mul(Conj(p), p) == C(NormSq(p), 0.0);
    assert Mul(ONE, l) == l;
  }

  lemma ScaledProduct(s: real, c: real, x: Complex, y: Complex)
    ensures Mul(Scale(s, x), Scale(c, y)) == Scale(s * c, Mul(x, y))
  {
    ProductOfScaled(s, x.re, c, y.re);
    ProductOfScaled(s, x.im, c, y.im);
    ProductOfScaled(s, x.re, c, y.im);
    ProductOfScaled(s, x.im, c, y.re);
    DistributeTwice(s * c, x.re * y.re, x.im * y.im);
    DistributeTwice(s * c, x.re * y.im, x.im * y.re);
  }

  lemma ProductOfScaled(s: real, x: real, c: real, y: real)
    ensures (s * x) * (c * y) == (s * c) * (x * y)
  {
  }

  lemma DistributeTwice(t: real, p: real, q: real)
    ensures t * (p - q) == t * p - t * q && t * (p + q) == t * p + t * q
  {
  }

  lemma RealProduct(c: real, s: real, l: Complex)
    ensures Mul(Conj(C(c, 0.0)), Scale(-s, l)) == Scale(-(s * c), l)
    ensures Add(Scale(-(s * c), l), Scale(s * c, l)) == ZERO
  {
    assert c * (-s * l.re) == -(s * c) * l.re;
    assert c * (-s * l.im) == -(s * c) * l.im;
  }

  lemma U3Unitary(trig: Trig, theta: real, phi: real, lam: real)
    requires trig.Valid()
    ensures Unitary(U3Kernel(trig, theta, phi, lam))
  {
    var c, s := trig.cos(theta / 2.0), trig.sin(theta / 2.0);
    assert trig.Circle(theta / 2.0);
    UnitPhase(trig, phi);
    UnitPhase(trig, lam);
    UnitPhase(trig, phi + lam);
    PhasesAddUp(trig, phi, lam);
    CrossCancels(c, s, trig.Cis(phi), trig.Cis(lam));
    ScaledNorm(-s, trig.Cis(lam));
    ScaledNorm(s, trig.Cis(phi));
    ScaledNorm(c, trig.Cis(phi + lam));
    TimesNegated(s, s);
    assert NormSq(C(c, 0.0)) == Times(c, c);
  }

  lemma RxyUnitary(trig: Trig, theta: real, phi: real)
    requires trig.Valid()
    ensures Unitary(RxyKernel(trig, theta, phi))
  {
    assert trig.Circle(theta / 2.0) && trig.Circle(phi);
    RxyEntries(trig.cos(theta / 2.0), trig.sin(theta / 2.0), trig.cos(phi), trig.sin(phi));
  }

  lemma RxyEntries(c: real, s: real, cf: real, sf: real)
    requires Times(c, c) + Times(s, s) == 1.0 && Times(cf, cf) + Times(sf, sf) == 1.0
    ensures var h := C(0.0, -s);
      Unitary(Kernel(C(c, 0.0), Add(Mul(h, C(cf, 0.0)), Mul(h, C(0.0, -sf))), Add(Mul(h, C(cf, 0.0)), Mul(h, C(0.0, sf))), C(c, 0.0)))
  {
    var h := C(0.0, -s);
    var p, q := s * sf, s * cf;
    assert Add(Mul(h, C(cf, 0.0)), Mul(h, C(0.0, -sf))) == C(-p, -q) by {
      assert -s * -sf == p && -s * cf == -q;
    }
    assert Add(Mul(h, C(cf, 0.0)), Mul(h, C(0.0, sf))) == C(p, -q) by {
      assert -s * sf == -p && -s * cf == -q;
    }
    assert p * p + q * q == s * s by {
      assert p * p == (s * s) * (sf * sf) && q * q == (s * s) * (cf * cf);
      assert (s * s) * (sf * sf) + (s * s) * (cf * cf) == (s * s) * (cf * cf + sf * sf);
    }
    assert -p * -p == p * p && -q * -q == q * q;
    assert c * -p + p * c == 0.0 && c * -q + q * c == 0.0;
  }

  /** A matrix with nothing on its diagonal and unit phases off it. */
  lemma AntiDiagonalUnitary(p: Complex, q: Complex)
    requires NormSq(p) == 1.0 && NormSq(q) == 1.0
    ensures Unitary(Kernel(ZERO, p, q, ZERO))
  {
    hide Mul, NormSq, Conj, Add;
    NormOfZero();
    ConjOfZero();
    AddZeros();
    MulZero(p);
    MulZero(Conj(q));
    MulCommutes(Conj(q), ZERO);
  }

  lemma NormOfZero()
    ensures NormSq(ZERO) == 0.0
  {
  }

  lemma ConjOfZero()
    ensures Conj(ZERO) == ZERO
  {
  }

  lemma AddZeros()
    ensures Add(ZERO, ZERO) == ZERO
  {
  }

  lemma UnitNorms()
    ensures NormSq(ONE) == 1.0 && NormSq(C(-1.0, 0.0)) == 1.0 && NormSq(C(0.0, 1.0)) == 1.0 && NormSq(C(0.0, -1.0)) == 1.0
  {
  }

  lemma ConstantsUnitary()
    ensures Unitary(NOT) && Unitary(YKERNEL)
  {
    hide Unitary, NormSq;
    UnitNorms();
    AntiDiagonalUnitary(ONE, ONE);
    AntiDiagonalUnitary(C(0.0, -1.0), C(0.0, 1.0));
  }

  lemma RzUnitary(trig: Trig, theta: real)
    requires trig.Valid()
    ensures Unitary(RzKernel(trig, theta))
  {
    UnitPhase(trig, -theta / 2.0);
    UnitPhase(trig, theta / 2.0);
    PhasesUnitary(trig.Cis(-theta / 2.0), trig.Cis(theta / 2.0));
  }

  lemma PhaseUnitary(trig: Trig, t: real)
    requires trig.Valid()
    ensures Unitary(Phases(ONE, trig.Cis(t)))
  {
    hide Unitary, NormSq, Phases, Trig.Cis;
    UnitNorms();
    UnitPhase(trig, t);
    PhasesUnitary(ONE, trig.Cis(t));
  }

  lemma RotationsUnitary(trig: Trig, t: real)
    requires trig.Valid()
    ensures Unitary(RxKernel(trig.cos(t), trig.sin(t))) && Unitary(RyKernel(trig.cos(t), trig.sin(t)))
    ensures Unitary(Givens(trig.cos(t), trig.sin(t))) && Unitary(HKernel(trig.rt2))
  {
    assert trig.Circle(t);
    RealRotationUnitary(trig.cos(t), trig.sin(t));
    HUnitary(trig.rt2);
  }

  /** Every gate of the table that is not refused applies a unitary matrix. */
  lemma TableIsUnitary(trig: Trig, gate: Gate)
    requires trig.Valid() && ActionOf(trig, gate).Mix?
    ensures Unitary(ActionOf(trig, gate).kernel)
  {
    hide Unitary, NormSq, U3Kernel, RxyKernel, RzKernel, Trig.Cis, Phases, HKernel, RxKernel, RyKernel, Givens, NOT, YKERNEL, Trig.Valid;
    UnitNorms();
    ConstantsUnitary();
    match gate {
      case T(_) => PhaseUnitary(trig, trig.quarterPi);
      case Tdg(_) => PhaseUnitary(trig, -trig.quarterPi);
      case U1(_, lam) => PhaseUnitary(trig, lam);
      case Rx(_, theta) => RotationsUnitary(trig, theta / 2.0);
      case Ry(_, theta) => RotationsUnitary(trig, theta / 2.0);
      case Rbs(_, _, theta) => RotationsUnitary(trig, theta);
      case Rz(_, theta) => RzUnitary(trig, theta);
      case CRz(_, _, theta) => RzUnitary(trig, theta);
      case U2(_, phi, lam) => U3Unitary(trig, trig.halfPi, phi, lam);
      case U3(_, theta, phi, lam) => U3Unitary(trig, theta, phi, lam);
      case CU3(_, _, theta, phi, lam) => U3Unitary(trig, theta, phi, lam);
      case Rxy(_, _, _, theta, phi) => RxyUnitary(trig, theta, phi);
      case _ =>
        PhasesUnitary(ONE, C(-1.0, 0.0));
        PhasesUnitary(ONE, C(0.0, 1.0));
        PhasesUnitary(ONE, C(0.0, -1.0));
        RotationsUnitary(trig, 0.0);
    }
  }

  // ---- runs

  /** Where the first k gates take a state. */
  ghost function Ran(n: nat, trig: Trig, gates: seq<Gate>, k: nat, s: State): (r: State)
    requires k <= |gates| && |s| == Pow2(n) && forall i | 0 <= i < k :: Fits(n, trig, gates[i])
    ensures |r| == |s|
  {
    if k == 0 then s else
      var before := Ran(n, trig, gates, k - 1, s);
      var act := ActionOf(trig, gates[k - 1]);
      assert Fits(n, trig, gates[k - 1]);
      if act.Mix? then Acted(act.wires, act.kernel, n, before) else before
  }

  /** Every run keeps the total mass. */
  lemma {:induction false} RunKeepsMass(n: nat, trig: Trig, gates: seq<Gate>, k: nat, s: State)
    requires trig.Valid() && k <= |gates| && |s| == Pow2(n) && forall i | 0 <= i < k :: Fits(n, trig, gates[i])
    ensures MassOf(Ran(n, trig, gates, k, s), Everything()) == MassOf(s, Everything())
  {
    hide ActionOf, Acted, MassOf, Pow2, Unitary;
    if k > 0 {
      RunKeepsMass(n, trig, gates, k - 1, s);
      var act := ActionOf(trig, gates[k - 1]);
      if act.Mix? {
        TableIsUnitary(trig, gates[k - 1]);
        UnitaryKeepsMass(act.wires, act.kernel, n, Ran(n, trig, gates, k - 1, s), Everything());
      }
    }
  }

  /** Gates that move no excitation in or out: exchanges, Givens rotations and diagonal gates. */
  predicate Conserving(gate: Gate) {
    gate.Swap? || gate.Rbs? || gate.CSwap? || Diagonal(gate) || gate.Id? || gate.Barrier? || gate.Measure?
  }

  predicate Diagonal(gate: Gate) {
    gate.Z? || gate.S? || gate.Sdg? || gate.T? || gate.Tdg? || gate.Rz? || gate.U1? || gate.CZ? || gate.CRz?
  }

  lemma DiagonalKernel(trig: Trig, gate: Gate)
    requires trig.Valid() && Diagonal(gate)
    ensures var act := ActionOf(trig, gate);
      act.Mix? && act.kernel.m01 == ZERO && act.kernel.m10 == ZERO &&
      NormSq(act.kernel.m00) == 1.0 && NormSq(act.kernel.m11) == 1.0
  {
    match gate {
      case T(_) => UnitPhase(trig, trig.quarterPi);
      case Tdg(_) => UnitPhase(trig, -trig.quarterPi);
      case U1(_, lam) => UnitPhase(trig, lam);
      case Rz(_, theta) =>
        UnitPhase(trig, -theta / 2.0);
        UnitPhase(trig, theta / 2.0);
      case CRz(_, _, theta) =>
        UnitPhase(trig, -theta / 2.0);
        UnitPhase(trig, theta / 2.0);
      case _ =>
    }
  }

  lemma ConservingWires(trig: Trig, gate: Gate)
    requires Conserving(gate) && !Diagonal(gate) && ActionOf(trig, gate).Mix?
    ensures var w := ActionOf(trig, gate).wires; w.Exchange? || w.ControlledExchange?
  {
  }

  lemma ConservingStep(n: nat, trig: Trig, gate: Gate, s: State, h: nat)
    requires trig.Valid() && |s| == Pow2(n) && Fits(n, trig, gate) && Conserving(gate) && ActionOf(trig, gate).Mix?
    ensures var act := ActionOf(trig, gate);
      MassOf(Acted(act.wires, act.kernel, n, s), Sector(h)) == MassOf(s, Sector(h))
  {
    hide MassOf, NormSq, ActionOf, ActedAt, Acted, Unitary, Conserving, Diagonal, Hamming, Wires.Partner, Wires.Acts;
    var act := ActionOf(trig, gate);
    if Diagonal(gate) {
      DiagonalKernel(trig, gate);
      var r := Acted(act.wires, act.kernel, n, s);
      forall k | 0 <= k < |s| ensures NormSq(r[k]) == NormSq(s[k]) {
        DiagonalKeepsAmplitudes(act.wires, act.kernel, n, s, k);
      }
      SameMass(s, r, Sector(h));
    } else {
      TableIsUnitary(trig, gate);
      ConservingWires(trig, gate);
      forall k: nat | k < Pow2(n) && act.wires.Acts(k) ensures Sector(h)(act.wires.Partner(k)) == Sector(h)(k) {
        ExchangeKeepsHamming(act.wires, n, k);
      }
      UnitaryKeepsMass(act.wires, act.kernel, n, s, Sector(h));
    }
  }

  /** Runs of exchanges, Givens rotations and diagonal gates keep the mass of every excitation sector. */
  lemma {:induction false} RunKeepsSectors(n: nat, trig: Trig, gates: seq<Gate>, k: nat, s: State, h: nat)
    requires trig.Valid() && k <= |gates| && |s| == Pow2(n)
    requires forall i | 0 <= i < k :: Fits(n, trig, gates[i]) && Conserving(gates[i])
    ensures MassOf(Ran(n, trig, gates, k, s), Sector(h)) == MassOf(s, Sector(h))
  {
    hide ActionOf, Acted, MassOf, Conserving, Pow2;
    if k > 0 {
      RunKeepsSectors(n, trig, gates, k - 1, s, h);
      if ActionOf(trig, gates[k - 1]).Mix? {
        ConservingStep(n, trig, gates[k - 1], Ran(n, trig, gates, k - 1, s), h);
      }
    }
  }

  /** The state with every bit clear. */
  ghost function Ground(n: nat): (s: State)
    ensures |s| == Pow2(n)
  {
    seq(Pow2(n), i => if i == 0 then ONE else ZERO)
  }

  lemma GroundMass(n: nat)
    ensures MassOf(Ground(n), Everything()) == 1.0
  {
    var s := Ground(n);
    var f := Weighted(s, Everything());
    var zero: nat -> real := (k: nat) => 0.0;
    SumOverSplit(Indices(s), f, 0);
    forall k | k in Indices(s) - {0} ensures f(k) == zero(k) {
      assert s[k] == ZERO;
    }
    SumOverSame(Indices(s) - {0}, f, zero);
    SumOverZero(Indices(s) - {0}, zero);
    assert f(0) == 1.0;
  }

  lemma {:induction false} SumOverZero(s: set<nat>, f: nat -> real)
    requires forall k | k in s :: f(k) == 0.0
    ensures SumOver(s, f) == 0.0
  {
    if s != {} {
      var x :| x in s && SumOver(s, f) == f(x) + SumOver(s - {x}, f);
      SumOverZero(s - {x}, f);
    }
  }

  datatype SimFailure = TooManyQubits | UnsupportedGate

  /** The gates that act on one wire. */
  predicate OneWire(gate: Gate) {
    gate.H? || gate.X? || gate.Y? || gate.Z? || gate.S? || gate.Sdg? || gate.T? || gate.Tdg? ||
    gate.Rx? || gate.Ry? || gate.Rz? || gate.U1? || gate.U2? || gate.U3?
  }

  /** What a gate does to the whole array. */
  ghost function Moved(n: nat, trig: Trig, gate: Gate, s: State): State
    requires |s| == Pow2(n) && Fits(n, trig, gate)
  {
    var act := ActionOf(trig, gate);
    if act.Mix? then Acted(act.wires, act.kernel, n, s) else s
  }

  /** The matrix of a gate on one wire. */
  function OneWireKernel(trig: Trig, gate: Gate): Kernel
    requires OneWire(gate)
  {
    match gate
    case H(_) => HKernel(trig.rt2)
    case X(_) => NOT
    case Y(_) => YKERNEL
    case Z(_) => Phases(ONE, C(-1.0, 0.0))
    case S(_) => Phases(ONE, C(0.0, 1.0))
    case Sdg(_) => Phases(ONE, C(0.0, -1.0))
    case T(_) => Phases(ONE, trig.Cis(trig.quarterPi))
    case Tdg(_) => Phases(ONE, trig.Cis(-trig.quarterPi))
    case Rx(_, theta) => RxKernel(trig.cos(theta / 2.0), trig.sin(theta / 2.0))
    case Ry(_, theta) => RyKernel(trig.cos(theta / 2.0), trig.sin(theta / 2.0))
    case Rz(_, theta) => RzKernel(trig, theta)
    case U1(_, lam) => Phases(ONE, trig.Cis(lam))
    case U2(_, phi, lam) => U3Kernel(trig, trig.halfPi, phi, lam)
    case U3(_, theta, phi, lam) => U3Kernel(trig, theta, phi, lam)
  }

  /** One gate on the array. */
  method ApplyGate(ghost n: nat, trig: Trig, sv: array<Complex>, gate: Gate) returns (ok: bool)
    requires sv.Length == Pow2(n) && Fits(n, trig, gate)
    modifies sv
    ensures ok <==> !ActionOf(trig, gate).Refused?
    ensures ok ==> sv[..] == Moved(n, trig, gate, old(sv[..]))
  {
    hide Acted, Pow2, HKernel, U3Kernel, RxyKernel, RzKernel, RxKernel, RyKernel, Givens, Phases, NOT, YKERNEL, Trig.Cis;
    ok := true;
    if OneWire(gate) {
      Apply1Q(n, sv, gate.q, OneWireKernel(trig, gate));
      return;
    }
    match gate {
      case Id =>
      case Barrier =>
      case Measure =>
      case Reset => ok := false;
      case CX(c, q) => ApplyControlled1Q(n, sv, c, q, NOT);
      case CY(c, q) => ApplyControlled1Q(n, sv, c, q, YKERNEL);
      case CZ(c, q) => ApplyControlled1Q(n, sv, c, q, Phases(ONE, C(-1.0, 0.0)));
      case CRz(c, q, theta) => ApplyControlled1Q(n, sv, c, q, RzKernel(trig, theta));
      case CU3(c, q, theta, phi, lam) => ApplyControlled1Q(n, sv, c, q, U3Kernel(trig, theta, phi, lam));
      case Swap(a, b) => SwapWires(n, sv, a, b);
      case Rbs(a, b, theta) => RotateGivens(n, sv, a, b, trig.cos(theta), trig.sin(theta));
      case CCX(c, d, q) => ApplyToffoli(n, sv, c, d, q);
      case CSwap(c, a, b) => ApplyControlledSwap(n, sv, c, a, b);
      case Rxy(q, from, upto, theta, phi) =>
        if from != 0.0 || upto != 1.0 {
          ok := false;
        } else {
          Apply1Q(n, sv, q, RxyKernel(trig, theta, phi));
        }
      case CSum(c, q) => ApplyControlled1Q(n, sv, c, q, NOT);
      case Other => ok := false;
    }
  }

  /** Simulate a circuit from the all-clear state. */
  method Simulate(n: nat, trig: Trig, gates: seq<Gate>) returns (res: Result<array<Complex>, SimFailure>)
    requires trig.Valid() && forall i | 0 <= i < |gates| :: Fits(n, trig, gates[i])
    ensures n > 20 <==> res == Err(TooManyQubits)
    ensures res.Ok? <==> n <= 20 && forall i | 0 <= i < |gates| :: !ActionOf(trig, gates[i]).Refused?
    ensures res.Ok? ==> fresh(res.value) && res.value[..] == Ran(n, trig, gates, |gates|, Ground(n))
    ensures res.Ok? ==> MassOf(res.value[..], Everything()) == 1.0
  {
    if n > 20 {
      return Err(TooManyQubits);
    }
    hide Ground, ActionOf, Fits, MassOf, Ran, Trig.Valid;
    var dim := Pow2(n);
    var sv := new Complex[dim](_ => ZERO);
    sv[0] := ONE;
    GroundIs(n, sv[..]);
    var k := 0;
    RanNothing(n, trig, gates, Ground(n));
    while k < |gates|
      invariant k <= |gates| && fresh(sv) && sv.Length == Pow2(n)
      invariant forall i | 0 <= i < k :: !ActionOf(trig, gates[i]).Refused?
      invariant sv[..] == Ran(n, trig, gates, k, Ground(n))
    {
      var ok := ApplyGate(n, trig, sv, gates[k]);
      if !ok {
        return Err(UnsupportedGate);
      }
      RanOneMore(n, trig, gates, k, Ground(n));
      k := k + 1;
    }
    RunKeepsMass(n, trig, gates, |gates|, Ground(n));
    GroundMass(n);
    return Ok(sv);
  }

  lemma GroundIs(n: nat, s: State)
    requires |s| == Pow2(n) && s[0] == ONE && forall i | 0 < i < |s| :: s[i] == ZERO
    ensures s == Ground(n)
  {
  }

  lemma RanNothing(n: nat, trig: Trig, gates: seq<Gate>, s: State)
    requires |s| == Pow2(n)
    ensures Ran(n, trig, gates, 0, s) == s
  {
  }

  lemma RanOneMore(n: nat, trig: Trig, gates: seq<Gate>, k: nat, s: State)
    requires k < |gates| && |s| == Pow2(n) && forall i | 0 <= i <= k :: Fits(n, trig, gates[i])
    ensures var before, act := Ran(n, trig, gates, k, s), ActionOf(trig, gates[k]);
      (act.Mix? ==> act.wires.Valid(n)) &&
      Ran(n, trig, gates, k + 1, s) == if act.Mix? then Acted(act.wires, act.kernel, n, before) else before
  {
    hide ActionOf, Acted;
  }

  // ---- the readout

  /** The sign of Z on qubit q. */
  ghost function ZSign(q: nat): nat -> real { (k: nat) => if Bit(k, q) then -1.0 else 1.0 }

  lemma NextIndex(x: nat, f: nat -> real)
    ensures SumOver(Below(x + 1), f) == SumOver(Below(x), f) + f(x)
  {
    SumOverSplit(Below(x + 1), f, x);
    assert Below(x + 1) - {x} == Below(x);
  }

  lemma {:induction false} SumOverBound(s: set<nat>, f: nat -> real, g: nat -> real)
    requires forall k | k in s :: -g(k) <= f(k) <= g(k)
    ensures -SumOver(s, g) <= SumOver(s, f) <= SumOver(s, g)
  {
    if s == {} {
    } else {
      var x :| x in s && SumOver(s, f) == f(x) + SumOver(s - {x}, f);
      SumOverSplit(s, g, x);
      SumOverBound(s - {x}, f, g);
    }
  }

  lemma ZWithinMass(s: State, q: nat)
    ensures -MassOf(s, Everything()) <= MassOf(s, ZSign(q)) <= MassOf(s, Everything())
  {
    hide Bit;
    forall k | k in Indices(s)
      ensures -Weighted(s, Everything())(k) <= Weighted(s, ZSign(q))(k) <= Weighted(s, Everything())(k)
    {
      NormIsNonNegative(s[k]);
      SignedTimes(NormSq(s[k]));
    }
    SumOverBound(Indices(s), Weighted(s, ZSign(q)), Weighted(s, Everything()));
  }

  lemma NormIsNonNegative(a: Complex)
    ensures NormSq(a) >= 0.0
  {
    TimesSquare(a.re);
    TimesSquare(a.im);
  }

  lemma SignedTimes(x: real)
    ensures Times(1.0, x) == x && Times(-1.0, x) == -x
  {
  }

  /** The expectation of Z on every qubit. */
  method ForwardZ(n: nat, sv: array<Complex>) returns (z: seq<real>)
    requires sv.Length == Pow2(n)
    ensures |z| == n && forall q | 0 <= q < n :: z[q] == MassOf(sv[..], ZSign(q))
    ensures forall q | 0 <= q < n :: -MassOf(sv[..], Everything()) <= z[q] <= MassOf(sv[..], Everything())
  {
    hide MassOf, NormSq;
    z := [];
    for q := 0 to n
      invariant |z| == q && forall p | 0 <= p < q :: z[p] == MassOf(sv[..], ZSign(p))
    {
      var e := ZExpectation(sv, q);
      z := z + [e];
    }
    forall q | 0 <= q < n ensures -MassOf(sv[..], Everything()) <= z[q] <= MassOf(sv[..], Everything()) {
      ZWithinMass(sv[..], q);
    }
  }

  method ZExpectation(sv: array<Complex>, q: nat) returns (e: real)
    ensures e == MassOf(sv[..], ZSign(q))
  {
    hide *;
    e := 0.0;
    ghost var f := Weighted(sv[..], ZSign(q));
    SumOverNothing(f);
    for x := 0 to sv.Length
      invariant e == SumOver(Below(x), f)
    {
      var p := NormSq(sv[x]);
      NextIndex(x, f);
      ZTerm(sv[..], q, x);
      e := e + if !Bit(x, q) then p else -p;
    }
    MassIsSum(sv[..], ZSign(q));
  }

  lemma MassIsSum(s: State, weight: nat -> real)
    ensures MassOf(s, weight) == SumOver(Below(|s|), Weighted(s, weight))
  {
  }

  lemma SumOverNothing(f: nat -> real)
    ensures SumOver(Below(0), f) == 0.0
  {
  }

  lemma ZTerm(s: State, q: nat, x: nat)
    requires x < |s|
    ensures Weighted(s, ZSign(q))(x) == if !Bit(x, q) then NormSq(s[x]) else -NormSq(s[x])
  {
    SignedTimes(NormSq(s[x]));
  }

  /** After any run from the all-clear state, every Z expectation lies between -1 and 1. */
  method ForwardZExpectations(n: nat, trig: Trig, gates: seq<Gate>) returns (res: Result<seq<real>, SimFailure>)
    requires trig.Valid() && forall i | 0 <= i < |gates| :: Fits(n, trig, gates[i])
    ensures n > 20 <==> res == Err(TooManyQubits)
    ensures res.Ok? <==> n <= 20 && forall i | 0 <= i < |gates| :: !ActionOf(trig, gates[i]).Refused?
    ensures res.Ok? ==> |res.value| == n && forall q | 0 <= q < n ::
      res.value[q] == MassOf(Ran(n, trig, gates, |gates|, Ground(n)), ZSign(q)) && -1.0 <= res.value[q] <= 1.0
  {
    hide ActionOf, Ran, MassOf, Ground, Fits, Pow2, Trig.Valid;
    var sv := Simulate(n, trig, gates);
    if sv.Err? {
      return Err(sv.error);
    }
    var z := ForwardZ(n, sv.value);
    return Ok(z);
  }
}
