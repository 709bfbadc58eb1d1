/** Every entry of the engine's gate table is the gate's own matrix, up to a global phase. */
module GateTable {
  import opened Linear
  import opened Wrappers
  import opened Bits
  import opened ComplexNumbers
  import opened Majorana
  import opened MajoranaFock
  import opened MajoranaPauli
  import opened PauliTerms
  import opened MajoranaDoor
  import opened MajoranaGates
  import opened PairMaps
  import opened TurnMaps
  import opened GateMeaning
  import S = Statevector
  import Sim = Simulator

  // ---- one qubit

  /** The matrix of a rotation about one axis. */
  ghost function AxisKernel(trig: Trig, p: Pauli, t: real): S.Kernel {
    match p
    case X => Sim.RxKernel(trig.cosHalf(t), trig.sinHalf(t))
    case Y => Sim.RyKernel(trig.cosHalf(t), trig.sinHalf(t))
    case _ => Sim.Phases(Back(trig, t), Half(trig, t))
  }

  lemma FlipKernels(c: real, s: real)
    ensures FlipKernel(c, s, 0, 0) == Sim.RxKernel(c, s) && FlipKernel(c, s, 1, 3) == Sim.RyKernel(c, s)
  {
  }

  lemma DiagonalRow(d: Complex, a: Complex, b: Complex)
    ensures Add(Mul(d, a), Mul(ZERO, b)) == Mul(d, a) && Add(Mul(ZERO, b), Mul(d, a)) == Mul(d, a)
  {
    hide Mul;
    MulZero(b);
  }

  lemma AxisTurn(n: nat, trig: Trig, a: nat, p: Pauli, t: real, psi: Vector)
    requires a < n && p != I
    ensures TurnInRange(n, One(a, p, t))
    ensures SameVector(n, PauliTurned(n, trig, One(a, p, t), psi), Mixed(n, Unit(n, a), a, Constant(AxisKernel(trig, p, t)), psi))
  {
    hide PauliTurned, FlipKernel, Sim.RxKernel, Sim.RyKernel, Half, Back, Mul;
    if p == Z {
      ZTurn(n, trig, a, t, psi);
      forall o | |o| == n
        ensures PauliTurned(n, trig, One(a, p, t), psi)(o) == Mixed(n, Unit(n, a), a, Constant(AxisKernel(trig, p, t)), psi)(o)
      {
        DiagonalRow(ZFactor(trig, t, o[a]), psi(o), psi(Xor(o, Unit(n, a))));
      }
    } else {
      OneFlipTurn(n, trig, a, p, t, psi);
      FlipKernels(trig.cosHalf(t), trig.sinHalf(t));
    }
  }

  lemma OneTurned(n: nat, trig: Trig, turn: PauliTurn, psi: Vector)
    requires TurnInRange(n, turn)
    ensures TurnsInRange(n, [turn]) && AllTurned(n, trig, [turn], 1, psi) == PauliTurned(n, trig, turn, psi)
  {
    hide PauliTurned, TurnInRange;
    assert AllTurned(n, trig, [turn], 0, psi) == psi;
  }

  lemma AxisAmounts(n: nat, trig: Trig, a: nat, p: Pauli, t: real)
    requires a < n && p != I
    ensures TurnsInRange(n, [One(a, p, t)])
    ensures Amounts(n, trig, [One(a, p, t)], Unit(n, a), a, Constant(AxisKernel(trig, p, t)))
  {
    hide PauliTurned, AllTurned, Mixed, AxisKernel, Alike, SameVector;
    var turns := [One(a, p, t)];
    forall psi: Vector ensures TurnsInRange(n, turns) && AmountsAt(n, trig, turns, Unit(n, a), a, Constant(AxisKernel(trig, p, t)), psi) {
      AxisTurn(n, trig, a, p, t, psi);
      OneTurned(n, trig, One(a, p, t), psi);
      SameIsAlike(n, PauliTurned(n, trig, One(a, p, t), psi), Mixed(n, Unit(n, a), a, Constant(AxisKernel(trig, p, t)), psi));
    }
    AxisTurn(n, trig, a, p, t, _ => ZERO);
  }

  lemma ConstantSteady(n: nat, mask: Bits, k: S.Kernel)
    requires |mask| == n
    ensures Steady(n, mask, Constant(k))
  {
  }

  /** Three rotations of one qubit. */
  lemma ThreeAxes(n: nat, trig: Trig, a: nat, p: Pauli, t: real, q: Pauli, u: real, r: Pauli, v: real)
    requires a < n && p != I && q != I && r != I
    ensures var turns := [One(a, p, t), One(a, q, u), One(a, r, v)];
      TurnsInRange(n, turns) &&
      Amounts(n, trig, turns, Unit(n, a), a,
              Constant(Composed(AxisKernel(trig, r, v), Composed(AxisKernel(trig, q, u), AxisKernel(trig, p, t)))))
  {
    hide AllTurned, Mixed, AxisKernel, Composed, Amounts, TurnInRange;
    var x, y, z := [One(a, p, t)], [One(a, q, u)], [One(a, r, v)];
    var f, g, h := AxisKernel(trig, p, t), AxisKernel(trig, q, u), AxisKernel(trig, r, v);
    var m := Unit(n, a);
    AxisAmounts(n, trig, a, p, t);
    AxisAmounts(n, trig, a, q, u);
    AxisAmounts(n, trig, a, r, v);
    ConstantSteady(n, m, f);
    AmountsTwice(n, trig, x, y, m, a, Constant(f), Constant(g));
    assert Steady(n, m, ComposedFamily(Constant(g), Constant(f)));
    AmountsTwice(n, trig, x + y, z, m, a, ComposedFamily(Constant(g), Constant(f)), Constant(h));
    assert x + y + z == [One(a, p, t), One(a, q, u), One(a, r, v)];
    AmountsSame(n, trig, x + y + z, m, a, ComposedFamily(Constant(h), ComposedFamily(Constant(g), Constant(f))),
                Constant(Composed(h, Composed(g, f))));
  }

  // ---- the matrices of the one-qubit entries

  /** H is a quarter turn about X, one about Z and one about X. */
  lemma HadamardKernel(r: real)
    requires Times(r, r) == 0.5
    ensures var x := Sim.RxKernel(r, r);
      Composed(x, Composed(Sim.Phases(C(r, -r), C(r, r)), x)) == Rephased(C(0.0, -1.0), Sim.HKernel(r))
  {
    hide Times;
    var x := Sim.RxKernel(r, r);
    var y := Composed(Sim.Phases(C(r, -r), C(r, r)), x);
    HadamardInner(r);
    HadamardOuter(r, y);
  }

  lemma HadamardInner(r: real)
    requires Times(r, r) == 0.5
    ensures Composed(Sim.Phases(C(r, -r), C(r, r)), Sim.RxKernel(r, r)) ==
      S.Kernel(C(0.5, -0.5), C(-0.5, -0.5), C(0.5, -0.5), C(0.5, 0.5))
  {
    assert r * r == 0.5 && -r * -r == 0.5 && r * -r == -0.5 && -r * r == -0.5;
  }

  lemma HadamardOuter(r: real, y: S.Kernel)
    requires y == S.Kernel(C(0.5, -0.5), C(-0.5, -0.5), C(0.5, -0.5), C(0.5, 0.5))
    ensures Composed(Sim.RxKernel(r, r), y) == Rephased(C(0.0, -1.0), Sim.HKernel(r))
  {
  }

  lemma HadamardAmounts(n: nat, trig: Trig, sim: Sim.Trig, a: nat)
    requires TrigsAgree(trig, sim) && a < n
    ensures TurnsInRange(n, HTurns(a, trig.pi)) && Amounts(n, trig, HTurns(a, trig.pi), Unit(n, a), a, Constant(Sim.HKernel(sim.rt2)))
  {
    hide Amounts, Composed, Rephased, Sim.HKernel, TrigsAgree, TurnInRange;
    var h, r := trig.pi / 2.0, sim.rt2;
    FixedAngles(trig, sim);
    HadamardKernel(r);
    assert AxisKernel(trig, X, h) == Sim.RxKernel(r, r) && AxisKernel(trig, Z, h) == Sim.Phases(C(r, -r), C(r, r));
    ThreeAxes(n, trig, a, X, h, Z, h, X, h);
    AmountsRephased(n, trig, HTurns(a, trig.pi), Unit(n, a), a, C(0.0, -1.0),
      Constant(Rephased(C(0.0, -1.0), Sim.HKernel(r))), Constant(Sim.HKernel(r)));
  }

  /** Products with a diagonal matrix. */
  lemma ComposedDiagonal(d: Complex, e: Complex, k: S.Kernel)
    ensures Composed(Sim.Phases(d, e), k) == S.Kernel(Mul(d, k.m00), Mul(d, k.m01), Mul(e, k.m10), Mul(e, k.m11))
    ensures Composed(k, Sim.Phases(d, e)) == S.Kernel(Mul(k.m00, d), Mul(k.m01, e), Mul(k.m10, d), Mul(k.m11, e))
  {
    hide Mul;
    DiagonalRow(d, k.m00, k.m10);
    DiagonalRow(d, k.m01, k.m11);
    DiagonalRow(e, k.m10, k.m00);
    DiagonalRow(e, k.m11, k.m01);
    TimesNothing(k.m00);
    TimesNothing(k.m01);
    TimesNothing(k.m10);
    TimesNothing(k.m11);
    AddNothingTo(Mul(k.m00, d));
    AddNothingTo(Mul(k.m01, e));
    AddNothingTo(Mul(k.m10, d));
    AddNothingTo(Mul(k.m11, e));
  }

  lemma TimesNothing(a: Complex)
    ensures Mul(a, ZERO) == ZERO
  {
  }

  lemma AddNothingTo(a: Complex)
    ensures Add(a, ZERO) == a && Add(ZERO, a) == a
  {
  }

  /** A real factor between two phases. */
  lemma PhasesAround(trig: Trig, sim: Sim.Trig, a: real, k: real, b: real)
    requires TrigsAgree(trig, sim)
    ensures Mul(Half(trig, a), Mul(C(k, 0.0), Half(trig, b))) == Scale(k, Half(trig, a + b))
    ensures Mul(Half(trig, a), Scale(k, Half(trig, b))) == Scale(k, Half(trig, a + b))
  {
    hide Mul, Scale, Half, TrigsAgree;
    HalfSum(trig, sim, a, b);
    RealTimes(k, Half(trig, b));
    MoveFactor(Half(trig, a), C(k, 0.0), Half(trig, b));
    RealTimes(k, Mul(Half(trig, a), Half(trig, b)));
  }

  /** The three Euler angles, with the phase the gate's own matrix leaves out. */
  lemma EulerKernel(trig: Trig, sim: Sim.Trig, theta: real, phi: real, lam: real)
    requires TrigsAgree(trig, sim)
    ensures Composed(AxisKernel(trig, Z, phi), Composed(AxisKernel(trig, Y, theta), AxisKernel(trig, Z, lam))) ==
      Rephased(Half(trig, -phi - lam), Sim.U3Kernel(sim, theta, phi, lam))
  {
    hide Mul, Scale, Composed, Half, Back, TrigsAgree;
    var c, s, p := trig.cosHalf(theta), trig.sinHalf(theta), -phi - lam;
    assert c == sim.cos(theta / 2.0) && s == sim.sin(theta / 2.0) by { SameAngle(trig, sim, theta); }
    HalfIsCis(trig, sim, phi);
    HalfIsCis(trig, sim, lam);
    var y := Sim.RyKernel(c, s);
    var f, g := Half(trig, -lam), Half(trig, lam);
    ComposedDiagonal(f, g, y);
    ComposedDiagonal(Half(trig, -phi), Half(trig, phi), Composed(y, Sim.Phases(f, g)));
    PhasesAround(trig, sim, -phi, c, -lam);
    PhasesAround(trig, sim, -phi, -s, lam);
    PhasesAround(trig, sim, phi, s, -lam);
    PhasesAround(trig, sim, phi, c, lam);
    HalfIsCis(trig, sim, 2.0 * lam);
    HalfIsCis(trig, sim, 2.0 * phi);
    HalfIsCis(trig, sim, 2.0 * (phi + lam));
    PhasesAround(trig, sim, p, -s, 2.0 * lam);
    PhasesAround(trig, sim, p, s, 2.0 * phi);
    PhasesAround(trig, sim, p, c, 2.0 * (phi + lam));
    PlainEntry(trig, sim, p, c);
    assert p + 2.0 * lam == -phi + lam && p + 2.0 * phi == phi + -lam && p + 2.0 * (phi + lam) == phi + lam;
  }

  lemma PlainEntry(trig: Trig, sim: Sim.Trig, p: real, c: real)
    requires TrigsAgree(trig, sim)
    ensures Mul(Half(trig, p), C(c, 0.0)) == Scale(c, Half(trig, p))
  {
    RealTimes(c, Half(trig, p));
    MulCommutes(C(c, 0.0), Half(trig, p));
  }

  lemma SameAngle(trig: Trig, sim: Sim.Trig, t: real)
    requires TrigsAgree(trig, sim)
    ensures trig.cosHalf(t) == sim.cos(t / 2.0) && trig.sinHalf(t) == sim.sin(t / 2.0)
  {
    assert HalfAngle(trig, sim, t);
  }

  /** A rotation about Z is a phase on the set bit, up to a global one. */
  lemma PhaseKernel(trig: Trig, sim: Sim.Trig, t: real)
    requires TrigsAgree(trig, sim)
    ensures AxisKernel(trig, Z, t) == Rephased(Half(trig, -t), Sim.Phases(ONE, Half(trig, 2.0 * t)))
    ensures AxisKernel(trig, Z, t) == Sim.RzKernel(sim, t)
  {
    hide Mul, Half, Back, TrigsAgree;
    HalfIsCis(trig, sim, t);
    HalfIsCis(trig, sim, -t);
    HalfSum(trig, sim, -t, 2.0 * t);
    MulOne(Half(trig, -t));
    MulCommutes(ONE, Half(trig, -t));
    TimesNothing(Half(trig, -t));
    assert -t + 2.0 * t == t;
  }
}
