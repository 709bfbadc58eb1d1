/** The composite entries of the gate table: controlled gates, the exchange and the Givens rotation. */
module GateComposites {
  import opened Linear
  import opened Wrappers
  import opened Bits
  import opened ComplexNumbers
  import opened Majorana
  import opened MajoranaFock
  import opened MajoranaPauli
  import opened PauliTerms
  import opened MajoranaDoor
  import opened MajoranaGates
  import opened PairMaps
  import opened TurnMaps
  import opened GateMeaning
  import opened GateTable
  import opened GateDiagonals
  import S = Statevector
  import Sim = Simulator

  // ---- controlled gates

  lemma WhereSetSteady(n: nat, c: nat, r: nat, k: S.Kernel)
    requires c < n && r < n && c != r
    ensures Steady(n, Unit(n, r), WhereSet(c, k))
  {
  }

  lemma WhereBothSteady(n: nat, c: nat, d: nat, r: nat, k: S.Kernel)
    requires c < n && d < n && r < n && c != r && d != r
    ensures Steady(n, Unit(n, r), WhereBoth(c, d, k))
  {
  }

  /** A real matrix, and a matrix real on its diagonal and imaginary off it. */
  ghost function RealKernel(a: real, b: real, c: real, d: real): S.Kernel {
    S.Kernel(C(a, 0.0), C(b, 0.0), C(c, 0.0), C(d, 0.0))
  }

  ghost function TurnKernel(a: real, b: real): S.Kernel { S.Kernel(C(a, 0.0), C(0.0, b), C(0.0, b), C(a, 0.0)) }

  lemma RealRow(a: real, b: real, x: real, y: real)
    ensures Add(Mul(C(a, 0.0), C(x, 0.0)), Mul(C(b, 0.0), C(y, 0.0))) == C(Times(a, x) + Times(b, y), 0.0)
  {
  }

  lemma RealComposed(a: real, b: real, c: real, d: real, e: real, f: real, g: real, h: real)
    ensures Composed(RealKernel(a, b, c, d), RealKernel(e, f, g, h)) ==
      RealKernel(Times(a, e) + Times(b, g), Times(a, f) + Times(b, h), Times(c, e) + Times(d, g), Times(c, f) + Times(d, h))
  {
    hide Mul, Add, Times;
    RealRow(a, b, e, g);
    RealRow(a, b, f, h);
    RealRow(c, d, e, g);
    RealRow(c, d, f, h);
  }

  lemma TurnRow(a: real, b: real, x: real, y: real)
    ensures Add(Mul(C(a, 0.0), C(x, 0.0)), Mul(C(0.0, b), C(0.0, y))) == C(Times(a, x) - Times(b, y), 0.0)
    ensures Add(Mul(C(0.0, b), C(0.0, y)), Mul(C(a, 0.0), C(x, 0.0))) == C(Times(a, x) - Times(b, y), 0.0)
    ensures Add(Mul(C(a, 0.0), C(0.0, y)), Mul(C(0.0, b), C(x, 0.0))) == C(0.0, Times(a, y) + Times(b, x))
    ensures Add(Mul(C(0.0, b), C(x, 0.0)), Mul(C(a, 0.0), C(0.0, y))) == C(0.0, Times(a, y) + Times(b, x))
  {
  }

  lemma TurnComposed(a: real, b: real, x: real, y: real)
    ensures Composed(TurnKernel(a, b), TurnKernel(x, y)) == TurnKernel(Times(a, x) - Times(b, y), Times(a, y) + Times(b, x))
  {
    hide Mul, Add, Times;
    TurnRow(a, b, x, y);
  }

  /** The products of a square root of one half. */
  lemma HalfProducts(r: real)
    requires Times(r, r) == 0.5
    ensures Times(r, -r) == -0.5 && Times(-r, r) == -0.5 && Times(-r, -r) == 0.5
  {
  }

  lemma UnitProducts(x: real)
    ensures Times(1.0, x) == x && Times(0.0, x) == 0.0 && Times(-1.0, x) == -x && Times(x, 0.0) == 0.0
  {
  }

  /** Two Hadamards undo each other, and turn a sign into an exchange. */
  lemma HadamardSandwich(r: real)
    requires Times(r, r) == 0.5
    ensures var h := Sim.HKernel(r);
      Composed(h, Composed(SAME, h)) == SAME && Composed(h, Composed(Sim.Phases(ONE, C(-1.0, 0.0)), h)) == S.NOT
  {
    hide Composed, Times;
    HalfProducts(r);
    UnitProducts(r);
    UnitProducts(-r);
    RealComposed(1.0, 0.0, 0.0, 1.0, r, r, r, -r);
    RealComposed(r, r, r, -r, r, r, r, -r);
    RealComposed(1.0, 0.0, 0.0, -1.0, r, r, r, -r);
    RealComposed(r, r, r, -r, r, r, -r, r);
  }

  /** Rotations of one list between two others. */
  lemma Between(n: nat, trig: Trig, a: seq<PauliTurn>, b: seq<PauliTurn>, c: seq<PauliTurn>, mask: Bits, q: nat,
                f: Family, g: Family, h: Family, goal: Family)
    requires TurnsInRange(n, a) && TurnsInRange(n, b) && TurnsInRange(n, c) && |mask| == n && q < n && mask[q]
    requires Amounts(n, trig, a, mask, q, f) && Amounts(n, trig, b, mask, q, g) && Amounts(n, trig, c, mask, q, h)
    requires Steady(n, mask, f) && Steady(n, mask, g)
    requires forall o | |o| == n :: Composed(h(o), Composed(g(o), f(o))) == goal(o)
    ensures TurnsInRange(n, a + b + c) && Amounts(n, trig, a + b + c, mask, q, goal)
  {
    hide Amounts, Composed, TurnInRange;
    AmountsTwice(n, trig, a, b, mask, q, f, g);
    assert Steady(n, mask, ComposedFamily(g, f));
    AmountsTwice(n, trig, a + b, c, mask, q, ComposedFamily(g, f), h);
    AmountsSame(n, trig, a + b + c, mask, q, ComposedFamily(h, ComposedFamily(g, f)), goal);
  }

  lemma CXAmounts(n: nat, trig: Trig, sim: Sim.Trig, q: nat, r: nat)
    requires TrigsAgree(trig, sim) && q < n && r < n && q != r
    ensures TurnsInRange(n, CXTurns(q, r, trig.pi)) && Amounts(n, trig, CXTurns(q, r, trig.pi), Unit(n, r), r, WhereSet(q, S.NOT))
  {
    hide Amounts, Composed, TurnInRange, TrigsAgree, Sim.HKernel, S.NOT, Half, HTurns, CPTurns, Steady, Sim.Phases;
    var k, h := Sim.Phases(ONE, C(-1.0, 0.0)), Constant(Sim.HKernel(sim.rt2));
    FixedAngles(trig, sim);
    HadamardSandwich(sim.rt2);
    HadamardAmounts(n, trig, sim, r);
    CPAmounts(n, trig, sim, q, r, trig.pi);
    ConstantSteady(n, Unit(n, r), Sim.HKernel(sim.rt2));
    WhereSetSteady(n, q, r, k);
    Between(n, trig, HTurns(r, trig.pi), CPTurns(q, r, trig.pi), HTurns(r, trig.pi), Unit(n, r), r, h, WhereSet(q, k), h, WhereSet(q, S.NOT));
  }

  lemma CCXAmounts(n: nat, trig: Trig, sim: Sim.Trig, q: nat, r: nat, t: nat)
    requires TrigsAgree(trig, sim) && q < n && r < n && t < n && q != r && q != t && r != t
    ensures TurnsInRange(n, CCXTurns(q, r, t, trig.pi))
    ensures Amounts(n, trig, CCXTurns(q, r, t, trig.pi), Unit(n, t), t, WhereBoth(q, r, S.NOT))
  {
    hide Amounts, Composed, TurnInRange, TrigsAgree, Sim.HKernel, S.NOT, Half, HTurns, CCZTurns, Steady, Sim.Phases;
    var k, h := Sim.Phases(ONE, C(-1.0, 0.0)), Constant(Sim.HKernel(sim.rt2));
    FixedAngles(trig, sim);
    HadamardSandwich(sim.rt2);
    HadamardAmounts(n, trig, sim, t);
    CCZAmounts(n, trig, sim, q, r, t);
    ConstantSteady(n, Unit(n, t), Sim.HKernel(sim.rt2));
    WhereBothSteady(n, q, r, t, k);
    Between(n, trig, HTurns(t, trig.pi), CCZTurns(q, r, t, trig.pi), HTurns(t, trig.pi), Unit(n, t), t, h, WhereBoth(q, r, k), h, WhereBoth(q, r, S.NOT));
  }

  /** A quarter turn about Z and its opposite around an exchange give Y, and around nothing nothing. */
  lemma QuarterSandwich(r: real)
    requires Times(r, r) == 0.5
    ensures var h, b := C(r, r), C(r, -r);
      Composed(Sim.Phases(b, h), Composed(S.NOT, Sim.Phases(h, b))) == Sim.YKERNEL &&
      Composed(Sim.Phases(b, h), Composed(SAME, Sim.Phases(h, b))) == SAME
  {
    var h, b := C(r, r), C(r, -r);
    assert r * r == 0.5 && r * -r == -0.5 && -r * r == -0.5 && -r * -r == 0.5;
    assert Mul(b, b) == C(0.0, -1.0) && Mul(h, h) == C(0.0, 1.0) && Mul(b, h) == ONE && Mul(h, b) == ONE;
    hide Mul, Composed;
    ComposedDiagonal(h, b, S.NOT);
    ComposedDiagonal(h, b, SAME);
    ComposedDiagonal(b, h, Composed(S.NOT, Sim.Phases(h, b)));
    ComposedDiagonal(b, h, Composed(SAME, Sim.Phases(h, b)));
    Trivial(h);
    Trivial(b);
  }

  lemma Trivial(a: Complex)
    ensures Mul(ONE, a) == a && Mul(a, ONE) == a && Mul(ZERO, a) == ZERO && Mul(a, ZERO) == ZERO
  {
  }

  lemma CYAmounts(n: nat, trig: Trig, sim: Sim.Trig, q: nat, r: nat)
    requires TrigsAgree(trig, sim) && q < n && r < n && q != r
    ensures var turns := [One(r, Z, -(trig.pi / 2.0))] + CXTurns(q, r, trig.pi) + [One(r, Z, trig.pi / 2.0)];
      TurnsInRange(n, turns) && Amounts(n, trig, turns, Unit(n, r), r, WhereSet(q, Sim.YKERNEL))
  {
    hide Amounts, Composed, TurnInRange, TrigsAgree, S.NOT, Sim.YKERNEL, Half, CXTurns, Steady, Sim.Phases, AxisKernel, Back, Mul, NormSq;
    var h, x := trig.pi / 2.0, sim.rt2;
    FixedAngles(trig, sim);
    QuarterSandwich(x);
    QuarterAxis(trig, sim);
    AxisAmounts(n, trig, r, Z, -h);
    AxisAmounts(n, trig, r, Z, h);
    CXAmounts(n, trig, sim, q, r);
    ConstantSteady(n, Unit(n, r), AxisKernel(trig, Z, -h));
    WhereSetSteady(n, q, r, S.NOT);
    Between(n, trig, [One(r, Z, -h)], CXTurns(q, r, trig.pi), [One(r, Z, h)], Unit(n, r), r,
            Constant(AxisKernel(trig, Z, -h)), WhereSet(q, S.NOT), Constant(AxisKernel(trig, Z, h)), WhereSet(q, Sim.YKERNEL));
  }

  lemma QuarterAxis(trig: Trig, sim: Sim.Trig)
    requires TrigsAgree(trig, sim)
    ensures var h, x := trig.pi / 2.0, sim.rt2;
      AxisKernel(trig, Z, h) == Sim.Phases(C(x, -x), C(x, x)) && AxisKernel(trig, Z, -h) == Sim.Phases(C(x, x), C(x, -x))
  {
    hide TrigsAgree;
    var h := trig.pi / 2.0;
    FixedAngles(trig, sim);
    HalfIsCis(trig, sim, h);
    HalfIsCis(trig, sim, -h);
    assert -(-h) == h;
  }

  // ---- the exchange of two qubits

  lemma PairAmounts(n: nat, trig: Trig, a: nat, p: Pauli, b: nat, q: Pauli, t: real)
    requires a < n && b < n && a != b && FlipsBit(p) && FlipsBit(q)
    ensures TurnsInRange(n, [Two(a, p, b, q, t)]) && Steady(n, UnitPair(n, a, b), PairFamily(trig, a, p, b, q, t))
    ensures Amounts(n, trig, [Two(a, p, b, q, t)], UnitPair(n, a, b), b, PairFamily(trig, a, p, b, q, t))
  {
    hide PauliTurned, AllTurned, Mixed, PairFamily, Alike, SameVector, Steady, TurnInRange;
    var turn := Two(a, p, b, q, t);
    TwoFlipTurn(n, trig, a, p, b, q, t, _ => ZERO);
    OneTurned(n, trig, turn, _ => ZERO);
    forall psi: Vector ensures AmountsAt(n, trig, [turn], UnitPair(n, a, b), b, PairFamily(trig, a, p, b, q, t), psi) {
      TwoFlipTurn(n, trig, a, p, b, q, t, psi);
      OneTurned(n, trig, turn, psi);
      SameIsAlike(n, PauliTurned(n, trig, turn, psi), Mixed(n, UnitPair(n, a, b), b, PairFamily(trig, a, p, b, q, t), psi));
    }
  }

  lemma FlippedPair(o: Bits, a: nat, b: nat)
    requires a < |o| && b < |o| && a != b
    ensures var x := Xor(o, UnitPair(|o|, a, b)); |x| == |o| && x[a] == !o[a] && x[b] == !o[b] && (x[a] != x[b]) == (o[a] != o[b])
  {
  }

  /** The XX and the YY part: together nothing where the bits agree, an exchange with a phase where they differ. */
  lemma ExchangeKernels(r: real)
    requires Times(r, r) == 0.5
    ensures var x := FlipKernel(r, -r, 0, 0);
      Composed(Sim.Phases(C(r, r), C(r, r)), Composed(FlipKernel(r, -r, 2, 6), x)) == Rephased(C(r, r), SAME) &&
      Composed(Sim.Phases(C(r, -r), C(r, -r)), Composed(FlipKernel(r, -r, 4, 4), x)) == Rephased(C(r, r), S.NOT)
  {
    hide Composed, Rephased, Mul, Times;
    FlipAsTurn(r);
    HalfProducts(r);
    TurnComposed(r, -r, r, r);
    TurnComposed(r, r, r, r);
    ComposedDiagonal(C(r, r), C(r, r), SAME);
    ComposedDiagonal(C(r, -r), C(r, -r), TurnKernel(0.0, 1.0));
    ExchangePhases(r);
  }

  lemma FlipAsTurn(r: real)
    ensures FlipKernel(r, -r, 0, 0) == TurnKernel(r, r) && FlipKernel(r, -r, 2, 6) == TurnKernel(r, -r) && FlipKernel(r, -r, 4, 4) == TurnKernel(r, r)
  {
  }

  lemma ExchangePhases(r: real)
    ensures S.Kernel(Mul(C(r, r), ONE), Mul(C(r, r), ZERO), Mul(C(r, r), ZERO), Mul(C(r, r), ONE)) == Rephased(C(r, r), SAME)
    ensures var k := TurnKernel(0.0, 1.0);
      S.Kernel(Mul(C(r, -r), k.m00), Mul(C(r, -r), k.m01), Mul(C(r, -r), k.m10), Mul(C(r, -r), k.m11)) == Rephased(C(r, r), S.NOT)
  {
  }

  ghost function WhereOdd(a: nat, b: nat, k: S.Kernel): Family { o => if a < |o| && b < |o| && o[a] != o[b] then k else SAME }

  lemma SwapAmounts(n: nat, trig: Trig, sim: Sim.Trig, q: nat, r: nat)
    requires TrigsAgree(trig, sim) && q < n && r < n && q != r
    ensures var h := trig.pi / 2.0;
      var turns := [Two(q, X, r, X, -h), Two(q, Y, r, Y, -h), Two(q, Z, r, Z, -h)];
      TurnsInRange(n, turns) && Amounts(n, trig, turns, UnitPair(n, q, r), r, WhereOdd(q, r, S.NOT))
  {
    hide Amounts, Composed, TurnInRange, TrigsAgree, S.NOT, Half, Steady, Sim.Phases, Rephased, PairFamily, ShadeFamily, Shades, FlipKernel, NormSq, Mul;
    var h, m := trig.pi / 2.0, UnitPair(n, q, r);
    var f, g, ang := PairFamily(trig, q, X, r, X, -h), PairFamily(trig, q, Y, r, Y, -h), AngleOfTwo(q, r, -h);
    FixedAngles(trig, sim);
    PairAmounts(n, trig, q, X, r, X, -h);
    PairAmounts(n, trig, q, Y, r, Y, -h);
    ShadesTwo(n, trig, sim, q, r, -h);
    ShadesAmount(n, trig, [Two(q, Z, r, Z, -h)], m, r, ang);
    var p, goal := C(sim.rt2, sim.rt2), WhereOdd(q, r, S.NOT);
    forall o | |o| == n ensures Composed(ShadeFamily(trig, m, r, ang)(o), Composed(g(o), f(o))) == RephasedFamily(p, goal)(o) {
      SwapKernelAt(n, trig, sim, q, r, o);
    }
    Between(n, trig, [Two(q, X, r, X, -h)], [Two(q, Y, r, Y, -h)], [Two(q, Z, r, Z, -h)], m, r,
            f, g, ShadeFamily(trig, m, r, ang), RephasedFamily(p, goal));
    assert [Two(q, X, r, X, -h)] + [Two(q, Y, r, Y, -h)] + [Two(q, Z, r, Z, -h)] ==
      [Two(q, X, r, X, -h), Two(q, Y, r, Y, -h), Two(q, Z, r, Z, -h)];
    UnitRoot(sim.rt2);
    AmountsRephased(n, trig, [Two(q, X, r, X, -h), Two(q, Y, r, Y, -h), Two(q, Z, r, Z, -h)], m, r, p, RephasedFamily(p, goal), goal);
  }

  lemma UnitRoot(r: real)
    requires Times(r, r) == 0.5
    ensures NormSq(C(r, r)) == 1.0
  {
  }

  ghost function RephasedFamily(p: Complex, f: Family): Family { o => Rephased(p, f(o)) }

  lemma SwapKernelAt(n: nat, trig: Trig, sim: Sim.Trig, q: nat, r: nat, o: Bits)
    requires TrigsAgree(trig, sim) && q < n && r < n && q != r && |o| == n
    ensures var h, m := trig.pi / 2.0, UnitPair(n, q, r);
      Composed(ShadeFamily(trig, m, r, AngleOfTwo(q, r, -h))(o),
               Composed(PairFamily(trig, q, Y, r, Y, -h)(o), PairFamily(trig, q, X, r, X, -h)(o))) ==
      Rephased(C(sim.rt2, sim.rt2), WhereOdd(q, r, S.NOT)(o))
  {
    hide Composed, TrigsAgree, S.NOT, Half, Sim.Phases, Rephased, ShadeFamily, FlipKernel, Mul;
    var h, m, x := trig.pi / 2.0, UnitPair(n, q, r), sim.rt2;
    FixedAngles(trig, sim);
    ExchangeKernels(x);
    FlippedPair(o, q, r);
    var odd := o[q] != o[r];
    ShadeAt(trig, m, r, AngleOfTwo(q, r, -h), o, Signed(odd, -h), Signed(odd, -h));
    assert -(-h) == h;
    RootOfHalf(trig, sim);
    assert PairFamily(trig, q, X, r, X, -h)(o) == FlipKernel(x, -x, 0, 0);
    assert PairFamily(trig, q, Y, r, Y, -h)(o) == if odd then FlipKernel(x, -x, 4, 4) else FlipKernel(x, -x, 2, 6);
  }

  lemma RootOfHalf(trig: Trig, sim: Sim.Trig)
    requires TrigsAgree(trig, sim)
    ensures trig.cosHalf(-(trig.pi / 2.0)) == sim.rt2 && trig.sinHalf(-(trig.pi / 2.0)) == -sim.rt2
  {
    FixedAngles(trig, sim);
    assert trig.Circle(trig.pi / 2.0);
  }

  // ---- the Givens rotation

  ghost function GivensBack(c: real, s: real): S.Kernel { S.Kernel(C(c, 0.0), C(s, 0.0), C(-s, 0.0), C(c, 0.0)) }

  lemma GivensCancel(c: real, s: real)
    requires Times(c, c) + Times(s, s) == 1.0
    ensures Composed(RealKernel(c, s, -s, c), RealKernel(c, -s, s, c)) == SAME
  {
    hide Composed, Times;
    RealComposed(c, s, -s, c, c, -s, s, c);
    GivensProducts(c, s);
  }

  lemma GivensDouble(c: real, s: real)
    ensures Composed(RealKernel(c, s, -s, c), RealKernel(c, s, -s, c)) == GivensBack(Times(c, c) - Times(s, s), 2.0 * Times(s, c))
  {
    hide Composed, Times;
    RealComposed(c, s, -s, c, c, s, -s, c);
    GivensProducts(c, s);
  }

  /** The two parts cancel where the bits agree and double the angle where they differ. */
  lemma GivensKernels(c: real, s: real)
    requires Times(c, c) + Times(s, s) == 1.0
    ensures Composed(FlipKernel(c, -s, 1, 3), FlipKernel(c, s, 1, 3)) == SAME
    ensures Composed(FlipKernel(c, -s, 1, 3), FlipKernel(c, s, 3, 1)) == GivensBack(Times(c, c) - Times(s, s), 2.0 * Times(s, c))
  {
    hide Composed, Times, FlipKernel, RealKernel, GivensBack, SAME;
    FlipAsGivens(c, s);
    GivensCancel(c, s);
    GivensDouble(c, s);
  }

  lemma FlipAsGivens(c: real, s: real)
    ensures FlipKernel(c, s, 1, 3) == RealKernel(c, -s, s, c)
    ensures FlipKernel(c, -s, 1, 3) == RealKernel(c, s, -s, c) == FlipKernel(c, s, 3, 1)
  {
  }

  lemma GivensProducts(c: real, s: real)
    ensures Times(c, -s) + Times(s, c) == 0.0 && Times(-s, c) + Times(c, s) == 0.0 && Times(-s, -s) == Times(s, s)
    ensures Times(s, -s) == -Times(s, s) && Times(-s, s) == -Times(s, s) && Times(c, s) == Times(s, c)
    ensures Times(-s, c) == -Times(s, c) && Times(c, -s) == -Times(s, c)
  {
  }

  lemma DoubleAngles(trig: Trig, sim: Sim.Trig, theta: real)
    requires TrigsAgree(trig, sim)
    ensures var c, s := trig.cosHalf(theta), trig.sinHalf(theta);
      Times(c, c) + Times(s, s) == 1.0 && sim.cos(theta) == Times(c, c) - Times(s, s) && sim.sin(theta) == 2.0 * Times(s, c)
  {
    SameAngle(trig, sim, theta);
    assert trig.Circle(theta);
    assert sim.Sums(theta / 2.0, theta / 2.0);
    assert theta / 2.0 + theta / 2.0 == theta;
  }

  lemma RbsAmounts(n: nat, trig: Trig, sim: Sim.Trig, q: nat, r: nat, theta: real)
    requires TrigsAgree(trig, sim) && q < n && r < n && q != r
    ensures var turns := [Two(q, Y, r, X, theta), Two(q, X, r, Y, -theta)];
      TurnsInRange(n, turns) &&
      Amounts(n, trig, turns, UnitPair(n, q, r), r, WhereOdd(q, r, GivensBack(sim.cos(theta), sim.sin(theta))))
  {
    hide Amounts, Composed, TurnInRange, TrigsAgree, Steady, PairFamily, FlipKernel, GivensBack;
    var m := UnitPair(n, q, r);
    var f, g := PairFamily(trig, q, Y, r, X, theta), PairFamily(trig, q, X, r, Y, -theta);
    PairAmounts(n, trig, q, Y, r, X, theta);
    PairAmounts(n, trig, q, X, r, Y, -theta);
    AmountsTwice(n, trig, [Two(q, Y, r, X, theta)], [Two(q, X, r, Y, -theta)], m, r, f, g);
    assert [Two(q, Y, r, X, theta)] + [Two(q, X, r, Y, -theta)] == [Two(q, Y, r, X, theta), Two(q, X, r, Y, -theta)];
    var goal := WhereOdd(q, r, GivensBack(sim.cos(theta), sim.sin(theta)));
    forall o | |o| == n ensures ComposedFamily(g, f)(o) == goal(o) {
      RbsKernelAt(n, trig, sim, q, r, theta, o);
    }
    AmountsSame(n, trig, [Two(q, Y, r, X, theta), Two(q, X, r, Y, -theta)], m, r, ComposedFamily(g, f), goal);
  }

  lemma RbsKernelAt(n: nat, trig: Trig, sim: Sim.Trig, q: nat, r: nat, theta: real, o: Bits)
    requires TrigsAgree(trig, sim) && q < n && r < n && q != r && |o| == n
    ensures Composed(PairFamily(trig, q, X, r, Y, -theta)(o), PairFamily(trig, q, Y, r, X, theta)(o)) ==
      WhereOdd(q, r, GivensBack(sim.cos(theta), sim.sin(theta)))(o)
  {
    hide Composed, TrigsAgree, FlipKernel, GivensBack, Times;
    var c, s, odd := trig.cosHalf(theta), trig.sinHalf(theta), o[q] != o[r];
    DoubleAngles(trig, sim, theta);
    GivensKernels(c, s);
    Mirrored(trig, sim, theta);
    assert PairFamily(trig, q, X, r, Y, -theta)(o) == FlipKernel(c, -s, 1, 3);
    assert PairFamily(trig, q, Y, r, X, theta)(o) == if odd then FlipKernel(c, s, 3, 1) else FlipKernel(c, s, 1, 3);
  }

  lemma Mirrored(trig: Trig, sim: Sim.Trig, t: real)
    requires TrigsAgree(trig, sim)
    ensures trig.cosHalf(-t) == trig.cosHalf(t) && trig.sinHalf(-t) == -trig.sinHalf(t)
  {
    assert trig.Circle(t);
  }
}
