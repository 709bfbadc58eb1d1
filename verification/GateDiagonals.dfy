/** The entries of the gate table that are built from rotations about Z: phases that depend on the bits. */
module GateDiagonals {
  import opened Linear
  import opened Wrappers
  import opened Bits
  import opened ComplexNumbers
  import opened Majorana
  import opened MajoranaFock
  import opened MajoranaPauli
  import opened PauliTerms
  import opened MajoranaDoor
  import opened MajoranaGates
  import opened PairMaps
  import opened TurnMaps
  import opened GateMeaning
  import opened GateTable
  import S = Statevector
  import Sim = Simulator

  // ---- lists of rotations about Z

  /** For each basis state the half-angle phase it picks up. */
  type Angles = Bits -> real

  ghost predicate ShadesAt(n: nat, trig: Trig, turns: seq<PauliTurn>, ang: Angles, psi: Vector, o: Bits)
    requires TurnsInRange(n, turns)
  {
    AllTurned(n, trig, turns, |turns|, psi)(o) == Mul(Half(trig, ang(o)), psi(o))
  }

  /** The rotations multiply every amplitude by its own phase. */
  ghost predicate Shades(n: nat, trig: Trig, turns: seq<PauliTurn>, ang: Angles)
    requires TurnsInRange(n, turns)
  {
    forall psi: Vector, o | |o| == n :: ShadesAt(n, trig, turns, ang, psi, o)
  }

  function Signed(odd: bool, t: real): real { if odd then t else -t }

  ghost function AngleOfOne(a: nat, t: real): Angles { o => if a < |o| then Signed(o[a], t) else 0.0 }

  ghost function AngleOfTwo(a: nat, b: nat, t: real): Angles { o => if a < |o| && b < |o| then Signed(o[a] != o[b], t) else 0.0 }

  ghost function AngleOfThree(a: nat, b: nat, c: nat, t: real): Angles {
    o => if a < |o| && b < |o| && c < |o| then Signed((o[a] != o[b]) != o[c], t) else 0.0
  }

  ghost function AngleSum(f: Angles, g: Angles): Angles { o => f(o) + g(o) }

  lemma ShadesOne(n: nat, trig: Trig, sim: Sim.Trig, a: nat, t: real)
    requires TrigsAgree(trig, sim) && a < n
    ensures TurnsInRange(n, [One(a, Z, t)]) && Shades(n, trig, [One(a, Z, t)], AngleOfOne(a, t))
  {
    hide PauliTurned, AllTurned, Mul, ZFactor, Half, TrigsAgree;
    ZTurn(n, trig, a, t, _ => ZERO);
    OneTurned(n, trig, One(a, Z, t), _ => ZERO);
    forall psi: Vector, o | |o| == n ensures ShadesAt(n, trig, [One(a, Z, t)], AngleOfOne(a, t), psi, o) {
      OneTurned(n, trig, One(a, Z, t), psi);
      ZTurn(n, trig, a, t, psi);
      FactorIsHalf(trig, sim, t, o[a]);
    }
  }

  lemma ShadesTwo(n: nat, trig: Trig, sim: Sim.Trig, a: nat, b: nat, t: real)
    requires TrigsAgree(trig, sim) && a < n && b < n && a != b
    ensures TurnsInRange(n, [Two(a, Z, b, Z, t)]) && Shades(n, trig, [Two(a, Z, b, Z, t)], AngleOfTwo(a, b, t))
  {
    hide PauliTurned, AllTurned, Mul, ZFactor, Half, TrigsAgree;
    ZZTurn(n, trig, a, b, t, _ => ZERO);
    OneTurned(n, trig, Two(a, Z, b, Z, t), _ => ZERO);
    forall psi: Vector, o | |o| == n ensures ShadesAt(n, trig, [Two(a, Z, b, Z, t)], AngleOfTwo(a, b, t), psi, o) {
      OneTurned(n, trig, Two(a, Z, b, Z, t), psi);
      ZZTurn(n, trig, a, b, t, psi);
      FactorIsHalf(trig, sim, t, o[a] != o[b]);
    }
  }

  lemma ShadesThree(n: nat, trig: Trig, sim: Sim.Trig, a: nat, b: nat, c: nat, t: real)
    requires TrigsAgree(trig, sim) && a < n && b < n && c < n && a != b && a != c && b != c
    ensures var turn: PauliTurn := ([(a, Z), (b, Z), (c, Z)], t);
      TurnsInRange(n, [turn]) && Shades(n, trig, [turn], AngleOfThree(a, b, c, t))
  {
    hide PauliTurned, AllTurned, Mul, ZFactor, Half, TrigsAgree;
    var turn: PauliTurn := ([(a, Z), (b, Z), (c, Z)], t);
    ZZZTurn(n, trig, a, b, c, t, _ => ZERO);
    OneTurned(n, trig, turn, _ => ZERO);
    forall psi: Vector, o | |o| == n ensures ShadesAt(n, trig, [turn], AngleOfThree(a, b, c, t), psi, o) {
      OneTurned(n, trig, turn, psi);
      ZZZTurn(n, trig, a, b, c, t, psi);
      FactorIsHalf(trig, sim, t, (o[a] != o[b]) != o[c]);
    }
  }

  /** One list after the other adds the angles. */
  lemma ShadesAppend(n: nat, trig: Trig, sim: Sim.Trig, a: seq<PauliTurn>, b: seq<PauliTurn>, f: Angles, g: Angles)
    requires TrigsAgree(trig, sim) && TurnsInRange(n, a) && TurnsInRange(n, b)
    requires Shades(n, trig, a, f) && Shades(n, trig, b, g)
    ensures TurnsInRange(n, a + b) && Shades(n, trig, a + b, AngleSum(f, g))
  {
    hide PauliTurned, AllTurned, Mul, Half, TrigsAgree, TurnInRange;
    RangesAppend(n, a, b);
    forall psi: Vector, o | |o| == n ensures ShadesAt(n, trig, a + b, AngleSum(f, g), psi, o) {
      var u := AllTurned(n, trig, a, |a|, psi);
      TurnedAppend(n, trig, a, b, |b|, psi);
      assert ShadesAt(n, trig, a, f, psi, o) && ShadesAt(n, trig, b, g, u, o);
      MulAssociative(Half(trig, g(o)), Half(trig, f(o)), psi(o));
      HalfSum(trig, sim, g(o), f(o));
    }
  }

  /** The phases as matrices on the pairs of any mask. */
  ghost function ShadeFamily(trig: Trig, mask: Bits, q: nat, ang: Angles): Family {
    o => if |o| != |mask| || q >= |o| then SAME else
      var p := Xor(o, mask);
      if !o[q] then Sim.Phases(Half(trig, ang(o)), Half(trig, ang(p))) else Sim.Phases(Half(trig, ang(p)), Half(trig, ang(o)))
  }

  lemma ShadeRow(n: nat, trig: Trig, mask: Bits, q: nat, ang: Angles, psi: Vector, o: Bits)
    requires |mask| == |o| == n && q < n
    ensures Mixed(n, mask, q, ShadeFamily(trig, mask, q, ang), psi)(o) == Mul(Half(trig, ang(o)), psi(o))
  {
    hide Mul, Half, Add;
    var p := Xor(o, mask);
    DiagonalRow(Half(trig, ang(o)), psi(o), psi(p));
    var k := ShadeFamily(trig, mask, q, ang)(o);
    if o[q] {
      assert k.Lower(psi(p), psi(o)) == Add(Mul(ZERO, psi(p)), Mul(Half(trig, ang(o)), psi(o)));
    } else {
      assert k.Upper(psi(o), psi(p)) == Add(Mul(Half(trig, ang(o)), psi(o)), Mul(ZERO, psi(p)));
    }
  }

  lemma ShadesAmount(n: nat, trig: Trig, turns: seq<PauliTurn>, mask: Bits, q: nat, ang: Angles)
    requires TurnsInRange(n, turns) && |mask| == n && q < n && mask[q] && Shades(n, trig, turns, ang)
    ensures Steady(n, mask, ShadeFamily(trig, mask, q, ang)) && Amounts(n, trig, turns, mask, q, ShadeFamily(trig, mask, q, ang))
  {
    hide PauliTurned, AllTurned, Mul, Half, TurnInRange, Alike;
    var fam := ShadeFamily(trig, mask, q, ang);
    forall o | |o| == n ensures fam(Xor(o, mask)) == fam(o) {
      XorTwice(o, mask);
    }
    forall psi: Vector ensures AmountsAt(n, trig, turns, mask, q, fam, psi) {
      forall o | |o| == n ensures AllTurned(n, trig, turns, |turns|, psi)(o) == Mixed(n, mask, q, fam, psi)(o) {
        assert ShadesAt(n, trig, turns, ang, psi, o);
        ShadeRow(n, trig, mask, q, ang, psi, o);
      }
      SameIsAlike(n, AllTurned(n, trig, turns, |turns|, psi), Mixed(n, mask, q, fam, psi));
    }
  }

  // ---- gates that mix only where other bits are set

  ghost function WhereSet(c: nat, k: S.Kernel): Family { o => if c < |o| && o[c] then k else SAME }

  ghost function WhereBoth(c: nat, d: nat, k: S.Kernel): Family { o => if c < |o| && d < |o| && o[c] && o[d] then k else SAME }

  lemma RephasedSame(p: Complex)
    ensures Rephased(p, SAME) == Sim.Phases(p, p)
  {
    hide Mul;
    MulOne(p);
    MulCommutes(ONE, p);
    TimesNothing(p);
  }

  lemma RephasedPhases(p: Complex, d: Complex)
    ensures Rephased(p, Sim.Phases(ONE, d)) == Sim.Phases(p, Mul(p, d))
  {
    hide Mul;
    MulOne(p);
    MulCommutes(ONE, p);
    TimesNothing(p);
  }

  /** Flipping one bit leaves the others. */
  lemma FlippedBits(o: Bits, r: nat)
    requires r < |o|
    ensures var x := Xor(o, Unit(|o|, r)); |x| == |o| && x[r] == !o[r] && forall j | 0 <= j < |o| && j != r :: x[j] == o[j]
  {
  }

  /** The matrix of a pair from the angles of its two members. */
  lemma ShadeAt(trig: Trig, mask: Bits, q: nat, ang: Angles, o: Bits, first: real, second: real)
    requires |o| == |mask| && q < |o|
    requires ang(o) == (if o[q] then second else first) && ang(Xor(o, mask)) == if o[q] then first else second
    ensures ShadeFamily(trig, mask, q, ang)(o) == Sim.Phases(Half(trig, first), Half(trig, second))
  {
    hide Half;
  }

  ghost function CPAngles(q: nat, r: nat, lam: real): Angles {
    AngleSum(AngleSum(AngleOfOne(q, lam / 2.0), AngleOfOne(r, lam / 2.0)), AngleOfTwo(q, r, -(lam / 2.0)))
  }

  lemma CPShades(n: nat, trig: Trig, sim: Sim.Trig, q: nat, r: nat, lam: real)
    requires TrigsAgree(trig, sim) && q < n && r < n && q != r
    ensures TurnsInRange(n, CPTurns(q, r, lam)) && Shades(n, trig, CPTurns(q, r, lam), CPAngles(q, r, lam))
  {
    hide Shades, TrigsAgree, TurnInRange;
    var h := lam / 2.0;
    var a, b, c := [One(q, Z, h)], [One(r, Z, h)], [Two(q, Z, r, Z, -h)];
    ShadesOne(n, trig, sim, q, h);
    ShadesOne(n, trig, sim, r, h);
    ShadesTwo(n, trig, sim, q, r, -h);
    ShadesAppend(n, trig, sim, a, b, AngleOfOne(q, h), AngleOfOne(r, h));
    ShadesAppend(n, trig, sim, a + b, c, AngleSum(AngleOfOne(q, h), AngleOfOne(r, h)), AngleOfTwo(q, r, -h));
    assert a + b + c == CPTurns(q, r, lam);
  }

  lemma CPAngleAt(q: nat, r: nat, lam: real, o: Bits)
    requires q < |o| && r < |o|
    ensures CPAngles(q, r, lam)(o) == if o[q] && o[r] then -(lam / 2.0) + 2.0 * lam else -(lam / 2.0)
  {
  }

  /** A controlled phase: three rotations about Z, up to a global phase. */
  lemma CPAmounts(n: nat, trig: Trig, sim: Sim.Trig, q: nat, r: nat, lam: real)
    requires TrigsAgree(trig, sim) && q < n && r < n && q != r
    ensures TurnsInRange(n, CPTurns(q, r, lam))
    ensures Amounts(n, trig, CPTurns(q, r, lam), Unit(n, r), r, WhereSet(q, Sim.Phases(ONE, Half(trig, 2.0 * lam))))
  {
    hide Shades, TrigsAgree, TurnInRange, Half, Mul, CPAngles, Amounts, Rephased, ShadeFamily, Steady, Unit, CPTurns, NormSq;
    CPShades(n, trig, sim, q, r, lam);
    var m, ang, p := Unit(n, r), CPAngles(q, r, lam), Half(trig, -(lam / 2.0));
    ShadesAmount(n, trig, CPTurns(q, r, lam), m, r, ang);
    HalfIsCis(trig, sim, -(lam / 2.0));
    HalfSum(trig, sim, -(lam / 2.0), 2.0 * lam);
    RephasedSame(p);
    RephasedPhases(p, Half(trig, 2.0 * lam));
    var goal := WhereSet(q, Sim.Phases(ONE, Half(trig, 2.0 * lam)));
    forall o | |o| == n ensures ShadeFamily(trig, m, r, ang)(o) == Rephased(p, goal(o)) {
      FlippedBits(o, r);
      CPAngleAt(q, r, lam, o);
      CPAngleAt(q, r, lam, Xor(o, m));
      ShadeAt(trig, m, r, ang, o, -(lam / 2.0), if o[q] then -(lam / 2.0) + 2.0 * lam else -(lam / 2.0));
    }
    AmountsRephased(n, trig, CPTurns(q, r, lam), m, r, p, ShadeFamily(trig, m, r, ang), goal);
  }

  /** A controlled rotation about Z: exactly two rotations. */
  lemma CRzAmounts(n: nat, trig: Trig, sim: Sim.Trig, q: nat, r: nat, theta: real)
    requires TrigsAgree(trig, sim) && q < n && r < n && q != r
    ensures var turns := [One(r, Z, theta / 2.0), Two(q, Z, r, Z, -(theta / 2.0))];
      TurnsInRange(n, turns) && Amounts(n, trig, turns, Unit(n, r), r, WhereSet(q, Sim.RzKernel(sim, theta)))
  {
    hide Shades, TrigsAgree, TurnInRange, Half, Back, Mul, Amounts, ShadeFamily, Steady, Unit, AngleSum, AngleOfOne, AngleOfTwo, Sim.RzKernel, NormSq, Rephased;
    var h, m := theta / 2.0, Unit(n, r);
    var a, b := [One(r, Z, h)], [Two(q, Z, r, Z, -h)];
    ShadesOne(n, trig, sim, r, h);
    ShadesTwo(n, trig, sim, q, r, -h);
    ShadesAppend(n, trig, sim, a, b, AngleOfOne(r, h), AngleOfTwo(q, r, -h));
    assert a + b == [One(r, Z, h), Two(q, Z, r, Z, -h)];
    var ang := AngleSum(AngleOfOne(r, h), AngleOfTwo(q, r, -h));
    ShadesAmount(n, trig, a + b, m, r, ang);
    PhaseKernel(trig, sim, theta);
    ZeroAngle(trig, sim);
    HalfIsCis(trig, sim, theta);
    forall o | |o| == n ensures ShadeFamily(trig, m, r, ang)(o) == WhereSet(q, Sim.RzKernel(sim, theta))(o) {
      FlippedBits(o, r);
      CRzAngleAt(q, r, theta, o);
      CRzAngleAt(q, r, theta, Xor(o, m));
      ShadeAt(trig, m, r, ang, o, if o[q] then -theta else 0.0, if o[q] then theta else 0.0);
    }
    AmountsSame(n, trig, a + b, m, r, ShadeFamily(trig, m, r, ang), WhereSet(q, Sim.RzKernel(sim, theta)));
  }

  lemma CRzAngleAt(q: nat, r: nat, theta: real, o: Bits)
    requires q < |o| && r < |o|
    ensures AngleSum(AngleOfOne(r, theta / 2.0), AngleOfTwo(q, r, -(theta / 2.0)))(o) == if o[q] then Signed(o[r], theta) else 0.0
  {
  }

  lemma ZeroAngle(trig: Trig, sim: Sim.Trig)
    requires TrigsAgree(trig, sim)
    ensures Half(trig, 0.0) == ONE
  {
  }

  ghost function CCZAngles(q: nat, r: nat, t: nat, a: real): Angles {
    AngleSum(AngleSum(AngleSum(AngleSum(AngleSum(AngleSum(
      AngleOfOne(q, a), AngleOfOne(r, a)), AngleOfOne(t, a)),
      AngleOfTwo(q, r, -a)), AngleOfTwo(q, t, -a)), AngleOfTwo(r, t, -a)), AngleOfThree(q, r, t, a))
  }

  lemma CCZShades(n: nat, trig: Trig, sim: Sim.Trig, q: nat, r: nat, t: nat)
    requires TrigsAgree(trig, sim) && q < n && r < n && t < n && q != r && q != t && r != t
    ensures TurnsInRange(n, CCZTurns(q, r, t, trig.pi))
    ensures Shades(n, trig, CCZTurns(q, r, t, trig.pi), CCZAngles(q, r, t, trig.pi / 4.0))
  {
    hide Shades, TrigsAgree, TurnInRange, AngleSum;
    var a := trig.pi / 4.0;
    var last: PauliTurn := ([(q, Z), (r, Z), (t, Z)], a);
    ShadesOne(n, trig, sim, q, a);
    ShadesOne(n, trig, sim, r, a);
    ShadesOne(n, trig, sim, t, a);
    ShadesTwo(n, trig, sim, q, r, -a);
    ShadesTwo(n, trig, sim, q, t, -a);
    ShadesTwo(n, trig, sim, r, t, -a);
    ShadesThree(n, trig, sim, q, r, t, a);
    var l2 := [One(q, Z, a)] + [One(r, Z, a)];
    var f2 := AngleSum(AngleOfOne(q, a), AngleOfOne(r, a));
    ShadesAppend(n, trig, sim, [One(q, Z, a)], [One(r, Z, a)], AngleOfOne(q, a), AngleOfOne(r, a));
    ShadesAppend(n, trig, sim, l2, [One(t, Z, a)], f2, AngleOfOne(t, a));
    var l3, f3 := l2 + [One(t, Z, a)], AngleSum(f2, AngleOfOne(t, a));
    ShadesAppend(n, trig, sim, l3, [Two(q, Z, r, Z, -a)], f3, AngleOfTwo(q, r, -a));
    var l4, f4 := l3 + [Two(q, Z, r, Z, -a)], AngleSum(f3, AngleOfTwo(q, r, -a));
    ShadesAppend(n, trig, sim, l4, [Two(q, Z, t, Z, -a)], f4, AngleOfTwo(q, t, -a));
    var l5, f5 := l4 + [Two(q, Z, t, Z, -a)], AngleSum(f4, AngleOfTwo(q, t, -a));
    ShadesAppend(n, trig, sim, l5, [Two(r, Z, t, Z, -a)], f5, AngleOfTwo(r, t, -a));
    var l6, f6 := l5 + [Two(r, Z, t, Z, -a)], AngleSum(f5, AngleOfTwo(r, t, -a));
    ShadesAppend(n, trig, sim, l6, [last], f6, AngleOfThree(q, r, t, a));
    assert l6 + [last] == CCZTurns(q, r, t, trig.pi);
  }

  lemma CCZAngleAt(q: nat, r: nat, t: nat, a: real, o: Bits)
    requires q < |o| && r < |o| && t < |o|
    ensures CCZAngles(q, r, t, a)(o) == if o[q] && o[r] && o[t] then -a + 8.0 * a else -a
  {
  }

  /** The doubly controlled sign: seven commuting rotations, up to a global phase. */
  lemma CCZAmounts(n: nat, trig: Trig, sim: Sim.Trig, q: nat, r: nat, t: nat)
    requires TrigsAgree(trig, sim) && q < n && r < n && t < n && q != r && q != t && r != t
    ensures TurnsInRange(n, CCZTurns(q, r, t, trig.pi))
    ensures Amounts(n, trig, CCZTurns(q, r, t, trig.pi), Unit(n, t), t, WhereBoth(q, r, Sim.Phases(ONE, C(-1.0, 0.0))))
  {
    hide Shades, TrigsAgree, TurnInRange, Half, Mul, CCZAngles, Amounts, Rephased, CCZTurns, ShadeFamily, Steady, Unit, NormSq;
    CCZShades(n, trig, sim, q, r, t);
    var a := trig.pi / 4.0;
    var m, ang, p := Unit(n, t), CCZAngles(q, r, t, a), Half(trig, -a);
    ShadesAmount(n, trig, CCZTurns(q, r, t, trig.pi), m, t, ang);
    HalfIsCis(trig, sim, -a);
    HalfSum(trig, sim, -a, 8.0 * a);
    FixedAngles(trig, sim);
    assert 8.0 * a == 2.0 * trig.pi;
    RephasedSame(p);
    RephasedPhases(p, C(-1.0, 0.0));
    var goal := WhereBoth(q, r, Sim.Phases(ONE, C(-1.0, 0.0)));
    forall o | |o| == n ensures ShadeFamily(trig, m, t, ang)(o) == Rephased(p, goal(o)) {
      FlippedBits(o, t);
      CCZAngleAt(q, r, t, a, o);
      CCZAngleAt(q, r, t, a, Xor(o, m));
      ShadeAt(trig, m, t, ang, o, -a, if o[q] && o[r] then -a + 8.0 * a else -a);
    }
    AmountsRephased(n, trig, CCZTurns(q, r, t, trig.pi), m, t, p, ShadeFamily(trig, m, t, ang), goal);
  }
}
