/**
  What the gate table of the Majorana engine means: each entry, a list of Pauli
  rotations, turns every state as the matrix that the reference simulator applies for
  the same gate does, up to a global phase.
*/
module GateMeaning {
  import opened Linear
  import opened Wrappers
  import opened Bits
  import opened ComplexNumbers
  import opened Majorana
  import opened MajoranaFock
  import opened MajoranaPauli
  import opened PauliTerms
  import opened MajoranaDoor
  import opened MajoranaGates
  import opened PairMaps
  import opened TurnMaps
  import S = Statevector
  import Sim = Simulator

  // ---- one set of angles for both engines

  ghost predicate HalfAngle(trig: Trig, sim: Sim.Trig, t: real) {
    trig.cosHalf(t) == sim.cos(t / 2.0) && trig.sinHalf(t) == sim.sin(t / 2.0)
  }

  ghost predicate TrigsAgree(trig: Trig, sim: Sim.Trig) {
    && trig.Valid() && sim.Valid() && (forall t :: HalfAngle(trig, sim, t))
    && sim.halfPi == trig.pi / 2.0 && sim.quarterPi == trig.pi / 4.0
    && trig.sinHalf(trig.pi) == 1.0 && sim.rt2 == trig.cosHalf(trig.pi / 2.0)
  }

  lemma HalfIsCis(trig: Trig, sim: Sim.Trig, t: real)
    requires TrigsAgree(trig, sim)
    ensures Half(trig, t) == sim.Cis(t / 2.0) && Back(trig, t) == Half(trig, -t) && NormSq(Half(trig, t)) == 1.0
  {
    assert HalfAngle(trig, sim, t);
    assert trig.Circle(t);
  }

  lemma HalfSum(trig: Trig, sim: Sim.Trig, s: real, t: real)
    requires TrigsAgree(trig, sim)
    ensures Mul(Half(trig, s), Half(trig, t)) == Half(trig, s + t)
  {
    hide Half, Back, Mul, Sim.Trig.Cis, TrigsAgree;
    assert sim.Valid() by { Parts(trig, sim); }
    HalfIsCis(trig, sim, s);
    HalfIsCis(trig, sim, t);
    HalfIsCis(trig, sim, s + t);
    Sim.PhasesAddUp(sim, s / 2.0, t / 2.0);
    assert s / 2.0 + t / 2.0 == (s + t) / 2.0;
  }

  lemma Parts(trig: Trig, sim: Sim.Trig)
    requires TrigsAgree(trig, sim)
    ensures trig.Valid() && sim.Valid()
  {
  }

  /** The factor of a rotation by Z on bits of the given parity is a half-angle phase. */
  lemma FactorIsHalf(trig: Trig, sim: Sim.Trig, t: real, odd: bool)
    requires TrigsAgree(trig, sim)
    ensures ZFactor(trig, t, odd) == Half(trig, if odd then t else -t)
  {
    hide TrigsAgree, Half, Back;
    HalfIsCis(trig, sim, t);
  }

  /** The phases the table's fixed angles stand for. */
  lemma FixedAngles(trig: Trig, sim: Sim.Trig)
    requires TrigsAgree(trig, sim)
    ensures Half(trig, 0.0) == ONE && Half(trig, trig.pi) == C(0.0, 1.0) && Half(trig, -trig.pi) == C(0.0, -1.0)
    ensures Half(trig, 2.0 * trig.pi) == C(-1.0, 0.0)
    ensures Half(trig, trig.pi / 2.0) == C(sim.rt2, sim.rt2) && Half(trig, -(trig.pi / 2.0)) == C(sim.rt2, -sim.rt2)
    ensures Times(sim.rt2, sim.rt2) == 0.5
  {
    hide Mul, NormSq, Times;
    QuarterRoot(trig, sim, Half(trig, trig.pi / 2.0));
    Conjugated(trig, trig.pi);
    Conjugated(trig, trig.pi / 2.0);
    FullTurn(trig, sim);
  }

  lemma Conjugated(trig: Trig, t: real)
    requires trig.Valid()
    ensures Half(trig, -t) == Conj(Half(trig, t))
  {
    assert trig.Circle(t);
  }

  lemma FullTurn(trig: Trig, sim: Sim.Trig)
    requires TrigsAgree(trig, sim)
    ensures Half(trig, 2.0 * trig.pi) == C(-1.0, 0.0)
  {
    HalfSum(trig, sim, trig.pi, trig.pi);
    assert trig.pi + trig.pi == 2.0 * trig.pi;
  }

  lemma QuarterRoot(trig: Trig, sim: Sim.Trig, h: Complex)
    requires TrigsAgree(trig, sim) && h == Half(trig, trig.pi / 2.0)
    ensures h == C(sim.rt2, sim.rt2)
  {
    HalfSum(trig, sim, trig.pi / 2.0, trig.pi / 2.0);
    assert Half(trig, trig.pi / 2.0 + trig.pi / 2.0) == Half(trig, trig.pi);
    assert Mul(h, h) == C(0.0, 1.0);
    RootOfI(h, sim.rt2);
  }

  lemma RootOfI(h: Complex, r: real)
    requires Mul(h, h) == C(0.0, 1.0) && h.re == r && Times(r, r) == 0.5
    ensures h == C(r, r)
  {
    assert 2.0 * (r * h.im) == 1.0;
    assert r * (h.im - r) == 0.0;
  }

  // ---- what a list of rotations does

  /** The rotations do to every state what the mixing does, up to a phase. */
  ghost predicate Amounts(n: nat, trig: Trig, turns: seq<PauliTurn>, mask: Bits, q: nat, fam: Family)
    requires TurnsInRange(n, turns) && |mask| == n && q < n
  {
    forall psi: Vector :: AmountsAt(n, trig, turns, mask, q, fam, psi)
  }

  ghost predicate AmountsAt(n: nat, trig: Trig, turns: seq<PauliTurn>, mask: Bits, q: nat, fam: Family, psi: Vector)
    requires TurnsInRange(n, turns) && |mask| == n && q < n
  {
    Alike(n, AllTurned(n, trig, turns, |turns|, psi), Mixed(n, mask, q, fam, psi))
  }

  lemma {:induction false} TurnedAppend(n: nat, trig: Trig, a: seq<PauliTurn>, b: seq<PauliTurn>, k: nat, psi: Vector)
    requires TurnsInRange(n, a) && TurnsInRange(n, b) && k <= |b|
    ensures TurnsInRange(n, a + b)
    ensures AllTurned(n, trig, a + b, |a| + k, psi) == AllTurned(n, trig, b, k, AllTurned(n, trig, a, |a|, psi))
  {
    hide PauliTurned;
    RangesAppend(n, a, b);
    if k == 0 {
      TurnedPrefix(n, trig, a, b, |a|, psi);
    } else {
      TurnedAppend(n, trig, a, b, k - 1, psi);
      assert (a + b)[|a| + k - 1] == b[k - 1];
    }
  }

  lemma RangesAppend(n: nat, a: seq<PauliTurn>, b: seq<PauliTurn>)
    requires TurnsInRange(n, a) && TurnsInRange(n, b)
    ensures TurnsInRange(n, a + b)
  {
    hide TurnInRange;
  }

  lemma {:induction false} TurnedPrefix(n: nat, trig: Trig, a: seq<PauliTurn>, b: seq<PauliTurn>, k: nat, psi: Vector)
    requires TurnsInRange(n, a) && TurnsInRange(n, a + b) && k <= |a|
    ensures AllTurned(n, trig, a + b, k, psi) == AllTurned(n, trig, a, k, psi)
  {
    hide PauliTurned;
    if k > 0 {
      TurnedPrefix(n, trig, a, b, k - 1, psi);
      assert (a + b)[k - 1] == a[k - 1];
    }
  }

  /** A rotation carries a phase along. */
  lemma TurnRespects(n: nat, trig: Trig, turn: PauliTurn, psi: Vector, phi: Vector)
    requires TurnInRange(n, turn) && Alike(n, psi, phi)
    ensures Alike(n, PauliTurned(n, trig, turn, psi), PauliTurned(n, trig, turn, phi))
  {
    hide Mul, NormSq, Scale, Add, TimesI, PauliPhase;
    var p :| AlikeBy(n, p, psi, phi);
    var x, z := XBits(n, turn.0), ZBits(n, turn.0);
    var c, s := trig.cosHalf(turn.1), trig.sinHalf(turn.1);
    forall o | |o| == n ensures PauliTurned(n, trig, turn, psi)(o) == Multiplied(p, PauliTurned(n, trig, turn, phi))(o) {
      var r := Xor(o, x);
      assert psi(o) == Mul(p, phi(o)) && psi(r) == Mul(p, phi(r));
      TurnOfMultiple(p, c, s, PauliPhase(x, z, r, n), phi(o), phi(r));
    }
    assert AlikeBy(n, p, PauliTurned(n, trig, turn, psi), PauliTurned(n, trig, turn, phi));
  }

  lemma TurnOfMultiple(p: Complex, c: real, s: real, e: nat, a: Complex, b: Complex)
    ensures Add(Scale(c, Mul(p, a)), Scale(-s, TimesI(1, TimesI(e, Mul(p, b))))) ==
      Mul(p, Add(Scale(c, a), Scale(-s, TimesI(1, TimesI(e, b)))))
  {
    hide TimesI, Mul, Add, Scale;
    FlipRow(c, s, e, a, b);
    FlipRow(c, s, e, Mul(p, a), Mul(p, b));
    MoveFactor(p, C(c, 0.0), a);
    MoveFactor(p, Scale(-s, TimesI(1 + e, ONE)), b);
    MulOverAdd(p, Mul(C(c, 0.0), a), Mul(Scale(-s, TimesI(1 + e, ONE)), b));
  }

  lemma {:induction false} TurnsRespect(n: nat, trig: Trig, turns: seq<PauliTurn>, k: nat, psi: Vector, phi: Vector)
    requires TurnsInRange(n, turns) && k <= |turns| && Alike(n, psi, phi)
    ensures Alike(n, AllTurned(n, trig, turns, k, psi), AllTurned(n, trig, turns, k, phi))
  {
    hide PauliTurned, Alike;
    if k > 0 {
      TurnsRespect(n, trig, turns, k - 1, psi, phi);
      TurnRespects(n, trig, turns[k - 1], AllTurned(n, trig, turns, k - 1, psi), AllTurned(n, trig, turns, k - 1, phi));
    }
  }

  /** Two lists one after the other amount to the products of the matrices. */
  lemma AmountsTwice(n: nat, trig: Trig, a: seq<PauliTurn>, b: seq<PauliTurn>, mask: Bits, q: nat, f: Family, g: Family)
    requires TurnsInRange(n, a) && TurnsInRange(n, b) && |mask| == n && q < n && mask[q]
    requires Amounts(n, trig, a, mask, q, f) && Steady(n, mask, f) && Amounts(n, trig, b, mask, q, g)
    ensures TurnsInRange(n, a + b) && Amounts(n, trig, a + b, mask, q, ComposedFamily(g, f))
  {
    hide Alike, AllTurned, Mixed, Steady, ComposedFamily;
    RangesAppend(n, a, b);
    forall psi: Vector ensures AmountsAt(n, trig, a + b, mask, q, ComposedFamily(g, f), psi) {
      var u, v := AllTurned(n, trig, a, |a|, psi), Mixed(n, mask, q, f, psi);
      TurnedAppend(n, trig, a, b, |b|, psi);
      assert AmountsAt(n, trig, a, mask, q, f, psi) && AmountsAt(n, trig, b, mask, q, g, v);
      TurnsRespect(n, trig, b, |b|, u, v);
      MixedTwice(n, mask, q, g, f, psi);
      SameIsAlike(n, Mixed(n, mask, q, g, v), Mixed(n, mask, q, ComposedFamily(g, f), psi));
      AlikeChain(n, AllTurned(n, trig, b, |b|, u), AllTurned(n, trig, b, |b|, v), Mixed(n, mask, q, g, v));
      AlikeChain(n, AllTurned(n, trig, b, |b|, u), Mixed(n, mask, q, g, v), Mixed(n, mask, q, ComposedFamily(g, f), psi));
    }
  }

  /** The matrices may be changed by one phase. */
  lemma AmountsRephased(n: nat, trig: Trig, a: seq<PauliTurn>, mask: Bits, q: nat, p: Complex, f: Family, g: Family)
    requires TurnsInRange(n, a) && |mask| == n && q < n && NormSq(p) == 1.0
    requires Amounts(n, trig, a, mask, q, f) && forall o | |o| == n :: f(o) == Rephased(p, g(o))
    ensures Amounts(n, trig, a, mask, q, g)
  {
    hide Alike, AllTurned, Mixed, Rephased, NormSq;
    forall psi: Vector ensures AmountsAt(n, trig, a, mask, q, g, psi) {
      assert AmountsAt(n, trig, a, mask, q, f, psi);
      MixedAlike(n, mask, q, p, f, g, psi);
      AlikeChain(n, AllTurned(n, trig, a, |a|, psi), Mixed(n, mask, q, f, psi), Mixed(n, mask, q, g, psi));
    }
  }

  lemma AmountsSame(n: nat, trig: Trig, a: seq<PauliTurn>, mask: Bits, q: nat, f: Family, g: Family)
    requires TurnsInRange(n, a) && |mask| == n && q < n
    requires Amounts(n, trig, a, mask, q, f) && forall o | |o| == n :: f(o) == g(o)
    ensures Amounts(n, trig, a, mask, q, g)
  {
    hide Alike, AllTurned, Mixed;
    forall psi: Vector ensures AmountsAt(n, trig, a, mask, q, g, psi) {
      assert AmountsAt(n, trig, a, mask, q, f, psi);
      assert SameVector(n, psi, psi);
      MixedSame(n, mask, q, f, g, psi, psi);
      SameIsAlike(n, Mixed(n, mask, q, f, psi), Mixed(n, mask, q, g, psi));
      AlikeChain(n, AllTurned(n, trig, a, |a|, psi), Mixed(n, mask, q, f, psi), Mixed(n, mask, q, g, psi));
    }
  }
}
