/**
  The controlled gate CU3: the Majorana engine accepts it when its two tilts are below a
  threshold and then drops them.  Here it is settled which tilts may be dropped: two
  states tell a dropped tilt from a kept one.
*/
module GateTilts {
  import opened Linear
  import opened Bits
  import opened ComplexNumbers
  import opened Majorana
  import opened MajoranaFock
  import opened PauliTerms
  import opened MajoranaGates
  import opened PairMaps
  import opened TurnMaps
  import opened GateMeaning
  import opened GateTable
  import opened GateDiagonals
  import S = Statevector
  import Sim = Simulator

  /** The two tilts do nothing. */
  predicate Untilted(sim: Sim.Trig, theta: real, phi: real) { sim.cos(theta / 2.0) == 1.0 && sim.Cis(phi) == ONE }

  lemma ZeroTilts(trig: Trig, sim: Sim.Trig)
    requires TrigsAgree(trig, sim)
    ensures Untilted(sim, 0.0, 0.0)
  {
    SameAngle(trig, sim, 0.0);
    assert sim.Circle(0.0);
    assert 0.0 / 2.0 == 0.0;
  }

  /** An untilted gate is a phase. */
  lemma UntiltedKernel(trig: Trig, sim: Sim.Trig, theta: real, phi: real, lam: real)
    requires TrigsAgree(trig, sim) && Untilted(sim, theta, phi)
    ensures Sim.U3Kernel(sim, theta, phi, lam) == Sim.Phases(ONE, Half(trig, 2.0 * lam))
  {
    assert sim.Circle(theta / 2.0) && sim.Sums(phi, lam);
    TimesSquare(sim.sin(theta / 2.0));
    assert Times(1.0, 1.0) == 1.0;
    HalfIsCis(trig, sim, 2.0 * lam);
    assert 2.0 * lam / 2.0 == lam;
    PhaseSumIsLast(sim.cos(lam), sim.sin(lam));
    ScaleByOne(sim.Cis(lam));
    ScaleByZero(sim.Cis(lam));
    ScaleByZero(sim.Cis(phi));
    var s := sim.sin(theta / 2.0);
    assert s == 0.0 && sim.cos(phi) == 1.0 && sim.sin(phi) == 0.0;
    assert sim.Cis(phi + lam) == sim.Cis(lam);
    assert Scale(-s, sim.Cis(lam)) == ZERO && Scale(s, sim.Cis(phi)) == ZERO;
  }

  lemma ScaleByZero(a: Complex)
    ensures Scale(0.0, a) == ZERO && Scale(-0.0, a) == ZERO
  {
  }

  lemma PhaseSumIsLast(c: real, s: real)
    ensures Times(1.0, c) - Times(0.0, s) == c && Times(0.0, c) + Times(1.0, s) == s
  {
  }

  // ---- the states that tell

  /** The control set, and the target as given. */
  function Armed(n: nat, q: nat, r: nat, v: bool): (o: Bits)
    requires q < n && r < n && q != r
    ensures |o| == n && forall j | 0 <= j < n :: o[j] == (j == q || (v && j == r))
  {
    seq(n, j => j == q || (v && j == r))
  }

  /** The vacuum and one state with the control set. */
  ghost function Probe(n: nat, q: nat, r: nat, v: bool): Vector
    requires q < n && r < n && q != r
  {
    Couple(Zero(n), Armed(n, q, r, v), 0)
  }

  lemma ProbeValues(n: nat, q: nat, r: nat, v: bool, w: bool)
    requires q < n && r < n && q != r
    ensures Probe(n, q, r, v)(Zero(n)) == ONE && Probe(n, q, r, v)(Zero(n)[r := true]) == ZERO
    ensures Probe(n, q, r, v)(Armed(n, q, r, w)) == if v == w then ONE else ZERO
  {
    TimesIZero(ONE);
    var o, a, b := Zero(n), Armed(n, q, r, v), Armed(n, q, r, w);
    assert !o[q] && a[q] && b[q] && a[r] == v && b[r] == w && o[r := true][r] && !o[r := true][q];
  }

  lemma MixedProbe(n: nat, q: nat, r: nat, k: S.Kernel, v: bool)
    requires q < n && r < n && q != r
    ensures var u := Mixed(n, Unit(n, r), r, WhereSet(q, k), Probe(n, q, r, v));
      && u(Zero(n)) == ONE
      && u(Armed(n, q, r, false)) == (if v then k.m01 else k.m00)
      && u(Armed(n, q, r, true)) == (if v then k.m11 else k.m10)
  {
    hide Mul, Add, SAME;
    var psi := Probe(n, q, r, v);
    var o, a, b := Zero(n), Armed(n, q, r, false), Armed(n, q, r, true);
    assert Xor(o, Unit(n, r)) == o[r := true] && Xor(a, Unit(n, r)) == b && Xor(b, Unit(n, r)) == a;
    ProbeValues(n, q, r, v, false);
    ProbeValues(n, q, r, v, true);
    SameActs(psi(o), psi(o[r := true]));
    PickColumn(k);
  }

  lemma PickColumn(k: S.Kernel)
    ensures k.Upper(ONE, ZERO) == k.m00 && k.Upper(ZERO, ONE) == k.m01
    ensures k.Lower(ONE, ZERO) == k.m10 && k.Lower(ZERO, ONE) == k.m11
  {
  }

  lemma ProbeTells(n: nat, q: nat, r: nat, d: S.Kernel, k: S.Kernel, v: bool)
    requires q < n && r < n && q != r
    requires var psi := Probe(n, q, r, v);
      Alike(n, Mixed(n, Unit(n, r), r, WhereSet(q, d), psi), Mixed(n, Unit(n, r), r, WhereSet(q, k), psi))
    ensures if v then d.m01 == k.m01 && d.m11 == k.m11 else d.m00 == k.m00 && d.m10 == k.m10
  {
    hide Mul, NormSq, Mixed, WhereSet, Armed, Probe;
    var f, g := Mixed(n, Unit(n, r), r, WhereSet(q, d), Probe(n, q, r, v)), Mixed(n, Unit(n, r), r, WhereSet(q, k), Probe(n, q, r, v));
    var p :| AlikeBy(n, p, f, g);
    MixedProbe(n, q, r, d, v);
    MixedProbe(n, q, r, k, v);
    var o, a, b := Zero(n), Armed(n, q, r, false), Armed(n, q, r, true);
    assert f(o) == Mul(p, g(o)) && f(a) == Mul(p, g(a)) && f(b) == Mul(p, g(b));
    MulOne(p);
    MulOne(g(a));
    MulOne(g(b));
  }

  /** Gates under one control that agree up to a phase in every state have the same matrix: the control fixes the phase. */
  lemma ControlTells(n: nat, q: nat, r: nat, d: S.Kernel, k: S.Kernel)
    requires q < n && r < n && q != r
    requires forall psi: Vector :: Alike(n, Mixed(n, Unit(n, r), r, WhereSet(q, d), psi), Mixed(n, Unit(n, r), r, WhereSet(q, k), psi))
    ensures d == k
  {
    hide Alike, Mixed, WhereSet, Probe;
    ProbeTells(n, q, r, d, k, false);
    ProbeTells(n, q, r, d, k, true);
  }

  /** If the tilted matrix is the phase alone, the tilts do nothing. */
  lemma PhaseIsUntilted(trig: Trig, sim: Sim.Trig, theta: real, phi: real, lam: real)
    requires TrigsAgree(trig, sim) && Sim.U3Kernel(sim, theta, phi, lam) == Sim.Phases(ONE, Half(trig, 2.0 * lam))
    ensures Untilted(sim, theta, phi)
  {
    assert sim.cos(theta / 2.0) == 1.0;
    assert sim.Sums(phi, lam) && sim.Circle(lam);
    HalfIsCis(trig, sim, 2.0 * lam);
    assert 2.0 * lam / 2.0 == lam;
    assert sim.Cis(phi + lam) == sim.Cis(lam) by { ScaleByOne(sim.Cis(phi + lam)); }
    DivideOut(sim.cos(phi), sim.sin(phi), sim.cos(lam), sim.sin(lam));
  }

  lemma ScaleByOne(a: Complex)
    ensures Scale(1.0, a) == a
  {
  }

  /** A rotation that leaves one point of the circle in place is no rotation. */
  lemma DivideOut(a: real, b: real, c: real, s: real)
    requires Times(a, c) - Times(b, s) == c && Times(b, c) + Times(a, s) == s && Times(c, c) + Times(s, s) == 1.0
    ensures a == 1.0 && b == 0.0
  {
    assert a == a * (c * c + s * s);
    assert b == b * (c * c + s * s);
    assert c * (a * c - b * s) == a * (c * c) - b * (c * s);
    assert s * (b * c + a * s) == b * (c * s) + a * (s * s);
    assert c * (b * c + a * s) == b * (c * c) + a * (c * s);
    assert s * (a * c - b * s) == a * (c * s) - b * (s * s);
  }
}
