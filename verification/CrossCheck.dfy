/**
  The two engines side by side: the expectation that the Majorana engine certifies is,
  for every circuit both gate tables can express, the number that the reference
  simulator reads off its amplitudes.
*/
module CrossCheck {
  import opened Linear
  import opened Wrappers
  import opened Bits
  import opened ComplexNumbers
  import opened Majorana
  import opened MajoranaFock
  import opened MajoranaPauli
  import opened MajoranaPropagate
  import opened MajoranaCertificate
  import opened PauliTerms
  import opened MajoranaDoor
  import opened MajoranaGates
  import opened PairMaps
  import opened TurnMaps
  import opened GateMeaning
  import opened GateAgreement
  import S = Statevector
  import Sim = Simulator

  // ---- circuits

  ghost predicate WiredAll(n: nat, sim: Sim.Trig, gates: seq<GateOp>) {
    forall i | 0 <= i < |gates| :: Wired(n, sim, gates[i].gate)
  }

  ghost predicate ExactAll(sim: Sim.Trig, gates: seq<GateOp>) { forall i | 0 <= i < |gates| :: Exact(sim, gates[i].gate) }

  /** The state after the first k gates, each applied as its own matrix. */
  ghost function CircuitDone(n: nat, sim: Sim.Trig, gates: seq<GateOp>, k: nat, psi: Vector): Vector
    requires k <= |gates| && WiredAll(n, sim, gates)
  {
    if k == 0 then psi else
      assert Wired(n, sim, gates[k - 1].gate);
      Done(n, ActionFor(sim, gates[k - 1].gate), CircuitDone(n, sim, gates, k - 1, psi))
  }

  lemma DoneRespects(n: nat, act: Sim.Action, psi: Vector, phi: Vector)
    requires (act.Mix? ==> act.wires.Valid(n)) && Alike(n, psi, phi)
    ensures Alike(n, Done(n, act, psi), Done(n, act, phi))
  {
    hide Alike, Mixed;
    if act.Mix? {
      TargetInMask(n, act.wires);
      MixedRespects(n, MaskOf(n, act.wires), TargetOf(act.wires), GateFamily(n, act.wires, act.kernel), psi, phi);
    }
  }

  /** The Pauli rotations of a circuit do what its gates do, up to a global phase. */
  lemma {:induction false} CircuitAgrees(n: nat, trig: Trig, sim: Sim.Trig, gates: seq<GateOp>, k: nat, psi: Vector)
    requires TrigsAgree(trig, sim) && CircuitInRange(n, trig, gates) && AllExpressible(trig, gates)
    requires WiredAll(n, sim, gates) && ExactAll(sim, gates) && k <= |gates|
    ensures Alike(n, GatesRan(n, trig, gates, k, psi), CircuitDone(n, sim, gates, k, psi))
  {
    hide TrigsAgree, TurnsFor, ActionFor, AllTurned, Done, Alike, TurnInRange;
    if k == 0 {
      SameIsAlike(n, psi, psi);
    } else {
      CircuitAgrees(n, trig, sim, gates, k - 1, psi);
      var gate := gates[k - 1].gate;
      assert Wired(n, sim, gate) && Exact(sim, gate) && Expressible(trig, gates[k - 1]) && GateInRange(n, trig, gates[k - 1]);
      TableAgrees(n, trig, sim, gate);
      var turns := TurnsFor(gate, trig.pi).value;
      var u, v := GatesRan(n, trig, gates, k - 1, psi), CircuitDone(n, sim, gates, k - 1, psi);
      assert AgreesOn(n, trig, sim, gate, turns, u);
      DoneRespects(n, ActionFor(sim, gate), u, v);
      AlikeChain(n, AllTurned(n, trig, turns, |turns|, u), Done(n, ActionFor(sim, gate), u), Done(n, ActionFor(sim, gate), v));
    }
  }

  // ---- readouts do not see the phase

  lemma InnerOfMultiples(p: Complex, a: Complex, e: nat, b: Complex)
    requires NormSq(p) == 1.0
    ensures Inner(Mul(p, a), TimesI(e, Mul(p, b))) == Inner(a, TimesI(e, b))
  {
    hide Mul, TimesI, Inner, NormSq;
    PowerTimes(e, Mul(p, b));
    PowerTimes(e, b);
    MoveFactor(p, TimesI(e, ONE), b);
    InnerOfScaled(p, a, TimesI(e, b));
  }

  lemma InnerOfScaled(p: Complex, a: Complex, b: Complex)
    requires NormSq(p) == 1.0
    ensures Inner(Mul(p, a), Mul(p, b)) == Inner(a, b)
  {
    InnerProduct(p.re, p.im, a.re, a.im, b.re, b.im);
  }

  lemma InnerProduct(p: real, q: real, a: real, b: real, c: real, d: real)
    requires p * p + q * q == 1.0
    ensures (p * a - q * b) * (p * c - q * d) + (p * b + q * a) * (p * d + q * c) == a * c + b * d
  {
    assert (p * a - q * b) * (p * c - q * d) == (p * p) * (a * c) - (p * q) * (a * d) - (p * q) * (b * c) + (q * q) * (b * d);
    assert (p * b + q * a) * (p * d + q * c) == (p * p) * (b * d) + (p * q) * (b * c) + (p * q) * (a * d) + (q * q) * (a * c);
    assert (p * p) * (a * c) + (q * q) * (a * c) == (p * p + q * q) * (a * c);
    assert (p * p) * (b * d) + (q * q) * (b * d) == (p * p + q * q) * (b * d);
  }

  lemma MultipleAlike(n: nat, m: Multiple, psi: Vector, phi: Vector)
    requires m.Valid(n) && Alike(n, psi, phi)
    ensures m.Reading(n, psi) == m.Reading(n, phi)
  {
    hide Mul, TimesI, Inner, NormSq, Multiple.Power;
    var p :| AlikeBy(n, p, psi, phi);
    var f, g := (o: Bits) => Inner(psi(o), m.Applied(n, psi)(o)), (o: Bits) => Inner(phi(o), m.Applied(n, phi)(o));
    forall o | |o| == n ensures f(o) == g(o) {
      var r := Xor(o, m.x);
      assert psi(o) == Mul(p, phi(o)) && psi(r) == Mul(p, phi(r));
      InnerOfMultiples(p, phi(o), m.Power(r), phi(r));
    }
    SumSame([], n, f, g);
    PairAsSum(n, psi, m.Applied(n, psi), f);
    PairAsSum(n, phi, m.Applied(n, phi), g);
  }

  lemma PairAsSum(n: nat, a: Vector, b: Vector, f: Bits -> real)
    requires forall o | |o| == n :: f(o) == Inner(a(o), b(o))
    ensures Pair(n, a, b) == SumFrom([], n, f)
  {
    hide Inner;
    SumSame([], n, o => Inner(a(o), b(o)), f);
  }

  lemma {:induction false} ReadingAlike(n: nat, obs: Observable, k: nat, psi: Vector, phi: Vector)
    requires k <= |obs| && (forall i | 0 <= i < k :: InRange(n, obs[i].1)) && Alike(n, psi, phi)
    ensures ObservableReading(n, obs, k, psi) == ObservableReading(n, obs, k, phi)
    ensures MarkedReading(n, obs, k, psi) == MarkedReading(n, obs, k, phi)
  {
    hide Alike, PauliReadout, TermReading, XBits, ZBits, MultipliedOut, Multiple.Reading;
    if k == 0 {
    } else {
      ReadingAlike(n, obs, k - 1, psi, phi);
      var sites := obs[k - 1].1;
      var x, z := XBits(n, sites), ZBits(n, sites);
      TermReadsMultiple(n, sites, psi);
      TermReadsMultiple(n, sites, phi);
      MultipleAlike(n, MultipliedOut(n, sites, |sites|), psi, phi);
      ReadoutIsMultiple(n, x, z, psi);
      ReadoutIsMultiple(n, x, z, phi);
      MultipleAlike(n, Multiple(x, z, 0), psi, phi);
    }
  }

  /** What the engine certifies is read in the state after the gates themselves. */
  lemma ExpectedIsTrue(n: nat, trig: Trig, sim: Sim.Trig, obs: Observable, gates: seq<GateOp>)
    requires TrigsAgree(trig, sim) && CircuitInRange(n, trig, gates) && AllExpressible(trig, gates)
    requires WiredAll(n, sim, gates) && ExactAll(sim, gates) && forall k | 0 <= k < |obs| :: InRange(n, obs[k].1)
    ensures Expected(n, trig, obs, gates) == ObservableReading(n, obs, |obs|, CircuitDone(n, sim, gates, |gates|, Vacuum(n)))
    ensures MarkedExpected(n, trig, obs, gates) == MarkedReading(n, obs, |obs|, CircuitDone(n, sim, gates, |gates|, Vacuum(n)))
  {
    hide Alike, GatesRan, CircuitDone, ObservableReading, MarkedReading;
    CircuitAgrees(n, trig, sim, gates, |gates|, Vacuum(n));
    ReadingAlike(n, obs, |obs|, GatesRan(n, trig, gates, |gates|, Vacuum(n)), CircuitDone(n, sim, gates, |gates|, Vacuum(n)));
  }

  // ---- amplitudes by index

  /** The index of a basis state: bit q of the index is bit q of the state. */
  function IndexOf(o: Bits): nat {
    if o == [] then 0 else 2 * IndexOf(o[1..]) + if o[0] then 1 else 0
  }

  lemma {:induction false} IndexBits(o: Bits, q: nat)
    requires q < |o|
    ensures S.Bit(IndexOf(o), q) == o[q] && IndexOf(o) < S.Pow2(|o|)
  {
    var i := IndexOf(o);
    assert i / 2 == IndexOf(o[1..]);
    if q > 0 {
      IndexBits(o[1..], q - 1);
    } else if |o| > 1 {
      IndexBits(o[1..], 0);
    }
  }

  lemma IndexInRange(o: Bits)
    ensures IndexOf(o) < S.Pow2(|o|)
  {
    if o != [] {
      IndexBits(o, 0);
    }
  }

  /** A state held in an array, as a vector. */
  ghost function VectorOf(n: nat, s: S.State): Vector
    requires |s| == S.Pow2(n)
  {
    o => if |o| == n && IndexOf(o) < |s| then s[IndexOf(o)] else ZERO
  }

  lemma PartnerIndex(n: nat, w: S.Wires, o: Bits)
    requires w.Valid(n) && |o| == n
    ensures IndexOf(o) < S.Pow2(n) && w.Partner(IndexOf(o)) == IndexOf(Xor(o, MaskOf(n, w)))
  {
    hide S.Bit, IndexOf;
    var p, i := Xor(o, MaskOf(n, w)), IndexOf(o);
    IndexInRange(o);
    IndexInRange(p);
    S.PartnerInRange(w, n, i);
    forall j | 0 <= j < n ensures S.Bit(w.Partner(i), j) == S.Bit(IndexOf(p), j) {
      S.PartnerBit(w, n, i, j);
      IndexBits(o, j);
      IndexBits(p, j);
    }
    S.SameBits(w.Partner(i), IndexOf(p), n);
  }

  lemma SidesAgree(n: nat, w: S.Wires, o: Bits)
    requires w.Valid(n) && |o| == n
    ensures w.Acts(IndexOf(o)) == ActsOn(w, n, o)
    ensures TargetOf(w) < n && (ActsOn(w, n, o) ==> w.Second(IndexOf(o)) == o[TargetOf(w)])
  {
    hide S.Bit, IndexOf;
    forall j | 0 <= j < n ensures S.Bit(IndexOf(o), j) == o[j] {
      IndexBits(o, j);
    }
  }

  /** The in-place gate on the array is the mixing of the vector. */
  lemma ActedVector(n: nat, w: S.Wires, k: S.Kernel, s: S.State)
    requires w.Valid(n) && |s| == S.Pow2(n)
    ensures SameVector(n, VectorOf(n, S.Acted(w, k, n, s)), Done(n, Sim.Mix(w, k), VectorOf(n, s)))
  {
    hide S.Kernel.Upper, S.Kernel.Lower, S.Wires.Partner, S.Wires.Acts, S.Wires.Second, MaskOf, ActsOn, IndexOf, SAME;
    forall o | |o| == n ensures VectorOf(n, S.Acted(w, k, n, s))(o) == Done(n, Sim.Mix(w, k), VectorOf(n, s))(o) {
      var p := Xor(o, MaskOf(n, w));
      PartnerIndex(n, w, o);
      IndexInRange(p);
      SidesAgree(n, w, o);
      SameActs(VectorOf(n, s)(o), VectorOf(n, s)(p));
      SameActs(VectorOf(n, s)(p), VectorOf(n, s)(o));
    }
  }

  lemma MixedSameInput(n: nat, act: Sim.Action, psi: Vector, phi: Vector)
    requires (act.Mix? ==> act.wires.Valid(n)) && SameVector(n, psi, phi)
    ensures SameVector(n, Done(n, act, psi), Done(n, act, phi))
  {
    hide Mixed;
    if act.Mix? {
      TargetInMask(n, act.wires);
      var f := GateFamily(n, act.wires, act.kernel);
      MixedSame(n, MaskOf(n, act.wires), TargetOf(act.wires), f, f, psi, phi);
    }
  }

  // ---- whole runs

  /** Every gate is in both tables. */
  ghost predicate InBothTables(gates: seq<GateOp>) { forall i | 0 <= i < |gates| :: Counterpart(gates[i].gate).Some? }

  function SimGates(gates: seq<GateOp>): (r: seq<Sim.Gate>)
    requires forall i | 0 <= i < |gates| :: Counterpart(gates[i].gate).Some?
    ensures |r| == |gates| && forall i | 0 <= i < |gates| :: r[i] == Counterpart(gates[i].gate).value
  {
    seq(|gates|, i requires 0 <= i < |gates| => Counterpart(gates[i].gate).value)
  }

  lemma FitsWired(n: nat, sim: Sim.Trig, gates: seq<GateOp>, i: nat)
    requires InBothTables(gates) && i < |gates|
    ensures ActionFor(sim, gates[i].gate) == Sim.ActionOf(sim, SimGates(gates)[i])
    ensures Sim.Fits(n, sim, SimGates(gates)[i]) <==> Wired(n, sim, gates[i].gate)
  {
    hide Sim.ActionOf;
    assert Counterpart(gates[i].gate).Some?;
  }

  lemma {:induction false} RunsAgree(n: nat, sim: Sim.Trig, gates: seq<GateOp>, k: nat, s: S.State, psi: Vector)
    requires InBothTables(gates) && WiredAll(n, sim, gates) && k <= |gates| && |s| == S.Pow2(n) && SameVector(n, VectorOf(n, s), psi)
    ensures forall i | 0 <= i < k :: Sim.Fits(n, sim, SimGates(gates)[i])
    ensures SameVector(n, VectorOf(n, Sim.Ran(n, sim, SimGates(gates), k, s)), CircuitDone(n, sim, gates, k, psi))
  {
    hide Done, VectorOf, SameVector, Sim.ActionOf, ActionFor, Counterpart, SimGates;
    forall i | 0 <= i < |gates| ensures Sim.Fits(n, sim, SimGates(gates)[i]) {
      FitsWired(n, sim, gates, i);
    }
    if k > 0 {
      RunsAgree(n, sim, gates, k - 1, s, psi);
      FitsWired(n, sim, gates, k - 1);
      var before, act := Sim.Ran(n, sim, SimGates(gates), k - 1, s), ActionFor(sim, gates[k - 1].gate);
      var v := CircuitDone(n, sim, gates, k - 1, psi);
      MixedSameInput(n, act, VectorOf(n, before), v);
      if act.Mix? {
        ActedVector(n, act.wires, act.kernel, before);
        VectorChain(n, VectorOf(n, S.Acted(act.wires, act.kernel, n, before)), Done(n, act, VectorOf(n, before)), Done(n, act, v));
      } else {
        NothingDone(n, act, VectorOf(n, before));
        NothingDone(n, act, v);
      }
    }
  }

  lemma NothingDone(n: nat, act: Sim.Action, psi: Vector)
    requires !act.Mix?
    ensures Done(n, act, psi) == psi
  {
  }

  lemma VectorChain(n: nat, a: Vector, b: Vector, c: Vector)
    requires SameVector(n, a, b) && SameVector(n, b, c)
    ensures SameVector(n, a, c)
  {
  }

  lemma GroundIsVacuum(n: nat)
    ensures SameVector(n, VectorOf(n, Sim.Ground(n)), Vacuum(n))
  {
    forall o | |o| == n ensures VectorOf(n, Sim.Ground(n))(o) == Vacuum(n)(o) {
      IndexInRange(o);
      ZeroIndex(o);
    }
  }

  lemma {:induction false} ZeroIndex(o: Bits)
    ensures IndexOf(o) == 0 <==> o == Zero(|o|)
  {
    if o != [] {
      ZeroIndex(o[1..]);
      assert o == [o[0]] + o[1..];
      assert Zero(|o|) == [false] + Zero(|o| - 1);
      assert IndexOf(o) == 0 <==> !o[0] && o[1..] == Zero(|o| - 1);
    }
  }

  // ---- sums over bits and sums over indices

  lemma {:induction false} SumOverUnion(a: set<nat>, b: set<nat>, f: nat -> real)
    requires a !! b
    ensures S.SumOver(a + b, f) == S.SumOver(a, f) + S.SumOver(b, f)
  {
    if b == {} {
      assert a + b == a;
    } else {
      var x :| x in b;
      S.SumOverSplit(b, f, x);
      S.SumOverSplit(a + b, f, x);
      assert a + b - {x} == a + (b - {x});
      SumOverUnion(a, b - {x}, f);
    }
  }

  /** The indices whose low bits are p. */
  ghost function Matching(n: nat, p: Bits): set<nat> {
    set k | k in S.Below(S.Pow2(n)) && MatchesAt(k, p)
  }

  ghost predicate MatchesAt(k: nat, p: Bits) { forall j | 0 <= j < |p| :: S.Bit(k, j) == p[j] }

  lemma MatchesMore(k: nat, p: Bits, v: bool)
    ensures MatchesAt(k, p + [v]) <==> MatchesAt(k, p) && S.Bit(k, |p|) == v
  {
    hide S.Bit;
    if MatchesAt(k, p + [v]) {
      forall j | 0 <= j < |p| ensures S.Bit(k, j) == p[j] { assert (p + [v])[j] == p[j]; }
      assert (p + [v])[|p|] == v;
    }
  }

  lemma MatchingSplits(n: nat, p: Bits)
    ensures Matching(n, p) == Matching(n, p + [false]) + Matching(n, p + [true])
    ensures Matching(n, p + [false]) !! Matching(n, p + [true])
  {
    hide MatchesAt, S.Bit, S.Below;
    forall k: nat
      ensures MatchesAt(k, p) <==> MatchesAt(k, p + [false]) || MatchesAt(k, p + [true])
      ensures !(MatchesAt(k, p + [false]) && MatchesAt(k, p + [true]))
    {
      MatchesMore(k, p, false);
      MatchesMore(k, p, true);
    }
  }

  lemma MatchingWhole(n: nat, p: Bits)
    requires |p| == n
    ensures Matching(n, p) == {IndexOf(p)}
  {
    hide S.Bit, IndexOf;
    var i := IndexOf(p);
    IndexInRange(p);
    forall j | 0 <= j < n ensures S.Bit(i, j) == p[j] { IndexBits(p, j); }
    forall k | k in Matching(n, p) ensures k == i {
      S.SameBits(k, i, n);
    }
  }

  lemma {:induction false} SumByIndex(p: Bits, n: nat, f: nat -> real, g: Bits -> real)
    requires |p| <= n && forall o | |o| == n :: g(o) == f(IndexOf(o))
    ensures SumFrom(p, n, g) == S.SumOver(Matching(n, p), f)
    decreases n - |p|
  {
    hide Matching, IndexOf;
    if |p| == n {
      MatchingWhole(n, p);
      S.SumOverSplit({IndexOf(p)}, f, IndexOf(p));
      assert {IndexOf(p)} - {IndexOf(p)} == {};
    } else {
      MatchingSplits(n, p);
      SumOverUnion(Matching(n, p + [false]), Matching(n, p + [true]), f);
      SumByIndex(p + [false], n, f, g);
      SumByIndex(p + [true], n, f, g);
    }
  }

  // ---- the number both engines report

  lemma SignedNorm(a: Complex, odd: bool)
    ensures Inner(a, TimesI(if odd then 2 else 0, a)) == Times(if odd then -1.0 else 1.0, NormSq(a))
  {
  }

  /** The expectation of Z on a qubit is the signed mass of the amplitudes. */
  lemma ZReading(n: nat, q: nat, s: S.State)
    requires q < n && |s| == S.Pow2(n)
    ensures InRange(n, [(q, Z)])
    ensures PauliReadout(n, XBits(n, [(q, Z)]), ZBits(n, [(q, Z)]), VectorOf(n, s)) == S.MassOf(s, Sim.ZSign(q))
  {
    hide S.Bit, IndexOf, TimesI, Inner, NormSq, Times, PauliPhase;
    OneSite(n, q, Z);
    var x, z, v, f := XBits(n, [(q, Z)]), ZBits(n, [(q, Z)]), VectorOf(n, s), S.Weighted(s, Sim.ZSign(q));
    var g := (o: Bits) => Inner(v(o), PauliApply(n, x, z, v)(o));
    assert x == Zero(n);
    forall o | |o| == n ensures g(o) == f(IndexOf(o)) {
      IndexInRange(o);
      IndexBits(o, q);
      assert Xor(o, x) == o;
      PhaseOfOne(x, z, o, n, q);
      SignedNorm(v(o), o[q]);
    }
    PairAsSum(n, v, PauliApply(n, x, z, v), g);
    SumByIndex([], n, f, g);
    assert Matching(n, []) == S.Below(S.Pow2(n));
  }

  /**
    For every circuit that both tables can express and every observable, what the
    Majorana engine certifies is read in the state that the simulator's in-place run
    leaves in its array: the observable itself, and the strings of its marks.
  */
  lemma EnginesAgree(n: nat, trig: Trig, sim: Sim.Trig, gates: seq<GateOp>, obs: Observable)
    requires TrigsAgree(trig, sim) && CircuitInRange(n, trig, gates) && AllExpressible(trig, gates)
    requires WiredAll(n, sim, gates) && ExactAll(sim, gates) && InBothTables(gates) && forall k | 0 <= k < |obs| :: InRange(n, obs[k].1)
    ensures forall i | 0 <= i < |gates| :: Sim.Fits(n, sim, SimGates(gates)[i])
    ensures var v := VectorOf(n, Sim.Ran(n, sim, SimGates(gates), |gates|, Sim.Ground(n)));
      && Expected(n, trig, obs, gates) == ObservableReading(n, obs, |obs|, v)
      && MarkedExpected(n, trig, obs, gates) == MarkedReading(n, obs, |obs|, v)
  {
    hide VectorOf, SameVector, CircuitDone, Vacuum, ObservableReading, MarkedReading, Sim.Ran, Sim.Fits, GatesRan, TrigsAgree, Alike;
    GroundIsVacuum(n);
    RunsAgree(n, sim, gates, |gates|, Sim.Ground(n), Vacuum(n));
    var s := Sim.Ran(n, sim, SimGates(gates), |gates|, Sim.Ground(n));
    var v := CircuitDone(n, sim, gates, |gates|, Vacuum(n));
    ExpectedIsTrue(n, trig, sim, obs, gates);
    SameIsAlike(n, VectorOf(n, s), v);
    ReadingAlike(n, obs, |obs|, VectorOf(n, s), v);
  }

  /** The observable Z on one qubit. */
  function ZOn(q: nat): Observable { [(1.0, [(q, Z)])] }

  /** In particular, what is certified about Z on a qubit is the number the simulator reports for it. */
  lemma ForwardZAgrees(n: nat, trig: Trig, sim: Sim.Trig, gates: seq<GateOp>, q: nat)
    requires TrigsAgree(trig, sim) && CircuitInRange(n, trig, gates) && AllExpressible(trig, gates)
    requires WiredAll(n, sim, gates) && ExactAll(sim, gates) && InBothTables(gates) && q < n
    ensures InRange(n, ZOn(q)[0].1) && forall i | 0 <= i < |gates| :: Sim.Fits(n, sim, SimGates(gates)[i])
    ensures Expected(n, trig, ZOn(q), gates) ==
      S.MassOf(Sim.Ran(n, sim, SimGates(gates), |gates|, Sim.Ground(n)), Sim.ZSign(q))
  {
    hide VectorOf, S.MassOf, PauliReadout, Sim.Ran, Sim.Fits, GatesRan, TrigsAgree, ObservableReading, MarkedReading, Expected;
    EnginesAgree(n, trig, sim, gates, ZOn(q));
    var s := Sim.Ran(n, sim, SimGates(gates), |gates|, Sim.Ground(n));
    ZReading(n, q, s);
    OneTerm(n, q, VectorOf(n, s));
  }

  lemma OneTerm(n: nat, q: nat, v: Vector)
    requires q < n && InRange(n, [(q, Z)])
    ensures ObservableReading(n, ZOn(q), 1, v) == PauliReadout(n, XBits(n, [(q, Z)]), ZBits(n, [(q, Z)]), v)
  {
    hide PauliReadout, TermReading;
    assert ObservableReading(n, ZOn(q), 0, v) == 0.0;
    NamedOnceMultipliesOut(n, [(q, Z)]);
  }
}
