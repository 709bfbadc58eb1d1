/**
  The gate table of the Majorana engine and the gate table of the reference simulator
  agree: for every gate both know, the engine's rotations turn every state as the
  simulator's matrix on its pairs of amplitudes does, up to a global phase.
*/
module GateAgreement {
  import opened Linear
  import opened Wrappers
  import opened Bits
  import opened ComplexNumbers
  import opened Majorana
  import opened MajoranaFock
  import opened MajoranaPauli
  import opened PauliTerms
  import opened MajoranaDoor
  import opened MajoranaGates
  import opened PairMaps
  import opened TurnMaps
  import opened GateMeaning
  import opened GateTable
  import opened GateDiagonals
  import opened GateComposites
  import opened GateTilts
  import S = Statevector
  import Sim = Simulator

  // ---- the simulator's gates on state vectors

  /** The bits in which the two members of a pair differ. */
  function MaskOf(n: nat, w: S.Wires): (m: Bits)
    ensures |m| == n
  {
    match w
    case Single(q) => Unit(n, q)
    case Controlled(_, q) => Unit(n, q)
    case Exchange(a, b) => UnitPair(n, a, b)
    case Toffoli(_, _, q) => Unit(n, q)
    case ControlledExchange(_, a, b) => UnitPair(n, a, b)
  }

  /** The bit that tells the second member of a pair. */
  function TargetOf(w: S.Wires): nat {
    match w
    case Single(q) => q
    case Controlled(_, q) => q
    case Exchange(_, b) => b
    case Toffoli(_, _, q) => q
    case ControlledExchange(_, _, b) => b
  }

  predicate ActsOn(w: S.Wires, n: nat, o: Bits)
    requires w.Valid(n) && |o| == n
  {
    match w
    case Single(_) => true
    case Controlled(c, _) => o[c]
    case Exchange(a, b) => o[a] != o[b]
    case Toffoli(c, d, _) => o[c] && o[d]
    case ControlledExchange(c, a, b) => o[c] && o[a] != o[b]
  }

  ghost function GateFamily(n: nat, w: S.Wires, k: S.Kernel): Family
    requires w.Valid(n)
  {
    o => if |o| == n && ActsOn(w, n, o) then k else SAME
  }

  lemma TargetInMask(n: nat, w: S.Wires)
    requires w.Valid(n)
    ensures TargetOf(w) < n && MaskOf(n, w)[TargetOf(w)]
  {
  }

  /** The state after the simulator's gate. */
  ghost function Done(n: nat, act: Sim.Action, psi: Vector): Vector
    requires act.Mix? ==> act.wires.Valid(n)
  {
    if act.Mix? then
      TargetInMask(n, act.wires);
      Mixed(n, MaskOf(n, act.wires), TargetOf(act.wires), GateFamily(n, act.wires, act.kernel), psi)
    else psi
  }

  // ---- the same gate in both tables

  const SXKERNEL := S.Kernel(C(0.5, 0.5), C(0.5, -0.5), C(0.5, -0.5), C(0.5, 0.5))
  const SXDGKERNEL := S.Kernel(C(0.5, -0.5), C(0.5, 0.5), C(0.5, 0.5), C(0.5, -0.5))

  /** The simulator's gate of the same name; the square roots of X are not in its table. */
  function Counterpart(gate: Gate): Option<Sim.Gate> {
    match gate
    case Id => Some(Sim.Id)
    case Barrier => Some(Sim.Barrier)
    case Measure => Some(Sim.Measure)
    case PauliX(q) => Some(Sim.X(q))
    case PauliY(q) => Some(Sim.Y(q))
    case PauliZ(q) => Some(Sim.Z(q))
    case S(q) => Some(Sim.S(q))
    case Sdg(q) => Some(Sim.Sdg(q))
    case T(q) => Some(Sim.T(q))
    case Tdg(q) => Some(Sim.Tdg(q))
    case Sx(_) => None
    case Sxdg(_) => None
    case H(q) => Some(Sim.H(q))
    case Rx(q, theta) => Some(Sim.Rx(q, theta))
    case Ry(q, theta) => Some(Sim.Ry(q, theta))
    case Rz(q, theta) => Some(Sim.Rz(q, theta))
    case U1(q, theta) => Some(Sim.U1(q, theta))
    case U3(q, theta, phi, lam) => Some(Sim.U3(q, theta, phi, lam))
    case U2(q, phi, lam) => Some(Sim.U2(q, phi, lam))
    case CZ(q, r) => Some(Sim.CZ(q, r))
    case CX(q, r) => Some(Sim.CX(q, r))
    case CY(q, r) => Some(Sim.CY(q, r))
    case Swap(q, r) => Some(Sim.Swap(q, r))
    case CRz(q, r, theta) => Some(Sim.CRz(q, r, theta))
    case CU3(q, r, theta, phi, lam) => Some(Sim.CU3(q, r, theta, phi, lam))
    case Rbs(q, r, theta) => Some(Sim.Rbs(q, r, theta))
    case CCX(q, r, t) => Some(Sim.CCX(q, r, t))
    case CSwap(q, r, t) => Some(Sim.CSwap(q, r, t))
    case Other => None
  }

  /** What the gate is, as a matrix on pairs of amplitudes. */
  function ActionFor(sim: Sim.Trig, gate: Gate): Sim.Action {
    match gate
    case Sx(q) => Sim.Mix(S.Single(q), SXKERNEL)
    case Sxdg(q) => Sim.Mix(S.Single(q), SXDGKERNEL)
    case _ => if Counterpart(gate).Some? then Sim.ActionOf(sim, Counterpart(gate).value) else Sim.Refused
  }

  /** The two tilts that the engine's table lets pass below its threshold, and drops, do nothing. */
  predicate Exact(sim: Sim.Trig, gate: Gate) { gate.CU3? ==> Untilted(sim, gate.theta, gate.phi) }

  /** The wires of the gate exist and differ. */
  ghost predicate Wired(n: nat, sim: Sim.Trig, gate: Gate) {
    var act := ActionFor(sim, gate);
    act.Mix? ==> act.wires.Valid(n)
  }

  ghost predicate Agrees(n: nat, trig: Trig, sim: Sim.Trig, gate: Gate, turns: seq<PauliTurn>)
    requires Wired(n, sim, gate)
  {
    TurnsInRange(n, turns) && forall psi: Vector :: AgreesOn(n, trig, sim, gate, turns, psi)
  }

  ghost predicate AgreesOn(n: nat, trig: Trig, sim: Sim.Trig, gate: Gate, turns: seq<PauliTurn>, psi: Vector)
    requires Wired(n, sim, gate) && TurnsInRange(n, turns)
  {
    Alike(n, AllTurned(n, trig, turns, |turns|, psi), Done(n, ActionFor(sim, gate), psi))
  }

  lemma AgreesByFamily(n: nat, trig: Trig, sim: Sim.Trig, gate: Gate, turns: seq<PauliTurn>, fam: Family)
    requires Wired(n, sim, gate) && ActionFor(sim, gate).Mix? && TurnsInRange(n, turns)
    requires var act := ActionFor(sim, gate);
      TargetOf(act.wires) < n && Amounts(n, trig, turns, MaskOf(n, act.wires), TargetOf(act.wires), fam) &&
      forall o | |o| == n :: fam(o) == GateFamily(n, act.wires, act.kernel)(o)
    ensures Agrees(n, trig, sim, gate, turns)
  {
    hide Amounts, Mixed, ActionFor, AllTurned, TurnInRange, Alike, GateFamily, MaskOf;
    var act := ActionFor(sim, gate);
    AmountsSame(n, trig, turns, MaskOf(n, act.wires), TargetOf(act.wires), fam, GateFamily(n, act.wires, act.kernel));
    forall psi: Vector ensures AgreesOn(n, trig, sim, gate, turns, psi) {
      AmountsOn(n, trig, turns, MaskOf(n, act.wires), TargetOf(act.wires), GateFamily(n, act.wires, act.kernel), psi);
    }
  }

  lemma AmountsOn(n: nat, trig: Trig, turns: seq<PauliTurn>, mask: Bits, q: nat, fam: Family, psi: Vector)
    requires TurnsInRange(n, turns) && |mask| == n && q < n && Amounts(n, trig, turns, mask, q, fam)
    ensures Alike(n, AllTurned(n, trig, turns, |turns|, psi), Mixed(n, mask, q, fam, psi))
  {
    hide Alike, AllTurned, Mixed;
    assert AmountsAt(n, trig, turns, mask, q, fam, psi);
  }

  lemma WiredSingle(n: nat, sim: Sim.Trig, gate: Gate, a: nat, k: S.Kernel)
    requires Wired(n, sim, gate) && ActionFor(sim, gate) == Sim.Mix(S.Single(a), k)
    ensures a < n
  {
    hide ActionFor;
  }

  /** One rotation of one qubit is its gate, up to a phase. */
  lemma AgreesByAxis(n: nat, trig: Trig, sim: Sim.Trig, gate: Gate, a: nat, p: Pauli, t: real, z: Complex, k: S.Kernel)
    requires Wired(n, sim, gate) && p != I && a < n && ActionFor(sim, gate) == Sim.Mix(S.Single(a), k)
    requires NormSq(z) == 1.0 && AxisKernel(trig, p, t) == Rephased(z, k)
    ensures Agrees(n, trig, sim, gate, [One(a, p, t)])
  {
    hide Amounts, ActionFor, Rephased, AxisKernel, NormSq, TurnInRange, Agrees;
    AxisAmounts(n, trig, a, p, t);
    AmountsRephased(n, trig, [One(a, p, t)], Unit(n, a), a, z, Constant(AxisKernel(trig, p, t)), Constant(k));
    AgreesByFamily(n, trig, sim, gate, [One(a, p, t)], Constant(k));
  }

  lemma AgreesByThree(n: nat, trig: Trig, sim: Sim.Trig, gate: Gate, a: nat, t: real, u: real, v: real, z: Complex, k: S.Kernel)
    requires Wired(n, sim, gate) && a < n && ActionFor(sim, gate) == Sim.Mix(S.Single(a), k)
    requires NormSq(z) == 1.0 && Composed(AxisKernel(trig, Z, v), Composed(AxisKernel(trig, Y, u), AxisKernel(trig, Z, t))) == Rephased(z, k)
    ensures Agrees(n, trig, sim, gate, [One(a, Z, t), One(a, Y, u), One(a, Z, v)])
  {
    hide Amounts, ActionFor, Rephased, AxisKernel, NormSq, TurnInRange, Agrees, Composed;
    var turns := [One(a, Z, t), One(a, Y, u), One(a, Z, v)];
    ThreeAxes(n, trig, a, Z, t, Y, u, Z, v);
    AmountsRephased(n, trig, turns, Unit(n, a), a, z,
      Constant(Composed(AxisKernel(trig, Z, v), Composed(AxisKernel(trig, Y, u), AxisKernel(trig, Z, t)))), Constant(k));
    AgreesByFamily(n, trig, sim, gate, turns, Constant(k));
  }

  lemma RephasedOne(k: S.Kernel)
    ensures Rephased(ONE, k) == k && NormSq(ONE) == 1.0
  {
    hide Mul;
    MulOne(k.m00);
    MulOne(k.m01);
    MulOne(k.m10);
    MulOne(k.m11);
  }

  lemma HalfTurnKernels()
    ensures Sim.RxKernel(0.0, 1.0) == Rephased(C(0.0, -1.0), S.NOT)
    ensures NormSq(C(0.0, -1.0)) == 1.0
  {
  }

  lemma HalfTurnKernelY()
    ensures Sim.RyKernel(0.0, 1.0) == Rephased(C(0.0, -1.0), Sim.YKERNEL)
  {
  }

  lemma HalfTurnAngle(trig: Trig, sim: Sim.Trig)
    requires TrigsAgree(trig, sim)
    ensures trig.cosHalf(trig.pi) == 0.0 && trig.sinHalf(trig.pi) == 1.0
  {
  }

  /** Half turns about X and Y are the gates times -i. */
  lemma HalfTurns(trig: Trig, sim: Sim.Trig)
    requires TrigsAgree(trig, sim)
    ensures AxisKernel(trig, X, trig.pi) == Rephased(C(0.0, -1.0), S.NOT)
    ensures AxisKernel(trig, Y, trig.pi) == Rephased(C(0.0, -1.0), Sim.YKERNEL)
    ensures NormSq(C(0.0, -1.0)) == 1.0
  {
    hide TrigsAgree, Rephased, S.NOT, Sim.YKERNEL, Sim.RxKernel, Sim.RyKernel, NormSq;
    HalfTurnAngle(trig, sim);
    HalfTurnKernels();
    HalfTurnKernelY();
  }

  lemma RootKernels(r: real)
    requires Times(r, r) == 0.5
    ensures Sim.RxKernel(r, r) == Rephased(C(r, -r), SXKERNEL) && Sim.RxKernel(r, -r) == Rephased(C(r, r), SXDGKERNEL)
    ensures NormSq(C(r, -r)) == 1.0 && NormSq(C(r, r)) == 1.0
  {
  }

  /** The one-qubit gates with a fixed angle. */
  lemma FixedGates(n: nat, trig: Trig, sim: Sim.Trig, gate: Gate)
    requires TrigsAgree(trig, sim) && Wired(n, sim, gate)
    requires gate.PauliX? || gate.PauliY? || gate.Sx? || gate.Sxdg?
    ensures Agrees(n, trig, sim, gate, TurnsFor(gate, trig.pi).value)
  {
    hide TrigsAgree, Agrees, Rephased, NormSq, S.NOT, Sim.YKERNEL, AxisKernel, SXKERNEL, SXDGKERNEL;
    HalfTurns(trig, sim);
    FixedAngles(trig, sim);
    RootKernels(sim.rt2);
    QuarterAboutX(trig, sim);
    var h := trig.pi / 2.0;
    match gate
    case PauliX(q) => AgreesByAxis(n, trig, sim, gate, q, X, trig.pi, C(0.0, -1.0), S.NOT);
    case PauliY(q) => AgreesByAxis(n, trig, sim, gate, q, Y, trig.pi, C(0.0, -1.0), Sim.YKERNEL);
    case Sx(q) => AgreesByAxis(n, trig, sim, gate, q, X, h, C(sim.rt2, -sim.rt2), SXKERNEL);
    case Sxdg(q) => AgreesByAxis(n, trig, sim, gate, q, X, -h, C(sim.rt2, sim.rt2), SXDGKERNEL);
  }

  lemma QuarterAboutX(trig: Trig, sim: Sim.Trig)
    requires TrigsAgree(trig, sim)
    ensures var h := trig.pi / 2.0;
      AxisKernel(trig, X, h) == Sim.RxKernel(sim.rt2, sim.rt2) && AxisKernel(trig, X, -h) == Sim.RxKernel(sim.rt2, -sim.rt2)
  {
    FixedAngles(trig, sim);
    RootOfHalf(trig, sim);
  }

  /** The one-qubit gates that are phases. */
  lemma PhaseGates(n: nat, trig: Trig, sim: Sim.Trig, gate: Gate)
    requires TrigsAgree(trig, sim) && Wired(n, sim, gate)
    requires gate.PauliZ? || gate.S? || gate.Sdg? || gate.T? || gate.Tdg? || gate.Rz? || gate.U1?
    ensures Agrees(n, trig, sim, gate, TurnsFor(gate, trig.pi).value)
  {
    hide TrigsAgree, Agrees, AxisKernel, Sim.Trig.Cis, Sim.Phases, Sim.RzKernel, Wired, PhaseAngle, PhaseMatrix;
    PhaseTable(trig, sim, gate);
    var z := PhaseAxis(trig, sim, gate);
    WiredSingle(n, sim, gate, gate.q, PhaseMatrix(sim, gate));
    AgreesByAxis(n, trig, sim, gate, gate.q, Z, PhaseAngle(gate, trig.pi), z, PhaseMatrix(sim, gate));
  }

  /** The matrix of such a gate in the simulator's table. */
  function PhaseMatrix(sim: Sim.Trig, gate: Gate): S.Kernel {
    match gate
    case PauliZ(_) => Sim.Phases(ONE, C(-1.0, 0.0))
    case S(_) => Sim.Phases(ONE, C(0.0, 1.0))
    case Sdg(_) => Sim.Phases(ONE, C(0.0, -1.0))
    case T(_) => Sim.Phases(ONE, sim.Cis(sim.quarterPi))
    case Tdg(_) => Sim.Phases(ONE, sim.Cis(-sim.quarterPi))
    case Rz(_, theta) => Sim.RzKernel(sim, theta)
    case U1(_, theta) => Sim.Phases(ONE, sim.Cis(theta))
    case _ => SAME
  }

  lemma PhaseTable(trig: Trig, sim: Sim.Trig, gate: Gate)
    requires gate.PauliZ? || gate.S? || gate.Sdg? || gate.T? || gate.Tdg? || gate.Rz? || gate.U1?
    ensures ActionFor(sim, gate) == Sim.Mix(S.Single(gate.q), PhaseMatrix(sim, gate))
    ensures TurnsFor(gate, trig.pi) == Some([One(gate.q, Z, PhaseAngle(gate, trig.pi))])
  {
    hide Sim.Phases, Sim.RzKernel, Sim.Trig.Cis;
  }

  /** The rotation about Z is the gate's matrix times a phase. */
  lemma PhaseAxis(trig: Trig, sim: Sim.Trig, gate: Gate) returns (z: Complex)
    requires TrigsAgree(trig, sim)
    requires gate.PauliZ? || gate.S? || gate.Sdg? || gate.T? || gate.Tdg? || gate.Rz? || gate.U1?
    ensures NormSq(z) == 1.0 && AxisKernel(trig, Z, PhaseAngle(gate, trig.pi)) == Rephased(z, PhaseMatrix(sim, gate))
  {
    hide TrigsAgree, Rephased, NormSq, AxisKernel, Half, Sim.Trig.Cis, Sim.Phases, Sim.RzKernel;
    var p, t := trig.pi, PhaseAngle(gate, trig.pi);
    assert sim.quarterPi == p / 4.0 by { QuarterPi(trig, sim); }
    FixedAngles(trig, sim);
    PhaseKernel(trig, sim, t);
    HalfIsCis(trig, sim, -t);
    HalfIsCis(trig, sim, 2.0 * t);
    assert 2.0 * (p / 2.0) == p && 2.0 * -(p / 2.0) == -p && 2.0 * (p / 4.0) / 2.0 == p / 4.0 && 2.0 * -(p / 4.0) / 2.0 == -(p / 4.0) && 2.0 * t / 2.0 == t;
    RephasedOne(Sim.RzKernel(sim, t));
    z := if gate.Rz? then ONE else Half(trig, -t);
  }

  function PhaseAngle(gate: Gate, pi: real): real {
    match gate
    case PauliZ(_) => pi
    case S(_) => pi / 2.0
    case Sdg(_) => -(pi / 2.0)
    case T(_) => pi / 4.0
    case Tdg(_) => -(pi / 4.0)
    case Rz(_, theta) => theta
    case U1(_, theta) => theta
    case _ => 0.0
  }

  lemma QuarterPi(trig: Trig, sim: Sim.Trig)
    requires TrigsAgree(trig, sim)
    ensures sim.quarterPi == trig.pi / 4.0 && sim.halfPi == trig.pi / 2.0
  {
  }

  // ---- the one-qubit gates with free angles, and the Hadamard

  lemma TiltGate(n: nat, trig: Trig, sim: Sim.Trig, gate: Gate)
    requires TrigsAgree(trig, sim) && Wired(n, sim, gate) && (gate.Rx? || gate.Ry?)
    ensures Agrees(n, trig, sim, gate, [One(gate.q, if gate.Rx? then X else Y, gate.theta)])
  {
    hide TrigsAgree, Agrees, Rephased, NormSq, AxisKernel, Wired, Sim.RxKernel, Sim.RyKernel;
    var c, s := sim.cos(gate.theta / 2.0), sim.sin(gate.theta / 2.0);
    var k := if gate.Rx? then Sim.RxKernel(c, s) else Sim.RyKernel(c, s);
    TiltKernels(trig, sim, gate.theta);
    RephasedOne(k);
    WiredSingle(n, sim, gate, gate.q, k);
    AgreesByAxis(n, trig, sim, gate, gate.q, if gate.Rx? then X else Y, gate.theta, ONE, k);
  }

  lemma HadamardGate(n: nat, trig: Trig, sim: Sim.Trig, q: nat)
    requires TrigsAgree(trig, sim) && Wired(n, sim, H(q))
    ensures Agrees(n, trig, sim, H(q), HTurns(q, trig.pi))
  {
    hide TrigsAgree, Agrees, Sim.HKernel, Amounts, HTurns;
    HadamardAmounts(n, trig, sim, q);
    AgreesByFamily(n, trig, sim, H(q), HTurns(q, trig.pi), Constant(Sim.HKernel(sim.rt2)));
  }

  lemma EulerGate(n: nat, trig: Trig, sim: Sim.Trig, gate: Gate, q: nat, theta: real, phi: real, lam: real)
    requires TrigsAgree(trig, sim) && Wired(n, sim, gate)
    requires ActionFor(sim, gate) == Sim.Mix(S.Single(q), Sim.U3Kernel(sim, theta, phi, lam))
    ensures Agrees(n, trig, sim, gate, [One(q, Z, lam), One(q, Y, theta), One(q, Z, phi)])
  {
    hide TrigsAgree, Agrees, Rephased, NormSq, AxisKernel, Half, Sim.U3Kernel, Composed, Wired, ActionFor;
    WiredSingle(n, sim, gate, q, Sim.U3Kernel(sim, theta, phi, lam));
    EulerKernel(trig, sim, theta, phi, lam);
    HalfIsCis(trig, sim, -phi - lam);
    AgreesByThree(n, trig, sim, gate, q, lam, theta, phi, Half(trig, -phi - lam), Sim.U3Kernel(sim, theta, phi, lam));
  }

  lemma AngleGates(n: nat, trig: Trig, sim: Sim.Trig, gate: Gate)
    requires TrigsAgree(trig, sim) && Wired(n, sim, gate)
    requires gate.H? || gate.Rx? || gate.Ry? || gate.U3? || gate.U2?
    ensures Agrees(n, trig, sim, gate, TurnsFor(gate, trig.pi).value)
  {
    hide TrigsAgree, Agrees, Sim.U3Kernel, Sim.HKernel, HTurns;
    assert sim.halfPi == trig.pi / 2.0 by { QuarterPi(trig, sim); }
    match gate
    case H(q) => HadamardGate(n, trig, sim, q);
    case Rx(_, _) => TiltGate(n, trig, sim, gate);
    case Ry(_, _) => TiltGate(n, trig, sim, gate);
    case U3(q, theta, phi, lam) => EulerGate(n, trig, sim, gate, q, theta, phi, lam);
    case U2(q, phi, lam) => EulerGate(n, trig, sim, gate, q, trig.pi / 2.0, phi, lam);
  }

  lemma TiltKernels(trig: Trig, sim: Sim.Trig, t: real)
    requires TrigsAgree(trig, sim)
    ensures AxisKernel(trig, X, t) == Sim.RxKernel(sim.cos(t / 2.0), sim.sin(t / 2.0))
    ensures AxisKernel(trig, Y, t) == Sim.RyKernel(sim.cos(t / 2.0), sim.sin(t / 2.0))
  {
    SameAngle(trig, sim, t);
  }

  // ---- the gates with one control

  lemma AgreesUnderControl(n: nat, trig: Trig, sim: Sim.Trig, gate: Gate, q: nat, r: nat, turns: seq<PauliTurn>, k: S.Kernel)
    requires Wired(n, sim, gate) && ActionFor(sim, gate) == Sim.Mix(S.Controlled(q, r), k)
    requires TurnsInRange(n, turns) && q < n && r < n && Amounts(n, trig, turns, Unit(n, r), r, WhereSet(q, k))
    ensures Agrees(n, trig, sim, gate, turns)
  {
    hide Agrees, Amounts, ActionFor;
    AgreesByFamily(n, trig, sim, gate, turns, WhereSet(q, k));
  }

  lemma WiredControl(n: nat, sim: Sim.Trig, gate: Gate, q: nat, r: nat, k: S.Kernel)
    requires Wired(n, sim, gate) && ActionFor(sim, gate) == Sim.Mix(S.Controlled(q, r), k)
    ensures q < n && r < n && q != r
  {
    hide ActionFor;
  }

  lemma ControlledX(n: nat, trig: Trig, sim: Sim.Trig, q: nat, r: nat)
    requires TrigsAgree(trig, sim) && Wired(n, sim, CX(q, r))
    ensures Agrees(n, trig, sim, CX(q, r), CXTurns(q, r, trig.pi))
  {
    hide TrigsAgree, Agrees, Amounts, CXTurns, S.NOT, Wired, WhereSet, TurnInRange;
    WiredControl(n, sim, CX(q, r), q, r, S.NOT);
    CXAmounts(n, trig, sim, q, r);
    AgreesUnderControl(n, trig, sim, CX(q, r), q, r, CXTurns(q, r, trig.pi), S.NOT);
  }

  function CYTurns(q: nat, r: nat, pi: real): seq<PauliTurn> {
    [One(r, Z, -(pi / 2.0))] + CXTurns(q, r, pi) + [One(r, Z, pi / 2.0)]
  }

  lemma ControlledY(n: nat, trig: Trig, sim: Sim.Trig, q: nat, r: nat)
    requires TrigsAgree(trig, sim) && Wired(n, sim, CY(q, r))
    ensures Agrees(n, trig, sim, CY(q, r), CYTurns(q, r, trig.pi))
  {
    hide TrigsAgree, Agrees, Amounts, CXTurns, Sim.YKERNEL, Wired, WhereSet, TurnInRange;
    WiredControl(n, sim, CY(q, r), q, r, Sim.YKERNEL);
    CYAmounts(n, trig, sim, q, r);
    AgreesUnderControl(n, trig, sim, CY(q, r), q, r, CYTurns(q, r, trig.pi), Sim.YKERNEL);
  }

  lemma ControlledZ(n: nat, trig: Trig, sim: Sim.Trig, q: nat, r: nat)
    requires TrigsAgree(trig, sim) && Wired(n, sim, CZ(q, r))
    ensures Agrees(n, trig, sim, CZ(q, r), CPTurns(q, r, trig.pi))
  {
    hide TrigsAgree, Agrees, Amounts, CPTurns, Sim.Phases, Wired, WhereSet, TurnInRange, Half;
    WiredControl(n, sim, CZ(q, r), q, r, Sim.Phases(ONE, C(-1.0, 0.0)));
    CPAmounts(n, trig, sim, q, r, trig.pi);
    FixedAngles(trig, sim);
    AgreesUnderControl(n, trig, sim, CZ(q, r), q, r, CPTurns(q, r, trig.pi), Sim.Phases(ONE, C(-1.0, 0.0)));
  }

  lemma ControlledRz(n: nat, trig: Trig, sim: Sim.Trig, q: nat, r: nat, theta: real)
    requires TrigsAgree(trig, sim) && Wired(n, sim, CRz(q, r, theta))
    ensures Agrees(n, trig, sim, CRz(q, r, theta), [One(r, Z, theta / 2.0), Two(q, Z, r, Z, -(theta / 2.0))])
  {
    hide TrigsAgree, Agrees, Amounts, Sim.RzKernel, Wired, WhereSet, TurnInRange;
    WiredControl(n, sim, CRz(q, r, theta), q, r, Sim.RzKernel(sim, theta));
    CRzAmounts(n, trig, sim, q, r, theta);
    AgreesUnderControl(n, trig, sim, CRz(q, r, theta), q, r, [One(r, Z, theta / 2.0), Two(q, Z, r, Z, -(theta / 2.0))], Sim.RzKernel(sim, theta));
  }

  lemma ControlledU3(n: nat, trig: Trig, sim: Sim.Trig, q: nat, r: nat, theta: real, phi: real, lam: real)
    requires TrigsAgree(trig, sim) && Wired(n, sim, CU3(q, r, theta, phi, lam)) && Untilted(sim, theta, phi)
    ensures Agrees(n, trig, sim, CU3(q, r, theta, phi, lam), CPTurns(q, r, lam))
  {
    hide TrigsAgree, Agrees, Amounts, CPTurns, Sim.U3Kernel, Sim.Phases, Wired, WhereSet, TurnInRange, Half, Untilted;
    var gate, k := CU3(q, r, theta, phi, lam), Sim.U3Kernel(sim, theta, phi, lam);
    WiredControl(n, sim, gate, q, r, k);
    CPAmounts(n, trig, sim, q, r, lam);
    UntiltedKernel(trig, sim, theta, phi, lam);
    AgreesUnderControl(n, trig, sim, gate, q, r, CPTurns(q, r, lam), k);
  }

  lemma ControlledGates(n: nat, trig: Trig, sim: Sim.Trig, gate: Gate)
    requires TrigsAgree(trig, sim) && Wired(n, sim, gate) && Exact(sim, gate)
    requires gate.CX? || gate.CY? || gate.CZ? || gate.CRz? || (gate.CU3? && TurnsFor(gate, trig.pi).Some?)
    ensures Agrees(n, trig, sim, gate, TurnsFor(gate, trig.pi).value)
  {
    hide TrigsAgree, Agrees, Wired, Untilted, CXTurns, CPTurns;
    match gate
    case CX(q, r) => ControlledX(n, trig, sim, q, r);
    case CY(q, r) => ControlledY(n, trig, sim, q, r);
    case CZ(q, r) => ControlledZ(n, trig, sim, q, r);
    case CRz(q, r, theta) => ControlledRz(n, trig, sim, q, r, theta);
    case CU3(q, r, theta, phi, lam) => ControlledU3(n, trig, sim, q, r, theta, phi, lam);
  }

  /** The doubly controlled gate and the exchange. */
  lemma WiderGates(n: nat, trig: Trig, sim: Sim.Trig, gate: Gate)
    requires TrigsAgree(trig, sim) && Wired(n, sim, gate) && (gate.CCX? || gate.Swap?)
    ensures Agrees(n, trig, sim, gate, TurnsFor(gate, trig.pi).value)
  {
    hide TrigsAgree, Agrees, Amounts, CCXTurns, Composed, S.NOT;
    match gate
    case CCX(q, r, t) =>
      CCXAmounts(n, trig, sim, q, r, t);
      AgreesByFamily(n, trig, sim, gate, CCXTurns(q, r, t, trig.pi), WhereBoth(q, r, S.NOT));
    case Swap(q, r) =>
      SwapAmounts(n, trig, sim, q, r);
      var h := trig.pi / 2.0;
      AgreesByFamily(n, trig, sim, gate, [Two(q, X, r, X, -h), Two(q, Y, r, Y, -h), Two(q, Z, r, Z, -h)], WhereOdd(q, r, S.NOT));
  }

  /** Seen from the other qubit, the pairs with differing bits change sides. */
  lemma OtherSide(n: nat, q: nat, r: nat, c: real, s: real, psi: Vector)
    requires q < n && r < n && q != r
    ensures var w := S.Exchange(r, q);
      w.Valid(n) &&
      SameVector(n, Mixed(n, UnitPair(n, q, r), r, WhereOdd(q, r, GivensBack(c, s)), psi),
                 Mixed(n, UnitPair(n, r, q), q, GateFamily(n, w, S.Givens(c, s)), psi))
  {
    hide Mul, Add;
    var w := S.Exchange(r, q);
    assert UnitPair(n, q, r) == UnitPair(n, r, q);
    forall o | |o| == n
      ensures Mixed(n, UnitPair(n, q, r), r, WhereOdd(q, r, GivensBack(c, s)), psi)(o) ==
        Mixed(n, UnitPair(n, r, q), q, GateFamily(n, w, S.Givens(c, s)), psi)(o)
    {
      var p := Xor(o, UnitPair(n, q, r));
      AddTurned(Mul(C(c, 0.0), psi(o)), Mul(C(s, 0.0), psi(p)));
      AddTurned(Mul(C(c, 0.0), psi(o)), Mul(C(-s, 0.0), psi(p)));
      SameActs(psi(o), psi(p));
      SameActs(psi(p), psi(o));
    }
  }

  lemma AddTurned(a: Complex, b: Complex)
    ensures Add(a, b) == Add(b, a)
  {
  }

  lemma GivensGate(n: nat, trig: Trig, sim: Sim.Trig, q: nat, r: nat, theta: real)
    requires TrigsAgree(trig, sim) && Wired(n, sim, Rbs(q, r, theta))
    ensures Agrees(n, trig, sim, Rbs(q, r, theta), TurnsFor(Rbs(q, r, theta), trig.pi).value)
  {
    hide TrigsAgree, Amounts, Mixed, AllTurned, Alike, TurnInRange, GateFamily, WhereOdd, GivensBack, S.Givens;
    var gate, c, s := Rbs(q, r, theta), sim.cos(theta), sim.sin(theta);
    var turns := [Two(q, Y, r, X, theta), Two(q, X, r, Y, -theta)];
    RbsAmounts(n, trig, sim, q, r, theta);
    forall psi: Vector ensures AgreesOn(n, trig, sim, gate, turns, psi) {
      AmountsOn(n, trig, turns, UnitPair(n, q, r), r, WhereOdd(q, r, GivensBack(c, s)), psi);
      OtherSide(n, q, r, c, s, psi);
      var u, v := Mixed(n, UnitPair(n, q, r), r, WhereOdd(q, r, GivensBack(c, s)), psi), Done(n, ActionFor(sim, gate), psi);
      SameIsAlike(n, u, v);
      AlikeChain(n, AllTurned(n, trig, turns, |turns|, psi), u, v);
    }
  }

  // ---- the controlled exchange, three controlled flips in a row

  lemma NotKernel(a: Complex, b: Complex)
    ensures S.NOT.Upper(a, b) == b && S.NOT.Lower(a, b) == a
  {
    S.NotSwaps(a, b);
  }

  lemma FlipWhereSet(n: nat, c: nat, r: nat, psi: Vector, o: Bits)
    requires c < n && r < n && |o| == n
    ensures Mixed(n, Unit(n, r), r, WhereSet(c, S.NOT), psi)(o) == psi(if o[c] then Flip(o, r) else o)
  {
    hide S.Kernel.Upper, S.Kernel.Lower, S.NOT, SAME;
    var p := Xor(o, Unit(n, r));
    assert p == Flip(o, r);
    NotKernel(psi(o), psi(p));
    NotKernel(psi(p), psi(o));
    SameActs(psi(o), psi(p));
    SameActs(psi(p), psi(o));
  }

  lemma FlipWhereBoth(n: nat, c: nat, d: nat, r: nat, psi: Vector, o: Bits)
    requires c < n && d < n && r < n && |o| == n
    ensures Mixed(n, Unit(n, r), r, WhereBoth(c, d, S.NOT), psi)(o) == psi(if o[c] && o[d] then Flip(o, r) else o)
  {
    hide S.Kernel.Upper, S.Kernel.Lower, S.NOT, SAME;
    var p := Xor(o, Unit(n, r));
    assert p == Flip(o, r);
    NotKernel(psi(o), psi(p));
    NotKernel(psi(p), psi(o));
    SameActs(psi(o), psi(p));
    SameActs(psi(p), psi(o));
  }

  /** A matrix that exchanges or keeps the members of a pair. */
  lemma MixedByNot(n: nat, mask: Bits, q: nat, fam: Family, psi: Vector, o: Bits)
    requires |mask| == |o| == n && q < n && (fam(o) == S.NOT || fam(o) == SAME)
    ensures fam(o) == S.NOT ==> Mixed(n, mask, q, fam, psi)(o) == psi(Xor(o, mask))
    ensures fam(o) == SAME ==> Mixed(n, mask, q, fam, psi)(o) == psi(o)
  {
    hide S.Kernel.Upper, S.Kernel.Lower, S.NOT, SAME;
    var p := Xor(o, mask);
    NotKernel(psi(o), psi(p));
    NotKernel(psi(p), psi(o));
    SameActs(psi(o), psi(p));
    SameActs(psi(p), psi(o));
  }

  lemma ExchangeFamily(n: nat, sim: Sim.Trig, q: nat, r: nat, t: nat, psi: Vector)
    requires q < n && r < n && t < n && q != r && q != t && r != t
    ensures Done(n, ActionFor(sim, CSwap(q, r, t)), psi) ==
      Mixed(n, UnitPair(n, r, t), t, GateFamily(n, S.ControlledExchange(q, r, t), S.NOT), psi)
  {
    hide Mixed, GateFamily, S.NOT;
  }

  lemma ExchangeWhereSet(n: nat, sim: Sim.Trig, q: nat, r: nat, t: nat, psi: Vector, o: Bits)
    requires q < n && r < n && t < n && q != r && q != t && r != t && |o| == n
    ensures Done(n, ActionFor(sim, CSwap(q, r, t)), psi)(o) == psi(if o[q] && o[r] != o[t] then Flip(Flip(o, r), t) else o)
  {
    hide Mixed, Done, ActionFor, S.NOT, SAME;
    var fam := GateFamily(n, S.ControlledExchange(q, r, t), S.NOT);
    assert Xor(o, UnitPair(n, r, t)) == Flip(Flip(o, r), t);
    ExchangeFamily(n, sim, q, r, t, psi);
    MixedByNot(n, UnitPair(n, r, t), t, fam, psi, o);
  }

  /** Controlled flips of r by t, of t by q and r, and of r by t again. */
  lemma ThreeFlips(n: nat, sim: Sim.Trig, q: nat, r: nat, t: nat, psi: Vector)
    requires q < n && r < n && t < n && q != r && q != t && r != t
    ensures var a, b := WhereSet(t, S.NOT), WhereBoth(q, r, S.NOT);
      SameVector(n, Mixed(n, Unit(n, r), r, a, Mixed(n, Unit(n, t), t, b, Mixed(n, Unit(n, r), r, a, psi))),
                 Done(n, ActionFor(sim, CSwap(q, r, t)), psi))
  {
    hide Mixed, Done, WhereSet, WhereBoth;
    var a, b := WhereSet(t, S.NOT), WhereBoth(q, r, S.NOT);
    var u := Mixed(n, Unit(n, r), r, a, psi);
    var v := Mixed(n, Unit(n, t), t, b, u);
    forall o | |o| == n ensures Mixed(n, Unit(n, r), r, a, v)(o) == Done(n, ActionFor(sim, CSwap(q, r, t)), psi)(o) {
      var x := if o[t] then Flip(o, r) else o;
      var y := if x[q] && x[r] then Flip(x, t) else x;
      var z := if y[t] then Flip(y, r) else y;
      FlipWhereSet(n, t, r, v, o);
      FlipWhereBoth(n, q, r, t, u, x);
      FlipWhereSet(n, t, r, psi, y);
      ExchangeWhereSet(n, sim, q, r, t, psi, o);
      assert z == if o[q] && o[r] != o[t] then Flip(Flip(o, r), t) else o;
    }
  }

  lemma ExchangeGate(n: nat, trig: Trig, sim: Sim.Trig, q: nat, r: nat, t: nat)
    requires TrigsAgree(trig, sim) && Wired(n, sim, CSwap(q, r, t))
    ensures Agrees(n, trig, sim, CSwap(q, r, t), TurnsFor(CSwap(q, r, t), trig.pi).value)
  {
    hide TrigsAgree, Amounts, Mixed, AllTurned, Alike, TurnInRange, WhereSet, WhereBoth, CXTurns, CCXTurns;
    var gate := CSwap(q, r, t);
    var c, d := CXTurns(t, r, trig.pi), CCXTurns(q, r, t, trig.pi);
    CXAmounts(n, trig, sim, t, r);
    CCXAmounts(n, trig, sim, q, r, t);
    RangesAppend(n, c, d);
    RangesAppend(n, c + d, c);
    forall psi: Vector ensures AgreesOn(n, trig, sim, gate, c + d + c, psi) {
      var a, b := WhereSet(t, S.NOT), WhereBoth(q, r, S.NOT);
      var u1 := AllTurned(n, trig, c, |c|, psi);
      var v1 := Mixed(n, Unit(n, r), r, a, psi);
      AmountsOn(n, trig, c, Unit(n, r), r, a, psi);
      var u2, v2 := AllTurned(n, trig, d, |d|, u1), Mixed(n, Unit(n, t), t, b, v1);
      TurnedAlike(n, trig, d, u1, v1, Unit(n, t), t, b);
      var u3, v3 := AllTurned(n, trig, c, |c|, u2), Mixed(n, Unit(n, r), r, a, v2);
      TurnedAlike(n, trig, c, u2, v2, Unit(n, r), r, a);
      TurnedAppend(n, trig, c, d, |d|, psi);
      TurnedAppend(n, trig, c + d, c, |c|, psi);
      ThreeFlips(n, sim, q, r, t, psi);
      SameIsAlike(n, v3, Done(n, ActionFor(sim, gate), psi));
      AlikeChain(n, u3, v3, Done(n, ActionFor(sim, gate), psi));
    }
  }

  lemma TurnedAlike(n: nat, trig: Trig, turns: seq<PauliTurn>, u: Vector, v: Vector, mask: Bits, q: nat, fam: Family)
    requires TurnsInRange(n, turns) && |mask| == n && q < n && Amounts(n, trig, turns, mask, q, fam) && Alike(n, u, v)
    ensures Alike(n, AllTurned(n, trig, turns, |turns|, u), Mixed(n, mask, q, fam, v))
  {
    hide Mixed, AllTurned, Alike, Amounts;
    TurnsRespect(n, trig, turns, |turns|, u, v);
    AmountsOn(n, trig, turns, mask, q, fam, v);
    AlikeChain(n, AllTurned(n, trig, turns, |turns|, u), AllTurned(n, trig, turns, |turns|, v), Mixed(n, mask, q, fam, v));
  }

  // ---- the whole table

  /** A controlled tilt that the table drops is told apart unless it does nothing. */
  lemma TiltTold(n: nat, trig: Trig, sim: Sim.Trig, gate: Gate)
    requires TrigsAgree(trig, sim) && Wired(n, sim, gate) && gate.CU3? && TurnsFor(gate, trig.pi).Some?
    requires Agrees(n, trig, sim, gate, TurnsFor(gate, trig.pi).value)
    ensures Untilted(sim, gate.theta, gate.phi)
  {
    hide TrigsAgree, Amounts, Mixed, AllTurned, Alike, TurnInRange, CPTurns, Sim.U3Kernel, Sim.Phases, Half, WhereSet, Untilted;
    var q, r, lam := gate.q, gate.r, gate.lam;
    var d, k := Sim.Phases(ONE, Half(trig, 2.0 * lam)), Sim.U3Kernel(sim, gate.theta, gate.phi, lam);
    CPAmounts(n, trig, sim, q, r, lam);
    forall psi: Vector
      ensures Alike(n, Mixed(n, Unit(n, r), r, WhereSet(q, d), psi), Mixed(n, Unit(n, r), r, WhereSet(q, k), psi))
    {
      var turned := AllTurned(n, trig, CPTurns(q, r, lam), |CPTurns(q, r, lam)|, psi);
      AmountsOn(n, trig, CPTurns(q, r, lam), Unit(n, r), r, WhereSet(q, d), psi);
      assert AgreesOn(n, trig, sim, gate, CPTurns(q, r, lam), psi);
      DoneUnderControl(n, sim, gate, psi);
      SameIsAlike(n, Done(n, ActionFor(sim, gate), psi), Mixed(n, Unit(n, r), r, WhereSet(q, k), psi));
      AlikeBack(n, turned, Mixed(n, Unit(n, r), r, WhereSet(q, d), psi));
      AlikeChain(n, Mixed(n, Unit(n, r), r, WhereSet(q, d), psi), turned, Done(n, ActionFor(sim, gate), psi));
      AlikeChain(n, Mixed(n, Unit(n, r), r, WhereSet(q, d), psi), Done(n, ActionFor(sim, gate), psi),
                 Mixed(n, Unit(n, r), r, WhereSet(q, k), psi));
    }
    ControlTells(n, q, r, d, k);
    PhaseIsUntilted(trig, sim, gate.theta, gate.phi, lam);
  }

  lemma DoneUnderControl(n: nat, sim: Sim.Trig, gate: Gate, psi: Vector)
    requires gate.CU3? && Wired(n, sim, gate)
    ensures gate.q < n && gate.r < n && gate.q != gate.r
    ensures SameVector(n, Done(n, ActionFor(sim, gate), psi),
      Mixed(n, Unit(n, gate.r), gate.r, WhereSet(gate.q, Sim.U3Kernel(sim, gate.theta, gate.phi, gate.lam)), psi))
  {
    hide Sim.U3Kernel, Mixed;
    var act := ActionFor(sim, gate);
    MixedSame(n, Unit(n, gate.r), gate.r, GateFamily(n, act.wires, act.kernel), WhereSet(gate.q, act.kernel), psi, psi);
  }

  lemma AlikeBack(n: nat, a: Vector, b: Vector)
    requires Alike(n, a, b)
    ensures Alike(n, b, a)
  {
    hide Mul, NormSq;
    var p :| AlikeBy(n, p, a, b);
    UnitInverse(p);
    forall o | |o| == n ensures b(o) == Multiplied(Conj(p), a)(o) {
      assert a(o) == Mul(p, b(o));
      MulAssociative(Conj(p), p, b(o));
      MulOne(b(o));
    }
    assert AlikeBy(n, Conj(p), b, a);
  }

  lemma UnitInverse(p: Complex)
    requires NormSq(p) == 1.0
    ensures Mul(Conj(p), p) == ONE && NormSq(Conj(p)) == 1.0
  {
  }

  /**
    Every entry of the engine's table is the gate's matrix on its pairs of amplitudes,
    up to a global phase, which no expectation can see; the one exception is a CU3
    whose dropped tilts do something.
  */
  lemma TableAgrees(n: nat, trig: Trig, sim: Sim.Trig, gate: Gate)
    requires TrigsAgree(trig, sim) && Wired(n, sim, gate) && TurnsFor(gate, trig.pi).Some?
    ensures Agrees(n, trig, sim, gate, TurnsFor(gate, trig.pi).value) <==> Exact(sim, gate)
  {
    hide TrigsAgree, Agrees, Untilted, ActionFor, TurnsFor;
    if Exact(sim, gate) {
      EntryAgrees(n, trig, sim, gate);
    } else if Agrees(n, trig, sim, gate, TurnsFor(gate, trig.pi).value) {
      TiltTold(n, trig, sim, gate);
    }
  }

  /** Where cosine is below one but at zero, a tilt within the threshold is dropped harmlessly only if it is zero. */
  lemma SmallTiltIsDropped(n: nat, trig: Trig, sim: Sim.Trig, q: nat, r: nat, theta: real, phi: real, lam: real)
    requires TrigsAgree(trig, sim) && Wired(n, sim, CU3(q, r, theta, phi, lam)) && forall t :: 0.0 < Abs(t) < 1.0 ==> sim.cos(t) < 1.0
    requires Abs(theta) <= 1e-12 && Abs(phi) <= 1e-12
    ensures var gate := CU3(q, r, theta, phi, lam);
      && TurnsFor(gate, trig.pi).Some?
      && (Agrees(n, trig, sim, gate, TurnsFor(gate, trig.pi).value) <==> theta == 0.0 && phi == 0.0)
  {
    hide TrigsAgree, Agrees, ActionFor;
    var gate := CU3(q, r, theta, phi, lam);
    assert TurnsFor(gate, trig.pi).Some?;
    TableAgrees(n, trig, sim, gate);
    ZeroTilts(trig, sim);
    if theta != 0.0 {
      assert 0.0 < Abs(theta / 2.0) < 1.0;
    }
  }

  lemma EntryAgrees(n: nat, trig: Trig, sim: Sim.Trig, gate: Gate)
    requires TrigsAgree(trig, sim) && Wired(n, sim, gate) && Exact(sim, gate) && TurnsFor(gate, trig.pi).Some?
    ensures Agrees(n, trig, sim, gate, TurnsFor(gate, trig.pi).value)
  {
    hide TrigsAgree, Agrees;
    match gate
    case PauliX(_) => FixedGates(n, trig, sim, gate);
    case PauliY(_) => FixedGates(n, trig, sim, gate);
    case Sx(_) => FixedGates(n, trig, sim, gate);
    case Sxdg(_) => FixedGates(n, trig, sim, gate);
    case PauliZ(_) => PhaseGates(n, trig, sim, gate);
    case S(_) => PhaseGates(n, trig, sim, gate);
    case Sdg(_) => PhaseGates(n, trig, sim, gate);
    case T(_) => PhaseGates(n, trig, sim, gate);
    case Tdg(_) => PhaseGates(n, trig, sim, gate);
    case Rz(_, _) => PhaseGates(n, trig, sim, gate);
    case U1(_, _) => PhaseGates(n, trig, sim, gate);
    case H(_) => AngleGates(n, trig, sim, gate);
    case Rx(_, _) => AngleGates(n, trig, sim, gate);
    case Ry(_, _) => AngleGates(n, trig, sim, gate);
    case U3(_, _, _, _) => AngleGates(n, trig, sim, gate);
    case U2(_, _, _) => AngleGates(n, trig, sim, gate);
    case CX(_, _) => ControlledGates(n, trig, sim, gate);
    case CY(_, _) => ControlledGates(n, trig, sim, gate);
    case CZ(_, _) => ControlledGates(n, trig, sim, gate);
    case CRz(_, _, _) => ControlledGates(n, trig, sim, gate);
    case CU3(_, _, _, _, _) => ControlledGates(n, trig, sim, gate);
    case CCX(_, _, _) => WiderGates(n, trig, sim, gate);
    case Swap(_, _) => WiderGates(n, trig, sim, gate);
    case Rbs(q, r, theta) => GivensGate(n, trig, sim, q, r, theta);
    case CSwap(q, r, t) => ExchangeGate(n, trig, sim, q, r, t);
    case Id => NothingToDo(n, trig, sim, gate);
    case Barrier => NothingToDo(n, trig, sim, gate);
    case Measure => NothingToDo(n, trig, sim, gate);
    case Other =>
  }

  lemma NothingToDo(n: nat, trig: Trig, sim: Sim.Trig, gate: Gate)
    requires Wired(n, sim, gate) && (gate.Id? || gate.Barrier? || gate.Measure?)
    ensures Agrees(n, trig, sim, gate, [])
  {
    hide Alike;
    forall psi: Vector ensures AgreesOn(n, trig, sim, gate, [], psi) {
      SameIsAlike(n, psi, psi);
    }
  }
}
