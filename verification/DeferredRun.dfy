/**
  What a circuit with measurements does to a state, outcome by outcome, and what its
  deferred form does: the readings over all outcomes are those of the deferred state
  split over the values of the qubits whose outcome was used.
*/
module DeferredRun {
  import opened Wrappers
  import opened Bits
  import opened ComplexNumbers
  import opened Majorana
  import opened MajoranaFock
  import opened MajoranaGates
  import opened PairMaps
  import opened TurnMaps
  import opened GateAgreement
  import opened CrossCheck
  import opened DeferMeasure
  import S = Statevector
  import Sim = Simulator

  /** The gate applied, where its wires exist. */
  ghost function Stepped(n: nat, sim: Sim.Trig, gate: Gate, psi: Vector): Vector {
    if Wired(n, sim, gate) then Done(n, ActionFor(sim, gate), psi) else psi
  }

  /** The part of the state in which qubit q has value v. */
  ghost function Projected(q: nat, v: bool, psi: Vector): Vector {
    o => if q < |o| && o[q] == v then psi(o) else ZERO
  }

  // ---- the run, outcome by outcome

  /** A later operation reads bit c before it is written again. */
  predicate Live(ops: seq<Instr>, c: nat, k: nat)
    requires k <= |ops|
    decreases |ops| - k
  {
    k < |ops| && !ops[k].Writes(c) && (ops[k].Reads(c) || Live(ops, c, k + 1))
  }

  /** A measurement whose outcome is read; the others are taken to be readout lines, as the prepared state is asked for. */
  predicate Consequential(ops: seq<Instr>, k: nat)
    requires k < |ops|
  {
    ops[k].Measured().Some? && ops[k].cbit.Some? && Live(ops, ops[k].cbit.value, k + 1)
  }

  predicate Fires(op: Instr, bits: map<nat, bool>) {
    op.condition.None? || (op.condition.value.cbit in bits && bits[op.condition.value.cbit])
  }

  /**
    The reading over all outcomes: each measurement whose outcome is read splits the
    state in two, unnormalised so that the weight of a branch is its probability, and
    records the bit; a conditioned gate acts where its bit is set.
  */
  ghost function Mixture(n: nat, sim: Sim.Trig, ops: seq<Instr>, k: nat, bits: map<nat, bool>, psi: Vector, read: Vector -> real): real
    requires k <= |ops| && Deferrable(ops)
    decreases |ops| - k
  {
    if k == |ops| then read(psi)
    else if Consequential(ops, k) then
      var q, c := ops[k].Measured().value, ops[k].cbit.value;
      Mixture(n, sim, ops, k + 1, bits[c := false], Projected(q, false, psi), read) +
      Mixture(n, sim, ops, k + 1, bits[c := true], Projected(q, true, psi), read)
    else
      Mixture(n, sim, ops, k + 1, bits, if !ops[k].gate.Measure? && Fires(ops[k], bits) then Stepped(n, sim, ops[k].gate, psi) else psi, read)
  }

  // ---- the deferred run

  /** The state after the deferred operations from k on. */
  ghost function Rest(n: nat, sim: Sim.Trig, ops: seq<Instr>, k: nat, psi: Vector): Vector
    requires k <= |ops| && Deferrable(ops)
    decreases |ops| - k
  {
    if k == |ops| then psi
    else Rest(n, sim, ops, k + 1, if ops[k].gate.Measure? then psi else Stepped(n, sim, Emitted(ops, k), psi))
  }

  /** The qubits measured from k on whose outcome is read, in order. */
  function Split(ops: seq<Instr>, k: nat): seq<nat>
    requires k <= |ops|
    decreases |ops| - k
  {
    if k == |ops| then [] else (if Consequential(ops, k) then [ops[k].Measured().value] else []) + Split(ops, k + 1)
  }

  /** The readings over all values of the listed qubits. */
  ghost function SumOut(qs: seq<nat>, psi: Vector, read: Vector -> real): real {
    if qs == [] then read(psi)
    else SumOut(qs[1..], Projected(qs[0], false, psi), read) + SumOut(qs[1..], Projected(qs[0], true, psi), read)
  }

  // ---- equal states

  ghost predicate Respects(n: nat, read: Vector -> real) {
    forall psi: Vector, phi: Vector | SameVector(n, psi, phi) :: read(psi) == read(phi)
  }

  lemma SteppedSame(n: nat, sim: Sim.Trig, gate: Gate, psi: Vector, phi: Vector)
    requires SameVector(n, psi, phi)
    ensures SameVector(n, Stepped(n, sim, gate, psi), Stepped(n, sim, gate, phi))
  {
    hide SameVector, Done, ActionFor;
    if Wired(n, sim, gate) { MixedSameInput(n, ActionFor(sim, gate), psi, phi); }
  }

  lemma ProjectedSame(n: nat, q: nat, v: bool, psi: Vector, phi: Vector)
    requires SameVector(n, psi, phi)
    ensures SameVector(n, Projected(q, v, psi), Projected(q, v, phi))
  {
  }

  lemma {:induction false} RestSame(n: nat, sim: Sim.Trig, ops: seq<Instr>, k: nat, psi: Vector, phi: Vector)
    requires k <= |ops| && Deferrable(ops) && SameVector(n, psi, phi)
    ensures SameVector(n, Rest(n, sim, ops, k, psi), Rest(n, sim, ops, k, phi))
    decreases |ops| - k
  {
    hide SameVector, Stepped, Emitted, Settled;
    if k < |ops| {
      if ops[k].gate.Measure? {
        RestSame(n, sim, ops, k + 1, psi, phi);
      } else {
        var gate := Emitted(ops, k);
        SteppedSame(n, sim, gate, psi, phi);
        RestSame(n, sim, ops, k + 1, Stepped(n, sim, gate, psi), Stepped(n, sim, gate, phi));
      }
    }
  }

  lemma {:induction false} SumOutSame(n: nat, qs: seq<nat>, psi: Vector, phi: Vector, read: Vector -> real)
    requires Respects(n, read) && SameVector(n, psi, phi)
    ensures SumOut(qs, psi, read) == SumOut(qs, phi, read)
  {
    hide SameVector, Projected;
    if qs != [] {
      ProjectedSame(n, qs[0], false, psi, phi);
      ProjectedSame(n, qs[0], true, psi, phi);
      SumOutSame(n, qs[1..], Projected(qs[0], false, psi), Projected(qs[0], false, phi), read);
      SumOutSame(n, qs[1..], Projected(qs[0], true, psi), Projected(qs[0], true, phi), read);
    }
  }

  // ---- a gate does not see a qubit it does not touch

  ghost predicate Moves(n: nat, sim: Sim.Trig, gate: Gate, q: nat) {
    var act := ActionFor(sim, gate);
    q < n && act.Mix? && MaskOf(n, act.wires)[q]
  }

  ghost predicate Holds(n: nat, psi: Vector, q: nat, v: bool) {
    forall o | |o| == n :: psi(o) == ZERO || (q < n && o[q] == v)
  }

  lemma KernelOfNothing(k: S.Kernel)
    ensures k.Upper(ZERO, ZERO) == ZERO && k.Lower(ZERO, ZERO) == ZERO
  {
    hide Mul;
    assert forall a: Complex :: Mul(a, ZERO) == ZERO by {
      forall a: Complex ensures Mul(a, ZERO) == ZERO { NothingTimes(a); }
    }
  }

  lemma NothingTimes(a: Complex)
    ensures Mul(a, ZERO) == ZERO
  {
  }

  /** Projecting before the mixing is projecting after it, when the pairs agree on the qubit. */
  lemma MixedProjected(n: nat, mask: Bits, t: nat, fam: Family, q: nat, v: bool, psi: Vector)
    requires |mask| == n && t < n && q < n && !mask[q]
    ensures SameVector(n, Mixed(n, mask, t, fam, Projected(q, v, psi)), Projected(q, v, Mixed(n, mask, t, fam, psi)))
  {
    hide S.Kernel.Upper, S.Kernel.Lower;
    forall o | |o| == n
      ensures Mixed(n, mask, t, fam, Projected(q, v, psi))(o) == Projected(q, v, Mixed(n, mask, t, fam, psi))(o)
    {
      assert Xor(o, mask)[q] == o[q];
      KernelOfNothing(fam(o));
    }
  }

  lemma SteppedProjected(n: nat, sim: Sim.Trig, gate: Gate, q: nat, v: bool, psi: Vector)
    requires q < n && !Moves(n, sim, gate, q)
    ensures SameVector(n, Stepped(n, sim, gate, Projected(q, v, psi)), Projected(q, v, Stepped(n, sim, gate, psi)))
  {
    hide Mixed, Projected, ActionFor, MaskOf, GateFamily;
    if Wired(n, sim, gate) && ActionFor(sim, gate).Mix? {
      var act := ActionFor(sim, gate);
      TargetInMask(n, act.wires);
      MixedProjected(n, MaskOf(n, act.wires), TargetOf(act.wires), GateFamily(n, act.wires, act.kernel), q, v, psi);
    }
  }

  lemma MixedHolds(n: nat, mask: Bits, t: nat, fam: Family, q: nat, v: bool, psi: Vector)
    requires |mask| == n && t < n && q < n && !mask[q] && Holds(n, psi, q, v)
    ensures Holds(n, Mixed(n, mask, t, fam, psi), q, v)
  {
    hide S.Kernel.Upper, S.Kernel.Lower;
    forall o | |o| == n && o[q] != v ensures Mixed(n, mask, t, fam, psi)(o) == ZERO {
      assert Xor(o, mask)[q] == o[q];
      KernelOfNothing(fam(o));
    }
  }

  lemma SteppedHolds(n: nat, sim: Sim.Trig, gate: Gate, q: nat, v: bool, psi: Vector)
    requires q < n && !Moves(n, sim, gate, q) && Holds(n, psi, q, v)
    ensures Holds(n, Stepped(n, sim, gate, psi), q, v)
  {
    hide Mixed, Holds, ActionFor, MaskOf, GateFamily;
    if Wired(n, sim, gate) && ActionFor(sim, gate).Mix? {
      var act := ActionFor(sim, gate);
      TargetInMask(n, act.wires);
      MixedHolds(n, MaskOf(n, act.wires), TargetOf(act.wires), GateFamily(n, act.wires, act.kernel), q, v, psi);
    }
  }

  lemma ProjectedHolds(n: nat, q: nat, v: bool, psi: Vector, r: nat, w: bool)
    requires q < n
    ensures Holds(n, Projected(q, v, psi), q, v)
    ensures Holds(n, psi, r, w) ==> Holds(n, Projected(q, v, psi), r, w)
  {
  }

  /** A gate moves only qubits that its operation names. */
  lemma MovesItsQubits(n: nat, sim: Sim.Trig, op: Instr, q: nat)
    requires Moves(n, sim, op.gate, q)
    ensures q in op.Qubits()
  {
    hide Sim.Trig.Cis, Sim.Phases, Sim.RzKernel, Sim.U3Kernel, Sim.RxKernel, Sim.RyKernel, Sim.HKernel, S.Givens, S.NOT, Sim.YKERNEL, SXKERNEL, SXDGKERNEL;
    var w := ActionFor(sim, op.gate).wires;
    assert MaskOf(n, w)[q] ==> w.Flips(q);
  }

  // ---- a condition and a control

  /** The matrix of a gate that has a controlled form, and of that form. */
  lemma FormActs(sim: Sim.Trig, gate: Gate, c: nat) returns (t: nat, m: S.Kernel)
    requires ControlledForm(gate, c).Some?
    ensures ActionFor(sim, gate) == Sim.Mix(S.Single(t), m) && gate.q == t
    ensures ActionFor(sim, ControlledForm(gate, c).value) == Sim.Mix(S.Controlled(c, t), m)
  {
    t := gate.q;
    m := if gate.PauliX? then S.NOT else if gate.PauliY? then Sim.YKERNEL else Sim.Phases(ONE, C(-1.0, 0.0));
  }

  /** Where the control qubit is known, the controlled gate acts as the gate or not at all. */
  lemma MixedUnderControl(n: nat, c: nat, t: nat, m: S.Kernel, v: bool, psi: Vector)
    requires c < n && t < n && c != t && Holds(n, psi, c, v)
    ensures SameVector(n, Mixed(n, Unit(n, t), t, GateFamily(n, S.Controlled(c, t), m), psi),
      if v then Mixed(n, Unit(n, t), t, GateFamily(n, S.Single(t), m), psi) else psi)
  {
    hide S.Kernel.Upper, S.Kernel.Lower, SAME;
    var f, g := GateFamily(n, S.Controlled(c, t), m), GateFamily(n, S.Single(t), m);
    forall o | |o| == n
      ensures Mixed(n, Unit(n, t), t, f, psi)(o) == if v then Mixed(n, Unit(n, t), t, g, psi)(o) else psi(o)
    {
      var p := Xor(o, Unit(n, t));
      assert p[c] == o[c];
      KernelOfNothing(f(o));
      KernelOfNothing(g(o));
      SameActs(psi(o), psi(p));
      SameActs(psi(p), psi(o));
    }
  }

  lemma SteppedUnderControl(n: nat, sim: Sim.Trig, gate: Gate, c: nat, v: bool, psi: Vector)
    requires ControlledForm(gate, c).Some? && Wired(n, sim, gate) && c < n && c != gate.q && Holds(n, psi, c, v)
    ensures SameVector(n, Stepped(n, sim, ControlledForm(gate, c).value, psi), if v then Stepped(n, sim, gate, psi) else psi)
  {
    hide ActionFor, Mixed, Holds, GateFamily, ControlledForm;
    var t, m := FormActs(sim, gate, c);
    MixedUnderControl(n, c, t, m, v, psi);
  }

  // ---- what the operations leave alone

  /** The wires of every operation exist and differ, and so do the qubits it measures. */
  ghost predicate OpsWired(n: nat, sim: Sim.Trig, ops: seq<Instr>) {
    forall i | 0 <= i < |ops| :: Wired(n, sim, ops[i].gate) && (ops[i].Measured().Some? ==> ops[i].Measured().value < n)
  }

  /** From k on qubit q is only measured, or waited on. */
  predicate LeftAlone(ops: seq<Instr>, q: nat, k: nat) {
    forall j | k <= j < |ops| :: ops[j].gate.Measure? || ops[j].gate.Id? || ops[j].gate.Barrier? || q !in ops[j].Qubits()
  }

  lemma MeasuredIsLeftAlone(ops: seq<Instr>, i: nat)
    requires i < |ops| && Settled(ops, |ops|) && ops[i].Measured().Some?
    ensures LeftAlone(ops, ops[i].Measured().value, i + 1)
  {
    assert NotReused(ops, i, |ops|);
    forall j | i + 1 <= j < |ops| && !(ops[j].gate.Measure? || ops[j].gate.Id? || ops[j].gate.Barrier?)
      ensures ops[i].Measured().value !in ops[j].Qubits()
    {
      assert !Reuses(ops, i, j);
    }
  }

  lemma WriterIsLeftAlone(ops: seq<Instr>, c: nat, k: nat)
    requires k <= |ops| && Settled(ops, |ops|) && Writer(ops, c, k).Some?
    ensures LeftAlone(ops, Writer(ops, c, k).value, k)
  {
    hide Settled;
    var i := WriterMeasured(ops, c, k);
    MeasuredIsLeftAlone(ops, i);
  }

  lemma WriterInRange(n: nat, sim: Sim.Trig, ops: seq<Instr>, c: nat, k: nat)
    requires k <= |ops| && OpsWired(n, sim, ops) && Writer(ops, c, k).Some?
    ensures Writer(ops, c, k).value < n
  {
    hide Wired;
    var i := WriterMeasured(ops, c, k);
  }

  lemma LeftAloneIsStill(n: nat, sim: Sim.Trig, ops: seq<Instr>, q: nat, k: nat)
    requires k < |ops| && LeftAlone(ops, q, k) && !ops[k].gate.Measure?
    ensures !Moves(n, sim, ops[k].gate, q)
  {
    hide Instr.Qubits;
    if Moves(n, sim, ops[k].gate, q) {
      MovesItsQubits(n, sim, ops[k], q);
    }
  }

  lemma EmittedIsStill(n: nat, sim: Sim.Trig, ops: seq<Instr>, q: nat, k: nat)
    requires k < |ops| && LeftAlone(ops, q, k) && Convertible(ops, k) && !ops[k].gate.Measure?
    ensures !Moves(n, sim, Emitted(ops, k), q)
  {
    hide LeftAlone, Instr.Qubits, Moves;
    LeftAloneIsStill(n, sim, ops, q, k);
    if ops[k].condition.Some? {
      FormIsStill(n, sim, ops[k].gate, Writer(ops, ops[k].condition.value.cbit, k).value, q);
    }
  }

  lemma FormIsStill(n: nat, sim: Sim.Trig, gate: Gate, c: nat, q: nat)
    requires ControlledForm(gate, c).Some? && !Moves(n, sim, gate, q)
    ensures !Moves(n, sim, ControlledForm(gate, c).value, q)
  {
    hide ActionFor, ControlledForm;
    var t, m := FormActs(sim, gate, c);
  }

  lemma LeftAloneLater(ops: seq<Instr>, q: nat, k: nat)
    requires LeftAlone(ops, q, k)
    ensures LeftAlone(ops, q, k + 1)
  {
  }

  /** Projecting a qubit that is left alone may wait until the end. */
  lemma {:induction false} RestProjected(n: nat, sim: Sim.Trig, ops: seq<Instr>, k: nat, q: nat, v: bool, psi: Vector)
    requires k <= |ops| && Deferrable(ops) && LeftAlone(ops, q, k) && q < n
    ensures SameVector(n, Rest(n, sim, ops, k, Projected(q, v, psi)), Projected(q, v, Rest(n, sim, ops, k, psi)))
    decreases |ops| - k
  {
    hide Projected, Stepped, Emitted, Settled, LeftAlone, Moves, SameVector;
    if k == |ops| {
      SameAsItself(n, Projected(q, v, psi));
    } else {
      LeftAloneLater(ops, q, k);
      if ops[k].gate.Measure? {
        RestProjected(n, sim, ops, k + 1, q, v, psi);
      } else {
        var gate := Emitted(ops, k);
        EmittedIsStill(n, sim, ops, q, k);
        SteppedProjected(n, sim, gate, q, v, psi);
        RestSame(n, sim, ops, k + 1, Stepped(n, sim, gate, Projected(q, v, psi)), Projected(q, v, Stepped(n, sim, gate, psi)));
        RestProjected(n, sim, ops, k + 1, q, v, Stepped(n, sim, gate, psi));
        VectorChain(n, Rest(n, sim, ops, k + 1, Stepped(n, sim, gate, Projected(q, v, psi))),
          Rest(n, sim, ops, k + 1, Projected(q, v, Stepped(n, sim, gate, psi))),
          Projected(q, v, Rest(n, sim, ops, k + 1, Stepped(n, sim, gate, psi))));
      }
    }
  }

  // ---- what a branch knows

  /** Every bit that is still to be read is recorded, and the qubit it came from has that value. */
  ghost predicate Knows(n: nat, ops: seq<Instr>, k: nat, bits: map<nat, bool>, psi: Vector)
    requires k <= |ops|
  {
    forall c | Live(ops, c, k) :: c in bits && Writer(ops, c, k).Some? && Holds(n, psi, Writer(ops, c, k).value, bits[c])
  }

  lemma {:induction false} LiveIsWritten(ops: seq<Instr>, c: nat, k: nat)
    requires k <= |ops| && AllConvertible(ops, |ops|) && Live(ops, c, k)
    ensures Writer(ops, c, k).Some?
    decreases |ops| - k
  {
    if ops[k].Reads(c) {
      assert Convertible(ops, k);
    } else {
      LiveIsWritten(ops, c, k + 1);
    }
  }

  lemma KnowsAtStart(n: nat, ops: seq<Instr>, psi: Vector)
    requires Deferrable(ops)
    ensures Knows(n, ops, 0, map[], psi)
  {
    forall c | Live(ops, c, 0) ensures false {
      LiveIsWritten(ops, c, 0);
    }
  }

  lemma KnowsAfterMeasure(n: nat, ops: seq<Instr>, k: nat, bits: map<nat, bool>, psi: Vector, v: bool)
    requires k < |ops| && Knows(n, ops, k, bits, psi) && Consequential(ops, k) && ops[k].Measured().value < n
    ensures Knows(n, ops, k + 1, bits[ops[k].cbit.value := v], Projected(ops[k].Measured().value, v, psi))
  {
    hide Holds, Projected;
    var q, c0 := ops[k].Measured().value, ops[k].cbit.value;
    forall c | Live(ops, c, k + 1)
      ensures (c == c0 || c in bits) && Writer(ops, c, k + 1).Some?
      ensures Holds(n, Projected(q, v, psi), Writer(ops, c, k + 1).value, bits[c0 := v][c])
    {
      if c == c0 {
        ProjectedHolds(n, q, v, psi, q, v);
      } else {
        assert Live(ops, c, k);
        ProjectedHolds(n, q, v, psi, Writer(ops, c, k).value, bits[c]);
      }
    }
  }

  lemma KnowsAfterReadout(n: nat, ops: seq<Instr>, k: nat, bits: map<nat, bool>, psi: Vector)
    requires k < |ops| && Knows(n, ops, k, bits, psi) && ops[k].gate.Measure? && !Consequential(ops, k)
    ensures Knows(n, ops, k + 1, bits, psi)
  {
    hide Holds;
    forall c | Live(ops, c, k + 1) ensures Live(ops, c, k) && Writer(ops, c, k + 1) == Writer(ops, c, k) {
      assert !ops[k].Writes(c);
    }
  }

  lemma KnowsAfterGate(n: nat, sim: Sim.Trig, ops: seq<Instr>, k: nat, bits: map<nat, bool>, psi: Vector, fires: bool)
    requires k < |ops| && Deferrable(ops) && OpsWired(n, sim, ops) && Knows(n, ops, k, bits, psi) && !ops[k].gate.Measure?
    ensures Knows(n, ops, k + 1, bits, if fires then Stepped(n, sim, ops[k].gate, psi) else psi)
  {
    hide Holds, Stepped, Settled, Moves, LeftAlone, Wired;
    forall c | Live(ops, c, k + 1)
      ensures c in bits && Writer(ops, c, k + 1).Some?
      ensures Holds(n, if fires then Stepped(n, sim, ops[k].gate, psi) else psi, Writer(ops, c, k + 1).value, bits[c])
    {
      assert !ops[k].Writes(c);
      assert Live(ops, c, k);
      var q := Writer(ops, c, k).value;
      WriterIsLeftAlone(ops, c, k);
      WriterInRange(n, sim, ops, c, k);
      LeftAloneIsStill(n, sim, ops, q, k);
      SteppedHolds(n, sim, ops[k].gate, q, bits[c], psi);
    }
  }

  /** In a branch, the emitted gate does what the conditioned one does. */
  lemma EmittedDoes(n: nat, sim: Sim.Trig, ops: seq<Instr>, k: nat, bits: map<nat, bool>, psi: Vector)
    requires k < |ops| && Deferrable(ops) && OpsWired(n, sim, ops) && Knows(n, ops, k, bits, psi) && !ops[k].gate.Measure?
    ensures SameVector(n, Stepped(n, sim, Emitted(ops, k), psi), if Fires(ops[k], bits) then Stepped(n, sim, ops[k].gate, psi) else psi)
  {
    hide Holds, Stepped, Settled, Instr.Qubits, Wired, SameVector;
    assert Convertible(ops, k);
    if ops[k].condition.None? {
      SameAsItself(n, Stepped(n, sim, ops[k].gate, psi));
    } else {
      var c := ops[k].condition.value.cbit;
      assert Live(ops, c, k);
      var q := Writer(ops, c, k).value;
      WriterInRange(n, sim, ops, c, k);
      ControlIsFree(ops, k);
      FormQubit(ops[k]);
      SteppedUnderControl(n, sim, ops[k].gate, q, bits[c], psi);
    }
  }

  lemma FormQubit(op: Instr)
    requires ControlledForm(op.gate, 0).Some?
    ensures op.Qubits() == [op.gate.q] && forall c: nat :: ControlledForm(op.gate, c).Some?
  {
  }

  /** A branch of a measurement is the projected end state. */
  lemma BranchReads(n: nat, sim: Sim.Trig, ops: seq<Instr>, k: nat, v: bool, psi: Vector, read: Vector -> real)
    requires k < |ops| && Deferrable(ops) && OpsWired(n, sim, ops) && Consequential(ops, k) && Respects(n, read)
    ensures var q := ops[k].Measured().value;
      q < n && SumOut(Split(ops, k + 1), Rest(n, sim, ops, k + 1, Projected(q, v, psi)), read) ==
        SumOut(Split(ops, k + 1), Projected(q, v, Rest(n, sim, ops, k + 1, psi)), read)
  {
    hide Projected, Settled, AllConvertible, Rest, Respects, Wired, SumOut, LeftAlone, SameVector, Split;
    var q := ops[k].Measured().value;
    MeasuredIsLeftAlone(ops, k);
    RestProjected(n, sim, ops, k + 1, q, v, psi);
    SumOutSame(n, Split(ops, k + 1), Rest(n, sim, ops, k + 1, Projected(q, v, psi)), Projected(q, v, Rest(n, sim, ops, k + 1, psi)), read);
  }

  lemma SplitOne(q: nat, qs: seq<nat>, psi: Vector, read: Vector -> real)
    ensures SumOut([q] + qs, psi, read) == SumOut(qs, Projected(q, false, psi), read) + SumOut(qs, Projected(q, true, psi), read)
    ensures SumOut([], psi, read) == read(psi)
  {
    assert ([q] + qs)[1..] == qs;
  }

  // ---- the theorem

  /**
    Deferring keeps every reading: over all outcomes, the run with measurements and
    conditions reads what the deferred circuit's state reads when it is split over the
    values of the qubits whose outcomes were used.
  */
  lemma {:induction false} DeferredReads(n: nat, sim: Sim.Trig, ops: seq<Instr>, k: nat, bits: map<nat, bool>, psi: Vector, read: Vector -> real)
    requires k <= |ops| && Deferrable(ops) && OpsWired(n, sim, ops) && Knows(n, ops, k, bits, psi) && Respects(n, read)
    ensures Mixture(n, sim, ops, k, bits, psi, read) == SumOut(Split(ops, k), Rest(n, sim, ops, k, psi), read)
    decreases |ops| - k
  {
    hide Knows, Projected, Stepped, Settled, Emitted, SameVector, Respects, OpsWired, SumOut, Fires;
    if k == |ops| {
      SplitOne(0, [], psi, read);
    } else if Consequential(ops, k) {
      var q, c := ops[k].Measured().value, ops[k].cbit.value;
      BranchReads(n, sim, ops, k, false, psi, read);
      BranchReads(n, sim, ops, k, true, psi, read);
      KnowsAfterMeasure(n, ops, k, bits, psi, false);
      KnowsAfterMeasure(n, ops, k, bits, psi, true);
      DeferredReads(n, sim, ops, k + 1, bits[c := false], Projected(q, false, psi), read);
      DeferredReads(n, sim, ops, k + 1, bits[c := true], Projected(q, true, psi), read);
      SplitOne(q, Split(ops, k + 1), Rest(n, sim, ops, k + 1, psi), read);
    } else if ops[k].gate.Measure? {
      assert Split(ops, k) == Split(ops, k + 1);
      KnowsAfterReadout(n, ops, k, bits, psi);
      DeferredReads(n, sim, ops, k + 1, bits, psi, read);
    } else {
      var next := if Fires(ops[k], bits) then Stepped(n, sim, ops[k].gate, psi) else psi;
      assert Convertible(ops, k) && Split(ops, k) == Split(ops, k + 1);
      KnowsAfterGate(n, sim, ops, k, bits, psi, Fires(ops[k], bits));
      DeferredReads(n, sim, ops, k + 1, bits, next, read);
      EmittedDoes(n, sim, ops, k, bits, psi);
      RestSame(n, sim, ops, k + 1, Stepped(n, sim, Emitted(ops, k), psi), next);
      SumOutSame(n, Split(ops, k + 1), Rest(n, sim, ops, k, psi), Rest(n, sim, ops, k + 1, next), read);
    }
  }
}
