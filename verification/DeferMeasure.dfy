/**
  Deferring the measurements of a circuit: a gate under a classical condition becomes a
  controlled gate, the measurements are dropped, and the qubits whose outcome was used
  are reported.  What cannot be deferred is refused with the operation that stands in
  the way.
*/
module DeferMeasure {
  import opened Wrappers
  import opened MajoranaGates

  /** `if (bits cbit .. cbit + bits - 1 == expected)`. */
  datatype Condition = Condition(cbit: nat, bits: nat, expected: nat) {
    predicate IsSingleTrue() { bits == 1 && expected == 1 }
  }

  /** One operation; `named` are the qubits of a gate that carries none in its constructor. */
  datatype Instr = Instr(gate: Gate, named: seq<nat>, cbit: Option<nat>, condition: Option<Condition>) {
    function Qubits(): seq<nat> {
      match gate
      case Id => named
      case Barrier => named
      case Measure => named
      case Other => named
      case Swap(q, r) => [q, r]
      case CZ(q, r) => [q, r]
      case CX(q, r) => [q, r]
      case CY(q, r) => [q, r]
      case CRz(q, r, _) => [q, r]
      case CU3(q, r, _, _, _) => [q, r]
      case Rbs(q, r, _) => [q, r]
      case CCX(q, r, t) => [q, r, t]
      case CSwap(q, r, t) => [q, r, t]
      case _ => [gate.q]
    }

    /** The qubit a measurement looks at. */
    function Measured(): Option<nat> { if gate.Measure? && named != [] then Some(named[0]) else None }

    predicate Writes(c: nat) { Measured().Some? && cbit == Some(c) }

    predicate Reads(c: nat) { !gate.Measure? && condition.Some? && condition.value.cbit == c }
  }

  datatype NotDeferrable =
    | QubitReusedAfterMeasure(qubit: nat, at: nat)
    | NoControlledForm(gate: Gate, at: nat)
    | ConditionNotSingleBitTrue(bits: nat, expected: nat, at: nat)
    | ConditionBitNeverMeasured(cbit: nat, at: nat)
    | ConditionedMeasure(at: nat)

  datatype Deferred = Deferred(gates: seq<GateOp>, measured: seq<nat>)

  // ---- what stands in the way

  /** Operation j uses the qubit that operation i measured, other than by measuring it again. */
  predicate Reuses(ops: seq<Instr>, i: nat, j: nat)
    requires i < j < |ops|
  {
    var q := ops[i].Measured();
    q.Some? && !ops[j].gate.Id? && !ops[j].gate.Barrier? && ops[j].Measured() != q && q.value in ops[j].Qubits()
  }

  predicate NotReused(ops: seq<Instr>, i: nat, j: nat)
    requires i < |ops| && j <= |ops|
  {
    forall l | i < l < j :: !Reuses(ops, i, l)
  }

  /** The first k measurements are unconditional and their qubits left alone afterwards. */
  predicate Settled(ops: seq<Instr>, k: nat)
    requires k <= |ops|
  {
    forall i | 0 <= i < k :: ops[i].gate.Measure? ==> ops[i].condition.None? && NotReused(ops, i, |ops|)
  }

  /** The qubit whose measurement wrote bit c last before operation k. */
  function Writer(ops: seq<Instr>, c: nat, k: nat): Option<nat>
    requires k <= |ops|
  {
    if k == 0 then None else if ops[k - 1].Writes(c) then ops[k - 1].Measured() else Writer(ops, c, k - 1)
  }

  /** The gate under a quantum control, where the pass has one. */
  function ControlledForm(gate: Gate, control: nat): Option<Gate> {
    match gate
    case PauliX(q) => Some(CX(control, q))
    case PauliY(q) => Some(CY(control, q))
    case PauliZ(q) => Some(CZ(control, q))
    case _ => None
  }

  /** Operation i is a measurement, or has a form without a condition. */
  predicate Convertible(ops: seq<Instr>, i: nat)
    requires i < |ops|
  {
    ops[i].gate.Measure? || ops[i].condition.None? ||
    var c := ops[i].condition.value;
    c.IsSingleTrue() && Writer(ops, c.cbit, i).Some? && ControlledForm(ops[i].gate, 0).Some?
  }

  predicate AllConvertible(ops: seq<Instr>, k: nat)
    requires k <= |ops|
  {
    forall i | 0 <= i < k :: Convertible(ops, i)
  }

  predicate Deferrable(ops: seq<Instr>) { Settled(ops, |ops|) && AllConvertible(ops, |ops|) }

  /** The refusal names the first thing that stands in the way. */
  ghost predicate FirstFault(ops: seq<Instr>, e: NotDeferrable) {
    e.at < |ops| &&
    match e
    case ConditionedMeasure(at) => Settled(ops, at) && ops[at].gate.Measure? && ops[at].condition.Some?
    case QubitReusedAfterMeasure(q, at) => exists i | 0 <= i < at ::
        Settled(ops, i) && ops[i].Measured() == Some(q) && ops[i].condition.None? && NotReused(ops, i, at) && Reuses(ops, i, at)
    case ConditionNotSingleBitTrue(bits, expected, at) =>
        Settled(ops, |ops|) && AllConvertible(ops, at) && !ops[at].gate.Measure? && ops[at].condition.Some? &&
        var c := ops[at].condition.value; c.bits == bits && c.expected == expected && !c.IsSingleTrue()
    case ConditionBitNeverMeasured(cbit, at) =>
        Settled(ops, |ops|) && AllConvertible(ops, at) && !ops[at].gate.Measure? && ops[at].condition == Some(Condition(cbit, 1, 1)) &&
        Writer(ops, cbit, at).None?
    case NoControlledForm(gate, at) =>
        Settled(ops, |ops|) && AllConvertible(ops, at) && ops[at].gate == gate && ops[at].condition.Some? &&
        Writer(ops, ops[at].condition.value.cbit, at).Some? && ControlledForm(gate, 0).None? && !gate.Measure?
  }

  // ---- the deferred circuit

  /** What a convertible operation other than a measurement becomes. */
  function Emitted(ops: seq<Instr>, i: nat): Gate
    requires i < |ops| && Convertible(ops, i)
  {
    if ops[i].gate.Measure? || ops[i].condition.None? then ops[i].gate
    else ControlledForm(ops[i].gate, Writer(ops, ops[i].condition.value.cbit, i).value).value
  }

  function Image(ops: seq<Instr>, k: nat): (gates: seq<GateOp>)
    requires k <= |ops| && AllConvertible(ops, k)
  {
    if k == 0 then []
    else Image(ops, k - 1) + if ops[k - 1].gate.Measure? then [] else [GateOp(false, Emitted(ops, k - 1))]
  }

  /** Operation i is conditioned on the outcome of measuring q. */
  predicate Controls(ops: seq<Instr>, i: nat, q: nat)
    requires i < |ops|
  {
    !ops[i].gate.Measure? && ops[i].condition.Some? && Writer(ops, ops[i].condition.value.cbit, i) == Some(q)
  }

  /** The outcome of measuring q was used before operation k. */
  ghost predicate Used(ops: seq<Instr>, k: nat, q: nat)
    requires k <= |ops|
  {
    exists i | 0 <= i < k :: Controls(ops, i, q)
  }

  lemma {:induction false} WriterMeasured(ops: seq<Instr>, c: nat, k: nat) returns (i: nat)
    requires k <= |ops| && Writer(ops, c, k).Some?
    ensures i < k && ops[i].Writes(c) && ops[i].Measured() == Writer(ops, c, k)
    ensures forall j | i < j < k :: !ops[j].Writes(c)
  {
    i := k - 1;
    if !ops[i].Writes(c) {
      i := WriterMeasured(ops, c, k - 1);
    }
  }

  /**
    A gate never acts on the qubit it is to be controlled by: the check that the pass
    keeps against it cannot fire.
  */
  lemma ControlIsFree(ops: seq<Instr>, i: nat)
    requires i < |ops| && Settled(ops, |ops|) && Convertible(ops, i) && !ops[i].gate.Measure? && ops[i].condition.Some?
    ensures Writer(ops, ops[i].condition.value.cbit, i).value !in ops[i].Qubits()
  {
    var j := WriterMeasured(ops, ops[i].condition.value.cbit, i);
    assert !Reuses(ops, j, i);
  }

  // ---- the pass

  /** Before anything is rewritten: no conditional measurement, and no measured qubit used again. */
  method CheckMeasurements(ops: seq<Instr>) returns (res: Option<NotDeferrable>)
    ensures res.None? <==> Settled(ops, |ops|)
    ensures res.Some? ==> FirstFault(ops, res.value) && (res.value.ConditionedMeasure? || res.value.QubitReusedAfterMeasure?)
  {
    for i := 0 to |ops|
      invariant Settled(ops, i)
    {
      if ops[i].gate.Measure? {
        if ops[i].condition.Some? {
          return Some(ConditionedMeasure(i));
        }
        var q := ops[i].Measured();
        if q.Some? {
          for j := i + 1 to |ops|
            invariant NotReused(ops, i, j)
          {
            var later := ops[j];
            if !later.gate.Id? && !later.gate.Barrier? && later.Measured() != q && q.value in later.Qubits() {
              assert Reuses(ops, i, j);
              return Some(QubitReusedAfterMeasure(q.value, j));
            }
          }
        }
      }
    }
    return None;
  }

  /** Defer every measurement, or refuse naming the reason. */
  method DeferMeasurements(ops: seq<Instr>) returns (res: Result<Deferred, NotDeferrable>)
    ensures res.Ok? <==> Deferrable(ops)
    ensures res.Ok? ==> res.value.gates == Image(ops, |ops|) && Distinct(res.value.measured)
    ensures res.Ok? ==> forall q: nat :: q in res.value.measured <==> Used(ops, |ops|, q)
    ensures res.Err? ==> FirstFault(ops, res.error)
  {
    var fault := CheckMeasurements(ops);
    if fault.Some? {
      return Err(fault.value);
    }
    var writtenBy: map<nat, nat> := map[];
    var gates: seq<GateOp>, measured: seq<nat> := [], [];
    for i := 0 to |ops|
      invariant AllConvertible(ops, i) && gates == Image(ops, i) && Distinct(measured)
      invariant forall c: nat :: Writer(ops, c, i) == if c in writtenBy then Some(writtenBy[c]) else None
      invariant forall q: nat :: q in measured <==> Used(ops, i, q)
    {
      var op := ops[i];
      UsedNext(ops, i);
      assert Deferrable(ops) ==> Convertible(ops, i);
      if op.gate.Measure? {
        if op.cbit.Some? && op.named != [] {
          writtenBy := writtenBy[op.cbit.value := op.named[0]];
        }
      } else if op.condition.None? {
        gates := gates + [GateOp(false, op.gate)];
      } else {
        var c := op.condition.value;
        if !c.IsSingleTrue() {
          return Err(ConditionNotSingleBitTrue(c.bits, c.expected, i));
        }
        if c.cbit !in writtenBy {
          return Err(ConditionBitNeverMeasured(c.cbit, i));
        }
        var control := writtenBy[c.cbit];
        var form := ControlledForm(op.gate, control);
        if form.None? {
          return Err(NoControlledForm(op.gate, i));
        }
        if control !in measured {
          measured := measured + [control];
        }
        gates := gates + [GateOp(false, form.value)];
      }
    }
    return Ok(Deferred(gates, measured));
  }

  predicate Distinct(s: seq<nat>) { forall i, j | 0 <= i < j < |s| :: s[i] != s[j] }

  lemma UsedNext(ops: seq<Instr>, k: nat)
    requires k < |ops|
    ensures forall q: nat :: Used(ops, k + 1, q) <==> Used(ops, k, q) || Controls(ops, k, q)
  {
    hide Controls;
    forall q: nat ensures Used(ops, k + 1, q) <==> Used(ops, k, q) || Controls(ops, k, q) {
      if Controls(ops, k, q) { assert Used(ops, k + 1, q); }
      if Used(ops, k, q) {
        var i :| 0 <= i < k && Controls(ops, i, q);
        assert Used(ops, k + 1, q);
      }
    }
  }

  // ---- the preparation

  ghost predicate Measures(ops: seq<Instr>) { exists i | 0 <= i < |ops| :: ops[i].gate.Measure? }

  function Plain(op: Instr): GateOp { GateOp(op.condition.Some?, op.gate) }

  function AllPlain(ops: seq<Instr>): (gates: seq<GateOp>)
    ensures |gates| == |ops| && forall i | 0 <= i < |ops| :: gates[i] == Plain(ops[i])
  {
    seq(|ops|, i requires 0 <= i < |ops| => Plain(ops[i]))
  }

  /** A circuit without measurements passes unchanged; any other is deferred. */
  method PrepareCircuit(ops: seq<Instr>) returns (res: Result<Deferred, NotDeferrable>)
    ensures !Measures(ops) ==> res == Ok(Deferred(AllPlain(ops), []))
    ensures Measures(ops) ==> (res.Ok? <==> Deferrable(ops))
    ensures Measures(ops) && res.Ok? ==> res.value.gates == Image(ops, |ops|)
    ensures res.Ok? && Deferrable(ops) ==> forall q: nat :: q in res.value.measured <==> Used(ops, |ops|, q)
    ensures res.Err? ==> FirstFault(ops, res.error)
  {
    var any := false;
    for i := 0 to |ops|
      invariant any <==> exists j | 0 <= j < i :: ops[j].gate.Measure?
    {
      if ops[i].gate.Measure? {
        any := true;
      }
    }
    if !any {
      NothingUsed(ops);
      return Ok(Deferred(AllPlain(ops), []));
    }
    res := DeferMeasurements(ops);
  }

  lemma NothingUsed(ops: seq<Instr>)
    requires !Measures(ops)
    ensures forall q: nat :: !Used(ops, |ops|, q)
  {
    forall q: nat, i | 0 <= i < |ops| ensures !Controls(ops, i, q) {
      if ops[i].condition.Some? { NeverWritten(ops, ops[i].condition.value.cbit, i); }
    }
  }

  lemma {:induction false} NeverWritten(ops: seq<Instr>, c: nat, k: nat)
    requires k <= |ops| && !Measures(ops)
    ensures Writer(ops, c, k).None?
  {
    if k > 0 { NeverWritten(ops, c, k - 1); }
  }
}
