/**
  Lowering a source circuit to the executed form: registers flattened to global
  indices, gates renamed, parameters translated, and the flag that says whether
  measurements have to collapse the state while the circuit runs.
*/
module Lowering {
  import opened Wrappers
  import opened Expressions

  // ---- registers

  datatype RegisterKind = Quantum | Classical

  /** A spin register declares two wires for each slot. */
  datatype Register = Register(name: string, size: nat, kind: RegisterKind, spin: bool)

  type Slot = (string, nat)

  /** How many slots the registers of one kind before index k have. */
  function Offset(regs: seq<Register>, kind: RegisterKind, k: nat): nat
    requires k <= |regs|
  {
    if k == 0 then 0 else Offset(regs, kind, k - 1) + if regs[k - 1].kind == kind then regs[k - 1].size else 0
  }

  function SlotsOf(reg: Register, start: nat, count: nat): map<Slot, nat> {
    map i: nat | i < count :: (reg.name, i) := start + i
  }

  /** The index map after the first k registers; a slot declared again is moved. */
  function FlatMap(regs: seq<Register>, kind: RegisterKind, k: nat): map<Slot, nat>
    requires k <= |regs|
  {
    if k == 0 then map[] else
      var before := FlatMap(regs, kind, k - 1);
      if regs[k - 1].kind == kind then before + SlotsOf(regs[k - 1], Offset(regs, kind, k - 1), regs[k - 1].size) else before
  }

  /** Give every slot its global index. */
  method Flatten(regs: seq<Register>) returns (qubits: map<Slot, nat>, clbits: map<Slot, nat>, nq: nat, nc: nat)
    ensures qubits == FlatMap(regs, Quantum, |regs|) && nq == Offset(regs, Quantum, |regs|)
    ensures clbits == FlatMap(regs, Classical, |regs|) && nc == Offset(regs, Classical, |regs|)
  {
    qubits, clbits, nq, nc := map[], map[], 0, 0;
    for k := 0 to |regs|
      invariant qubits == FlatMap(regs, Quantum, k) && nq == Offset(regs, Quantum, k)
      invariant clbits == FlatMap(regs, Classical, k) && nc == Offset(regs, Classical, k)
    {
      var reg := regs[k];
      match reg.kind {
        case Quantum => qubits, nq := InsertSlots(reg, qubits, nq);
        case Classical => clbits, nc := InsertSlots(reg, clbits, nc);
      }
    }
  }

  method InsertSlots(reg: Register, m: map<Slot, nat>, start: nat) returns (r: map<Slot, nat>, next: nat)
    ensures r == m + SlotsOf(reg, start, reg.size) && next == start + reg.size
  {
    r, next := m, start;
    SlotsNone(reg, m, start);
    hide SlotsOf;
    for i := 0 to reg.size
      invariant next == start + i && r == m + SlotsOf(reg, start, i)
    {
      SlotsNext(reg, m, start, i);
      r := r[(reg.name, i) := next];
      next := next + 1;
    }
  }

  lemma SlotsNone(reg: Register, m: map<Slot, nat>, start: nat)
    ensures m + SlotsOf(reg, start, 0) == m
  {
  }

  lemma SlotsNext(reg: Register, m: map<Slot, nat>, start: nat, i: nat)
    ensures (m + SlotsOf(reg, start, i))[(reg.name, i) := start + i] == m + SlotsOf(reg, start, i + 1)
  {
    hide SlotsOf;
    var left, right := (m + SlotsOf(reg, start, i))[(reg.name, i) := start + i], m + SlotsOf(reg, start, i + 1);
    forall s ensures (s in left <==> s in right) && (s in left ==> left[s] == right[s]) {
      SlotAt(reg, start, i, s);
      SlotAt(reg, start, i + 1, s);
    }
  }

  lemma SlotAt(reg: Register, start: nat, count: nat, s: Slot)
    ensures s in SlotsOf(reg, start, count) <==> s.0 == reg.name && s.1 < count
    ensures s in SlotsOf(reg, start, count) ==> SlotsOf(reg, start, count)[s] == start + s.1
  {
    if s.0 == reg.name && s.1 < count {
      assert s == (reg.name, s.1);
    }
  }

  /** Register r declares the slot. */
  predicate Declares(regs: seq<Register>, kind: RegisterKind, r: nat, slot: Slot) {
    r < |regs| && regs[r].kind == kind && regs[r].name == slot.0 && slot.1 < regs[r].size
  }

  /** Register r is the last one to declare the slot among the first k. */
  ghost predicate LastDeclares(regs: seq<Register>, kind: RegisterKind, k: nat, r: nat, slot: Slot) {
    r < k && Declares(regs, kind, r, slot) && forall s | r < s < k :: !Declares(regs, kind, s, slot)
  }

  lemma {:induction false} FlatMapAt(regs: seq<Register>, kind: RegisterKind, k: nat, slot: Slot)
    requires k <= |regs|
    ensures slot in FlatMap(regs, kind, k) <==> exists r: nat :: LastDeclares(regs, kind, k, r, slot)
    ensures forall r: nat | LastDeclares(regs, kind, k, r, slot) :: FlatMap(regs, kind, k)[slot] == Offset(regs, kind, r) + slot.1
  {
    if k > 0 {
      FlatMapAt(regs, kind, k - 1, slot);
      if Declares(regs, kind, k - 1, slot) {
        assert LastDeclares(regs, kind, k, k - 1, slot);
      } else {
        forall r: nat ensures LastDeclares(regs, kind, k, r, slot) <==> LastDeclares(regs, kind, k - 1, r, slot) {
        }
        assert slot in FlatMap(regs, kind, k) <==> slot in FlatMap(regs, kind, k - 1);
        if slot in FlatMap(regs, kind, k - 1) {
          var r: nat :| LastDeclares(regs, kind, k - 1, r, slot);
          assert LastDeclares(regs, kind, k, r, slot);
        }
      }
    }
  }

  lemma {:induction false} OffsetsGrow(regs: seq<Register>, kind: RegisterKind, r: nat, s: nat)
    requires r < s <= |regs| && regs[r].kind == kind
    ensures Offset(regs, kind, r) + regs[r].size <= Offset(regs, kind, s)
    decreases s
  {
    if r + 1 < s {
      OffsetsGrow(regs, kind, r, s - 1);
    }
  }

  /** Two slots of two registers never share an index. */
  lemma RangesAreDisjoint(regs: seq<Register>, kind: RegisterKind, r: nat, i: nat, s: nat, j: nat)
    requires r < |regs| && s < |regs| && regs[r].kind == regs[s].kind == kind && i < regs[r].size && j < regs[s].size
    requires Offset(regs, kind, r) + i == Offset(regs, kind, s) + j
    ensures r == s && i == j
  {
    if r < s {
      OffsetsGrow(regs, kind, r, s);
    } else if s < r {
      OffsetsGrow(regs, kind, s, r);
    }
  }

  predicate HasIndex(regs: seq<Register>, kind: RegisterKind, r: nat, i: nat, x: nat) {
    r < |regs| && regs[r].kind == kind && i < regs[r].size && x == Offset(regs, kind, r) + i
  }

  lemma {:induction false} EveryIndexHasASlot(regs: seq<Register>, kind: RegisterKind, k: nat, x: nat) returns (r: nat, i: nat)
    requires k <= |regs| && x < Offset(regs, kind, k)
    ensures r < k && HasIndex(regs, kind, r, i, x)
  {
    if regs[k - 1].kind == kind && x >= Offset(regs, kind, k - 1) {
      return k - 1, x - Offset(regs, kind, k - 1);
    }
    r, i := EveryIndexHasASlot(regs, kind, k - 1, x);
  }

  /** No slot is declared twice: non-empty registers of one kind have different names. */
  ghost predicate Distinct(regs: seq<Register>, kind: RegisterKind) {
    forall r, s | 0 <= r < s < |regs| && regs[r].kind == regs[s].kind == kind && regs[r].size > 0 && regs[s].size > 0 ::
      regs[r].name != regs[s].name
  }

  ghost predicate Hit(m: map<Slot, nat>, x: nat) {
    exists slot :: slot in m && m[slot] == x
  }

  /** Whatever the names, no two slots share an index and every index is within the total. */
  lemma FlatMapIsInjective(regs: seq<Register>, kind: RegisterKind, a: Slot, b: Slot)
    requires var m := FlatMap(regs, kind, |regs|); a in m && b in m
    ensures var m := FlatMap(regs, kind, |regs|);
      m[a] < Offset(regs, kind, |regs|) && (m[a] == m[b] ==> a == b)
  {
    FlatMapAt(regs, kind, |regs|, a);
    FlatMapAt(regs, kind, |regs|, b);
    var r: nat :| LastDeclares(regs, kind, |regs|, r, a);
    var s: nat :| LastDeclares(regs, kind, |regs|, s, b);
    OffsetsGrow(regs, kind, r, |regs|);
    if FlatMap(regs, kind, |regs|)[a] == FlatMap(regs, kind, |regs|)[b] {
      RangesAreDisjoint(regs, kind, r, a.1, s, b.1);
    }
  }

  /** The flattened indices are onto, hence a numbering of the declared slots, exactly when no slot is declared twice. */
  lemma FlatMapIsOntoExactly(regs: seq<Register>, kind: RegisterKind)
    ensures (forall x: nat | x < Offset(regs, kind, |regs|) :: Hit(FlatMap(regs, kind, |regs|), x)) <==> Distinct(regs, kind)
  {
    var m := FlatMap(regs, kind, |regs|);
    if Distinct(regs, kind) {
      forall x: nat | x < Offset(regs, kind, |regs|) ensures Hit(m, x) {
        var r, i := EveryIndexHasASlot(regs, kind, |regs|, x);
        var slot := (regs[r].name, i);
        FlatMapAt(regs, kind, |regs|, slot);
        assert LastDeclares(regs, kind, |regs|, r, slot);
        assert slot in m && m[slot] == x;
      }
    } else {
      var r, s :| 0 <= r < s < |regs| && regs[r].kind == regs[s].kind == kind && regs[r].size > 0 && regs[s].size > 0 &&
        regs[r].name == regs[s].name;
      MovedSlot(regs, kind, r, s);
    }
  }

  /** Two one-qubit registers of one name: index 0 is nobody's. */
  lemma SameNameLosesAnIndex(name: string)
    ensures var regs := [Register(name, 1, Quantum, false), Register(name, 1, Quantum, false)];
      Offset(regs, Quantum, 2) == 2 && !Hit(FlatMap(regs, Quantum, 2), 0)
  {
    var regs := [Register(name, 1, Quantum, false), Register(name, 1, Quantum, false)];
    assert Offset(regs, Quantum, 0) == 0 && Offset(regs, Quantum, 1) == 1;
    MovedSlot(regs, Quantum, 0, 1);
  }

  /** The first index of a register whose name is declared again is nobody's. */
  lemma MovedSlot(regs: seq<Register>, kind: RegisterKind, r: nat, s: nat)
    requires r < s < |regs| && regs[r].kind == regs[s].kind == kind && regs[r].size > 0 && regs[s].size > 0
    requires regs[r].name == regs[s].name
    ensures Offset(regs, kind, r) < Offset(regs, kind, |regs|) && !Hit(FlatMap(regs, kind, |regs|), Offset(regs, kind, r))
  {
    var m, x := FlatMap(regs, kind, |regs|), Offset(regs, kind, r);
    OffsetsGrow(regs, kind, r, |regs|);
    forall slot | slot in m ensures m[slot] != x {
      FlatMapAt(regs, kind, |regs|, slot);
      var t: nat :| LastDeclares(regs, kind, |regs|, t, slot);
      if m[slot] == x {
        RangesAreDisjoint(regs, kind, t, slot.1, r, 0);
        assert Declares(regs, kind, s, slot);
        assert false;
      }
    }
  }

  /** The number of wires the circuit reports, which counts a spin register twice. */
  function WireTotal(regs: seq<Register>, k: nat): nat
    requires k <= |regs|
  {
    if k == 0 then 0 else
      WireTotal(regs, k - 1) +
      if regs[k - 1].kind != Quantum then 0 else if regs[k - 1].spin then 2 * regs[k - 1].size else regs[k - 1].size
  }

  /** The flattened indices fill the reported wires exactly when no quantum register is a non-empty spin register. */
  lemma {:induction false} WiresAreFilledExactly(regs: seq<Register>, k: nat)
    requires k <= |regs|
    ensures Offset(regs, Quantum, k) <= WireTotal(regs, k)
    ensures Offset(regs, Quantum, k) == WireTotal(regs, k) <==>
      forall r | 0 <= r < k :: !(regs[r].kind == Quantum && regs[r].spin && regs[r].size > 0)
  {
    if k > 0 {
      WiresAreFilledExactly(regs, k - 1);
    }
  }

  /** One spin register of one slot: two wires are reported, and the second is nobody's. */
  lemma SpinRegisterLeavesAWire(name: string)
    ensures var regs := [Register(name, 1, Quantum, true)];
      WireTotal(regs, 1) == 2 && Offset(regs, Quantum, 1) == 1 && !Hit(FlatMap(regs, Quantum, 1), 1)
  {
    var regs := [Register(name, 1, Quantum, true)];
    assert WireTotal(regs, 0) == 0 && Offset(regs, Quantum, 0) == 0;
    forall slot | slot in FlatMap(regs, Quantum, 1) ensures FlatMap(regs, Quantum, 1)[slot] != 1 {
      assert FlatMap(regs, Quantum, 0) == map[];
      SlotAt(regs[0], 0, 1, slot);
    }
  }

  // ---- gates

  datatype Gate =
    | I | X | Y | Z | H | S | Sdg | T | Tdg | SX
    | RX | RY | RZ | P | U
    | CX | CY | CZ | SWAP | RXX | RYY | RZZ | CP | CRz | RBS
    | CCX | CSWAP | Barrier | Reset | Measure | Photonic

  datatype Native =
    | NId | NX | NY | NZ | NH | NS | NSdg | NT | NTdg | NRx | NRy | NRz | NU1 | NU3
    | NCX | NCY | NCZ | NSwap | NCU3 | NCRz | NRbs | NCCX | NCSwap | NBarrier | NReset | NMeasure

  /** The gate that runs, if there is one. */
  function NativeOf(g: Gate): Option<Native> {
    match g
    case I => Some(NId) case X => Some(NX) case Y => Some(NY) case Z => Some(NZ) case H => Some(NH)
    case S => Some(NS) case Sdg => Some(NSdg) case T => Some(NT) case Tdg => Some(NTdg)
    case RX => Some(NRx) case RY => Some(NRy) case RZ => Some(NRz) case P => Some(NU1) case U => Some(NU3)
    case CX => Some(NCX) case CY => Some(NCY) case CZ => Some(NCZ) case SWAP => Some(NSwap)
    case CP => Some(NCU3) case CRz => Some(NCRz) case RBS => Some(NRbs)
    case CCX => Some(NCCX) case CSWAP => Some(NCSwap)
    case Barrier => Some(NBarrier) case Reset => Some(NReset) case Measure => Some(NMeasure)
    case _ => None
  }

  /** Gates whose parameters are translated. */
  predicate TakesParameters(g: Gate) {
    g in {RX, RY, RZ, P, U, CRz, RBS}
  }

  datatype Instruction = Instruction(
    gate: Gate, params: seq<Expr>, qubits: seq<Slot>, clbits: seq<Slot>, condition: Option<(Slot, nat)>)

  datatype Op = Op(gate: Native, qubits: seq<nat>, params: seq<Lowered>, clbit: Option<nat>, condition: Option<(nat, nat, nat)>)

  datatype LowerError = BadParameter(why: ConvError) | MissingParameter | NoLowering | UnknownQubit(slot: Slot) | UnknownClbit(slot: Slot)

  /** The source parameters that reach the executed gate. */
  function Carried(inst: Instruction): seq<Expr> {
    if TakesParameters(inst.gate) then inst.params
    else if inst.gate == CP && inst.params != [] then inst.params[..1]
    else []
  }

  ghost predicate Lowerable(maths: Maths, inst: Instruction, qubits: map<Slot, nat>, clbits: map<Slot, nat>) {
    && NativeOf(inst.gate).Some?
    && (inst.gate == CP ==> inst.params != [])
    && (forall i | 0 <= i < |Carried(inst)| :: Convertible(maths, Carried(inst)[i]))
    && (forall i | 0 <= i < |inst.qubits| :: inst.qubits[i] in qubits)
    && (inst.condition.Some? ==> inst.condition.value.0 in clbits)
  }

  /** The executed parameters: a controlled phase gets two zero angles in front. */
  ghost predicate ParamsFor(maths: Maths, inst: Instruction, params: seq<Lowered>, ids: map<string, nat>) {
    var front := if inst.gate == CP then 2 else 0;
    && |params| == front + |Carried(inst)|
    && (inst.gate == CP ==> params[0] == Value(0.0) && params[1] == Value(0.0))
    && ImagesOf(maths, Carried(inst), params[front..], ids)
  }

  ghost predicate OpFor(maths: Maths, inst: Instruction, op: Op, qubits: map<Slot, nat>, clbits: map<Slot, nat>, ids: map<string, nat>) {
    && NativeOf(inst.gate) == Some(op.gate)
    && ParamsFor(maths, inst, op.params, ids)
    && |op.qubits| == |inst.qubits|
    && (forall i | 0 <= i < |inst.qubits| :: inst.qubits[i] in qubits && op.qubits[i] == qubits[inst.qubits[i]])
    && op.clbit == (if inst.clbits != [] && inst.clbits[0] in clbits then Some(clbits[inst.clbits[0]]) else None)
    && (inst.condition.None? ==> op.condition.None?)
    && (inst.condition.Some? ==> inst.condition.value.0 in clbits)
    && (inst.condition.Some? ==> op.condition == Some((clbits[inst.condition.value.0], 1, inst.condition.value.1)))
  }

  lemma ParamsStable(maths: Maths, inst: Instruction, params: seq<Lowered>, ids: map<string, nat>, more: map<string, nat>)
    requires ParamsFor(maths, inst, params, ids) && Extends(more, ids)
    ensures ParamsFor(maths, inst, params, more)
  {
    ImagesStable(maths, Carried(inst), params[if inst.gate == CP then 2 else 0..], ids, more);
  }

  method LowerParams(maths: Maths, inst: Instruction, tab: SymTab) returns (r: Result<seq<Lowered>, LowerError>)
    requires tab.Valid() && NativeOf(inst.gate).Some?
    modifies tab
    ensures tab.Valid() && Extends(tab.ids, old(tab.ids))
    ensures r.Ok? <==> (inst.gate == CP ==> inst.params != []) && forall i | 0 <= i < |Carried(inst)| :: Convertible(maths, Carried(inst)[i])
    ensures r.Ok? ==> tab.walk == old(tab.walk) + AllSymbols(Carried(inst)) && ParamsFor(maths, inst, r.value, tab.ids)
  {
    hide SymTab.Valid, Extends, Convertible, Symbols, ImageOf, Image, Covered;
    ExtendsItself(tab.ids);
    if TakesParameters(inst.gate) {
      assert Carried(inst) == inst.params && inst.gate != CP;
      var all := tab.ConvAll(maths, inst.params);
      if all.Err? {
        return Err(BadParameter(all.error));
      }
      assert all.value[0..] == all.value;
      return Ok(all.value);
    }
    if inst.gate == CP {
      if inst.params == [] {
        return Err(MissingParameter);
      }
      assert Carried(inst) == [inst.params[0]];
      assert AllSymbols([inst.params[0]]) == AllSymbols([]) + Symbols(inst.params[0]);
      var lam := tab.Conv(maths, inst.params[0]);
      if lam.Err? {
        return Err(BadParameter(lam.error));
      }
      var out := [Value(0.0), Value(0.0), lam.value];
      assert out[2..] == [lam.value];
      return Ok(out);
    }
    return Ok([]);
  }

  method LowerQubits(inst: Instruction, qubits: map<Slot, nat>) returns (r: Result<seq<nat>, LowerError>)
    ensures r.Ok? <==> forall i | 0 <= i < |inst.qubits| :: inst.qubits[i] in qubits
    ensures r.Ok? ==> |r.value| == |inst.qubits| && forall i | 0 <= i < |inst.qubits| :: r.value[i] == qubits[inst.qubits[i]]
  {
    var out: seq<nat> := [];
    for i := 0 to |inst.qubits|
      invariant |out| == i && forall j | 0 <= j < i :: inst.qubits[j] in qubits && out[j] == qubits[inst.qubits[j]]
    {
      if inst.qubits[i] !in qubits {
        return Err(UnknownQubit(inst.qubits[i]));
      }
      out := out + [qubits[inst.qubits[i]]];
    }
    return Ok(out);
  }

  method LowerInstruction(maths: Maths, inst: Instruction, qubits: map<Slot, nat>, clbits: map<Slot, nat>, tab: SymTab)
    returns (r: Result<Op, LowerError>)
    requires tab.Valid()
    modifies tab
    ensures tab.Valid() && Extends(tab.ids, old(tab.ids))
    ensures r.Ok? <==> Lowerable(maths, inst, qubits, clbits)
    ensures r.Ok? ==> tab.walk == old(tab.walk) + AllSymbols(Carried(inst)) && OpFor(maths, inst, r.value, qubits, clbits, tab.ids)
  {
    hide SymTab.Valid, Extends, Convertible, ParamsFor, Carried, AllSymbols;
    ExtendsItself(tab.ids);
    var gate := NativeOf(inst.gate);
    if gate.None? {
      return Err(NoLowering);
    }
    hide NativeOf;
    var params := LowerParams(maths, inst, tab);
    if params.Err? {
      return Err(params.error);
    }
    var wires := LowerQubits(inst, qubits);
    if wires.Err? {
      return Err(wires.error);
    }
    var clbit := if inst.clbits != [] && inst.clbits[0] in clbits then Some(clbits[inst.clbits[0]]) else None;
    var condition: Option<(nat, nat, nat)> := None;
    if inst.condition.Some? {
      var (slot, v) := inst.condition.value;
      if slot !in clbits {
        return Err(UnknownClbit(slot));
      }
      condition := Some((clbits[slot], 1, v));
    }
    return Ok(Op(gate.value, wires.value, params.value, clbit, condition));
  }

  // ---- collapse

  predicate IsMeta(g: Gate) { g == Barrier || g == Measure || g == I }

  /** Some gate that acts follows some measurement. */
  ghost predicate ActsAfterMeasure(insts: seq<Instruction>) {
    exists i, j :: 0 <= i < j < |insts| && insts[i].gate == Measure && !IsMeta(insts[j].gate)
  }

  /** Whether measurements have to collapse the state: look behind the first one only. */
  method NeedsCollapse(insts: seq<Instruction>) returns (r: bool)
    ensures r <==> ActsAfterMeasure(insts)
  {
    var i := 0;
    while i < |insts| && insts[i].gate != Measure
      invariant i <= |insts| && forall j | 0 <= j < i :: insts[j].gate != Measure
    {
      i := i + 1;
    }
    r := false;
    if i < |insts| {
      var j := i + 1;
      while j < |insts|
        invariant i < j <= |insts| && forall k | i < k < j :: IsMeta(insts[k].gate)
      {
        if !IsMeta(insts[j].gate) {
          return true;
        }
        j := j + 1;
      }
    }
  }

  // ---- the circuit

  datatype Circuit = Circuit(registers: seq<Register>, instructions: seq<Instruction>)

  datatype LoweredCircuit = LoweredCircuit(
    wires: nat, clbits: nat, ops: seq<Op>, symbols: map<nat, string>, ids: map<string, nat>, collapse: bool)

  /** The symbols met by the first k instructions, in order. */
  function Walk(insts: seq<Instruction>, k: nat): seq<string>
    requires k <= |insts|
  {
    if k == 0 then [] else Walk(insts, k - 1) + AllSymbols(Carried(insts[k - 1]))
  }

  ghost predicate OpsFor(maths: Maths, insts: seq<Instruction>, ops: seq<Op>, qubits: map<Slot, nat>, clbits: map<Slot, nat>, ids: map<string, nat>) {
    |ops| <= |insts| && forall i | 0 <= i < |ops| :: OpFor(maths, insts[i], ops[i], qubits, clbits, ids)
  }

  lemma OpsStable(maths: Maths, insts: seq<Instruction>, ops: seq<Op>, qubits: map<Slot, nat>, clbits: map<Slot, nat>,
                  ids: map<string, nat>, more: map<string, nat>)
    requires OpsFor(maths, insts, ops, qubits, clbits, ids) && Extends(more, ids)
    ensures OpsFor(maths, insts, ops, qubits, clbits, more)
  {
    hide ParamsFor, Extends;
    forall i | 0 <= i < |ops| ensures OpFor(maths, insts[i], ops[i], qubits, clbits, more) {
      ParamsStable(maths, insts[i], ops[i].params, ids, more);
    }
  }

  /** The names by id. */
  method NamesById(ids: map<string, nat>, ghost next: nat, ghost walk: seq<string>) returns (names: map<nat, string>)
    requires Numbered(ids, next, walk)
    ensures forall s | s in ids :: ids[s] in names && names[ids[s]] == s
    ensures forall i | i in names :: names[i] in ids && ids[names[i]] == i
  {
    names := map[];
    var rest := ids.Keys;
    IdsAreDense(ids, next, walk);
    hide Numbered;
    while rest != {}
      invariant rest <= ids.Keys
      invariant forall s | s in ids && s !in rest :: ids[s] in names && names[ids[s]] == s
      invariant forall i | i in names :: names[i] in ids && ids[names[i]] == i
    {
      var s :| s in rest;
      names := names[ids[s] := s];
      rest := rest - {s};
    }
  }

  /** The whole lowering. */
  method Lower(maths: Maths, circuit: Circuit) returns (r: Result<LoweredCircuit, LowerError>)
    ensures var qubits, clbits := FlatMap(circuit.registers, Quantum, |circuit.registers|), FlatMap(circuit.registers, Classical, |circuit.registers|);
      && (r.Ok? <==> forall i | 0 <= i < |circuit.instructions| :: Lowerable(maths, circuit.instructions[i], qubits, clbits))
      && (r.Ok? ==> |r.value.ops| == |circuit.instructions| && OpsFor(maths, circuit.instructions, r.value.ops, qubits, clbits, r.value.ids))
    ensures r.Ok? ==> Numbered(r.value.ids, |r.value.ids|, Walk(circuit.instructions, |circuit.instructions|))
    ensures r.Ok? ==> forall s | s in r.value.ids :: r.value.ids[s] in r.value.symbols && r.value.symbols[r.value.ids[s]] == s
    ensures r.Ok? ==> (r.value.collapse <==> ActsAfterMeasure(circuit.instructions))
    ensures r.Ok? ==> r.value.wires == WireTotal(circuit.registers, |circuit.registers|)
    ensures r.Ok? ==> r.value.clbits == Offset(circuit.registers, Classical, |circuit.registers|)
  {
    var qubits, clbits, _, nc := Flatten(circuit.registers);
    var tab := new SymTab();
    var insts := circuit.instructions;
    var ops: seq<Op> := [];
    hide OpFor, Extends, Lowerable, FlatMap, Carried, AllSymbols, Numbered, ActsAfterMeasure;
    for k := 0 to |insts|
      invariant fresh(tab) && tab.Valid() && tab.walk == Walk(insts, k)
      invariant |ops| == k && OpsFor(maths, insts, ops, qubits, clbits, tab.ids)
      invariant forall i | 0 <= i < k :: Lowerable(maths, insts[i], qubits, clbits)
    {
      ghost var before := tab.ids;
      var op := LowerInstruction(maths, insts[k], qubits, clbits, tab);
      if op.Err? {
        return Err(op.error);
      }
      OpsStable(maths, insts, ops, qubits, clbits, before, tab.ids);
      ops := ops + [op.value];
    }
    var collapse := NeedsCollapse(insts);
    var wires := CountWires(circuit.registers);
    var names := NamesById(tab.ids, tab.next, tab.walk);
    NumberedSize(tab.ids, tab.next, tab.walk);
    return Ok(LoweredCircuit(wires, nc, ops, names, tab.ids, collapse));
  }

  method CountWires(regs: seq<Register>) returns (n: nat)
    ensures n == WireTotal(regs, |regs|)
  {
    n := 0;
    for k := 0 to |regs|
      invariant n == WireTotal(regs, k)
    {
      if regs[k].kind == Quantum {
        n := n + if regs[k].spin then 2 * regs[k].size else regs[k].size;
      }
    }
  }

  /** There are as many ids as symbols. */
  lemma NumberedSize(ids: map<string, nat>, next: nat, walk: seq<string>)
    requires Numbered(ids, next, walk)
    ensures |ids| == next
  {
    var order := FirstAppearances(walk);
    DistinctSize(order, ids.Keys);
  }

  lemma {:induction false} DistinctSize(order: seq<string>, s: set<string>)
    requires (forall i, j | 0 <= i < j < |order| :: order[i] != order[j]) && forall x :: x in s <==> x in order
    ensures |s| == |order|
  {
    if order == [] {
      assert s == {};
    } else {
      var last := order[|order| - 1];
      forall x ensures x in s - {last} <==> x in order[..|order| - 1] {
        if x in s - {last} {
          var i :| 0 <= i < |order| && order[i] == x;
          assert order[..|order| - 1][i] == x;
        }
      }
      DistinctSize(order[..|order| - 1], s - {last});
    }
  }

  /**
    The lowered circuit means what the source circuit meant: with a value for each
    symbol, listed in id order, every parameter that reaches a gate evaluates to the
    same number, or fails in both.
  */
  lemma LoweringMeans(maths: Maths, circuit: Circuit, low: LoweredCircuit, values: seq<real>, b: map<string, real>,
                      qubits: map<Slot, nat>, clbits: map<Slot, nat>, i: nat, j: nat)
    requires OpsFor(maths, circuit.instructions, low.ops, qubits, clbits, low.ids) && i < |low.ops|
    requires Numbered(low.ids, |low.ids|, Walk(circuit.instructions, |circuit.instructions|))
    requires |values| == |low.ids| && forall s | s in low.ids :: low.ids[s] < |values| && s in b && b[s] == values[low.ids[s]]
    requires j < |Carried(circuit.instructions[i])| && Lowerable(maths, circuit.instructions[i], qubits, clbits)
    ensures var inst := circuit.instructions[i];
      var front := if inst.gate == CP then 2 else 0;
      front + j < |low.ops[i].params| &&
      Agree(Eval(maths, Carried(inst)[j], b), Resolve(low.ops[i].params[front + j], FlatBinding(values)))
  {
    var inst := circuit.instructions[i];
    var front := if inst.gate == CP then 2 else 0;
    assert OpFor(maths, inst, low.ops[i], qubits, clbits, low.ids);
    hide Carried, Convertible, Image, Covered, Numbered, SameBinding, Eval, Resolve, Agree, Walk, ParamsFor, OpsFor, AllSymbols;
    FlatBindingMeans(low.ids, |low.ids|, Walk(circuit.instructions, |circuit.instructions|), values, b);
    ParamImage(maths, inst, low.ops[i].params, low.ids, j);
    ImageMeans(maths, Carried(inst)[j], low.ids, b, FlatBinding(values));
  }

  lemma ParamImage(maths: Maths, inst: Instruction, params: seq<Lowered>, ids: map<string, nat>, j: nat)
    requires ParamsFor(maths, inst, params, ids) && j < |Carried(inst)|
    ensures var front := if inst.gate == CP then 2 else 0;
      front + j < |params| && Covered(Carried(inst)[j], ids) && params[front + j] == Image(maths, Carried(inst)[j], ids)
  {
    hide Carried, Image, Covered;
    var front := if inst.gate == CP then 2 else 0;
    assert ImageOf(maths, Carried(inst)[j], params[front..][j], ids);
  }
}
