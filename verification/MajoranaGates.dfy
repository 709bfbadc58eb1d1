/**
  The gate table of the Majorana engine, and the whole expectation door: what a
  circuit of gates does is stated with Pauli rotations only, and the value the
  engine returns is proved to be within its discarded mass of that.
*/
module MajoranaGates {
  import opened Wrappers
  import opened Linear
  import opened Bits
  import opened ComplexNumbers
  import opened Majorana
  import opened MajoranaFock
  import opened MajoranaPauli
  import opened MajoranaEngine
  import opened MajoranaBranch
  import opened MajoranaPropagate
  import opened MajoranaCertificate
  import opened PauliTerms
  import opened MajoranaDoor

  /** The cosine and sine of half an angle, and the angle pi. */
  datatype Trig = Trig(cosHalf: real -> real, sinHalf: real -> real, pi: real) {
    ghost predicate Valid() {
      && (forall t :: Circle(t))
      && cosHalf(0.0) == 1.0 && sinHalf(0.0) == 0.0
      && cosHalf(pi) == 0.0
      && Times(cosHalf(pi / 2.0), cosHalf(pi / 2.0)) == Times(sinHalf(pi / 2.0), sinHalf(pi / 2.0))
    }

    /** A point of the unit circle, mirrored for the opposite angle. */
    ghost predicate Circle(t: real) {
      && Times(cosHalf(t), cosHalf(t)) + Times(sinHalf(t), sinHalf(t)) == 1.0
      && cosHalf(-t) == cosHalf(t) && sinHalf(-t) == -sinHalf(t)
    }
  }

  /** A rotation exp(-i theta P / 2) by a Pauli string. */
  type PauliTurn = (Sites, real)

  datatype Gate =
    | Id | Barrier | Measure
    | PauliX(q: nat) | PauliY(q: nat) | PauliZ(q: nat)
    | S(q: nat) | Sdg(q: nat) | T(q: nat) | Tdg(q: nat) | Sx(q: nat) | Sxdg(q: nat) | H(q: nat)
    | Rx(q: nat, theta: real) | Ry(q: nat, theta: real) | Rz(q: nat, theta: real) | U1(q: nat, theta: real)
    | U3(q: nat, theta: real, phi: real, lam: real) | U2(q: nat, phi: real, lam: real)
    | CZ(q: nat, r: nat) | CX(q: nat, r: nat) | CY(q: nat, r: nat) | Swap(q: nat, r: nat)
    | CRz(q: nat, r: nat, theta: real) | CU3(q: nat, r: nat, theta: real, phi: real, lam: real)
    | Rbs(q: nat, r: nat, theta: real)
    | CCX(q: nat, r: nat, t: nat) | CSwap(q: nat, r: nat, t: nat)
    | Other

  function One(q: nat, p: Pauli, theta: real): PauliTurn { ([(q, p)], theta) }

  function Two(q: nat, p: Pauli, r: nat, s: Pauli, theta: real): PauliTurn { ([(q, p), (r, s)], theta) }

  function HTurns(q: nat, pi: real): seq<PauliTurn> {
    [One(q, X, pi / 2.0), One(q, Z, pi / 2.0), One(q, X, pi / 2.0)]
  }

  function CPTurns(q: nat, r: nat, lam: real): seq<PauliTurn> {
    [One(q, Z, lam / 2.0), One(r, Z, lam / 2.0), Two(q, Z, r, Z, -(lam / 2.0))]
  }

  function CXTurns(q: nat, r: nat, pi: real): seq<PauliTurn> {
    HTurns(r, pi) + CPTurns(q, r, pi) + HTurns(r, pi)
  }

  function CCZTurns(q: nat, r: nat, t: nat, pi: real): seq<PauliTurn> {
    var a := pi / 4.0;
    [One(q, Z, a), One(r, Z, a), One(t, Z, a), Two(q, Z, r, Z, -a), Two(q, Z, t, Z, -a), Two(r, Z, t, Z, -a),
     ([(q, Z), (r, Z), (t, Z)], a)]
  }

  function CCXTurns(q: nat, r: nat, t: nat, pi: real): seq<PauliTurn> {
    HTurns(t, pi) + CCZTurns(q, r, t, pi) + HTurns(t, pi)
  }

  /** The gate table: each gate as Pauli rotations in forward order, or nothing if it has no entry. */
  function TurnsFor(gate: Gate, pi: real): Option<seq<PauliTurn>> {
    var half, quarter := pi / 2.0, pi / 4.0;
    match gate
    case Id => Some([])
    case Barrier => Some([])
    case Measure => Some([])
    case PauliX(q) => Some([One(q, X, pi)])
    case PauliY(q) => Some([One(q, Y, pi)])
    case PauliZ(q) => Some([One(q, Z, pi)])
    case S(q) => Some([One(q, Z, half)])
    case Sdg(q) => Some([One(q, Z, -half)])
    case T(q) => Some([One(q, Z, quarter)])
    case Tdg(q) => Some([One(q, Z, -quarter)])
    case Sx(q) => Some([One(q, X, half)])
    case Sxdg(q) => Some([One(q, X, -half)])
    case H(q) => Some(HTurns(q, pi))
    case Rx(q, theta) => Some([One(q, X, theta)])
    case Ry(q, theta) => Some([One(q, Y, theta)])
    case Rz(q, theta) => Some([One(q, Z, theta)])
    case U1(q, theta) => Some([One(q, Z, theta)])
    case U3(q, theta, phi, lam) => Some([One(q, Z, lam), One(q, Y, theta), One(q, Z, phi)])
    case U2(q, phi, lam) => Some([One(q, Z, lam), One(q, Y, half), One(q, Z, phi)])
    case CZ(q, r) => Some(CPTurns(q, r, pi))
    case CX(q, r) => Some(CXTurns(q, r, pi))
    case CY(q, r) => Some([One(r, Z, -half)] + CXTurns(q, r, pi) + [One(r, Z, half)])
    case Swap(q, r) => Some([Two(q, X, r, X, -half), Two(q, Y, r, Y, -half), Two(q, Z, r, Z, -half)])
    case CRz(q, r, theta) => Some([One(r, Z, theta / 2.0), Two(q, Z, r, Z, -(theta / 2.0))])
    case CU3(q, r, theta, phi, lam) =>
      if Abs(theta) > 1e-12 || Abs(phi) > 1e-12 then None else Some(CPTurns(q, r, lam))
    case Rbs(q, r, theta) => Some([Two(q, Y, r, X, theta), Two(q, X, r, Y, -theta)])
    case CCX(q, r, t) => Some(CCXTurns(q, r, t, pi))
    case CSwap(q, r, t) => Some(CXTurns(t, r, pi) + CCXTurns(q, r, t, pi) + CXTurns(t, r, pi))
    case Other => None
  }

  // ---- one Pauli rotation

  predicate TurnInRange(n: nat, turn: PauliTurn) { InRange(n, turn.0) }

  /** The state after exp(-i theta P / 2). */
  ghost function PauliTurned(n: nat, trig: Trig, turn: PauliTurn, psi: Vector): Vector
    requires TurnInRange(n, turn)
  {
    Combine(trig.cosHalf(turn.1), psi, -trig.sinHalf(turn.1),
            TimesIVector(1, PauliApply(n, XBits(n, turn.0), ZBits(n, turn.0), psi)))
  }

  /** A Majorana rotation that turns every state as the Pauli rotation does. */
  ghost predicate Realises(n: nat, trig: Trig, turn: PauliTurn, rot: Rot)
    requires TurnInRange(n, turn)
  {
    rot.Valid(n) && forall psi: Vector :: SameVector(n, Rotor(n, rot.key, rot.u, rot.v, psi), PauliTurned(n, trig, turn, psi))
  }

  lemma TurnIsRotor(n: nat, trig: Trig, turn: PauliTurn, key: Bits, e: nat, psi: Vector)
    requires trig.Valid() && TurnInRange(n, turn) && |key| == 2 * n && (e == 0 || e == 2)
    requires Represents(n, key, e, XBits(n, turn.0), ZBits(n, turn.0))
    ensures var theta := turn.1 * SignOfExponent(e);
      SameVector(n, Rotor(n, key, trig.cosHalf(theta), trig.sinHalf(theta), psi), PauliTurned(n, trig, turn, psi))
  {
    hide Represents, PauliApply, Apply, XBits, ZBits;
    var theta := turn.1 * SignOfExponent(e);
    var u, v := trig.cosHalf(theta), trig.sinHalf(theta);
    var m := Apply(n, key, psi);
    PauliIsMonomial(n, key, e, XBits(n, turn.0), ZBits(n, turn.0), psi);
    assert trig.Circle(turn.1);
    forall o | |o| == n ensures Rotor(n, key, u, v, psi)(o) == PauliTurned(n, trig, turn, psi)(o) {
      assert PauliApply(n, XBits(n, turn.0), ZBits(n, turn.0), psi)(o) == TimesIVector(e, m)(o);
      SignedI(e, v, m(o));
    }
  }

  lemma SignedI(e: nat, v: real, a: Complex)
    requires e == 0 || e == 2
    ensures Scale(-v, TimesI(1, a)) == Scale(-(if e == 0 then v else -v), TimesI(1, TimesI(e, a)))
  {
  }

  lemma UnitOfTrig(trig: Trig, theta: real)
    requires trig.Valid()
    ensures trig.cosHalf(theta) * trig.cosHalf(theta) + trig.sinHalf(theta) * trig.sinHalf(theta) == 1.0
  {
    assert trig.Circle(theta);
  }

  /** The rotation exp(-i theta P / 2) as a Majorana rotation with the sign of the encoding folded in. */
  method PauliRot(n: nat, trig: Trig, turn: PauliTurn) returns (rot: Rot)
    requires trig.Valid() && TurnInRange(n, turn)
    ensures Realises(n, trig, turn, rot)
    ensures FromTurn(n, trig, turn, rot)
  {
    hide Represents, KeyUpTo, Rotor, PauliTurned, SameVector, XBits, ZBits;
    var bits := Collect(n, turn.0);
    var key, e, _ := FromPauli(bits.value.0, bits.value.1);
    var theta := turn.1 * (if e == 0 then 1.0 else -1.0);
    assert trig.Circle(turn.1);
    UnitOfTrig(trig, theta);
    rot := Rot(key, theta == 0.0, trig.cosHalf(theta), trig.sinHalf(theta));
    forall psi: Vector
      ensures SameVector(n, Rotor(n, rot.key, rot.u, rot.v, psi), PauliTurned(n, trig, turn, psi))
    {
      TurnIsRotor(n, trig, turn, key, e, psi);
    }
  }

  // ---- lists of rotations and circuits

  predicate TurnsInRange(n: nat, turns: seq<PauliTurn>) {
    forall i | 0 <= i < |turns| :: TurnInRange(n, turns[i])
  }

  ghost function AllTurned(n: nat, trig: Trig, turns: seq<PauliTurn>, k: nat, psi: Vector): Vector
    requires k <= |turns| && TurnsInRange(n, turns)
  {
    if k == 0 then psi else PauliTurned(n, trig, turns[k - 1], AllTurned(n, trig, turns, k - 1, psi))
  }

  lemma RotorSame(n: nat, c: Bits, u: real, v: real, psi: Vector, phi: Vector)
    requires |c| == 2 * n && SameVector(n, psi, phi)
    ensures SameVector(n, Rotor(n, c, u, v, psi), Rotor(n, c, u, v, phi))
  {
    hide TimesI, Scale, Add, MonomialPhase, Xor, Modes;
    forall o | |o| == n ensures Apply(n, c, psi)(o) == Apply(n, c, phi)(o) {
      assert psi(Xor(o, Modes(c, n))) == phi(Xor(o, Modes(c, n)));
    }
  }

  lemma SameChain(n: nat, a: Vector, b: Vector, c: Vector)
    requires SameVector(n, a, b) && SameVector(n, b, c)
    ensures SameVector(n, a, c)
  {
  }

  ghost predicate AllRealise(n: nat, trig: Trig, turns: seq<PauliTurn>, rots: seq<Rot>)
    requires TurnsInRange(n, turns)
  {
    |rots| == |turns| && forall i | 0 <= i < |turns| :: Realises(n, trig, turns[i], rots[i])
  }

  lemma RealiseValid(n: nat, trig: Trig, turns: seq<PauliTurn>, rots: seq<Rot>)
    requires TurnsInRange(n, turns) && AllRealise(n, trig, turns, rots)
    ensures AllValid(n, rots)
  {
  }

  lemma {:induction false} RotsTurn(n: nat, trig: Trig, turns: seq<PauliTurn>, rots: seq<Rot>, k: nat, psi: Vector, phi: Vector)
    requires TurnsInRange(n, turns) && AllRealise(n, trig, turns, rots) && k <= |rots| && SameVector(n, psi, phi)
    requires AllValid(n, rots[..k])
    ensures SameVector(n, Turned(n, rots[..k], psi), AllTurned(n, trig, turns, k, phi))
  {
    hide SameVector, Rotor, PauliTurned;
    if k == 0 {
    } else {
      assert rots[..k][..k - 1] == rots[..k - 1];
      assert AllValid(n, rots[..k - 1]);
      RotsTurn(n, trig, turns, rots, k - 1, psi, phi);
      var a, b, rot := Turned(n, rots[..k - 1], psi), AllTurned(n, trig, turns, k - 1, phi), rots[k - 1];
      assert Realises(n, trig, turns[k - 1], rot);
      RotorSame(n, rot.key, rot.u, rot.v, a, b);
      SameChain(n, Rotor(n, rot.key, rot.u, rot.v, a), Rotor(n, rot.key, rot.u, rot.v, b), PauliTurned(n, trig, turns[k - 1], b));
    }
  }

  /** A gate of a circuit, possibly waiting on a classical bit. */
  datatype GateOp = GateOp(conditioned: bool, gate: Gate)

  ghost predicate GateInRange(n: nat, trig: Trig, op: GateOp) {
    var turns := TurnsFor(op.gate, trig.pi);
    turns.Some? ==> TurnsInRange(n, turns.value)
  }

  ghost predicate CircuitInRange(n: nat, trig: Trig, gates: seq<GateOp>) {
    forall i | 0 <= i < |gates| :: GateInRange(n, trig, gates[i])
  }

  /** A circuit the engine can walk: no classical condition, and every gate in the table. */
  predicate Expressible(trig: Trig, op: GateOp) { !op.conditioned && TurnsFor(op.gate, trig.pi).Some? }

  ghost predicate AllExpressible(trig: Trig, gates: seq<GateOp>) {
    forall i | 0 <= i < |gates| :: Expressible(trig, gates[i])
  }

  /** The state after the first `k` gates, stated with Pauli rotations alone. */
  ghost function GatesRan(n: nat, trig: Trig, gates: seq<GateOp>, k: nat, psi: Vector): Vector
    requires k <= |gates| && CircuitInRange(n, trig, gates) && AllExpressible(trig, gates)
  {
    if k == 0 then psi else
      var turns := TurnsFor(gates[k - 1].gate, trig.pi).value;
      assert GateInRange(n, trig, gates[k - 1]);
      AllTurned(n, trig, turns, |turns|, GatesRan(n, trig, gates, k - 1, psi))
  }

  /** The rotations of one gate. */
  method RotationsFor(n: nat, trig: Trig, op: GateOp) returns (rots: Option<seq<Rot>>)
    requires trig.Valid() && GateInRange(n, trig, op)
    ensures rots.Some? <==> TurnsFor(op.gate, trig.pi).Some?
    ensures rots.Some? ==> AllRealise(n, trig, TurnsFor(op.gate, trig.pi).value, rots.value)
    ensures rots.Some? ==> AllFromTurns(n, trig, TurnsFor(op.gate, trig.pi).value, rots.value)
  {
    var turns := TurnsFor(op.gate, trig.pi);
    hide TurnsFor, Realises;
    if turns.None? {
      return None;
    }
    var out: seq<Rot> := [];
    for i := 0 to |turns.value|
      invariant |out| == i
      invariant forall j | 0 <= j < i :: Realises(n, trig, turns.value[j], out[j])
      invariant forall j | 0 <= j < i :: FromTurn(n, trig, turns.value[j], out[j])
    {
      var rot := PauliRot(n, trig, turns.value[i]);
      out := out + [rot];
    }
    return Some(out);
  }

  /** The rotation has the string's generators and the angle of the turn, up to its sign. */
  ghost predicate FromTurn(n: nat, trig: Trig, turn: PauliTurn, rot: Rot)
    requires TurnInRange(n, turn)
  {
    SameHalfAngle(trig, turn.1, rot) && |rot.key| == 2 * n && KeyUpTo(n, rot.key, XBits(n, turn.0), ZBits(n, turn.0), n)
  }

  ghost predicate AllFromTurns(n: nat, trig: Trig, turns: seq<PauliTurn>, rots: seq<Rot>)
    requires TurnsInRange(n, turns)
  {
    |rots| == |turns| && forall i | 0 <= i < |turns| :: FromTurn(n, trig, turns[i], rots[i])
  }

  ghost predicate SameHalfAngle(trig: Trig, theta: real, rot: Rot) {
    rot.u == trig.cosHalf(theta) && (rot.v == trig.sinHalf(theta) || rot.v == -trig.sinHalf(theta))
  }

  ghost predicate Compiled(n: nat, trig: Trig, gate: GateOp, op: Op)
    requires GateInRange(n, trig, gate)
  {
    var turns := TurnsFor(gate.gate, trig.pi);
    && op.conditioned == gate.conditioned
    && (op.rots.Some? <==> turns.Some?)
    && (turns.Some? ==> AllRealise(n, trig, turns.value, op.rots.value))
    && (turns.Some? ==> AllFromTurns(n, trig, turns.value, op.rots.value))
  }

  ghost predicate AllCompiled(n: nat, trig: Trig, gates: seq<GateOp>, ops: seq<Op>)
    requires CircuitInRange(n, trig, gates)
  {
    |ops| == |gates| && forall i | 0 <= i < |gates| :: GateInRange(n, trig, gates[i]) && Compiled(n, trig, gates[i], ops[i])
  }

  lemma CompiledReady(n: nat, trig: Trig, gates: seq<GateOp>, ops: seq<Op>)
    requires CircuitInRange(n, trig, gates) && AllCompiled(n, trig, gates, ops)
    ensures Ready(n, ops) && (AllAccepted(ops) <==> AllExpressible(trig, gates))
  {
    hide TurnsFor, Realises;
    forall i | 0 <= i < |ops| && ops[i].rots.Some? ensures AllValid(n, ops[i].rots.value) {
      assert Compiled(n, trig, gates[i], ops[i]);
      RealiseValid(n, trig, TurnsFor(gates[i].gate, trig.pi).value, ops[i].rots.value);
    }
    forall i | 0 <= i < |ops| ensures Accepted(ops[i]) <==> Expressible(trig, gates[i]) {
      assert Compiled(n, trig, gates[i], ops[i]);
    }
    if AllAccepted(ops) {
      forall i | 0 <= i < |gates| ensures Expressible(trig, gates[i]) { assert Accepted(ops[i]); }
    }
  }

  /** The compiled circuit turns states as the gates do. */
  lemma {:induction false} CompiledRan(n: nat, trig: Trig, gates: seq<GateOp>, ops: seq<Op>, k: nat, psi: Vector)
    requires CircuitInRange(n, trig, gates) && AllCompiled(n, trig, gates, ops) && AllExpressible(trig, gates)
    requires k <= |ops| && Ready(n, ops) && AllAccepted(ops)
    ensures SameVector(n, Ran(n, ops, k, psi), GatesRan(n, trig, gates, k, psi))
  {
    hide TurnsFor, Turned, AllTurned, AllRealise;
    if k == 0 {
    } else {
      CompiledRan(n, trig, gates, ops, k - 1, psi);
      assert Compiled(n, trig, gates[k - 1], ops[k - 1]);
      var turns, rots := TurnsFor(gates[k - 1].gate, trig.pi).value, ops[k - 1].rots.value;
      assert rots[..|rots|] == rots;
      RealiseCount(n, trig, turns, rots);
      RotsTurn(n, trig, turns, rots, |rots|, Ran(n, ops, k - 1, psi), GatesRan(n, trig, gates, k - 1, psi));
    }
  }

  lemma RealiseCount(n: nat, trig: Trig, turns: seq<PauliTurn>, rots: seq<Rot>)
    requires TurnsInRange(n, turns) && AllRealise(n, trig, turns, rots)
    ensures |rots| == |turns|
  {
  }

  lemma ReadoutSame(n: nat, x: Bits, z: Bits, psi: Vector, phi: Vector)
    requires |x| == |z| == n && SameVector(n, psi, phi)
    ensures PauliReadout(n, x, z, psi) == PauliReadout(n, x, z, phi)
  {
    hide TimesI, PauliPhase, Xor, Pair;
    forall o | |o| == n ensures PauliApply(n, x, z, psi)(o) == PauliApply(n, x, z, phi)(o) {
      assert psi(Xor(o, x)) == phi(Xor(o, x));
    }
    PairSame(n, psi, PauliApply(n, x, z, psi), phi, PauliApply(n, x, z, phi));
  }

  lemma {:induction false} ObservableSame(n: nat, obs: Observable, k: nat, psi: Vector, phi: Vector)
    requires k <= |obs| && SameVector(n, psi, phi) && forall i | 0 <= i < k :: InRange(n, obs[i].1)
    ensures MarkedReading(n, obs, k, psi) == MarkedReading(n, obs, k, phi)
  {
    hide PauliReadout, XBits, ZBits, SameVector;
    if k == 0 {
    } else {
      ObservableSame(n, obs, k - 1, psi, phi);
      ReadoutSame(n, XBits(n, obs[k - 1].1), ZBits(n, obs[k - 1].1), psi, phi);
    }
  }

  method Compile(n: nat, trig: Trig, gates: seq<GateOp>) returns (ops: seq<Op>)
    requires trig.Valid() && CircuitInRange(n, trig, gates)
    ensures AllCompiled(n, trig, gates, ops)
  {
    hide TurnsFor, AllRealise;
    ops := [];
    for i := 0 to |gates|
      invariant |ops| == i
      invariant forall j | 0 <= j < i :: Compiled(n, trig, gates[j], ops[j])
    {
      assert GateInRange(n, trig, gates[i]);
      var rots := RotationsFor(n, trig, gates[i]);
      if rots.Some? {
        RealiseCount(n, trig, TurnsFor(gates[i].gate, trig.pi).value, rots.value);
      }
      var op := Op(gates[i].conditioned, rots);
      assert Compiled(n, trig, gates[i], op);
      ops := ops + [op];
    }
  }

  // ---- the door

  datatype DoorFailure = NoSuchQubit(q: nat) | Run(failure: Failure)

  /** The expectation of the observable after the gates have acted on the vacuum. */
  ghost function Expected(n: nat, trig: Trig, obs: Observable, gates: seq<GateOp>): real
    requires CircuitInRange(n, trig, gates) && AllExpressible(trig, gates) && forall k | 0 <= k < |obs| :: InRange(n, obs[k].1)
  {
    ObservableReading(n, obs, |obs|, GatesRan(n, trig, gates, |gates|, Vacuum(n)))
  }

  /** The same for the strings that the marks of the terms stand for. */
  ghost function MarkedExpected(n: nat, trig: Trig, obs: Observable, gates: seq<GateOp>): real
    requires CircuitInRange(n, trig, gates) && AllExpressible(trig, gates) && forall k | 0 <= k < |obs| :: InRange(n, obs[k].1)
  {
    MarkedReading(n, obs, |obs|, GatesRan(n, trig, gates, |gates|, Vacuum(n)))
  }

  lemma ExpectedIsMarked(n: nat, trig: Trig, obs: Observable, gates: seq<GateOp>)
    requires CircuitInRange(n, trig, gates) && AllExpressible(trig, gates) && AllMultiplyOut(n, obs)
    ensures Expected(n, trig, obs, gates) == MarkedExpected(n, trig, obs, gates)
  {
    hide GatesRan, MarkedReading, ObservableReading, MultipliesOut;
    MarkedIsTrue(n, obs, |obs|, GatesRan(n, trig, gates, |gates|, Vacuum(n)));
  }

  lemma SeedTruth(n: nat, trig: Trig, obs: Observable, gates: seq<GateOp>, ops: seq<Op>, seed: Terms)
    requires CircuitInRange(n, trig, gates) && AllCompiled(n, trig, gates, ops) && AllExpressible(trig, gates)
    requires Ready(n, ops) && AllAccepted(ops) && Seeded(n, seed, obs, |obs|)
    ensures Truth(n, seed, ops) == MarkedExpected(n, trig, obs, gates)
    ensures Abs(MarkedExpected(n, trig, obs, gates)) <= ObservableRange(obs, |obs|)
  {
    hide Ran, GatesRan, Vacuum, MarkedReading, L1;
    CompiledRan(n, trig, gates, ops, |ops|, Vacuum(n));
    ObservableSame(n, obs, |obs|, Ran(n, ops, |ops|, Vacuum(n)), GatesRan(n, trig, gates, |gates|, Vacuum(n)));
    TruthInRange(n, seed, ops);
  }

  /** Nothing can be cut: no cut is asked for, or the terms are within it and every gate keeps lengths. */
  ghost predicate Untouched(n: nat, obs: Observable, gates: seq<GateOp>, cuts: Cuts) {
    !cuts.Truncating() ||
    (cuts.coeffMin <= 0.0 && WithinCut(n, obs, |obs|, cuts.maxLength) && forall i | 0 <= i < |gates| :: Gentle(gates[i].gate))
  }

  lemma UntouchedCuts(n: nat, trig: Trig, gates: seq<GateOp>, ops: seq<Op>, obs: Observable, seed: Terms, cuts: Cuts)
    requires trig.Valid() && CircuitInRange(n, trig, gates) && AllCompiled(n, trig, gates, ops)
    requires ShortSoFar(n, seed, obs, |obs|) && Untouched(n, obs, gates, cuts)
    ensures NothingToCut(seed, ops, cuts)
  {
    hide AllCompiled, Gentle, WithinCut, Short, KeepLengths;
    if cuts.Truncating() {
      GentleCircuit(n, trig, gates, ops, seed, cuts);
    }
  }

  /**
    The expectation of a Pauli observable after a circuit, with its certificate.  A
    returned value is within the discarded mass of what the marks of the terms read,
    which is the expectation itself when every term multiplies out to its marks.
  */
  method ExpectationWithCertificate(n: nat, trig: Trig, gates: seq<GateOp>, obs: Observable, cuts: Cuts, maxDropped: Option<real>)
    returns (res: Result<Certificate, DoorFailure>)
    requires trig.Valid() && CircuitInRange(n, trig, gates)
    ensures res.Err? && res.error.NoSuchQubit? <==> exists k | 0 <= k < |obs| :: !InRange(n, obs[k].1)
    ensures res.Err? && res.error.Run? && res.error.failure.BadGate? <==>
      (forall k | 0 <= k < |obs| :: InRange(n, obs[k].1)) && !AllExpressible(trig, gates)
    ensures res.Err? && res.error.Run? && res.error.failure.Vacuous? ==> res.error.failure.dropped >= res.error.failure.ceiling
    ensures res.Ok? ==>
      && AllExpressible(trig, gates) && (forall k | 0 <= k < |obs| :: InRange(n, obs[k].1))
      && Abs(MarkedExpected(n, trig, obs, gates) - res.value.value) <= res.value.dropped
      && Abs(MarkedExpected(n, trig, obs, gates)) <= res.value.range
      && res.value.dropped < Ceiling(maxDropped, res.value.range, res.value.value)
    ensures res.Ok? && AllMultiplyOut(n, obs) ==> Abs(Expected(n, trig, obs, gates) - res.value.value) <= res.value.dropped
    ensures Untouched(n, obs, gates, cuts) && AllExpressible(trig, gates) && (forall k | 0 <= k < |obs| :: InRange(n, obs[k].1)) ==>
      && (res.Ok? <==> Admits(maxDropped, ObservableRange(obs, |obs|)))
      && (res.Ok? ==> res.value.IsExact() && res.value.value == MarkedExpected(n, trig, obs, gates))
  {
    var seed := SeedFromPauli(n, obs);
    if seed.Err? {
      return Err(NoSuchQubit(seed.error));
    }
    var range := ObservableL1Norm(obs);
    var ops := Compile(n, trig, gates);
    CompiledReady(n, trig, gates, ops);
    ghost var start := seed.value.terms;
    if AllExpressible(trig, gates) {
      SeedTruth(n, trig, obs, gates, ops, start);
      if AllMultiplyOut(n, obs) {
        ExpectedIsMarked(n, trig, obs, gates);
      }
    }
    if Untouched(n, obs, gates, cuts) {
      UntouchedCuts(n, trig, gates, ops, obs, start, cuts);
    }
    SeededKeys(n, start, obs);
    hide Seeded, AllCompiled, Ready, AllExpressible, CircuitInRange, Truth, Expected, MarkedExpected, AllAccepted, Untouched, NothingToCut, AllMultiplyOut;
    var res' := Finish(n, ops, cuts, maxDropped, seed.value, range);
    if res'.Err? {
      return Err(Run(res'.error));
    }
    return Ok(res'.value);
  }

  /** An observable without a term that weighs anything, the empty one first of all, is refused however exact its run. */
  lemma {:induction false} WeightlessIsRefused(obs: Observable, k: nat)
    requires k <= |obs|
    ensures Admits(None, ObservableRange(obs, k)) <==> exists i | 0 <= i < k :: obs[i].0 != 0.0
  {
    if k > 0 {
      WeightlessIsRefused(obs, k - 1);
      RangeIsPositive(obs, k - 1);
    }
  }

  lemma {:induction false} RangeIsPositive(obs: Observable, k: nat)
    requires k <= |obs|
    ensures ObservableRange(obs, k) >= 0.0
  {
    if k > 0 { RangeIsPositive(obs, k - 1); }
  }

  lemma SeededKeys(n: nat, m: Terms, obs: Observable)
    requires Seeded(n, m, obs, |obs|)
    ensures Keys(n, m)
  {
  }

  // ---- Clifford gates

  predicate IsClifford(gate: Gate) {
    match gate
    case PauliX(_) => true case PauliY(_) => true case PauliZ(_) => true
    case S(_) => true case Sdg(_) => true case Sx(_) => true case Sxdg(_) => true case H(_) => true
    case CZ(_, _) => true case CX(_, _) => true case CY(_, _) => true case Swap(_, _) => true
    case Id => true case Barrier => true case Measure => true
    case _ => false
  }

  ghost predicate QuarterAngle(pi: real, theta: real) {
    theta == pi || theta == pi / 2.0 || theta == -(pi / 2.0)
  }

  lemma CliffordAngles(gate: Gate, pi: real)
    requires IsClifford(gate)
    ensures var turns := TurnsFor(gate, pi);
      turns.Some? && forall i | 0 <= i < |turns.value| :: QuarterAngle(pi, turns.value[i].1)
  {
  }

  lemma QuarterAngleIsQuarter(trig: Trig, theta: real, rot: Rot)
    requires trig.Valid() && QuarterAngle(trig.pi, theta) && SameHalfAngle(trig, theta, rot)
    ensures Quarter(rot)
  {
    assert trig.Circle(trig.pi / 2.0);
    var u, v := rot.u, rot.v;
    if theta == trig.pi {
      assert u * v == 0.0;
    } else {
      assert Times(u, u) == Times(v, v) by {
        TimesNegated(trig.sinHalf(theta), trig.sinHalf(theta));
        TimesNegated(trig.sinHalf(trig.pi / 2.0), trig.sinHalf(trig.pi / 2.0));
      }
      assert rot.Cos() == Times(u, u) - Times(v, v);
    }
  }

  /** A circuit of Clifford gates compiles to quarter turns only, so an uncut run keeps the monomial count and the magnitudes. */
  lemma CliffordCircuit(n: nat, trig: Trig, gates: seq<GateOp>, ops: seq<Op>)
    requires trig.Valid() && CircuitInRange(n, trig, gates) && AllCompiled(n, trig, gates, ops)
    requires forall i | 0 <= i < |gates| :: IsClifford(gates[i].gate)
    ensures Clifford(ops)
  {
    hide TurnsFor, AllRealise, Quarter, IsClifford;
    forall k | 0 <= k < |ops| && ops[k].rots.Some? ensures AllQuarter(ops[k].rots.value) {
      assert Compiled(n, trig, gates[k], ops[k]);
      var turns := TurnsFor(gates[k].gate, trig.pi).value;
      RealiseCount(n, trig, turns, ops[k].rots.value);
      CliffordAngles(gates[k].gate, trig.pi);
      forall i | 0 <= i < |turns| ensures Quarter(ops[k].rots.value[i]) {
        assert FromTurn(n, trig, turns[i], ops[k].rots.value[i]);
        QuarterAngleIsQuarter(trig, turns[i].1, ops[k].rots.value[i]);
      }
    }
  }

  // ---- Givens rotations

  /** The monomial of a two-site string with one flip on each site: the neighbours' generators and the string between. */
  lemma {:induction false} SpanLength(n: nat, key: Bits, x: Bits, z: Bits, p: nat, q: nat, k: nat)
    requires |key| == 2 * n && |x| == |z| == n && p < q < n && k <= n && KeyUpTo(n, key, x, z, n)
    requires forall j | 0 <= j < n :: x[j] == (j == p || j == q) && (z[j] ==> j == p || j == q)
    requires z[p] != z[q]
    ensures Ones(key, 2 * k) ==
      if k <= p then 0 else if k <= q then 1 + 2 * (k - p - 1) else 2 * (q - p)
  {
    if k == 0 {
    } else {
      SpanLength(n, key, x, z, p, q, k - 1);
      assert KeyAt(n, key, x, z, n, k - 1);
      StringsOfTwo(x, p, q, k - 1, n);
      assert Ones(key, 2 * k) == Ones(key, 2 * (k - 1)) + (if key[2 * (k - 1)] then 1 else 0) + (if key[2 * (k - 1) + 1] then 1 else 0);
    }
  }

  lemma {:induction false} StringsOfTwo(x: Bits, p: nat, q: nat, j: nat, m: nat)
    requires p < q < |x| && m <= |x| && forall i | 0 <= i < |x| :: x[i] == (i == p || i == q)
    ensures Strings(x, j, m) == ((j < p && p < m) != (j < q && q < m))
  {
    if m <= j + 1 {
    } else {
      StringsOfTwo(x, p, q, j, m - 1);
    }
  }

  lemma MarkedPair(n: nat, p: nat, a: Pauli, q: nat, b: Pauli)
    requires p < n && q < n && p != q && ((a == X && b == Y) || (a == Y && b == X))
    ensures var sites := [(p, a), (q, b)];
      InRange(n, sites) && forall j | 0 <= j < n ::
        XBits(n, sites)[j] == (j == p || j == q) && ZBits(n, sites)[j] == (j == if a == Y then p else q)
  {
    var sites := [(p, a), (q, b)];
    forall flips ensures Marked(n, sites, 2, flips) == Marked(n, sites, 1, flips)[q := b == Y || flips] {
    }
    forall flips ensures Marked(n, sites, 1, flips) == Zero(n)[p := a == Y || flips] {
    }
  }

  /**
    The generators of a Givens rotation on wires p and q have length twice the distance
    between the wires, so they keep lengths exactly when the wires are neighbours.
  */
  lemma GivensLength(n: nat, p: nat, a: Pauli, q: nat, b: Pauli, key: Bits)
    requires p < n && q < n && p != q && ((a == X && b == Y) || (a == Y && b == X))
    requires |key| == 2 * n && InRange(n, [(p, a), (q, b)])
    requires KeyUpTo(n, key, XBits(n, [(p, a), (q, b)]), ZBits(n, [(p, a), (q, b)]), n)
    ensures Length(key) == 2 * (if p < q then q - p else p - q)
    ensures Length(key) == 2 <==> p == q + 1 || q == p + 1
  {
    hide KeyUpTo, XBits, ZBits;
    var x, z := XBits(n, [(p, a), (q, b)]), ZBits(n, [(p, a), (q, b)]);
    MarkedPair(n, p, a, q, b);
    if p < q {
      SpanLength(n, key, x, z, p, q, n);
    } else {
      SpanLength(n, key, x, z, q, p, n);
    }
  }

  /** The generators of a rotation about Z: the two operators of its mode. */
  lemma {:induction false} ModeLength(n: nat, key: Bits, x: Bits, z: Bits, q: nat, k: nat)
    requires |key| == 2 * n && |x| == |z| == n && q < n && k <= n && KeyUpTo(n, key, x, z, n)
    requires forall j | 0 <= j < n :: !x[j] && z[j] == (j == q)
    ensures Ones(key, 2 * k) == if k <= q then 0 else 2
  {
    if k > 0 {
      ModeLength(n, key, x, z, q, k - 1);
      assert KeyAt(n, key, x, z, n, k - 1);
      NoStrings(x, k - 1, n);
      assert Ones(key, 2 * k) == Ones(key, 2 * (k - 1)) + (if key[2 * (k - 1)] then 1 else 0) + (if key[2 * (k - 1) + 1] then 1 else 0);
    }
  }

  lemma {:induction false} NoStrings(x: Bits, j: nat, m: nat)
    requires m <= |x| && forall i | 0 <= i < |x| :: !x[i]
    ensures !Strings(x, j, m)
  {
    if m > j + 1 {
      NoStrings(x, j, m - 1);
    }
  }

  lemma ZLength(n: nat, trig: Trig, q: nat, t: real, rot: Rot)
    requires TurnInRange(n, One(q, Z, t)) && FromTurn(n, trig, One(q, Z, t), rot)
    ensures Length(rot.key) == 2
  {
    hide KeyUpTo;
    var sites: Sites := [(q, Z)];
    assert Marked(n, sites, 0, true) == Zero(n) == Marked(n, sites, 0, false);
    assert sites[0].0 == q;
    ModeLength(n, rot.key, XBits(n, sites), ZBits(n, sites), q, n);
  }

  lemma HalfTurnIsStill(n: nat, trig: Trig, turn: PauliTurn, rot: Rot)
    requires trig.Valid() && TurnInRange(n, turn) && FromTurn(n, trig, turn, rot) && turn.1 == trig.pi
    ensures rot.Sin() == 0.0
  {
    hide KeyUpTo;
    assert rot.u == 0.0;
  }

  /** Gates that keep every length: those about Z, half turns, and Givens rotations of neighbouring wires. */
  predicate Gentle(gate: Gate) {
    match gate
    case Id => true
    case Barrier => true
    case Measure => true
    case PauliX(_) => true
    case PauliY(_) => true
    case PauliZ(_) => true
    case S(_) => true
    case Sdg(_) => true
    case T(_) => true
    case Tdg(_) => true
    case Rz(_, _) => true
    case U1(_, _) => true
    case Rbs(q, r, _) => q == r + 1 || r == q + 1
    case _ => false
  }

  lemma GentleTurn(n: nat, trig: Trig, gate: Gate, i: nat, rot: Rot)
    requires trig.Valid() && Gentle(gate) && TurnsFor(gate, trig.pi).Some? && i < |TurnsFor(gate, trig.pi).value|
    requires var turn := TurnsFor(gate, trig.pi).value[i]; TurnInRange(n, turn) && FromTurn(n, trig, turn, rot)
    ensures Length(rot.key) == 2 || rot.Sin() == 0.0
  {
    hide KeyUpTo, XBits, ZBits;
    var turn := TurnsFor(gate, trig.pi).value[i];
    if gate.PauliX? || gate.PauliY? {
      HalfTurnIsStill(n, trig, turn, rot);
    } else if gate.Rbs? {
      assert turn.0[0].0 < n && turn.0[1].0 < n;
      if i == 0 {
        GivensLength(n, gate.q, Y, gate.r, X, rot.key);
      } else {
        GivensLength(n, gate.q, X, gate.r, Y, rot.key);
      }
    } else {
      ZLength(n, trig, turn.0[0].0, turn.1, rot);
    }
  }

  /**
    A circuit of such gates has nothing to cut at any length cut that the seed respects,
    so its certified value is the true one.
  */
  lemma GentleCircuit(n: nat, trig: Trig, gates: seq<GateOp>, ops: seq<Op>, seed: Terms, cuts: Cuts)
    requires trig.Valid() && CircuitInRange(n, trig, gates) && AllCompiled(n, trig, gates, ops)
    requires (forall i | 0 <= i < |gates| :: Gentle(gates[i].gate)) && cuts.coeffMin <= 0.0 && Short(seed, cuts.maxLength)
    ensures NothingToCut(seed, ops, cuts)
  {
    hide TurnsFor, AllRealise, Gentle, Short;
    forall k | 0 <= k < |ops| && ops[k].rots.Some? ensures KeepLengths(ops[k].rots.value) {
      assert Compiled(n, trig, gates[k], ops[k]) && Gentle(gates[k].gate);
      var turns := TurnsFor(gates[k].gate, trig.pi).value;
      forall i | 0 <= i < |turns| ensures Length(ops[k].rots.value[i].key) == 2 || ops[k].rots.value[i].Sin() == 0.0 {
        assert FromTurn(n, trig, turns[i], ops[k].rots.value[i]);
        GentleTurn(n, trig, gates[k].gate, i, ops[k].rots.value[i]);
      }
    }
  }
}
