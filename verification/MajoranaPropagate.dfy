/**
  Walking a circuit backwards over an observable: one pass over the sum for each
  rotation, truncation after each gate, and what the result certifies.
*/
module MajoranaPropagate {
  import opened Wrappers
  import opened Linear
  import opened Bits
  import opened Majorana
  import opened MajoranaFock
  import opened MajoranaEngine
  import opened MajoranaBranch

  // ---- circuits

  /** One gate: whether it waits on a classical bit, and its rotations in forward order if the table has it. */
  datatype Op = Op(conditioned: bool, rots: Option<seq<Rot>>)

  datatype Refusal = Conditioned | NotInTable

  predicate Accepted(op: Op) { !op.conditioned && op.rots.Some? }

  function Why(op: Op): Refusal { if op.conditioned then Conditioned else NotInTable }

  ghost predicate Ready(n: nat, ops: seq<Op>) {
    forall i | 0 <= i < |ops| :: ops[i].rots.Some? ==> AllValid(n, ops[i].rots.value)
  }

  ghost predicate AllAccepted(ops: seq<Op>) {
    forall i | 0 <= i < |ops| :: Accepted(ops[i])
  }

  /** The state after the first `k` gates. */
  ghost function Ran(n: nat, ops: seq<Op>, k: nat, psi: Vector): Vector
    requires k <= |ops| && Ready(n, ops) && AllAccepted(ops)
  {
    if k == 0 then psi else Turned(n, ops[k - 1].rots.value, Ran(n, ops, k - 1, psi))
  }

  lemma {:induction false} RanKeepsMass(n: nat, ops: seq<Op>, k: nat, psi: Vector)
    requires k <= |ops| && Ready(n, ops) && AllAccepted(ops)
    ensures Mass(n, Ran(n, ops, k, psi)) == Mass(n, psi)
  {
    hide Mass, Turned;
    if k == 0 {
    } else {
      RanKeepsMass(n, ops, k - 1, psi);
      TurnedKeepsMass(n, ops[k - 1].rots.value, Ran(n, ops, k - 1, psi));
    }
  }

  /** What a sum reads in a state. */
  ghost function Reading(n: nat, m: Terms, psi: Vector): real {
    Value(n, CoefOf(m), ReadoutOf(n, psi))
  }

  /** The coefficients after conjugating by the rotations from index i on, with no cut. */
  ghost function Unwound(n: nat, f: Bits -> real, rots: seq<Rot>, i: nat): Bits -> real
    requires i <= |rots| && AllValid(n, rots)
    decreases |rots| - i
  {
    if i == |rots| then f else Rotated(n, Unwound(n, f, rots, i + 1), rots[i].key, rots[i].Cos(), rots[i].Sin())
  }

  /** The cuts the engine was built with. */
  datatype Cuts = Cuts(coeffMin: real, maxLength: Option<nat>) {
    predicate Truncating() { coeffMin > 0.0 || maxLength.Some? }
  }

  /** What survives a cut. */
  ghost function Clipped(f: Bits -> real, cuts: Cuts): Bits -> real {
    x => if Cut(cuts.coeffMin, cuts.maxLength, x, f(x)) then 0.0 else f(x)
  }

  /** The coefficients after conjugating by the gates from index k on, with a cut after every gate. */
  ghost function Evolved(n: nat, f: Bits -> real, ops: seq<Op>, k: nat, cuts: Cuts): Bits -> real
    requires k <= |ops| && Ready(n, ops) && AllAccepted(ops)
    decreases |ops| - k
  {
    if k == |ops| then f else
      var g := Unwound(n, Evolved(n, f, ops, k + 1, cuts), ops[k].rots.value, 0);
      if cuts.Truncating() then Clipped(g, cuts) else g
  }

  /** The coefficients after conjugating by the gates from index k on, with no cut. */
  ghost function Uncut(n: nat, f: Bits -> real, ops: seq<Op>, k: nat): Bits -> real
    requires k <= |ops| && Ready(n, ops) && AllAccepted(ops)
    decreases |ops| - k
  {
    if k == |ops| then f else Unwound(n, Uncut(n, f, ops, k + 1), ops[k].rots.value, 0)
  }

  ghost predicate SameCoefs(n: nat, f: Bits -> real, g: Bits -> real) {
    forall y | |y| == 2 * n :: f(y) == g(y)
  }

  /** Whether a rotation can change the length of a monomial by the engine's count. */
  predicate Branches(rot: Rot) { rot.Sin() != 0.0 && Length(rot.key) >= 4 }

  function BranchCount(rots: seq<Rot>, i: nat): nat
    requires i <= |rots|
    decreases |rots| - i
  {
    if i == |rots| then 0 else BranchCount(rots, i + 1) + if Branches(rots[i]) then 1 else 0
  }

  function CircuitBranchCount(ops: seq<Op>, k: nat): nat
    requires k <= |ops|
    decreases |ops| - k
  {
    if k == |ops| then 0 else
      CircuitBranchCount(ops, k + 1) + if ops[k].rots.Some? then BranchCount(ops[k].rots.value, 0) else 0
  }

  // ---- one gate

  ghost predicate SameReading(n: nat, before: Terms, after: Terms, rots: seq<Rot>, i: nat)
    requires i <= |rots| && AllValid(n, rots)
  {
    forall psi: Vector :: Reading(n, before, Turned(n, rots, psi)) == Reading(n, after, Turned(n, rots[..i], psi))
  }

  /** Every monomial is within the length cut. */
  ghost predicate Short(m: Terms, maxLength: Option<nat>) {
    maxLength.Some? ==> forall x | x in m :: Length(x) <= maxLength.value
  }

  /** Rotations that keep every length: a generator of length two, or a half turn, which moves nothing. */
  ghost predicate KeepLengths(rots: seq<Rot>) {
    forall i | 0 <= i < |rots| :: Length(rots[i].key) == 2 || rots[i].Sin() == 0.0
  }

  lemma SameReadingStep(n: nat, all: Terms, before: Terms, after: Terms, rots: seq<Rot>, i: nat)
    requires i < |rots| && AllValid(n, rots) && SameReading(n, all, before, rots, i + 1)
    requires Branched(n, before, after, rots[i].key, rots[i].Cos(), rots[i].Sin())
    ensures SameReading(n, all, after, rots, i)
  {
    forall psi: Vector
      ensures Reading(n, all, Turned(n, rots, psi)) == Reading(n, after, Turned(n, rots[..i], psi))
    {
      hide Branched, Value, ReadoutOf, Rotor;
      assert rots[..i + 1][..i] == rots[..i];
      BranchedValue(n, before, after, rots[i], Turned(n, rots[..i], psi));
    }
  }

  lemma RotatedSame(n: nat, f: Bits -> real, g: Bits -> real, c: Bits, cos: real, sin: real)
    requires |c| == 2 * n && SameCoefs(n, f, g)
    ensures SameCoefs(n, Rotated(n, f, c, cos, sin), Rotated(n, g, c, cos, sin))
  {
    forall y | |y| == 2 * n ensures Rotated(n, f, c, cos, sin)(y) == Rotated(n, g, c, cos, sin)(y) {
      RotatedSameAt(n, f, g, c, cos, sin, y);
    }
  }

  lemma RotatedSameAt(n: nat, f: Bits -> real, g: Bits -> real, c: Bits, cos: real, sin: real, y: Bits)
    requires |c| == |y| == 2 * n && f(y) == g(y) && f(Xor(c, y)) == g(Xor(c, y))
    ensures Rotated(n, f, c, cos, sin)(y) == Rotated(n, g, c, cos, sin)(y)
  {
    hide Times, Moves, SignOf, Xor;
  }

  lemma UnwoundStep(n: nat, f: Bits -> real, before: Terms, after: Terms, rots: seq<Rot>, i: nat)
    requires i < |rots| && AllValid(n, rots) && SameCoefs(n, CoefOf(before), Unwound(n, f, rots, i + 1))
    requires Branched(n, before, after, rots[i].key, rots[i].Cos(), rots[i].Sin())
    ensures SameCoefs(n, CoefOf(after), Unwound(n, f, rots, i))
  {
    hide Rotated;
    var c, cos, sin := rots[i].key, rots[i].Cos(), rots[i].Sin();
    RotatedSame(n, CoefOf(before), Unwound(n, f, rots, i + 1), c, cos, sin);
    forall y | |y| == 2 * n ensures CoefOf(after)(y) == Unwound(n, f, rots, i)(y) {
      assert BranchedAt(n, before, after, c, cos, sin, y);
    }
  }

  lemma ShortStep(n: nat, before: Terms, after: Terms, rot: Rot, maxLength: Option<nat>)
    requires rot.Valid(n) && (Length(rot.key) == 2 || rot.Sin() == 0.0) && Short(before, maxLength)
    requires Branched(n, before, after, rot.key, rot.Cos(), rot.Sin())
    ensures Short(after, maxLength)
  {
    hide Length, Commutes, Xor;
    forall y | y in after && maxLength.Some? ensures Length(y) <= maxLength.value {
      assert BranchedAt(n, before, after, rot.key, rot.Cos(), rot.Sin(), y);
      if Moves(n, rot.key, y) && rot.Sin() != 0.0 {
        RotationLength(y, rot.key);
      }
    }
  }

  lemma MagnitudesChain(a: Terms, b: Terms, c: Terms)
    requires SameMagnitudes(a, b) && SameMagnitudes(b, c)
    ensures SameMagnitudes(a, c)
  {
  }

  ghost predicate AllQuarter(rots: seq<Rot>) {
    forall i | 0 <= i < |rots| :: Quarter(rots[i])
  }

  /** What holds when the rotations from index i on have been undone. */
  ghost predicate Conjugated(n: nat, all: Terms, now: Terms, rots: seq<Rot>, i: nat, maxLength: Option<nat>)
    requires i <= |rots| && AllValid(n, rots)
  {
    && Keys(n, now)
    && SameReading(n, all, now, rots, i)
    && L2(n, CoefOf(now)) == L2(n, CoefOf(all))
    && SameCoefs(n, CoefOf(now), Unwound(n, CoefOf(all), rots, i))
    && (KeepLengths(rots) && Short(all, maxLength) ==> Short(now, maxLength))
    && (AllQuarter(rots) ==> SameMagnitudes(all, now))
  }

  lemma ConjugatedStart(n: nat, all: Terms, rots: seq<Rot>, maxLength: Option<nat>)
    requires AllValid(n, rots) && Keys(n, all)
    ensures Conjugated(n, all, all, rots, |rots|, maxLength)
  {
    assert rots[..|rots|] == rots;
  }

  lemma ConjugatedStep(n: nat, all: Terms, before: Terms, now: Terms, rots: seq<Rot>, i: nat, maxLength: Option<nat>)
    requires i < |rots| && AllValid(n, rots) && Keys(n, now) && Conjugated(n, all, before, rots, i + 1, maxLength)
    requires rots[i].Valid(n) && Branched(n, before, now, rots[i].key, rots[i].Cos(), rots[i].Sin())
    ensures Conjugated(n, all, now, rots, i, maxLength)
  {
    hide SameReading, L2, SameCoefs, Short, Branched, SameMagnitudes, Unwound;
    SameReadingStep(n, all, before, now, rots, i);
    BranchedL2(n, before, now, rots[i]);
    UnwoundStep(n, CoefOf(all), before, now, rots, i);
    if KeepLengths(rots) && Short(all, maxLength) {
      ShortStep(n, before, now, rots[i], maxLength);
    }
    if AllQuarter(rots) {
      QuarterTurn(n, before, now, rots[i]);
      MagnitudesChain(all, before, now);
    }
  }

  /** Conjugate the sum by one gate: its rotations from the last to the first. */
  method Conjugate(ghost n: nat, sum: MajoranaSum, rots: seq<Rot>, ghost maxLength: Option<nat>) returns (branching: nat)
    requires AllValid(n, rots) && Keys(n, sum.terms)
    modifies sum
    ensures sum.dropped == old(sum.dropped)
    ensures Conjugated(n, old(sum.terms), sum.terms, rots, 0, maxLength)
    ensures branching == BranchCount(rots, 0)
  {
    hide Conjugated, Branched, Length, Keys;
    branching := 0;
    var i := |rots|;
    ghost var all := sum.terms;
    ConjugatedStart(n, all, rots, maxLength);
    while i > 0
      invariant 0 <= i <= |rots|
      invariant Keys(n, sum.terms) && sum.dropped == old(sum.dropped)
      invariant Conjugated(n, all, sum.terms, rots, i, maxLength)
      invariant branching == BranchCount(rots, i)
    {
      i := i - 1;
      var rot := rots[i];
      if rot.Sin() != 0.0 && Length(rot.key) >= 4 {
        branching := branching + 1;
      }
      ghost var before := sum.terms;
      Branch(n, sum, rot);
      ConjugatedStep(n, all, before, sum.terms, rots, i, maxLength);
    }
  }

  // ---- the whole circuit

  /** In every state of unit mass, `after` read before gate k is within `slack` of `before` read after the circuit. */
  ghost predicate Certified(n: nat, before: Terms, after: Terms, ops: seq<Op>, k: nat, slack: real)
    requires k <= |ops| && Ready(n, ops) && AllAccepted(ops)
  {
    forall psi: Vector | Mass(n, psi) == 1.0 ::
      Abs(Reading(n, before, Ran(n, ops, |ops|, psi)) - Reading(n, after, Ran(n, ops, k, psi))) <= slack
  }

  /** Gates whose rotations keep every length, no floor, and a length cut no shorter than the seed. */
  ghost predicate NothingToCut(seed: Terms, ops: seq<Op>, cuts: Cuts) {
    !cuts.Truncating() ||
    (cuts.coeffMin <= 0.0 && Short(seed, cuts.maxLength) && forall k | 0 <= k < |ops| :: ops[k].rots.Some? ==> KeepLengths(ops[k].rots.value))
  }

  lemma CertifiedGate(n: nat, seed: Terms, before: Terms, after: Terms, ops: seq<Op>, k: nat, slack: real)
    requires k < |ops| && Ready(n, ops) && AllAccepted(ops)
    requires Certified(n, seed, before, ops, k + 1, slack) && SameReading(n, before, after, ops[k].rots.value, 0)
    ensures Certified(n, seed, after, ops, k, slack)
  {
    hide Reading, Mass;
    var rots := ops[k].rots.value;
    forall psi: Vector | Mass(n, psi) == 1.0
      ensures Abs(Reading(n, seed, Ran(n, ops, |ops|, psi)) - Reading(n, after, Ran(n, ops, k, psi))) <= slack
    {
      var phi := Ran(n, ops, k, psi);
      assert rots[..0] == [];
      assert Reading(n, before, Turned(n, rots, phi)) == Reading(n, after, Turned(n, rots[..0], phi));
    }
  }

  lemma CertifiedCut(n: nat, seed: Terms, before: Terms, after: Terms, ops: seq<Op>, k: nat, slack: real)
    requires k <= |ops| && Ready(n, ops) && AllAccepted(ops)
    requires Certified(n, seed, before, ops, k, slack)
    requires forall x | x in after :: x in before && after[x] == before[x]
    ensures Certified(n, seed, after, ops, k, slack + (L1(n, CoefOf(before)) - L1(n, CoefOf(after))))
  {
    hide Mass, Ran, Value, L1, ReadoutOf;
    forall psi: Vector | Mass(n, psi) == 1.0
      ensures Abs(Reading(n, seed, Ran(n, ops, |ops|, psi)) - Reading(n, after, Ran(n, ops, k, psi))) <=
        slack + (L1(n, CoefOf(before)) - L1(n, CoefOf(after)))
    {
      RanKeepsMass(n, ops, k, psi);
      TruncationBound(n, before, after, Ran(n, ops, k, psi));
    }
  }

  lemma CutL2(n: nat, before: Terms, after: Terms)
    requires forall x | x in after :: x in before && after[x] == before[x]
    ensures L2(n, CoefOf(after)) <= L2(n, CoefOf(before))
  {
    forall x | |x| == 2 * n ensures Product(CoefOf(after), CoefOf(after))(x) <= Product(CoefOf(before), CoefOf(before))(x) {
      TimesSquare(Coef(before, x));
      TimesZero(0.0);
    }
    SumAtMost([], 2 * n, Product(CoefOf(after), CoefOf(after)), Product(CoefOf(before), CoefOf(before)));
  }

  lemma CutNothing(m: Terms, cuts: Cuts)
    requires cuts.coeffMin <= 0.0 && Short(m, cuts.maxLength)
    ensures Kept(m, map[], cuts.coeffMin, cuts.maxLength) == m
  {
    hide Length;
  }

  lemma {:induction false} UnwoundSame(n: nat, f: Bits -> real, g: Bits -> real, rots: seq<Rot>, i: nat)
    requires i <= |rots| && AllValid(n, rots) && SameCoefs(n, f, g)
    ensures SameCoefs(n, Unwound(n, f, rots, i), Unwound(n, g, rots, i))
    decreases |rots| - i
  {
    hide Rotated, SameCoefs;
    if i < |rots| {
      UnwoundSame(n, f, g, rots, i + 1);
      RotatedSame(n, Unwound(n, f, rots, i + 1), Unwound(n, g, rots, i + 1), rots[i].key, rots[i].Cos(), rots[i].Sin());
    }
  }

  lemma SameCoefsChain(n: nat, f: Bits -> real, g: Bits -> real, h: Bits -> real)
    requires SameCoefs(n, f, g) && SameCoefs(n, g, h)
    ensures SameCoefs(n, f, h)
  {
  }

  lemma KeptCoefs(n: nat, m: Terms, cuts: Cuts, f: Bits -> real)
    requires SameCoefs(n, CoefOf(m), f)
    ensures SameCoefs(n, CoefOf(Kept(m, map[], cuts.coeffMin, cuts.maxLength)), Clipped(f, cuts))
  {
    hide Length;
    var kept := Kept(m, map[], cuts.coeffMin, cuts.maxLength);
    forall x | |x| == 2 * n ensures CoefOf(kept)(x) == Clipped(f, cuts)(x) {
      assert CoefOf(m)(x) == f(x);
    }
  }

  /** The coefficients after one more gate, before any cut. */
  ghost function Opened(n: nat, f: Bits -> real, ops: seq<Op>, k: nat, cuts: Cuts): Bits -> real
    requires k < |ops| && Ready(n, ops) && AllAccepted(ops)
  {
    Unwound(n, Evolved(n, f, ops, k + 1, cuts), ops[k].rots.value, 0)
  }

  /** What holds after the gates from index k on have been undone. */
  ghost predicate Undone(n: nat, seed: Terms, now: Terms, ops: seq<Op>, k: nat, cuts: Cuts, slack: real)
    requires k <= |ops| && Ready(n, ops)
  {
    && slack >= 0.0
    && L2(n, CoefOf(now)) <= L2(n, CoefOf(seed))
    && (AllAccepted(ops) ==>
          Certified(n, seed, now, ops, k, slack) && SameCoefs(n, CoefOf(now), Evolved(n, CoefOf(seed), ops, k, cuts)))
    && (NothingToCut(seed, ops, cuts) ==>
          slack == 0.0 && Short(now, cuts.maxLength) && (AllAccepted(ops) ==> SameCoefs(n, CoefOf(now), Uncut(n, CoefOf(seed), ops, k))))
  }

  lemma UndoneAtStart(n: nat, seed: Terms, ops: seq<Op>, cuts: Cuts)
    requires Ready(n, ops)
    ensures Undone(n, seed, seed, ops, |ops|, cuts, 0.0)
  {
  }

  /** What holds between undoing gate k and the cut that follows it. */
  ghost predicate HalfUndone(n: nat, seed: Terms, now: Terms, ops: seq<Op>, k: nat, cuts: Cuts, slack: real)
    requires k < |ops| && Ready(n, ops)
  {
    && slack >= 0.0
    && L2(n, CoefOf(now)) <= L2(n, CoefOf(seed))
    && (AllAccepted(ops) ==>
          Certified(n, seed, now, ops, k, slack) && SameCoefs(n, CoefOf(now), Opened(n, CoefOf(seed), ops, k, cuts)))
    && (NothingToCut(seed, ops, cuts) ==>
          slack == 0.0 && Short(now, cuts.maxLength) && (AllAccepted(ops) ==> SameCoefs(n, CoefOf(now), Uncut(n, CoefOf(seed), ops, k))))
  }

  lemma UndoneGate(n: nat, seed: Terms, before: Terms, after: Terms, ops: seq<Op>, k: nat, cuts: Cuts, slack: real)
    requires k < |ops| && Ready(n, ops) && ops[k].rots.Some? && Undone(n, seed, before, ops, k + 1, cuts, slack)
    requires var rots := ops[k].rots.value;
      && SameReading(n, before, after, rots, 0)
      && L2(n, CoefOf(after)) == L2(n, CoefOf(before))
      && SameCoefs(n, CoefOf(after), Unwound(n, CoefOf(before), rots, 0))
      && (KeepLengths(rots) && Short(before, cuts.maxLength) ==> Short(after, cuts.maxLength))
    ensures HalfUndone(n, seed, after, ops, k, cuts, slack)
    ensures !cuts.Truncating() ==> Undone(n, seed, after, ops, k, cuts, slack)
  {
    hide SameReading, Certified, L2, SameCoefs;
    if AllAccepted(ops) {
      var rots, f, g := ops[k].rots.value, CoefOf(before), CoefOf(after);
      CertifiedGate(n, seed, before, after, ops, k, slack);
      UnwoundSame(n, f, Evolved(n, CoefOf(seed), ops, k + 1, cuts), rots, 0);
      SameCoefsChain(n, g, Unwound(n, f, rots, 0), Opened(n, CoefOf(seed), ops, k, cuts));
      if NothingToCut(seed, ops, cuts) {
        UnwoundSame(n, f, Uncut(n, CoefOf(seed), ops, k + 1), rots, 0);
        SameCoefsChain(n, g, Unwound(n, f, rots, 0), Uncut(n, CoefOf(seed), ops, k));
      }
    }
  }

  lemma UndoneCut(n: nat, seed: Terms, before: Terms, after: Terms, ops: seq<Op>, k: nat, cuts: Cuts, slack: real, banked: real)
    requires k < |ops| && Ready(n, ops) && HalfUndone(n, seed, before, ops, k, cuts, slack) && cuts.Truncating()
    requires after == Kept(before, map[], cuts.coeffMin, cuts.maxLength)
    requires banked >= 0.0 && L1(n, CoefOf(before)) == L1(n, CoefOf(after)) + banked
    ensures Undone(n, seed, after, ops, k, cuts, slack + banked)
  {
    hide Certified, L1, L2, SameCoefs, Unwound, Clipped, Cut;
    CutL2(n, before, after);
    if AllAccepted(ops) {
      CertifiedCut(n, seed, before, after, ops, k, slack);
      KeptCoefs(n, before, cuts, Opened(n, CoefOf(seed), ops, k, cuts));
    }
    if NothingToCut(seed, ops, cuts) {
      CutNothing(before, cuts);
    }
  }

  /** Every rotation of every gate is a multiple of a quarter turn. */
  ghost predicate Clifford(ops: seq<Op>) {
    forall k | 0 <= k < |ops| :: ops[k].rots.Some? ==> AllQuarter(ops[k].rots.value)
  }

  /** One gate, and the cut that follows it. */
  method UndoGate(ghost n: nat, sum: MajoranaSum, ops: seq<Op>, k: nat, cuts: Cuts, ghost seed: Terms, ghost slack: real)
    returns (branching: nat)
    requires k < |ops| && Ready(n, ops) && Accepted(ops[k]) && Keys(n, sum.terms)
    requires Undone(n, seed, sum.terms, ops, k + 1, cuts, slack)
    modifies sum
    ensures Keys(n, sum.terms)
    ensures Undone(n, seed, sum.terms, ops, k, cuts, slack + (sum.dropped - old(sum.dropped)))
    ensures !cuts.Truncating() && AllQuarter(ops[k].rots.value) ==> SameMagnitudes(old(sum.terms), sum.terms)
    ensures branching == BranchCount(ops[k].rots.value, 0)
  {
    hide Undone, HalfUndone, SameMagnitudes, AllQuarter, BranchCount, L1, L2, SameReading, SameCoefs, Short;
    branching := Conjugate(n, sum, ops[k].rots.value, cuts.maxLength);
    UndoneGate(n, seed, old(sum.terms), sum.terms, ops, k, cuts, slack);
    if cuts.Truncating() {
      ghost var long := sum.terms;
      sum.Truncate(n, cuts.coeffMin, cuts.maxLength);
      UndoneCut(n, seed, long, sum.terms, ops, k, cuts, slack, sum.dropped - old(sum.dropped));
    }
  }

  /** Gate k is the last one of the circuit that cannot be expressed. */
  ghost predicate StopsAt(ops: seq<Op>, k: nat, why: Refusal) {
    k < |ops| && !Accepted(ops[k]) && why == Why(ops[k]) && AcceptedFrom(ops, k + 1)
  }

  ghost predicate AcceptedFrom(ops: seq<Op>, k: nat) {
    forall i | k <= i < |ops| :: Accepted(ops[i])
  }

  /** Where the walk stands before gate k: everything from k on is undone. */
  ghost predicate Walked(n: nat, seed: Terms, now: Terms, ops: seq<Op>, k: nat, cuts: Cuts, slack: real, branching: nat)
    requires k <= |ops| && Ready(n, ops)
  {
    && Keys(n, now)
    && AcceptedFrom(ops, k)
    && Undone(n, seed, now, ops, k, cuts, slack)
    && (!cuts.Truncating() && Clifford(ops) ==> SameMagnitudes(seed, now))
    && branching == CircuitBranchCount(ops, k)
  }

  lemma WalkedAtStart(n: nat, seed: Terms, ops: seq<Op>, cuts: Cuts)
    requires Ready(n, ops) && Keys(n, seed)
    ensures Walked(n, seed, seed, ops, |ops|, cuts, 0.0, 0)
  {
    UndoneAtStart(n, seed, ops, cuts);
  }

  lemma WalkedStep(n: nat, seed: Terms, before: Terms, now: Terms, ops: seq<Op>, k: nat, cuts: Cuts, slack: real, slack': real, branching: nat)
    requires k < |ops| && Ready(n, ops) && Accepted(ops[k]) && Walked(n, seed, before, ops, k + 1, cuts, slack, branching)
    requires Keys(n, now) && Undone(n, seed, now, ops, k, cuts, slack')
    requires !cuts.Truncating() && AllQuarter(ops[k].rots.value) ==> SameMagnitudes(before, now)
    ensures Walked(n, seed, now, ops, k, cuts, slack', branching + BranchCount(ops[k].rots.value, 0))
  {
    hide Undone, SameMagnitudes, AllQuarter, BranchCount;
    if !cuts.Truncating() && Clifford(ops) {
      MagnitudesChain(seed, before, now);
    }
  }

  /**
    Walk the circuit backwards over a seeded sum.  A gate that cannot be expressed
    stops the walk; otherwise the result comes with its bound.
  */
  method Propagate(ghost n: nat, sum: MajoranaSum, ops: seq<Op>, cuts: Cuts) returns (res: Result<nat, Refusal>)
    requires Ready(n, ops) && Keys(n, sum.terms)
    modifies sum
    ensures res.Err? ==> exists k: nat :: StopsAt(ops, k, res.error)
    ensures res.Ok? ==>
      AllAccepted(ops) && Walked(n, old(sum.terms), sum.terms, ops, 0, cuts, sum.dropped - old(sum.dropped), res.value)
  {
    hide *;
    ghost var seed, banked := sum.terms, sum.dropped;
    var branching, k := 0, |ops|;
    WalkedAtStart(n, seed, ops, cuts);
    while k > 0
      invariant 0 <= k <= |ops| && Ready(n, ops)
      invariant Walked(n, seed, sum.terms, ops, k, cuts, sum.dropped - banked, branching)
    {
      k := k - 1;
      WalkedParts(n, seed, sum.terms, ops, k + 1, cuts, sum.dropped - banked, branching);
      if !Accepted(ops[k]) {
        Stops(ops, k);
        return Err(Why(ops[k]));
      }
      ghost var before, slack := sum.terms, sum.dropped - banked;
      RotsOf(ops[k]);
      var more := UndoGate(n, sum, ops, k, cuts, seed, slack);
      WalkedStep(n, seed, before, sum.terms, ops, k, cuts, slack, sum.dropped - banked, branching);
      branching := branching + more;
    }
    WalkedParts(n, seed, sum.terms, ops, 0, cuts, sum.dropped - banked, branching);
    return Ok(branching);
  }

  lemma RotsOf(op: Op)
    requires Accepted(op)
    ensures op.rots.Some?
  {
  }

  lemma Stops(ops: seq<Op>, k: nat)
    requires k < |ops| && !Accepted(ops[k]) && AcceptedFrom(ops, k + 1)
    ensures StopsAt(ops, k, Why(ops[k]))
  {
  }

  lemma WalkedParts(n: nat, seed: Terms, now: Terms, ops: seq<Op>, k: nat, cuts: Cuts, slack: real, branching: nat)
    requires k <= |ops| && Ready(n, ops) && Walked(n, seed, now, ops, k, cuts, slack, branching)
    ensures Keys(n, now) && AcceptedFrom(ops, k) && Undone(n, seed, now, ops, k, cuts, slack)
    ensures k == 0 ==> AllAccepted(ops)
  {
  }
}
