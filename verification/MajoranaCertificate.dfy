/**
  The certificate of a Majorana-propagation run: what the returned value is
  within, when a run is refused, when it is exact, what it conserves, and which
  generators change the length that the cut is made on.
*/
module MajoranaCertificate {
  import opened Wrappers
  import opened Linear
  import opened Bits
  import opened Majorana
  import opened MajoranaFock
  import opened MajoranaEngine
  import opened MajoranaBranch
  import opened MajoranaPropagate

  datatype Certificate = Certificate(value: real, dropped: real, finalTerms: nat, cuts: Cuts, range: real, branching: nat) {
    predicate IsExact() { dropped == 0.0 }

    predicate IsInformative() { dropped < range + Abs(value) }
  }

  datatype Failure = BadGate(why: Refusal) | Vacuous(dropped: real, ceiling: real)

  /** The expectation of the seed after the circuit has acted on the vacuum. */
  ghost function Truth(n: nat, seed: Terms, ops: seq<Op>): real
    requires Ready(n, ops) && AllAccepted(ops)
  {
    Reading(n, seed, Ran(n, ops, |ops|, Vacuum(n)))
  }

  function Ceiling(maxDropped: Option<real>, range: real, value: real): real {
    if maxDropped.Some? then maxDropped.value else range + Abs(value)
  }

  /** Something could be dropped below the ceiling: it is positive, or with none given some coefficient is not zero. */
  predicate Admits(maxDropped: Option<real>, range: real) {
    if maxDropped.Some? then maxDropped.value > 0.0 else range > 0.0
  }

  /** Within its range a value never decides whether the ceiling is positive. */
  lemma AdmitsExactly(maxDropped: Option<real>, range: real, value: real)
    requires Abs(value) <= range
    ensures Ceiling(maxDropped, range, value) > 0.0 <==> Admits(maxDropped, range)
  {
  }

  lemma WalkedTruth(n: nat, seed: Terms, now: Terms, ops: seq<Op>, cuts: Cuts, slack: real, branching: nat)
    requires Ready(n, ops) && AllAccepted(ops) && Walked(n, seed, now, ops, 0, cuts, slack, branching)
    ensures Abs(Truth(n, seed, ops) - Reading(n, now, Vacuum(n))) <= slack
    ensures NothingToCut(seed, ops, cuts) ==> slack == 0.0
  {
    VacuumMass(n);
    hide Mass, Reading, L2, SameCoefs;
    assert Ran(n, ops, 0, Vacuum(n)) == Vacuum(n);
  }

  /**
    Propagate a seeded sum and gate the result.  A returned value is within the
    discarded mass of the true expectation; a run is refused when that mass reaches
    the ceiling, which with no explicit ceiling is where it stops excluding anything.
  */
  method Finish(ghost n: nat, ops: seq<Op>, cuts: Cuts, maxDropped: Option<real>, seed: MajoranaSum, range: real)
    returns (res: Result<Certificate, Failure>)
    requires Ready(n, ops) && Keys(n, seed.terms) && seed.dropped == 0.0
    modifies seed
    ensures res.Err? && res.error.BadGate? <==> !AllAccepted(ops)
    ensures res.Ok? ==> Abs(Truth(n, old(seed.terms), ops) - res.value.value) <= res.value.dropped
    ensures res.Ok? ==> res.value.dropped < Ceiling(maxDropped, range, res.value.value)
    ensures res.Ok? && maxDropped.None? ==> res.value.IsInformative()
    ensures res.Ok? ==> res.value.cuts == cuts && res.value.range == range && res.value.branching == CircuitBranchCount(ops, 0)
    ensures res.Err? && res.error.Vacuous? ==> res.error.dropped >= res.error.ceiling
    ensures AllAccepted(ops) && NothingToCut(old(seed.terms), ops, cuts) ==>
      (res.Ok? <==> Ceiling(maxDropped, range, Truth(n, old(seed.terms), ops)) > 0.0) &&
      (L1(n, CoefOf(old(seed.terms))) <= range ==> (res.Ok? <==> Admits(maxDropped, range))) &&
      (res.Ok? ==> res.value.IsExact() && res.value.value == Truth(n, old(seed.terms), ops))
  {
    hide Walked, Undone, Reading, Truth, CircuitBranchCount, AllAccepted, NothingToCut, L1, Admits, Keys;
    ghost var start := seed.terms;
    var walked := Propagate(n, seed, ops, cuts);
    if walked.Err? {
      assert !AllAccepted(ops) by { StoppedCircuit(ops, walked.error); }
      return Err(BadGate(walked.error));
    }
    WalkedParts(n, start, seed.terms, ops, 0, cuts, seed.dropped, walked.value);
    WalkedTruth(n, start, seed.terms, ops, cuts, seed.dropped, walked.value);
    WalkedCount(n, start, seed.terms, ops, cuts, seed.dropped, walked.value);
    if L1(n, CoefOf(start)) <= range {
      TruthAdmits(n, start, ops, maxDropped, range);
    }
    var value := seed.Expectation(n);
    assert value == Reading(n, seed.terms, Vacuum(n)) by { ReadingIsValue(n, seed.terms); }
    var cert := Certificate(value, seed.dropped, |seed.terms|, cuts, range, walked.value);
    var ceiling := Ceiling(maxDropped, range, value);
    if cert.dropped >= ceiling {
      return Err(Vacuous(cert.dropped, ceiling));
    }
    return Ok(cert);
  }

  lemma ReadingIsValue(n: nat, m: Terms)
    ensures Reading(n, m, Vacuum(n)) == Value(n, CoefOf(m), ReadoutOf(n, Vacuum(n)))
  {
  }

  lemma WalkedCount(n: nat, seed: Terms, now: Terms, ops: seq<Op>, cuts: Cuts, slack: real, branching: nat)
    requires Ready(n, ops) && Walked(n, seed, now, ops, 0, cuts, slack, branching)
    ensures branching == CircuitBranchCount(ops, 0)
  {
  }

  lemma StoppedCircuit(ops: seq<Op>, why: Refusal)
    requires exists k: nat :: StopsAt(ops, k, why)
    ensures !AllAccepted(ops)
  {
  }

  /**
    The vacuity gate is exact: the certified interval excludes some value that the
    observable's range allows exactly when the certificate is informative.
  */
  lemma InformativeExactly(cert: Certificate)
    requires cert.range >= 0.0
    ensures cert.IsInformative() <==>
      exists y: real :: -cert.range <= y <= cert.range && Outside(y, cert)
  {
    if cert.IsInformative() {
      var y := if cert.value >= 0.0 then -cert.range else cert.range;
      assert Outside(y, cert);
    }
  }

  predicate Outside(y: real, cert: Certificate) { Abs(y - cert.value) > cert.dropped }

  /** The true expectation never leaves the range given by the seed's coefficients. */
  lemma TruthInRange(n: nat, seed: Terms, ops: seq<Op>)
    requires Ready(n, ops) && AllAccepted(ops)
    ensures Abs(Truth(n, seed, ops)) <= L1(n, CoefOf(seed))
  {
    var psi := Ran(n, ops, |ops|, Vacuum(n));
    VacuumMass(n);
    RanKeepsMass(n, ops, |ops|, Vacuum(n));
    TruncationBound(n, seed, map[], psi);
    L1Empty(n);
    ValueEmpty(n, ReadoutOf(n, psi));
    hide Value, L1, ReadoutOf, Ran;
    assert Truth(n, seed, ops) == Value(n, CoefOf(seed), ReadoutOf(n, psi));
  }

  lemma TruthAdmits(n: nat, seed: Terms, ops: seq<Op>, maxDropped: Option<real>, range: real)
    requires Ready(n, ops) && AllAccepted(ops) && L1(n, CoefOf(seed)) <= range
    ensures Ceiling(maxDropped, range, Truth(n, seed, ops)) > 0.0 <==> Admits(maxDropped, range)
  {
    hide Truth, L1, Ceiling, Admits, AllAccepted, Ready;
    TruthInRange(n, seed, ops);
    AdmitsExactly(maxDropped, range, Truth(n, seed, ops));
  }

  // ---- what an uncut run conserves

  lemma {:induction false} UnwoundL2(n: nat, f: Bits -> real, rots: seq<Rot>, i: nat)
    requires i <= |rots| && AllValid(n, rots)
    ensures L2(n, Unwound(n, f, rots, i)) == L2(n, f)
    decreases |rots| - i
  {
    hide L2, Rotated, Rot.Cos, Rot.Sin;
    if i < |rots| {
      UnwoundL2(n, f, rots, i + 1);
      UnitAngle(rots[i], n);
      RotatedL2(n, Unwound(n, f, rots, i + 1), rots[i].key, rots[i].Cos(), rots[i].Sin());
    }
  }

  /** The sum of the squared coefficients is conserved by every uncut run. */
  lemma {:induction false} UncutL2(n: nat, f: Bits -> real, ops: seq<Op>, k: nat)
    requires k <= |ops| && Ready(n, ops) && AllAccepted(ops)
    ensures L2(n, Uncut(n, f, ops, k)) == L2(n, f)
    decreases |ops| - k
  {
    hide L2, Unwound;
    if k < |ops| {
      UncutL2(n, f, ops, k + 1);
      UnwoundL2(n, Uncut(n, f, ops, k + 1), ops[k].rots.value, 0);
    }
  }

  // ---- which generators change lengths

  /** The monomial with one generator. */
  function Single(m: nat, j: nat): (b: Bits)
    requires j < m
    ensures |b| == m
  {
    seq(m, i => i == j)
  }

  lemma {:induction false} SingleOnes(m: nat, j: nat, c: Bits, k: nat)
    requires j < m == |c| && k <= m
    ensures Ones(Single(m, j), k) == if j < k then 1 else 0
    ensures Shared(Single(m, j), c, k) == if j < k && c[j] then 1 else 0
  {
    if k == 0 {
    } else {
      SingleOnes(m, j, c, k - 1);
    }
  }

  lemma {:induction false} SomeBit(c: Bits, k: nat, v: bool) returns (j: nat)
    requires k <= |c| && if v then Ones(c, k) > 0 else Ones(c, k) < k
    ensures j < k && c[j] == v
  {
    if c[k - 1] == v {
      return k - 1;
    }
    j := SomeBit(c, k - 1, v);
  }

  /** A generator keeps the length of everything it moves exactly when its own length is two. */
  lemma LengthKeptExactly(n: nat, c: Bits)
    requires |c| == 2 * n && Length(c) > 0
    ensures (forall b | |b| == 2 * n && !Commutes(b, c) :: Length(Xor(c, b)) == Length(b)) <==> Length(c) == 2
  {
    if Length(c) == 2 {
      forall b | |b| == 2 * n && !Commutes(b, c) ensures Length(Xor(c, b)) == Length(b) {
        RotationLength(b, c);
      }
    } else {
      var b := Changed(n, c);
    }
  }

  /** A monomial of length one whose length the generator changes. */
  lemma Changed(n: nat, c: Bits) returns (b: Bits)
    requires |c| == 2 * n && Length(c) > 0 && Length(c) != 2
    ensures |b| == 2 * n && Length(b) == 1 && !Commutes(b, c) && Length(Xor(c, b)) != Length(b)
  {
    var j := SomeBit(c, 2 * n, Length(c) % 2 == 0);
    b := Single(2 * n, j);
    SingleOnes(2 * n, j, c, 2 * n);
    OnesOfXor(c, b, 2 * n);
    SharedCommutes(b, c, 2 * n);
    assert Length(b) * Length(c) == Length(c);
  }

  /**
    The count of branching rotations misses generators of length one and three: with
    a generator of odd length below four, a monomial within the cut is rotated past it
    while the count stays at zero.
  */
  lemma CountMissesShortGenerators(n: nat, c: Bits, after: Terms) returns (rot: Rot, seed: Terms)
    requires |c| == 2 * n && (Length(c) == 1 || Length(c) == 3)
    ensures rot.Valid(n) && rot.key == c && Keys(n, seed) && Short(seed, Some(1)) && BranchCount([rot], 0) == 0
    ensures Branched(n, seed, after, c, rot.Cos(), rot.Sin()) ==> !Short(after, Some(1))
  {
    var b := Changed(n, c);
    rot := Rot(c, false, 0.8, 0.6);
    seed := map[b := 1.0];
    assert rot.Sin() == 0.96;
    assert BranchCount([rot], 1) == 0;
    XorTwice(b, c);
    CommutesWithImage(b, c);
    OnesOfXor(c, b, 2 * n);
    var d := Xor(c, b);
    assert Moves(n, c, d) && Xor(c, d) == b;
    if Branched(n, seed, after, c, rot.Cos(), rot.Sin()) {
      assert BranchedAt(n, seed, after, c, rot.Cos(), rot.Sin(), d);
      assert d in after;
      assert Length(d) > 1 by { ChangedUp(n, c, b); }
    }
  }

  lemma ChangedUp(n: nat, c: Bits, b: Bits)
    requires |c| == |b| == 2 * n && Length(c) % 2 == 1 && Length(b) == 1 && !Commutes(b, c)
    ensures Length(Xor(c, b)) == Length(c) + 1
  {
    OnesOfXor(c, b, 2 * n);
    SharedCommutes(b, c, 2 * n);
    assert Length(b) * Length(c) == Length(c);
  }
}
