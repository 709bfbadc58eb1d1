/**
  The other half of deferring: terms of the observable that flip a measured qubit are
  deleted.  When that is the average over the outcomes, term by term and exactly, and
  the expectation door for circuits with measurements.
*/
module Dephase {
  import opened Wrappers
  import opened Linear
  import opened Bits
  import opened ComplexNumbers
  import opened Majorana
  import opened MajoranaFock
  import opened MajoranaPauli
  import opened MajoranaPropagate
  import opened MajoranaCertificate
  import opened PauliTerms
  import opened PauliExpectation
  import opened MajoranaDoor
  import opened MajoranaGates
  import opened PairMaps
  import opened TurnMaps
  import opened GateMeaning
  import opened GateAgreement
  import opened CrossCheck
  import opened DeferMeasure
  import opened DeferredRun
  import Sim = Simulator

  /** Some site flips a measured qubit. */
  predicate Dropped(sites: Sites, measured: seq<nat>) {
    exists i | 0 <= i < |sites| :: sites[i].0 in measured && FlipsBit(sites[i].1)
  }

  /** The terms that flip no measured qubit, in their order. */
  function Dephased(obs: Observable, measured: seq<nat>): Observable {
    if obs == [] then []
    else Dephased(obs[..|obs| - 1], measured) + if Dropped(obs[|obs| - 1].1, measured) then [] else [obs[|obs| - 1]]
  }

  // ---- one multiple of a string

  predicate FlipsSome(x: Bits, qs: seq<nat>) { exists i | 0 <= i < |qs| :: qs[i] < |x| && x[qs[i]] }

  ghost function ReaderOf(n: nat, m: Multiple): Vector -> real
    requires m.Valid(n)
  {
    (psi: Vector) => m.Reading(n, psi)
  }

  ghost function Summand(n: nat, m: Multiple, psi: Vector): Bits -> real
    requires m.Valid(n)
  {
    o => if |o| == n then Inner(psi(o), m.Applied(n, psi)(o)) else 0.0
  }

  lemma ReadingAsSum(n: nat, m: Multiple, psi: Vector)
    requires m.Valid(n)
    ensures m.Reading(n, psi) == SumAll(n, Summand(n, m, psi))
  {
    hide Inner, Multiple.Applied;
    PairAsSum(n, psi, m.Applied(n, psi), Summand(n, m, psi));
  }

  lemma SummandProjected(n: nat, m: Multiple, q: nat, v: bool, psi: Vector, o: Bits)
    requires m.Valid(n) && q < n && |o| == n
    ensures Summand(n, m, Projected(q, v, psi))(o) == if o[q] == v && !m.x[q] then Summand(n, m, psi)(o) else 0.0
  {
    hide Inner, TimesI, Multiple.Power;
    var p := Xor(o, m.x);
    assert p[q] == (o[q] != m.x[q]);
    InnerOfZero(m.Power(p));
    InnerZero(m.Applied(n, Projected(q, v, psi))(o));
  }

  /** Over the two outcomes of a qubit, a string that flips it averages out, and any other reads as before. */
  lemma ReadingSplit(n: nat, m: Multiple, q: nat, psi: Vector)
    requires m.Valid(n) && q < n
    ensures m.x[q] ==> forall v :: m.Reading(n, Projected(q, v, psi)) == 0.0
    ensures !m.x[q] ==> m.Reading(n, Projected(q, false, psi)) + m.Reading(n, Projected(q, true, psi)) == m.Reading(n, psi)
  {
    hide Multiple.Reading, Summand, Projected;
    forall v: bool, o: Bits | |o| == n
      ensures Summand(n, m, Projected(q, v, psi))(o) == if o[q] == v && !m.x[q] then Summand(n, m, psi)(o) else 0.0
    {
      SummandProjected(n, m, q, v, psi, o);
    }
    ReadingAsSum(n, m, psi);
    forall v: bool ensures m.Reading(n, Projected(q, v, psi)) == SumAll(n, Summand(n, m, Projected(q, v, psi))) {
      ReadingAsSum(n, m, Projected(q, v, psi));
    }
    if m.x[q] {
      forall v: bool ensures m.Reading(n, Projected(q, v, psi)) == 0.0 {
        SumOfZero([], n, Summand(n, m, Projected(q, v, psi)));
      }
    } else {
      SumPlus([], n, Summand(n, m, psi), Summand(n, m, Projected(q, false, psi)), Summand(n, m, Projected(q, true, psi)));
    }
  }

  /** The same over the outcomes of several qubits, in any order and with repetitions. */
  lemma {:induction false} ReadingSummedOut(n: nat, m: Multiple, qs: seq<nat>, psi: Vector)
    requires m.Valid(n) && forall q | q in qs :: q < n
    ensures SumOut(qs, psi, ReaderOf(n, m)) == if FlipsSome(m.x, qs) then 0.0 else m.Reading(n, psi)
  {
    hide Multiple.Reading, Projected;
    if qs != [] {
      assert qs[0] in qs && forall q | q in qs[1..] :: q in qs;
      ReadingSummedOut(n, m, qs[1..], Projected(qs[0], false, psi));
      ReadingSummedOut(n, m, qs[1..], Projected(qs[0], true, psi));
      ReadingSplit(n, m, qs[0], psi);
      FlipsFirst(m.x, qs);
    }
  }

  lemma FlipsFirst(x: Bits, qs: seq<nat>)
    requires qs != [] && qs[0] < |x|
    ensures FlipsSome(x, qs) <==> x[qs[0]] || FlipsSome(x, qs[1..])
  {
    if x[qs[0]] { assert FlipsSome(x, qs); }
    if i :| 0 <= i < |qs| && qs[i] < |x| && x[qs[i]] && i > 0 { assert qs[1..][i - 1] == qs[i]; }
    if j :| 0 <= j < |qs[1..]| && qs[1..][j] < |x| && x[qs[1..][j]] { assert qs[j + 1] == qs[1..][j]; }
  }

  // ---- one term

  ghost function TermReader(n: nat, sites: Sites): Vector -> real
    requires InRange(n, sites)
  {
    (psi: Vector) => TermReading(n, sites, psi)
  }

  lemma {:induction false} SumOutAgrees(qs: seq<nat>, psi: Vector, f: Vector -> real, g: Vector -> real)
    requires forall phi: Vector :: f(phi) == g(phi)
    ensures SumOut(qs, psi, f) == SumOut(qs, psi, g)
  {
    hide Projected;
    if qs != [] {
      SumOutAgrees(qs[1..], Projected(qs[0], false, psi), f, g);
      SumOutAgrees(qs[1..], Projected(qs[0], true, psi), f, g);
    }
  }

  lemma TermSummedOut(n: nat, sites: Sites, qs: seq<nat>, psi: Vector)
    requires InRange(n, sites) && forall q | q in qs :: q < n
    ensures SumOut(qs, psi, TermReader(n, sites)) ==
      if FlipsSome(MultipliedOut(n, sites, |sites|).x, qs) then 0.0 else TermReading(n, sites, psi)
  {
    hide TermReading, Multiple.Reading, MultipliedOut, SumOut;
    var m := MultipliedOut(n, sites, |sites|);
    forall phi: Vector ensures TermReader(n, sites)(phi) == ReaderOf(n, m)(phi) {
      TermReadsMultiple(n, sites, phi);
    }
    SumOutAgrees(qs, psi, TermReader(n, sites), ReaderOf(n, m));
    ReadingSummedOut(n, m, qs, psi);
    TermReadsMultiple(n, sites, psi);
  }

  /** A qubit that the product flips is flipped by some site. */
  lemma {:induction false} ProductFlips(n: nat, sites: Sites, k: nat, q: nat)
    requires k <= |sites| && InRange(n, sites) && q < n && MultipliedOut(n, sites, k).x[q]
    ensures exists i | 0 <= i < k :: sites[i].0 == q && FlipsBit(sites[i].1)
  {
    hide MultipliedOut;
    if k == 0 {
      NothingFlipped(n, sites, q);
    } else {
      MarksOfNext(n, sites, k);
      if !(sites[k - 1].0 == q && FlipsBit(sites[k - 1].1)) {
        ProductFlips(n, sites, k - 1, q);
        var i :| 0 <= i < k - 1 && sites[i].0 == q && FlipsBit(sites[i].1);
        assert 0 <= i < k;
      }
    }
  }

  lemma NothingFlipped(n: nat, sites: Sites, q: nat)
    requires InRange(n, sites) && q < n
    ensures !MultipliedOut(n, sites, 0).x[q]
  {
  }

  lemma KeptFlipsNone(n: nat, sites: Sites, measured: seq<nat>)
    requires InRange(n, sites) && !Dropped(sites, measured)
    ensures !FlipsSome(MultipliedOut(n, sites, |sites|).x, measured)
  {
    hide MultipliedOut;
    var x := MultipliedOut(n, sites, |sites|).x;
    if i :| 0 <= i < |measured| && measured[i] < |x| && x[measured[i]] {
      ProductFlips(n, sites, |sites|, measured[i]);
    }
  }

  /** What deleting or keeping the term reads. */
  ghost predicate DephasedRight(n: nat, sites: Sites, measured: seq<nat>)
    requires InRange(n, sites)
  {
    forall psi: Vector :: DephasedRightAt(n, sites, measured, psi)
  }

  ghost predicate DephasedRightAt(n: nat, sites: Sites, measured: seq<nat>, psi: Vector)
    requires InRange(n, sites)
  {
    SumOut(measured, psi, TermReader(n, sites)) == if Dropped(sites, measured) then 0.0 else TermReading(n, sites, psi)
  }

  /**
    Dephasing a term is averaging over the outcomes, in every state, exactly when the
    term is kept, or its product does flip a measured qubit, or has no real expectation.
  */
  lemma DephasedExactly(n: nat, sites: Sites, measured: seq<nat>)
    requires InRange(n, sites) && forall q | q in measured :: q < n
    ensures DephasedRight(n, sites, measured) <==>
      var m := MultipliedOut(n, sites, |sites|);
      !Dropped(sites, measured) || FlipsSome(m.x, measured) || m.e % 2 == 1
  {
    hide TermReading, MultipliedOut, Multiple.Reading, SumOut, Dropped, FlipsSome;
    var m := MultipliedOut(n, sites, |sites|);
    forall psi: Vector
      ensures SumOut(measured, psi, TermReader(n, sites)) == if FlipsSome(m.x, measured) then 0.0 else TermReading(n, sites, psi)
      ensures TermReading(n, sites, psi) == m.Reading(n, psi) && (m.e % 2 == 1 ==> m.Reading(n, psi) == 0.0)
    {
      TermSummedOut(n, sites, measured, psi);
      TermReadsMultiple(n, sites, psi);
      if m.e % 2 == 1 { OddReadsNothing(n, m, psi); }
    }
    if !Dropped(sites, measured) {
      KeptFlipsNone(n, sites, measured);
    } else if m.e % 2 == 0 && !FlipsSome(m.x, measured) {
      var psi := SomeReading(n, m);
      assert !DephasedRightAt(n, sites, measured, psi);
    }
  }

  /** A Hermitian string reads something in some state. */
  lemma SomeReading(n: nat, m: Multiple) returns (psi: Vector)
    requires m.Valid(n) && m.e % 2 == 0
    ensures m.Reading(n, psi) != 0.0
  {
    hide Multiple.Reading;
    var w := Multiple(m.x, m.z, (m.e + 2) % 4);
    if forall phi: Vector :: m.Reading(n, phi) == 0.0 {
      forall phi: Vector ensures w.Reading(n, phi) == m.Reading(n, phi) {
        OppositeReading(n, m, w, phi);
      }
      ReadingTells(n, w, m);
      assert false;
    }
    psi :| m.Reading(n, psi) != 0.0;
  }

  lemma OppositeReading(n: nat, m: Multiple, w: Multiple, psi: Vector)
    requires m.Valid(n) && w == Multiple(m.x, m.z, (m.e + 2) % 4)
    ensures w.Reading(n, psi) == -1.0 * m.Reading(n, psi)
  {
    hide Multiple.Reading, Summand;
    ReadingAsSum(n, m, psi);
    ReadingAsSum(n, w, psi);
    forall o | |o| == n ensures Summand(n, w, psi)(o) == -1.0 * Summand(n, m, psi)(o) {
      OppositeSummand(n, m, w, psi, o);
    }
    SumScaled([], n, Summand(n, w, psi), -1.0, Summand(n, m, psi));
  }

  lemma OppositeSummand(n: nat, m: Multiple, w: Multiple, psi: Vector, o: Bits)
    requires m.Valid(n) && w == Multiple(m.x, m.z, (m.e + 2) % 4) && |o| == n
    ensures Summand(n, w, psi)(o) == -1.0 * Summand(n, m, psi)(o)
  {
    var p := Xor(o, m.x);
    hide PauliPhase;
    assert (w.Power(p) - m.Power(p)) % 4 == 2;
    OppositeInner(psi(o), m.Power(p), w.Power(p), psi(p));
  }

  lemma OppositeInner(a: Complex, s: nat, t: nat, b: Complex)
    requires (t - s) % 4 == 2
    ensures Inner(a, TimesI(t, b)) == -1.0 * Inner(a, TimesI(s, b))
  {
  }

  /** X twice on a measured qubit is the identity, which no measurement changes, yet the term is deleted. */
  lemma TwoXsAreDropped(n: nat, q: nat)
    requires q < n
    ensures var sites := [(q, X), (q, X)];
      && InRange(n, sites) && Dropped(sites, [q]) && MultipliedOut(n, sites, 2) == Multiple(Zero(n), Zero(n), 0)
      && !DephasedRight(n, sites, [q])
  {
    var sites: Sites := [(q, X), (q, X)];
    assert Dropped(sites, [q]) by { assert sites[0].0 in [q]; }
    TwoXs(n, q);
    DephasedExactly(n, sites, [q]);
  }

  lemma TwoXs(n: nat, q: nat)
    requires q < n
    ensures MultipliedOut(n, [(q, X), (q, X)], 2) == Multiple(Zero(n), Zero(n), 0)
  {
    var sites: Sites := [(q, X), (q, X)];
    var m0, m1, m2 := MultipliedOut(n, sites, 0), MultipliedOut(n, sites, 1), MultipliedOut(n, sites, 2);
    LeftoverIs(X, false, false);
    LeftoverIs(X, true, false);
    assert m2.x == Zero(n) && m2.z == Zero(n);
  }

  /**
    Deferring alone is a wrong answer: in the state |00> + |11>, which a Hadamard, a
    measurement and a conditioned X leave behind once deferred, X on both qubits reads
    the whole mass, and over the outcomes nothing.
  */
  lemma DeferringAloneMisreads(n: nat, q: nat, r: nat)
    requires q < n && r < n && q != r
    ensures var sites := [(q, X), (r, X)];
      var psi := Couple(Zero(n), UnitPair(n, q, r), 0);
      && InRange(n, sites) && TermReading(n, sites, psi) == 2.0
      && SumOut([q], psi, TermReader(n, sites)) == 0.0
  {
    var sites: Sites := [(q, X), (r, X)];
    var b := UnitPair(n, q, r);
    var m := Multiple(b, Zero(n), 0);
    hide TermReading, SumOut, Multiple.Reading;
    TwoFlips(n, q, r);
    TermSummedOut(n, sites, [q], Couple(Zero(n), b, 0));
    assert FlipsSome(b, [q]) by { assert [q][0] == q; }
    TermReadsMultiple(n, sites, Couple(Zero(n), b, 0));
    assert b != Zero(n) by { assert b[q]; }
    ReadCouple(n, m, Zero(n), b, 0);
    NoMarkNoPhase(b, Zero(n), n);
    NoMarkNoPhase(b, b, n);
    assert Xor(Zero(n), b) == b;
  }

  lemma TwoFlips(n: nat, q: nat, r: nat)
    requires q < n && r < n && q != r
    ensures MultipliedOut(n, [(q, X), (r, X)], 2) == Multiple(UnitPair(n, q, r), Zero(n), 0)
  {
    var sites: Sites := [(q, X), (r, X)];
    NamedOnceMultipliesOut(n, sites);
    assert XBits(n, sites) == UnitPair(n, q, r) by {
      forall j | 0 <= j < n ensures XBits(n, sites)[j] == (j == q || j == r) {
        MarkedExactly(n, sites, 2, true, j);
        assert sites[0] == (q, X) && sites[1] == (r, X);
      }
    }
    assert ZBits(n, sites) == Zero(n) by {
      forall j | 0 <= j < n ensures !ZBits(n, sites)[j] { MarkedExactly(n, sites, 2, false, j); }
    }
  }

  lemma {:induction false} NoMarkNoPhase(x: Bits, o: Bits, k: nat)
    requires |x| == |o| && k <= |o|
    ensures PauliPhase(x, Zero(|o|), o, k) == 0
  {
    if k > 0 { NoMarkNoPhase(x, o, k - 1); }
  }

  // ---- the observable

  ghost function ObservableReader(n: nat, obs: Observable): Vector -> real
    requires forall i | 0 <= i < |obs| :: InRange(n, obs[i].1)
  {
    (psi: Vector) => ObservableReading(n, obs, |obs|, psi)
  }

  lemma {:induction false} SumOutPlus(qs: seq<nat>, psi: Vector, h: Vector -> real, f: Vector -> real, c: real, g: Vector -> real)
    requires forall phi: Vector :: h(phi) == f(phi) + Times(c, g(phi))
    ensures SumOut(qs, psi, h) == SumOut(qs, psi, f) + Times(c, SumOut(qs, psi, g))
  {
    hide Projected, Times;
    if qs != [] {
      SumOutPlus(qs[1..], Projected(qs[0], false, psi), h, f, c, g);
      SumOutPlus(qs[1..], Projected(qs[0], true, psi), h, f, c, g);
      DistributeTimes(c, SumOut(qs[1..], Projected(qs[0], false, psi), g), SumOut(qs[1..], Projected(qs[0], true, psi), g));
    }
  }

  lemma {:induction false} SumOutNothing(qs: seq<nat>, psi: Vector, f: Vector -> real)
    requires forall phi: Vector :: f(phi) == 0.0
    ensures SumOut(qs, psi, f) == 0.0
  {
    hide Projected;
    if qs != [] {
      SumOutNothing(qs[1..], Projected(qs[0], false, psi), f);
      SumOutNothing(qs[1..], Projected(qs[0], true, psi), f);
    }
  }

  lemma {:induction false} ReadingPrefix(n: nat, obs: Observable, pre: Observable, k: nat, psi: Vector)
    requires k <= |obs| && k <= |pre| && obs[..k] == pre[..k] && forall i | 0 <= i < k :: InRange(n, obs[i].1)
    ensures (forall i | 0 <= i < k :: InRange(n, pre[i].1)) && ObservableReading(n, obs, k, psi) == ObservableReading(n, pre, k, psi)
  {
    hide TermReading, Times, InRange;
    assert forall i | 0 <= i < k :: obs[i] == pre[i] by {
      forall i | 0 <= i < k ensures obs[i] == pre[i] { assert obs[..k][i] == pre[..k][i]; }
    }
    if k > 0 {
      assert obs[..k - 1] == obs[..k][..k - 1] && pre[..k - 1] == pre[..k][..k - 1];
      ReadingPrefix(n, obs, pre, k - 1, psi);
    }
  }

  lemma LastReading(n: nat, obs: Observable, psi: Vector)
    requires obs != [] && forall i | 0 <= i < |obs| :: InRange(n, obs[i].1)
    ensures var last := |obs| - 1;
      ObservableReading(n, obs, |obs|, psi) == ObservableReading(n, obs[..last], last, psi) + Times(obs[last].0, TermReading(n, obs[last].1, psi))
  {
    hide TermReading, Times, InRange;
    ReadingPrefix(n, obs, obs[..|obs| - 1], |obs| - 1, psi);
  }

  ghost predicate AllDephasedRight(n: nat, obs: Observable, measured: seq<nat>) {
    forall i | 0 <= i < |obs| :: InRange(n, obs[i].1) && DephasedRight(n, obs[i].1, measured)
  }

  lemma {:induction false} DephasedTerms(obs: Observable, measured: seq<nat>)
    ensures forall t :: t in Dephased(obs, measured) <==> t in obs && !Dropped(t.1, measured)
  {
    if obs != [] {
      DephasedTerms(obs[..|obs| - 1], measured);
      assert obs == obs[..|obs| - 1] + [obs[|obs| - 1]];
    }
  }

  /** What the last term adds, deleted or kept. */
  lemma DephasedLast(n: nat, obs: Observable, measured: seq<nat>, psi: Vector)
    requires obs != [] && DephasedInRange(n, obs, measured) && DephasedInRange(n, obs[..|obs| - 1], measured) && InRange(n, obs[|obs| - 1].1)
    ensures var (c, sites) := obs[|obs| - 1];
      DephasedReading(n, obs, measured, psi) == DephasedReading(n, obs[..|obs| - 1], measured, psi) +
        Times(c, if Dropped(sites, measured) then 0.0 else TermReading(n, sites, psi))
  {
    hide TermReading, Times, Dropped, InRange;
    var k := |obs| - 1;
    var before, after := Dephased(obs[..k], measured), Dephased(obs, measured);
    if Dropped(obs[k].1, measured) {
      TimesByZero(obs[k].0);
      assert after == before;
    } else {
      assert after[..|after| - 1] == before;
      LastReading(n, after, psi);
    }
  }

  ghost predicate DephasedInRange(n: nat, obs: Observable, measured: seq<nat>) {
    var after := Dephased(obs, measured); forall i | 0 <= i < |after| :: InRange(n, after[i].1)
  }

  ghost function DephasedReading(n: nat, obs: Observable, measured: seq<nat>, psi: Vector): real
    requires DephasedInRange(n, obs, measured)
  {
    var after := Dephased(obs, measured); ObservableReading(n, after, |after|, psi)
  }

  lemma RightIsInRange(n: nat, obs: Observable, measured: seq<nat>)
    requires AllDephasedRight(n, obs, measured)
    ensures DephasedInRange(n, obs, measured) && forall i | 0 <= i < |obs| :: InRange(n, obs[i].1)
    ensures obs != [] ==> AllDephasedRight(n, obs[..|obs| - 1], measured)
  {
    hide InRange, DephasedRight, Dropped;
    DephasedTerms(obs, measured);
    var after := Dephased(obs, measured);
    forall i | 0 <= i < |after| ensures InRange(n, after[i].1) { assert after[i] in obs; }
  }

  /** Dephasing the observable is averaging it over the outcomes, when it is so for each of its terms. */
  lemma {:induction false} DephasedReads(n: nat, obs: Observable, measured: seq<nat>, psi: Vector)
    requires AllDephasedRight(n, obs, measured)
    ensures DephasedInRange(n, obs, measured) && forall i | 0 <= i < |obs| :: InRange(n, obs[i].1)
    ensures SumOut(measured, psi, ObservableReader(n, obs)) == DephasedReading(n, obs, measured, psi)
  {
    hide TermReading, Times, SumOut, Dropped, InRange, DephasedReading, DephasedInRange, Dephased;
    RightIsInRange(n, obs, measured);
    if obs == [] {
      SumOutNothing(measured, psi, ObservableReader(n, obs));
      NothingDephased(n, obs, measured, psi);
    } else {
      var k := |obs| - 1;
      var before, sites := obs[..k], obs[k].1;
      DephasedReads(n, before, measured, psi);
      forall phi: Vector
        ensures ObservableReader(n, obs)(phi) == ObservableReader(n, before)(phi) + Times(obs[k].0, TermReader(n, sites)(phi))
      {
        LastReading(n, obs, phi);
      }
      SumOutPlus(measured, psi, ObservableReader(n, obs), ObservableReader(n, before), obs[k].0, TermReader(n, sites));
      assert DephasedRightAt(n, sites, measured, psi);
      DephasedLast(n, obs, measured, psi);
    }
  }

  lemma NothingDephased(n: nat, obs: Observable, measured: seq<nat>, psi: Vector)
    requires obs == []
    ensures DephasedInRange(n, obs, measured) && DephasedReading(n, obs, measured, psi) == 0.0
  {
  }

  /** The marks of a term that multiplies out to them flip what its sites flip, so dephasing is right. */
  lemma MultipliedOutIsRight(n: nat, obs: Observable, measured: seq<nat>)
    requires AllMultiplyOut(n, obs) && forall q | q in measured :: q < n
    ensures AllDephasedRight(n, obs, measured) && AllMultiplyOut(n, Dephased(obs, measured))
  {
    hide MultipliedOut, DephasedRight, XBits, ZBits, InRange;
    DephasedTerms(obs, measured);
    forall i | 0 <= i < |obs| ensures DephasedRight(n, obs[i].1, measured) {
      var sites := obs[i].1;
      DephasedExactly(n, sites, measured);
      if Dropped(sites, measured) {
        DroppedFlips(n, sites, measured);
      }
    }
    var after := Dephased(obs, measured);
    forall i | 0 <= i < |after| ensures InRange(n, after[i].1) && MultipliesOut(n, after[i].1) {
      assert after[i] in obs;
    }
  }

  lemma DroppedFlips(n: nat, sites: Sites, measured: seq<nat>)
    requires InRange(n, sites) && Dropped(sites, measured)
    ensures FlipsSome(XBits(n, sites), measured)
  {
    var i :| 0 <= i < |sites| && sites[i].0 in measured && FlipsBit(sites[i].1);
    var j :| 0 <= j < |measured| && measured[j] == sites[i].0;
    MarkedExactly(n, sites, |sites|, true, sites[i].0);
    assert XBits(n, sites)[measured[j]];
  }

  // ---- the deferred circuit, from its start

  lemma SplitIsUsed(ops: seq<Instr>, q: nat)
    ensures q in Split(ops, 0) <==> Used(ops, |ops|, q)
  {
    if q in Split(ops, 0) {
      var i := SplitMeasured(ops, 0, q);
      var j := LiveIsRead(ops, ops[i].cbit.value, i + 1);
      WriterStays(ops, ops[i].cbit.value, i, j);
      assert Controls(ops, j, q);
    }
    if Used(ops, |ops|, q) {
      var j :| 0 <= j < |ops| && Controls(ops, j, q);
      var c := ops[j].condition.value.cbit;
      var i := WriterMeasured(ops, c, j);
      ReadIsLive(ops, c, i + 1, j);
      SplitHas(ops, 0, i);
    }
  }

  lemma {:induction false} SplitMeasured(ops: seq<Instr>, k: nat, q: nat) returns (i: nat)
    requires k <= |ops| && q in Split(ops, k)
    ensures k <= i < |ops| && Consequential(ops, i) && ops[i].Measured() == Some(q)
    decreases |ops| - k
  {
    if Consequential(ops, k) && ops[k].Measured() == Some(q) {
      i := k;
    } else {
      i := SplitMeasured(ops, k + 1, q);
    }
  }

  lemma {:induction false} SplitHas(ops: seq<Instr>, k: nat, i: nat)
    requires k <= i < |ops| && Consequential(ops, i)
    ensures ops[i].Measured().value in Split(ops, k)
    decreases i - k
  {
    if k < i { SplitHas(ops, k + 1, i); }
  }

  lemma {:induction false} LiveIsRead(ops: seq<Instr>, c: nat, k: nat) returns (j: nat)
    requires k <= |ops| && Live(ops, c, k)
    ensures k <= j < |ops| && ops[j].Reads(c) && forall l | k <= l < j :: !ops[l].Writes(c)
    decreases |ops| - k
  {
    j := k;
    if !ops[k].Reads(c) { j := LiveIsRead(ops, c, k + 1); }
  }

  lemma {:induction false} ReadIsLive(ops: seq<Instr>, c: nat, k: nat, j: nat)
    requires k <= j < |ops| && ops[j].Reads(c) && forall l | k <= l < j :: !ops[l].Writes(c)
    ensures Live(ops, c, k)
    decreases j - k
  {
    if k < j { ReadIsLive(ops, c, k + 1, j); }
  }

  lemma {:induction false} WriterStays(ops: seq<Instr>, c: nat, i: nat, j: nat)
    requires i < j <= |ops| && ops[i].Writes(c) && forall l | i < l < j :: !ops[l].Writes(c)
    ensures Writer(ops, c, j) == ops[i].Measured()
    decreases j
  {
    if i + 1 < j { WriterStays(ops, c, i, j - 1); }
  }

  lemma {:induction false} SameDephased(obs: Observable, a: seq<nat>, b: seq<nat>)
    requires forall q: nat :: q in a <==> q in b
    ensures Dephased(obs, a) == Dephased(obs, b)
  {
    if obs != [] { SameDephased(obs[..|obs| - 1], a, b); }
  }

  lemma EmittedWired(n: nat, sim: Sim.Trig, ops: seq<Instr>, k: nat)
    requires k < |ops| && Deferrable(ops) && OpsWired(n, sim, ops) && !ops[k].gate.Measure?
    ensures Wired(n, sim, Emitted(ops, k))
  {
    hide Settled, Instr.Qubits, ActionFor, ControlledForm;
    assert Convertible(ops, k);
    if ops[k].condition.Some? {
      var c := ops[k].condition.value.cbit;
      WriterInRange(n, sim, ops, c, k);
      ControlIsFree(ops, k);
      FormQubit(ops[k]);
      var t, m := FormActs(sim, ops[k].gate, Writer(ops, c, k).value);
    }
  }

  lemma {:induction false} DonePrefix(n: nat, sim: Sim.Trig, a: seq<GateOp>, b: seq<GateOp>, k: nat, psi: Vector)
    requires k <= |a| <= |b| && b[..|a|] == a && WiredAll(n, sim, b)
    ensures WiredAll(n, sim, a) && CircuitDone(n, sim, a, k, psi) == CircuitDone(n, sim, b, k, psi)
  {
    hide Done, ActionFor, Wired;
    assert forall i | 0 <= i < |a| :: a[i] == b[i];
    if k > 0 { DonePrefix(n, sim, a, b, k - 1, psi); }
  }

  lemma {:induction false} ImageWired(n: nat, sim: Sim.Trig, ops: seq<Instr>, k: nat)
    requires k <= |ops| && Deferrable(ops) && OpsWired(n, sim, ops)
    ensures WiredAll(n, sim, Image(ops, k))
  {
    hide Wired, Emitted, Settled;
    if k > 0 {
      ImageWired(n, sim, ops, k - 1);
      assert Convertible(ops, k - 1);
      if !ops[k - 1].gate.Measure? { EmittedWired(n, sim, ops, k - 1); }
    }
  }

  /** The deferred circuit run from its start is the deferred run. */
  lemma {:induction false} ImageRuns(n: nat, sim: Sim.Trig, ops: seq<Instr>, k: nat, psi: Vector)
    requires k <= |ops| && Deferrable(ops) && OpsWired(n, sim, ops)
    ensures WiredAll(n, sim, Image(ops, k))
    ensures Rest(n, sim, ops, k, CircuitDone(n, sim, Image(ops, k), |Image(ops, k)|, psi)) == Rest(n, sim, ops, 0, psi)
  {
    hide Wired, Emitted, Settled, Done, ActionFor;
    ImageWired(n, sim, ops, k);
    if k > 0 {
      ImageRuns(n, sim, ops, k - 1, psi);
      assert Convertible(ops, k - 1);
      if !ops[k - 1].gate.Measure? {
        var a, b := Image(ops, k - 1), Image(ops, k);
        assert b == a + [GateOp(false, Emitted(ops, k - 1))];
        DonePrefix(n, sim, a, b, |a|, psi);
      } else {
        assert Image(ops, k) == Image(ops, k - 1);
      }
    }
  }

  ghost predicate OpsInRange(n: nat, trig: Trig, ops: seq<Instr>) {
    forall i | 0 <= i < |ops| :: GateInRange(n, trig, Plain(ops[i]))
  }

  lemma {:induction false} ImageInRange(n: nat, trig: Trig, sim: Sim.Trig, ops: seq<Instr>, k: nat)
    requires TrigsAgree(trig, sim) && OpsInRange(n, trig, ops) && OpsWired(n, sim, ops) && Deferrable(ops) && k <= |ops|
    ensures CircuitInRange(n, trig, Image(ops, k))
  {
    hide TrigsAgree, GateInRange, Wired, Settled, Emitted, Agrees;
    if k > 0 {
      ImageInRange(n, trig, sim, ops, k - 1);
      assert Convertible(ops, k - 1);
      if !ops[k - 1].gate.Measure? {
        EmittedInRange(n, trig, sim, ops, k - 1);
      }
    }
  }

  /** Every tilt that the engine's table drops does nothing. */
  ghost predicate OpsExact(sim: Sim.Trig, ops: seq<Instr>) { forall i | 0 <= i < |ops| :: Exact(sim, ops[i].gate) }

  lemma {:induction false} ImageExact(sim: Sim.Trig, ops: seq<Instr>, k: nat)
    requires k <= |ops| && Deferrable(ops) && OpsExact(sim, ops)
    ensures ExactAll(sim, Image(ops, k))
  {
    hide Settled;
    if k > 0 {
      ImageExact(sim, ops, k - 1);
      assert Convertible(ops, k - 1) && Exact(sim, ops[k - 1].gate);
      if !ops[k - 1].gate.Measure? {
        assert Exact(sim, Emitted(ops, k - 1));
      }
    }
  }

  lemma EmittedInRange(n: nat, trig: Trig, sim: Sim.Trig, ops: seq<Instr>, k: nat)
    requires TrigsAgree(trig, sim) && OpsInRange(n, trig, ops) && OpsWired(n, sim, ops) && Deferrable(ops) && k < |ops| && !ops[k].gate.Measure?
    ensures Convertible(ops, k) && GateInRange(n, trig, GateOp(false, Emitted(ops, k)))
  {
    hide TrigsAgree, TurnInRange, Wired, Settled, ActionFor, AgreesOn, Instr.Qubits;
    assert Convertible(ops, k);
    var gate := Emitted(ops, k);
    assert GateInRange(n, trig, Plain(ops[k]));
    if ops[k].condition.Some? {
      EmittedWired(n, sim, ops, k);
      assert gate.CX? || gate.CY? || gate.CZ?;
      EntryAgrees(n, trig, sim, gate);
    }
  }

  lemma ObservableRespects(n: nat, obs: Observable)
    requires forall i | 0 <= i < |obs| :: InRange(n, obs[i].1)
    ensures Respects(n, ObservableReader(n, obs))
  {
    hide SameVector, Alike, ObservableReading, InRange;
    forall psi: Vector, phi: Vector | SameVector(n, psi, phi)
      ensures ObservableReader(n, obs)(psi) == ObservableReader(n, obs)(phi)
    {
      SameIsAlike(n, psi, phi);
      ReadingAlike(n, obs, |obs|, psi, phi);
    }
  }

  /** The expectation of the observable over all outcomes of the run, from the vacuum. */
  ghost function Averaged(n: nat, sim: Sim.Trig, ops: seq<Instr>, obs: Observable): real
    requires Deferrable(ops) && forall i | 0 <= i < |obs| :: InRange(n, obs[i].1)
  {
    Mixture(n, sim, ops, 0, map[], Vacuum(n), ObservableReader(n, obs))
  }

  /**
    Deferring the circuit and dephasing the observable is one transformation that keeps
    the expectation: what the run with measurements reads on average is what the
    dephased observable reads in the deferred circuit's final state.
  */
  lemma DeferralKeepsExpectation(n: nat, sim: Sim.Trig, ops: seq<Instr>, obs: Observable, measured: seq<nat>)
    requires Deferrable(ops) && OpsWired(n, sim, ops) && AllMultiplyOut(n, obs)
    requires forall q: nat :: q in measured <==> Used(ops, |ops|, q)
    ensures WiredAll(n, sim, Image(ops, |ops|)) && AllMultiplyOut(n, Dephased(obs, measured))
    ensures Averaged(n, sim, ops, obs) ==
      ObservableReading(n, Dephased(obs, measured), |Dephased(obs, measured)|, CircuitDone(n, sim, Image(ops, |ops|), |Image(ops, |ops|)|, Vacuum(n)))
  {
    hide Settled, Wired, MultipliesOut, InRange, SumOut, Mixture, ObservableReading, CircuitDone, Vacuum, Image, Split, Dephased, Rest, DephasedRight, Used, AllConvertible;
    var qs := Split(ops, 0);
    forall q: nat ensures q in qs <==> q in measured { SplitIsUsed(ops, q); }
    SplitInRange(n, sim, ops);
    SameDephased(obs, measured, qs);
    KnowsAtStart(n, ops, Vacuum(n));
    ObservableRespects(n, obs);
    DeferredReads(n, sim, ops, 0, map[], Vacuum(n), ObservableReader(n, obs));
    MultipliedOutIsRight(n, obs, qs);
    DephasedReads(n, obs, qs, Rest(n, sim, ops, 0, Vacuum(n)));
    ImageRuns(n, sim, ops, |ops|, Vacuum(n));
    RestEnds(n, sim, ops, CircuitDone(n, sim, Image(ops, |ops|), |Image(ops, |ops|)|, Vacuum(n)));
  }

  lemma RestEnds(n: nat, sim: Sim.Trig, ops: seq<Instr>, psi: Vector)
    requires Deferrable(ops)
    ensures Rest(n, sim, ops, |ops|, psi) == psi
  {
  }

  lemma SplitInRange(n: nat, sim: Sim.Trig, ops: seq<Instr>)
    requires OpsWired(n, sim, ops)
    ensures forall q | q in Split(ops, 0) :: q < n
  {
    hide Wired, Split;
    forall q | q in Split(ops, 0) ensures q < n {
      var i := SplitMeasured(ops, 0, q);
    }
  }

  // ---- the door

  datatype PreparedFailure = NotPrepared(why: NotDeferrable) | AtDoor(failure: DoorFailure)

  /** Without measurements and conditions nothing is deferred. */
  lemma {:induction false} PlainIsImage(ops: seq<Instr>, k: nat)
    requires k <= |ops| && !Measures(ops) && forall i | 0 <= i < |ops| :: ops[i].condition.None?
    ensures Deferrable(ops) && Image(ops, k) == AllPlain(ops)[..k]
  {
    if k > 0 {
      PlainIsImage(ops, k - 1);
      assert AllPlain(ops)[..k] == AllPlain(ops)[..k - 1] + [AllPlain(ops)[k - 1]];
    }
  }

  lemma PlainInRange(n: nat, trig: Trig, ops: seq<Instr>)
    requires OpsInRange(n, trig, ops)
    ensures CircuitInRange(n, trig, AllPlain(ops))
    ensures AllExpressible(trig, AllPlain(ops)) ==> forall i | 0 <= i < |ops| :: ops[i].condition.None?
  {
    hide TurnsFor, TurnInRange;
    forall i | 0 <= i < |ops| && AllExpressible(trig, AllPlain(ops)) ensures ops[i].condition.None? {
      assert Expressible(trig, AllPlain(ops)[i]);
    }
  }

  /** What the preparation hands over. */
  ghost predicate Prepared(ops: seq<Instr>, gates: seq<GateOp>, measured: seq<nat>) {
    && (Measures(ops) ==> Deferrable(ops) && gates == Image(ops, |ops|))
    && (!Measures(ops) ==> gates == AllPlain(ops))
    && (Deferrable(ops) ==> forall q: nat :: q in measured <==> Used(ops, |ops|, q))
  }

  lemma PreparedRuns(n: nat, trig: Trig, sim: Sim.Trig, ops: seq<Instr>, gates: seq<GateOp>, measured: seq<nat>)
    requires TrigsAgree(trig, sim) && OpsInRange(n, trig, ops) && OpsWired(n, sim, ops) && Prepared(ops, gates, measured)
    ensures CircuitInRange(n, trig, gates)
    ensures AllExpressible(trig, gates) ==> Deferrable(ops) && gates == Image(ops, |ops|)
  {
    hide TrigsAgree, OpsWired, OpsInRange, CircuitInRange, Deferrable, AllExpressible, Image, Measures;
    if Measures(ops) {
      ImageInRange(n, trig, sim, ops, |ops|);
    } else {
      PlainInRange(n, trig, ops);
      if AllExpressible(trig, gates) {
        PlainIsImage(ops, |ops|);
        assert AllPlain(ops)[..|ops|] == AllPlain(ops);
      }
    }
  }

  ghost predicate AllInRange(n: nat, obs: Observable) { forall k | 0 <= k < |obs| :: InRange(n, obs[k].1) }

  lemma KeptInRange(n: nat, obs: Observable, measured: seq<nat>)
    ensures AllInRange(n, Dephased(obs, measured)) <==> forall k | 0 <= k < |obs| :: InRange(n, obs[k].1) || Dropped(obs[k].1, measured)
  {
    hide InRange, Dropped;
    DephasedTerms(obs, measured);
    var after := Dephased(obs, measured);
    forall k | 0 <= k < |obs| && AllInRange(n, after) ensures InRange(n, obs[k].1) || Dropped(obs[k].1, measured) {
      if !Dropped(obs[k].1, measured) {
        assert obs[k] in after;
      }
    }
    forall k | 0 <= k < |after| ensures after[k] in obs && !Dropped(after[k].1, measured) {
      assert after[k] in after;
    }
  }

  /**
    The expectation of an observable after a circuit that may measure.  What stands in
    the way of deferring is refused; a returned value is within the discarded mass of
    the average over all outcomes.
  */
  method ExpectationOfCircuit(n: nat, trig: Trig, ghost sim: Sim.Trig, ops: seq<Instr>, obs: Observable, cuts: Cuts, maxDropped: Option<real>)
    returns (res: Result<Certificate, PreparedFailure>, ghost measured: seq<nat>)
    requires trig.Valid() && TrigsAgree(trig, sim) && OpsInRange(n, trig, ops) && OpsWired(n, sim, ops)
    ensures res.Err? && res.error.NotPrepared? <==> Measures(ops) && !Deferrable(ops)
    ensures res.Err? && res.error.NotPrepared? ==> FirstFault(ops, res.error.why)
    ensures res.Ok? ==> Deferrable(ops)
    ensures Deferrable(ops) ==> forall q: nat :: q in measured <==> Used(ops, |ops|, q)
    ensures !(res.Err? && res.error.NotPrepared?) ==>
      (res.Err? && res.error.AtDoor? && res.error.failure.NoSuchQubit? <==>
        !forall k | 0 <= k < |obs| :: InRange(n, obs[k].1) || Dropped(obs[k].1, measured))
    ensures res.Ok? && AllMultiplyOut(n, obs) && OpsExact(sim, ops) ==>
      Abs(Averaged(n, sim, ops, obs) - res.value.value) <= res.value.dropped
  {
    hide OpsInRange, OpsWired, TrigsAgree, Averaged, Dropped, InRange, Used, Image, FirstFault, CircuitInRange, AllMultiplyOut,
      AllExpressible, Deferrable, Untouched, Measures, OpsExact, Expected, MarkedExpected, ObservableRange, Admits;
    measured := [];
    var prepared := PrepareCircuit(ops);
    if prepared.Err? {
      return Err(NotPrepared(prepared.error)), [];
    }
    measured := prepared.value.measured;
    var gates, dephased := prepared.value.gates, Dephased(obs, prepared.value.measured);
    PreparedRuns(n, trig, sim, ops, gates, measured);
    KeptInRange(n, obs, measured);
    var run := ExpectationWithCertificate(n, trig, gates, dephased, cuts, maxDropped);
    if run.Err? {
      return Err(AtDoor(run.error)), measured;
    }
    if AllMultiplyOut(n, obs) && OpsExact(sim, ops) {
      CertifiedAverage(n, trig, sim, ops, obs, measured, gates, run.value);
    }
    return Ok(run.value), measured;
  }

  lemma CertifiedAverage(n: nat, trig: Trig, sim: Sim.Trig, ops: seq<Instr>, obs: Observable, measured: seq<nat>, gates: seq<GateOp>, cert: Certificate)
    requires TrigsAgree(trig, sim) && OpsInRange(n, trig, ops) && OpsWired(n, sim, ops) && Deferrable(ops)
    requires AllMultiplyOut(n, obs) && OpsExact(sim, ops) && gates == Image(ops, |ops|)
    requires forall q: nat :: q in measured <==> Used(ops, |ops|, q)
    requires CircuitInRange(n, trig, gates) && AllExpressible(trig, gates)
    requires forall k | 0 <= k < |Dephased(obs, measured)| :: InRange(n, Dephased(obs, measured)[k].1)
    requires AllMultiplyOut(n, Dephased(obs, measured)) ==> Abs(Expected(n, trig, Dephased(obs, measured), gates) - cert.value) <= cert.dropped
    ensures Abs(Averaged(n, sim, ops, obs) - cert.value) <= cert.dropped
  {
    hide OpsInRange, OpsWired, TrigsAgree, Averaged, InRange, Used, Image, CircuitInRange, MultipliesOut, Dephased, Expected, MarkedExpected, ObservableReading, CircuitDone, Vacuum, Wired, Exact, Deferrable, AllExpressible;
    DeferralKeepsExpectation(n, sim, ops, obs, measured);
    ImageExact(sim, ops, |ops|);
    ExpectedIsTrue(n, trig, sim, Dephased(obs, measured), gates);
  }
}
