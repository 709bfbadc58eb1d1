/**
  How the state-vector backend reads a Pauli observable off amplitudes.  Each factor
  of a term is given the phase of the original index, not of the index its predecessors
  have flipped it to; for which terms that is still the product, and that both engines
  then report the same number, is proved here.
*/
module PauliExpectation {
  import opened Linear
  import opened Wrappers
  import opened Bits
  import opened ComplexNumbers
  import opened Majorana
  import opened MajoranaFock
  import opened MajoranaPauli
  import opened PauliTerms
  import opened MajoranaPropagate
  import opened MajoranaDoor
  import opened MajoranaGates
  import opened TurnMaps
  import opened GateAgreement
  import opened CrossCheck
  import opened GateMeaning
  import S = Statevector
  import Sim = Simulator

  // ---- what the loop over the factors collects

  /** The index after the flips of the first k factors. */
  function Landing(sites: Sites, k: nat, i: nat): nat
    requires k <= |sites|
  {
    if k == 0 then i else
      var j, (q, op) := Landing(sites, k - 1, i), sites[k - 1];
      if FlipsBit(op) then S.With(j, q, !S.Bit(j, q)) else j
  }

  /** The power of i that the first k factors collect, each read off the original index. */
  function Collected(sites: Sites, k: nat, i: nat): nat
    requires k <= |sites|
  {
    if k == 0 then 0 else Collected(sites, k - 1, i) + OpPower(sites[k - 1].1, S.Bit(i, sites[k - 1].0))
  }

  lemma {:induction false} LandingInRange(n: nat, sites: Sites, k: nat, i: nat)
    requires k <= |sites| && InRange(n, sites) && i < S.Pow2(n)
    ensures Landing(sites, k, i) < S.Pow2(n)
  {
    if k > 0 {
      LandingInRange(n, sites, k - 1, i);
      var j, q := Landing(sites, k - 1, i), sites[k - 1].0;
      S.WithInRange(j, q, !S.Bit(j, q), n);
    }
  }

  ghost function Contribution(n: nat, sv: S.State, sites: Sites): nat -> real
    requires |sv| == S.Pow2(n) && InRange(n, sites)
  {
    (i: nat) => if i < |sv| then
      LandingInRange(n, sites, |sites|, i);
      Inner(sv[Landing(sites, |sites|, i)], TimesI(Collected(sites, |sites|, i), sv[i])) else 0.0
  }

  /** The number the loops compute. */
  ghost function Evaluated(n: nat, sv: S.State, sites: Sites): real
    requires |sv| == S.Pow2(n) && InRange(n, sites)
  {
    S.SumOver(S.Below(S.Pow2(n)), Contribution(n, sv, sites))
  }

  function PhaseOf(op: Pauli, bit: bool): Complex {
    match op
    case I => ONE
    case X => ONE
    case Z => if bit then C(-1.0, 0.0) else ONE
    case Y => if bit then C(0.0, -1.0) else C(0.0, 1.0)
  }

  lemma PhaseIsPower(op: Pauli, bit: bool, e: nat)
    ensures Mul(TimesI(e, ONE), PhaseOf(op, bit)) == TimesI(e + OpPower(op, bit), ONE)
  {
    hide TimesI, Mul;
    PhaseAsPower(op, bit);
    PowerTimes(e, PhaseOf(op, bit));
    TimesITwice(e, OpPower(op, bit), ONE);
  }

  lemma PhaseAsPower(op: Pauli, bit: bool)
    ensures PhaseOf(op, bit) == TimesI(OpPower(op, bit), ONE)
  {
  }

  /** The real part of conj(b) i^e a. */
  lemma SummandIsInner(b: Complex, e: nat, a: Complex)
    ensures Mul(Mul(Conj(b), TimesI(e, ONE)), a).re == Inner(b, TimesI(e, a))
  {
    hide TimesI, Mul;
    MulAssociative(Conj(b), TimesI(e, ONE), a);
    PowerTimes(e, a);
    RealOfProduct(b, TimesI(e, a));
  }

  lemma RealOfProduct(b: Complex, a: Complex)
    ensures Mul(Conj(b), a).re == Inner(b, a)
  {
  }

  /** The expectation of one Pauli string. */
  method ExpectationPauli(n: nat, sv: array<Complex>, sites: Sites) returns (re: real)
    requires sv.Length == S.Pow2(n) && InRange(n, sites)
    ensures re == Evaluated(n, sv[..], sites)
  {
    hide *;
    var result := ZERO;
    ghost var f := Contribution(n, sv[..], sites);
    Sim.SumOverNothing(f);
    NoReal();
    for i := 0 to sv.Length
      invariant result.re == S.SumOver(S.Below(i), f)
    {
      var j, coeff := i, ONE;
      NothingCollected(sites, i);
      LandsWithin(n, sites, 0, i);
      for k := 0 to |sites|
        invariant j == Landing(sites, k, i) && coeff == TimesI(Collected(sites, k, i), ONE)
        invariant j < sv.Length
      {
        var (q, op) := sites[k];
        var bit := S.Bit(i, q);
        NextFactor(sites, k, i);
        LandsWithin(n, sites, k + 1, i);
        if FlipsBit(op) {
          j := S.With(j, q, !S.Bit(j, q));
        }
        coeff := Mul(coeff, PhaseOf(op, bit));
      }
      SummandIsInner(sv[j], Collected(sites, |sites|, i), sv[i]);
      ContributionAt(n, sv[..], sites, i);
      Sim.NextIndex(i, f);
      RealOfSum(result, Mul(Mul(Conj(sv[j]), coeff), sv[i]));
      result := Add(result, Mul(Mul(Conj(sv[j]), coeff), sv[i]));
    }
    EvaluatedIsSum(n, sv[..], sites);
    re := result.re;
  }

  lemma NoReal()
    ensures ZERO.re == 0.0
  {
  }

  lemma RealOfSum(a: Complex, b: Complex)
    ensures Add(a, b).re == a.re + b.re
  {
  }

  lemma EvaluatedIsSum(n: nat, sv: S.State, sites: Sites)
    requires |sv| == S.Pow2(n) && InRange(n, sites)
    ensures Evaluated(n, sv, sites) == S.SumOver(S.Below(|sv|), Contribution(n, sv, sites))
  {
  }

  lemma ContributionAt(n: nat, sv: S.State, sites: Sites, i: nat)
    requires |sv| == S.Pow2(n) && InRange(n, sites) && i < |sv| && Landing(sites, |sites|, i) < |sv|
    ensures Contribution(n, sv, sites)(i) == Inner(sv[Landing(sites, |sites|, i)], TimesI(Collected(sites, |sites|, i), sv[i]))
  {
    hide TimesI, Inner, Landing, Collected;
  }

  lemma NothingCollected(sites: Sites, i: nat)
    ensures Landing(sites, 0, i) == i && TimesI(Collected(sites, 0, i), ONE) == ONE
  {
  }

  lemma LandsWithin(n: nat, sites: Sites, k: nat, i: nat)
    requires k <= |sites| && InRange(n, sites) && i < S.Pow2(n)
    ensures Landing(sites, k, i) < S.Pow2(n)
  {
    LandingInRange(n, sites, k, i);
  }

  lemma NextFactor(sites: Sites, k: nat, i: nat)
    requires k < |sites|
    ensures var (q, op) := sites[k];
      var j := Landing(sites, k, i);
      && Landing(sites, k + 1, i) == (if FlipsBit(op) then S.With(j, q, !S.Bit(j, q)) else j)
      && TimesI(Collected(sites, k + 1, i), ONE) == Mul(TimesI(Collected(sites, k, i), ONE), PhaseOf(op, S.Bit(i, q)))
  {
    hide TimesI, Mul, S.With, S.Bit;
    PhaseIsPower(sites[k].1, S.Bit(i, sites[k].0), Collected(sites, k, i));
  }

  /** The expectation of an observable; a qubit the state does not have is refused by name. */
  method Expectation(n: nat, sv: array<Complex>, obs: Observable) returns (res: Result<real, nat>)
    requires sv.Length == S.Pow2(n)
    ensures res.Ok? <==> forall k | 0 <= k < |obs| :: InRange(n, obs[k].1)
    ensures res.Ok? ==> res.value == EvaluatedSum(n, sv[..], obs, |obs|)
    ensures res.Err? ==> res.error >= n
  {
    hide Evaluated, S.Pow2;
    for k := 0 to |obs|
      invariant forall i | 0 <= i < k :: InRange(n, obs[i].1)
    {
      for i := 0 to |obs[k].1|
        invariant forall h | 0 <= h < i :: obs[k].1[h].0 < n
      {
        if obs[k].1[i].0 >= n {
          return Err(obs[k].1[i].0);
        }
      }
    }
    var total := 0.0;
    for k := 0 to |obs|
      invariant total == EvaluatedSum(n, sv[..], obs, k)
    {
      var e := ExpectationPauli(n, sv, obs[k].1);
      total := total + Times(obs[k].0, e);
    }
    return Ok(total);
  }

  ghost function EvaluatedSum(n: nat, sv: S.State, obs: Observable, k: nat): real
    requires |sv| == S.Pow2(n) && k <= |obs| && forall i | 0 <= i < k :: InRange(n, obs[i].1)
  {
    if k == 0 then 0.0 else EvaluatedSum(n, sv, obs, k - 1) + Times(obs[k - 1].0, Evaluated(n, sv, obs[k - 1].1))
  }

  // ---- the collected phase and the phase of the product

  /** How many of the first k factors give a phase after their qubit was flipped an odd number of times. */
  function Late(n: nat, sites: Sites, k: nat): nat
    requires k <= |sites| && InRange(n, sites)
  {
    if k == 0 then 0 else
      var (q, op) := sites[k - 1];
      Late(n, sites, k - 1) + if MarksBit(op) && MultipliedOut(n, sites, k - 1).x[q] then 1 else 0
  }

  lemma PowerOfFlipped(op: Pauli, bit: bool, x: bool)
    ensures (OpPower(op, bit != x) - OpPower(op, bit) - if MarksBit(op) && x then 2 else 0) % 4 == 0
  {
  }

  /** The power is short of i^(2 late), a sign for each late factor. */
  predicate Behind(c: int, power: int, late: int) { (c - power - 2 * late) % 4 == 0 }

  lemma NoneBehind()
    ensures Behind(0, 0, 0)
  {
  }

  lemma CollectMod4(c: nat, was: int, now: int, late: nat, here: nat, there: nat, more: bool)
    requires Behind(c, was, late) && (there + was - now) % 4 == 0 && (there - here - if more then 2 else 0) % 4 == 0
    ensures Behind(c + here, now, late + if more then 1 else 0)
  {
    if more {
      assert c + here - now - 2 * (late + 1) == (c - was - 2 * late) + (there + was - now) - (there - here - 2) - 4;
    } else {
      assert c + here - now - 2 * late == (c - was - 2 * late) + (there + was - now) - (there - here);
    }
  }

  /** Where the factors land, and what they collect, against the product multiplied out. */
  lemma {:induction false} CollectedAgainst(n: nat, sites: Sites, k: nat, o: Bits)
    requires k <= |sites| && InRange(n, sites) && |o| == n
    ensures Landing(sites, k, IndexOf(o)) == IndexOf(Xor(o, MultipliedOut(n, sites, k).x))
    ensures Behind(Collected(sites, k, IndexOf(o)), MultipliedOut(n, sites, k).Power(o), Late(n, sites, k))
  {
    hide OpPower, FlipsBit, MarksBit, S.With, S.Bit, MultipliedOut, Multiple.Power, IndexOf, Behind;
    if k == 0 {
      assert Behind(0, 0, 0) by { NoneBehind(); }
      NothingMultiplied(n, sites, o);
    } else {
      CollectedAgainst(n, sites, k - 1, o);
      var (q, op) := sites[k - 1];
      var m := MultipliedOut(n, sites, k - 1);
      MarksOfNext(n, sites, k);
      FlippedIndex(n, Xor(o, m.x), q);
      NextFlip(o, m.x, q, FlipsBit(op));
      NextPower(n, sites, k, o);
      IndexBits(o, q);
      PowerOfFlipped(op, o[q], m.x[q]);
      CollectMod4(Collected(sites, k - 1, IndexOf(o)), m.Power(o), MultipliedOut(n, sites, k).Power(o), Late(n, sites, k - 1),
                  OpPower(op, o[q]), OpPower(op, o[q] != m.x[q]), MarksBit(op) && m.x[q]);
    }
  }

  lemma NextFlip(o: Bits, x: Bits, q: nat, flips: bool)
    requires |o| == |x| && q < |o|
    ensures Xor(o, x[q := x[q] != flips]) == if flips then Flip(Xor(o, x), q) else Xor(o, x)
  {
  }

  lemma FlippedIndex(n: nat, o: Bits, q: nat)
    requires q < n == |o|
    ensures S.With(IndexOf(o), q, !S.Bit(IndexOf(o), q)) == IndexOf(Flip(o, q))
  {
    hide S.Bit, S.With, IndexOf;
    var i, p := IndexOf(o), Flip(o, q);
    IndexInRange(o);
    IndexInRange(p);
    S.WithInRange(i, q, !S.Bit(i, q), n);
    forall j | 0 <= j < n ensures S.Bit(S.With(i, q, !S.Bit(i, q)), j) == S.Bit(IndexOf(p), j) {
      S.WithBits(i, q, !S.Bit(i, q), j);
      IndexBits(o, j);
      IndexBits(p, j);
    }
    S.SameBits(S.With(i, q, !S.Bit(i, q)), IndexOf(p), n);
  }

  function WithLate(e: nat, late: nat): nat { (e + 2 * late) % 4 }

  /** The multiple that the evaluator reads. */
  function Read(n: nat, sites: Sites): (m: Multiple)
    requires InRange(n, sites)
    ensures m.Valid(n)
  {
    var m := MultipliedOut(n, sites, |sites|);
    m.(e := WithLate(m.e, Late(n, sites, |sites|)))
  }

  lemma ReadParts(n: nat, sites: Sites, o: Bits)
    requires InRange(n, sites) && |o| == n
    ensures var m := MultipliedOut(n, sites, |sites|);
      && Read(n, sites).x == m.x && m.Power(o) == m.e + PauliPhase(m.x, m.z, o, n)
      && Read(n, sites).Power(o) == WithLate(m.e, Late(n, sites, |sites|)) + PauliPhase(m.x, m.z, o, n)
  {
    hide MultipliedOut, Late, PauliPhase;
  }

  lemma ReadPower(n: nat, sites: Sites, o: Bits)
    requires InRange(n, sites) && |o| == n
    ensures Landing(sites, |sites|, IndexOf(o)) == IndexOf(Xor(o, Read(n, sites).x))
    ensures (Collected(sites, |sites|, IndexOf(o)) - Read(n, sites).Power(o)) % 4 == 0
  {
    hide Landing, Collected, MultipliedOut, Late, PauliPhase, IndexOf, Read, Multiple.Power, Behind, WithLate;
    CollectedAgainst(n, sites, |sites|, o);
    var m := MultipliedOut(n, sites, |sites|);
    ReadParts(n, sites, o);
    ReadMod4(Collected(sites, |sites|, IndexOf(o)), m.e, PauliPhase(m.x, m.z, o, n), Late(n, sites, |sites|), m.Power(o), Read(n, sites).Power(o));
  }

  lemma ReadMod4(c: nat, e: nat, phase: nat, late: nat, was: nat, now: nat)
    requires Behind(c, was, late) && was == e + phase && now == WithLate(e, late) + phase
    ensures (c - now) % 4 == 0
  {
    var f := e + 2 * late;
    assert c - now == (c - was - 2 * late) + 4 * (f / 4);
  }

  /** The loops compute the reading of that multiple. */
  lemma EvaluatedReads(n: nat, sv: S.State, sites: Sites)
    requires |sv| == S.Pow2(n) && InRange(n, sites)
    ensures Evaluated(n, sv, sites) == Read(n, sites).Reading(n, VectorOf(n, sv))
  {
    hide Landing, Collected, Read, Multiple.Power, IndexOf, TimesI, Inner, S.Below;
    var m, psi, f := Read(n, sites), VectorOf(n, sv), Contribution(n, sv, sites);
    var g: Bits -> real := o => if |o| != n then 0.0 else Inner(psi(Xor(o, m.x)), TimesI(m.Power(o), psi(o)));
    forall o | |o| == n ensures g(o) == f(IndexOf(o)) {
      var p := Xor(o, m.x);
      IndexInRange(o);
      IndexInRange(p);
      ReadPower(n, sites, o);
      ContributionAt(n, sv, sites, IndexOf(o));
      TimesISame(Collected(sites, |sites|, IndexOf(o)), m.Power(o), psi(o));
    }
    SumByIndex([], n, f, g);
    assert Matching(n, []) == S.Below(S.Pow2(n));
    var h: Bits -> real := o => Inner(psi(o), m.Applied(n, psi)(o));
    forall o | |o| == n ensures h(o) == g(Xor(o, m.x)) {
      var p := Xor(o, m.x);
      XorTwice(o, m.x);
      assert Xor(p, m.x) == o && g(p) == Inner(psi(o), TimesI(m.Power(p), psi(p)));
    }
    SumXor(n, g, h, m.x);
    PairAsSum(n, psi, m.Applied(n, psi), h);
  }

  lemma OddTerm(n: nat, m: Multiple, psi: Vector, o: Bits)
    requires m.Valid(n) && m.e % 2 == 1 && |o| == n
    ensures var p := Xor(o, m.x);
      Inner(psi(p), m.Applied(n, psi)(p)) == -Inner(psi(o), m.Applied(n, psi)(o))
  {
    hide TimesI, Inner, Multiple.Power;
    var p := Xor(o, m.x);
    XorTwice(o, m.x);
    assert Xor(p, m.x) == o;
    PowersOpposed(n, m, o);
    SkewTerm(psi(o), m.Power(p), psi(p), m.Power(o));
  }

  /** Summands that a relabelling turns into their opposites add up to nothing. */
  lemma OppositesCancel(n: nat, h: Bits -> real, g: Bits -> real, c: Bits)
    requires |c| == n && forall o | |o| == n :: g(o) == -1.0 * h(o) && g(o) == h(Xor(o, c))
    ensures SumAll(n, h) == 0.0
  {
    SumXor(n, h, g, c);
    SumScaled([], n, g, -1.0, h);
  }

  /** An odd power of i before a Hermitian string has no real expectation. */
  lemma OddReadsNothing(n: nat, m: Multiple, psi: Vector)
    requires m.Valid(n) && m.e % 2 == 1
    ensures m.Reading(n, psi) == 0.0
  {
    hide TimesI, Inner, Multiple.Power, Xor, Multiple.Applied;
    var phi := m.Applied(n, psi);
    var h: Bits -> real := o => Inner(psi(o), phi(o));
    var g: Bits -> real := o => -1.0 * h(o);
    forall o | |o| == n ensures g(o) == -1.0 * h(o) && g(o) == h(Xor(o, m.x)) {
      OddTerm(n, m, psi, o);
    }
    OppositesCancel(n, h, g, m.x);
    PairAsSum(n, psi, phi, h);
  }

  lemma PowersOpposed(n: nat, m: Multiple, o: Bits)
    requires m.Valid(n) && |o| == n && m.e % 2 == 1
    ensures (m.Power(o) + m.Power(Xor(o, m.x)) - 2) % 4 == 0
  {
    hide PauliPhase;
    PauliSquares(m.x, m.z, o, n);
    CombineMod4(PauliPhase(m.x, m.z, o, n) + PauliPhase(m.x, m.z, Xor(o, m.x), n), 2 * m.e - 2);
  }

  lemma SkewTerm(a: Complex, s: nat, b: Complex, t: nat)
    requires (s + t - 2) % 4 == 0
    ensures Inner(b, TimesI(t, a)) == -Inner(a, TimesI(s, b))
  {
    hide TimesI;
    var r := s % 4;
    var u := (6 - r) % 4;
    TimesISame(s, r, b);
    TimesISame(t, u, a) by { assert t - u == (s + t - 2) - 4 * (s / 4) + (2 - r - u); }
    PowerTimesAny(r, b);
    PowerTimesAny(u, a);
  }

  lemma PowerTimesAny(r: nat, a: Complex)
    requires r < 4
    ensures TimesI(r, a) == if r == 0 then a else if r == 1 then C(-a.im, a.re) else if r == 2 then C(-a.re, -a.im) else C(a.im, -a.re)
  {
  }

  /**
    The backend reads a term right in every state exactly when no factor's phase, or an
    even number of them, is read off too early, or the product has no real expectation.
  */
  lemma EvaluatorReadsExactly(n: nat, sites: Sites)
    requires InRange(n, sites)
    ensures (forall psi: Vector :: Read(n, sites).Reading(n, psi) == TermReading(n, sites, psi))
      <==> Late(n, sites, |sites|) % 2 == 0 || MultipliedOut(n, sites, |sites|).e % 2 == 1
  {
    hide TermReading, Multiple.Reading, MultipliedOut, Late, WithLate;
    var m, w := MultipliedOut(n, sites, |sites|), Read(n, sites);
    forall psi: Vector ensures TermReading(n, sites, psi) == m.Reading(n, psi) {
      TermReadsMultiple(n, sites, psi);
    }
    EvenLate(m.e, Late(n, sites, |sites|));
    if m.e % 2 == 1 {
      forall psi: Vector ensures w.Reading(n, psi) == m.Reading(n, psi) {
        OddReadsNothing(n, m, psi);
        OddReadsNothing(n, w, psi);
      }
    } else if forall psi: Vector :: w.Reading(n, psi) == TermReading(n, sites, psi) {
      forall psi: Vector ensures w.Reading(n, psi) == m.Reading(n, psi) {
        assert w.Reading(n, psi) == TermReading(n, sites, psi);
      }
      ReadingTells(n, w, m);
    }
  }

  lemma EvenLate(e: nat, late: nat)
    requires e < 4
    ensures WithLate(e, late) == e <==> late % 2 == 0
    ensures WithLate(e, late) % 2 == e % 2
  {
    var h := late / 2;
    if late % 2 == 0 {
      assert e + 2 * late == e + 4 * h;
    } else {
      assert e + 2 * late == e + 2 + 4 * h;
    }
  }

  /** Y on a qubit twice is the identity, and its marks are those of Y, but the backend reads minus the identity. */
  lemma TwoYsAreMisread(n: nat, q: nat)
    requires q < n
    ensures var sites := [(q, Y), (q, Y)];
      && InRange(n, sites) && Late(n, sites, 2) == 1
      && MultipliedOut(n, sites, 2) == Multiple(Zero(n), Zero(n), 0) && Read(n, sites) == Multiple(Zero(n), Zero(n), 2)
      && XBits(n, sites) == ZBits(n, sites) == Zero(n)[q := true]
  {
    var sites := [(q, Y), (q, Y)];
    var o, a := Zero(n), Zero(n)[q := true];
    assert InRange(n, sites) && a[q := false] == o && a[q := true] == a;
    assert MultipliedOut(n, sites, 0) == Multiple(o, o, 0);
    assert MultipliedOut(n, sites, 1) == Multiple(a, a, 0);
    assert MultipliedOut(n, sites, 2) == Multiple(o, o, 0);
    assert Late(n, sites, 1) == 0;
    forall flips ensures Marked(n, sites, 0, flips) == o && Marked(n, sites, 1, flips) == a && Marked(n, sites, 2, flips) == a {
    }
  }

  // ---- terms that name no qubit twice

  lemma {:induction false} NothingLate(n: nat, sites: Sites, k: nat)
    requires k <= |sites| && InRange(n, sites) && NamedOnce(sites)
    ensures Late(n, sites, k) == 0
  {
    hide MultipliedOut;
    if k == 0 {
    } else {
      NothingLate(n, sites, k - 1);
      OnceUpTo(n, sites, k - 1);
      var (q, op) := sites[k - 1];
      if op != I {
        Unmarked(n, sites, k - 1, q, true);
      }
    }
  }

  lemma EvaluatedOnce(n: nat, sv: S.State, sites: Sites)
    requires |sv| == S.Pow2(n) && InRange(n, sites) && NamedOnce(sites)
    ensures Evaluated(n, sv, sites) == TermReading(n, sites, VectorOf(n, sv))
  {
    hide Evaluated, TermReading, Multiple.Reading, MultipliedOut, Late, VectorOf, NamedOnce;
    NothingLate(n, sites, |sites|);
    EvaluatorReadsExactly(n, sites);
    EvaluatedReads(n, sv, sites);
  }

  lemma {:induction false} EvaluatedOnceSum(n: nat, sv: S.State, obs: Observable, k: nat)
    requires |sv| == S.Pow2(n) && k <= |obs| && forall i | 0 <= i < |obs| :: InRange(n, obs[i].1) && NamedOnce(obs[i].1)
    ensures EvaluatedSum(n, sv, obs, k) == ObservableReading(n, obs, k, VectorOf(n, sv))
  {
    hide Evaluated, TermReading, VectorOf, NamedOnce, InRange;
    if k == 0 {
    } else {
      EvaluatedOnceSum(n, sv, obs, k - 1);
      EvaluatedOnce(n, sv, obs[k - 1].1);
    }
  }

  /**
    The two engines report the same number: for every circuit in both tables and every
    observable whose terms name no qubit twice, what the Majorana engine certifies is
    what the backend computes from the amplitudes that the run of the simulator leaves.
  */
  lemma EnginesReportAlike(n: nat, trig: Trig, sim: Sim.Trig, gates: seq<GateOp>, obs: Observable)
    requires TrigsAgree(trig, sim) && CircuitInRange(n, trig, gates) && AllExpressible(trig, gates)
    requires WiredAll(n, sim, gates) && ExactAll(sim, gates) && InBothTables(gates)
    requires forall k | 0 <= k < |obs| :: InRange(n, obs[k].1) && NamedOnce(obs[k].1)
    ensures forall i | 0 <= i < |gates| :: Sim.Fits(n, sim, SimGates(gates)[i])
    ensures var reported := EvaluatedSum(n, Sim.Ran(n, sim, SimGates(gates), |gates|, Sim.Ground(n)), obs, |obs|);
      MarkedExpected(n, trig, obs, gates) == Expected(n, trig, obs, gates) == reported
  {
    hide VectorOf, ObservableReading, MarkedReading, Sim.Ran, Sim.Fits, GatesRan, TrigsAgree, Expected, MarkedExpected, NamedOnce, EvaluatedSum;
    EnginesAgree(n, trig, sim, gates, obs);
    NamedOnceObservable(n, obs);
    ExpectedIsMarked(n, trig, obs, gates);
    EvaluatedOnceSum(n, Sim.Ran(n, sim, SimGates(gates), |gates|, Sim.Ground(n)), obs, |obs|);
  }
}
