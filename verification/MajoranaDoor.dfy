/**
  The Pauli door of the Majorana engine: an observable written as Pauli strings
  and a circuit written as gates are carried into monomials and rotations, and the
  certified value is proved to bound the expectation of the Pauli observable itself.
*/
module MajoranaDoor {
  import opened Wrappers
  import opened Linear
  import opened Bits
  import opened ComplexNumbers
  import opened Majorana
  import opened MajoranaFock
  import opened MajoranaPauli
  import opened PauliTerms
  import opened MajoranaEngine
  import opened MajoranaBranch
  import opened MajoranaPropagate
  import opened MajoranaCertificate

  type Observable = seq<(real, Sites)>

  // ---- a string and its monomial

  function SignOfExponent(e: nat): real { if e == 0 then 1.0 else -1.0 }

  lemma PauliIsMonomialAt(n: nat, b: Bits, e: nat, x: Bits, z: Bits, psi: Vector, o: Bits)
    requires |b| == 2 * n && |x| == |z| == |o| == n && Represents(n, b, e, x, z)
    ensures PauliApply(n, x, z, psi)(o) == TimesI(e, Apply(n, b, psi)(o))
  {
    hide PauliPhase, MonomialPhase, Represents, Xor, Target, TimesI, Modes;
    var p := Xor(o, x);
    ReadAt(n, b, e, x, z, p);
    ReadAt(n, b, e, x, z, o);
    TargetOfAll(b, o);
    assert Xor(o, Modes(b, n)) == p;
    TimesITwice(e, MonomialPhase(b, p), psi(p));
    TimesISame(PauliPhase(x, z, p, n), MonomialPhase(b, p) + e, psi(p)) by { MinusMod4(MonomialPhase(b, p) + e, PauliPhase(x, z, p, n)); }
  }

  lemma MinusMod4(a: int, b: int)
    requires (a - b) % 4 == 0
    ensures (b - a) % 4 == 0
  {
  }

  /** The expectation of a string is that of its monomial, up to the sign the encoding gives. */
  lemma PauliIsMonomial(n: nat, b: Bits, e: nat, x: Bits, z: Bits, psi: Vector)
    requires |b| == 2 * n && |x| == |z| == n && Represents(n, b, e, x, z) && (e == 0 || e == 2)
    ensures PauliReadout(n, x, z, psi) == SignOfExponent(e) * Readout(n, psi, b)
    ensures SameVector(n, PauliApply(n, x, z, psi), TimesIVector(e, Apply(n, b, psi)))
  {
    hide Represents, Apply, PauliApply, TimesI, Pair;
    forall o | |o| == n ensures PauliApply(n, x, z, psi)(o) == TimesIVector(e, Apply(n, b, psi))(o) {
      PauliIsMonomialAt(n, b, e, x, z, psi, o);
    }
    var m := Apply(n, b, psi);
    SameAsItself(n, psi);
    PairSame(n, psi, PauliApply(n, x, z, psi), psi, TimesIVector(e, m));
    if e == 0 {
      forall o | |o| == n ensures TimesIVector(0, m)(o) == m(o) { TimesIZero(m(o)); }
      PairSame(n, psi, TimesIVector(0, m), psi, m);
    } else {
      PairMinus(n, psi, m);
    }
  }

  // ---- observables

  /** The expectation of an observable: each term the product of its sites. */
  ghost function ObservableReading(n: nat, obs: Observable, k: nat, psi: Vector): real
    requires k <= |obs| && forall i | 0 <= i < k :: InRange(n, obs[i].1)
  {
    if k == 0 then 0.0 else
      ObservableReading(n, obs, k - 1, psi) + Times(obs[k - 1].0, TermReading(n, obs[k - 1].1, psi))
  }

  /** The expectation of what the engine makes of an observable: each term the string of its marks. */
  ghost function MarkedReading(n: nat, obs: Observable, k: nat, psi: Vector): real
    requires k <= |obs| && forall i | 0 <= i < k :: InRange(n, obs[i].1)
  {
    if k == 0 then 0.0 else
      MarkedReading(n, obs, k - 1, psi) +
      Times(obs[k - 1].0, PauliReadout(n, XBits(n, obs[k - 1].1), ZBits(n, obs[k - 1].1), psi))
  }

  /** Every term multiplies out to its marks; so it does when it names no qubit twice. */
  ghost predicate AllMultiplyOut(n: nat, obs: Observable) {
    forall i | 0 <= i < |obs| :: InRange(n, obs[i].1) && MultipliesOut(n, obs[i].1)
  }

  lemma {:induction false} MarkedIsTrue(n: nat, obs: Observable, k: nat, psi: Vector)
    requires k <= |obs| && AllMultiplyOut(n, obs)
    ensures MarkedReading(n, obs, k, psi) == ObservableReading(n, obs, k, psi)
  {
    hide PauliReadout, TermReading, XBits, ZBits, MultipliesOut, InRange;
    if k == 0 {
    } else {
      MarkedIsTrue(n, obs, k - 1, psi);
      MarksReadExactly(n, obs[k - 1].1);
    }
  }

  lemma NamedOnceObservable(n: nat, obs: Observable)
    requires forall i | 0 <= i < |obs| :: InRange(n, obs[i].1) && NamedOnce(obs[i].1)
    ensures AllMultiplyOut(n, obs)
  {
    hide MultipliesOut, NamedOnce, InRange;
    forall i | 0 <= i < |obs| ensures MultipliesOut(n, obs[i].1) {
      NamedOnceMultipliesOut(n, obs[i].1);
    }
  }

  function ObservableRange(obs: Observable, k: nat): real
    requires k <= |obs|
  {
    if k == 0 then 0.0 else ObservableRange(obs, k - 1) + Abs(obs[k - 1].0)
  }

  /** The code's a-priori range of an observable. */
  method ObservableL1Norm(obs: Observable) returns (r: real)
    ensures r == ObservableRange(obs, |obs|)
  {
    r := 0.0;
    for i := 0 to |obs|
      invariant r == ObservableRange(obs, i)
    {
      r := r + Abs(obs[i].0);
    }
  }

  // ---- seeding

  lemma ReadingAdded(n: nat, m: Terms, key: Bits, c: real, psi: Vector)
    requires |key| == 2 * n
    ensures Reading(n, Added(m, key, c), psi) == Reading(n, m, psi) + Times(c, Readout(n, psi, key))
  {
    hide Readout, Added;
    var r, m' := ReadoutOf(n, psi), Added(m, key, c);
    var f, g := Product(CoefOf(m), r), Product(CoefOf(m'), r);
    forall y | |y| == 2 * n && y != key ensures g(y) == f(y) {
      CoefAdded(m, key, c, y);
    }
    CoefAdded(m, key, c, key);
    SumChange(2 * n, f, g, key);
    CollectTimes(Coef(m, key), c, r(key));
  }

  lemma L1Added(n: nat, m: Terms, key: Bits, c: real)
    requires |key| == 2 * n
    ensures L1(n, CoefOf(Added(m, key, c))) <= L1(n, CoefOf(m)) + Abs(c)
  {
    hide Added;
    var m' := Added(m, key, c);
    var f, g := Magnitudes(CoefOf(m)), Magnitudes(CoefOf(m'));
    forall y | |y| == 2 * n && y != key ensures g(y) == f(y) {
      CoefAdded(m, key, c, y);
    }
    CoefAdded(m, key, c, key);
    SumChange(2 * n, f, g, key);
  }

  /** The sum reads like the marks of the first k terms in every state, and its magnitude is within theirs. */
  ghost predicate Seeded(n: nat, m: Terms, obs: Observable, k: nat) {
    && k <= |obs|
    && (forall i | 0 <= i < k :: InRange(n, obs[i].1))
    && Keys(n, m)
    && (forall psi: Vector :: Reading(n, m, psi) == MarkedReading(n, obs, k, psi))
    && L1(n, CoefOf(m)) <= ObservableRange(obs, k)
  }

  lemma SeededStart(n: nat, obs: Observable)
    ensures Seeded(n, map[], obs, 0)
  {
    L1Empty(n);
    forall psi: Vector ensures Reading(n, map[], psi) == 0.0 {
      ValueEmpty(n, ReadoutOf(n, psi));
    }
  }

  lemma SeededNext(n: nat, m: Terms, obs: Observable, k: nat, key: Bits, e: nat, signed: real)
    requires k < |obs| && Seeded(n, m, obs, k) && InRange(n, obs[k].1) && signed == obs[k].0 * SignOfExponent(e)
    requires |key| == 2 * n && (e == 0 || e == 2) && Represents(n, key, e, XBits(n, obs[k].1), ZBits(n, obs[k].1))
    ensures Seeded(n, Added(m, key, signed), obs, k + 1)
  {
    hide Represents, Reading, L1, XBits, ZBits, PauliReadout, Readout;
    var c := obs[k].0;
    var m' := Added(m, key, signed);
    L1Added(n, m, key, signed);
    forall psi: Vector ensures Reading(n, m', psi) == MarkedReading(n, obs, k + 1, psi) {
      ReadingAdded(n, m, key, signed, psi);
      PauliIsMonomial(n, key, e, XBits(n, obs[k].1), ZBits(n, obs[k].1), psi);
      Regroup(c, SignOfExponent(e), Readout(n, psi, key));
    }
  }

  lemma Regroup(c: real, s: real, r: real)
    ensures Times(c * s, r) == Times(c, s * r)
  {
    assert (c * s) * r == c * (s * r);
  }

  /** The bits of one Pauli string, or the qubit it names that the circuit does not have. */
  method Collect(n: nat, sites: Sites) returns (res: Result<(Bits, Bits), nat>)
    ensures res.Ok? <==> InRange(n, sites)
    ensures res.Ok? ==> res.value == (XBits(n, sites), ZBits(n, sites))
    ensures res.Ok? ==> forall q: nat | q < n ::
      && (res.value.0[q] <==> SomeSiteMarks(sites, |sites|, q, true))
      && (res.value.1[q] <==> SomeSiteMarks(sites, |sites|, q, false))
    ensures res.Err? ==> res.error >= n && exists i | 0 <= i < |sites| :: sites[i].0 == res.error && InRange(n, sites[..i])
  {
    var x, z := Zero(n), Zero(n);
    for i := 0 to |sites|
      invariant InRange(n, sites[..i]) && |x| == |z| == n
      invariant x == Marked(n, sites[..i], i, true) && z == Marked(n, sites[..i], i, false)
    {
      var (q, op) := sites[i];
      if q >= n {
        return Err(q);
      }
      match op {
        case I =>
        case X => x := x[q := true];
        case Z => z := z[q := true];
        case Y =>
          x := x[q := true];
          z := z[q := true];
      }
      MarkedPrefix(n, sites[..i + 1], sites[..i], i, true);
      MarkedPrefix(n, sites[..i + 1], sites[..i], i, false);
    }
    assert sites[..|sites|] == sites;
    forall q: nat | q < n ensures (x[q] <==> SomeSiteMarks(sites, |sites|, q, true)) && (z[q] <==> SomeSiteMarks(sites, |sites|, q, false)) {
      MarkedExactly(n, sites, |sites|, true, q);
      MarkedExactly(n, sites, |sites|, false, q);
    }
    return Ok((x, z));
  }

  /** The monomials of the first k terms are within the length cut. */
  ghost predicate WithinCut(n: nat, obs: Observable, k: nat, maxLength: Option<nat>)
    requires k <= |obs|
  {
    maxLength.Some? ==> forall i | 0 <= i < k :: InRange(n, obs[i].1) && TermLength(n, obs[i].1) <= maxLength.value
  }

  /** The length of the monomial of one term. */
  function TermLength(n: nat, sites: Sites): nat
    requires InRange(n, sites)
  {
    Length(KeyOf(XBits(n, sites), ZBits(n, sites)))
  }

  /** Whatever cut the terms are within, the sum is within. */
  ghost predicate ShortSoFar(n: nat, m: Terms, obs: Observable, k: nat)
    requires k <= |obs|
  {
    forall maxLength: Option<nat> :: WithinCut(n, obs, k, maxLength) ==> Short(m, maxLength)
  }

  lemma ShortStart(n: nat, obs: Observable)
    ensures ShortSoFar(n, map[], obs, 0)
  {
  }

  lemma ShortNext(n: nat, m: Terms, obs: Observable, k: nat, key: Bits, c: real)
    requires k < |obs| && InRange(n, obs[k].1) && ShortSoFar(n, m, obs, k)
    requires |key| == 2 * n && KeyUpTo(n, key, XBits(n, obs[k].1), ZBits(n, obs[k].1), n)
    ensures ShortSoFar(n, Added(m, key, c), obs, k + 1)
  {
    hide KeyUpTo, KeyOf, XBits, ZBits, Length;
    KeyIsKeyOf(n, key, XBits(n, obs[k].1), ZBits(n, obs[k].1));
    forall maxLength: Option<nat> | WithinCut(n, obs, k + 1, maxLength) ensures Short(Added(m, key, c), maxLength) {
      assert WithinCut(n, obs, k, maxLength);
      assert maxLength.Some? ==> TermLength(n, obs[k].1) <= maxLength.value;
    }
  }

  lemma SeededTruly(n: nat, m: Terms, obs: Observable)
    requires Seeded(n, m, obs, |obs|) && AllMultiplyOut(n, obs)
    ensures forall psi: Vector :: Reading(n, m, psi) == ObservableReading(n, obs, |obs|, psi)
  {
    hide Reading, MarkedReading, ObservableReading, L1, Keys, MultipliesOut;
    forall psi: Vector ensures Reading(n, m, psi) == ObservableReading(n, obs, |obs|, psi) {
      MarkedIsTrue(n, obs, |obs|, psi);
    }
  }

  /** Carry a Pauli observable into the engine's basis; a qubit the circuit does not have is refused by name. */
  method SeedFromPauli(n: nat, obs: Observable) returns (res: Result<MajoranaSum, nat>)
    ensures res.Ok? <==> forall k | 0 <= k < |obs| :: InRange(n, obs[k].1)
    ensures res.Ok? ==> fresh(res.value) && res.value.dropped == 0.0 && Seeded(n, res.value.terms, obs, |obs|)
    ensures res.Ok? && AllMultiplyOut(n, obs) ==>
      forall psi: Vector :: Reading(n, res.value.terms, psi) == ObservableReading(n, obs, |obs|, psi)
    ensures res.Ok? ==> ShortSoFar(n, res.value.terms, obs, |obs|)
    ensures res.Err? ==> res.error >= n
  {
    hide *;
    var sum := new MajoranaSum(0.0);
    SeededStart(n, obs);
    ShortStart(n, obs);
    for k := 0 to |obs|
      invariant fresh(sum) && sum.dropped == 0.0
      invariant forall i | 0 <= i < k :: InRange(n, obs[i].1)
      invariant Seeded(n, sum.terms, obs, k) && ShortSoFar(n, sum.terms, obs, k)
    {
      var (coeff, paulis) := obs[k];
      var bits := Collect(n, paulis);
      if bits.Err? {
        return Err(bits.error);
      }
      var key, e, _ := FromPauli(bits.value.0, bits.value.1);
      var signed := coeff * SignOfExponent(e);
      ghost var before := sum.terms;
      SeededNext(n, before, obs, k, key, e, signed);
      ShortNext(n, before, obs, k, key, signed);
      sum.Add(key, signed);
      AddedExactly(before, sum.terms, key, signed);
    }
    if AllMultiplyOut(n, obs) {
      SeededTruly(n, sum.terms, obs);
    }
    return Ok(sum);
  }
}
