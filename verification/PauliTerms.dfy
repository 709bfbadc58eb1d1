/**
  What a term of an observable means: the product of its one-site Pauli operators,
  applied in the order of the list.  The engines mark, for each qubit, whether some
  site flips it and whether some site gives it a phase; when that reading is the
  product, and when it is not, is settled here for every list of sites.
*/
module PauliTerms {
  import opened Bits
  import opened ComplexNumbers
  import opened Majorana
  import opened MajoranaFock
  import opened MajoranaPauli

  datatype Pauli = I | X | Y | Z

  type Sites = seq<(nat, Pauli)>

  predicate InRange(n: nat, sites: Sites) {
    forall i | 0 <= i < |sites| :: sites[i].0 < n
  }

  predicate FlipsBit(p: Pauli) { p == X || p == Y }

  predicate MarksBit(p: Pauli) { p == Z || p == Y }

  // ---- the product of the sites

  /** The power of i in a one-site operator's matrix element on a bit: Y|0> = i|1>, Y|1> = -i|0>, Z|1> = -|1>. */
  function OpPower(op: Pauli, bit: bool): nat {
    match op
    case I => 0
    case X => 0
    case Y => if bit then 3 else 1
    case Z => if bit then 2 else 0
  }

  /** The basis state that the operator sends to o. */
  function Origin(q: nat, op: Pauli, o: Bits): (r: Bits)
    requires q < |o|
    ensures |r| == |o|
  {
    if FlipsBit(op) then Flip(o, q) else o
  }

  ghost function SiteApplied(n: nat, q: nat, op: Pauli, psi: Vector): Vector
    requires q < n
  {
    o => if |o| != n then ZERO else
      var p := Origin(q, op, o);
      TimesI(OpPower(op, p[q]), psi(p))
  }

  /** The first k operators applied one after the other. */
  ghost function TermApplied(n: nat, sites: Sites, k: nat, psi: Vector): Vector
    requires k <= |sites| && InRange(n, sites)
  {
    if k == 0 then psi else SiteApplied(n, sites[k - 1].0, sites[k - 1].1, TermApplied(n, sites, k - 1, psi))
  }

  /** The expectation of the product. */
  ghost function TermReading(n: nat, sites: Sites, psi: Vector): real
    requires InRange(n, sites)
  {
    Pair(n, psi, TermApplied(n, sites, |sites|, psi))
  }

  // ---- the reading of the marks

  /** Mark the qubits that one of the first `k` sites flips (X or Y), or gives a phase to (Z or Y). */
  function Marked(n: nat, sites: Sites, k: nat, flips: bool): (r: Bits)
    requires k <= |sites| && InRange(n, sites)
    ensures |r| == n
  {
    if k == 0 then Zero(n) else
      var before := Marked(n, sites, k - 1, flips);
      var (q, op) := sites[k - 1];
      if op == Y || op == (if flips then X else Z) then before[q := true] else before
  }

  function XBits(n: nat, sites: Sites): (r: Bits)
    requires InRange(n, sites)
    ensures |r| == n
  {
    Marked(n, sites, |sites|, true)
  }

  function ZBits(n: nat, sites: Sites): (r: Bits)
    requires InRange(n, sites)
    ensures |r| == n
  {
    Marked(n, sites, |sites|, false)
  }

  /** Some of the first k sites marks the qubit. */
  ghost predicate SomeSiteMarks(sites: Sites, k: nat, q: nat, flips: bool)
    requires k <= |sites|
  {
    exists i :: 0 <= i < k && sites[i].0 == q && if flips then FlipsBit(sites[i].1) else MarksBit(sites[i].1)
  }

  lemma {:induction false} MarkedExactly(n: nat, sites: Sites, k: nat, flips: bool, q: nat)
    requires k <= |sites| && InRange(n, sites) && q < n
    ensures Marked(n, sites, k, flips)[q] <==> SomeSiteMarks(sites, k, q, flips)
  {
    if k == 0 {
    } else {
      MarkedExactly(n, sites, k - 1, flips, q);
      var (p, op) := sites[k - 1];
      if SomeSiteMarks(sites, k - 1, q, flips) {
        var i :| 0 <= i < k - 1 && sites[i].0 == q && if flips then FlipsBit(sites[i].1) else MarksBit(sites[i].1);
        assert sites[i].0 == q;
      }
    }
  }

  lemma {:induction false} MarkedPrefix(n: nat, s: Sites, t: Sites, k: nat, flips: bool)
    requires k <= |s| && k <= |t| && s[..k] == t[..k] && InRange(n, s) && InRange(n, t)
    ensures Marked(n, s, k, flips) == Marked(n, t, k, flips)
  {
    if k == 0 {
    } else {
      assert s[..k - 1] == s[..k][..k - 1] && t[..k - 1] == t[..k][..k - 1];
      assert s[k - 1] == s[..k][k - 1] && t[k - 1] == t[..k][k - 1];
      MarkedPrefix(n, s, t, k - 1, flips);
    }
  }

  /** The Hermitian string with these marks applied to a state vector. */
  ghost function PauliApply(n: nat, x: Bits, z: Bits, psi: Vector): Vector
    requires |x| == |z| == n
  {
    o => if |o| != n then ZERO else
      var p := Xor(o, x);
      TimesI(PauliPhase(x, z, p, n), psi(p))
  }

  /** The expectation of the string. */
  ghost function PauliReadout(n: nat, x: Bits, z: Bits, psi: Vector): real
    requires |x| == |z| == n
  {
    Pair(n, psi, PauliApply(n, x, z, psi))
  }

  // ---- the product multiplied out

  /** i^e times the Hermitian string with these marks. */
  datatype Multiple = Multiple(x: Bits, z: Bits, e: nat) {
    predicate Valid(n: nat) { |x| == |z| == n && e < 4 }

    /** The power of i in the matrix element on the basis state o. */
    function Power(o: Bits): nat
      requires |x| == |z| == |o|
    {
      e + PauliPhase(x, z, o, |o|)
    }

    ghost function Applied(n: nat, psi: Vector): Vector
      requires Valid(n)
    {
      o => if |o| != n then ZERO else
        var p := Xor(o, x);
        TimesI(Power(p), psi(p))
    }

    ghost function Reading(n: nat, psi: Vector): real
      requires Valid(n)
    {
      Pair(n, psi, Applied(n, psi))
    }
  }

  /** The power of i left over when op is applied after a site with these marks. */
  function Leftover(op: Pauli, x: bool, z: bool): nat {
    (SiteAction(x, z, false) + OpPower(op, x) + 4 - SiteAction(x != FlipsBit(op), z != MarksBit(op), false)) % 4
  }

  /** The product of the first k sites: marks met twice cancel, and the order leaves a power of i. */
  function MultipliedOut(n: nat, sites: Sites, k: nat): (m: Multiple)
    requires k <= |sites| && InRange(n, sites)
    ensures m.Valid(n)
  {
    if k == 0 then Multiple(Zero(n), Zero(n), 0) else
      var m := MultipliedOut(n, sites, k - 1);
      var (q, op) := sites[k - 1];
      Multiple(m.x[q := m.x[q] != FlipsBit(op)], m.z[q := m.z[q] != MarksBit(op)], (m.e + Leftover(op, m.x[q], m.z[q])) % 4)
  }

  lemma LeftoverIs(op: Pauli, x: bool, z: bool)
    ensures Leftover(op, x, z) ==
      match op
      case I => 0
      case X => if z then (if x then 1 else 3) else 0
      case Y => if x == z then 0 else if x then 3 else 1
      case Z => if x then (if z then 3 else 1) else 0
  {
  }

  /** What is left over does not depend on the bit. */
  lemma LeftoverOnBoth(op: Pauli, x: bool, z: bool, bit: bool)
    ensures (SiteAction(x, z, bit) + OpPower(op, bit != x) - SiteAction(x != FlipsBit(op), z != MarksBit(op), bit) - Leftover(op, x, z)) % 4 == 0
  {
    LeftoverIs(op, x, z);
    hide Leftover;
  }

  /** Changing the marks of one qubit changes the phase there only. */
  lemma {:induction false} PhaseElsewhere(x: Bits, z: Bits, q: nat, a: bool, b: bool, o: Bits, k: nat)
    requires |x| == |z| == |o| && k <= |o| && q < |o|
    ensures PauliPhase(x[q := a], z[q := b], o, k) ==
      PauliPhase(x, z, o, k) + if q < k then SiteAction(a, b, o[q]) - SiteAction(x[q], z[q], o[q]) else 0
  {
    if k == 0 {
    } else {
      PhaseElsewhere(x, z, q, a, b, o, k - 1);
    }
  }

  lemma PowersAdd(e: nat, phase: int, left: nat, before: nat, op: nat, after: nat)
    requires (before + op - after - left) % 4 == 0
    ensures (op + (e + phase) - ((e + left) % 4 + (phase + after - before))) % 4 == 0
  {
    var f := e + left;
    assert op + (e + phase) - (f % 4 + (phase + after - before)) == (before + op - after - left) + 4 * (f / 4);
  }

  lemma OriginMoves(n: nat, m: Multiple, q: nat, op: Pauli, o: Bits)
    requires m.Valid(n) && |o| == n && q < n
    ensures var x' := m.x[q := m.x[q] != FlipsBit(op)];
      Xor(Origin(q, op, o), m.x) == Xor(o, x') && Origin(q, op, o)[q] == (Xor(o, x')[q] != m.x[q])
  {
  }

  lemma NextPower(n: nat, sites: Sites, k: nat, p: Bits)
    requires 0 < k <= |sites| && InRange(n, sites) && |p| == n
    ensures var (q, op) := sites[k - 1];
      var m := MultipliedOut(n, sites, k - 1);
      (OpPower(op, p[q] != m.x[q]) + m.Power(p) - MultipliedOut(n, sites, k).Power(p)) % 4 == 0
  {
    hide PauliPhase, SiteAction, OpPower, Leftover;
    var (q, op) := sites[k - 1];
    var m := MultipliedOut(n, sites, k - 1);
    var x', z' := m.x[q] != FlipsBit(op), m.z[q] != MarksBit(op);
    LeftoverOnBoth(op, m.x[q], m.z[q], p[q]);
    PhaseElsewhere(m.x, m.z, q, x', z', p, n);
    PowersAdd(m.e, PauliPhase(m.x, m.z, p, n), Leftover(op, m.x[q], m.z[q]), SiteAction(m.x[q], m.z[q], p[q]),
              OpPower(op, p[q] != m.x[q]), SiteAction(x', z', p[q]));
  }

  /** The operators applied one after the other are the product multiplied out. */
  lemma {:induction false} TermIsMultiple(n: nat, sites: Sites, k: nat, psi: Vector, o: Bits)
    requires k <= |sites| && InRange(n, sites) && |o| == n
    ensures TermApplied(n, sites, k, psi)(o) == MultipliedOut(n, sites, k).Applied(n, psi)(o)
  {
    hide TimesI, PauliPhase, OpPower, MultipliedOut, Multiple.Power, Origin;
    if k == 0 {
      NothingMultiplied(n, sites, o);
      TimesIZero(psi(o));
    } else {
      var (q, op) := sites[k - 1];
      var m, m' := MultipliedOut(n, sites, k - 1), MultipliedOut(n, sites, k);
      var r := Origin(q, op, o);
      TermIsMultiple(n, sites, k - 1, psi, r);
      MarksOfNext(n, sites, k);
      OriginMoves(n, m, q, op, o);
      var p := Xor(o, m'.x);
      NextPower(n, sites, k, p);
      TimesITwice(OpPower(op, r[q]), m.Power(p), psi(p));
      TimesISame(OpPower(op, r[q]) + m.Power(p), m'.Power(p), psi(p));
    }
  }

  lemma NothingMultiplied(n: nat, sites: Sites, o: Bits)
    requires InRange(n, sites) && |o| == n
    ensures var m := MultipliedOut(n, sites, 0); Xor(o, m.x) == o && m.Power(o) == 0
  {
    NoPhase(o, n);
    assert Xor(o, Zero(n)) == o;
  }

  lemma {:induction false} NoPhase(o: Bits, k: nat)
    requires k <= |o|
    ensures PauliPhase(Zero(|o|), Zero(|o|), o, k) == 0
  {
    if k > 0 {
      NoPhase(o, k - 1);
    }
  }

  lemma MarksOfNext(n: nat, sites: Sites, k: nat)
    requires 0 < k <= |sites| && InRange(n, sites)
    ensures var (q, op) := sites[k - 1];
      var x := MultipliedOut(n, sites, k - 1).x;
      MultipliedOut(n, sites, k).x == x[q := x[q] != FlipsBit(op)]
  {
  }

  /** So a term reads as the multiple it multiplies out to. */
  lemma TermReadsMultiple(n: nat, sites: Sites, psi: Vector)
    requires InRange(n, sites)
    ensures TermReading(n, sites, psi) == MultipliedOut(n, sites, |sites|).Reading(n, psi)
  {
    hide MultipliedOut, TermApplied, Multiple.Applied, Pair;
    var m := MultipliedOut(n, sites, |sites|);
    forall o | |o| == n ensures TermApplied(n, sites, |sites|, psi)(o) == m.Applied(n, psi)(o) {
      TermIsMultiple(n, sites, |sites|, psi, o);
    }
    SameAsItself(n, psi);
    PairSame(n, psi, TermApplied(n, sites, |sites|, psi), psi, m.Applied(n, psi));
  }

  lemma ReadoutIsMultiple(n: nat, x: Bits, z: Bits, psi: Vector)
    requires |x| == |z| == n
    ensures PauliReadout(n, x, z, psi) == Multiple(x, z, 0).Reading(n, psi)
  {
    hide TimesI, PauliPhase, Pair;
    SameAsItself(n, psi);
    forall o | |o| == n ensures PauliApply(n, x, z, psi)(o) == Multiple(x, z, 0).Applied(n, psi)(o) {
    }
    PairSame(n, psi, PauliApply(n, x, z, psi), psi, Multiple(x, z, 0).Applied(n, psi));
  }

  // ---- different multiples read differently

  /** The real part of i^k. */
  function RealPart(k: int): real { if k % 4 == 0 then 1.0 else if k % 4 == 2 then -1.0 else 0.0 }

  lemma InnerOfPowers(s: int, t: int)
    ensures Inner(TimesI(s, ONE), TimesI(t, ONE)) == RealPart(t - s)
  {
    hide TimesI, Inner;
    PowerOfOne(s);
    PowerOfOne(t);
    DifferenceMod4(s, t);
    InnerOfResidues(s % 4, t % 4);
  }

  lemma InnerOfResidues(a: nat, b: nat)
    requires a < 4 && b < 4
    ensures Inner(TimesI(a, ONE), TimesI(b, ONE)) == RealPart((b - a + 4) % 4)
  {
    hide TimesI;
    PowerOfOne(a);
    PowerOfOne(b);
  }

  lemma DifferenceMod4(s: int, t: int)
    ensures (t - s) % 4 == (t % 4 - s % 4 + 4) % 4
  {
    assert t - s == (t % 4 - s % 4 + 4) + 4 * (t / 4 - s / 4 - 1);
  }

  lemma PowerOfOne(k: int)
    ensures TimesI(k, ONE) == TimesI(k % 4, ONE)
    ensures TimesI(0, ONE) == C(1.0, 0.0) && TimesI(1, ONE) == C(0.0, 1.0)
    ensures TimesI(2, ONE) == C(-1.0, 0.0) && TimesI(3, ONE) == C(0.0, -1.0)
  {
  }

  /** One basis state. */
  ghost function Basis(a: Bits): Vector { o => if o == a then ONE else ZERO }

  /** Two basis states, the second with the amplitude i^s. */
  ghost function Couple(a: Bits, b: Bits, s: int): Vector { o => if o == a then ONE else if o == b then TimesI(s, ONE) else ZERO }

  lemma SumOfOne(n: nat, f: Bits -> real, a: Bits)
    requires |a| == n && forall o | |o| == n && o != a :: f(o) == 0.0
    ensures SumAll(n, f) == f(a)
  {
    SumOfZero([], n, _ => 0.0);
    SumChange(n, _ => 0.0, f, a);
  }

  lemma SumOfTwo(n: nat, f: Bits -> real, a: Bits, b: Bits)
    requires |a| == |b| == n && a != b && forall o | |o| == n && o != a && o != b :: f(o) == 0.0
    ensures SumAll(n, f) == f(a) + f(b)
  {
    var g: Bits -> real := o => if o == a then f(a) else 0.0;
    SumOfOne(n, g, a);
    SumChange(n, g, f, b);
  }

  lemma ReadBasis(n: nat, m: Multiple, a: Bits)
    requires m.Valid(n) && |a| == n
    ensures m.Reading(n, Basis(a)) == if m.x == Zero(n) then RealPart(m.Power(a)) else 0.0
  {
    hide TimesI, Inner, Multiple.Power;
    var psi := Basis(a);
    var f: Bits -> real := o => Inner(psi(o), m.Applied(n, psi)(o));
    forall o | |o| == n && o != a ensures f(o) == 0.0 { InnerZero(m.Applied(n, psi)(o)); }
    SumOfOne(n, f, a);
    XorFixes(a, m.x);
    var p := Xor(a, m.x);
    InnerOfZero(m.Power(p));
    TimesIZero(ONE);
    InnerOfPowers(0, m.Power(a));
  }

  lemma XorFixes(a: Bits, x: Bits)
    requires |a| == |x|
    ensures Xor(a, x) == a <==> x == Zero(|a|)
  {
    if Xor(a, x) == a {
      forall i | 0 <= i < |a| ensures !x[i] { assert Xor(a, x)[i] == a[i]; }
    } else {
      assert exists i :: 0 <= i < |a| && Xor(a, x)[i] != a[i];
    }
  }

  lemma XorMoves(a: Bits, b: Bits, x: Bits)
    requires |a| == |b| == |x|
    ensures Xor(a, x) == b <==> x == Xor(a, b)
    ensures Xor(b, x) == a <==> x == Xor(a, b)
  {
    if Xor(a, x) == b { forall i | 0 <= i < |a| ensures x[i] == Xor(a, b)[i] { assert Xor(a, x)[i] == b[i]; } }
    if Xor(b, x) == a { forall i | 0 <= i < |a| ensures x[i] == Xor(a, b)[i] { assert Xor(b, x)[i] == a[i]; } }
    if x == Xor(a, b) { assert Xor(a, x) == b && Xor(b, x) == a; }
  }

  lemma InnerOfZero(e: int)
    ensures forall a: Complex :: Inner(a, TimesI(e, ZERO)) == 0.0
  {
  }

  ghost function CoupleReading(m: Multiple, a: Bits, b: Bits, s: int): real
    requires |m.x| == |m.z| == |a| == |b|
  {
    if m.x == Zero(|a|) then RealPart(m.Power(a)) + RealPart(m.Power(b))
    else if m.x == Xor(a, b) then RealPart(m.Power(b) + s) + RealPart(m.Power(a) - s)
    else 0.0
  }

  lemma ReadCouple(n: nat, m: Multiple, a: Bits, b: Bits, s: int)
    requires m.Valid(n) && |a| == |b| == n && a != b
    ensures m.Reading(n, Couple(a, b, s)) == CoupleReading(m, a, b, s)
  {
    hide TimesI, Inner, Multiple.Power, RealPart;
    var psi := Couple(a, b, s);
    var f: Bits -> real := o => Inner(psi(o), m.Applied(n, psi)(o));
    forall o | |o| == n && o != a && o != b ensures f(o) == 0.0 { InnerZero(m.Applied(n, psi)(o)); }
    SumOfTwo(n, f, a, b);
    CoupleAt(n, m, a, b, s, a);
    CoupleAt(n, m, a, b, s, b);
    XorFixes(a, m.x);
    XorFixes(b, m.x);
    XorMoves(a, b, m.x);
  }

  /** One summand of the reading, by where the string takes its basis state. */
  lemma CoupleAt(n: nat, m: Multiple, a: Bits, b: Bits, s: int, o: Bits)
    requires m.Valid(n) && |a| == |b| == n && a != b && (o == a || o == b)
    ensures var psi, p, t := Couple(a, b, s), Xor(o, m.x), if o == a then 0 else s;
      Inner(psi(o), m.Applied(n, psi)(o)) ==
        if p == a then RealPart(m.Power(a) - t) else if p == b then RealPart(m.Power(b) + s - t) else 0.0
  {
    hide TimesI, Inner, Multiple.Power, RealPart;
    var psi, p, t := Couple(a, b, s), Xor(o, m.x), if o == a then 0 else s;
    TimesIZero(ONE);
    assert psi(o) == TimesI(t, ONE);
    InnerOfPowers(t, m.Power(a));
    InnerOfPowers(t, m.Power(b) + s);
    TimesITwice(m.Power(b), s, ONE);
    InnerOfZero(m.Power(p));
  }

  ghost predicate ReadAlike(n: nat, m: Multiple, w: Multiple)
    requires m.Valid(n) && w.Valid(n)
  {
    forall psi: Vector :: m.Reading(n, psi) == w.Reading(n, psi)
  }

  lemma OppositePower(n: nat, w: Multiple, a: Bits)
    requires w.Valid(n) && |a| == n && w.e % 2 == 0
    ensures (w.Power(a) + w.Power(Xor(a, w.x))) % 4 == 0
  {
    hide PauliPhase;
    PauliSquares(w.x, w.z, a, n);
    CombineMod4(PauliPhase(w.x, w.z, a, n) + PauliPhase(w.x, w.z, Xor(a, w.x), n), 2 * w.e);
  }

  lemma PartsAddUp(u: int, v: int)
    ensures RealPart(u) + RealPart(v) == 2.0 <==> u % 4 == 0 && v % 4 == 0
    ensures RealPart(u + 2) == -RealPart(u) && RealPart(v - 2) == -RealPart(v)
  {
    TurnedPart(u);
    TurnedPart(v - 2);
  }

  lemma TurnedPart(u: int)
    ensures RealPart(u + 2) == -RealPart(u)
  {
  }

  lemma SplitOpposite(s: int, p: int)
    requires (s + p) % 4 == 0
    ensures (p + s) % 4 == 0 && (p + (s + 2)) % 4 == 2 && (s - (s + 2)) % 4 == 2
    ensures RealPart(p + s) + RealPart(s - s) == 2.0
    ensures RealPart(p + (s + 2)) + RealPart(s - (s + 2)) == -2.0
  {
  }

  /** A Hermitian multiple that reads like another one agrees with it on every basis state. */
  lemma AlikeAt(n: nat, m: Multiple, w: Multiple, a: Bits)
    requires m.Valid(n) && w.Valid(n) && w.e % 2 == 0 && |a| == n && ReadAlike(n, m, w)
    ensures m.x == w.x && (m.Power(a) - w.Power(a)) % 4 == 0
  {
    hide Multiple.Reading, Multiple.Power, RealPart;
    if w.x == Zero(n) {
      assert m.Reading(n, Basis(a)) == w.Reading(n, Basis(a));
      ReadBasis(n, m, a);
      ReadBasis(n, w, a);
      XorFixes(a, w.x);
      OppositePower(n, w, a);
      SamePart(m.Power(a), w.Power(a));
    } else {
      var b := Xor(a, w.x);
      var s := w.Power(a);
      XorFixes(a, w.x);
      XorMoves(a, b, w.x);
      OppositePower(n, w, a);
      SplitOpposite(s, w.Power(b));
      assert m.Reading(n, Couple(a, b, s)) == w.Reading(n, Couple(a, b, s));
      assert m.Reading(n, Couple(a, b, s + 2)) == w.Reading(n, Couple(a, b, s + 2));
      ReadCouple(n, m, a, b, s);
      ReadCouple(n, w, a, b, s);
      ReadCouple(n, m, a, b, s + 2);
      ReadCouple(n, w, a, b, s + 2);
      PartsAddUp(m.Power(b) + s, m.Power(a) - s);
    }
  }

  lemma SamePart(u: int, v: int)
    requires (v + v) % 4 == 0
    ensures RealPart(v) != 0.0
    ensures RealPart(u) == RealPart(v) ==> (u - v) % 4 == 0
  {
    assert v % 4 == 0 || v % 4 == 2;
  }

  /** Setting one bit turns the sign if the string marks it. */
  lemma {:induction false} PhaseOfUnit(x: Bits, z: Bits, q: nat, k: nat)
    requires |x| == |z| && q < |x| && k <= |x|
    ensures (PauliPhase(x, z, Zero(|x|)[q := true], k) - PauliPhase(x, z, Zero(|x|), k) - if q < k && z[q] then 2 else 0) % 4 == 0
  {
    if k == 0 {
    } else {
      PhaseOfUnit(x, z, q, k - 1);
      if q < k - 1 || k - 1 < q {
        assert Zero(|x|)[q := true][k - 1] == Zero(|x|)[k - 1];
      }
    }
  }

  lemma SameMark(u: int, v: int, m: int, w: int, a: bool, b: bool)
    requires (u - m - if a then 2 else 0) % 4 == 0 && (v - w - if b then 2 else 0) % 4 == 0
    requires (u - v) % 4 == 0 && (m - w) % 4 == 0
    ensures a == b
  {
  }

  /** Two multiples, one of them Hermitian, that read alike in every state are the same. */
  lemma ReadingTells(n: nat, m: Multiple, w: Multiple)
    requires m.Valid(n) && w.Valid(n) && w.e % 2 == 0 && ReadAlike(n, m, w)
    ensures m == w
  {
    hide PauliPhase, ReadAlike;
    var o := Zero(n);
    AlikeAt(n, m, w, o);
    forall q | 0 <= q < n ensures m.z[q] == w.z[q] {
      AlikeAt(n, m, w, o[q := true]);
      PhaseOfUnit(m.x, m.z, q, n);
      PhaseOfUnit(w.x, w.z, q, n);
      SameMark(m.Power(o[q := true]), w.Power(o[q := true]), m.Power(o), w.Power(o), m.z[q], w.z[q]);
    }
    assert m.z == w.z;
  }

  // ---- when the marks read the product

  /** The list multiplies out to what its marks say: no mark cancels and no power of i is left. */
  predicate MultipliesOut(n: nat, sites: Sites)
    requires InRange(n, sites)
  {
    MultipliedOut(n, sites, |sites|) == Multiple(XBits(n, sites), ZBits(n, sites), 0)
  }

  /** The marks read a term right in every state exactly when its list multiplies out to them. */
  lemma MarksReadExactly(n: nat, sites: Sites)
    requires InRange(n, sites)
    ensures (forall psi: Vector :: PauliReadout(n, XBits(n, sites), ZBits(n, sites), psi) == TermReading(n, sites, psi))
      <==> MultipliesOut(n, sites)
  {
    hide PauliReadout, TermReading, Multiple.Reading, XBits, ZBits, MultipliedOut;
    var m, w := MultipliedOut(n, sites, |sites|), Multiple(XBits(n, sites), ZBits(n, sites), 0);
    forall psi: Vector
      ensures PauliReadout(n, w.x, w.z, psi) == w.Reading(n, psi) && TermReading(n, sites, psi) == m.Reading(n, psi)
    {
      ReadoutIsMultiple(n, w.x, w.z, psi);
      TermReadsMultiple(n, sites, psi);
    }
    if forall psi: Vector :: PauliReadout(n, w.x, w.z, psi) == TermReading(n, sites, psi) {
      forall psi: Vector ensures m.Reading(n, psi) == w.Reading(n, psi) {
        assert PauliReadout(n, w.x, w.z, psi) == TermReading(n, sites, psi);
      }
      ReadingTells(n, m, w);
    }
  }

  /** No qubit is named twice, identities aside. */
  predicate NamedOnce(sites: Sites) {
    forall i, j | 0 <= i < j < |sites| && sites[i].1 != I && sites[j].1 != I :: sites[i].0 != sites[j].0
  }

  lemma {:induction false} Unmarked(n: nat, sites: Sites, k: nat, q: nat, flips: bool)
    requires k <= |sites| && InRange(n, sites) && q < n && forall i | 0 <= i < k && sites[i].1 != I :: sites[i].0 != q
    ensures !Marked(n, sites, k, flips)[q]
  {
    if k == 0 {
    } else {
      Unmarked(n, sites, k - 1, q, flips);
    }
  }

  lemma FirstOnQubit(op: Pauli, x: bool, z: bool)
    ensures op == I || (!x && !z) ==> Leftover(op, x, z) == 0
  {
    LeftoverIs(op, x, z);
    hide Leftover;
  }

  lemma MarkedNext(n: nat, sites: Sites, k: nat, flips: bool)
    requires 0 < k <= |sites| && InRange(n, sites)
    ensures var before, (q, op) := Marked(n, sites, k - 1, flips), sites[k - 1];
      var mark := if flips then FlipsBit(op) else MarksBit(op);
      Marked(n, sites, k, flips) == before[q := before[q] || mark] && (op == I ==> !mark)
  {
  }

  lemma {:induction false} OnceUpTo(n: nat, sites: Sites, k: nat)
    requires k <= |sites| && InRange(n, sites) && NamedOnce(sites)
    ensures MultipliedOut(n, sites, k) == Multiple(Marked(n, sites, k, true), Marked(n, sites, k, false), 0)
  {
    if k == 0 {
    } else {
      hide Leftover, FlipsBit, MarksBit;
      OnceUpTo(n, sites, k - 1);
      var (q, op) := sites[k - 1];
      FirstOnQubit(op, Marked(n, sites, k - 1, true)[q], Marked(n, sites, k - 1, false)[q]);
      MarkedNext(n, sites, k, true);
      MarkedNext(n, sites, k, false);
      if op != I {
        Unmarked(n, sites, k - 1, q, true);
        Unmarked(n, sites, k - 1, q, false);
      }
    }
  }

  /** Which is so whenever no qubit is named twice. */
  lemma NamedOnceMultipliesOut(n: nat, sites: Sites)
    requires InRange(n, sites) && NamedOnce(sites)
    ensures MultipliesOut(n, sites)
    ensures forall psi: Vector :: PauliReadout(n, XBits(n, sites), ZBits(n, sites), psi) == TermReading(n, sites, psi)
  {
    OnceUpTo(n, sites, |sites|);
    MarksReadExactly(n, sites);
  }

  /** Z on a qubit twice is the identity, yet its marks are those of one Z: with the bit set the two readings differ in sign. */
  lemma TwoZsAreMisread(n: nat, q: nat)
    requires q < n
    ensures var sites := [(q, Z), (q, Z)];
      && InRange(n, sites) && !MultipliesOut(n, sites)
      && PauliReadout(n, XBits(n, sites), ZBits(n, sites), Basis(Zero(n)[q := true])) == -1.0
      && TermReading(n, sites, Basis(Zero(n)[q := true])) == 1.0
  {
    hide PauliReadout, TermReading, Multiple.Reading, PauliPhase;
    var sites, a := [(q, Z), (q, Z)], Zero(n)[q := true];
    var w, m := Multiple(Zero(n), a, 0), Multiple(Zero(n), Zero(n), 0);
    assert InRange(n, sites);
    assert Marked(n, sites, 1, true) == Zero(n) && Marked(n, sites, 1, false) == a by {
      assert Marked(n, sites, 0, true) == Zero(n) == Marked(n, sites, 0, false);
    }
    assert XBits(n, sites) == w.x && ZBits(n, sites) == w.z;
    assert MultipliedOut(n, sites, 1) == w by {
      assert MultipliedOut(n, sites, 0) == m;
      assert Zero(n)[q := false] == Zero(n);
    }
    assert MultipliedOut(n, sites, 2) == m by {
      assert Zero(n)[q := false] == Zero(n) && a[q := false] == Zero(n);
    }
    ReadoutIsMultiple(n, w.x, w.z, Basis(a));
    TermReadsMultiple(n, sites, Basis(a));
    ReadBasis(n, w, a);
    ReadBasis(n, m, a);
    PhaseOfUnit(w.x, w.z, q, n);
    PhaseOfUnit(m.x, m.z, q, n);
    NoPhase(Zero(n), n);
    PhaseAtZero(w.z, n);
    assert w.z[q] && !m.z[q];
  }

  lemma {:induction false} PhaseAtZero(z: Bits, k: nat)
    requires k <= |z|
    ensures PauliPhase(Zero(|z|), z, Zero(|z|), k) == 0
  {
    if k > 0 {
      PhaseAtZero(z, k - 1);
    }
  }

  /** X and then Z has the marks of Y, but the product is i times Y. */
  lemma XThenZIsMisread(n: nat, q: nat)
    requires q < n
    ensures var sites, y := [(q, X), (q, Z)], [(q, Y)];
      && InRange(n, sites) && InRange(n, y)
      && XBits(n, sites) == XBits(n, y) && ZBits(n, sites) == ZBits(n, y)
      && MultipliesOut(n, y) && MultipliedOut(n, sites, 2) == MultipliedOut(n, y, 1).(e := 1) && !MultipliesOut(n, sites)
  {
    var sites, y := [(q, X), (q, Z)], [(q, Y)];
    var o, a := Zero(n), Zero(n)[q := true];
    assert InRange(n, sites) && InRange(n, y) && o[q := false] == o && a[q := true] == a;
    NamedOnceMultipliesOut(n, y);
    forall flips ensures Marked(n, sites, 0, flips) == o && Marked(n, y, 0, flips) == o {
    }
    assert Marked(n, y, 1, true) == a && Marked(n, y, 1, false) == a;
    assert Marked(n, sites, 1, true) == a && Marked(n, sites, 1, false) == o;
    assert Marked(n, sites, 2, true) == a && Marked(n, sites, 2, false) == a;
    assert MultipliedOut(n, sites, 0) == Multiple(o, o, 0);
    assert MultipliedOut(n, sites, 1) == Multiple(a, o, 0);
    assert MultipliedOut(n, sites, 2) == Multiple(a, a, 1);
  }

  /** A qubit may be named twice without harm: three Zs are one. */
  lemma ThreeZsAreRead(n: nat, q: nat)
    requires q < n
    ensures var sites := [(q, Z), (q, Z), (q, Z)]; InRange(n, sites) && !NamedOnce(sites) && MultipliesOut(n, sites)
  {
    var sites := [(q, Z), (q, Z), (q, Z)];
    var a := Zero(n)[q := true];
    assert InRange(n, sites);
    assert !NamedOnce(sites) by { assert sites[0].1 != I && sites[1].1 != I && sites[0].0 == sites[1].0; }
    assert Zero(n)[q := false] == Zero(n) && a[q := false] == Zero(n) && a[q := true] == a;
    assert MultipliedOut(n, sites, 0) == Multiple(Zero(n), Zero(n), 0);
    assert MultipliedOut(n, sites, 1) == Multiple(Zero(n), a, 0);
    assert MultipliedOut(n, sites, 2) == Multiple(Zero(n), Zero(n), 0);
    assert Marked(n, sites, 0, true) == Zero(n) == Marked(n, sites, 0, false);
    assert Marked(n, sites, 1, true) == Zero(n) && Marked(n, sites, 1, false) == a;
    assert Marked(n, sites, 2, true) == Zero(n) && Marked(n, sites, 2, false) == a;
  }
}
