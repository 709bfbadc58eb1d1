/**
  Heisenberg back-propagation of an observable, kept as a sum of Majorana
  monomials, with truncation and the certificate of what truncation discarded.
*/
module MajoranaEngine {
  import opened Wrappers
  import opened Linear
  import opened Bits
  import opened Majorana
  import opened MajoranaFock

  type Terms = map<Bits, real>

  ghost predicate Keys(n: nat, m: Terms) {
    forall x | x in m :: |x| == 2 * n
  }

  /** The coefficient of a monomial in a sum; what is not listed has coefficient zero. */
  ghost function Coef(m: Terms, x: Bits): real {
    if x in m then m[x] else 0.0
  }

  ghost function CoefOf(m: Terms): Bits -> real { x => Coef(m, x) }

  /** The value of a sum of monomials under a readout of each. */
  ghost function Value(n: nat, f: Bits -> real, r: Bits -> real): real {
    SumAll(2 * n, Product(f, r))
  }

  /** The total magnitude of the coefficients. */
  ghost function L1(n: nat, f: Bits -> real): real {
    SumAll(2 * n, Magnitudes(f))
  }

  ghost function Magnitudes(f: Bits -> real): Bits -> real { x => Abs(f(x)) }

  ghost function L2(n: nat, f: Bits -> real): real {
    SumAll(2 * n, Product(f, f))
  }

  // ---- one rotation

  /**
    One rotation exp(-i phi M_key / 2), with u and v the cosine and sine of phi / 2;
    `still` says that phi itself is zero.
  */
  datatype Rot = Rot(key: Bits, still: bool, u: real, v: real) {
    function Cos(): real { u * u - v * v }
    function Sin(): real { 2.0 * (u * v) }

    ghost predicate Valid(n: nat) {
      |key| == 2 * n && u * u + v * v == 1.0 && (still ==> u == 1.0 && v == 0.0)
    }
  }

  /** Whether the rotation moves a monomial at all. */
  ghost predicate Moves(n: nat, c: Bits, x: Bits)
    requires |c| == 2 * n
  {
    |x| == 2 * n && !Commutes(x, c)
  }

  ghost function SignOf(n: nat, c: Bits, x: Bits): real
    requires |c| == 2 * n && Moves(n, c, x)
  {
    RotateBy(x, c).1
  }

  lemma MovesBack(n: nat, c: Bits, x: Bits)
    requires |c| == 2 * n && |x| == 2 * n
    ensures Xor(c, x) == Xor(x, c) && Xor(c, Xor(c, x)) == x
    ensures Moves(n, c, Xor(c, x)) <==> Moves(n, c, x)
    ensures Moves(n, c, x) ==> SignOf(n, c, Xor(c, x)) == -SignOf(n, c, x) && (SignOf(n, c, x) == 1.0 || SignOf(n, c, x) == -1.0)
  {
    XorTwice(x, c);
    CommutesWithImage(x, c);
    if Moves(n, c, x) {
      RotateBack(x, c);
    }
  }

  /** What a rotation does to the coefficients: an anticommuting pair of monomials mixes. */
  ghost function Rotated(n: nat, f: Bits -> real, c: Bits, cos: real, sin: real): Bits -> real
    requires |c| == 2 * n
  {
    x => if Moves(n, c, x) then Times(cos, f(x)) + Times(Times(sin, -SignOf(n, c, x)), f(Xor(c, x))) else f(x)
  }

  /** What the same rotation does to a readout. */
  ghost function Pulled(n: nat, r: Bits -> real, c: Bits, cos: real, sin: real): Bits -> real
    requires |c| == 2 * n
  {
    x => if Moves(n, c, x) then Times(cos, r(x)) + Times(Times(sin, SignOf(n, c, x)), r(Xor(c, x))) else r(x)
  }

  ghost function Product(f: Bits -> real, r: Bits -> real): Bits -> real { x => Times(f(x), r(x)) }

  /** The part of each term that stays at its monomial, and the part that comes from the partner. */
  ghost function Stay(n: nat, f: Bits -> real, r: Bits -> real, c: Bits, cos: real): Bits -> real
    requires |c| == 2 * n
  {
    x => if Moves(n, c, x) then Times(cos, Times(f(x), r(x))) else Times(f(x), r(x))
  }

  ghost function Come(n: nat, f: Bits -> real, r: Bits -> real, c: Bits, sin: real): Bits -> real
    requires |c| == 2 * n
  {
    x => if Moves(n, c, x) then Times(Times(sin, -SignOf(n, c, x)), Times(f(Xor(c, x)), r(x))) else 0.0
  }

  ghost function Go(n: nat, f: Bits -> real, r: Bits -> real, c: Bits, sin: real): Bits -> real
    requires |c| == 2 * n
  {
    x => if Moves(n, c, x) then Times(Times(sin, SignOf(n, c, x)), Times(f(x), r(Xor(c, x)))) else 0.0
  }

  lemma RotatedValueAt(n: nat, f: Bits -> real, r: Bits -> real, c: Bits, cos: real, sin: real, x: Bits)
    requires |c| == 2 * n && |x| == 2 * n
    ensures Product(Rotated(n, f, c, cos, sin), r)(x) == Stay(n, f, r, c, cos)(x) + Come(n, f, r, c, sin)(x)
    ensures Product(f, Pulled(n, r, c, cos, sin))(x) == Stay(n, f, r, c, cos)(x) + Go(n, f, r, c, sin)(x)
    ensures Go(n, f, r, c, sin)(x) == Come(n, f, r, c, sin)(Xor(x, c))
  {
    MovesBack(n, c, x);
    hide Moves, SignOf, Xor;
    if Moves(n, c, x) {
      var s := SignOf(n, c, x);
      MixedTimes(cos, f(x), Times(sin, -s), f(Xor(c, x)), r(x));
      MixedTimes(cos, r(x), Times(sin, s), r(Xor(c, x)), f(x));
    }
  }

  /** Rotating the coefficients or the readout gives the same value. */
  lemma RotatedValue(n: nat, f: Bits -> real, r: Bits -> real, c: Bits, cos: real, sin: real)
    requires |c| == 2 * n
    ensures Value(n, Rotated(n, f, c, cos, sin), r) == Value(n, f, Pulled(n, r, c, cos, sin))
  {
    hide Rotated, Pulled, Stay, Come, Go, Product;
    forall x | |x| == 2 * n
      ensures Product(Rotated(n, f, c, cos, sin), r)(x) == Stay(n, f, r, c, cos)(x) + Come(n, f, r, c, sin)(x)
      ensures Product(f, Pulled(n, r, c, cos, sin))(x) == Stay(n, f, r, c, cos)(x) + Go(n, f, r, c, sin)(x)
      ensures Go(n, f, r, c, sin)(x) == Come(n, f, r, c, sin)(Xor(x, c))
    {
      RotatedValueAt(n, f, r, c, cos, sin, x);
    }
    SumPlus([], 2 * n, Product(Rotated(n, f, c, cos, sin), r), Stay(n, f, r, c, cos), Come(n, f, r, c, sin));
    SumPlus([], 2 * n, Product(f, Pulled(n, r, c, cos, sin)), Stay(n, f, r, c, cos), Go(n, f, r, c, sin));
    SumXor(2 * n, Come(n, f, r, c, sin), Go(n, f, r, c, sin), c);
  }

  lemma MixedTimes(p: real, a: real, q: real, b: real, r: real)
    ensures Times(Times(p, a) + Times(q, b), r) == Times(p, Times(a, r)) + Times(q, Times(b, r))
    ensures Times(r, Times(p, a) + Times(q, b)) == Times(p, Times(r, a)) + Times(q, Times(r, b))
    ensures Times(p, Times(r, a)) == Times(p, Times(a, r))
  {
    assert (p * a + q * b) * r == p * (a * r) + q * (b * r);
  }

  /** The pieces of the squared coefficients after a rotation. */
  ghost function Calm(n: nat, f: Bits -> real, c: Bits, cos: real): Bits -> real
    requires |c| == 2 * n
  {
    x => if Moves(n, c, x) then Times(Times(cos, cos), Times(f(x), f(x))) else Times(f(x), f(x))
  }

  ghost function Own(n: nat, f: Bits -> real, c: Bits, sin: real): Bits -> real
    requires |c| == 2 * n
  {
    x => if Moves(n, c, x) then Times(Times(sin, sin), Times(f(x), f(x))) else 0.0
  }

  ghost function Other(n: nat, f: Bits -> real, c: Bits, sin: real): Bits -> real
    requires |c| == 2 * n
  {
    x => if Moves(n, c, x) then Times(Times(sin, sin), Times(f(Xor(c, x)), f(Xor(c, x)))) else 0.0
  }

  ghost function Cross(n: nat, f: Bits -> real, c: Bits, cs: real): Bits -> real
    requires |c| == 2 * n
  {
    x => if Moves(n, c, x) then Times(cs, Times(SignOf(n, c, x), Times(f(x), f(Xor(c, x))))) else 0.0
  }

  lemma RotatedL2At(n: nat, f: Bits -> real, c: Bits, cos: real, sin: real, x: Bits)
    requires |c| == 2 * n && |x| == 2 * n && Times(cos, cos) + Times(sin, sin) == 1.0
    ensures var fr, cross := Rotated(n, f, c, cos, sin), Cross(n, f, c, Times(cos, sin));
      Product(fr, fr)(x) == PlusOf(Calm(n, f, c, cos), PlusOf(Other(n, f, c, sin), ScaledBy(-2.0, cross)))(x) &&
      ScaledBy(-1.0, cross)(x) == cross(Xor(x, c))
    ensures Product(f, f)(x) == PlusOf(Calm(n, f, c, cos), Own(n, f, c, sin))(x)
    ensures Other(n, f, c, sin)(x) == Own(n, f, c, sin)(Xor(x, c))
  {
    MovesBack(n, c, x);
    hide Moves, SignOf, Xor, Times;
    if Moves(n, c, x) {
      SquareMixed(cos, sin, SignOf(n, c, x), f(x), f(Xor(c, x)));
    }
  }

  /** A rotation keeps the sum of the squares of the coefficients. */
  lemma RotatedL2(n: nat, f: Bits -> real, c: Bits, cos: real, sin: real)
    requires |c| == 2 * n && Times(cos, cos) + Times(sin, sin) == 1.0
    ensures L2(n, Rotated(n, f, c, cos, sin)) == L2(n, f)
  {
    hide Rotated, Calm, Own, Other, Cross, Product, Times, PlusOf, ScaledBy;
    var fr, cross := Rotated(n, f, c, cos, sin), Cross(n, f, c, Times(cos, sin));
    var calm, own, other := Calm(n, f, c, cos), Own(n, f, c, sin), Other(n, f, c, sin);
    var mixed := PlusOf(other, ScaledBy(-2.0, cross));
    forall x | |x| == 2 * n
      ensures Product(fr, fr)(x) == PlusOf(calm, mixed)(x)
      ensures Product(f, f)(x) == PlusOf(calm, own)(x)
      ensures other(x) == own(Xor(x, c))
      ensures ScaledBy(-1.0, cross)(x) == cross(Xor(x, c))
    {
      RotatedL2At(n, f, c, cos, sin, x);
    }
    TotalSame(2 * n, Product(fr, fr), PlusOf(calm, mixed));
    TotalSame(2 * n, Product(f, f), PlusOf(calm, own));
    TotalPlus(2 * n, calm, mixed);
    TotalPlus(2 * n, other, ScaledBy(-2.0, cross));
    TotalPlus(2 * n, calm, own);
    TotalScaled(2 * n, -1.0, cross);
    TotalScaled(2 * n, -2.0, cross);
    SumXor(2 * n, own, other, c);
    SumXor(2 * n, cross, ScaledBy(-1.0, cross), c);
  }

  lemma SquareMixed(cos: real, sin: real, s: real, a: real, b: real)
    requires s == 1.0 || s == -1.0
    requires Times(cos, cos) + Times(sin, sin) == 1.0
    ensures var y := Times(cos, a) + Times(Times(sin, -s), b);
      Times(y, y) == Times(Times(cos, cos), Times(a, a)) +
        (Times(Times(sin, sin), Times(b, b)) + -2.0 * Times(Times(cos, sin), Times(s, Times(a, b))))
    ensures Times(a, a) == Times(Times(cos, cos), Times(a, a)) + Times(Times(sin, sin), Times(a, a))
    ensures Times(Times(cos, sin), Times(-s, Times(b, a))) == -1.0 * Times(Times(cos, sin), Times(s, Times(a, b)))
  {
    var p, q := cos * a, sin * b;
    assert (cos * cos) * (a * a) == p * p && (sin * sin) * (b * b) == q * q;
    assert (cos * sin) * (s * (a * b)) == s * (p * q);
    assert (sin * -s) * b == -s * q;
    assert (p - s * q) * (p - s * q) == p * p - 2.0 * (s * (p * q)) + (s * s) * (q * q);
    assert (cos * cos) * (a * a) + (sin * sin) * (a * a) == (cos * cos + sin * sin) * (a * a);
    assert -s * (b * a) == -(s * (a * b));
    assert (cos * sin) * -(s * (a * b)) == -((cos * sin) * (s * (a * b)));
  }

  // ---- the sum, updated in place

  /** The coefficients after adding to one of them. */
  function Added(m: Terms, key: Bits, coeff: real): Terms {
    m[key := (if key in m then m[key] else 0.0) + coeff]
  }

  lemma CoefAdded(m: Terms, x: Bits, d: real, y: Bits)
    ensures Coef(Added(m, x, d), y) == Coef(m, y) + (if y == x then d else 0.0)
    ensures y in Added(m, x, d) <==> y in m || y == x
  {
  }

  /** The keys and the coefficients together fix the sum. */
  lemma AddedExactly(m: Terms, m': Terms, key: Bits, coeff: real)
    requires m'.Keys == m.Keys + {key}
    requires forall y :: Coef(m', y) == Coef(m, y) + if y == key then coeff else 0.0
    ensures m' == Added(m, key, coeff)
  {
    hide Coef, Added;
    forall y | y in m' ensures y in Added(m, key, coeff) && m'[y] == Added(m, key, coeff)[y] {
      CoefAdded(m, key, coeff, y);
      CoefIsEntry(m', y);
      CoefIsEntry(Added(m, key, coeff), y);
    }
    forall y | y in Added(m, key, coeff) ensures y in m' {
      CoefAdded(m, key, coeff, y);
    }
  }

  lemma CoefIsEntry(m: Terms, y: Bits)
    ensures y in m ==> Coef(m, y) == m[y]
  {
  }

  ghost predicate Cut(coeffMin: real, maxLength: Option<nat>, x: Bits, coeff: real) {
    Abs(coeff) < coeffMin || (maxLength.Some? && Length(x) > maxLength.value)
  }

  /** The terms of `all` that are not in `rest` and survive the cut. */
  ghost function Kept(all: Terms, rest: Terms, coeffMin: real, maxLength: Option<nat>): Terms {
    map x | x in all && x !in rest && !Cut(coeffMin, maxLength, x, all[x]) :: all[x]
  }

  lemma KeptNothing(all: Terms, coeffMin: real, maxLength: Option<nat>)
    ensures Kept(all, all, coeffMin, maxLength) == map[]
  {
  }

  lemma KeptNext(all: Terms, rest: Terms, x: Bits, coeffMin: real, maxLength: Option<nat>)
    requires x in all && x in rest
    ensures x !in Kept(all, rest, coeffMin, maxLength)
    ensures Kept(all, rest - {x}, coeffMin, maxLength) ==
      if Abs(all[x]) < coeffMin || (maxLength.Some? && Length(x) > maxLength.value) then Kept(all, rest, coeffMin, maxLength)
      else Kept(all, rest, coeffMin, maxLength)[x := all[x]]
  {
    assert Cut(coeffMin, maxLength, x, all[x]) <==> Abs(all[x]) < coeffMin || (maxLength.Some? && Length(x) > maxLength.value);
    hide Cut;
    assert forall y :: y in Kept(all, rest - {x}, coeffMin, maxLength) <==>
      y in Kept(all, rest, coeffMin, maxLength) || (y == x && !Cut(coeffMin, maxLength, x, all[x]));
  }

  /** The Heisenberg-evolved observable and the magnitude discarded from it so far. */
  class MajoranaSum {
    var terms: Terms
    var dropped: real

    constructor (dropped: real)
      ensures terms == map[] && this.dropped == dropped
    {
      terms := map[];
      this.dropped := dropped;
    }

    /** Add to one coefficient, starting it at zero; every other coefficient stays. */
    method Add(key: Bits, coeff: real)
      modifies this`terms
      ensures terms.Keys == old(terms).Keys + {key}
      ensures forall y :: Coef(terms, y) == Coef(old(terms), y) + if y == key then coeff else 0.0
    {
      if key !in terms {
        terms := terms[key := 0.0];
      }
      terms := terms[key := terms[key] + coeff];
    }

    /** Drop the small and the long terms and bank their magnitude. */
    method Truncate(ghost n: nat, coeffMin: real, maxLength: Option<nat>)
      requires Keys(n, terms)
      modifies this
      ensures terms == Kept(old(terms), map[], coeffMin, maxLength)
      ensures L1(n, CoefOf(old(terms))) == L1(n, CoefOf(terms)) + (dropped - old(dropped))
      ensures dropped >= old(dropped)
    {
      ghost var all := terms;
      var keep: Terms := map[];
      var rest, bank := terms, 0.0;
      L1Empty(n);
      hide L1, Kept, Cut;
      assert keep == Kept(all, rest, coeffMin, maxLength) by { KeptNothing(all, coeffMin, maxLength); }
      while rest != map[]
        invariant terms == all && dropped == old(dropped)
        invariant forall x | x in rest :: x in all && rest[x] == all[x]
        invariant keep == Kept(all, rest, coeffMin, maxLength)
        invariant bank >= 0.0 && L1(n, CoefOf(all)) == L1(n, CoefOf(keep)) + L1(n, CoefOf(rest)) + bank
        decreases |rest|
      {
        var x :| x in rest;
        var c := rest[x];
        L1Without(n, rest, x);
        KeptNext(all, rest, x, coeffMin, maxLength);
        if Abs(c) < coeffMin || (maxLength.Some? && Length(x) > maxLength.value) {
          bank := bank + Abs(c);
        } else {
          L1With(n, keep, x, c);
          keep := keep[x := c];
        }
        FewerTerms(rest, x);
        rest := rest - {x};
      }
      terms := keep;
      dropped := dropped + bank;
    }

    /** The expectation of the sum in the vacuum. */
    method Expectation(ghost n: nat) returns (value: real)
      requires Keys(n, terms)
      ensures value == Value(n, CoefOf(terms), ReadoutOf(n, Vacuum(n)))
    {
      value := 0.0;
      var rest := terms;
      ghost var total := Value(n, CoefOf(terms), ReadoutOf(n, Vacuum(n)));
      ValueEmpty(n, ReadoutOf(n, Vacuum(n)));
      hide Value, VacuumExpectation, Paired, ReadoutOf, Vacuum, CoefOf;
      while rest != map[]
        invariant Keys(n, rest)
        invariant total == value + Value(n, CoefOf(rest), ReadoutOf(n, Vacuum(n)))
        decreases |rest|
      {
        var x :| x in rest;
        ExpectationStep(n, rest, x);
        value := value + rest[x] * VacuumExpectation(x);
        FewerTerms(rest, x);
        rest := rest - {x};
      }
    }
  }

  lemma ExpectationStep(n: nat, rest: Terms, x: Bits)
    requires Keys(n, rest) && x in rest
    ensures |x| % 2 == 0 && Keys(n, rest - {x})
    ensures Value(n, CoefOf(rest), ReadoutOf(n, Vacuum(n))) ==
      rest[x] * VacuumExpectation(x) + Value(n, CoefOf(rest - {x}), ReadoutOf(n, Vacuum(n)))
  {
    VacuumReadoutOf(n, x);
    ValueWithout(n, rest, x, ReadoutOf(n, Vacuum(n)));
  }

  lemma FewerTerms(m: Terms, x: Bits)
    requires x in m
    ensures |m - {x}| < |m|
  {
    assert (m - {x}).Keys == m.Keys - {x};
    assert |(m - {x}).Keys| == |m.Keys| - 1;
  }

  lemma L1With(n: nat, m: Terms, x: Bits, c: real)
    requires |x| == 2 * n && x !in m
    ensures L1(n, CoefOf(m[x := c])) == L1(n, CoefOf(m)) + Abs(c)
  {
    var f, g := Magnitudes(CoefOf(m)), Magnitudes(CoefOf(m[x := c]));
    forall y | |y| == 2 * n && y != x ensures g(y) == f(y) {
      assert Coef(m[x := c], y) == Coef(m, y);
    }
    assert CoefOf(m[x := c])(x) == c && CoefOf(m)(x) == 0.0;
    assert g(x) == Abs(c);
    assert f(x) == 0.0;
    SumChange(2 * n, f, g, x);
    assert SumAll(2 * n, g) == SumAll(2 * n, f) + Abs(c);
  }

  lemma L1Without(n: nat, m: Terms, x: Bits)
    requires |x| == 2 * n && x in m
    ensures L1(n, CoefOf(m)) == L1(n, CoefOf(m - {x})) + Abs(m[x])
  {
    L1With(n, m - {x}, x, m[x]);
    assert (m - {x})[x := m[x]] == m;
  }

  lemma L1Empty(n: nat)
    ensures L1(n, CoefOf(map[])) == 0.0
  {
    var none: Terms := map[];
    var f := Magnitudes(CoefOf(none));
    forall y | |y| == 2 * n ensures f(y) == 0.0 {
      assert CoefOf(none)(y) == 0.0;
      assert f(y) == Abs(CoefOf(none)(y));
    }
    SumOfZero([], 2 * n, f);
  }

  lemma ValueWithout(n: nat, m: Terms, x: Bits, r: Bits -> real)
    requires |x| == 2 * n && x in m
    ensures Value(n, CoefOf(m), r) == Value(n, CoefOf(m - {x}), r) + m[x] * r(x)
  {
    TimesZero(r(x));
    var f, g := Product(CoefOf(m - {x}), r), Product(CoefOf(m), r);
    forall y | |y| == 2 * n && y != x ensures g(y) == f(y) {
      assert Coef(m - {x}, y) == Coef(m, y);
    }
    SumChange(2 * n, f, g, x);
  }

  lemma ValueEmpty(n: nat, r: Bits -> real)
    ensures Value(n, CoefOf(map[]), r) == 0.0
  {
    var none: Terms := map[];
    var f := Product(CoefOf(none), r);
    forall y | |y| == 2 * n ensures f(y) == 0.0 {
      TimesZero(r(y));
      assert CoefOf(none)(y) == 0.0;
      assert f(y) == Times(CoefOf(none)(y), r(y)) == Times(0.0, r(y));
    }
    SumOfZero([], 2 * n, f);
  }

  /** Every monomial's expectation in one state. */
  ghost function ReadoutOf(n: nat, psi: Vector): Bits -> real {
    b => if |b| == 2 * n then Readout(n, psi, b) else 0.0
  }

  lemma VacuumReadoutOf(n: nat, x: Bits)
    requires |x| == 2 * n
    ensures ReadoutOf(n, Vacuum(n))(x) == VacuumExpectation(x)
  {
    VacuumReadout(n, x);
  }

  // ---- truncation and its certificate

  /** What truncation discards bounds what it changes, in every state of unit mass. */
  lemma TruncationBound(n: nat, before: Terms, after: Terms, psi: Vector)
    requires Mass(n, psi) == 1.0
    requires forall x | x in after :: x in before && after[x] == before[x]
    ensures Abs(Value(n, CoefOf(before), ReadoutOf(n, psi)) - Value(n, CoefOf(after), ReadoutOf(n, psi))) <=
      L1(n, CoefOf(before)) - L1(n, CoefOf(after))
  {
    var r := ReadoutOf(n, psi);
    var fb, fa := Product(CoefOf(before), r), Product(CoefOf(after), r);
    var ab, aa := Magnitudes(CoefOf(before)), Magnitudes(CoefOf(after));
    forall x | |x| == 2 * n
      ensures PlusOf(fb, ScaledBy(-1.0, fa))(x) <= PlusOf(ab, ScaledBy(-1.0, aa))(x)
      ensures PlusOf(fa, ScaledBy(-1.0, fb))(x) <= PlusOf(ab, ScaledBy(-1.0, aa))(x)
    {
      ReadoutBound(n, psi, x);
      BoundedTerm(Coef(before, x), r(x));
    }
    SumAtMost([], 2 * n, PlusOf(fb, ScaledBy(-1.0, fa)), PlusOf(ab, ScaledBy(-1.0, aa)));
    SumAtMost([], 2 * n, PlusOf(fa, ScaledBy(-1.0, fb)), PlusOf(ab, ScaledBy(-1.0, aa)));
    TotalPlus(2 * n, fb, ScaledBy(-1.0, fa));
    TotalPlus(2 * n, fa, ScaledBy(-1.0, fb));
    TotalPlus(2 * n, ab, ScaledBy(-1.0, aa));
    TotalScaled(2 * n, -1.0, fa);
    TotalScaled(2 * n, -1.0, fb);
    TotalScaled(2 * n, -1.0, aa);
  }

  lemma BoundedTerm(c: real, r: real)
    requires -1.0 <= r <= 1.0
    ensures -Abs(c) <= Times(c, r) <= Abs(c)
  {
    if c >= 0.0 {
      TimesNonNegative(c, 1.0 - r);
      TimesNonNegative(c, 1.0 + r);
    } else {
      TimesNonNegative(-c, 1.0 - r);
      TimesNonNegative(-c, 1.0 + r);
    }
  }
}
