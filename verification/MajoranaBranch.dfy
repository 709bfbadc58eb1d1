/**
  One rotation of a whole sum: every term is drained into the new sum, alone or
  as a pair, and the new sum reads as the old one does in the rotated state.
*/
module MajoranaBranch {
  import opened Linear
  import opened Bits
  import opened Majorana
  import opened MajoranaFock
  import opened MajoranaEngine

  // ---- one rotation of the whole sum

  /** What the sum under construction becomes when one more term of the old sum is drained. */
  ghost function Contributed(n: nat, out: Terms, c: Bits, cos: real, sin: real, x: Bits, coeff: real): Terms
    requires |c| == 2 * n && |x| == 2 * n
  {
    if !Moves(n, c, x) then Added(out, x, coeff) else
      var kept := if cos != 0.0 then Added(out, x, Times(coeff, cos)) else out;
      if sin != 0.0 then Added(kept, Xor(c, x), Times(Times(coeff, sin), SignOf(n, c, x))) else kept
  }

  /** Whether the rotated sum lists a monomial. */
  ghost predicate Lands(n: nat, done: Terms, c: Bits, cos: real, sin: real, y: Bits)
    requires |c| == 2 * n
  {
    if Moves(n, c, y) then (cos != 0.0 && y in done) || (sin != 0.0 && Xor(c, y) in done) else y in done
  }

  ghost predicate BranchedAt(n: nat, done: Terms, out: Terms, c: Bits, cos: real, sin: real, y: Bits)
    requires |c| == 2 * n
  {
    Coef(out, y) == Rotated(n, CoefOf(done), c, cos, sin)(y) && (y in out <==> Lands(n, done, c, cos, sin, y))
  }

  /** `out` is the rotated image of `done`, coefficient by coefficient and key by key. */
  ghost predicate Branched(n: nat, done: Terms, out: Terms, c: Bits, cos: real, sin: real)
    requires |c| == 2 * n
  {
    Keys(n, out) && forall y | |y| == 2 * n :: BranchedAt(n, done, out, c, cos, sin, y)
  }

  lemma BranchedNothing(n: nat, c: Bits, cos: real, sin: real)
    requires |c| == 2 * n
    ensures Branched(n, map[], map[], c, cos, sin)
  {
    forall y | |y| == 2 * n ensures BranchedAt(n, map[], map[], c, cos, sin, y) {
      TimesNil(cos);
      TimesNil(Times(sin, if Moves(n, c, y) then -SignOf(n, c, y) else 0.0));
    }
  }

  lemma TimesNil(x: real)
    ensures Times(x, 0.0) == 0.0
  {
  }

  /** What a term of coefficient `coeff` at x adds to the coefficient at y. */
  ghost function Share(n: nat, c: Bits, cos: real, sin: real, x: Bits, coeff: real, y: Bits): real
    requires |c| == |x| == |y| == 2 * n
  {
    if !Moves(n, c, x) then (if y == x then coeff else 0.0)
    else if y == x then Times(cos, coeff)
    else if y == Xor(c, x) then Times(Times(sin, SignOf(n, c, x)), coeff)
    else 0.0
  }

  lemma ImageDiffers(n: nat, c: Bits, x: Bits)
    requires |c| == |x| == 2 * n && Moves(n, c, x)
    ensures Xor(c, x) != x
  {
    MovesBack(n, c, x);
    hide SignOf, Moves, Xor;
    assert SignOf(n, c, Xor(c, x)) == -SignOf(n, c, x);
  }

  lemma ContributedAt(n: nat, out: Terms, c: Bits, cos: real, sin: real, x: Bits, coeff: real, y: Bits)
    requires |c| == |x| == |y| == 2 * n
    ensures var out' := Contributed(n, out, c, cos, sin, x, coeff);
      && Coef(out', y) == Coef(out, y) + Share(n, c, cos, sin, x, coeff, y)
      && (y in out' <==> y in out || (if Moves(n, c, x) then (y == x && cos != 0.0) || (y == Xor(c, x) && sin != 0.0) else y == x))
  {
    hide Moves, SignOf, Xor, Added, Times;
    if !Moves(n, c, x) {
      CoefAdded(out, x, coeff, y);
    } else {
      ImageDiffers(n, c, x);
      var s, z := SignOf(n, c, x), Xor(c, x);
      var kept := if cos != 0.0 then Added(out, x, Times(coeff, cos)) else out;
      assert Contributed(n, out, c, cos, sin, x, coeff) == if sin != 0.0 then Added(kept, z, Times(Times(coeff, sin), s)) else kept;
      CoefAdded(out, x, Times(coeff, cos), y);
      CoefAdded(kept, z, Times(Times(coeff, sin), s), y);
      StepTimes(cos, sin, s, coeff);
      assert Coef(kept, y) == Coef(out, y) + if y == x then Times(cos, coeff) else 0.0;
    }
  }

  lemma RotatedStep(n: nat, done: Terms, c: Bits, cos: real, sin: real, x: Bits, coeff: real, y: Bits)
    requires |c| == |x| == |y| == 2 * n && x !in done
    ensures Rotated(n, CoefOf(done[x := coeff]), c, cos, sin)(y) ==
      Rotated(n, CoefOf(done), c, cos, sin)(y) + Share(n, c, cos, sin, x, coeff, y)
  {
    MovesBack(n, c, x);
    MovesBack(n, c, y);
    hide Moves, SignOf, Xor, Times;
    var more := done[x := coeff];
    assert Coef(more, y) == if y == x then coeff else Coef(done, y);
    assert Coef(more, Xor(c, y)) == if Xor(c, y) == x then coeff else Coef(done, Xor(c, y));
    if Moves(n, c, x) {
      ImageDiffers(n, c, x);
      TimesNil(cos);
      TimesNil(Times(sin, SignOf(n, c, x)));
    }
  }

  lemma BranchStepAt(n: nat, done: Terms, out: Terms, c: Bits, cos: real, sin: real, x: Bits, coeff: real, y: Bits)
    requires |c| == |x| == |y| == 2 * n && x !in done && BranchedAt(n, done, out, c, cos, sin, y)
    ensures BranchedAt(n, done[x := coeff], Contributed(n, out, c, cos, sin, x, coeff), c, cos, sin, y)
  {
    MovesBack(n, c, x);
    MovesBack(n, c, y);
    ContributedAt(n, out, c, cos, sin, x, coeff, y);
    RotatedStep(n, done, c, cos, sin, x, coeff, y);
    hide Moves, SignOf, Xor, Contributed, Rotated, Share, Coef;
  }

  lemma StepTimes(cos: real, sin: real, s: real, coeff: real)
    ensures Times(cos, coeff) == Times(coeff, cos) && Times(Times(sin, s), coeff) == Times(Times(coeff, sin), s)
    ensures Times(Times(sin, s), 0.0) == 0.0
    ensures cos == 0.0 ==> Times(cos, coeff) == 0.0
    ensures sin == 0.0 ==> Times(Times(sin, s), coeff) == 0.0
  {
    assert (sin * s) * coeff == coeff * sin * s;
  }

  lemma BranchStep(n: nat, done: Terms, out: Terms, c: Bits, cos: real, sin: real, x: Bits, coeff: real)
    requires |c| == |x| == 2 * n && x !in done && Branched(n, done, out, c, cos, sin)
    ensures Branched(n, done[x := coeff], Contributed(n, out, c, cos, sin, x, coeff), c, cos, sin)
  {
    hide BranchedAt, Moves, SignOf;
    forall y | |y| == 2 * n
      ensures BranchedAt(n, done[x := coeff], Contributed(n, out, c, cos, sin, x, coeff), c, cos, sin, y)
    {
      BranchStepAt(n, done, out, c, cos, sin, x, coeff, y);
    }
  }

  /** Rotating by nothing changes nothing. */
  lemma BranchedStill(n: nat, m: Terms, c: Bits)
    requires |c| == 2 * n && Keys(n, m)
    ensures Branched(n, m, m, c, 1.0, 0.0)
  {
    forall y | |y| == 2 * n ensures BranchedAt(n, m, m, c, 1.0, 0.0, y) {
      if Moves(n, c, y) {
        StepTimes(1.0, 0.0, -SignOf(n, c, y), Coef(m, Xor(c, y)));
      }
    }
  }

  method Contribute(ghost n: nat, out: MajoranaSum, c: Bits, cos: real, sin: real, key: Bits, coeff: real)
    requires |c| == |key| == 2 * n
    modifies out`terms
    ensures out.terms == Contributed(n, old(out.terms), c, cos, sin, key, coeff)
  {
    hide Added, Coef, Times, Commutes, MulPhase, Xor;
    ghost var before := out.terms;
    if Commutes(key, c) {
      out.Add(key, coeff);
      AddedExactly(before, out.terms, key, coeff);
    } else {
      var (k2, s) := RotateBy(key, c);
      if cos != 0.0 {
        out.Add(key, Times(coeff, cos));
        AddedExactly(before, out.terms, key, Times(coeff, cos));
      }
      ghost var kept := out.terms;
      if sin != 0.0 {
        out.Add(k2, Times(Times(coeff, sin), s));
        AddedExactly(kept, out.terms, k2, Times(Times(coeff, sin), s));
      }
    }
  }

  /** O becomes U* O U for one rotation U. */
  method Branch(ghost n: nat, sum: MajoranaSum, rot: Rot)
    requires rot.Valid(n) && Keys(n, sum.terms)
    modifies sum
    ensures Branched(n, old(sum.terms), sum.terms, rot.key, rot.Cos(), rot.Sin())
    ensures Keys(n, sum.terms) && sum.dropped == old(sum.dropped)
  {
    if rot.still {
      BranchedStill(n, sum.terms, rot.key);
      return;
    }
    var c, cos, sin := rot.key, rot.Cos(), rot.Sin();
    var out := new MajoranaSum(sum.dropped);
    ghost var all, done := sum.terms, map[];
    BranchedNothing(n, c, cos, sin);
    hide Branched, Contributed;
    while sum.terms != map[]
      invariant fresh(out) && out.dropped == sum.dropped == old(sum.dropped)
      invariant Keys(n, sum.terms)
      invariant Branched(n, done, out.terms, c, cos, sin)
      invariant Drained(all, done, sum.terms)
      decreases |sum.terms|
    {
      var key :| key in sum.terms;
      var coeff := sum.terms[key];
      ghost var before := out.terms;
      FewerTerms(sum.terms, key);
      DrainOne(all, done, sum.terms, key);
      sum.terms := sum.terms - {key};
      Contribute(n, out, c, cos, sin, key, coeff);
      BranchStep(n, done, before, c, cos, sin, key, coeff);
      done := done[key := coeff];
    }
    DrainedAll(all, done);
    BranchedKeys(n, all, out.terms, c, cos, sin);
    sum.terms, sum.dropped := out.terms, out.dropped;
  }

  lemma BranchedKeys(n: nat, done: Terms, out: Terms, c: Bits, cos: real, sin: real)
    requires |c| == 2 * n && Branched(n, done, out, c, cos, sin)
    ensures Keys(n, out)
  {
  }

  /** `done` and `rest` split `all` between them. */
  ghost predicate Drained(all: Terms, done: Terms, rest: Terms) {
    (forall x :: x in all <==> x in done || x in rest) &&
    (forall x | x in done :: x !in rest && done[x] == all[x]) &&
    (forall x | x in rest :: rest[x] == all[x])
  }

  lemma DrainOne(all: Terms, done: Terms, rest: Terms, x: Bits)
    requires Drained(all, done, rest) && x in rest
    ensures x !in done && Drained(all, done[x := rest[x]], rest - {x})
  {
  }

  lemma DrainedAll(all: Terms, done: Terms)
    requires Drained(all, done, map[])
    ensures done == all
  {
  }

  // ---- what the states do

  ghost predicate AllValid(n: nat, rots: seq<Rot>) {
    forall i | 0 <= i < |rots| :: rots[i].Valid(n)
  }

  /** The state after the rotations, the first of them applied first. */
  ghost function Turned(n: nat, rots: seq<Rot>, psi: Vector): Vector
    requires AllValid(n, rots)
  {
    if rots == [] then psi else
      var last := rots[|rots| - 1];
      Rotor(n, last.key, last.u, last.v, Turned(n, rots[..|rots| - 1], psi))
  }

  lemma {:induction false} TurnedKeepsMass(n: nat, rots: seq<Rot>, psi: Vector)
    requires AllValid(n, rots)
    ensures Mass(n, Turned(n, rots, psi)) == Mass(n, psi)
  {
    hide Mass, Rotor;
    if rots == [] {
    } else {
      var last := rots[|rots| - 1];
      TurnedKeepsMass(n, rots[..|rots| - 1], psi);
      RotorKeepsMass(n, last.key, last.u, last.v, Turned(n, rots[..|rots| - 1], psi));
    }
  }

  /** One rotation of the sum answers for one rotation of the state. */
  lemma BranchedValue(n: nat, before: Terms, after: Terms, rot: Rot, psi: Vector)
    requires rot.Valid(n) && Branched(n, before, after, rot.key, rot.Cos(), rot.Sin())
    ensures Value(n, CoefOf(after), ReadoutOf(n, psi)) ==
      Value(n, CoefOf(before), ReadoutOf(n, Rotor(n, rot.key, rot.u, rot.v, psi)))
  {
    hide Rotated, Pulled, Readout, Product, Rotor, ReadoutOf;
    var c, cos, sin := rot.key, rot.Cos(), rot.Sin();
    var r, r' := ReadoutOf(n, psi), ReadoutOf(n, Rotor(n, c, rot.u, rot.v, psi));
    forall y | |y| == 2 * n
      ensures Product(CoefOf(after), r)(y) == Product(Rotated(n, CoefOf(before), c, cos, sin), r)(y)
      ensures Product(CoefOf(before), Pulled(n, r, c, cos, sin))(y) == Product(CoefOf(before), r')(y)
    {
      assert BranchedAt(n, before, after, c, cos, sin, y);
      SameFactors(CoefOf(after), Rotated(n, CoefOf(before), c, cos, sin), r, y);
      PulledReadout(n, rot, psi, y);
      SameFactors(Pulled(n, r, c, cos, sin), r', CoefOf(before), y);
    }
    TotalSame(2 * n, Product(CoefOf(after), r), Product(Rotated(n, CoefOf(before), c, cos, sin), r));
    RotatedValue(n, CoefOf(before), r, c, cos, sin);
    TotalSame(2 * n, Product(CoefOf(before), Pulled(n, r, c, cos, sin)), Product(CoefOf(before), r'));
  }

  lemma SameFactors(f: Bits -> real, g: Bits -> real, r: Bits -> real, y: Bits)
    requires f(y) == g(y)
    ensures Product(f, r)(y) == Product(g, r)(y) && Product(r, f)(y) == Product(r, g)(y)
  {
  }

  /** The rotated state is read like the pulled-back readout. */
  lemma PulledReadout(n: nat, rot: Rot, psi: Vector, y: Bits)
    requires rot.Valid(n) && |y| == 2 * n
    ensures Pulled(n, ReadoutOf(n, psi), rot.key, rot.Cos(), rot.Sin())(y) ==
      ReadoutOf(n, Rotor(n, rot.key, rot.u, rot.v, psi))(y)
  {
    PulledReadoutAt(n, rot.key, rot.u, rot.v, rot.Cos(), rot.Sin(), psi, y);
    hide Readout, Rotor, Pulled, Moves, SignOf;
  }

  lemma PulledReadoutAt(n: nat, c: Bits, u: real, v: real, cos: real, sin: real, psi: Vector, y: Bits)
    requires |c| == |y| == 2 * n && u * u + v * v == 1.0 && cos == u * u - v * v && sin == 2.0 * (u * v)
    ensures Pulled(n, ReadoutOf(n, psi), c, cos, sin)(y) == Readout(n, Rotor(n, c, u, v, psi), y)
  {
    hide Readout, Rotor, Pullback, Pulled, Moves, SignOf, ReadoutOf;
    RotationRule(n, c, u, v, psi, y);
    PullbackTimes(n, psi, c, cos, sin, y);
  }

  lemma PullbackTimes(n: nat, psi: Vector, c: Bits, cos: real, sin: real, y: Bits)
    requires |c| == |y| == 2 * n
    ensures Pulled(n, ReadoutOf(n, psi), c, cos, sin)(y) == Pullback(n, psi, c, cos, sin, y)
  {
    hide Readout, MulPhase, Xor, Commutes;
    TimesThree(sin, RotateBy(y, c).1, Readout(n, psi, Xor(c, y)));
  }

  lemma TimesThree(a: real, b: real, c: real)
    ensures Times(Times(a, b), c) == a * b * c
  {
  }

  /** The squares of the coefficients add up to the same after a rotation. */
  lemma BranchedL2(n: nat, before: Terms, after: Terms, rot: Rot)
    requires rot.Valid(n) && Branched(n, before, after, rot.key, rot.Cos(), rot.Sin())
    ensures L2(n, CoefOf(after)) == L2(n, CoefOf(before))
  {
    var c, cos, sin := rot.key, rot.Cos(), rot.Sin();
    DoubleAngle(rot.u, rot.v);
    hide Rotated, Product;
    RotatedL2(n, CoefOf(before), c, cos, sin);
    var f, g := CoefOf(after), Rotated(n, CoefOf(before), c, cos, sin);
    forall y | |y| == 2 * n ensures Product(f, f)(y) == Product(g, g)(y) {
      assert BranchedAt(n, before, after, c, cos, sin, y);
      SameFactors(f, g, f, y);
      SameFactors(f, g, g, y);
    }
    TotalSame(2 * n, Product(f, f), Product(g, g));
  }

  lemma DoubleAngle(u: real, v: real)
    requires u * u + v * v == 1.0
    ensures Times(u * u - v * v, u * u - v * v) + Times(2.0 * (u * v), 2.0 * (u * v)) == 1.0
  {
    var p, q := u * u, v * v;
    assert (u * v) * (u * v) == p * q;
    assert (p - q) * (p - q) + 4.0 * (p * q) == (p + q) * (p + q);
  }

  // ---- quarter turns

  /** A rotation by a multiple of a quarter turn. */
  predicate Quarter(rot: Rot) { rot.Cos() == 0.0 || rot.Sin() == 0.0 }

  /** How many terms have coefficients of magnitude a. */
  ghost function Tally(m: Terms, a: real): nat {
    |WithMagnitude(m, a)|
  }

  ghost function WithMagnitude(m: Terms, a: real): set<Bits> {
    set x | x in m && Abs(m[x]) == a
  }

  /** The same number of terms, and the same magnitudes as often. */
  ghost predicate SameMagnitudes(before: Terms, after: Terms) {
    |after| == |before| && forall a :: Tally(after, a) == Tally(before, a)
  }

  ghost function Relabel(n: nat, rot: Rot): Bits -> Bits
    requires |rot.key| == 2 * n
  {
    x => if Moves(n, rot.key, x) && rot.Sin() != 0.0 then Xor(rot.key, x) else x
  }

  lemma RelabelTwice(n: nat, rot: Rot, x: Bits)
    requires |rot.key| == |x| == 2 * n
    ensures |Relabel(n, rot)(x)| == 2 * n && Relabel(n, rot)(Relabel(n, rot)(x)) == x
  {
    MovesBack(n, rot.key, x);
    hide Moves, SignOf, Xor;
  }

  lemma UnitFactor(cos: real, sin: real, f: real, g: real, s: real)
    requires Times(cos, cos) + Times(sin, sin) == 1.0 && (s == 1.0 || s == -1.0)
    ensures cos == 0.0 ==> Abs(Times(cos, f) + Times(Times(sin, s), g)) == Abs(g)
    ensures sin == 0.0 ==> Abs(Times(cos, f) + Times(Times(sin, s), g)) == Abs(f)
    ensures !(cos == 0.0 && sin == 0.0)
  {
    if cos == 0.0 {
      UnitSquare(sin);
      assert (sin * s) * g == g || (sin * s) * g == -g;
    }
    if sin == 0.0 {
      UnitSquare(cos);
    }
  }

  lemma UnitSquare(x: real)
    requires x * x == 1.0
    ensures x == 1.0 || x == -1.0
  {
    assert (x - 1.0) * (x + 1.0) == 0.0;
  }

  lemma UnitAngle(rot: Rot, n: nat)
    requires rot.Valid(n)
    ensures Times(rot.Cos(), rot.Cos()) + Times(rot.Sin(), rot.Sin()) == 1.0
  {
    DoubleAngle(rot.u, rot.v);
  }

  /** A quarter turn moves a term to its new label whole, up to sign. */
  lemma QuarterAt(n: nat, before: Terms, after: Terms, rot: Rot, y: Bits)
    requires rot.Valid(n) && Quarter(rot) && |y| == 2 * n && BranchedAt(n, before, after, rot.key, rot.Cos(), rot.Sin(), y)
    ensures y in after <==> Relabel(n, rot)(y) in before
    ensures y in after ==> Abs(after[y]) == Abs(before[Relabel(n, rot)(y)])
  {
    var c, cos, sin := rot.key, rot.Cos(), rot.Sin();
    UnitAngle(rot, n);
    MovesBack(n, c, y);
    hide Moves, SignOf, Xor, Times, Rot.Cos, Rot.Sin;
    if Moves(n, c, y) {
      UnitFactor(cos, sin, Coef(before, y), Coef(before, Xor(c, y)), -SignOf(n, c, y));
    }
  }

  lemma {:induction false} ImageSize(s: set<Bits>, t: set<Bits>, f: Bits -> Bits)
    requires forall x | x in s :: f(x) in t && f(f(x)) == x
    requires forall y | y in t :: f(y) in s && f(f(y)) == y
    ensures |s| == |t|
    decreases s
  {
    if s == {} {
      if y :| y in t {
        assert f(y) in s;
      }
    } else {
      var x :| x in s;
      ImageSize(s - {x}, t - {f(x)}, f);
    }
  }

  /** A quarter turn keeps the number of terms and the magnitudes of the coefficients. */
  lemma QuarterTurn(n: nat, before: Terms, after: Terms, rot: Rot)
    requires rot.Valid(n) && Quarter(rot) && Keys(n, before)
    requires Branched(n, before, after, rot.key, rot.Cos(), rot.Sin())
    ensures SameMagnitudes(before, after)
  {
    var f := Relabel(n, rot);
    hide Relabel, BranchedAt;
    forall y | |y| == 2 * n
      ensures |f(y)| == 2 * n && f(f(y)) == y
      ensures y in after <==> f(y) in before
      ensures y in after ==> Abs(after[y]) == Abs(before[f(y)])
    {
      RelabelTwice(n, rot, y);
      QuarterAt(n, before, after, rot, y);
    }
    ImageSize(before.Keys, after.Keys, f);
    forall a ensures Tally(after, a) == Tally(before, a) {
      ImageSize(WithMagnitude(before, a), WithMagnitude(after, a), f);
    }
  }
}
