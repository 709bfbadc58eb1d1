/**
  The truncated displacement and squeeze operators on one fiber of Fock amplitudes:
  columns built from earlier columns in two or three buffers that are swapped, and
  the two-dimensional matrices they are proved to apply.
*/
module CvFibers {
  import opened Linear
  import opened ComplexNumbers

  /** Square roots of the natural numbers. */
  ghost predicate Rooted(root: nat -> real) {
    forall m: nat :: RootAt(root, m)
  }

  ghost predicate RootAt(root: nat -> real, m: nat) {
    root(m) >= 0.0 && Times(root(m), root(m)) == m as real
  }

  lemma RootPositive(root: nat -> real, m: nat)
    requires Rooted(root)
    ensures (m > 0 <==> root(m) > 0.0) && (m == 0 ==> root(m) == 0.0) && (m == 1 ==> root(m) == 1.0)
  {
    assert RootAt(root, m);
    TimesSquare(root(m));
    if m == 1 {
      UnitRoot(root(m));
    }
  }

  lemma UnitRoot(x: real)
    requires x >= 0.0 && Times(x, x) == 1.0
    ensures x == 1.0
  {
    assert (x - 1.0) * (x + 1.0) == 0.0;
    if x > 1.0 {
      TimesPositive(x - 1.0, x + 1.0);
    } else if x < 1.0 {
      TimesPositive(1.0 - x, x + 1.0);
    }
  }

  function Neg(a: Complex): Complex { C(-a.re, -a.im) }

  function Reciprocal(x: real): real { if x == 0.0 then 0.0 else 1.0 / x }

  lemma ReciprocalCancels(x: real)
    requires x != 0.0
    ensures Times(x, Reciprocal(x)) == 1.0
  {
  }

  // ---- displacement

  /** What a displacement is made of: exp(-|alpha|^2 / 2), alpha, and the roots. */
  datatype Displacement = Displacement(start: real, alpha: Complex, root: nat -> real) {
    /** The matrix element in row m and column n. */
    function At(m: nat, n: nat): Complex
      decreases n, m
    {
      if n == 0 then
        if m == 0 then C(start, 0.0) else Scale(Reciprocal(root(m)), Mul(At(m - 1, 0), alpha))
      else
        Scale(Reciprocal(root(n)), Add(Neg(Mul(Conj(alpha), At(m, n - 1))), if m == 0 then ZERO else Scale(root(m), At(m - 1, n - 1))))
    }
  }

  /** The first k terms of row m applied to the input. */
  function DRow(d: Displacement, input: seq<Complex>, m: nat, k: nat): Complex
    requires k <= |input|
  {
    if k == 0 then ZERO else Add(DRow(d, input, m, k - 1), Mul(d.At(m, k - 1), input[k - 1]))
  }

  lemma AddZero(a: Complex)
    ensures Add(ZERO, a) == a && Add(a, ZERO) == a
  {
  }

  lemma MulNothing(a: Complex)
    ensures Mul(a, ZERO) == ZERO
  {
    hide Mul;
    MulCommutes(a, ZERO);
    MulZero(a);
  }

  /** out[m] += column[m] * amp, for every m. */
  method Accumulate(out: array<Complex>, column: array<Complex>, amp: Complex)
    requires column != out && column.Length == out.Length
    modifies out
    ensures forall m | 0 <= m < out.Length :: out[m] == Add(old(out[m]), Mul(column[m], amp))
  {
    hide Add, Mul;
    for m := 0 to out.Length
      invariant forall j | 0 <= j < m :: out[j] == Add(old(out[j]), Mul(column[j], amp))
      invariant forall j | m <= j < out.Length :: out[j] == old(out[j])
    {
      out[m] := Add(out[m], Mul(column[m], amp));
    }
  }

  method Clear(out: array<Complex>)
    modifies out
    ensures forall m | 0 <= m < out.Length :: out[m] == ZERO
  {
    for m := 0 to out.Length
      invariant forall j | 0 <= j < m :: out[j] == ZERO
    {
      out[m] := ZERO;
    }
  }

  method DisplacementStart(d: Displacement, column: array<Complex>)
    requires column.Length > 0 && Rooted(d.root)
    modifies column
    ensures forall m: nat | m < column.Length :: column[m] == d.At(m, 0)
  {
    hide Mul, Scale, Reciprocal;
    column[0] := C(d.start, 0.0);
    for m := 1 to column.Length
      invariant forall j: nat | j < m :: column[j] == d.At(j, 0)
    {
      column[m] := Scale(Reciprocal(d.root(m)), Mul(column[m - 1], d.alpha));
    }
  }

  method DisplacementNext(d: Displacement, prev: array<Complex>, column: array<Complex>, n: nat)
    requires n > 0 && prev != column && prev.Length == column.Length && Rooted(d.root)
    requires forall m: nat | m < prev.Length :: prev[m] == d.At(m, n - 1)
    modifies column
    ensures forall m: nat | m < column.Length :: column[m] == d.At(m, n)
  {
    hide Mul, Scale, Reciprocal, Add, Neg, Conj;
    var factor := Reciprocal(d.root(n));
    for m := 0 to column.Length
      invariant forall j: nat | j < m :: column[j] == d.At(j, n)
    {
      var t := Neg(Mul(Conj(d.alpha), prev[m]));
      if m > 0 {
        t := Add(t, Scale(d.root(m), prev[m - 1]));
      }
      AddZero(t);
      column[m] := Scale(factor, t);
    }
  }

  /** Apply the displacement to one fiber; the output may be longer than the input. */
  method DisplaceFiber(d: Displacement, input: seq<Complex>, out: array<Complex>)
    requires Rooted(d.root) && 0 < |input| <= out.Length
    modifies out
    ensures forall m: nat | m < out.Length :: out[m] == DRow(d, input, m, |input|)
  {
    hide Add, Mul, Displacement.At;
    Clear(out);
    var prev := new Complex[out.Length](_ => ZERO);
    DisplacementStart(d, prev);
    Accumulate(out, prev, input[0]);
    var column := new Complex[out.Length](_ => ZERO);
    var n := 1;
    while n < |input|
      invariant 1 <= n <= |input| && fresh(prev) && fresh(column) && prev != column && prev.Length == column.Length == out.Length
      invariant forall m: nat | m < out.Length :: prev[m] == d.At(m, n - 1)
      invariant forall m: nat | m < out.Length :: out[m] == DRow(d, input, m, n)
    {
      DisplacementNext(d, prev, column, n);
      if input[n] != ZERO {
        Accumulate(out, column, input[n]);
      } else {
        forall m: nat | m < out.Length ensures DRow(d, input, m, n + 1) == DRow(d, input, m, n) {
          MulNothing(d.At(m, n));
          AddZero(DRow(d, input, m, n));
        }
      }
      prev, column := column, prev;
      n := n + 1;
    }
  }

  // ---- what the displacement matrix is

  /** Displacing by nothing is the identity. */
  lemma {:induction false} NoDisplacement(d: Displacement, m: nat, n: nat)
    requires Rooted(d.root) && d.alpha == ZERO && d.start == 1.0
    ensures d.At(m, n) == if m == n then ONE else ZERO
    decreases n, m
  {
    hide Mul, Scale, Add, Neg, Conj, Reciprocal;
    RootPositive(d.root, m);
    RootPositive(d.root, n);
    if n == 0 {
      if m > 0 {
        NoDisplacement(d, m - 1, 0);
        MulNothing(d.At(m - 1, 0));
        ScaleNothing(Reciprocal(d.root(m)));
      }
    } else {
      ConjOfZero();
      MulZero(d.At(m, n - 1));
      NegOfZero();
      if m > 0 {
        NoDisplacement(d, m - 1, n - 1);
        ScaleNothing(d.root(m));
        AddZero(Scale(d.root(m), d.At(m - 1, n - 1)));
      } else {
        AddZero(ZERO);
      }
      ScaleNothing(Reciprocal(d.root(n)));
      if m == n {
        ScaleCancels(d.root(n));
      }
    }
  }

  lemma ScaleNothing(t: real)
    ensures Scale(t, ZERO) == ZERO
  {
  }

  lemma ConjOfZero()
    ensures Conj(ZERO) == ZERO
  {
  }

  lemma NegOfZero()
    ensures Neg(ZERO) == ZERO
  {
  }

  lemma ScaleCancels(t: real)
    requires t != 0.0
    ensures Scale(Reciprocal(t), Scale(t, ONE)) == ONE
  {
    ReciprocalCancels(t);
  }

  lemma ScaleBack(t: real, a: Complex)
    requires t != 0.0
    ensures Scale(t, Scale(Reciprocal(t), a)) == a
  {
    ReciprocalCancels(t);
    UndoScale(t, Reciprocal(t), a.re);
    UndoScale(t, Reciprocal(t), a.im);
  }

  lemma UndoScale(t: real, q: real, x: real)
    requires Times(t, q) == 1.0
    ensures t * (q * x) == x
  {
    assert t * (q * x) == (t * q) * x;
  }

  lemma ScaleInjective(t: real, a: Complex, b: Complex)
    requires t > 0.0 && Scale(t, a) == Scale(t, b)
    ensures a == b
  {
    SameFactor(t, a.re, b.re);
    SameFactor(t, a.im, b.im);
  }

  lemma SameFactor(t: real, x: real, y: real)
    requires t > 0.0 && t * x == t * y
    ensures x == y
  {
    assert t * (x - y) == 0.0;
    if x > y {
      TimesPositive(t, x - y);
    } else if y > x {
      TimesPositive(t, y - x);
    }
  }

  /** The recurrence along a column, with the root on the left. */
  lemma ColumnRule(d: Displacement, m: nat, n: nat)
    requires Rooted(d.root) && n > 0
    ensures Scale(d.root(n), d.At(m, n)) ==
      Add(Neg(Mul(Conj(d.alpha), d.At(m, n - 1))), if m == 0 then ZERO else Scale(d.root(m), d.At(m - 1, n - 1)))
  {
    hide Mul, Scale, Add, Neg, Conj, Reciprocal;
    RootPositive(d.root, n);
    ScaleBack(d.root(n), Add(Neg(Mul(Conj(d.alpha), d.At(m, n - 1))), if m == 0 then ZERO else Scale(d.root(m), d.At(m - 1, n - 1))));
  }

  // complex numbers as a module over the reals

  lemma ScaleTwice(s: real, t: real, a: Complex)
    ensures Scale(s, Scale(t, a)) == Scale(Times(s, t), a) && Scale(s, Scale(t, a)) == Scale(t, Scale(s, a))
  {
    assert s * (t * a.re) == (s * t) * a.re && t * (s * a.re) == (s * t) * a.re;
    assert s * (t * a.im) == (s * t) * a.im && t * (s * a.im) == (s * t) * a.im;
  }

  lemma ScaleAdd(s: real, a: Complex, b: Complex)
    ensures Scale(s, Add(a, b)) == Add(Scale(s, a), Scale(s, b)) && Scale(s, Neg(a)) == Neg(Scale(s, a))
  {
  }

  lemma ScaleMul(s: real, a: Complex, b: Complex)
    ensures Scale(s, Mul(a, b)) == Mul(a, Scale(s, b))
  {
    assert s * (a.re * b.re - a.im * b.im) == a.re * (s * b.re) - a.im * (s * b.im);
    assert s * (a.re * b.im + a.im * b.re) == a.re * (s * b.im) + a.im * (s * b.re);
  }

  lemma MulNeg(a: Complex, b: Complex)
    ensures Mul(a, Neg(b)) == Neg(Mul(a, b))
  {
  }

  lemma MulSwap(a: Complex, b: Complex, c: Complex)
    ensures Mul(a, Mul(b, c)) == Mul(b, Mul(a, c))
  {
    hide Mul;
    MulAssociative(a, b, c);
    MulAssociative(b, a, c);
    MulCommutes(a, b);
  }

  /** The squared distance between row and column, read off two neighbouring elements. */
  lemma Balance(d: Displacement, m: nat, n: nat)
    requires Rooted(d.root) && RowRule(d, m, n)
    ensures Scale(m as real - n as real, d.At(m, n)) ==
      Add(if m == 0 then ZERO else Scale(d.root(m), Mul(d.alpha, d.At(m - 1, n))),
          if n == 0 then ZERO else Scale(d.root(n), Mul(Conj(d.alpha), d.At(m, n - 1))))
  {
    hide Mul, Scale, Add, Neg, Conj, Displacement.At;
    var a, al, ca, rm, rn := d.At(m, n), d.alpha, Conj(d.alpha), d.root(m), d.root(n);
    RootPositive(d.root, m);
    RootPositive(d.root, n);
    assert RootAt(d.root, m) && RootAt(d.root, n);
    var c := if m == 0 then ZERO else Mul(al, d.At(m - 1, n));
    var b := if n == 0 then ZERO else Mul(ca, d.At(m, n - 1));
    var h := if m == 0 || n == 0 then ZERO else d.At(m - 1, n - 1);
    ScaleNothing(rm);
    ScaleNothing(rn);
    AddZero(c);
    if n > 0 {
      ColumnRule(d, m, n);
    }
    assert m > 0 ==> Scale(rm, a) == Add(c, Scale(rn, h));
    assert n > 0 ==> Scale(rn, a) == Add(Neg(b), Scale(rm, h));
    BalanceAlgebra(rm, rn, m, n, a, b, c, h);
  }

  lemma BalanceAlgebra(rm: real, rn: real, m: nat, n: nat, a: Complex, b: Complex, c: Complex, h: Complex)
    requires Times(rm, rm) == m as real && Times(rn, rn) == n as real && (m == 0 ==> rm == 0.0) && (n == 0 ==> rn == 0.0)
    requires m > 0 ==> Scale(rm, a) == Add(c, Scale(rn, h))
    requires n > 0 ==> Scale(rn, a) == Add(Neg(b), Scale(rm, h))
    requires (m == 0 ==> c == ZERO) && (n == 0 ==> b == ZERO)
    ensures Scale(m as real - n as real, a) == Add(Scale(rm, c), Scale(rn, b))
  {
    BalancePart(rm, rn, m, n, a.re, b.re, c.re, h.re);
    BalancePart(rm, rn, m, n, a.im, b.im, c.im, h.im);
  }

  lemma BalancePart(rm: real, rn: real, m: nat, n: nat, a: real, b: real, c: real, h: real)
    requires Times(rm, rm) == m as real && Times(rn, rn) == n as real && (m == 0 ==> rm == 0.0) && (n == 0 ==> rn == 0.0)
    requires m > 0 ==> rm * a == c + rn * h
    requires n > 0 ==> rn * a == -b + rm * h
    requires (m == 0 ==> c == 0.0) && (n == 0 ==> b == 0.0)
    ensures (m as real - n as real) * a == rm * c + rn * b
  {
    var x := rm * (rn * h);
    assert Times(rm, rm) * a == rm * c + x by {
      if m > 0 {
        assert (rm * rm) * a == rm * (rm * a) == rm * (c + rn * h) == rm * c + rm * (rn * h);
      }
    }
    assert Times(rn, rn) * a == -(rn * b) + x by {
      if n > 0 {
        assert (rn * rn) * a == rn * (rn * a) == rn * (-b + rm * h) == -(rn * b) + rn * (rm * h);
        assert rn * (rm * h) == rm * (rn * h);
      }
    }
  }

  /** The recurrence along a row. */
  ghost predicate RowRule(d: Displacement, m: nat, n: nat) {
    m == 0 ||
    Scale(d.root(m), d.At(m, n)) ==
      Add(Mul(d.alpha, d.At(m - 1, n)), if n == 0 then ZERO else Scale(d.root(n), d.At(m - 1, n - 1)))
  }

  /** The matrix built column by column satisfies the recurrence along its rows as well. */
  lemma {:induction false} RowRecurrence(d: Displacement, m: nat, n: nat)
    requires Rooted(d.root)
    ensures RowRule(d, m, n)
    decreases n, m
  {
    hide Mul, Scale, Add, Neg, Conj, Reciprocal;
    if m == 0 {
    } else if n == 0 {
      RootPositive(d.root, m);
      ScaleBack(d.root(m), Mul(d.At(m - 1, 0), d.alpha));
      MulCommutes(d.alpha, d.At(m - 1, 0));
      AddZero(Mul(d.alpha, d.At(m - 1, 0)));
    } else {
      RowRecurrence(d, m, n - 1);
      RowRecurrence(d, m - 1, n - 1);
      RowStep(d, m, n);
    }
  }

  lemma RowStep(d: Displacement, m: nat, n: nat)
    requires Rooted(d.root) && m > 0 && n > 0 && RowRule(d, m, n - 1) && RowRule(d, m - 1, n - 1)
    ensures RowRule(d, m, n)
  {
    hide Mul, Scale, Add, Neg, Conj, Displacement.At, Times;
    ColumnRule(d, m, n);
    ColumnRule(d, m - 1, n);
    Balance(d, m - 1, n - 1);
    RootPositive(d.root, n);
    assert RootAt(d.root, m) && RootAt(d.root, n);
    var f := if m == 1 then ZERO else Scale(d.root(m - 1), d.At(m - 2, n - 1));
    var b := if n == 1 then ZERO else Scale(d.root(n - 1), d.At(m - 1, n - 2));
    ScaleMulUnless(m == 1, d.root(m - 1), d.alpha, if m == 1 then ZERO else d.At(m - 2, n - 1));
    ScaleMulUnless(n == 1, d.root(n - 1), Conj(d.alpha), if n == 1 then ZERO else d.At(m - 1, n - 2));
    StepAlgebra(d.alpha, Conj(d.alpha), d.root(m), d.root(n), m, n,
                d.At(m, n), d.At(m, n - 1), d.At(m - 1, n), d.At(m - 1, n - 1), f, b);
  }

  lemma ScaleMulUnless(skip: bool, t: real, a: Complex, b: Complex)
    requires skip ==> b == ZERO
    ensures (if skip then ZERO else Scale(t, Mul(a, b))) == Mul(a, if skip then ZERO else Scale(t, b))
  {
    hide Mul, Scale;
    MulNothing(a);
    ScaleMul(t, a, b);
  }

  lemma StepAlgebra(al: Complex, ca: Complex, rm: real, rn: real, m: nat, n: nat,
                    g: Complex, e: Complex, f: Complex, a: Complex, c: Complex, b: Complex)
    requires Times(rm, rm) == m as real && Times(rn, rn) == n as real && rn > 0.0
    requires Scale(rn, g) == Add(Neg(Mul(ca, e)), Scale(rm, a))
    requires Scale(rm, e) == Add(Mul(al, a), b)
    requires Scale(rn, f) == Add(Neg(Mul(ca, a)), c)
    requires Scale((m - 1) as real - (n - 1) as real, a) == Add(Mul(al, c), Mul(ca, b))
    ensures Scale(rm, g) == Add(Mul(al, f), Scale(rn, a))
  {
    hide Mul, Scale, Add, Neg, Times;
    var p := Mul(ca, Mul(al, a));
    assert Scale(rn, Scale(rm, g)) == Add(Neg(Add(p, Mul(ca, b))), Scale(m as real, a)) by {
      ScaleTwice(rn, rm, g);
      ScaleAdd(rm, Neg(Mul(ca, e)), Scale(rm, a));
      ScaleAdd(rm, Mul(ca, e), a);
      ScaleMul(rm, ca, e);
      MulOverAdd(ca, Mul(al, a), b);
      ScaleTwice(rm, rm, a);
    }
    assert Scale(rn, Add(Mul(al, f), Scale(rn, a))) == Add(Add(Neg(p), Mul(al, c)), Scale(n as real, a)) by {
      ScaleAdd(rn, Mul(al, f), Scale(rn, a));
      ScaleMul(rn, al, f);
      MulOverAdd(al, Neg(Mul(ca, a)), c);
      MulNeg(al, Mul(ca, a));
      MulSwap(al, ca, a);
      ScaleTwice(rn, rn, a);
    }
    LastStep(p, Mul(ca, b), Mul(al, c), m, n, a);
    ScaleInjective(rn, Scale(rm, g), Add(Mul(al, f), Scale(rn, a)));
  }

  lemma LastStep(p: Complex, x: Complex, y: Complex, m: nat, n: nat, a: Complex)
    requires Scale((m - 1) as real - (n - 1) as real, a) == Add(y, x)
    ensures Add(Neg(Add(p, x)), Scale(m as real, a)) == Add(Add(Neg(p), y), Scale(n as real, a))
  {
    LastPart(p.re, x.re, y.re, m as real, n as real, a.re);
    LastPart(p.im, x.im, y.im, m as real, n as real, a.im);
    assert (m - 1) as real - (n - 1) as real == m as real - n as real;
  }

  lemma LastPart(p: real, x: real, y: real, m: real, n: real, a: real)
    ensures (m - n) * a == y + x ==> -(p + x) + m * a == -p + y + n * a
  {
    assert (m - n) * a == m * a - n * a;
  }

  // ---- the adjoint

  function Opposite(d: Displacement): Displacement { Displacement(d.start, Neg(d.alpha), d.root) }

  lemma ConjLinear(t: real, a: Complex, b: Complex)
    ensures Conj(Scale(t, a)) == Scale(t, Conj(a)) && Conj(Add(a, b)) == Add(Conj(a), Conj(b))
    ensures Conj(Neg(a)) == Neg(Conj(a)) && Conj(Conj(a)) == a
  {
  }

  lemma NegMul(a: Complex, b: Complex)
    ensures Mul(Neg(a), b) == Neg(Mul(a, b))
  {
  }

  lemma NegTwice(a: Complex)
    ensures Neg(Neg(a)) == a
  {
  }

  /** The opposite displacement is the adjoint matrix: its transpose, conjugated. */
  lemma {:induction false} OppositeIsAdjoint(d: Displacement, m: nat, n: nat)
    requires Rooted(d.root)
    ensures d.At(m, n) == Conj(Opposite(d).At(n, m))
    decreases n, m
  {
    hide Mul, Scale, Add, Neg, Conj, Reciprocal, Displacement.At;
    var o := Opposite(d);
    RootPositive(d.root, m);
    RootPositive(d.root, n);
    if n == 0 {
      if m == 0 {
        Corner(d);
      } else {
        OppositeIsAdjoint(d, m - 1, 0);
        RowRecurrence(d, m, 0);
        ColumnRule(o, 0, m);
        AdjointEdge(d.alpha, d.root(m), d.At(m, 0), d.At(m - 1, 0), o.At(0, m), o.At(0, m - 1));
      }
    } else {
      OppositeIsAdjoint(d, m, n - 1);
      if m > 0 {
        OppositeIsAdjoint(d, m - 1, n - 1);
      }
      ColumnRule(d, m, n);
      RowRecurrence(o, n, m);
      ConjOfZero();
      if m > 0 {
        ConjLinear(d.root(m), o.At(n - 1, m - 1), ZERO);
      }
      AdjointStep(d.alpha, d.root(n), d.At(m, n), d.At(m, n - 1), if m == 0 then ZERO else Scale(d.root(m), d.At(m - 1, n - 1)),
                  o.At(n, m), o.At(n - 1, m), if m == 0 then ZERO else Scale(d.root(m), o.At(n - 1, m - 1)));
    }
  }

  lemma Corner(d: Displacement)
    ensures d.At(0, 0) == Conj(Opposite(d).At(0, 0))
  {
  }

  lemma AdjointEdge(al: Complex, r: real, x: Complex, x1: Complex, y: Complex, y1: Complex)
    requires r > 0.0 && x1 == Conj(y1)
    requires Scale(r, x) == Add(Mul(al, x1), ZERO)
    requires Scale(r, y) == Add(Neg(Mul(Conj(Neg(al)), y1)), ZERO)
    ensures x == Conj(y)
  {
    hide Mul, Scale, Add, Neg, Conj;
    AddZero(Mul(al, x1));
    AddZero(Neg(Mul(Conj(Neg(al)), y1)));
    assert Scale(r, y) == Mul(Conj(al), y1) by {
      ConjLinear(r, al, al);
      NegMul(Conj(al), y1);
      NegTwice(Mul(Conj(al), y1));
    }
    ConjLinear(r, y, y);
    ConjOfProduct(Conj(al), y1);
    ConjLinear(r, al, al);
    ScaleInjective(r, x, Conj(y));
  }

  lemma AdjointStep(al: Complex, r: real, x: Complex, x1: Complex, x2: Complex, y: Complex, y1: Complex, y2: Complex)
    requires r > 0.0 && x1 == Conj(y1) && (x2 == Conj(y2))
    requires Scale(r, x) == Add(Neg(Mul(Conj(al), x1)), x2)
    requires Scale(r, y) == Add(Mul(Neg(al), y1), y2)
    ensures x == Conj(y)
  {
    hide Mul, Scale, Add, Neg, Conj;
    NegMul(al, y1);
    ConjLinear(r, y, y);
    ConjLinear(r, Neg(Mul(al, y1)), y2);
    ConjLinear(r, Mul(al, y1), y2);
    ConjOfProduct(al, y1);
    ScaleInjective(r, x, Conj(y));
  }
}
