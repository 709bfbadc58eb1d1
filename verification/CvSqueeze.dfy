/**
  The truncated squeeze operator on one fiber: columns that reach two columns back
  through three rotating buffers, and the matrix they are proved to apply.
*/
module CvSqueeze {
  import opened Linear
  import opened ComplexNumbers
  import opened CvFibers

  /** What a real squeeze is made of: 1/sqrt(cosh r), sech r, tanh r, the roots, and the roots of (2k-1)/(2k). */
  datatype Squeeze = Squeeze(start: real, sech: real, tanh: real, root: nat -> real, ratio: nat -> real) {
    ghost predicate Valid() {
      Rooted(root) && forall k: nat | k > 0 :: RatioAt(k)
    }

    ghost predicate RatioAt(k: nat) {
      ratio(k) >= 0.0 && Times(Times(ratio(k), ratio(k)), (2 * k) as real) == (2 * k - 1) as real
    }

    /** The squeezed vacuum's amplitude on level 2k. */
    function Even(k: nat): real {
      if k == 0 then start else Times(Even(k - 1), Times(-tanh, ratio(k)))
    }

    /** The matrix element in row m and column n. */
    function At(m: nat, n: nat): real
      decreases n
    {
      if n == 0 then
        if m % 2 == 1 then 0.0 else Even(m / 2)
      else
        Times(Reciprocal(root(n)), Up(m, n) + Across(m, n))
    }

    /** The share of the previous column, one row up. */
    function Up(m: nat, n: nat): real
      requires n > 0
      decreases n, 0
    {
      if m == 0 then 0.0 else Times(Times(root(m), sech), At(m - 1, n - 1))
    }

    /** The share of the column before that, in the same row. */
    function Across(m: nat, n: nat): real
      requires n > 0
      decreases n, 0
    {
      if n == 1 then 0.0 else Times(Times(tanh, root(n - 1)), At(m, n - 2))
    }
  }

  /** The first k terms of row m applied to the input. */
  function SRow(s: Squeeze, input: seq<Complex>, m: nat, k: nat): Complex
    requires k <= |input|
  {
    if k == 0 then ZERO else Add(SRow(s, input, m, k - 1), Mul(C(s.At(m, k - 1), 0.0), input[k - 1]))
  }

  lemma ScaleReal(t: real, x: real)
    ensures Scale(t, C(x, 0.0)) == C(Times(t, x), 0.0)
  {
  }

  lemma AddReal(x: real, y: real)
    ensures Add(C(x, 0.0), C(y, 0.0)) == C(x + y, 0.0) && Add(ZERO, C(x, 0.0)) == C(x, 0.0)
  {
  }

  method SqueezeStart(s: Squeeze, column: array<Complex>)
    requires column.Length > 0
    requires forall m | 0 <= m < column.Length :: column[m] == ZERO
    modifies column
    ensures forall m: nat | m < column.Length :: column[m] == C(s.At(m, 0), 0.0)
  {
    var c := s.start;
    column[0] := C(c, 0.0);
    var k := 1;
    while 2 * k < column.Length
      invariant k >= 1 && c == s.Even(k - 1)
      invariant forall m: nat | m < column.Length && m < 2 * k :: column[m] == C(s.At(m, 0), 0.0)
      invariant forall m: nat | 2 * k <= m < column.Length :: column[m] == ZERO
    {
      c := Times(c, Times(-s.tanh, s.ratio(k)));
      column[2 * k] := C(c, 0.0);
      k := k + 1;
    }
  }

  method SqueezeNext(s: Squeeze, prev1: array<Complex>, prev2: array<Complex>, column: array<Complex>, n: nat)
    requires n > 0 && column != prev1 && column != prev2 && prev1.Length == prev2.Length == column.Length
    requires forall m: nat | m < column.Length :: prev1[m] == C(s.At(m, n - 1), 0.0)
    requires n >= 2 ==> forall m: nat | m < column.Length :: prev2[m] == C(s.At(m, n - 2), 0.0)
    modifies column
    ensures forall m: nat | m < column.Length :: column[m] == C(s.At(m, n), 0.0)
  {
    hide Times, Scale, Add, Reciprocal;
    var factor := Reciprocal(s.root(n));
    for m := 0 to column.Length
      invariant forall j: nat | j < m :: column[j] == C(s.At(j, n), 0.0)
    {
      var term := ZERO;
      if m > 0 {
        term := Add(term, Scale(Times(s.root(m), s.sech), prev1[m - 1]));
        ScaleReal(Times(s.root(m), s.sech), s.At(m - 1, n - 1));
        AddReal(Times(Times(s.root(m), s.sech), s.At(m - 1, n - 1)), 0.0);
      }
      assert term == C(s.Up(m, n), 0.0);
      if n >= 2 {
        term := Add(term, Scale(Times(s.tanh, s.root(n - 1)), prev2[m]));
        ScaleReal(Times(s.tanh, s.root(n - 1)), s.At(m, n - 2));
        AddReal(s.Up(m, n), Times(Times(s.tanh, s.root(n - 1)), s.At(m, n - 2)));
      }
      assert term == C(s.Up(m, n) + s.Across(m, n), 0.0);
      ScaleReal(factor, s.Up(m, n) + s.Across(m, n));
      column[m] := Scale(factor, term);
    }
  }

  /** Apply the squeeze to one fiber; the output may be longer than the input. */
  method SqueezeFiber(s: Squeeze, input: seq<Complex>, out: array<Complex>)
    requires 0 < |input| <= out.Length
    modifies out
    ensures forall m: nat | m < out.Length :: out[m] == SRow(s, input, m, |input|)
  {
    hide Add, Mul, Squeeze.At;
    Clear(out);
    var column0 := new Complex[out.Length](_ => ZERO);
    SqueezeStart(s, column0);
    Accumulate(out, column0, input[0]);
    if |input| == 1 {
      return;
    }
    var prev1, prev2 := column0, new Complex[out.Length](_ => ZERO);
    var column := new Complex[out.Length](_ => ZERO);
    var n := 1;
    while n < |input|
      invariant 1 <= n <= |input| && fresh(prev1) && fresh(prev2) && fresh(column)
      invariant prev1 != prev2 && prev1 != column && prev2 != column
      invariant prev1.Length == prev2.Length == column.Length == out.Length
      invariant forall m: nat | m < out.Length :: prev1[m] == C(s.At(m, n - 1), 0.0)
      invariant n >= 2 ==> forall m: nat | m < out.Length :: prev2[m] == C(s.At(m, n - 2), 0.0)
      invariant forall m: nat | m < out.Length :: out[m] == SRow(s, input, m, n)
    {
      SqueezeNext(s, prev1, prev2, column, n);
      if input[n] != ZERO {
        Accumulate(out, column, input[n]);
      } else {
        forall m: nat | m < out.Length ensures SRow(s, input, m, n + 1) == SRow(s, input, m, n) {
          MulNothing(C(s.At(m, n), 0.0));
          AddZero(SRow(s, input, m, n));
        }
      }
      prev2, prev1 := prev1, prev2;
      prev1, column := column, prev1;
      n := n + 1;
    }
  }

  // ---- what the squeeze matrix is

  /** Photons move in pairs: no element links levels of different parity. */
  lemma {:induction false} ParityKept(s: Squeeze, m: nat, n: nat)
    requires (m + n) % 2 == 1
    ensures s.At(m, n) == 0.0
    decreases n
  {
    hide Times, Reciprocal;
    if n > 0 {
      TimesByZero(Reciprocal(s.root(n)));
      if m > 0 {
        ParityKept(s, m - 1, n - 1);
        TimesByZero(Times(s.root(m), s.sech));
      }
      if n > 1 {
        ParityKept(s, m, n - 2);
        TimesByZero(Times(s.tanh, s.root(n - 1)));
      }
    }
  }

  /** A state with photon numbers of one parity only keeps it. */
  lemma {:induction false} SectorKept(s: Squeeze, input: seq<Complex>, m: nat, k: nat)
    requires k <= |input| && forall n | 0 <= n < |input| && (m + n) % 2 == 0 :: input[n] == ZERO
    ensures SRow(s, input, m, k) == ZERO
  {
    hide Mul, Add, Squeeze.At;
    if k > 0 {
      SectorKept(s, input, m, k - 1);
      AddZero(ZERO);
      if (m + k - 1) % 2 == 0 {
        MulNothing(C(s.At(m, k - 1), 0.0));
      } else {
        ParityKept(s, m, k - 1);
        MulZero(input[k - 1]);
      }
    }
  }

  lemma NoSqueezeEven(s: Squeeze, k: nat)
    requires s.tanh == 0.0 && s.start == 1.0
    ensures s.Even(k) == if k == 0 then 1.0 else 0.0
  {
    if k > 0 {
      TimesByZero(s.ratio(k));
      TimesByZero(s.Even(k - 1));
    }
  }

  /** Squeezing by nothing is the identity. */
  lemma {:induction false} NoSqueeze(s: Squeeze, m: nat, n: nat)
    requires Rooted(s.root) && s.tanh == 0.0 && s.sech == 1.0 && s.start == 1.0
    ensures s.At(m, n) == if m == n then 1.0 else 0.0
    decreases n
  {
    hide Times, Reciprocal;
    if n == 0 {
      NoSqueezeEven(s, m / 2);
    } else {
      RootPositive(s.root, n);
      TimesByZero(Reciprocal(s.root(n)));
      if n > 1 {
        TimesByZero(s.root(n - 1));
        TimesByZero(s.At(m, n - 2));
      }
      if m > 0 {
        NoSqueeze(s, m - 1, n - 1);
        TimesByZero(Times(s.root(m), s.sech));
        if m == n {
          UnitProduct(s.root(n));
        }
      }
    }
  }

  lemma UnitProduct(x: real)
    requires x != 0.0
    ensures Times(Reciprocal(x), Times(Times(x, 1.0), 1.0)) == 1.0
  {
    ReciprocalCancels(x);
  }

  // ---- the opposite squeeze

  lemma ColumnOf(s: Squeeze, m: nat, n: nat)
    requires Rooted(s.root) && n > 0
    ensures Times(s.root(n), s.At(m, n)) == s.Up(m, n) + s.Across(m, n)
  {
    RootPositive(s.root, n);
    ReciprocalCancels(s.root(n));
    UndoScale(s.root(n), Reciprocal(s.root(n)), s.Up(m, n) + s.Across(m, n));
  }

  /** The recurrence along a row: the same with rows and columns exchanged and the sign of tanh turned. */
  ghost predicate RowOf(s: Squeeze, m: nat, n: nat) {
    m == 0 || Times(s.root(m), s.At(m, n)) == Left(s, m, n) - Back(s, m, n)
  }

  ghost function Left(s: Squeeze, m: nat, n: nat): real
    requires m > 0
  {
    if n == 0 then 0.0 else Times(Times(s.root(n), s.sech), s.At(m - 1, n - 1))
  }

  ghost function Back(s: Squeeze, m: nat, n: nat): real
    requires m > 0
  {
    if m == 1 then 0.0 else Times(Times(s.tanh, s.root(m - 1)), s.At(m - 2, n))
  }

  lemma RatioOfRoots(s: Squeeze, k: nat)
    requires s.Valid() && k > 0
    ensures Times(s.root(2 * k), s.ratio(k)) == s.root(2 * k - 1)
  {
    var a, b, q := s.root(2 * k), s.root(2 * k - 1), s.ratio(k);
    assert s.RatioAt(k) && RootAt(s.root, 2 * k) && RootAt(s.root, 2 * k - 1);
    TimesNonNegative(a, q);
    assert Times(Times(a, q), Times(a, q)) == Times(b, b) by {
      assert (a * q) * (a * q) == (q * q) * (a * a);
    }
    SameRoot(Times(a, q), b);
  }

  lemma SameRoot(x: real, y: real)
    requires x >= 0.0 && y >= 0.0 && Times(x, x) == Times(y, y)
    ensures x == y
  {
    assert (x - y) * (x + y) == 0.0;
    if x > y {
      TimesPositive(x - y, x + y);
    } else if y > x {
      TimesPositive(y - x, x + y);
    }
  }

  lemma RowOfFirstColumn(s: Squeeze, m: nat)
    requires s.Valid() && m > 0
    ensures RowOf(s, m, 0)
  {
    hide Times;
    TimesByZero(s.root(m));
    if m % 2 == 1 {
      if m > 1 {
        TimesByZero(Times(s.tanh, s.root(m - 1)));
        assert s.At(m - 2, 0) == 0.0;
      }
    } else {
      var k := m / 2;
      assert m == 2 * k && (m - 2) / 2 == k - 1 && (m - 2) % 2 == 0;
      RatioOfRoots(s, k);
      FirstColumnAlgebra(s.root(m), s.Even(k - 1), s.tanh, s.ratio(k), s.root(m - 1));
    }
  }

  lemma FirstColumnAlgebra(r: real, e: real, t: real, q: real, r1: real)
    requires Times(r, q) == r1
    ensures Times(r, Times(e, Times(-t, q))) == 0.0 - Times(Times(t, r1), e)
  {
    assert e * (-t * q) == -(t * (e * q));
    assert r * (t * (e * q)) == t * ((r * q) * e);
    assert t * ((r * q) * e) == (t * (r * q)) * e;
  }

  /** The squared distance between row and column, read off two neighbouring elements. */
  lemma SqueezeBalance(s: Squeeze, m: nat, n: nat)
    requires s.Valid() && RowOf(s, m, n)
    ensures Times(m as real - n as real, s.At(m, n)) ==
      -(if m == 0 then 0.0 else Times(s.root(m), Back(s, m, n))) - (if n == 0 then 0.0 else Times(s.root(n), s.Across(m, n)))
  {
    hide Squeeze.At, Squeeze.Across, Back, Times;
    assert RootAt(s.root, m) && RootAt(s.root, n);
    if n > 0 {
      ColumnOf(s, m, n);
    }
    var h := if m == 0 || n == 0 then 0.0 else s.At(m - 1, n - 1);
    TimesByZero(Times(s.root(m), s.sech));
    TimesByZero(Times(s.root(n), s.sech));
    SqueezeBalanceAlgebra(s.root(m), s.root(n), m, n, s.sech, s.At(m, n), h,
                          if m == 0 then 0.0 else Back(s, m, n), if n == 0 then 0.0 else s.Across(m, n));
    TimesByZero(s.root(m));
    TimesByZero(s.root(n));
  }

  lemma SqueezeBalanceAlgebra(rm: real, rn: real, m: nat, n: nat, c: real, a: real, h: real, j: real, k: real)
    requires Times(rm, rm) == m as real && Times(rn, rn) == n as real
    requires m > 0 ==> Times(rm, a) == Times(Times(rn, c), h) - j
    requires n > 0 ==> Times(rn, a) == Times(Times(rm, c), h) + k
    requires m == 0 || n == 0 ==> h == 0.0
    ensures Times(m as real - n as real, a) == -(if m == 0 then 0.0 else Times(rm, j)) - (if n == 0 then 0.0 else Times(rn, k))
  {
    var x := rm * (rn * (c * h));
    assert Times(rm, rm) * a == x - (if m == 0 then 0.0 else rm * j) by {
      if m > 0 {
        assert (rm * rm) * a == rm * (rm * a) == rm * (rn * c * h - j) == rm * (rn * c * h) - rm * j;
        assert rn * c * h == rn * (c * h);
      } else {
        assert h == 0.0;
      }
    }
    assert Times(rn, rn) * a == x + (if n == 0 then 0.0 else rn * k) by {
      if n > 0 {
        assert (rn * rn) * a == rn * (rn * a) == rn * (rm * c * h + k) == rn * (rm * c * h) + rn * k;
        assert rn * (rm * c * h) == rm * (rn * (c * h));
      } else {
        assert h == 0.0;
      }
    }
  }

  /** The matrix built column by column satisfies the recurrence along its rows as well. */
  lemma {:induction false} SqueezeRows(s: Squeeze, m: nat, n: nat)
    requires s.Valid()
    ensures RowOf(s, m, n)
    decreases n
  {
    if m == 0 {
    } else if n == 0 {
      RowOfFirstColumn(s, m);
    } else {
      SqueezeRows(s, m - 1, n - 1);
      if n > 1 {
        SqueezeRows(s, m, n - 2);
      }
      SqueezeRowStep(s, m, n);
    }
  }

  /** One step back along the row, weighted by the root that vanishes in the first column. */
  lemma StepBackRow(s: Squeeze, m: nat, n: nat)
    requires s.Valid() && m > 0 && n > 0 && (n > 1 ==> RowOf(s, m, n - 2))
    ensures var k, l := if n > 2 then Times(s.root(n - 2), s.At(m - 1, n - 3)) else 0.0, if m > 1 && n > 1 then s.At(m - 2, n - 2) else 0.0;
      var b := if n > 1 then s.At(m, n - 2) else 0.0;
      && Times(s.root(n - 1), Times(s.root(m), b)) == Times(s.root(n - 1), Times(s.sech, k) - Times(Times(s.tanh, s.root(m - 1)), l))
      && s.Across(m, n) == Times(Times(s.tanh, s.root(n - 1)), b)
      && (n > 1 ==> s.Across(m - 1, n - 1) == Times(s.tanh, k))
  {
    hide Squeeze.At, Times;
    RootPositive(s.root, n - 1);
    RootPositive(s.root, m - 1);
    TimesByZero(s.tanh);
    TimesByZero(s.sech);
    if n == 1 {
      TimesByZero(Times(s.root(m), 0.0));
      TimesByZero(Times(s.sech, 0.0) - Times(Times(s.tanh, s.root(m - 1)), 0.0));
      TimesByZero(0.0);
      TimesByZero(Times(s.tanh, 0.0));
    } else {
      if n > 2 {
        Reassociate(s.root(n - 2), s.sech, s.At(m - 1, n - 3));
        Reassociate(s.root(n - 2), s.tanh, s.At(m - 1, n - 3));
      }
      TimesByZero(0.0);
    }
  }

  lemma Reassociate(r: real, c: real, x: real)
    ensures Times(Times(r, c), x) == Times(c, Times(r, x)) && Times(Times(c, r), x) == Times(c, Times(r, x))
  {
  }

  /** One step up the column, weighted by the root that vanishes in the first row. */
  lemma StepUpColumn(s: Squeeze, m: nat, n: nat)
    requires s.Valid() && m > 0 && n > 0
    ensures var j, l := if m > 2 then Times(s.root(m - 2), s.At(m - 3, n - 1)) else 0.0, if m > 1 && n > 1 then s.At(m - 2, n - 2) else 0.0;
      var f := if m > 1 then s.At(m - 2, n) else 0.0;
      && Times(s.root(m - 1), Times(s.root(n), f)) == Times(s.root(m - 1), Times(s.sech, j) + Times(Times(s.tanh, s.root(n - 1)), l))
      && Back(s, m, n) == Times(Times(s.tanh, s.root(m - 1)), f)
      && (m > 1 ==> Back(s, m - 1, n - 1) == Times(s.tanh, j))
  {
    RootPositive(s.root, n - 1);
    RootPositive(s.root, m - 1);
    if m > 1 {
      ColumnOf(s, m - 2, n);
    }
    hide Squeeze.At, Times;
    TimesByZero(s.tanh);
    TimesByZero(s.sech);
    TimesByZero(0.0);
    if m == 1 {
      TimesByZero(Times(s.root(n), 0.0));
      TimesByZero(Times(s.sech, 0.0) + Times(Times(s.tanh, s.root(n - 1)), 0.0));
      TimesByZero(Times(s.tanh, 0.0));
    } else {
      if m > 2 {
        Reassociate(s.root(m - 2), s.sech, s.At(m - 3, n - 1));
        Reassociate(s.root(m - 2), s.tanh, s.At(m - 3, n - 1));
      }
      if n == 1 {
        TimesByZero(Times(s.tanh, 0.0));
      }
    }
  }

  lemma SqueezeRowStep(s: Squeeze, m: nat, n: nat)
    requires s.Valid() && m > 0 && n > 0 && RowOf(s, m - 1, n - 1) && (n > 1 ==> RowOf(s, m, n - 2))
    ensures RowOf(s, m, n)
  {
    hide Squeeze.At, Squeeze.Across, Back, Times, Squeeze.Valid;
    RootsAt(s, m, n);
    RootPositive(s.root, n);
    RootPositive(s.root, n - 1);
    RootPositive(s.root, m - 1);
    ColumnOf(s, m, n);
    StepBackRow(s, m, n);
    StepUpColumn(s, m, n);
    SqueezeBalance(s, m - 1, n - 1);
    var k, l := if n > 2 then Times(s.root(n - 2), s.At(m - 1, n - 3)) else 0.0, if m > 1 && n > 1 then s.At(m - 2, n - 2) else 0.0;
    var j := if m > 2 then Times(s.root(m - 2), s.At(m - 3, n - 1)) else 0.0;
    var b, f := if n > 1 then s.At(m, n - 2) else 0.0, if m > 1 then s.At(m - 2, n) else 0.0;
    TimesByZero(Times(s.tanh, j));
    TimesByZero(Times(s.tanh, k));
    assert (m - 1) as real - (n - 1) as real == m as real - n as real;
    SqueezeStepAlgebra(s.sech, s.tanh, s.root(m), s.root(n), s.root(m - 1), s.root(n - 1), m as real, n as real,
                       s.At(m - 1, n - 1), l, k, j, b, f, s.At(m, n));
  }

  lemma RootsAt(s: Squeeze, m: nat, n: nat)
    requires s.Valid()
    ensures Rooted(s.root) && RootAt(s.root, m) && RootAt(s.root, n)
  {
  }

  lemma SqueezeStepAlgebra(c: real, t: real, rm: real, rn: real, rm1: real, rn1: real, m: real, n: real,
                           a: real, l: real, k: real, j: real, b: real, f: real, g: real)
    requires rn > 0.0 && Times(rm, rm) == m && Times(rn, rn) == n
    requires Times(rn, g) == Times(Times(rm, c), a) + Times(Times(t, rn1), b)
    requires Times(rn1, Times(rm, b)) == Times(rn1, Times(c, k) - Times(Times(t, rm1), l))
    requires Times(rm1, Times(rn, f)) == Times(rm1, Times(c, j) + Times(Times(t, rn1), l))
    requires Times(m - n, a) == -Times(rm1, Times(t, j)) - Times(rn1, Times(t, k))
    ensures Times(rm, g) == Times(Times(rn, c), a) - Times(Times(t, rm1), f)
  {
    var x := rn1 * (rm1 * (t * l));
    var p, q := rn1 * (c * k), rm1 * (c * j);
    Spread(rn1, c * k, rm1, t, l);
    Spread(rm1, c * j, rn1, t, l);
    MultiplyOut(rn, rm, g, c * a, t, rn1, b, p - x, m);
    Difference(m, n, c, a, t, rm1, j, rn1, k, p, q);
    Conclude(rn, rm * g, m * (c * a), n * (c * a), t, p, q, x, c, a, rm1, f, n);
  }

  lemma MultiplyOut(rn: real, rm: real, g: real, ca: real, t: real, r: real, b: real, y: real, m: real)
    requires rn * g == rm * ca + t * r * b && y == r * (rm * b) && m == rm * rm
    ensures rn * (rm * g) == m * ca + t * y
  {
    assert rn * (rm * g) == rm * (rn * g);
    assert rm * (rm * ca) == (rm * rm) * ca;
    assert rm * (t * r * b) == t * (r * (rm * b));
  }

  lemma Conclude(rn: real, left: real, ma: real, na: real, t: real, p: real, q: real, x: real,
                 c: real, a: real, s: real, f: real, n: real)
    requires rn > 0.0 && rn * left == ma + t * (p - x) && ma - na == -(t * q) - t * p
    requires na == n * (c * a) && n == rn * rn && q + x == s * (rn * f)
    ensures left == rn * c * a - t * s * f
  {
    var right := rn * c * a - t * s * f;
    SpreadOut(rn, c, a, t, s, f, q + x, n, right);
    SpreadTwo(t, p, q, x);
    SameFactor(rn, left, right);
  }

  lemma Spread(r: real, y: real, s: real, t: real, l: real)
    ensures r * (y - t * s * l) == r * y - r * (s * (t * l))
    ensures r * (y + t * s * l) == r * y + s * (r * (t * l))
  {
    assert r * (t * s * l) == r * (s * (t * l)) == s * (r * (t * l));
  }

  lemma SpreadOut(r: real, c: real, a: real, t: real, s: real, f: real, z: real, n: real, right: real)
    requires z == s * (r * f) && n == r * r && right == r * c * a - t * s * f
    ensures r * right == n * (c * a) - t * z
  {
    assert r * (r * c * a) == (r * r) * (c * a);
    assert r * (t * s * f) == t * (s * (r * f));
  }

  lemma SpreadTwo(t: real, p: real, q: real, x: real)
    ensures t * (p - x) == t * p - t * x && t * (q + x) == t * q + t * x
  {
  }

  lemma Difference(m: real, n: real, c: real, a: real, t: real, r: real, j: real, s: real, k: real, p: real, q: real)
    requires Times(m - n, a) == -Times(r, Times(t, j)) - Times(s, Times(t, k)) && p == s * (c * k) && q == r * (c * j)
    ensures m * (c * a) - n * (c * a) == -(t * q) - t * p
  {
    var d, x, y := (m - n) * a, r * (t * j), s * (t * k);
    assert m * (c * a) - n * (c * a) == c * ((m - n) * a);
    SpreadTwo(c, -x, 0.0, y);
    assert c * x == t * (r * (c * j)) && c * y == t * (s * (c * k));
    DifferencePart(c, d, x, y);
  }

  lemma DifferencePart(c: real, d: real, x: real, y: real)
    requires d == -x - y
    ensures c * d == -(c * x) - c * y
  {
  }

  function Unsqueeze(s: Squeeze): Squeeze { Squeeze(s.start, s.sech, -s.tanh, s.root, s.ratio) }

  /** The opposite squeeze is the transposed matrix, which is its adjoint since the elements are real. */
  lemma {:induction false} OppositeIsTransposed(s: Squeeze, m: nat, n: nat)
    requires s.Valid()
    ensures s.At(m, n) == Unsqueeze(s).At(n, m)
    decreases n, m
  {
    var u := Unsqueeze(s);
    OppositeValid(s);
    if n == 0 {
      if m > 0 {
        TransposedEdge(s, m);
      }
    } else {
      if m > 0 {
        OppositeIsTransposed(s, m - 1, n - 1);
      }
      if n > 1 {
        OppositeIsTransposed(s, m, n - 2);
      }
      hide Squeeze.At, Times, Squeeze.Valid;
      RootsAt(s, m, n);
      RootPositive(s.root, n);
      ColumnOf(s, m, n);
      SqueezeRows(u, n, m);
      if n > 1 {
        NegatedTanh(s.tanh, s.root(n - 1), s.At(m, n - 2));
      }
      SameFactorTimes(s.root(n), s.At(m, n), u.At(n, m));
    }
  }

  lemma OppositeValid(s: Squeeze)
    requires s.Valid()
    ensures Unsqueeze(s).Valid()
  {
    forall k: nat | k > 0 ensures Unsqueeze(s).RatioAt(k) {
      assert s.RatioAt(k);
    }
  }

  lemma NegatedTanh(t: real, r: real, x: real)
    ensures Times(Times(-t, r), x) == -Times(Times(t, r), x)
  {
  }

  lemma SameFactorTimes(t: real, x: real, y: real)
    requires t > 0.0 && Times(t, x) == Times(t, y)
    ensures x == y
  {
    SameFactor(t, x, y);
  }

  lemma TransposedEdge(s: Squeeze, m: nat)
    requires s.Valid() && m > 0
    ensures s.At(m, 0) == Unsqueeze(s).At(0, m)
    decreases m
  {
    var u := Unsqueeze(s);
    OppositeValid(s);
    if m > 1 {
      if m > 2 {
        TransposedEdge(s, m - 2);
      }
      SqueezeRows(s, m, 0);
      ColumnOf(u, 0, m);
      hide Squeeze.At, Times, Squeeze.Valid;
      RootsAt(s, m, m);
      RootPositive(s.root, m);
      if m == 2 {
        Corner(s);
      }
      NegatedTanh(s.tanh, s.root(m - 1), s.At(m - 2, 0));
      SameFactorTimes(s.root(m), s.At(m, 0), u.At(0, m));
    } else {
      TimesByZero(Reciprocal(u.root(1)));
    }
  }

  lemma Corner(s: Squeeze)
    ensures s.At(0, 0) == Unsqueeze(s).At(0, 0)
  {
  }
}
