/**
  Ridge regression by the normal equations and Gauss-Jordan elimination with
  partial pivoting, over exact reals.  An accepted answer is the one solution
  of the normal equations and a minimiser of the penalised squared error.
*/
module Ridge {
  import opened Wrappers
  import opened Linear

  datatype Error = BadInputs | SingularNormalMatrix

  const PIVOT_FLOOR: real := 0.000000000001

  // ---- what is being solved

  /** A sample with its intercept column appended. */
  function Sample(x: Row): (s: Row)
    ensures |s| == |x| + 1
  {
    x + [1.0]
  }

  ghost predicate Rectangular(x: seq<Row>, y: Row) {
    x != [] && |x| == |y| && forall k | 0 <= k < |x| :: |x[k]| >= |x[0]|
  }

  /** The entry (i, j) of the Gram matrix of the first `m` samples. */
  function Gram(x: seq<Row>, i: nat, j: nat, m: nat): real
    requires m <= |x| && forall k | 0 <= k < m :: i <= |x[k]| && j <= |x[k]|
  {
    if m == 0 then 0.0 else Gram(x, i, j, m - 1) + Sample(x[m - 1])[i] * Sample(x[m - 1])[j]
  }

  /** The entry i of the moment vector of the first `m` samples. */
  function Moment(x: seq<Row>, y: Row, i: nat, m: nat): real
    requires m <= |x| && m <= |y| && forall k | 0 <= k < m :: i <= |x[k]|
  {
    if m == 0 then 0.0 else Moment(x, y, i, m - 1) + Sample(x[m - 1])[i] * y[m - 1]
  }

  /** The normal equations of the first `m` samples, one augmented row per unknown. */
  ghost function Normal(x: seq<Row>, y: Row, penalty: real, m: nat): (a: Matrix)
    requires Rectangular(x, y) && m <= |x|
    ensures Shape(a, |x[0]| + 1)
  {
    var d := |x[0]| + 1;
    seq(d, i requires 0 <= i < d =>
      seq(d + 1, j requires 0 <= j <= d =>
        if j == d then Moment(x, y, i, m) else Gram(x, i, j, m) + if i == j then penalty else 0.0))
  }

  ghost predicate Shape(a: Matrix, d: nat) {
    |a| == d && forall i | 0 <= i < d :: |a[i]| == d + 1
  }

  /** `v` satisfies every equation of the augmented system. */
  ghost predicate Solves(a: Matrix, d: nat, v: Row)
    requires Shape(a, d) && |v| == d
  {
    forall i | 0 <= i < d :: Dot(a[i], v, d) == a[i][d]
  }

  /** The penalised squared error of the first `m` samples. */
  ghost function Loss(x: seq<Row>, y: Row, w: Row, m: nat): real
    requires m <= |x| && m <= |y| && forall k | 0 <= k < m :: |w| <= |x[k]| + 1
  {
    if m == 0 then 0.0 else
      var e := Dot(Sample(x[m - 1]), w, |w|) - y[m - 1];
      Loss(x, y, w, m - 1) + e * e
  }

  ghost function Cost(x: seq<Row>, y: Row, penalty: real, w: Row): real
    requires Rectangular(x, y) && |w| == |x[0]| + 1
  {
    Loss(x, y, w, |x|) + penalty * Dot(w, w, |w|)
  }

  // ---- a solution of the normal equations is a minimiser

  /** The part of the error that is linear in the displacement `h`. */
  ghost function Cross(x: seq<Row>, y: Row, w: Row, h: Row, m: nat): real
    requires m <= |x| && m <= |y| && |h| == |w| && forall k | 0 <= k < m :: |w| <= |x[k]| + 1
  {
    if m == 0 then 0.0 else
      var s := Sample(x[m - 1]);
      Cross(x, y, w, h, m - 1) + (Dot(s, w, |w|) - y[m - 1]) * Dot(s, h, |w|)
  }

  lemma {:induction false} LossOfSum(x: seq<Row>, y: Row, w: Row, h: Row, v: Row, m: nat)
    requires m <= |x| && m <= |y| && |h| == |w| == |v| && forall k | 0 <= k < m :: |w| <= |x[k]| + 1
    requires forall j | 0 <= j < |w| :: v[j] == w[j] + h[j]
    ensures Loss(x, y, v, m) >= Loss(x, y, w, m) + 2.0 * Cross(x, y, w, h, m)
  {
    hide Dot, Sample;
    if m == 0 {
    } else {
      LossOfSum(x, y, w, h, v, m - 1);
      var s, n := Sample(x[m - 1]), |w|;
      assert |s| == |x[m - 1]| + 1;
      DotOfSum(s, w, h, v, n);
      SquareOfSum(Dot(s, w, n) - y[m - 1], Dot(s, h, n));
    }
  }

  lemma SquareOfSum(e: real, t: real)
    ensures (e + t) * (e + t) >= e * e + 2.0 * (e * t)
  {
  }

  /** How far `w` is from satisfying each equation of the first `m` samples, without the penalty. */
  ghost function Residual(x: seq<Row>, y: Row, w: Row, m: nat): (r: Row)
    requires Rectangular(x, y) && m <= |x| && |w| == |x[0]| + 1
    ensures |r| == |w|
  {
    var a := Normal(x, y, 0.0, m);
    seq(|w|, i requires 0 <= i < |w| => Dot(a[i], w, |w|) - a[i][|w|])
  }

  lemma NormalStep(x: seq<Row>, y: Row, m: nat, i: nat, j: nat)
    requires Rectangular(x, y) && 0 < m <= |x| && i <= |x[0]| && j <= |x[0]| + 1
    ensures var s := Sample(x[m - 1]);
      Normal(x, y, 0.0, m)[i][j] ==
      Normal(x, y, 0.0, m - 1)[i][j] + s[i] * if j == |x[0]| + 1 then y[m - 1] else s[j]
  {
  }

  /** One more sample adds its error, times the sample, to the residual. */
  lemma ResidualStep(x: seq<Row>, y: Row, w: Row, m: nat, i: nat)
    requires Rectangular(x, y) && 0 < m <= |x| && |w| == |x[0]| + 1 && i < |w|
    ensures var s := Sample(x[m - 1]);
      Residual(x, y, w, m)[i] == Residual(x, y, w, m - 1)[i] + (Dot(s, w, |w|) - y[m - 1]) * s[i]
  {
    hide Dot, Normal;
    var s, d := Sample(x[m - 1]), |w|;
    var a, a0 := Normal(x, y, 0.0, m)[i], Normal(x, y, 0.0, m - 1)[i];
    forall j | 0 <= j < d ensures a[j] == a0[j] + s[i] * s[j] {
      NormalStep(x, y, m, i, j);
    }
    DotPlus(a, a0, s[i], s, w, d);
    NormalStep(x, y, m, i, d);
    MultiplyDifference(s[i], Dot(s, w, d), y[m - 1]);
  }

  lemma MultiplyDifference(s: real, t: real, y: real)
    ensures (t - y) * s == s * t - s * y
  {
  }

  lemma ResidualOfNothing(x: seq<Row>, y: Row, w: Row, i: nat)
    requires Rectangular(x, y) && |w| == |x[0]| + 1 && i < |w|
    ensures Residual(x, y, w, 0)[i] == 0.0
  {
    var a := Normal(x, y, 0.0, 0)[i];
    forall j | 0 <= j <= |w| ensures a[j] == 0.0 {
    }
    DotZero(a, w, |w|);
  }

  /** The linear part of the error is the displacement times the residual. */
  lemma {:induction false} CrossIsResidual(x: seq<Row>, y: Row, w: Row, h: Row, m: nat)
    requires Rectangular(x, y) && m <= |x| && |w| == |h| == |x[0]| + 1
    ensures Cross(x, y, w, h, m) == Dot(Residual(x, y, w, m), h, |w|)
  {
    hide Dot, Residual;
    var d, r := |w|, Residual(x, y, w, m);
    if m == 0 {
      forall i | 0 <= i < d ensures r[i] == 0.0 {
        ResidualOfNothing(x, y, w, i);
      }
      DotZero(r, h, d);
    } else {
      CrossIsResidual(x, y, w, h, m - 1);
      var s := Sample(x[m - 1]);
      var e := Dot(s, w, d) - y[m - 1];
      var r0 := Residual(x, y, w, m - 1);
      forall i | 0 <= i < d ensures r[i] == r0[i] + e * s[i] {
        ResidualStep(x, y, w, m, i);
      }
      DotPlus(r, r0, e, s, h, d);
      assert Cross(x, y, w, h, m) == Cross(x, y, w, h, m - 1) + e * Dot(s, h, d);
    }
  }

  /** A solution leaves exactly the penalty's own pull as residual. */
  lemma ResidualOfSolution(x: seq<Row>, y: Row, penalty: real, w: Row, i: nat)
    requires Rectangular(x, y) && |w| == |x[0]| + 1 && i < |w|
    requires Solves(Normal(x, y, penalty, |x|), |w|, w)
    ensures Residual(x, y, w, |x|)[i] == -penalty * w[i]
  {
    var d := |w|;
    var a, a0 := Normal(x, y, penalty, |x|)[i], Normal(x, y, 0.0, |x|)[i];
    var unit := seq(d, j requires 0 <= j < d => if j == i then 1.0 else 0.0);
    forall j | 0 <= j < d ensures a[j] == a0[j] + penalty * unit[j] {
    }
    hide Dot;
    DotPlus(a, a0, penalty, unit, w, d);
    DotUnit(unit, w, d, i);
  }

  /** With a non-negative penalty, whoever solves the normal equations has the least cost of all. */
  lemma SolutionMinimises(x: seq<Row>, y: Row, penalty: real, w: Row, v: Row)
    requires Rectangular(x, y) && |w| == |v| == |x[0]| + 1 && penalty >= 0.0
    requires Solves(Normal(x, y, penalty, |x|), |w|, w)
    ensures Cost(x, y, penalty, w) <= Cost(x, y, penalty, v)
  {
    hide Dot;
    var d := |w|;
    var h := seq(d, j requires 0 <= j < d => v[j] - w[j]);
    LossOfSum(x, y, w, h, v, |x|);
    CrossIsResidual(x, y, w, h, |x|);
    var r := Residual(x, y, w, |x|);
    forall i | 0 <= i < d ensures r[i] == (-penalty) * w[i] {
      ResidualOfSolution(x, y, penalty, w, i);
    }
    DotScale(r, -penalty, w, h, d);
    NormOfSum(w, h, v, d);
    PenaltyOutweighs(penalty, Dot(w, h, d), Dot(w, w, d), Dot(v, v, d));
  }

  lemma PenaltyOutweighs(penalty: real, wh: real, ww: real, vv: real)
    requires penalty >= 0.0 && vv >= ww + 2.0 * wh
    ensures penalty * vv >= penalty * ww + 2.0 * (penalty * wh)
  {
    assert penalty * (vv - ww - 2.0 * wh) >= 0.0;
  }

  lemma {:induction false} NormOfSum(w: Row, h: Row, v: Row, k: nat)
    requires k <= |w| && k <= |h| && k <= |v| && forall j | 0 <= j < k :: v[j] == w[j] + h[j]
    ensures Dot(v, v, k) >= Dot(w, w, k) + 2.0 * Dot(w, h, k)
  {
    if k == 0 {
    } else {
      NormOfSum(w, h, v, k - 1);
      SquareOfSum(w[k - 1], h[k - 1]);
      assert v[k - 1] * v[k - 1] == (w[k - 1] + h[k - 1]) * (w[k - 1] + h[k - 1]);
    }
  }

  // ---- the three row operations keep the solution set

  function Scaled(r: Row, p: real): (s: Row)
    requires p != 0.0
    ensures |s| == |r| && forall j | 0 <= j < |r| :: s[j] == r[j] / p
  {
    seq(|r|, j requires 0 <= j < |r| => r[j] / p)
  }

  function Reduced(r: Row, f: real, pivot: Row): (s: Row)
    requires |r| == |pivot|
    ensures |s| == |r| && forall j | 0 <= j < |r| :: s[j] == r[j] - f * pivot[j]
  {
    seq(|r|, j requires 0 <= j < |r| => r[j] - f * pivot[j])
  }

  /** Subtract from every other row its multiple of row `col`. */
  ghost function Eliminated(a: Matrix, d: nat, col: nat): (b: Matrix)
    requires Shape(a, d) && col < d
    ensures Shape(b, d)
  {
    seq(d, i requires 0 <= i < d => if i == col then a[i] else Reduced(a[i], a[i][col], a[col]))
  }

  lemma SwapKeepsSolutions(a: Matrix, d: nat, i: nat, j: nat, v: Row)
    requires Shape(a, d) && i < d && j < d && |v| == d
    ensures Solves(a[i := a[j]][j := a[i]], d, v) <==> Solves(a, d, v)
  {
    var b := a[i := a[j]][j := a[i]];
    assert a[i] == b[j] && a[j] == b[i];
    if Solves(b, d, v) {
      forall k | 0 <= k < d ensures Dot(a[k], v, d) == a[k][d] {
        assert k != i && k != j ==> a[k] == b[k];
      }
    }
  }

  lemma ScaleKeepsSolutions(a: Matrix, d: nat, i: nat, p: real, v: Row)
    requires Shape(a, d) && i < d && |v| == d && p != 0.0
    ensures Solves(a[i := Scaled(a[i], p)], d, v) <==> Solves(a, d, v)
  {
    var s := Scaled(a[i], p);
    var b := a[i := s];
    forall j | 0 <= j < d ensures a[i][j] == p * s[j] {
      DivideBack(a[i][j], p);
    }
    DotScale(a[i], p, s, v, d);
    DivideBack(a[i][d], p);
    CancelFactor(p, Dot(s, v, d), s[d]);
    if Solves(b, d, v) {
      assert Dot(b[i], v, d) == b[i][d];
      forall k | 0 <= k < d ensures Dot(a[k], v, d) == a[k][d] {
        assert k != i ==> a[k] == b[k];
      }
    }
    if Solves(a, d, v) {
      assert Dot(a[i], v, d) == a[i][d];
    }
  }

  lemma DivideBack(x: real, p: real)
    requires p != 0.0
    ensures p * (x / p) == x
  {
  }

  lemma CancelFactor(p: real, x: real, y: real)
    requires p != 0.0
    ensures p * x == p * y <==> x == y
  {
    if p * x == p * y {
      assert p * (x - y) == 0.0;
    }
  }

  lemma EliminateKeepsSolutions(a: Matrix, d: nat, col: nat, v: Row)
    requires Shape(a, d) && col < d && |v| == d
    ensures Solves(Eliminated(a, d, col), d, v) <==> Solves(a, d, v)
  {
    hide Dot;
    var b := Eliminated(a, d, col);
    forall i | 0 <= i < d && i != col
      ensures Dot(b[i], v, d) == Dot(a[i], v, d) - a[i][col] * Dot(a[col], v, d)
    {
      var f := a[i][col];
      forall j | 0 <= j < d ensures b[i][j] == a[i][j] + (-f) * a[col][j] {
      }
      DotPlus(b[i], a[i], -f, a[col], v, d);
    }
    assert b[col] == a[col];
    if Solves(b, d, v) {
      assert Dot(b[col], v, d) == b[col][d];
      forall k | 0 <= k < d ensures Dot(a[k], v, d) == a[k][d] {
        assert Dot(b[k], v, d) == b[k][d];
      }
    }
    if Solves(a, d, v) {
      assert Dot(a[col], v, d) == a[col][d];
      forall k | 0 <= k < d ensures Dot(b[k], v, d) == b[k][d] {
        assert Dot(a[k], v, d) == a[k][d];
      }
    }
  }

  /** The first `n` columns are those of the identity. */
  ghost predicate UnitColumns(a: Matrix, d: nat, n: nat)
    requires Shape(a, d) && n <= d
  {
    forall i, j | 0 <= i < d && 0 <= j < n :: a[i][j] == if i == j then 1.0 else 0.0
  }

  lemma UnitSolution(a: Matrix, d: nat, v: Row)
    requires Shape(a, d) && UnitColumns(a, d, d) && |v| == d
    ensures Solves(a, d, v) <==> forall i | 0 <= i < d :: v[i] == a[i][d]
  {
    forall i | 0 <= i < d ensures Dot(a[i], v, d) == v[i] {
      DotUnit(a[i], v, d, i);
    }
  }

  /** Swap, scale and eliminate: the whole treatment of one column. */
  ghost function Pivoted(a: Matrix, d: nat, col: nat, pivot: nat): (b: Matrix)
    requires Shape(a, d) && col <= pivot < d && a[pivot][col] != 0.0
    ensures Shape(b, d)
  {
    var s := a[col := a[pivot]][pivot := a[col]];
    Eliminated(s[col := Scaled(s[col], s[col][col])], d, col)
  }

  lemma PivotKeepsSolutions(a: Matrix, d: nat, col: nat, pivot: nat, v: Row)
    requires Shape(a, d) && col <= pivot < d && a[pivot][col] != 0.0 && |v| == d
    ensures Solves(Pivoted(a, d, col, pivot), d, v) <==> Solves(a, d, v)
  {
    var s := a[col := a[pivot]][pivot := a[col]];
    SwapKeepsSolutions(a, d, col, pivot, v);
    ScaleKeepsSolutions(s, d, col, s[col][col], v);
    EliminateKeepsSolutions(s[col := Scaled(s[col], s[col][col])], d, col, v);
  }

  /** One more column becomes a unit column, and the earlier ones stay so. */
  lemma PivotAddsUnitColumn(a: Matrix, d: nat, col: nat, pivot: nat)
    requires Shape(a, d) && col <= pivot < d && a[pivot][col] != 0.0
    requires UnitColumns(a, d, col)
    ensures UnitColumns(Pivoted(a, d, col, pivot), d, col + 1)
  {
    var s := a[col := a[pivot]][pivot := a[col]];
    var t := s[col := Scaled(s[col], s[col][col])];
    var b := Pivoted(a, d, col, pivot);
    assert forall j | 0 <= j < col :: s[col][j] == 0.0 && t[col][j] == 0.0;
    assert t[col][col] == 1.0;
    forall i, j | 0 <= i < d && 0 <= j < col + 1 ensures b[i][j] == if i == j then 1.0 else 0.0 {
      if i != col {
        assert b[i][j] == t[i][j] - t[i][col] * t[col][j];
        assert j < col ==> t[i][j] == if i == j then 1.0 else 0.0;
      }
    }
  }

  // ---- what is accepted

  /** The last row from `col` on with the largest entry in that column. */
  ghost predicate IsPivot(a: Matrix, d: nat, col: nat, p: nat)
    requires Shape(a, d) && col < d
  {
    && col <= p < d
    && (forall i | col <= i < d :: Abs(a[i][col]) <= Abs(a[p][col]))
    && forall i | p < i < d :: Abs(a[i][col]) < Abs(a[p][col])
  }

  /** From column `col` on, elimination never meets a column whose largest entry is negligible. */
  ghost predicate Reduces(a: Matrix, d: nat, col: nat)
    requires Shape(a, d) && col <= d
    decreases d - col
  {
    col == d ||
    exists p: nat :: IsPivot(a, d, col, p) && Abs(a[p][col]) >= PIVOT_FLOOR && Reduces(Pivoted(a, d, col, p), d, col + 1)
  }

  lemma ReducesStep(a: Matrix, d: nat, col: nat, p: nat)
    requires Shape(a, d) && col < d && IsPivot(a, d, col, p)
    ensures if Abs(a[p][col]) < PIVOT_FLOOR then !Reduces(a, d, col)
            else Reduces(a, d, col) <==> Reduces(Pivoted(a, d, col, p), d, col + 1)
  {
    hide Pivoted;
    forall q: nat | IsPivot(a, d, col, q) ensures q == p {
      assert Abs(a[q][col]) <= Abs(a[p][col]) && Abs(a[p][col]) <= Abs(a[q][col]);
    }
  }

  lemma ReducesAtEnd(a: Matrix, d: nat)
    requires Shape(a, d)
    ensures Reduces(a, d, d)
  {
  }

  /**
    The pivot floor refuses systems that have exactly one solution: here the
    feature is so small that its whole column counts as negligible.
  */
  lemma RefusesSolvable(y: Row) returns (x: seq<Row>)
    requires y == [0.0, 0.0]
    ensures Rectangular(x, y) && |x[0]| + 1 == 2 && !Reduces(Normal(x, y, 0.0, |x|), 2, 0)
    ensures forall v: Row | |v| == 2 :: Solves(Normal(x, y, 0.0, |x|), 2, v) <==> v == [0.0, 0.0]
  {
    var t := 0.0000000000001;
    x := [[t], [0.0]];
    TwoSamples(x, y, t);
    var a := Normal(x, y, 0.0, |x|);
    ReducesStep(a, 2, 0, 1);
    forall v: Row | |v| == 2 ensures Solves(a, 2, v) <==> v == [0.0, 0.0] {
      DotOfTwo(a[0], v);
      DotOfTwo(a[1], v);
      TinySystem(v[0], v[1]);
      if v[0] == 0.0 && v[1] == 0.0 {
        assert v == [0.0, 0.0];
      }
    }
  }

  lemma TwoSamples(x: seq<Row>, y: Row, t: real)
    requires x == [[t], [0.0]] && y == [0.0, 0.0]
    ensures Rectangular(x, y) && |x[0]| == 1
    ensures Normal(x, y, 0.0, 2) == [[t * t, t, 0.0], [t, 2.0, 0.0]]
  {
    hide Gram, Moment;
    var s, u := Sample(x[0]), Sample(x[1]);
    assert s == [t, 1.0] && u == [0.0, 1.0];
    GramOfTwo(x, 0, 0);
    GramOfTwo(x, 0, 1);
    GramOfTwo(x, 1, 0);
    GramOfTwo(x, 1, 1);
    MomentOfTwo(x, y, 0);
    MomentOfTwo(x, y, 1);
    var a := Normal(x, y, 0.0, 2);
    assert y[0] == 0.0 && y[1] == 0.0 && t * y[0] == 0.0;
    assert a[0][0] == t * t && a[0][1] == t && a[0][2] == 0.0;
    assert a[1][0] == t && a[1][1] == 2.0 && a[1][2] == 0.0;
    assert a[0] == [t * t, t, 0.0] && a[1] == [t, 2.0, 0.0];
  }

  lemma GramOfTwo(x: seq<Row>, i: nat, j: nat)
    requires |x| == 2 && i <= |x[0]| && j <= |x[0]| && i <= |x[1]| && j <= |x[1]|
    ensures Gram(x, i, j, 2) == Sample(x[0])[i] * Sample(x[0])[j] + Sample(x[1])[i] * Sample(x[1])[j]
  {
    hide Sample;
    assert Gram(x, i, j, 1) == Sample(x[0])[i] * Sample(x[0])[j];
  }

  lemma MomentOfTwo(x: seq<Row>, y: Row, i: nat)
    requires |x| == |y| == 2 && i <= |x[0]| && i <= |x[1]|
    ensures Moment(x, y, i, 2) == Sample(x[0])[i] * y[0] + Sample(x[1])[i] * y[1]
  {
    hide Sample;
    assert Moment(x, y, i, 1) == Sample(x[0])[i] * y[0];
  }

  lemma DotOfTwo(a: Row, v: Row)
    requires |a| >= 2 && |v| >= 2
    ensures Dot(a, v, 2) == a[0] * v[0] + a[1] * v[1]
  {
    assert Dot(a, v, 1) == a[0] * v[0];
  }

  lemma TinySystem(p: real, q: real)
    ensures var t := 0.0000000000001; t * t * p + t * q == 0.0 && t * p + 2.0 * q == 0.0 <==> p == 0.0 && q == 0.0
  {
  }

  // ---- the algorithm, in place

  /** Accumulate one sample into the Gram matrix and the moment vector. */
  method AddSample(a: array2<real>, b: array<real>, xi: Row, yi: real, d: nat)
    requires a.Length0 == a.Length1 == b.Length == d <= |xi|
    modifies a, b
    ensures forall i | 0 <= i < d :: b[i] == old(b[i]) + Times(xi[i], yi)
    ensures forall i, j | 0 <= i < d && 0 <= j < d :: a[i, j] == old(a[i, j]) + Times(xi[i], xi[j])
  {
    for i := 0 to d
      invariant forall k | 0 <= k < d :: b[k] == if k < i then old(b[k]) + Times(xi[k], yi) else old(b[k])
      invariant forall k, j | 0 <= k < d && 0 <= j < d ::
        a[k, j] == if k < i then old(a[k, j]) + Times(xi[k], xi[j]) else old(a[k, j])
    {
      b[i] := b[i] + Times(xi[i], yi);
      for j := 0 to d
        invariant forall k | 0 <= k < d :: b[k] == if k <= i then old(b[k]) + Times(xi[k], yi) else old(b[k])
        invariant forall k, l | 0 <= k < d && 0 <= l < d ::
          a[k, l] == if k < i || (k == i && l < j) then old(a[k, l]) + Times(xi[k], xi[l]) else old(a[k, l])
      {
        a[i, j] := a[i, j] + Times(xi[i], xi[j]);
      }
    }
  }

  /** Add the ridge term to the diagonal. */
  method AddPenalty(a: array2<real>, d: nat, penalty: real)
    requires a.Length0 == a.Length1 == d
    modifies a
    ensures forall i, j | 0 <= i < d && 0 <= j < d :: a[i, j] == old(a[i, j]) + if i == j then penalty else 0.0
  {
    for i := 0 to d
      invariant forall k, j | 0 <= k < d && 0 <= j < d ::
        a[k, j] == old(a[k, j]) + if k == j && k < i then penalty else 0.0
    {
      a[i, i] := a[i, i] + penalty;
    }
  }

  /** Append the right-hand side to each row. */
  method Augment(a: array2<real>, b: array<real>, d: nat) returns (aug: array2<real>)
    requires a.Length0 == a.Length1 == b.Length == d
    ensures fresh(aug) && aug.Length0 == d && aug.Length1 == d + 1
    ensures forall i, j | 0 <= i < d && 0 <= j <= d :: aug[i, j] == if j == d then b[i] else a[i, j]
  {
    aug := new real[d, d + 1]((i, j) requires 0 <= i < d && 0 <= j <= d && a.Length0 == a.Length1 == b.Length == d reads a, b =>
      if j == d then b[i] else a[i, j]);
  }

  /** Build the augmented normal equations. */
  method NormalEquations(x: seq<Row>, y: Row, penalty: real) returns (aug: array2<real>)
    requires Rectangular(x, y)
    ensures fresh(aug) && aug.Length0 == |x[0]| + 1 && aug.Length1 == |x[0]| + 2
    ensures Rows(aug) == Normal(x, y, penalty, |x|)
  {
    hide Moment, Gram, Times;
    var d := |x[0]| + 1;
    var a := new real[d, d]((i, j) => 0.0);
    var b := new real[d](i => 0.0);
    NothingYet(x, y);
    for m := 0 to |x|
      invariant forall i | 0 <= i < d :: b[i] == Moment(x, y, i, m)
      invariant forall i, j | 0 <= i < d && 0 <= j < d :: a[i, j] == Gram(x, i, j, m)
    {
      SumsGrow(x, y, m);
      AddSample(a, b, Sample(x[m]), y[m], d);
    }
    AddPenalty(a, d, penalty);
    aug := Augment(a, b, d);
    IsNormal(x, y, penalty, Rows(aug));
  }

  lemma NothingYet(x: seq<Row>, y: Row)
    requires Rectangular(x, y)
    ensures forall i | 0 <= i <= |x[0]| :: Moment(x, y, i, 0) == 0.0
    ensures forall i, j | 0 <= i <= |x[0]| && 0 <= j <= |x[0]| :: Gram(x, i, j, 0) == 0.0
  {
  }

  lemma SumsGrow(x: seq<Row>, y: Row, m: nat)
    requires Rectangular(x, y) && m < |x|
    ensures |Sample(x[m])| > |x[0]|
    ensures forall i | 0 <= i <= |x[0]| :: Moment(x, y, i, m + 1) == Moment(x, y, i, m) + Times(Sample(x[m])[i], y[m])
    ensures forall i, j | 0 <= i <= |x[0]| && 0 <= j <= |x[0]| ::
      Gram(x, i, j, m + 1) == Gram(x, i, j, m) + Times(Sample(x[m])[i], Sample(x[m])[j])
  {
  }

  lemma IsNormal(x: seq<Row>, y: Row, penalty: real, m: Matrix)
    requires Rectangular(x, y) && Shape(m, |x[0]| + 1)
    requires forall i, j | 0 <= i <= |x[0]| && 0 <= j <= |x[0]| + 1 ::
      m[i][j] == if j == |x[0]| + 1 then Moment(x, y, i, |x|) else Gram(x, i, j, |x|) + if i == j then penalty else 0.0
    ensures m == Normal(x, y, penalty, |x|)
  {
    hide Moment, Gram;
    SameRows(m, Normal(x, y, penalty, |x|));
  }

  /** The last row from `col` on whose entry in that column is largest in magnitude. */
  method PivotRow(aug: array2<real>, d: nat, col: nat) returns (pivot: nat)
    requires aug.Length0 == d && aug.Length1 == d + 1 && col < d
    ensures col <= pivot < d
    ensures forall i | col <= i < d :: Abs(aug[i, col]) <= Abs(aug[pivot, col])
    ensures forall i | pivot < i < d :: Abs(aug[i, col]) < Abs(aug[pivot, col])
  {
    pivot := col;
    for i := col + 1 to d
      invariant col <= pivot < i
      invariant forall k | col <= k < i :: Abs(aug[k, col]) <= Abs(aug[pivot, col])
      invariant forall k | pivot < k < i :: Abs(aug[k, col]) < Abs(aug[pivot, col])
    {
      if Abs(aug[i, col]) >= Abs(aug[pivot, col]) { pivot := i; }
    }
  }

  method SwapRows(aug: array2<real>, r: nat, s: nat)
    requires r < aug.Length0 && s < aug.Length0
    modifies aug
    ensures Rows(aug) == old(Rows(aug))[r := old(Rows(aug)[s])][s := old(Rows(aug)[r])]
  {
    for j := 0 to aug.Length1
      invariant forall i, k | 0 <= i < aug.Length0 && 0 <= k < aug.Length1 ::
        aug[i, k] == if k < j && i == s then old(aug[r, k]) else if k < j && i == r then old(aug[s, k]) else old(aug[i, k])
    {
      aug[r, j], aug[s, j] := aug[s, j], aug[r, j];
    }
    SameRows(Rows(aug), old(Rows(aug))[r := old(Rows(aug)[s])][s := old(Rows(aug)[r])]);
  }

  method ScaleRow(aug: array2<real>, r: nat, p: real)
    requires r < aug.Length0 && p != 0.0
    modifies aug
    ensures Rows(aug) == old(Rows(aug))[r := Scaled(old(Rows(aug)[r]), p)]
  {
    for j := 0 to aug.Length1
      invariant forall i, k | 0 <= i < aug.Length0 && 0 <= k < aug.Length1 ::
        aug[i, k] == if i == r && k < j then old(aug[r, k]) / p else old(aug[i, k])
    {
      aug[r, j] := aug[r, j] / p;
    }
    SameRows(Rows(aug), old(Rows(aug))[r := Scaled(old(Rows(aug)[r]), p)]);
  }

  /** Clear column `col` from every row but its own. */
  method EliminateColumn(aug: array2<real>, d: nat, col: nat)
    requires aug.Length0 == d && aug.Length1 == d + 1 && col < d
    modifies aug
    ensures Rows(aug) == Eliminated(old(Rows(aug)), d, col)
  {
    for row := 0 to d
      invariant forall i, k | 0 <= i < d && 0 <= k <= d ::
        aug[i, k] == if i < row && i != col then old(aug[i, k]) - old(aug[i, col]) * old(aug[col, k]) else old(aug[i, k])
    {
      if row != col {
        var f := aug[row, col];
        for j := 0 to d + 1
          invariant forall i, k | 0 <= i < d && 0 <= k <= d ::
            aug[i, k] == if (i < row && i != col) || (i == row && k < j) then old(aug[i, k]) - old(aug[i, col]) * old(aug[col, k])
                         else old(aug[i, k])
        {
          aug[row, j] := aug[row, j] - f * aug[col, j];
        }
      }
    }
    SameRows(Rows(aug), Eliminated(old(Rows(aug)), d, col));
  }

  /** Bring the pivot row up, scale it to one, and clear the column. */
  method PivotColumn(aug: array2<real>, d: nat, col: nat, pivot: nat)
    requires aug.Length0 == d && aug.Length1 == d + 1 && col <= pivot < d && aug[pivot, col] != 0.0
    modifies aug
    ensures Rows(aug) == Pivoted(old(Rows(aug)), d, col, pivot)
  {
    SwapRows(aug, col, pivot);
    var p := aug[col, col];
    assert p == Rows(aug)[col][col];
    ScaleRow(aug, col, p);
    EliminateColumn(aug, d, col);
  }

  /** What elimination keeps: the solutions, the columns already cleared, and whether it will go through. */
  ghost predicate Reducing(start: Matrix, a: Matrix, d: nat, col: nat) {
    && Shape(start, d) && Shape(a, d) && col <= d && UnitColumns(a, d, col)
    && (forall v: Row | |v| == d :: Solves(a, d, v) <==> Solves(start, d, v))
    && (Reduces(a, d, col) <==> Reduces(start, d, 0))
  }

  lemma ReducingNext(start: Matrix, a: Matrix, d: nat, col: nat, pivot: nat)
    requires col < d && Reducing(start, a, d, col) && IsPivot(a, d, col, pivot)
    ensures if Abs(a[pivot][col]) < PIVOT_FLOOR then !Reduces(start, d, 0) else Reducing(start, Pivoted(a, d, col, pivot), d, col + 1)
  {
    hide Dot, Pivoted, Reduces, Solves;
    ReducesStep(a, d, col, pivot);
    if Abs(a[pivot][col]) >= PIVOT_FLOOR {
      PivotAddsUnitColumn(a, d, col, pivot);
      forall v: Row | |v| == d ensures Solves(Pivoted(a, d, col, pivot), d, v) <==> Solves(start, d, v) {
        PivotKeepsSolutions(a, d, col, pivot, v);
      }
    }
  }

  lemma ReducingEnd(start: Matrix, a: Matrix, d: nat, w: Row)
    requires Reducing(start, a, d, d) && |w| == d && forall i | 0 <= i < d :: w[i] == a[i][d]
    ensures Reduces(start, d, 0) && forall v: Row | |v| == d :: Solves(start, d, v) <==> v == w
  {
    hide Solves, Reduces;
    ReducesAtEnd(a, d);
    ReadOff(a, d, w);
  }

  lemma ReducingStart(a: Matrix, d: nat)
    requires Shape(a, d)
    ensures Reducing(a, a, d, 0)
  {
  }

  /** Clear column after column, unless one is negligible. */
  method Eliminate(aug: array2<real>, d: nat) returns (ok: bool)
    requires aug.Length0 == d && aug.Length1 == d + 1
    modifies aug
    ensures ok <==> Reduces(old(Rows(aug)), d, 0)
    ensures ok ==> Reducing(old(Rows(aug)), Rows(aug), d, d)
  {
    hide Dot, Eliminated, Pivoted, Reduces, Reducing;
    ghost var start := Rows(aug);
    ReducingStart(start, d);
    for col := 0 to d
      invariant Reducing(start, Rows(aug), d, col)
    {
      var pivot := PivotRow(aug, d, col);
      ReducingNext(start, Rows(aug), d, col, pivot);
      if Abs(aug[pivot, col]) < PIVOT_FLOOR { return false; }
      PivotColumn(aug, d, col, pivot);
    }
    ReducingWhole(start, Rows(aug), d);
    return true;
  }

  lemma ReducingWhole(start: Matrix, a: Matrix, d: nat)
    requires Reducing(start, a, d, d)
    ensures Reduces(start, d, 0)
  {
    ReducesAtEnd(a, d);
  }

  /** The last column of what elimination leaves. */
  method LastColumn(aug: array2<real>, d: nat) returns (w: Row)
    requires aug.Length0 == d && aug.Length1 == d + 1
    ensures |w| == d && forall i | 0 <= i < d :: w[i] == Rows(aug)[i][d]
  {
    w := seq(d, i requires 0 <= i < d && aug.Length0 == d && aug.Length1 == d + 1 reads aug => aug[i, d]);
  }

  /**
    Least squares with a ridge term.  An accepted weight vector is the one
    solution of the normal equations, and with a non-negative penalty no other
    weight vector costs less.
  */
  method RidgeRegression(x: seq<Row>, y: Row, penalty: real) returns (r: Result<Row, Error>)
    requires x != [] ==> forall k | 0 <= k < |x| :: |x[k]| >= |x[0]|
    ensures x == [] || |x| != |y| <==> r == Err(BadInputs)
    ensures x != [] && |x| == |y| ==> (r.Ok? <==> Reduces(Normal(x, y, penalty, |x|), |x[0]| + 1, 0))
    ensures r.Ok? ==> |r.value| == |x[0]| + 1
    ensures r.Ok? ==> forall v: Row | |v| == |x[0]| + 1 ::
      Solves(Normal(x, y, penalty, |x|), |v|, v) <==> v == r.value
    ensures r.Ok? && penalty >= 0.0 ==> forall v: Row | |v| == |x[0]| + 1 ::
      Cost(x, y, penalty, r.value) <= Cost(x, y, penalty, v)
  {
    if x == [] || |x| != |y| { return Err(BadInputs); }
    var d := |x[0]| + 1;
    hide Dot, Cost, Reduces, Reducing, Solves, Normal;
    var aug := NormalEquations(x, y, penalty);
    ghost var start := Rows(aug);
    var ok := Eliminate(aug, d);
    if !ok { return Err(SingularNormalMatrix); }
    var w := LastColumn(aug, d);
    ReducingEnd(start, Rows(aug), d, w);
    if penalty >= 0.0 {
      forall v: Row | |v| == d ensures Cost(x, y, penalty, w) <= Cost(x, y, penalty, v) {
        SolutionMinimises(x, y, penalty, w, v);
      }
    }
    r := Ok(w);
  }

  /** Once every column is a unit column, the last column is the one solution. */
  lemma ReadOff(a: Matrix, d: nat, w: Row)
    requires Shape(a, d) && UnitColumns(a, d, d) && |w| == d
    requires forall i | 0 <= i < d :: w[i] == a[i][d]
    ensures forall v: Row | |v| == d :: Solves(a, d, v) <==> v == w
  {
    forall v: Row | |v| == d ensures Solves(a, d, v) <==> v == w {
      UnitSolution(a, d, v);
    }
  }

  /** The features cut or filled up with zeros to k of them. */
  function Fitted(x: Row, k: nat): (r: Row)
    ensures |r| == k && forall j | 0 <= j < k :: r[j] == if j < |x| then x[j] else 0.0
  {
    seq(k, j => if 0 <= j < |x| then x[j] else 0.0)
  }

  /**
    The prediction pairs features with weights and adds the last weight as intercept.
    Missing features count as zero and further ones are ignored, but the first of
    those is paired with the intercept, which then counts once more for it.
  */
  function RidgePredict(w: Row, x: Row): (p: real)
    requires w != []
    ensures p == Dot(Sample(Fitted(x, |w| - 1)), w, |w|) + if |x| < |w| then 0.0 else x[|w| - 1] * w[|w| - 1]
  {
    var k := if |x| < |w| then |x| else |w|;
    var fitted := Fitted(x, |w| - 1);
    PairedAsFitted(fitted, Sample(fitted), x, w, if |x| < |w| then |x| else |w| - 1);
    Dot(x, w, k) + w[|w| - 1]
  }

  lemma {:induction false} PairedAsFitted(fitted: Row, s: Row, x: Row, w: Row, k: nat)
    requires w != [] && fitted == Fitted(x, |w| - 1) && s == Sample(fitted) && k <= |x| && k <= |w| - 1
    requires |x| <= k || k == |w| - 1
    ensures Dot(s, w, |w| - 1) == Dot(x, w, k)
  {
    SamePrefix(s, x, w, k);
    RestIsZero(s, w, k, |w| - 1);
  }

  lemma {:induction false} SamePrefix(s: Row, x: Row, w: Row, k: nat)
    requires k <= |x| && k <= |s| && k <= |w| && forall j | 0 <= j < k :: s[j] == x[j]
    ensures Dot(s, w, k) == Dot(x, w, k)
  {
    if k > 0 {
      SamePrefix(s, x, w, k - 1);
    }
  }

  lemma {:induction false} RestIsZero(s: Row, w: Row, k: nat, m: nat)
    requires k <= m <= |s| && m <= |w| && forall j | k <= j < m :: s[j] == 0.0
    ensures Dot(s, w, m) == Dot(s, w, k)
    decreases m
  {
    if k < m {
      RestIsZero(s, w, k, m - 1);
    }
  }
}
