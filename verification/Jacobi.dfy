/**
  The cyclic Jacobi eigenvalue oracle over exact reals.  The square root is a
  parameter; all that is used of it is that it is a non-negative root.
*/
module Jacobi {
  import opened Linear

  ghost predicate IsSqrt(sqrt: real -> real) {
    forall x | x >= 0.0 :: sqrt(x) >= 0.0 && sqrt(x) * sqrt(x) == x
  }

  ghost predicate Square(m: Matrix, n: nat) {
    |m| == n && forall i | 0 <= i < n :: |m[i]| == n
  }

  ghost predicate Symmetric(m: Matrix, n: nat)
    requires Square(m, n)
  {
    forall i, j | 0 <= i < n && 0 <= j < n :: m[i][j] == m[j][i]
  }

  /** The sum of the first `k` entries. */
  function Total(r: Row, k: nat): real
    requires k <= |r|
  {
    if k == 0 then 0.0 else Total(r, k - 1) + r[k - 1]
  }

  /** Two rows that differ in two places only, with the same sum there, have the same total. */
  lemma {:induction false} TotalTwoChanged(r: Row, s: Row, p: nat, q: nat, k: nat)
    requires k <= |r| && k <= |s| && p < q < k
    requires forall i | 0 <= i < k && i != p && i != q :: r[i] == s[i]
    requires r[p] + r[q] == s[p] + s[q]
    ensures Total(r, k) == Total(s, k)
  {
    if q == k - 1 {
      TotalOneChanged(r, s, p, k - 1);
    } else {
      TotalTwoChanged(r, s, p, q, k - 1);
    }
  }

  lemma {:induction false} TotalOneChanged(r: Row, s: Row, p: nat, k: nat)
    requires p < k && k <= |r| && k <= |s|
    requires forall i | 0 <= i < k && i != p :: r[i] == s[i]
    ensures Total(r, k) - r[p] == Total(s, k) - s[p]
  {
    if p == k - 1 {
      TotalSame(r, s, k - 1);
    } else {
      TotalOneChanged(r, s, p, k - 1);
    }
  }

  lemma {:induction false} TotalSame(r: Row, s: Row, k: nat)
    requires k <= |r| && k <= |s| && forall i | 0 <= i < k :: r[i] == s[i]
    ensures Total(r, k) == Total(s, k)
  {
    if k == 0 {
    } else {
      TotalSame(r, s, k - 1);
    }
  }

  function Products(a: Row, b: Row): (r: Row)
    requires |a| == |b|
    ensures |r| == |a| && forall i | 0 <= i < |a| :: r[i] == Times(a[i], b[i])
  {
    seq(|a|, i requires 0 <= i < |a| => Times(a[i], b[i]))
  }

  lemma {:induction false} DotIsTotal(a: Row, b: Row, k: nat)
    requires |a| == |b| && k <= |a|
    ensures Dot(a, b, k) == Total(Products(a, b), k)
  {
    if k == 0 {
    } else {
      DotIsTotal(a, b, k - 1);
    }
  }

  // ---- plane rotations

  /** The two coordinates of the point (x, y) turned by the angle with cosine c and sine s. */
  function Lo(c: real, s: real, x: real, y: real): real { c * x - s * y }

  function Hi(c: real, s: real, x: real, y: real): real { s * x + c * y }

  ghost predicate Unit(c: real, s: real) { c * c + s * s == 1.0 }

  /** Turning two points keeps their dot product. */
  lemma TurnPair(c: real, s: real, x: real, y: real, u: real, v: real)
    requires Unit(c, s)
    ensures Times(Lo(c, s, x, y), Lo(c, s, u, v)) + Times(Hi(c, s, x, y), Hi(c, s, u, v)) == Times(x, u) + Times(y, v)
  {
    LoProduct(c, s, x, y, u, v);
    HiProduct(c, s, x, y, u, v);
    UnitCombine(c, s, x * u);
    UnitCombine(c, s, y * v);
  }

  lemma LoProduct(c: real, s: real, x: real, y: real, u: real, v: real)
    ensures Times(Lo(c, s, x, y), Lo(c, s, u, v)) == (c * c) * (x * u) - (c * s) * (x * v + y * u) + (s * s) * (y * v)
  {
    assert (c * x) * (c * u) == (c * c) * (x * u) && (s * y) * (s * v) == (s * s) * (y * v);
    assert (c * x) * (s * v) + (s * y) * (c * u) == (c * s) * (x * v + y * u);
  }

  lemma HiProduct(c: real, s: real, x: real, y: real, u: real, v: real)
    ensures Times(Hi(c, s, x, y), Hi(c, s, u, v)) == (s * s) * (x * u) + (c * s) * (x * v + y * u) + (c * c) * (y * v)
  {
    assert (s * x) * (s * u) == (s * s) * (x * u) && (c * y) * (c * v) == (c * c) * (y * v);
    assert (s * x) * (c * v) + (c * y) * (s * u) == (c * s) * (x * v + y * u);
  }

  lemma UnitCombine(c: real, s: real, p: real)
    requires Unit(c, s)
    ensures (c * c) * p + (s * s) * p == p
  {
    assert (c * c) * p + (s * s) * p == (c * c + s * s) * p;
  }

  lemma TurnBackPair(c: real, s: real, x: real, y: real)
    requires Unit(c, s)
    ensures Lo(c, s, Lo(c, -s, x, y), Hi(c, -s, x, y)) == x
    ensures Hi(c, s, Lo(c, -s, x, y), Hi(c, -s, x, y)) == y
  {
    var cc, ss := c * c, s * s;
    assert c * (c * x + s * y) - s * (c * y - s * x) == (cc + ss) * x;
    assert s * (c * x + s * y) + c * (c * y - s * x) == (cc + ss) * y;
  }

  /** Turning rows and columns of a symmetric two by two block: it stays symmetric, with the same trace. */
  lemma TurnBlock(c: real, s: real, x: real, y: real, z: real)
    ensures Lo(c, s, Hi(c, s, x, y), Hi(c, s, y, z)) == Hi(c, s, Lo(c, s, x, y), Lo(c, s, y, z))
    ensures Unit(c, s) ==>
      Lo(c, s, Lo(c, s, x, y), Lo(c, s, y, z)) + Hi(c, s, Hi(c, s, x, y), Hi(c, s, y, z)) == x + z
  {
    var cc, ss, cs := c * c, s * s, c * s;
    assert c * (s * x + c * y) - s * (s * y + c * z) == cs * x + cc * y - ss * y - cs * z;
    assert s * (c * x - s * y) + c * (c * y - s * z) == cs * x + cc * y - ss * y - cs * z;
    assert c * (c * x - s * y) - s * (c * y - s * z) == cc * x - 2.0 * (cs * y) + ss * z;
    assert s * (s * x + c * y) + c * (s * y + c * z) == ss * x + 2.0 * (cs * y) + cc * z;
    assert cc * x + ss * x == (cc + ss) * x;
    assert cc * z + ss * z == (cc + ss) * z;
  }

  /** Turn the coordinates p and q of a vector. */
  function Turn(r: Row, p: nat, q: nat, c: real, s: real): (t: Row)
    requires p < q < |r|
    ensures |t| == |r|
    ensures forall i | 0 <= i < |r| && i != p && i != q :: t[i] == r[i]
    ensures t[p] == Lo(c, s, r[p], r[q]) && t[q] == Hi(c, s, r[p], r[q])
  {
    r[p := Lo(c, s, r[p], r[q])][q := Hi(c, s, r[p], r[q])]
  }

  /** Turning both arguments keeps their dot product. */
  lemma TurnKeepsDot(a: Row, b: Row, p: nat, q: nat, c: real, s: real)
    requires |a| == |b| && p < q < |a| && Unit(c, s)
    ensures Dot(Turn(a, p, q, c, s), Turn(b, p, q, c, s), |a|) == Dot(a, b, |a|)
  {
    hide Lo, Hi, Unit, Dot, Times;
    var a', b' := Turn(a, p, q, c, s), Turn(b, p, q, c, s);
    TurnPair(c, s, a[p], a[q], b[p], b[q]);
    DotIsTotal(a, b, |a|);
    DotIsTotal(a', b', |a|);
    TotalTwoChanged(Products(a', b'), Products(a, b), p, q, |a|);
  }

  lemma TurnBack(r: Row, p: nat, q: nat, c: real, s: real)
    requires p < q < |r| && Unit(c, s)
    ensures Turn(Turn(r, p, q, c, -s), p, q, c, s) == r
  {
    hide Lo, Hi;
    TurnBackPair(c, s, r[p], r[q]);
  }

  /** Columns p and q turned. */
  ghost function TurnedColumns(m: Matrix, n: nat, p: nat, q: nat, c: real, s: real): (r: Matrix)
    requires Square(m, n) && p < q < n
    ensures Square(r, n)
  {
    seq(n, i requires 0 <= i < n => Turn(m[i], p, q, c, s))
  }

  function LoRow(c: real, s: real, a: Row, b: Row): (r: Row)
    requires |a| == |b|
    ensures |r| == |a| && forall k | 0 <= k < |a| :: r[k] == Lo(c, s, a[k], b[k])
  {
    seq(|a|, k requires 0 <= k < |a| => Lo(c, s, a[k], b[k]))
  }

  function HiRow(c: real, s: real, a: Row, b: Row): (r: Row)
    requires |a| == |b|
    ensures |r| == |a| && forall k | 0 <= k < |a| :: r[k] == Hi(c, s, a[k], b[k])
  {
    seq(|a|, k requires 0 <= k < |a| => Hi(c, s, a[k], b[k]))
  }

  /** Rows p and q turned. */
  ghost function TurnedRows(m: Matrix, n: nat, p: nat, q: nat, c: real, s: real): (r: Matrix)
    requires Square(m, n) && p < q < n
    ensures Square(r, n)
  {
    m[p := LoRow(c, s, m[p], m[q])][q := HiRow(c, s, m[p], m[q])]
  }

  /** The Givens similarity transform of one pivot. */
  ghost function Rotated(m: Matrix, n: nat, p: nat, q: nat, c: real, s: real): (r: Matrix)
    requires Square(m, n) && p < q < n
    ensures Square(r, n)
  {
    TurnedRows(TurnedColumns(m, n, p, q, c, s), n, p, q, c, s)
  }

  lemma RotationKeepsSymmetry(m: Matrix, n: nat, p: nat, q: nat, c: real, s: real)
    requires Square(m, n) && Symmetric(m, n) && p < q < n
    ensures Symmetric(Rotated(m, n, p, q, c, s), n)
  {
    hide Lo, Hi;
    var r := Rotated(m, n, p, q, c, s);
    TurnBlock(c, s, m[p][p], m[p][q], m[q][q]);
    forall i, j | 0 <= i < n && 0 <= j < n ensures r[i][j] == r[j][i] {
    }
  }

  // ---- trace and Frobenius norm

  function Diagonal(m: Matrix, n: nat): (r: Row)
    requires |m| == n && forall i | 0 <= i < n :: |m[i]| == n
    ensures |r| == n && forall i | 0 <= i < n :: r[i] == m[i][i]
  {
    seq(n, i requires 0 <= i < n => m[i][i])
  }

  ghost function Trace(m: Matrix, n: nat): real
    requires Square(m, n)
  {
    Total(Diagonal(m, n), n)
  }

  ghost function RowNorms(m: Matrix, n: nat): (r: Row)
    requires Square(m, n)
    ensures |r| == n && forall i | 0 <= i < n :: r[i] == Dot(m[i], m[i], n)
  {
    seq(n, i requires 0 <= i < n => Dot(m[i], m[i], n))
  }

  /** The sum of the squares of all entries. */
  ghost function Frobenius(m: Matrix, n: nat): real
    requires Square(m, n)
  {
    Total(RowNorms(m, n), n)
  }

  lemma RotationKeepsTrace(m: Matrix, n: nat, p: nat, q: nat, c: real, s: real)
    requires Square(m, n) && Symmetric(m, n) && p < q < n && Unit(c, s)
    ensures Trace(Rotated(m, n, p, q, c, s), n) == Trace(m, n)
  {
    hide Lo, Hi, Unit;
    TurnBlock(c, s, m[p][p], m[p][q], m[q][q]);
    TotalTwoChanged(Diagonal(Rotated(m, n, p, q, c, s), n), Diagonal(m, n), p, q, n);
  }

  lemma {:induction false} TurnedRowNorms(a: Row, b: Row, c: real, s: real, k: nat)
    requires |a| == |b| && k <= |a| && Unit(c, s)
    ensures var u, v := LoRow(c, s, a, b), HiRow(c, s, a, b);
      Dot(u, u, k) + Dot(v, v, k) == Dot(a, a, k) + Dot(b, b, k)
  {
    hide Lo, Hi, Unit;
    if k == 0 {
    } else {
      TurnedRowNorms(a, b, c, s, k - 1);
      TurnPair(c, s, a[k - 1], b[k - 1], a[k - 1], b[k - 1]);
    }
  }

  lemma RotationKeepsFrobenius(m: Matrix, n: nat, p: nat, q: nat, c: real, s: real)
    requires Square(m, n) && p < q < n && Unit(c, s)
    ensures Frobenius(Rotated(m, n, p, q, c, s), n) == Frobenius(m, n)
  {
    hide Lo, Hi, Unit, Dot, Turn;
    var b := TurnedColumns(m, n, p, q, c, s);
    forall i | 0 <= i < n ensures RowNorms(b, n)[i] == RowNorms(m, n)[i] {
      TurnKeepsDot(m[i], m[i], p, q, c, s);
    }
    TotalSame(RowNorms(b, n), RowNorms(m, n), n);
    TurnedRowNorms(b[p], b[q], c, s, n);
    TotalTwoChanged(RowNorms(Rotated(m, n, p, q, c, s), n), RowNorms(b, n), p, q, n);
  }

  // ---- the square sum above the diagonal

  /** The squares of the first `k` entries of column `j`. */
  ghost function ColumnSquares(m: Matrix, n: nat, j: nat, k: nat): real
    requires Square(m, n) && j < n && k <= n
  {
    if k == 0 then 0.0 else ColumnSquares(m, n, j, k - 1) + Times(m[k - 1][j], m[k - 1][j])
  }

  /** The squares above the diagonal of the leading k by k block, column by column. */
  ghost function Off(m: Matrix, n: nat, k: nat): real
    requires Square(m, n) && k <= n
  {
    if k == 0 then 0.0 else Off(m, n, k - 1) + ColumnSquares(m, n, k - 1, k - 1)
  }

  ghost function DiagonalSquares(m: Matrix, n: nat): Row
    requires Square(m, n)
  {
    Products(Diagonal(m, n), Diagonal(m, n))
  }

  lemma {:induction false} ColumnIsRow(m: Matrix, n: nat, j: nat, k: nat)
    requires Square(m, n) && Symmetric(m, n) && j < n && k <= n
    ensures ColumnSquares(m, n, j, k) == Dot(m[j], m[j], k)
  {
    if k == 0 {
    } else {
      ColumnIsRow(m, n, j, k - 1);
    }
  }

  /** The norms of the leading `k` columns of the first `k` rows. */
  ghost function BlockSquares(m: Matrix, n: nat, rows: nat, k: nat): real
    requires Square(m, n) && rows <= n && k <= n
  {
    if rows == 0 then 0.0 else BlockSquares(m, n, rows - 1, k) + Dot(m[rows - 1], m[rows - 1], k)
  }

  lemma {:induction false} WiderBlock(m: Matrix, n: nat, rows: nat, k: nat)
    requires Square(m, n) && rows <= n && k < n
    ensures BlockSquares(m, n, rows, k + 1) == BlockSquares(m, n, rows, k) + ColumnSquares(m, n, k, rows)
  {
    if rows == 0 {
    } else {
      WiderBlock(m, n, rows - 1, k);
    }
  }

  /** A symmetric matrix: all squares are the diagonal's and twice those above it. */
  lemma {:induction false} BlockSplits(m: Matrix, n: nat, k: nat)
    requires Square(m, n) && Symmetric(m, n) && k <= n
    ensures BlockSquares(m, n, k, k) == Total(DiagonalSquares(m, n), k) + 2.0 * Off(m, n, k)
  {
    if k == 0 {
    } else {
      BlockSplits(m, n, k - 1);
      WiderBlock(m, n, k - 1, k - 1);
      ColumnIsRow(m, n, k - 1, k - 1);
    }
  }

  lemma {:induction false} BlockIsFrobenius(m: Matrix, n: nat, rows: nat)
    requires Square(m, n) && rows <= n
    ensures BlockSquares(m, n, rows, n) == Total(RowNorms(m, n), rows)
  {
    if rows == 0 {
    } else {
      BlockIsFrobenius(m, n, rows - 1);
    }
  }

  lemma FrobeniusSplits(m: Matrix, n: nat)
    requires Square(m, n) && Symmetric(m, n)
    ensures Frobenius(m, n) == Total(DiagonalSquares(m, n), n) + 2.0 * Off(m, n, n)
  {
    BlockSplits(m, n, n);
    BlockIsFrobenius(m, n, n);
  }

  lemma {:induction false} OffNonNegative(m: Matrix, n: nat, k: nat)
    requires Square(m, n) && k <= n
    ensures Off(m, n, k) >= 0.0
    ensures Off(m, n, k) == 0.0 ==> forall i, j | 0 <= i < j < k :: m[i][j] == 0.0
  {
    if k == 0 {
    } else {
      OffNonNegative(m, n, k - 1);
      ColumnSquaresNonNegative(m, n, k - 1, k - 1);
    }
  }

  lemma {:induction false} ColumnSquaresNonNegative(m: Matrix, n: nat, j: nat, k: nat)
    requires Square(m, n) && j < n && k <= n
    ensures ColumnSquares(m, n, j, k) >= 0.0
    ensures ColumnSquares(m, n, j, k) == 0.0 ==> forall i | 0 <= i < k :: m[i][j] == 0.0
  {
    hide Times;
    if k == 0 {
    } else {
      ColumnSquaresNonNegative(m, n, j, k - 1);
      TimesSquare(m[k - 1][j]);
    }
  }

  /** A rotation that clears its pivot lowers the square sum above the diagonal by exactly the pivot's square. */
  lemma RotationLowersOff(m: Matrix, n: nat, p: nat, q: nat, c: real, s: real)
    requires Square(m, n) && Symmetric(m, n) && p < q < n && Unit(c, s)
    requires Rotated(m, n, p, q, c, s)[p][q] == 0.0
    ensures Off(Rotated(m, n, p, q, c, s), n, n) == Off(m, n, n) - Times(m[p][q], m[p][q])
  {
    hide Lo, Hi, Unit, Off, Frobenius, Rotated;
    RotatedElsewhere(m, n, p, q, c, s);
    assert Times(0.0, 0.0) == 0.0;
    hide Times;
    var r := Rotated(m, n, p, q, c, s);
    RotationKeepsSymmetry(m, n, p, q, c, s);
    RotationKeepsFrobenius(m, n, p, q, c, s);
    FrobeniusSplits(m, n);
    FrobeniusSplits(r, n);
    PivotBlock(m, n, p, q, c, s);
    var d, e := DiagonalSquares(r, n), DiagonalSquares(m, n);
    var e' := e[p := e[p] + 2.0 * Times(m[p][q], m[p][q])];
    TotalTwoChanged(d, e', p, q, n);
    TotalOneChanged(e', e, p, n);
  }

  /** Away from rows and columns p and q nothing changes. */
  lemma RotatedElsewhere(m: Matrix, n: nat, p: nat, q: nat, c: real, s: real)
    requires Square(m, n) && p < q < n
    ensures forall i | 0 <= i < n && i != p && i != q :: Rotated(m, n, p, q, c, s)[i][i] == m[i][i]
  {
  }

  /** The four squares of the pivot's two by two block keep their sum. */
  lemma PivotBlock(m: Matrix, n: nat, p: nat, q: nat, c: real, s: real)
    requires Square(m, n) && p < q < n && Unit(c, s)
    ensures var r := Rotated(m, n, p, q, c, s);
      Times(r[p][p], r[p][p]) + Times(r[p][q], r[p][q]) + Times(r[q][p], r[q][p]) + Times(r[q][q], r[q][q]) ==
      Times(m[p][p], m[p][p]) + Times(m[p][q], m[p][q]) + Times(m[q][p], m[q][p]) + Times(m[q][q], m[q][q])
  {
    hide Lo, Hi, Unit, Times;
    var b := TurnedColumns(m, n, p, q, c, s);
    TurnPair(c, s, m[p][p], m[p][q], m[p][p], m[p][q]);
    TurnPair(c, s, m[q][p], m[q][q], m[q][p], m[q][q]);
    TurnPair(c, s, b[p][p], b[q][p], b[p][p], b[q][p]);
    TurnPair(c, s, b[p][q], b[q][q], b[p][q], b[q][q]);
  }

  // ---- the angle that clears the pivot

  /** The tangent the code computes from tau: the root of t^2 + 2 tau t = 1 that is smaller in magnitude. */
  function Tangent(sqrt: real -> real, tau: real): real
    requires IsSqrt(sqrt)
  {
    var r := sqrt(1.0 + tau * tau);
    RootIsLarge(sqrt, tau);
    if tau >= 0.0 then Inverse(tau + r) else -Inverse(-tau + r)
  }

  function Inverse(x: real): real
    requires x != 0.0
  {
    1.0 / x
  }

  lemma InverseTimes(x: real)
    requires x != 0.0
    ensures Inverse(x) * x == 1.0
  {
  }

  /** Half the difference of the diagonal entries over the off-diagonal one. */
  function Slope(x: real, y: real, z: real): real
    requires y != 0.0
  {
    (z - x) / (2.0 * y)
  }

  lemma SlopeTimes(x: real, y: real, z: real)
    requires y != 0.0
    ensures Slope(x, y, z) * (2.0 * y) == z - x
  {
  }

  lemma RootIsLarge(sqrt: real -> real, tau: real)
    requires IsSqrt(sqrt)
    ensures 1.0 + tau * tau >= 1.0
    ensures var r := sqrt(1.0 + tau * tau); r * r == 1.0 + tau * tau && r >= 1.0
  {
    TimesSquare(tau);
    AtLeastOne(sqrt(1.0 + tau * tau), tau * tau);
  }

  lemma AtLeastOne(r: real, x: real)
    requires r >= 0.0 && Times(r, r) == 1.0 + x && x >= 0.0
    ensures r >= 1.0
  {
    assert Times(r, 1.0 - r) == r - Times(r, r);
    hide Times;
    if r < 1.0 {
      TimesNonNegative(r, 1.0 - r);
    }
  }

  lemma TangentSolves(sqrt: real -> real, tau: real)
    requires IsSqrt(sqrt)
    ensures var t := Tangent(sqrt, tau); t * t + 2.0 * (tau * t) == 1.0
  {
    hide Inverse;
    RootIsLarge(sqrt, tau);
    var r := sqrt(1.0 + tau * tau);
    if tau >= 0.0 {
      Reciprocal(tau, r);
    } else {
      assert -tau * -tau == tau * tau;
      Reciprocal(-tau, r);
      Mirrored(-tau, Inverse(-tau + r));
    }
  }

  lemma Mirrored(a: real, u: real)
    ensures -u * -u + 2.0 * (-a * -u) == u * u + 2.0 * (a * u)
  {
    assert -u * -u == u * u && -a * -u == a * u;
  }

  lemma Reciprocal(a: real, r: real)
    requires a >= 0.0 && r >= 1.0 && r * r == 1.0 + a * a
    ensures var u := Inverse(a + r); u * u + 2.0 * (a * u) == 1.0
  {
    InverseTimes(a + r);
    hide Inverse;
    ReciprocalAlgebra(a, r, a + r, Inverse(a + r));
  }

  lemma ReciprocalAlgebra(a: real, r: real, d: real, u: real)
    requires r * r == 1.0 + a * a && d == a + r && u * d == 1.0
    ensures u * u + 2.0 * (a * u) == 1.0
  {
    assert d * d == 1.0 + 2.0 * (a * d);
    UndoTwice(u, d);
    assert u * (1.0 + 2.0 * (a * d)) == u + 2.0 * (a * (u * d));
    assert d == u + 2.0 * a;
    assert u * (u + 2.0 * a) == u * u + 2.0 * (a * u);
  }

  lemma UndoTwice(u: real, d: real)
    requires u * d == 1.0
    ensures u * (d * d) == d
  {
    assert u * (d * d) == (u * d) * d;
  }

  /** The cosine and sine the code computes for the pivot with diagonal entries x and z and off-diagonal entry y. */
  function Angle(sqrt: real -> real, x: real, y: real, z: real): (real, real)
    requires IsSqrt(sqrt) && y != 0.0
  {
    var t := Tangent(sqrt, Slope(x, y, z));
    var c := Cosine(sqrt, t);
    (c, Times(t, c))
  }

  /** The cosine that goes with a tangent. */
  function Cosine(sqrt: real -> real, t: real): real
    requires IsSqrt(sqrt)
  {
    RootIsLarge(sqrt, t);
    Inverse(sqrt(1.0 + t * t))
  }

  lemma AngleIsUnit(sqrt: real -> real, x: real, y: real, z: real)
    requires IsSqrt(sqrt) && y != 0.0
    ensures var (c, s) := Angle(sqrt, x, y, z); Unit(c, s)
  {
    hide Tangent, Slope, Cosine, Times, Unit;
    CosineIsUnit(sqrt, Tangent(sqrt, Slope(x, y, z)));
  }

  lemma CosineIsUnit(sqrt: real -> real, t: real)
    requires IsSqrt(sqrt)
    ensures Unit(Cosine(sqrt, t), Times(t, Cosine(sqrt, t)))
  {
    RootIsLarge(sqrt, t);
    hide Inverse;
    InverseTimes(sqrt(1.0 + t * t));
    UnitFromRoot(t, sqrt(1.0 + t * t), Cosine(sqrt, t));
  }

  lemma UnitFromRoot(t: real, r: real, c: real)
    requires r * r == 1.0 + t * t && c * r == 1.0
    ensures Unit(c, Times(t, c))
  {
    assert (t * c) * (t * c) == (t * t) * (c * c);
    assert c * c + (t * t) * (c * c) == (1.0 + t * t) * (c * c);
    assert (r * r) * (c * c) == (c * r) * (c * r);
  }

  /** The angle is the one that turns the off-diagonal entry into zero. */
  lemma AngleClears(sqrt: real -> real, x: real, y: real, z: real)
    requires IsSqrt(sqrt) && y != 0.0
    ensures var (c, s) := Angle(sqrt, x, y, z);
      Lo(c, s, Hi(c, s, x, y), Hi(c, s, y, z)) == 0.0
  {
    hide Tangent, Slope, Cosine, Times, Lo, Hi;
    var tau := Slope(x, y, z);
    var t := Tangent(sqrt, tau);
    TangentSolves(sqrt, tau);
    SlopeTimes(x, y, z);
    ClearedEntry(Cosine(sqrt, t), t, tau, x, y, z);
  }

  lemma ClearedEntry(c: real, t: real, tau: real, x: real, y: real, z: real)
    requires t * t + 2.0 * (tau * t) == 1.0 && tau * (2.0 * y) == z - x
    ensures Lo(c, Times(t, c), Hi(c, Times(t, c), x, y), Hi(c, Times(t, c), y, z)) == 0.0
  {
    var s := t * c;
    var cc := c * c;
    assert c * (s * x + c * y) == cc * (t * x + y);
    assert s * (s * y + c * z) == cc * (t * (t * y) + t * z);
    var e := t * x + y - t * (t * y) - t * z;
    assert cc * (t * x + y) - cc * (t * (t * y) + t * z) == cc * e;
    assert t * (z - x) == t * (tau * (2.0 * y)) == (2.0 * (tau * t)) * y;
    assert t * (t * y) == (t * t) * y;
    assert e == y - (t * t) * y - t * (z - x);
    assert (t * t) * y + (2.0 * (tau * t)) * y == (t * t + 2.0 * (tau * t)) * y;
    assert e == 0.0;
  }

  // ---- the spectrum

  /** A matrix applied to a vector. */
  ghost function Image(m: Matrix, n: nat, v: Row): (r: Row)
    requires Square(m, n) && |v| == n
    ensures |r| == n && forall i | 0 <= i < n :: r[i] == Dot(m[i], v, n)
  {
    seq(n, i requires 0 <= i < n => Dot(m[i], v, n))
  }

  function Multiple(x: real, v: Row): (r: Row)
    ensures |r| == |v| && forall i | 0 <= i < |v| :: r[i] == Times(x, v[i])
  {
    seq(|v|, i requires 0 <= i < |v| => Times(x, v[i]))
  }

  ghost predicate IsEigenpair(m: Matrix, n: nat, x: real, v: Row)
    requires Square(m, n)
  {
    |v| == n && Dot(v, v, n) > 0.0 && Image(m, n, v) == Multiple(x, v)
  }

  ghost predicate IsEigenvalue(m: Matrix, n: nat, x: real)
    requires Square(m, n)
  {
    exists v :: IsEigenpair(m, n, x, v)
  }

  lemma LoRowDot(c: real, s: real, a: Row, b: Row, v: Row, n: nat)
    requires |a| == |b| == |v| == n
    ensures Dot(LoRow(c, s, a, b), v, n) == Lo(c, s, Dot(a, v, n), Dot(b, v, n))
  {
    var ca := Multiple(c, a);
    forall k | 0 <= k < n ensures LoRow(c, s, a, b)[k] == ca[k] + (-s) * b[k] {
    }
    DotPlus(LoRow(c, s, a, b), ca, -s, b, v, n);
    DotScale(ca, c, a, v, n);
  }

  lemma HiRowDot(c: real, s: real, a: Row, b: Row, v: Row, n: nat)
    requires |a| == |b| == |v| == n
    ensures Dot(HiRow(c, s, a, b), v, n) == Hi(c, s, Dot(a, v, n), Dot(b, v, n))
  {
    var sa := Multiple(s, a);
    forall k | 0 <= k < n ensures HiRow(c, s, a, b)[k] == sa[k] + c * b[k] {
    }
    DotPlus(HiRow(c, s, a, b), sa, c, b, v, n);
    DotScale(sa, s, a, v, n);
  }

  /** The rotated matrix does to a turned vector what the matrix does to the vector, turned. */
  lemma RotationIntertwines(m: Matrix, n: nat, p: nat, q: nat, c: real, s: real, v: Row)
    requires Square(m, n) && p < q < n && |v| == n && Unit(c, s)
    ensures Image(Rotated(m, n, p, q, c, s), n, Turn(v, p, q, c, s)) == Turn(Image(m, n, v), p, q, c, s)
  {
    hide Dot, Lo, Hi, Unit;
    var b, w := TurnedColumns(m, n, p, q, c, s), Turn(v, p, q, c, s);
    forall i | 0 <= i < n ensures Dot(b[i], w, n) == Dot(m[i], v, n) {
      TurnKeepsDot(m[i], v, p, q, c, s);
    }
    LoRowDot(c, s, b[p], b[q], w, n);
    HiRowDot(c, s, b[p], b[q], w, n);
  }

  lemma TurnMultiple(x: real, v: Row, p: nat, q: nat, c: real, s: real)
    requires p < q < |v|
    ensures Turn(Multiple(x, v), p, q, c, s) == Multiple(x, Turn(v, p, q, c, s))
  {
    hide Lo, Hi, Times;
    TurnMultiplePair(x, c, s, v[p], v[q]);
  }

  lemma TurnMultiplePair(x: real, c: real, s: real, a: real, b: real)
    ensures Lo(c, s, Times(x, a), Times(x, b)) == Times(x, Lo(c, s, a, b))
    ensures Hi(c, s, Times(x, a), Times(x, b)) == Times(x, Hi(c, s, a, b))
  {
    assert c * (x * a) - s * (x * b) == x * (c * a - s * b);
    assert s * (x * a) + c * (x * b) == x * (s * a + c * b);
  }

  lemma UnitReversed(c: real, s: real)
    requires Unit(c, s)
    ensures Unit(c, -s)
  {
    assert (-s) * (-s) == s * s;
  }

  /** Every rotation keeps the whole spectrum. */
  lemma RotationKeepsSpectrum(m: Matrix, n: nat, p: nat, q: nat, c: real, s: real, x: real)
    requires Square(m, n) && p < q < n && Unit(c, s)
    ensures IsEigenvalue(Rotated(m, n, p, q, c, s), n, x) <==> IsEigenvalue(m, n, x)
  {
    hide Dot, Lo, Hi, Turn, Rotated;
    var r := Rotated(m, n, p, q, c, s);
    UnitReversed(c, s);
    if IsEigenvalue(m, n, x) {
      var v :| IsEigenpair(m, n, x, v);
      var w := Turn(v, p, q, c, s);
      RotationIntertwines(m, n, p, q, c, s, v);
      TurnMultiple(x, v, p, q, c, s);
      TurnKeepsDot(v, v, p, q, c, s);
      assert IsEigenpair(r, n, x, w);
    }
    if IsEigenvalue(r, n, x) {
      var w :| IsEigenpair(r, n, x, w);
      var v := Turn(w, p, q, c, -s);
      TurnBack(w, p, q, c, s);
      RotationIntertwines(m, n, p, q, c, s, v);
      TurnMultiple(x, v, p, q, c, s);
      TurnKeepsDot(w, w, p, q, c, -s);
      TurnInjective(Image(m, n, v), Multiple(x, v), p, q, c, s);
      assert IsEigenpair(m, n, x, v);
    }
  }

  lemma TurnInjective(a: Row, b: Row, p: nat, q: nat, c: real, s: real)
    requires |a| == |b| && p < q < |a| && Unit(c, s)
    requires Turn(a, p, q, c, s) == Turn(b, p, q, c, s)
    ensures a == b
  {
    UnitReversed(c, s);
    TurnBack(a, p, q, c, -s);
    TurnBack(b, p, q, c, -s);
    assert -(-s) == s;
  }

  // ---- numbers that are nearly eigenvalues

  /** By how much the matrix misses multiplying the vector by x. */
  ghost function Residual(m: Matrix, n: nat, x: real, v: Row): (r: Row)
    requires Square(m, n) && |v| == n
    ensures |r| == n && forall i | 0 <= i < n :: r[i] == Dot(m[i], v, n) - Times(x, v[i])
  {
    seq(n, i requires 0 <= i < n => Dot(m[i], v, n) - Times(x, v[i]))
  }

  /** A unit vector that the matrix multiplies by x but for a residual of squared length `within`. */
  ghost predicate IsNearPair(m: Matrix, n: nat, x: real, v: Row, within: real)
    requires Square(m, n)
  {
    |v| == n && Dot(v, v, n) == 1.0 && Dot(Residual(m, n, x, v), Residual(m, n, x, v), n) <= within
  }

  ghost predicate IsNear(m: Matrix, n: nat, x: real, within: real)
    requires Square(m, n)
  {
    exists v :: IsNearPair(m, n, x, v, within)
  }

  lemma TurnDifference(c: real, s: real, a: real, b: real, u: real, v: real)
    ensures Lo(c, s, a - u, b - v) == Lo(c, s, a, b) - Lo(c, s, u, v)
    ensures Hi(c, s, a - u, b - v) == Hi(c, s, a, b) - Hi(c, s, u, v)
  {
  }

  lemma RotationTurnsResidual(m: Matrix, n: nat, p: nat, q: nat, c: real, s: real, x: real, v: Row)
    requires Square(m, n) && p < q < n && |v| == n && Unit(c, s)
    ensures Residual(Rotated(m, n, p, q, c, s), n, x, Turn(v, p, q, c, s)) == Turn(Residual(m, n, x, v), p, q, c, s)
  {
    hide Dot, Lo, Hi, Unit, Rotated, Times;
    RotationIntertwines(m, n, p, q, c, s, v);
    TurnMultiple(x, v, p, q, c, s);
    var image, multiple := Image(m, n, v), Multiple(x, v);
    var w := Turn(v, p, q, c, s);
    TurnDifference(c, s, image[p], image[q], multiple[p], multiple[q]);
    var r := Residual(Rotated(m, n, p, q, c, s), n, x, w);
    forall i | 0 <= i < n ensures r[i] == Turn(image, p, q, c, s)[i] - Turn(multiple, p, q, c, s)[i] {
      assert Image(Rotated(m, n, p, q, c, s), n, w)[i] == Turn(image, p, q, c, s)[i];
      assert Multiple(x, w)[i] == Turn(multiple, p, q, c, s)[i];
    }
  }

  /** A rotation turns such a vector with it, so it keeps how near a number is. */
  lemma RotationKeepsNear(m: Matrix, n: nat, p: nat, q: nat, c: real, s: real, x: real, within: real)
    requires Square(m, n) && p < q < n && Unit(c, s)
    ensures IsNear(Rotated(m, n, p, q, c, s), n, x, within) <==> IsNear(m, n, x, within)
  {
    hide Dot, Lo, Hi, Turn, Rotated;
    var r := Rotated(m, n, p, q, c, s);
    UnitReversed(c, s);
    if IsNear(m, n, x, within) {
      var v :| IsNearPair(m, n, x, v, within);
      var w := Turn(v, p, q, c, s);
      RotationTurnsResidual(m, n, p, q, c, s, x, v);
      TurnKeepsDot(v, v, p, q, c, s);
      TurnKeepsDot(Residual(m, n, x, v), Residual(m, n, x, v), p, q, c, s);
      assert IsNearPair(r, n, x, w, within);
    }
    if IsNear(r, n, x, within) {
      var w :| IsNearPair(r, n, x, w, within);
      var v := Turn(w, p, q, c, -s);
      TurnBack(w, p, q, c, s);
      RotationTurnsResidual(m, n, p, q, c, s, x, v);
      TurnKeepsDot(w, w, p, q, c, -s);
      TurnKeepsDot(Residual(m, n, x, v), Residual(m, n, x, v), p, q, c, s);
      assert IsNearPair(m, n, x, v, within);
    }
  }

  // ---- the algorithm, in place

  /** The squares to the right of the diagonal in row `i`, up to column `k`. */
  ghost function RowTail(m: Matrix, n: nat, i: nat, k: nat): real
    requires Square(m, n) && i < n && k <= n
  {
    if k <= i + 1 then 0.0 else RowTail(m, n, i, k - 1) + Times(m[i][k - 1], m[i][k - 1])
  }

  ghost function UpperRows(m: Matrix, n: nat, rows: nat, k: nat): real
    requires Square(m, n) && rows <= n && k <= n
  {
    if rows == 0 then 0.0 else UpperRows(m, n, rows - 1, k) + RowTail(m, n, rows - 1, k)
  }

  lemma {:induction false} UpperWidens(m: Matrix, n: nat, rows: nat, k: nat)
    requires Square(m, n) && rows <= k < n
    ensures UpperRows(m, n, rows, k + 1) == UpperRows(m, n, rows, k) + ColumnSquares(m, n, k, rows)
  {
    hide Times;
    if rows == 0 {
    } else {
      UpperWidens(m, n, rows - 1, k);
    }
  }

  /** Summed row by row or column by column, the squares above the diagonal are the same. */
  lemma {:induction false} UpperIsOff(m: Matrix, n: nat, k: nat)
    requires Square(m, n) && k <= n
    ensures UpperRows(m, n, k, k) == Off(m, n, k)
  {
    hide Times;
    if k == 0 {
    } else {
      UpperIsOff(m, n, k - 1);
      UpperWidens(m, n, k - 1, k - 1);
    }
  }

  method OffSum(a: array2<real>, n: nat) returns (off: real)
    requires a.Length0 == a.Length1 == n
    ensures off == Off(Rows(a), n, n)
  {
    off := 0.0;
    ghost var m := Rows(a);
    for i := 0 to n
      invariant off == UpperRows(m, n, i, n)
    {
      for j := i + 1 to n
        invariant off == UpperRows(m, n, i, n) + RowTail(m, n, i, j)
      {
        off := off + a[i, j] * a[i, j];
      }
    }
    UpperIsOff(m, n, n);
  }

  /** The two loops of a rotation: the columns, then the rows. */
  method Rotate(a: array2<real>, n: nat, p: nat, q: nat, c: real, s: real)
    requires a.Length0 == a.Length1 == n && p < q < n
    modifies a
    ensures Rows(a) == Rotated(old(Rows(a)), n, p, q, c, s)
  {
    hide Lo, Hi;
    TurnColumnsInPlace(a, n, p, q, c, s);
    TurnRowsInPlace(a, n, p, q, c, s);
  }

  method TurnColumnsInPlace(a: array2<real>, n: nat, p: nat, q: nat, c: real, s: real)
    requires a.Length0 == a.Length1 == n && p < q < n
    modifies a
    ensures Rows(a) == TurnedColumns(old(Rows(a)), n, p, q, c, s)
  {
    for k := 0 to n
      invariant forall i, j | 0 <= i < n && 0 <= j < n ::
        a[i, j] == if i < k && j == p then Lo(c, s, old(a[i, p]), old(a[i, q]))
                   else if i < k && j == q then Hi(c, s, old(a[i, p]), old(a[i, q]))
                   else old(a[i, j])
    {
      var akp, akq := a[k, p], a[k, q];
      a[k, p] := Lo(c, s, akp, akq);
      a[k, q] := Hi(c, s, akp, akq);
    }
    SameRows(Rows(a), TurnedColumns(old(Rows(a)), n, p, q, c, s));
  }

  method TurnRowsInPlace(a: array2<real>, n: nat, p: nat, q: nat, c: real, s: real)
    requires a.Length0 == a.Length1 == n && p < q < n
    modifies a
    ensures Rows(a) == TurnedRows(old(Rows(a)), n, p, q, c, s)
  {
    for k := 0 to n
      invariant forall i, j | 0 <= i < n && 0 <= j < n ::
        a[i, j] == if j < k && i == p then Lo(c, s, old(a[p, j]), old(a[q, j]))
                   else if j < k && i == q then Hi(c, s, old(a[p, j]), old(a[q, j]))
                   else old(a[i, j])
    {
      var apk, aqk := a[p, k], a[q, k];
      a[p, k] := Lo(c, s, apk, aqk);
      a[q, k] := Hi(c, s, apk, aqk);
    }
    SameRows(Rows(a), TurnedRows(old(Rows(a)), n, p, q, c, s));
  }

  const SMALL_OFF: real := 1e-30
  const SMALL_PIVOT: real := 1e-300

  /** What the whole run keeps of the matrix it started from. */
  ghost predicate Similar(m0: Matrix, m: Matrix, n: nat)
    requires Square(m0, n)
  {
    && Square(m, n) && Symmetric(m, n)
    && Trace(m, n) == Trace(m0, n)
    && Frobenius(m, n) == Frobenius(m0, n)
    && Off(m, n, n) <= Off(m0, n, n)
    && (forall x :: IsEigenvalue(m, n, x) <==> IsEigenvalue(m0, n, x))
    && forall x, within :: IsNear(m, n, x, within) <==> IsNear(m0, n, x, within)
  }

  lemma RotationKeepsSimilar(sqrt: real -> real, m0: Matrix, m: Matrix, n: nat, p: nat, q: nat)
    requires IsSqrt(sqrt) && Square(m0, n) && Square(m, n) && Similar(m0, m, n) && p < q < n && m[p][q] != 0.0
    ensures var (c, s) := Angle(sqrt, m[p][p], m[p][q], m[q][q]);
      var r := Rotated(m, n, p, q, c, s);
      Similar(m0, r, n) && r[p][q] == 0.0 && Off(r, n, n) == Off(m, n, n) - Times(m[p][q], m[p][q])
  {
    var (c, s) := Angle(sqrt, m[p][p], m[p][q], m[q][q]);
    AngleIsUnit(sqrt, m[p][p], m[p][q], m[q][q]);
    AngleClears(sqrt, m[p][p], m[p][q], m[q][q]);
    hide Lo, Hi, Angle, Unit, Off, Frobenius, Trace;
    var r := Rotated(m, n, p, q, c, s);
    assert r[p][q] == 0.0;
    RotationKeepsSymmetry(m, n, p, q, c, s);
    RotationKeepsTrace(m, n, p, q, c, s);
    RotationKeepsFrobenius(m, n, p, q, c, s);
    RotationLowersOff(m, n, p, q, c, s);
    TimesSquare(m[p][q]);
    hide Times, IsEigenvalue, IsNear;
    forall x ensures IsEigenvalue(r, n, x) <==> IsEigenvalue(m0, n, x) {
      RotationKeepsSpectrum(m, n, p, q, c, s, x);
    }
    forall x, within ensures IsNear(r, n, x, within) <==> IsNear(m0, n, x, within) {
      RotationKeepsNear(m, n, p, q, c, s, x, within);
    }
  }

  /** The matrix after the pivot (p, q) has had its turn: rotated away, unless it is negligible already. */
  ghost function Annihilated(sqrt: real -> real, m: Matrix, n: nat, p: nat, q: nat): (r: Matrix)
    requires IsSqrt(sqrt) && Square(m, n) && p < q < n
    ensures Square(r, n)
  {
    if Abs(m[p][q]) < SMALL_PIVOT then m else
      var (c, s) := Angle(sqrt, m[p][p], m[p][q], m[q][q]);
      Rotated(m, n, p, q, c, s)
  }

  /** After the pivots (p, p + 1), ..., (p, q - 1). */
  ghost function RowDone(sqrt: real -> real, m: Matrix, n: nat, p: nat, q: nat): (r: Matrix)
    requires IsSqrt(sqrt) && Square(m, n) && p < q <= n
    ensures Square(r, n)
  {
    if q == p + 1 then m else Annihilated(sqrt, RowDone(sqrt, m, n, p, q - 1), n, p, q - 1)
  }

  /** After all the pivots in the first p rows. */
  ghost function RowsDone(sqrt: real -> real, m: Matrix, n: nat, p: nat): (r: Matrix)
    requires IsSqrt(sqrt) && Square(m, n) && p <= n
    ensures Square(r, n)
  {
    if p == 0 then m else RowDone(sqrt, RowsDone(sqrt, m, n, p - 1), n, p - 1, n)
  }

  /** After k sweeps. */
  ghost function Swept(sqrt: real -> real, m: Matrix, n: nat, k: nat): (r: Matrix)
    requires IsSqrt(sqrt) && Square(m, n)
    ensures Square(r, n)
  {
    if k == 0 then m else RowsDone(sqrt, Swept(sqrt, m, n, k - 1), n, n)
  }

  /** One pivot's turn clears it and keeps everything else a run keeps; the square sum drops by the pivot's square or stays. */
  lemma AnnihilatedKeeps(sqrt: real -> real, m0: Matrix, m: Matrix, n: nat, p: nat, q: nat)
    requires IsSqrt(sqrt) && Square(m0, n) && Square(m, n) && Similar(m0, m, n) && p < q < n
    ensures var r := Annihilated(sqrt, m, n, p, q);
      Similar(m0, r, n) && if Abs(m[p][q]) < SMALL_PIVOT then r == m else
        r[p][q] == 0.0 && Off(r, n, n) == Off(m, n, n) - Times(m[p][q], m[p][q]) && Off(r, n, n) < Off(m, n, n)
  {
    hide Similar, Off, Angle, Rotated;
    if Abs(m[p][q]) >= SMALL_PIVOT {
      RotationKeepsSimilar(sqrt, m0, m, n, p, q);
      SquarePositive(m[p][q]);
    }
  }

  lemma SquarePositive(x: real)
    requires x != 0.0
    ensures Times(x, x) > 0.0
  {
    if x > 0.0 { TimesPositive(x, x); } else { TimesPositive(-x, -x); }
  }

  /** Nothing above the diagonal in row p, up to column q, is large enough for a rotation. */
  ghost predicate QuietRow(m: Matrix, n: nat, p: nat, q: nat)
    requires Square(m, n) && p < n && q <= n
  {
    forall j | p < j < q :: Abs(m[p][j]) < SMALL_PIVOT
  }

  ghost predicate Quiet(m: Matrix, n: nat, p: nat)
    requires Square(m, n) && p <= n
  {
    forall i | 0 <= i < p :: QuietRow(m, n, i, n)
  }

  lemma {:induction false} RowDoneKeeps(sqrt: real -> real, m0: Matrix, m: Matrix, n: nat, p: nat, q: nat)
    requires IsSqrt(sqrt) && Square(m0, n) && Square(m, n) && Similar(m0, m, n) && p < q <= n
    ensures var r := RowDone(sqrt, m, n, p, q);
      Similar(m0, r, n) && if QuietRow(m, n, p, q) then r == m else Off(r, n, n) < Off(m, n, n)
  {
    hide Similar, Off, Annihilated;
    if q > p + 1 {
      RowDoneKeeps(sqrt, m0, m, n, p, q - 1);
      AnnihilatedKeeps(sqrt, m0, RowDone(sqrt, m, n, p, q - 1), n, p, q - 1);
    }
  }

  lemma {:induction false} RowsDoneKeeps(sqrt: real -> real, m0: Matrix, m: Matrix, n: nat, p: nat)
    requires IsSqrt(sqrt) && Square(m0, n) && Square(m, n) && Similar(m0, m, n) && p <= n
    ensures var r := RowsDone(sqrt, m, n, p);
      Similar(m0, r, n) && if Quiet(m, n, p) then r == m else Off(r, n, n) < Off(m, n, n)
  {
    hide Similar, Off, RowDone, QuietRow;
    if p > 0 {
      RowsDoneKeeps(sqrt, m0, m, n, p - 1);
      RowDoneKeeps(sqrt, m0, RowsDone(sqrt, m, n, p - 1), n, p - 1, n);
    }
  }

  /**
    Every number of sweeps keeps symmetry, trace, Frobenius norm and spectrum; a
    sweep lowers the square sum above the diagonal exactly when some entry there
    is not negligible, and otherwise changes nothing at all.
  */
  lemma {:induction false} SweepsKeep(sqrt: real -> real, m: Matrix, n: nat, k: nat)
    requires IsSqrt(sqrt) && Square(m, n) && Symmetric(m, n)
    ensures Similar(m, Swept(sqrt, m, n, k), n)
    ensures var before, after := Swept(sqrt, m, n, k), Swept(sqrt, m, n, k + 1);
      if Quiet(before, n, n) then after == before else Off(after, n, n) < Off(before, n, n)
  {
    hide Similar, Off, RowsDone, Quiet;
    if k == 0 {
      SimilarToItself(m, n);
    } else {
      SweepsKeep(sqrt, m, n, k - 1);
      RowsDoneKeeps(sqrt, m, Swept(sqrt, m, n, k - 1), n, n);
    }
    RowsDoneKeeps(sqrt, m, Swept(sqrt, m, n, k), n, n);
  }

  /** One pass over all pivots above the diagonal. */
  method Sweep(a: array2<real>, n: nat, sqrt: real -> real)
    requires IsSqrt(sqrt) && a.Length0 == a.Length1 == n
    modifies a
    ensures Rows(a) == RowsDone(sqrt, old(Rows(a)), n, n)
  {
    hide Annihilated;
    for p := 0 to n
      invariant Rows(a) == RowsDone(sqrt, old(Rows(a)), n, p)
    {
      ghost var before := Rows(a);
      for q := p + 1 to n
        invariant Rows(a) == RowDone(sqrt, before, n, p, q)
      {
        Annihilate(a, n, p, q, sqrt);
      }
    }
  }

  /** Clear one pivot, unless it is negligible already. */
  method Annihilate(a: array2<real>, n: nat, p: nat, q: nat, sqrt: real -> real)
    requires IsSqrt(sqrt) && a.Length0 == a.Length1 == n && p < q < n
    modifies a
    ensures Rows(a) == Annihilated(sqrt, old(Rows(a)), n, p, q)
  {
    hide Angle, Rotated;
    var apq := a[p, q];
    if Abs(apq) >= SMALL_PIVOT {
      var (c, s) := Angle(sqrt, a[p, p], apq, a[q, q]);
      Rotate(a, n, p, q, c, s);
    }
  }

  predicate Descending(r: Row) {
    forall i, j | 0 <= i < j < |r| :: r[i] >= r[j]
  }

  /** Insert into a descending row, after everything that is at least as large. */
  function Insert(x: real, r: Row): (s: Row)
    ensures |s| == |r| + 1 && multiset(s) == multiset(r) + multiset{x}
  {
    if r == [] || r[|r| - 1] >= x then r + [x]
    else
      assert r == r[..|r| - 1] + [r[|r| - 1]];
      Insert(x, r[..|r| - 1]) + [r[|r| - 1]]
  }

  lemma {:induction false} InsertDescending(x: real, r: Row)
    requires Descending(r)
    ensures Descending(Insert(x, r))
  {
    if r == [] || r[|r| - 1] >= x {
    } else {
      var front, last := Insert(x, r[..|r| - 1]), r[|r| - 1];
      InsertDescending(x, r[..|r| - 1]);
      forall i | 0 <= i < |front| ensures front[i] >= last {
        assert front[i] in multiset(front);
        assert front[i] == x || front[i] in r[..|r| - 1];
      }
    }
  }

  function SortDescending(r: Row): (s: Row)
    ensures multiset(s) == multiset(r)
  {
    if r == [] then [] else
      assert r == r[..|r| - 1] + [r[|r| - 1]];
      Insert(r[|r| - 1], SortDescending(r[..|r| - 1]))
  }

  lemma {:induction false} SortedDescending(r: Row)
    ensures Descending(SortDescending(r))
  {
    if r != [] {
      SortedDescending(r[..|r| - 1]);
      InsertDescending(r[|r| - 1], SortDescending(r[..|r| - 1]));
    }
  }

  /**
    The eigenvalue oracle: cyclic sweeps until the square sum above the diagonal
    is negligible or a hundred sweeps are spent, then the diagonal in descending
    order.  The matrix the sweeps end in has the spectrum, trace and Frobenius
    norm of the input.
  */
  method JacobiEigenvalues(mat: Matrix, sqrt: real -> real) returns (eig: Row, ghost sweeps: nat)
    requires IsSqrt(sqrt) && Square(mat, |mat|) && Symmetric(mat, |mat|)
    ensures sweeps <= 100 && forall k: nat | k < sweeps :: Unfinished(Swept(sqrt, mat, |mat|, k), |mat|)
    ensures sweeps < 100 ==> !Unfinished(Swept(sqrt, mat, |mat|, sweeps), |mat|)
    ensures Similar(mat, Swept(sqrt, mat, |mat|, sweeps), |mat|)
    ensures Descending(eig) && multiset(eig) == multiset(Diagonal(Swept(sqrt, mat, |mat|, sweeps), |mat|))
    ensures NearSpectrum(mat, |mat|, eig, Off(Swept(sqrt, mat, |mat|, sweeps), |mat|, |mat|))
  {
    hide Similar, Off, RowsDone, NearSpectrum;
    var n := |mat|;
    var a := new real[n, n]((i, j) requires 0 <= i < n && 0 <= j < n => mat[i][j]);
    SameRows(Rows(a), mat);
    sweeps := 0;
    for sweep := 0 to 100
      invariant a.Length0 == a.Length1 == n && fresh(a)
      invariant sweeps == sweep && Rows(a) == Swept(sqrt, mat, n, sweeps)
      invariant forall k: nat | k < sweeps :: Unfinished(Swept(sqrt, mat, n, k), n)
    {
      var off := OffSum(a, n);
      if off < SMALL_OFF { break; }
      Sweep(a, n, sqrt);
      sweeps := sweeps + 1;
    }
    SweepsKeep(sqrt, mat, n, sweeps);
    var diagonal := seq(n, i requires 0 <= i < n && a.Length0 == a.Length1 == n reads a => a[i, i]);
    assert diagonal == Diagonal(Swept(sqrt, mat, n, sweeps), n);
    eig := SortDescending(diagonal);
    SortedDescending(diagonal);
    ReturnedAreNear(mat, Swept(sqrt, mat, n, sweeps), n, eig);
  }

  /** Too much is left above the diagonal to stop. */
  ghost predicate Unfinished(m: Matrix, n: nat)
    requires Square(m, n)
  {
    Off(m, n, n) >= SMALL_OFF
  }

  lemma SimilarToItself(m: Matrix, n: nat)
    requires Square(m, n) && Symmetric(m, n)
    ensures Similar(m, m, n)
  {
  }

  // ---- what the returned numbers say about the input

  lemma TakeOut(s: Row, i: nat)
    requires i < |s|
    ensures multiset(s) == multiset(s[..i] + s[i + 1..]) + multiset{s[i]}
  {
    assert s == s[..i] + ([s[i]] + s[i + 1..]);
  }

  /** Where the last entry of a row sits in a permutation of it; without both, a permutation is left. */
  lemma MatchLast(r: Row, s: Row) returns (i: nat)
    requires r != [] && multiset(r) == multiset(s)
    ensures i < |s| && s[i] == r[|r| - 1]
    ensures multiset(r[..|r| - 1]) == multiset(s[..i] + s[i + 1..])
  {
    assert r[|r| - 1] in multiset(s);
    i :| 0 <= i < |s| && s[i] == r[|r| - 1];
    TakeOut(r, |r| - 1);
    TakeOut(s, i);
    assert r[..|r| - 1] + r[|r|..] == r[..|r| - 1];
    CancelOne(multiset(r[..|r| - 1]), multiset(s[..i] + s[i + 1..]), s[i]);
  }

  lemma CancelOne(a: multiset<real>, b: multiset<real>, x: real)
    requires a + multiset{x} == b + multiset{x}
    ensures a == b
  {
    assert a == (a + multiset{x}) - multiset{x};
    assert b == (b + multiset{x}) - multiset{x};
  }

  lemma {:induction false} TotalOfPermutation(r: Row, s: Row)
    requires multiset(r) == multiset(s)
    ensures |r| == |s| && Total(r, |r|) == Total(s, |s|)
  {
    if r == [] {
      assert |multiset(s)| == 0;
    } else {
      var i := MatchLast(r, s);
      TotalOfPermutation(r[..|r| - 1], s[..i] + s[i + 1..]);
      TotalSame(r, r[..|r| - 1], |r| - 1);
      TotalWithout(s, i);
    }
  }

  lemma {:induction false} TotalWithout(s: Row, i: nat)
    requires i < |s|
    ensures Total(s, |s|) == Total(s[..i] + s[i + 1..], |s| - 1) + s[i]
  {
    var t := s[..i] + s[i + 1..];
    if i == |s| - 1 {
      TotalSame(s, t, i);
    } else {
      var s0 := s[..|s| - 1];
      TotalWithout(s0, i);
      var t0 := s0[..i] + s0[i + 1..];
      assert t == t0 + [s[|s| - 1]];
      TotalSame(s, s0, |s0|);
      TotalSame(t, t0, |t0|);
    }
  }

  function Squares(r: Row): (s: Row)
    ensures |s| == |r| && forall i | 0 <= i < |r| :: s[i] == Times(r[i], r[i])
  {
    Products(r, r)
  }

  lemma {:induction false} SquaresOfPermutation(r: Row, s: Row)
    requires multiset(r) == multiset(s)
    ensures Total(Squares(r), |r|) == Total(Squares(s), |s|)
  {
    hide Times;
    if r == [] {
      assert |multiset(s)| == 0;
    } else {
      var i := MatchLast(r, s);
      var r', s' := r[..|r| - 1], s[..i] + s[i + 1..];
      SquaresOfPermutation(r', s');
      TotalSame(Squares(r), Squares(r'), |r'|);
      TotalWithout(Squares(s), i);
      TotalSame(Squares(s)[..i] + Squares(s)[i + 1..], Squares(s'), |s'|);
    }
  }

  /**
    The returned numbers add up to the trace of the input, and their squares
    fall short of its Frobenius norm by exactly twice what is left above the
    diagonal.
  */
  lemma EigenvaluesBalance(m0: Matrix, m: Matrix, n: nat, eig: Row)
    requires Square(m0, n) && Similar(m0, m, n) && multiset(eig) == multiset(Diagonal(m, n))
    ensures |eig| == n && Total(eig, n) == Trace(m0, n)
    ensures Total(Squares(eig), n) == Frobenius(m0, n) - 2.0 * Off(m, n, n)
  {
    hide IsEigenvalue, Times;
    assert |eig| == |multiset(eig)| == |Diagonal(m, n)|;
    TotalOfPermutation(eig, Diagonal(m, n));
    SquaresOfPermutation(eig, Diagonal(m, n));
    FrobeniusSplits(m, n);
  }

  // ---- how near the returned numbers are

  lemma {:induction false} ColumnHolds(m: Matrix, n: nat, j: nat, k: nat, i: nat)
    requires Square(m, n) && j < n && i < k <= n
    ensures ColumnSquares(m, n, j, k) >= Times(m[i][j], m[i][j])
  {
    hide Times;
    TimesSquare(m[k - 1][j]);
    if i < k - 1 {
      ColumnHolds(m, n, j, k - 1, i);
    } else {
      ColumnSquaresNonNegative(m, n, j, k - 1);
    }
  }

  /** Column i of the matrix without its diagonal entry. */
  ghost function Beside(m: Matrix, n: nat, i: nat): (r: Row)
    requires Square(m, n) && i < n
    ensures |r| == n && forall j | 0 <= j < n :: r[j] == if j == i then 0.0 else m[i][j]
  {
    m[i][i := 0.0]
  }

  /** Beside one diagonal entry there is no more than the square sum above the diagonal. */
  lemma {:induction false} BesideIsWithin(m: Matrix, n: nat, i: nat, k: nat)
    requires Square(m, n) && Symmetric(m, n) && i < k <= n
    ensures Dot(Beside(m, n, i), Beside(m, n, i), k) <= Off(m, n, k)
  {
    var r := Beside(m, n, i);
    if k == i + 1 {
      BesideBelow(m, n, i, i);
      OffNonNegative(m, n, i);
      assert r[i] == 0.0;
    } else {
      BesideIsWithin(m, n, i, k - 1);
      ColumnHolds(m, n, k - 1, k - 1, i);
      assert Times(m[i][k - 1], m[i][k - 1]) == r[k - 1] * r[k - 1];
    }
  }

  lemma {:induction false} BesideBelow(m: Matrix, n: nat, i: nat, k: nat)
    requires Square(m, n) && Symmetric(m, n) && k <= i < n
    ensures Dot(Beside(m, n, i), Beside(m, n, i), k) == ColumnSquares(m, n, i, k)
  {
    if k > 0 {
      BesideBelow(m, n, i, k - 1);
      assert m[i][k - 1] == m[k - 1][i];
    }
  }

  function Axis(n: nat, i: nat): (e: Row)
    requires i < n
    ensures |e| == n && forall j | 0 <= j < n :: e[j] == if j == i then 1.0 else 0.0
  {
    seq(n, j => if j == i then 1.0 else 0.0)
  }

  /** A diagonal entry is as near to being an eigenvalue as the square sum is small. */
  lemma DiagonalIsNear(m: Matrix, n: nat, i: nat)
    requires Square(m, n) && Symmetric(m, n) && i < n
    ensures IsNear(m, n, m[i][i], Off(m, n, n))
  {
    hide Dot, Off;
    var e := Axis(n, i);
    DotUnit(e, e, n, i);
    var r := Residual(m, n, m[i][i], e);
    forall j | 0 <= j < n ensures r[j] == Beside(m, n, i)[j] {
      DotCommutes(m[j], e, n);
      DotUnit(e, m[j], n, i);
      AxisTimes(m[i][i], e[j]);
    }
    assert r == Beside(m, n, i);
    BesideIsWithin(m, n, i, n);
    assert IsNearPair(m, n, m[i][i], e, Off(m, n, n));
  }

  lemma AxisTimes(x: real, e: real)
    ensures e == 1.0 ==> Times(x, e) == x
    ensures e == 0.0 ==> Times(x, e) == 0.0
  {
  }

  /** The inequality of Cauchy and Schwarz. */
  lemma Cauchy(a: Row, v: Row, n: nat)
    requires |a| == |v| == n && Dot(v, v, n) > 0.0
    ensures Times(Dot(a, v, n), Dot(a, v, n)) <= Times(Dot(a, a, n), Dot(v, v, n))
  {
    hide Dot, Times, Multiple;
    var p, l, q := Dot(a, a, n), Dot(a, v, n), Dot(v, v, n);
    var r := Mix(q, a, -l, v);
    MixDot(q, a, -l, v, r, n);
    MixDot(q, a, -l, v, a, n);
    MixDot(q, a, -l, v, v, n);
    DotCommutes(v, a, n);
    DotCommutes(r, v, n);
    DotCommutes(r, a, n);
    DotSquareNonNegative(r, n);
    CauchyAlgebra(p, l, q, Dot(r, r, n), Dot(a, r, n), Dot(v, r, n));
    Gauge(q, Times(p, q) - Times(l, l));
  }

  function Mix(q: real, a: Row, l: real, v: Row): (r: Row)
    requires |a| == |v|
    ensures |r| == |a|
  {
    seq(|a|, j requires 0 <= j < |a| => q * a[j] + l * v[j])
  }

  lemma MixDot(q: real, a: Row, l: real, v: Row, u: Row, n: nat)
    requires |a| == |v| == |u| == n
    ensures Dot(Mix(q, a, l, v), u, n) == q * Dot(a, u, n) + l * Dot(v, u, n)
  {
    var qa := seq(n, j requires 0 <= j < n => q * a[j]);
    DotPlus(Mix(q, a, l, v), qa, l, v, u, n);
    DotScale(qa, q, a, u, n);
  }

  lemma CauchyAlgebra(p: real, l: real, q: real, rr: real, ar: real, vr: real)
    requires vr == q * l + -l * q && ar == q * p + -l * l && rr == q * ar + -l * vr
    ensures rr == q * (Times(p, q) - Times(l, l))
  {
    assert vr == 0.0;
    assert -l * vr == 0.0;
    assert ar == p * q - l * l;
  }

  lemma Gauge(q: real, y: real)
    requires q > 0.0 && q * y >= 0.0
    ensures y >= 0.0
  {
  }

  /** The matrix without its diagonal. */
  ghost function Hollow(m: Matrix, n: nat): (o: Matrix)
    requires Square(m, n)
    ensures Square(o, n) && forall i | 0 <= i < n :: o[i] == Beside(m, n, i)
  {
    seq(n, i requires 0 <= i < n => Beside(m, n, i))
  }

  lemma {:induction false} HollowColumn(m: Matrix, n: nat, j: nat, k: nat)
    requires Square(m, n) && k <= j < n
    ensures ColumnSquares(Hollow(m, n), n, j, k) == ColumnSquares(m, n, j, k)
  {
    if k > 0 {
      HollowColumn(m, n, j, k - 1);
    }
  }

  lemma {:induction false} HollowOff(m: Matrix, n: nat, k: nat)
    requires Square(m, n) && k <= n
    ensures Off(Hollow(m, n), n, k) == Off(m, n, k)
  {
    if k > 0 {
      HollowOff(m, n, k - 1);
      HollowColumn(m, n, k - 1, k - 1);
    }
  }

  lemma HollowNorm(m: Matrix, n: nat)
    requires Square(m, n) && Symmetric(m, n)
    ensures Frobenius(Hollow(m, n), n) == 2.0 * Off(m, n, n)
  {
    var o := Hollow(m, n);
    assert Symmetric(o, n);
    FrobeniusSplits(o, n);
    HollowOff(m, n, n);
    NoTotal(DiagonalSquares(o, n), n);
  }

  lemma {:induction false} NoTotal(r: Row, k: nat)
    requires k <= |r| && forall i | 0 <= i < k :: r[i] == 0.0
    ensures Total(r, k) == 0.0
  {
    if k > 0 {
      NoTotal(r, k - 1);
    }
  }

  /** What a matrix makes of a vector is no longer than its norm allows. */
  lemma {:induction false} ImageIsWithin(o: Matrix, n: nat, v: Row, k: nat)
    requires Square(o, n) && |v| == n && k <= n && Dot(v, v, n) > 0.0
    ensures Dot(Image(o, n, v), Image(o, n, v), k) <= Times(Total(RowNorms(o, n), k), Dot(v, v, n))
  {
    hide RowNorms;
    if k == 0 {
      TimesZero(Dot(v, v, n));
    } else {
      ImageIsWithin(o, n, v, k - 1);
      Cauchy(o[k - 1], v, n);
      CollectTimes(Total(RowNorms(o, n), k - 1), Dot(o[k - 1], o[k - 1], n), Dot(v, v, n));
      assert Times(Dot(o[k - 1], v, n), Dot(o[k - 1], v, n)) == Image(o, n, v)[k - 1] * Image(o, n, v)[k - 1];
    }
  }

  /** If every diagonal entry is farther from x than the bound, the hollow image of an eigenvector is too long. */
  lemma {:induction false} FarIsLong(d: Row, x: real, v: Row, w: Row, bound: real, k: nat)
    requires k <= |d| && |d| == |v| == |w| && bound >= 0.0
    requires forall i | 0 <= i < k :: Times(x - d[i], x - d[i]) > bound && w[i] == Times(x - d[i], v[i])
    ensures Dot(w, w, k) >= Times(bound, Dot(v, v, k)) && Dot(v, v, k) >= 0.0
    ensures Dot(v, v, k) > 0.0 ==> Dot(w, w, k) > Times(bound, Dot(v, v, k))
  {
    if k == 0 {
      assert Times(bound, 0.0) == 0.0;
    } else {
      FarIsLong(d, x, v, w, bound, k - 1);
      FarTerm(x - d[k - 1], v[k - 1], bound);
      assert w[k - 1] * w[k - 1] == Times(w[k - 1], w[k - 1]) && v[k - 1] * v[k - 1] == Times(v[k - 1], v[k - 1]);
      assert Times(bound, Dot(v, v, k)) == Times(bound, Dot(v, v, k - 1)) + Times(bound, Times(v[k - 1], v[k - 1])) by {
        Distribute(bound, Dot(v, v, k - 1), Times(v[k - 1], v[k - 1]));
      }
    }
  }

  lemma FarTerm(g: real, v: real, bound: real)
    requires Times(g, g) > bound
    ensures var w := Times(g, v); Times(w, w) >= Times(bound, Times(v, v)) && Times(v, v) >= 0.0
    ensures Times(v, v) > 0.0 ==> var w := Times(g, v); Times(w, w) > Times(bound, Times(v, v))
  {
    var gg, vv := Times(g, g), Times(v, v);
    TimesSquare(v);
    assert (g * v) * (g * v) == gg * vv;
    assert gg * vv - bound * vv == (gg - bound) * vv;
    if vv > 0.0 {
      TimesPositive(gg - bound, vv);
    } else {
      assert gg * vv == 0.0 && bound * vv == 0.0;
    }
  }

  /** Off the diagonal, an eigenvector's image is what the diagonal misses. */
  lemma HollowImage(m: Matrix, n: nat, x: real, v: Row, i: nat)
    requires Square(m, n) && |v| == n && i < n && Image(m, n, v) == Multiple(x, v)
    ensures Image(Hollow(m, n), n, v)[i] == Times(x - m[i][i], v[i])
  {
    hide Dot;
    var e := Axis(n, i);
    var o := Beside(m, n, i);
    assert Image(m, n, v)[i] == Multiple(x, v)[i];
    forall j | 0 <= j < n ensures m[i][j] == o[j] + m[i][i] * e[j] {
      AxisTimes(m[i][i], e[j]);
    }
    DotPlus(m[i], o, m[i][i], e, v, n);
    DotUnit(e, v, n, i);
    assert x * v[i] - m[i][i] * v[i] == (x - m[i][i]) * v[i];
  }

  /** Every eigenvalue is within the square root of twice the square sum of some diagonal entry. */
  lemma EigenvalueIsNear(m: Matrix, n: nat, x: real)
    requires Square(m, n) && Symmetric(m, n) && IsEigenvalue(m, n, x)
    ensures exists i :: 0 <= i < n && Times(x - m[i][i], x - m[i][i]) <= 2.0 * Off(m, n, n)
  {
    hide Dot, Off, Frobenius;
    var v :| IsEigenpair(m, n, x, v);
    var bound, o, d := 2.0 * Off(m, n, n), Hollow(m, n), Diagonal(m, n);
    OffNonNegative(m, n, n);
    HollowNorm(m, n);
    if forall i | 0 <= i < n :: Times(x - m[i][i], x - m[i][i]) > bound {
      forall i | 0 <= i < n ensures Image(o, n, v)[i] == Times(x - d[i], v[i]) {
        HollowImage(m, n, x, v, i);
      }
      FarIsLong(d, x, v, Image(o, n, v), bound, n);
      ImageIsWithin(o, n, v, n);
      NormIsTotal(o, n);
    }
  }

  lemma NormIsTotal(o: Matrix, n: nat)
    requires Square(o, n)
    ensures Frobenius(o, n) == Total(RowNorms(o, n), n)
  {
  }

  /** The numbers are near eigenvalues of the matrix, and near every one of them. */
  ghost predicate NearSpectrum(m: Matrix, n: nat, eig: Row, off: real)
    requires Square(m, n)
  {
    && (forall y | y in eig :: IsNear(m, n, y, off))
    && forall x | IsEigenvalue(m, n, x) :: exists y :: y in eig && Times(x - y, x - y) <= 2.0 * off
  }

  /**
    Whatever is left above the diagonal, each returned number is multiplied onto some unit
    vector by the input but for a residual of at most that square sum, and every
    eigenvalue of the input has a returned number within the root of twice as much.
  */
  lemma ReturnedAreNear(m0: Matrix, m: Matrix, n: nat, eig: Row)
    requires Square(m0, n) && Similar(m0, m, n) && multiset(eig) == multiset(Diagonal(m, n))
    ensures NearSpectrum(m0, n, eig, Off(m, n, n))
  {
    hide IsNear, IsEigenvalue, Off, Times, Trace, Frobenius;
    var d := Diagonal(m, n);
    forall y ensures y in eig <==> y in d {
      assert y in eig <==> y in multiset(eig);
      assert y in d <==> y in multiset(d);
    }
    forall y | y in eig ensures IsNear(m0, n, y, Off(m, n, n)) {
      var i :| 0 <= i < n && d[i] == y;
      DiagonalIsNear(m, n, i);
    }
    forall x | IsEigenvalue(m0, n, x) ensures exists y :: y in eig && Times(x - y, x - y) <= 2.0 * Off(m, n, n) {
      EigenvalueIsNear(m, n, x);
      var i :| 0 <= i < n && Times(x - m[i][i], x - m[i][i]) <= 2.0 * Off(m, n, n);
      assert d[i] in eig;
    }
  }

  /** In particular, with nothing left there, the returned numbers are exactly the eigenvalues of the input. */
  lemma DiagonalizedIsExact(m0: Matrix, m: Matrix, n: nat, eig: Row, x: real)
    requires Square(m0, n) && Similar(m0, m, n) && multiset(eig) == multiset(Diagonal(m, n))
    requires Off(m, n, n) == 0.0
    ensures IsEigenvalue(m0, n, x) <==> x in eig
  {
    hide Off, Similar;
    ReturnedAreNear(m0, m, n, eig);
    if x in eig {
      var v :| IsNearPair(m0, n, x, v, 0.0);
      NoResidual(m0, n, x, v);
    }
    if IsEigenvalue(m0, n, x) {
      var y :| y in eig && Times(x - y, x - y) <= 2.0 * 0.0;
      TimesSquare(x - y);
    }
  }

  /** A vector without residual is an eigenvector. */
  lemma NoResidual(m: Matrix, n: nat, x: real, v: Row)
    requires Square(m, n) && IsNearPair(m, n, x, v, 0.0)
    ensures IsEigenvalue(m, n, x)
  {
    hide Dot;
    var r := Residual(m, n, x, v);
    forall i | 0 <= i < n ensures Image(m, n, v)[i] == Multiple(x, v)[i] {
      NoLength(r, n, i);
    }
    assert Image(m, n, v) == Multiple(x, v);
    assert IsEigenpair(m, n, x, v);
  }

  lemma {:induction false} NoLength(r: Row, k: nat, i: nat)
    requires i < k <= |r| && Dot(r, r, k) <= 0.0
    ensures r[i] == 0.0
  {
    DotSquareNonNegative(r, k - 1);
    TimesSquare(r[k - 1]);
    assert Times(r[k - 1], r[k - 1]) == r[k - 1] * r[k - 1];
    if i < k - 1 {
      NoLength(r, k - 1, i);
    }
  }
}
