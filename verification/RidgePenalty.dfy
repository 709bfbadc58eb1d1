/**
  When the ridge solver refuses.  A penalty of at least the pivot floor times the
  square root of the number of unknowns keeps every pivot above the floor, so the
  solver then accepts every sample set of matching lengths.
*/
module RidgePenalty {
  import opened Linear
  import opened Ridge

  // ---- what elimination keeps of the part still to be reduced

  /** The squares of the values that the rows lo, ..., hi - 1 give to `v`, added up. */
  ghost function Rest(a: Matrix, d: nat, v: Row, lo: nat, hi: nat): real
    requires Shape(a, d) && |v| == d && hi <= d
    decreases hi
  {
    if hi <= lo then 0.0 else Rest(a, d, v, lo, hi - 1) + Times(Dot(a[hi - 1], v, d), Dot(a[hi - 1], v, d))
  }

  /** The first k rows give nothing to `v`. */
  ghost predicate Kills(a: Matrix, d: nat, v: Row, k: nat)
    requires Shape(a, d) && |v| == d && k <= d
  {
    forall i | 0 <= i < k :: Dot(a[i], v, d) == 0.0
  }

  ghost predicate TiedAt(a0: Matrix, a: Matrix, d: nat, col: nat, v: Row)
    requires Shape(a0, d) && Shape(a, d) && col <= d && |v| == d
  {
    Kills(a, d, v, col) ==> Rest(a, d, v, col, d) == Rest(a0, d, v, 0, d)
  }

  /** On vectors that the reduced rows kill, the rest of the matrix is as large as the whole matrix was. */
  ghost predicate Tied(a0: Matrix, a: Matrix, d: nat, col: nat)
    requires Shape(a0, d) && Shape(a, d) && col <= d
  {
    forall v: Row | |v| == d :: TiedAt(a0, a, d, col, v)
  }

  lemma TiedAtFirst(a: Matrix, d: nat)
    requires Shape(a, d)
    ensures Tied(a, a, d, 0)
  {
  }

  lemma {:induction false} RestSame(a: Matrix, b: Matrix, d: nat, v: Row, lo: nat, hi: nat)
    requires Shape(a, d) && Shape(b, d) && |v| == d && hi <= d
    requires forall i | lo <= i < hi :: Dot(a[i], v, d) == Dot(b[i], v, d)
    ensures Rest(a, d, v, lo, hi) == Rest(b, d, v, lo, hi)
    decreases hi
  {
    if hi > lo {
      RestSame(a, b, d, v, lo, hi - 1);
    }
  }

  /** Exchanging two of the rows changes nothing. */
  lemma {:induction false} RestSwap(a: Matrix, d: nat, v: Row, lo: nat, p: nat, hi: nat)
    requires Shape(a, d) && |v| == d && lo < p < d && lo < hi <= d
    ensures var s := a[lo := a[p]][p := a[lo]];
      var x, y := Dot(a[lo], v, d), Dot(a[p], v, d);
      if hi > p then Rest(s, d, v, lo, hi) == Rest(a, d, v, lo, hi)
      else Rest(s, d, v, lo, hi) - Times(y, y) == Rest(a, d, v, lo, hi) - Times(x, x)
    decreases hi
  {
    hide Dot, Times;
    if hi == lo + 1 {
      assert Rest(a, d, v, lo, lo) == 0.0;
    } else {
      RestSwap(a, d, v, lo, p, hi - 1);
    }
  }

  lemma {:induction false} RestFirst(a: Matrix, d: nat, v: Row, lo: nat, hi: nat)
    requires Shape(a, d) && |v| == d && lo < hi <= d && Dot(a[lo], v, d) == 0.0
    ensures Rest(a, d, v, lo, hi) == Rest(a, d, v, lo + 1, hi)
    decreases hi
  {
    hide Dot;
    if hi == lo + 1 {
      assert Rest(a, d, v, lo, lo) == 0.0;
      TimesSquare(0.0);
    } else {
      RestFirst(a, d, v, lo, hi - 1);
    }
  }

  lemma ScaledDot(r: Row, p: real, v: Row)
    requires |r| > |v| && p != 0.0
    ensures Dot(r, v, |v|) == p * Dot(Scaled(r, p), v, |v|)
  {
    hide Dot;
    var s := Scaled(r, p);
    forall j | 0 <= j < |v| ensures r[j] == p * s[j] {
      DivideBack(r[j], p);
    }
    DotScale(r, p, s, v, |v|);
  }

  lemma EliminatedDot(t: Matrix, d: nat, col: nat, v: Row, i: nat)
    requires Shape(t, d) && col < d && i < d && |v| == d && Dot(t[col], v, d) == 0.0
    ensures Dot(Eliminated(t, d, col)[i], v, d) == Dot(t[i], v, d)
  {
    hide Dot;
    var b, f := Eliminated(t, d, col), t[i][col];
    if i != col {
      forall j | 0 <= j < d ensures b[i][j] == t[i][j] + (-f) * t[col][j] {
      }
      DotPlus(b[i], t[i], -f, t[col], v, d);
      assert (-f) * 0.0 == 0.0;
    }
  }

  /** What a vector killed by the treated column says about the rows before the treatment. */
  lemma BeforePivot(a: Matrix, d: nat, col: nat, p: nat, v: Row)
    requires Shape(a, d) && col <= p < d && a[p][col] != 0.0 && |v| == d
    requires Kills(Pivoted(a, d, col, p), d, v, col + 1)
    ensures var s, b := a[col := a[p]][p := a[col]], Pivoted(a, d, col, p);
      Dot(s[col], v, d) == 0.0 && forall i | 0 <= i < d && i != col :: Dot(b[i], v, d) == Dot(s[i], v, d)
  {
    var s, b := a[col := a[p]][p := a[col]], Pivoted(a, d, col, p);
    var t := s[col := Scaled(s[col], s[col][col])];
    assert Dot(b[col], v, d) == 0.0 && b[col] == t[col] && b == Eliminated(t, d, col);
    hide Dot, Scaled, Eliminated, Pivoted;
    ScaledDot(s[col], s[col][col], v);
    assert s[col][col] * 0.0 == 0.0;
    forall i | 0 <= i < d && i != col ensures Dot(b[i], v, d) == Dot(s[i], v, d) {
      EliminatedDot(t, d, col, v, i);
      assert t[i] == s[i];
    }
  }

  lemma TiedStep(a0: Matrix, a: Matrix, d: nat, col: nat, p: nat)
    requires Shape(a0, d) && Shape(a, d) && col <= p < d && a[p][col] != 0.0
    requires Tied(a0, a, d, col)
    ensures Tied(a0, Pivoted(a, d, col, p), d, col + 1)
  {
    hide Pivoted, Dot;
    var s, b := a[col := a[p]][p := a[col]], Pivoted(a, d, col, p);
    forall v: Row | |v| == d ensures TiedAt(a0, b, d, col + 1, v) {
      if Kills(b, d, v, col + 1) {
        BeforePivot(a, d, col, p, v);
        assert Kills(a, d, v, col) by {
          forall i | 0 <= i < col ensures Dot(a[i], v, d) == 0.0 {
            assert a[i] == s[i] && Dot(b[i], v, d) == 0.0;
          }
        }
        assert TiedAt(a0, a, d, col, v);
        if p > col {
          RestSwap(a, d, v, col, p, d);
        } else {
          assert s == a;
        }
        RestFirst(s, d, v, col, d);
        RestSame(s, b, d, v, col + 1, d);
      }
    }
  }

  // ---- a negligible column shows in a vector the matrix nearly kills

  /** The vector that undoes the reduced part of column `col`. */
  ghost function Probe(a: Matrix, d: nat, col: nat): (z: Row)
    requires Shape(a, d) && col < d
    ensures |z| == d && z[col] == 1.0
  {
    seq(d, j requires 0 <= j < d => if j < col then -a[j][col] else if j == col then 1.0 else 0.0)
  }

  lemma {:induction false} ProbeDot(a: Matrix, d: nat, col: nat, i: nat, k: nat)
    requires Shape(a, d) && col < d && i < d && k <= d && UnitColumns(a, d, col)
    ensures Dot(a[i], Probe(a, d, col), k) ==
      (if i < k && i < col then -a[i][col] else 0.0) + if col < k then a[i][col] else 0.0
  {
    if k > 0 {
      ProbeDot(a, d, col, i, k - 1);
      var z, j := Probe(a, d, col), k - 1;
      assert a[i][j] * z[j] == if j < col then (if i == j then -a[i][col] else 0.0) else if j == col then a[i][col] else 0.0;
    }
  }

  /** The rows give the probe what they hold in column `col`, and the reduced ones nothing. */
  lemma ProbeReads(a: Matrix, d: nat, col: nat, i: nat)
    requires Shape(a, d) && col < d && i < d && UnitColumns(a, d, col)
    ensures Dot(a[i], Probe(a, d, col), d) == if i < col then 0.0 else a[i][col]
  {
    ProbeDot(a, d, col, i, d);
  }

  lemma SmallSquare(x: real, f: real)
    requires Abs(x) < f
    ensures Times(x, x) < Times(f, f)
  {
    TimesPositive(f - Abs(x), f + Abs(x));
    assert (f - Abs(x)) * (f + Abs(x)) == f * f - Abs(x) * Abs(x);
  }

  lemma {:induction false} SmallRest(a: Matrix, d: nat, v: Row, lo: nat, hi: nat, f: real)
    requires Shape(a, d) && |v| == d && lo < hi <= d
    requires forall i | lo <= i < hi :: Abs(Dot(a[i], v, d)) < f
    ensures Rest(a, d, v, lo, hi) < Times((hi - lo) as real, Times(f, f))
    decreases hi
  {
    hide Dot;
    var last := Dot(a[hi - 1], v, d);
    SmallSquare(last, f);
    OneMoreTimes(hi - lo, Times(f, f));
    if hi == lo + 1 {
      assert Rest(a, d, v, lo, lo) == 0.0;
    } else {
      SmallRest(a, d, v, lo, hi - 1, f);
    }
  }

  lemma OneMoreTimes(k: int, x: real)
    ensures Times(k as real, x) == Times((k - 1) as real, x) + x
    ensures Times(0.0, x) == 0.0
  {
  }

  // ---- what the penalty guarantees

  /** Targets of zero. */
  ghost function NoTargets(x: seq<Row>): (y: Row)
    ensures |y| == |x| && forall k | 0 <= k < |y| :: y[k] == 0.0
  {
    seq(|x|, _ => 0.0)
  }

  /** A row of the normal equations gives a vector its share of the samples, and the penalty's share. */
  lemma PenaltyShare(x: seq<Row>, y: Row, penalty: real, z: Row, i: nat)
    requires Rectangular(x, y) && |z| == |x[0]| + 1 && i < |z|
    ensures Rectangular(x, NoTargets(x))
    ensures Dot(Normal(x, y, penalty, |x|)[i], z, |z|) == Residual(x, NoTargets(x), z, |x|)[i] + penalty * z[i]
  {
    hide Dot, Normal, Residual;
    var d, y0 := |z|, NoTargets(x);
    var a, a0 := Normal(x, y, penalty, |x|)[i], Normal(x, y0, 0.0, |x|)[i];
    ShareOfSamples(x, y0, z, i);
    var unit := seq(d, j requires 0 <= j < d => if j == i then 1.0 else 0.0);
    forall j | 0 <= j < d ensures a[j] == a0[j] + penalty * unit[j] {
      PenaltyEntry(x, y, y0, penalty, i, j);
    }
    DotPlus(a, a0, penalty, unit, z, d);
    DotUnit(unit, z, d, i);
  }

  lemma ShareOfSamples(x: seq<Row>, y0: Row, z: Row, i: nat)
    requires Rectangular(x, y0) && |z| == |x[0]| + 1 && i < |z| && forall k | 0 <= k < |y0| :: y0[k] == 0.0
    ensures Residual(x, y0, z, |x|)[i] == Dot(Normal(x, y0, 0.0, |x|)[i], z, |z|)
  {
    hide Dot, Gram, Moment;
    NoMoment(x, y0, i, |x|);
    assert Normal(x, y0, 0.0, |x|)[i][|z|] == 0.0;
  }

  lemma PenaltyEntry(x: seq<Row>, y: Row, y0: Row, penalty: real, i: nat, j: nat)
    requires Rectangular(x, y) && Rectangular(x, y0) && i <= |x[0]| && j <= |x[0]|
    ensures Normal(x, y, penalty, |x|)[i][j] == Normal(x, y0, 0.0, |x|)[i][j] + if j == i then penalty else 0.0
  {
  }

  lemma {:induction false} NoMoment(x: seq<Row>, y: Row, i: nat, m: nat)
    requires m <= |x| && m <= |y| && (forall k | 0 <= k < m :: i <= |x[k]|) && forall k | 0 <= k < |y| :: y[k] == 0.0
    ensures Moment(x, y, i, m) == 0.0
  {
    if m > 0 {
      NoMoment(x, y, i, m - 1);
    }
  }

  /** The samples alone never pull a vector backwards. */
  lemma {:induction false} SamplesPull(x: seq<Row>, y: Row, z: Row, m: nat)
    requires m <= |x| && m <= |y| && (forall k | 0 <= k < m :: |z| <= |x[k]| + 1) && forall k | 0 <= k < |y| :: y[k] == 0.0
    ensures Cross(x, y, z, z, m) >= 0.0
  {
    hide Dot;
    if m > 0 {
      SamplesPull(x, y, z, m - 1);
      TimesSquare(Dot(Sample(x[m - 1]), z, |z|));
    }
  }

  lemma ShareBound(r: real, penalty: real, z: real)
    ensures Times(r + penalty * z, r + penalty * z) >= Times(Times(penalty, penalty), z * z) + Times(2.0 * penalty, r * z)
  {
    TimesSquare(r);
    assert (r + penalty * z) * (r + penalty * z) == r * r + 2.0 * (penalty * (r * z)) + (penalty * penalty) * (z * z);
  }

  /** The squares add up to at least the penalty's square times the vector's, and twice the pull. */
  lemma {:induction false} RestIsLarge(a: Matrix, d: nat, r: Row, penalty: real, z: Row, k: nat)
    requires Shape(a, d) && |z| == |r| == d && k <= d
    requires forall i | 0 <= i < d :: Dot(a[i], z, d) == r[i] + penalty * z[i]
    ensures Rest(a, d, z, 0, k) >= Times(Times(penalty, penalty), Dot(z, z, k)) + Times(2.0 * penalty, Dot(r, z, k))
  {
    hide Times;
    if k == 0 {
      TimesByZero(Times(penalty, penalty));
      TimesByZero(2.0 * penalty);
    } else {
      RestIsLarge(a, d, r, penalty, z, k - 1);
      var p, q, g := r[k - 1], z[k - 1], Dot(a[k - 1], z, d);
      ShareBound(p, penalty, q);
      assert g == p + penalty * q && Rest(a, d, z, 0, k) == Rest(a, d, z, 0, k - 1) + Times(g, g);
      assert Dot(z, z, k) == Dot(z, z, k - 1) + q * q && Dot(r, z, k) == Dot(r, z, k - 1) + p * q;
      DistributeTimes(Times(penalty, penalty), Dot(z, z, k - 1), q * q);
      DistributeTimes(2.0 * penalty, Dot(r, z, k - 1), p * q);
    }
  }

  lemma {:induction false} DotAtLeast(z: Row, i: nat, k: nat)
    requires i < k <= |z| && z[i] == 1.0
    ensures Dot(z, z, k) >= 1.0
  {
    hide Dot, Times;
    SplitLast(z, k);
    if i == k - 1 {
      DotSquareNonNegative(z, k - 1);
      OneMoreTimes(1, 1.0);
    } else {
      DotAtLeast(z, i, k - 1);
      TimesSquare(z[k - 1]);
    }
  }

  lemma SplitLast(z: Row, k: nat)
    requires 0 < k <= |z|
    ensures Dot(z, z, k) == Dot(z, z, k - 1) + Times(z[k - 1], z[k - 1])
  {
  }

  /** The matrix of the normal equations nearly kills no vector with a unit entry. */
  lemma NormalIsLarge(x: seq<Row>, y: Row, penalty: real, z: Row, i: nat)
    requires Rectangular(x, y) && |z| == |x[0]| + 1 && i < |z| && z[i] == 1.0 && penalty >= 0.0
    ensures Rest(Normal(x, y, penalty, |x|), |z|, z, 0, |z|) >= Times(penalty, penalty)
  {
    hide Dot, Residual, Normal, Cross;
    var d, y0 := |z|, NoTargets(x);
    var r := Residual(x, y0, z, |x|);
    forall j | 0 <= j < d ensures Dot(Normal(x, y, penalty, |x|)[j], z, d) == r[j] + penalty * z[j] {
      PenaltyShare(x, y, penalty, z, j);
    }
    RestIsLarge(Normal(x, y, penalty, |x|), d, r, penalty, z, d);
    CrossIsResidual(x, y0, z, z, |x|);
    SamplesPull(x, y0, z, |x|);
    DotAtLeast(z, i, d);
    PenaltyWins(penalty, Dot(z, z, d), Dot(r, z, d));
  }

  lemma PenaltyWins(penalty: real, zz: real, rz: real)
    requires penalty >= 0.0 && zz >= 1.0 && rz >= 0.0
    ensures Times(Times(penalty, penalty), zz) + Times(2.0 * penalty, rz) >= Times(penalty, penalty)
  {
    TimesSquare(penalty);
    TimesNonNegative(Times(penalty, penalty), zz - 1.0);
    TimesNonNegative(2.0 * penalty, rz);
    assert Times(penalty, penalty) * (zz - 1.0) == Times(penalty, penalty) * zz - Times(penalty, penalty);
  }

  // ---- the theorem

  /** The penalty reaches the pivot floor times the square root of the number of unknowns. */
  predicate LargeEnough(penalty: real, d: nat) {
    penalty >= 0.0 && Times(penalty, penalty) >= Times(d as real, Times(PIVOT_FLOOR, PIVOT_FLOOR))
  }

  lemma PivotIsLarge(x: seq<Row>, y: Row, penalty: real, a: Matrix, d: nat, col: nat, p: nat)
    requires Rectangular(x, y) && d == |x[0]| + 1 && Shape(a, d) && col < d && LargeEnough(penalty, d)
    requires UnitColumns(a, d, col) && Tied(Normal(x, y, penalty, |x|), a, d, col) && IsPivot(a, d, col, p)
    ensures Abs(a[p][col]) >= PIVOT_FLOOR
  {
    hide Dot, Normal, Rest;
    if Abs(a[p][col]) < PIVOT_FLOOR {
      var z := Probe(a, d, col);
      forall i | 0 <= i < d ensures Dot(a[i], z, d) == if i < col then 0.0 else a[i][col] {
        ProbeReads(a, d, col, i);
      }
      assert TiedAt(Normal(x, y, penalty, |x|), a, d, col, z);
      SmallRest(a, d, z, col, d, PIVOT_FLOOR);
      NormalIsLarge(x, y, penalty, z, col);
      FewerRows(d, col);
      assert false;
    }
  }

  lemma FewerRows(d: nat, col: nat)
    requires col <= d
    ensures Times((d - col) as real, Times(PIVOT_FLOOR, PIVOT_FLOOR)) <= Times(d as real, Times(PIVOT_FLOOR, PIVOT_FLOOR))
  {
  }

  lemma {:induction false} PivotExists(a: Matrix, d: nat, col: nat, k: nat) returns (p: nat)
    requires Shape(a, d) && col < k <= d
    ensures col <= p < k
    ensures (forall i | col <= i < k :: Abs(a[i][col]) <= Abs(a[p][col])) && forall i | p < i < k :: Abs(a[i][col]) < Abs(a[p][col])
  {
    if k == col + 1 {
      p := col;
    } else {
      p := PivotExists(a, d, col, k - 1);
      if Abs(a[k - 1][col]) >= Abs(a[p][col]) {
        p := k - 1;
      }
    }
  }

  lemma {:induction false} ReducesFrom(x: seq<Row>, y: Row, penalty: real, a: Matrix, d: nat, col: nat)
    requires Rectangular(x, y) && d == |x[0]| + 1 && Shape(a, d) && col <= d && LargeEnough(penalty, d)
    requires UnitColumns(a, d, col) && Tied(Normal(x, y, penalty, |x|), a, d, col)
    ensures Reduces(a, d, col)
    decreases d - col
  {
    hide Normal, Pivoted, Tied, LargeEnough;
    if col < d {
      var p := PivotExists(a, d, col, d);
      assert IsPivot(a, d, col, p);
      PivotIsLarge(x, y, penalty, a, d, col, p);
      TiedStep(Normal(x, y, penalty, |x|), a, d, col, p);
      PivotAddsUnitColumn(a, d, col, p);
      ReducesFrom(x, y, penalty, Pivoted(a, d, col, p), d, col + 1);
      ReducesStep(a, d, col, p);
    }
  }

  /** With a large enough penalty no sample set is refused as singular. */
  lemma LargePenaltyIsAccepted(x: seq<Row>, y: Row, penalty: real)
    requires Rectangular(x, y) && LargeEnough(penalty, |x[0]| + 1)
    ensures Reduces(Normal(x, y, penalty, |x|), |x[0]| + 1, 0)
  {
    hide Normal;
    var a := Normal(x, y, penalty, |x|);
    TiedAtFirst(a, |x[0]| + 1);
    ReducesFrom(x, y, penalty, a, |x[0]| + 1, 0);
  }
}
