/** Rows, matrices and dot products over exact reals. */
module Linear {
  type Row = seq<real>
  type Matrix = seq<Row>

  function Abs(x: real): real { if x < 0.0 then -x else x }

  /** The product of the first `k` entries. */
  function Dot(a: Row, v: Row, k: nat): real
    requires k <= |a| && k <= |v|
  {
    if k == 0 then 0.0 else Dot(a, v, k - 1) + a[k - 1] * v[k - 1]
  }

  /** The dot product is linear in its first argument. */
  lemma {:induction false} DotPlus(r: Row, a: Row, q: real, b: Row, v: Row, k: nat)
    requires k <= |r| && k <= |a| && k <= |b| && k <= |v|
    requires forall j | 0 <= j < k :: r[j] == a[j] + q * b[j]
    ensures Dot(r, v, k) == Dot(a, v, k) + q * Dot(b, v, k)
  {
    if k == 0 {
    } else {
      DotPlus(r, a, q, b, v, k - 1);
      PlusTerm(r[k - 1], a[k - 1], q, b[k - 1], v[k - 1], Dot(b, v, k - 1));
    }
  }

  lemma PlusTerm(r: real, a: real, q: real, b: real, v: real, t: real)
    requires r == a + q * b
    ensures r * v + q * t == a * v + q * (t + b * v)
  {
  }

  lemma {:induction false} DotScale(r: Row, q: real, b: Row, v: Row, k: nat)
    requires k <= |r| && k <= |b| && k <= |v|
    requires forall j | 0 <= j < k :: r[j] == q * b[j]
    ensures Dot(r, v, k) == q * Dot(b, v, k)
  {
    if k == 0 {
    } else {
      DotScale(r, q, b, v, k - 1);
      PlusTerm(r[k - 1], 0.0, q, b[k - 1], v[k - 1], Dot(b, v, k - 1));
    }
  }

  lemma Distribute(p: real, x: real, y: real)
    ensures p * (x + y) == p * x + p * y
  {
  }

  lemma {:induction false} DotCommutes(a: Row, v: Row, k: nat)
    requires k <= |a| && k <= |v|
    ensures Dot(a, v, k) == Dot(v, a, k)
  {
    if k == 0 {
    } else {
      DotCommutes(a, v, k - 1);
    }
  }

  lemma {:induction false} DotSquareNonNegative(a: Row, k: nat)
    requires k <= |a|
    ensures Dot(a, a, k) >= 0.0
  {
    if k == 0 {
    } else {
      DotSquareNonNegative(a, k - 1);
    }
  }

  lemma {:induction false} DotZero(a: Row, v: Row, k: nat)
    requires k <= |a| && k <= |v| && forall j | 0 <= j < k :: a[j] == 0.0
    ensures Dot(a, v, k) == 0.0
  {
    if k == 0 {
    } else {
      DotZero(a, v, k - 1);
    }
  }

  lemma {:induction false} DotUnit(a: Row, v: Row, k: nat, i: nat)
    requires i < k <= |a| && k <= |v|
    requires forall j | 0 <= j < k :: a[j] == if j == i then 1.0 else 0.0
    ensures Dot(a, v, k) == v[i]
  {
    if i == k - 1 {
      DotZero(a, v, k - 1);
    } else {
      DotUnit(a, v, k - 1, i);
    }
  }

  lemma {:induction false} DotOfSum(s: Row, w: Row, h: Row, v: Row, n: nat)
    requires n <= |s| && n <= |w| && n <= |h| && n <= |v|
    requires forall j | 0 <= j < n :: v[j] == w[j] + h[j]
    ensures Dot(s, v, n) == Dot(s, w, n) + Dot(s, h, n)
  {
    if n == 0 {
    } else {
      DotOfSum(s, w, h, v, n - 1);
      Distribute(s[n - 1], w[n - 1], h[n - 1]);
    }
  }

  /** The rows held by a two-dimensional array. */
  ghost function Rows(a: array2<real>): (m: Matrix)
    reads a
    ensures |m| == a.Length0
    ensures forall i | 0 <= i < a.Length0 :: |m[i]| == a.Length1 && forall j | 0 <= j < a.Length1 :: m[i][j] == a[i, j]
  {
    seq(a.Length0, i requires 0 <= i < a.Length0 reads a =>
      seq(a.Length1, j requires 0 <= j < a.Length1 reads a => a[i, j]))
  }

  lemma SameRows(m: Matrix, n: Matrix)
    requires |m| == |n|
    requires forall i | 0 <= i < |m| :: |m[i]| == |n[i]| && forall j | 0 <= j < |m[i]| :: m[i][j] == n[i][j]
    ensures m == n
  {
    forall i | 0 <= i < |m| ensures m[i] == n[i] {
    }
  }

  // ---- a product with a name, so that it can be hidden where its value does not matter

  function Times(x: real, y: real): real { x * y }

  lemma TimesSquare(x: real)
    ensures Times(x, x) >= 0.0 && (Times(x, x) == 0.0 <==> x == 0.0)
  {
    TimesZero(0.0);
    hide Times;
    if x < 0.0 {
      TimesPositive(-x, -x);
      TimesNegated(x, x);
    } else if x > 0.0 {
      TimesPositive(x, x);
    }
  }

  lemma TimesByZero(x: real)
    ensures Times(x, 0.0) == 0.0 && Times(0.0, x) == 0.0
  {
  }

  lemma DistributeTimes(p: real, x: real, y: real)
    ensures Times(p, x + y) == Times(p, x) + Times(p, y)
  {
  }

  lemma CollectTimes(x: real, y: real, p: real)
    ensures Times(x + y, p) == Times(x, p) + Times(y, p)
  {
  }

  lemma TimesZero(x: real)
    ensures Times(0.0, x) == 0.0
  {
  }

  lemma TimesPositive(x: real, y: real)
    requires x > 0.0 && y > 0.0
    ensures Times(x, y) > 0.0
  {
  }

  lemma TimesNonNegative(x: real, y: real)
    requires x >= 0.0 && y >= 0.0
    ensures Times(x, y) >= 0.0
  {
  }

  lemma TimesNegated(x: real, y: real)
    ensures Times(-x, -y) == Times(x, y)
  {
  }
}
