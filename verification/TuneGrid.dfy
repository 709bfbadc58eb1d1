/** The exhaustive sampler: a counter decoded in mixed radix, and which windows of calls list the whole grid. */
module TuneGrid {
  import opened TuneSpace

  /** A grid point: one index per dimension, each below its cardinality. */
  ghost predicate IsPoint(dims: seq<nat>, p: seq<nat>) {
    |p| == |dims| && forall d | 0 <= d < |dims| :: p[d] < dims[d]
  }

  ghost predicate Radices(dims: seq<nat>) { forall d | 0 <= d < |dims| :: dims[d] >= 1 }

  /** The linear index of a point, read from dimension d on. */
  function Index(dims: seq<nat>, p: seq<nat>, d: nat): nat
    requires |p| == |dims| && d <= |dims|
    decreases |dims| - d
  {
    if d == |dims| then 0 else p[d] * Points(dims, d + 1) + Index(dims, p, d + 1)
  }

  lemma {:induction false} IndexBound(dims: seq<nat>, p: seq<nat>, d: nat)
    requires IsPoint(dims, p) && d <= |dims|
    ensures Index(dims, p, d) < Points(dims, d)
    decreases |dims| - d
  {
    if d < |dims| {
      IndexBound(dims, p, d + 1);
      DigitBound(p[d], dims[d], Points(dims, d + 1), Index(dims, p, d + 1));
    }
  }

  /** Two points with the same index are the same point. */
  lemma {:induction false} IndexInjective(dims: seq<nat>, p: seq<nat>, q: seq<nat>, d: nat)
    requires IsPoint(dims, p) && IsPoint(dims, q) && d <= |dims| && Index(dims, p, d) == Index(dims, q, d)
    ensures p[d..] == q[d..]
    decreases |dims| - d
  {
    if d < |dims| {
      IndexBound(dims, p, d + 1);
      IndexBound(dims, q, d + 1);
      SameDigits(p[d], Index(dims, p, d + 1), q[d], Index(dims, q, d + 1), Points(dims, d + 1));
      IndexInjective(dims, p, q, d + 1);
      assert p[d..] == [p[d]] + p[d + 1..] && q[d..] == [q[d]] + q[d + 1..];
    }
  }

  class GridSampler {
    var next: nat

    constructor ()
      ensures next == 0
    {
      next := 0;
    }

    /** Decode a linear index; the last dimension varies fastest. */
    static method Decode(dims: seq<nat>, n: nat) returns (out: seq<nat>)
      requires Radices(dims)
      ensures IsPoint(dims, out) && Points(dims, 0) > 0
      ensures Index(dims, out, 0) == n % Points(dims, 0)
      ensures n < Points(dims, 0) ==> Index(dims, out, 0) == n
    {
      hide Points, Index, Padded, Digit, Rest;
      var digits := new nat[|dims|](_ => 0);
      LastDigits(dims, digits[..], n);
      var rest, d := n, |dims|;
      PointsPositive(dims, 0);
      PointsPositive(dims, d);
      while d > 0
        invariant 0 <= d <= |dims|
        invariant forall j | d <= j < |dims| :: digits[j] < dims[j]
        invariant n == rest * Points(dims, d) + Index(dims, Padded(dims, digits[..], d), d)
        invariant Index(dims, Padded(dims, digits[..], d), d) < Points(dims, d)
      {
        d := d - 1;
        ghost var before := digits[..];
        var k := Max(dims[d], 1);
        digits[d] := Digit(rest, k);
        DigitStep(dims, before, digits[..], d, rest, n);
        rest := Rest(rest, k);
      }
      out := digits[..];
      IndexBound(dims, out, 0);
      NothingPadded(dims, out);
      Remainder(n, rest, Points(dims, 0), Index(dims, out, 0));
    }

    /** The next point; the counter wraps around at the machine's word. */
    method Suggest(space: Space) returns (combo: seq<nat>)
      requires next <= USIZE_MAX
      modifies this
      ensures next == (old(next) + 1) % (USIZE_MAX + 1) && next <= USIZE_MAX
      ensures IsPoint(Dims(space), combo) && Index(Dims(space), combo, 0) == Turn(space, old(next))
    {
      var dims := Dims(space);
      var size := Size(space);
      PointsPositive(dims, 0);
      var total := Max(size, 1);
      combo := Decode(dims, next % total);
      TurnBelow(space, next);
      next := (next + 1) % (USIZE_MAX + 1);
    }
  }

  /** The index of the point listed when the counter stands at c. */
  function Turn(space: Space, c: nat): nat {
    c % Max(Min(Points(Dims(space), 0), USIZE_MAX), 1)
  }

  lemma TurnBelow(space: Space, c: nat)
    ensures Turn(space, c) < Points(Dims(space), 0)
  {
    PointsPositive(Dims(space), 0);
  }

  function Digit(n: nat, k: nat): (r: nat)
    requires k > 0
    ensures r < k
  {
    n % k
  }

  function Rest(n: nat, k: nat): nat
    requires k > 0
  {
    n / k
  }

  /** The digits found so far, with zeros in front. */
  ghost function Padded(dims: seq<nat>, digits: seq<nat>, d: nat): (r: seq<nat>)
    requires |digits| == |dims| && d <= |dims|
    ensures |r| == |dims|
  {
    seq(|dims|, j requires 0 <= j < |dims| => if j < d then 0 else digits[j])
  }

  lemma LastDigits(dims: seq<nat>, digits: seq<nat>, n: nat)
    requires |digits| == |dims|
    ensures n == n * Points(dims, |dims|) + Index(dims, Padded(dims, digits, |dims|), |dims|)
    ensures Index(dims, Padded(dims, digits, |dims|), |dims|) < Points(dims, |dims|)
  {
  }

  lemma NothingPadded(dims: seq<nat>, digits: seq<nat>)
    requires |digits| == |dims|
    ensures Padded(dims, digits, 0) == digits
  {
  }

  lemma {:induction false} IndexOfTail(dims: seq<nat>, p: seq<nat>, q: seq<nat>, d: nat)
    requires |p| == |q| == |dims| && d <= |dims| && forall j | d <= j < |dims| :: p[j] == q[j]
    ensures Index(dims, p, d) == Index(dims, q, d)
    decreases |dims| - d
  {
    if d < |dims| {
      IndexOfTail(dims, p, q, d + 1);
    }
  }

  lemma DigitStep(dims: seq<nat>, before: seq<nat>, after: seq<nat>, d: nat, rest: nat, n: nat)
    requires Radices(dims) && |before| == |dims| && d < |dims| && after == before[d := Digit(rest, dims[d])]
    requires n == rest * Points(dims, d + 1) + Index(dims, Padded(dims, before, d + 1), d + 1)
    requires Index(dims, Padded(dims, before, d + 1), d + 1) < Points(dims, d + 1)
    ensures n == Rest(rest, dims[d]) * Points(dims, d) + Index(dims, Padded(dims, after, d), d)
    ensures Index(dims, Padded(dims, after, d), d) < Points(dims, d)
  {
    IndexOfTail(dims, Padded(dims, before, d + 1), Padded(dims, after, d), d + 1);
    var k, w, r := dims[d], Points(dims, d + 1), Index(dims, Padded(dims, after, d), d + 1);
    assert rest == (rest / k) * k + rest % k;
    DigitBound(rest % k, k, w, r);
    Carry(rest / k, k, rest % k, w);
  }

  lemma Carry(q: int, k: int, x: int, w: int)
    ensures (q * k + x) * w == q * (k * w) + x * w
  {
  }

  lemma Remainder(n: nat, q: nat, w: nat, r: nat)
    requires n == q * w + r && r < w
    ensures n % w == r && (n < w ==> r == n)
  {
    var a, b := n / w, n % w;
    assert n == a * w + b;
    SameDigits(q, r, a, b, w);
    if n < w {
      SameDigits(q, r, 0, n, w);
    }
  }

  // ---- windows of calls

  /** The counter after t more calls. */
  function CounterAfter(c: nat, t: nat): nat { (c + t) % (USIZE_MAX + 1) }

  /** The t-th of the next calls lists the point. */
  ghost predicate Lists(space: Space, c: nat, t: nat, p: seq<nat>)
    requires |p| == |space|
  {
    Turn(space, CounterAfter(c, t)) == Index(Dims(space), p, 0)
  }

  /** Among the next `size` calls exactly one lists the point. */
  ghost predicate ListsOnce(space: Space, c: nat, size: nat, p: seq<nat>)
    requires |p| == |space|
  {
    exists t: nat :: t < size && Lists(space, c, t, p) && forall u: nat | u < size && Lists(space, c, u, p) :: u == t
  }

  lemma ModDifference(a: nat, b: nat, m: nat)
    requires m > 0 && a <= b < a + m && a % m == b % m
    ensures a == b
  {
    var p, q := a / m, b / m;
    assert a == p * m + a % m && b == q * m + b % m;
    assert b - a == (q - p) * m;
    if q > p {
      ProductAtLeast(q - p, m);
    } else if q < p {
      ProductAtLeast(p - q, m);
      Spread(p, q, m);
    }
  }

  /** Every residue is met within m consecutive numbers. */
  lemma ResidueMet(a: nat, m: nat, r: nat) returns (t: nat)
    requires r < m
    ensures t < m && (a + t) % m == r
  {
    var s := a % m;
    t := if r >= s then r - s else r + m - s;
    var q := a / m;
    Whole(a, m);
    if r >= s {
      Remainder(a + t, q, m, r);
    } else {
      NextMultiple(q, m);
      Remainder(a + t, q + 1, m, r);
    }
  }

  lemma NextMultiple(q: nat, m: nat)
    ensures (q + 1) * m == q * m + m
  {
  }

  /**
    While neither the size of the grid nor the counter overflows, every window of
    `size` consecutive calls lists every grid point exactly once.
  */
  lemma WindowListsAll(space: Space, c: nat, p: seq<nat>)
    requires IsPoint(Dims(space), p) && Points(Dims(space), 0) <= USIZE_MAX && c + Points(Dims(space), 0) <= USIZE_MAX + 1
    ensures ListsOnce(space, c, Points(Dims(space), 0), p)
  {
    var m, i := Points(Dims(space), 0), Index(Dims(space), p, 0);
    PointsPositive(Dims(space), 0);
    IndexBound(Dims(space), p, 0);
    forall u: nat | u < m ensures CounterAfter(c, u) == c + u && (Lists(space, c, u, p) <==> (c + u) % m == i) {
      SmallRemainder(c + u, USIZE_MAX + 1);
    }
    var t := ResidueMet(c, m, i);
    forall u: nat | u < m && Lists(space, c, u, p) ensures u == t {
      if u <= t {
        ModDifference(c + u, c + t, m);
      } else {
        ModDifference(c + t, c + u, m);
      }
    }
    assert Lists(space, c, t, p);
  }

  lemma SmallRemainder(a: nat, m: nat)
    requires a < m
    ensures a % m == a
  {
  }

  /**
    A window in which the counter wraps lists some point twice, unless the size of the
    grid divides the range of the counter.
  */
  lemma WrappedWindowRepeats(space: Space, c: nat) returns (t: nat, u: nat)
    requires c <= USIZE_MAX && Points(Dims(space), 0) <= USIZE_MAX && c + Points(Dims(space), 0) > USIZE_MAX + 1
    requires (USIZE_MAX + 1) % Points(Dims(space), 0) != 0
    ensures t < u < Points(Dims(space), 0) && Turn(space, CounterAfter(c, t)) == Turn(space, CounterAfter(c, u))
  {
    PointsPositive(Dims(space), 0);
    t, u := WrapRepeat(Points(Dims(space), 0), c, USIZE_MAX + 1);
  }

  /** The last call before a wrap at w has residue w - 1; some call after the wrap has the residue of one before it. */
  lemma WrapRepeat(m: nat, c: nat, w: nat) returns (t: nat, u: nat)
    requires 0 < m < w && c < w < c + m && w % m != 0
    ensures t < u < m && ((c + t) % w) % m == ((c + u) % w) % m
  {
    var r, first, q := w % m, w - c, w / m;
    assert w == q * m + r;
    if r <= first {
      t, u := first - r, first;
      Remainder(w - r, q, m, 0);
      SmallRemainder(c + t, w);
      WrapAround(c + u, w, 0);
      SmallRemainder(0, m);
    } else {
      t, u := 0, first + (r - first);
      Remainder(c, q, m, r - first);
      SmallRemainder(c, w);
      WrapAround(c + u, w, r - first);
      SmallRemainder(r - first, m);
    }
  }

  lemma WrapAround(a: nat, m: nat, r: nat)
    requires a == m + r && r < m
    ensures a % m == r
  {
    Remainder(a, 1, m, r);
  }

  /** When the size of the grid divides the range of the counter, a wrap does no harm. */
  lemma DividedWindowListsAll(space: Space, c: nat, p: seq<nat>)
    requires IsPoint(Dims(space), p) && Points(Dims(space), 0) <= USIZE_MAX
    requires var m := Points(Dims(space), 0); m > 0 && (USIZE_MAX + 1) % m == 0
    ensures ListsOnce(space, c, Points(Dims(space), 0), p)
  {
    var m, i := Points(Dims(space), 0), Index(Dims(space), p, 0);
    IndexBound(Dims(space), p, 0);
    forall u: nat | u < m ensures Lists(space, c, u, p) <==> (c + u) % m == i {
      RemainderOfRemainder(c + u, USIZE_MAX + 1, m);
    }
    var t := ResidueMet(c, m, i);
    forall u: nat | u < m && Lists(space, c, u, p) ensures u == t {
      if u <= t {
        ModDifference(c + u, c + t, m);
      } else {
        ModDifference(c + t, c + u, m);
      }
    }
    assert Lists(space, c, t, p);
  }

  lemma RemainderOfRemainder(a: nat, w: nat, m: nat)
    requires w > 0 && m > 0 && w % m == 0
    ensures (a % w) % m == a % m
  {
    Whole(a, w);
    Whole(w, m);
    Whole(a % w, m);
    Nested(a / w, w / m, m, (a % w) / m, (a % w) % m);
    Remainder(a, (a / w) * (w / m) + (a % w) / m, m, (a % w) % m);
  }

  lemma Whole(x: nat, d: nat)
    requires d > 0
    ensures x == (x / d) * d + x % d
  {
  }

  lemma Nested(q: nat, k: nat, m: nat, x: nat, r: nat)
    ensures q * (k * m) + (x * m + r) == (q * k + x) * m + r
  {
  }

  /**
    A window of `size` calls from a counter below its limit lists every point exactly once
    if and only if the counter does not wrap inside it or the size divides its range.
  */
  lemma WindowExactly(space: Space, c: nat)
    requires c <= USIZE_MAX && Points(Dims(space), 0) <= USIZE_MAX
    ensures Points(Dims(space), 0) > 0
    ensures (forall p | IsPoint(Dims(space), p) :: ListsOnce(space, c, Points(Dims(space), 0), p)) <==>
      c + Points(Dims(space), 0) <= USIZE_MAX + 1 || (USIZE_MAX + 1) % Points(Dims(space), 0) == 0
  {
    PointsPositive(Dims(space), 0);
    hide Points, ListsOnce;
    if c + Points(Dims(space), 0) <= USIZE_MAX + 1 {
      forall p | IsPoint(Dims(space), p) ensures ListsOnce(space, c, Points(Dims(space), 0), p) { WindowListsAll(space, c, p); }
    } else if (USIZE_MAX + 1) % Points(Dims(space), 0) == 0 {
      forall p | IsPoint(Dims(space), p) ensures ListsOnce(space, c, Points(Dims(space), 0), p) { DividedWindowListsAll(space, c, p); }
    } else {
      var p := RepeatedPoint(space, c);
    }
  }

  lemma RepeatedPoint(space: Space, c: nat) returns (p: seq<nat>)
    requires c <= USIZE_MAX && Points(Dims(space), 0) <= USIZE_MAX && c + Points(Dims(space), 0) > USIZE_MAX + 1
    requires Points(Dims(space), 0) > 0 && (USIZE_MAX + 1) % Points(Dims(space), 0) != 0
    ensures IsPoint(Dims(space), p) && !ListsOnce(space, c, Points(Dims(space), 0), p)
  {
    var t, u := WrappedWindowRepeats(space, c);
    TurnBelow(space, CounterAfter(c, t));
    p := PointOf(Dims(space), Turn(space, CounterAfter(c, t)), 0);
    assert Lists(space, c, t, p) && Lists(space, c, u, p);
  }

  /** Every index below the size is the index of a point. */
  lemma {:induction false} PointOf(dims: seq<nat>, n: nat, d: nat) returns (p: seq<nat>)
    requires Radices(dims) && d <= |dims| && n < Points(dims, d)
    ensures |p| == |dims| && (forall j | 0 <= j < |dims| :: p[j] < dims[j]) && Index(dims, p, d) == n
    decreases |dims| - d
  {
    if d == |dims| {
      p := seq(|dims|, _ => 0);
    } else {
      var w := Points(dims, d + 1);
      PointsPositive(dims, d + 1);
      var rest := PointOf(dims, n % w, d + 1);
      p := rest[d := n / w];
      assert n == (n / w) * w + n % w;
      if n / w >= dims[d] {
        DigitBound(dims[d] - 1, n / w, w, w - 1);
        Spread(dims[d], 1, w);
        assert false;
      }
      IndexOfTail(dims, p, rest, d + 1);
    }
  }

  /** When the size saturates, the counter is too short: some point of the grid is listed by no call, wherever the counter stands. */
  lemma SaturatedGridMisses(space: Space)
    requires Points(Dims(space), 0) > USIZE_MAX
    ensures exists p :: IsPoint(Dims(space), p) && forall c: nat :: Turn(space, c) != Index(Dims(space), p, 0)
  {
    var p := PointOf(Dims(space), USIZE_MAX, 0);
    forall c: nat ensures Turn(space, c) != Index(Dims(space), p, 0) {
      ShortTurn(space, c);
    }
    assert IsPoint(Dims(space), p);
  }

  lemma ShortTurn(space: Space, c: nat)
    requires Points(Dims(space), 0) > USIZE_MAX
    ensures Turn(space, c) != USIZE_MAX
  {
  }
}
