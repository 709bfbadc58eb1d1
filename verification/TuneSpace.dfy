/** The discretised search space: how many grid points each dimension has, and which values they are. */
module TuneSpace {
  import opened Wrappers
  import opened Linear

  const USIZE_MAX := 0xFFFF_FFFF_FFFF_FFFF
  const I64_MAX := 0x7FFF_FFFF_FFFF_FFFF
  const I64_MIN := -0x8000_0000_0000_0000
  const MAX_INT_CARDINALITY := 100_000_000

  newtype I64 = x: int | -0x8000_0000_0000_0000 <= x <= 0x7FFF_FFFF_FFFF_FFFF

  /** A bound that may fail to be a finite number. */
  type Bound = Option<real>

  datatype Param =
    | Int(lo: I64, hi: I64, step: I64)
    | Float(low: Bound, high: Bound, res: nat)
    | LogFloat(low: Bound, high: Bound, res: nat)
    | Categorical(choices: seq<string>)

  datatype ParamValue = IntValue(i: int) | FloatValue(x: Bound) | StrValue(s: string)

  function Max(a: int, b: int): int { if a >= b then a else b }

  function Min(a: int, b: int): int { if a <= b then a else b }

  /** The number of grid points. */
  function Cardinality(p: Param): (k: nat)
    ensures k >= 1
  {
    match p
    case Int(lo, hi, step) =>
      if hi < lo then 1 else Min(Max((hi as int - lo as int) / Max(step as int, 1) + 1, 1), USIZE_MAX)
    case Float(_, _, res) => Max(res, 1)
    case LogFloat(_, _, res) => Max(res, 1)
    case Categorical(choices) => Max(|choices|, 1)
  }

  /** The point j/n of the way from a to b. */
  function Between(a: real, b: real, j: real, n: real): real
    requires n != 0.0
  {
    a + (b - a) * j / n
  }

  /** The exponential of an interpolation between logarithms, as the code computes it. */
  type Geometric = (real, real, nat, nat) -> real

  /** The value at grid index i, clamped into range. */
  function ValueAt(p: Param, i: nat, geometric: Geometric): ParamValue {
    var k := Cardinality(p);
    var j := Min(i, k - 1);
    match p
    case Int(lo, _, step) => IntValue(Max(I64_MIN, Min(lo as int + j * Max(step as int, 1), I64_MAX)))
    case Float(low, high, _) =>
      if k == 1 then FloatValue(low)
      else if low.None? || high.None? then FloatValue(None)
      else FloatValue(Some(Between(low.value, high.value, j as real, (k - 1) as real)))
    case LogFloat(low, high, _) =>
      if k == 1 || low.None? || high.None? || low.value <= 0.0 || high.value <= 0.0 then FloatValue(low)
      else FloatValue(Some(geometric(low.value, high.value, j, k - 1)))
    case Categorical(choices) => StrValue(if j < |choices| then choices[j] else "")
  }

  /** Whether a dimension describes a usable grid. */
  predicate Validates(p: Param) {
    match p
    case Int(lo, hi, step) =>
      step > 0 && lo <= hi && (hi as int - lo as int) / (step as int) + 1 <= MAX_INT_CARDINALITY
    case Float(low, high, res) => low.Some? && high.Some? && res > 0
    case LogFloat(low, high, res) => low.Some? && high.Some? && low.value > 0.0 && high.value > 0.0 && res > 0
    case Categorical(choices) => choices != []
  }

  lemma DivisionBounds(x: int, d: int)
    requires d > 0
    ensures x / d * d <= x < (x / d + 1) * d
  {
  }

  lemma StepWithin(j: int, q: int, d: int)
    requires 0 <= j <= q && d > 0
    ensures 0 <= j * d <= q * d
  {
  }

  /** In a valid integer dimension nothing is clamped: the grid is exactly the multiples of the step that fit between the bounds. */
  lemma IntGridIsExact(p: Param, geometric: Geometric, v: int)
    requires p.Int? && Validates(p)
    ensures (p.lo as int <= v <= p.hi as int && (v - p.lo as int) % (p.step as int) == 0) <==>
      exists i: nat :: i < Cardinality(p) && ValueAt(p, i, geometric) == IntValue(v)
  {
    var lo, hi, d := p.lo as int, p.hi as int, p.step as int;
    var q := (hi - lo) / d;
    DivisionBounds(hi - lo, d);
    QuotientNonNegative(hi - lo, d);
    assert Cardinality(p) == q + 1;
    forall i: nat | i < Cardinality(p) ensures ValueAt(p, i, geometric) == IntValue(lo + i * d) && lo + i * d <= hi {
      StepWithin(i, q, d);
    }
    if lo <= v <= hi && (v - lo) % d == 0 {
      var i := (v - lo) / d;
      QuotientNonNegative(v - lo, d);
      ExactQuotient(v - lo, d);
      QuotientMonotone(v - lo, hi - lo, d);
      assert ValueAt(p, i, geometric) == IntValue(v);
    }
    if i: nat :| i < Cardinality(p) && ValueAt(p, i, geometric) == IntValue(v) {
      StepWithin(i, q, d);
      MultipleRemainder(i, d);
    }
  }

  lemma QuotientNonNegative(x: int, d: int)
    requires x >= 0 && d > 0
    ensures x / d >= 0
  {
  }

  lemma ExactQuotient(x: int, d: int)
    requires d > 0 && x % d == 0
    ensures x / d * d == x
  {
  }

  lemma DigitBound(x: int, k: int, w: int, r: int)
    requires x < k && 0 <= r < w
    ensures x * w + r < k * w
  {
    ProductNonNegative(k - (x + 1), w);
    Spread(k, x + 1, w);
    assert (x + 1) * w == x * w + w;
  }

  lemma Spread(a: int, b: int, w: int)
    ensures (a - b) * w == a * w - b * w
  {
  }

  lemma ProductNonNegative(x: int, y: int)
    requires x >= 0 && y >= 0
    ensures x * y >= 0
  {
  }

  /** Division with remainder is unique. */
  lemma SameDigits(x: int, r: int, y: int, s: int, w: int)
    requires 0 <= r < w && 0 <= s < w && x * w + r == y * w + s
    ensures x == y && r == s
  {
    if x < y {
      DigitBound(x, y, w, r);
    } else if y < x {
      DigitBound(y, x, w, s);
    }
  }

  lemma QuotientMonotone(x: int, y: int, d: int)
    requires d > 0 && x <= y
    ensures x / d <= y / d
  {
    if y / d < x / d {
      DigitBound(y / d, x / d, d, y % d);
      assert false;
    }
  }

  lemma MultipleRemainder(i: int, d: int)
    requires d > 0
    ensures (i * d) % d == 0
  {
    SameDigits(i, 0, (i * d) / d, (i * d) % d, d);
  }

  /** A float dimension runs from its lower to its upper bound, in equal steps. */
  lemma FloatGridIsEven(p: Param, i: nat, geometric: Geometric)
    requires p.Float? && Validates(p) && Cardinality(p) > 1 && i + 1 < Cardinality(p)
    ensures ValueAt(p, 0, geometric) == FloatValue(p.low) && ValueAt(p, Cardinality(p) - 1, geometric) == FloatValue(p.high)
    ensures ValueAt(p, i, geometric).x.Some? && ValueAt(p, i + 1, geometric).x.Some?
    ensures Times((Cardinality(p) - 1) as real, ValueAt(p, i + 1, geometric).x.value - ValueAt(p, i, geometric).x.value) ==
      p.high.value - p.low.value
  {
    hide Between, Times;
    var n := (Cardinality(p) - 1) as real;
    BetweenEnds(p.low.value, p.high.value, n);
    BetweenStep(p.low.value, p.high.value, i as real, n);
  }

  lemma BetweenEnds(a: real, b: real, n: real)
    requires n > 0.0
    ensures Between(a, b, 0.0, n) == a && Between(a, b, n, n) == b
  {
    assert (b - a) * n / n == b - a;
  }

  lemma BetweenStep(a: real, b: real, i: real, n: real)
    requires n > 0.0
    ensures Times(n, Between(a, b, i + 1.0, n) - Between(a, b, i, n)) == b - a
  {
    EvenStep(b - a, n, i);
  }

  lemma EvenStep(d: real, n: real, i: real)
    requires n > 0.0
    ensures n * (d * (i + 1.0) / n - d * i / n) == d
  {
    assert n * (d * (i + 1.0) / n) == d * (i + 1.0);
    assert n * (d * i / n) == d * i;
  }

  // ---- the space

  datatype Dim = Dim(name: string, param: Param)

  type Space = seq<Dim>

  ghost predicate AllValid(space: Space) { forall d | 0 <= d < |space| :: Validates(space[d].param) }

  /** Add a dimension, refused when it describes no usable grid. */
  function TryAdd(space: Space, name: string, param: Param): (r: Option<Space>)
    ensures r.Some? <==> Validates(param)
    ensures r.Some? ==> |r.value| == |space| + 1 && r.value[..|space|] == space && r.value[|space|] == Dim(name, param)
    ensures r.Some? && AllValid(space) ==> AllValid(r.value)
  {
    if Validates(param) then Some(space + [Dim(name, param)]) else None
  }

  function Dims(space: Space): (r: seq<nat>)
    ensures |r| == |space| && forall d | 0 <= d < |r| :: r[d] == Cardinality(space[d].param) && r[d] >= 1
  {
    seq(|space|, d requires 0 <= d < |space| => Cardinality(space[d].param))
  }

  /** The product of the cardinalities from dimension d on. */
  function Points(dims: seq<nat>, d: nat): nat
    requires d <= |dims|
    decreases |dims| - d
  {
    if d == |dims| then 1 else dims[d] * Points(dims, d + 1)
  }

  /** The product of the first d cardinalities. */
  function Head(dims: seq<nat>, d: nat): nat
    requires d <= |dims|
  {
    if d == 0 then 1 else Head(dims, d - 1) * dims[d - 1]
  }

  lemma {:induction false} PointsSplit(dims: seq<nat>, d: nat)
    requires d <= |dims|
    ensures Head(dims, d) * Points(dims, d) == Points(dims, 0)
  {
    if d > 0 {
      PointsSplit(dims, d - 1);
      Regroup(Head(dims, d - 1), dims[d - 1], Points(dims, d));
    }
  }

  lemma Regroup(a: int, b: int, c: int)
    ensures (a * b) * c == a * (b * c)
  {
  }

  lemma {:induction false} PointsPositive(dims: seq<nat>, d: nat)
    requires d <= |dims| && forall i | 0 <= i < |dims| :: dims[i] >= 1
    ensures Points(dims, d) >= 1
    decreases |dims| - d
  {
    if d < |dims| {
      PointsPositive(dims, d + 1);
      ProductAtLeast(dims[d], Points(dims, d + 1));
    }
  }

  lemma ProductAtLeast(a: nat, b: nat)
    requires a >= 1 && b >= 1
    ensures a * b >= a && a * b >= b
  {
  }

  lemma {:induction false} HeadGrows(dims: seq<nat>, d: nat)
    requires d <= |dims| && forall i | 0 <= i < |dims| :: dims[i] >= 1
    ensures 1 <= Head(dims, d) <= Points(dims, 0)
  {
    HeadPositive(dims, d);
    PointsPositive(dims, d);
    PointsSplit(dims, d);
    ProductAtLeast(Head(dims, d), Points(dims, d));
  }

  lemma {:induction false} HeadPositive(dims: seq<nat>, d: nat)
    requires d <= |dims| && forall i | 0 <= i < |dims| :: dims[i] >= 1
    ensures Head(dims, d) >= 1
  {
    if d > 0 {
      HeadPositive(dims, d - 1);
      ProductAtLeast(Head(dims, d - 1), dims[d - 1]);
    }
  }

  lemma {:induction false} PointsAppended(dims: seq<nat>, k: nat, d: nat)
    requires d <= |dims|
    ensures Points(dims + [k], d) == Points(dims, d) * k
    decreases |dims| - d
  {
    if d == |dims| {
      assert Points(dims + [k], d + 1) == 1;
    } else {
      PointsAppended(dims, k, d + 1);
      Regroup(dims[d], Points(dims, d + 1), k);
    }
  }

  /** Adding a dimension multiplies the grid by its cardinality. */
  lemma AddMultiplies(space: Space, name: string, param: Param)
    requires Validates(param)
    ensures Points(Dims(TryAdd(space, name, param).value), 0) == Points(Dims(space), 0) * Cardinality(param)
  {
    var wider := TryAdd(space, name, param).value;
    assert Dims(wider) == Dims(space) + [Cardinality(param)];
    PointsAppended(Dims(space), Cardinality(param), 0);
  }

  /** The number of points, saturating instead of overflowing. */
  method Size(space: Space) returns (n: nat)
    ensures n == Min(Points(Dims(space), 0), USIZE_MAX)
  {
    var dims := Dims(space);
    n := 1;
    for d := 0 to |dims|
      invariant n == Head(dims, d) && n <= USIZE_MAX
    {
      HeadGrows(dims, d + 1);
      if n * dims[d] > USIZE_MAX {
        return USIZE_MAX;
      }
      n := n * dims[d];
    }
    PointsSplit(dims, |dims|);
  }

  /** The named values of a grid point; a missing index counts as zero. */
  function DecodePoint(space: Space, combo: seq<nat>, geometric: Geometric): (r: seq<(string, ParamValue)>)
    ensures |r| == |space|
    ensures forall d | 0 <= d < |space| :: r[d] == (space[d].name, ValueAt(space[d].param, if d < |combo| then combo[d] else 0, geometric))
  {
    seq(|space|, d requires 0 <= d < |space| => (space[d].name, ValueAt(space[d].param, if d < |combo| then combo[d] else 0, geometric)))
  }
}
