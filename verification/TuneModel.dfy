/** The gate pruner's one-time calibration, and the densities and the split the tree-structured sampler learns from. */
module TuneModel {
  import opened Wrappers
  import opened Linear
  import opened TuneStudy

  function AuxOf(aux: seq<(string, real)>, key: string): Option<real> {
    if aux == [] then None else if aux[0].0 == key then Some(aux[0].1) else AuxOf(aux[1..], key)
  }

  /** What a completed trial contributes to the calibration, if its last report has both metrics. */
  function RowOf(t: Trial): Option<(real, real)> {
    if !t.state.Complete? || t.steps == [] then None else
      var aux := t.steps[|t.steps| - 1].aux;
      var rank, top := AuxOf(aux, "eff_rank"), AuxOf(aux, "top2_cumevr");
      if rank.Some? && top.Some? then Some((rank.value, top.value)) else None
  }

  function RowsOf(history: seq<Trial>): seq<(real, real)> {
    if history == [] then [] else
      RowsOf(history[..|history| - 1]) +
      if RowOf(history[|history| - 1]).Some? then [RowOf(history[|history| - 1]).value] else []
  }

  function Pick(row: (real, real), second: bool): real { if second then row.1 else row.0 }

  function Sum(rows: seq<(real, real)>, second: bool, k: nat): real
    requires k <= |rows|
  {
    if k == 0 then 0.0 else Sum(rows, second, k - 1) + Pick(rows[k - 1], second)
  }

  function SquareSum(rows: seq<(real, real)>, second: bool, m: real, k: nat): real
    requires k <= |rows|
  {
    if k == 0 then 0.0 else
      SquareSum(rows, second, m, k - 1) + Times(Pick(rows[k - 1], second) - m, Pick(rows[k - 1], second) - m)
  }

  lemma {:induction false} SquareSumNonNegative(rows: seq<(real, real)>, second: bool, m: real, k: nat)
    requires k <= |rows|
    ensures SquareSum(rows, second, m, k) >= 0.0
  {
    if k > 0 {
      SquareSumNonNegative(rows, second, m, k - 1);
      TimesSquare(Pick(rows[k - 1], second) - m);
    }
  }

  function Mean(rows: seq<(real, real)>, second: bool): real
    requires rows != []
  {
    Sum(rows, second, |rows|) / |rows| as real
  }

  function Variance(rows: seq<(real, real)>, second: bool): (v: real)
    requires rows != []
    ensures v >= 0.0
  {
    SquareSumNonNegative(rows, second, Mean(rows, second), |rows|);
    SquareSum(rows, second, Mean(rows, second), |rows|) / |rows| as real
  }

  ghost predicate IsSqrt(sqrt: real -> real) {
    forall x | x >= 0.0 :: sqrt(x) >= 0.0 && Times(sqrt(x), sqrt(x)) == x
  }

  /** The two thresholds of the collapse gate; the floor is not a number when it was averaged over nothing. */
  datatype Thresholds = Thresholds(floor: Option<real>, ceiling: real)

  /** One standard deviation out on each side, widened by the relaxation. */
  function ThresholdsOf(rows: seq<(real, real)>, relaxation: real, sqrt: real -> real): Thresholds
    requires relaxation >= 1.0
  {
    if rows == [] then Thresholds(None, 1.0) else
      var top := Times(Mean(rows, true) + sqrt(Variance(rows, true)), relaxation);
      Thresholds(Some((Mean(rows, false) - sqrt(Variance(rows, false))) / relaxation), if top <= 1.0 then top else 1.0)
  }

  /** Whether the collapse gate prunes a report with these two metrics; a comparison with what is not a number is false. */
  predicate Collapsed(t: Thresholds, rank: real, top: real) { (t.floor.Some? && rank < t.floor.value) || top > t.ceiling }

  class GatePruner {
    const warmupTrials: nat
    const relaxation: real
    var calib: seq<(real, real)>
    var thresholds: Option<Thresholds>

    ghost predicate Valid()
      reads this
    {
      relaxation >= 1.0
    }

    constructor (warmupTrials: nat, relaxation: real)
      ensures Valid() && calib == [] && thresholds.None? && this.warmupTrials == warmupTrials && this.relaxation >= relaxation
    {
      this.warmupTrials := warmupTrials;
      this.relaxation := if relaxation >= 1.0 then relaxation else 1.0;
      calib, thresholds := [], None;
    }

    /** Absorb the completed trials; once enough are in, fix the thresholds for good. */
    method Calibrate(history: seq<Trial>, sqrt: real -> real)
      requires Valid() && IsSqrt(sqrt)
      modifies this`calib, this`thresholds
      ensures Valid()
      ensures old(thresholds).Some? ==> thresholds == old(thresholds) && calib == old(calib)
      ensures old(thresholds).None? ==> calib == RowsOf(history)
      ensures old(thresholds).None? ==>
        thresholds == if |RowsOf(history)| < warmupTrials then None else Some(ThresholdsOf(RowsOf(history), relaxation, sqrt))
    {
      if thresholds.Some? {
        return;
      }
      calib := CollectRows(history);
      if |calib| < warmupTrials {
        return;
      }
      if calib == [] {
        thresholds := Some(Thresholds(None, 1.0));
        return;
      }
      var m0 := MeanOf(calib, false);
      var s0 := DeviationOf(calib, false, m0, sqrt);
      var m1 := MeanOf(calib, true);
      var s1 := DeviationOf(calib, true, m1, sqrt);
      var top := Times(m1 + s1, relaxation);
      thresholds := Some(Thresholds(Some((m0 - s0) / relaxation), if top <= 1.0 then top else 1.0));
    }
  }

  method CollectRows(history: seq<Trial>) returns (rows: seq<(real, real)>)
    ensures rows == RowsOf(history)
  {
    rows := [];
    assert history[..0] == [];
    for i := 0 to |history|
      invariant rows == RowsOf(history[..i])
    {
      assert history[..i + 1][..i] == history[..i];
      var row := RowOf(history[i]);
      if row.Some? {
        rows := rows + [row.value];
      }
    }
    assert history[..|history|] == history;
  }

  method MeanOf(rows: seq<(real, real)>, second: bool) returns (m: real)
    requires rows != []
    ensures m == Mean(rows, second)
  {
    var total := 0.0;
    for k := 0 to |rows|
      invariant total == Sum(rows, second, k)
    {
      total := total + Pick(rows[k], second);
    }
    m := total / |rows| as real;
  }

  method DeviationOf(rows: seq<(real, real)>, second: bool, m: real, sqrt: real -> real) returns (s: real)
    requires rows != [] && m == Mean(rows, second)
    ensures s == sqrt(Variance(rows, second))
  {
    var total := 0.0;
    for k := 0 to |rows|
      invariant total == SquareSum(rows, second, m, k)
    {
      total := total + Times(Pick(rows[k], second) - m, Pick(rows[k], second) - m);
    }
    s := sqrt(total / |rows| as real);
  }

  /** The first history with enough rows. */
  function FirstReady(histories: seq<seq<Trial>>, warmup: nat): Option<seq<Trial>> {
    if histories == [] then None else
      var before := FirstReady(histories[..|histories| - 1], warmup);
      var last := histories[|histories| - 1];
      if before.Some? then before else if |RowsOf(last)| >= warmup then Some(last) else None
  }

  /** However often the pruner is asked, the first history with enough rows fixes its thresholds for good. */
  method CalibrateAll(p: GatePruner, histories: seq<seq<Trial>>, sqrt: real -> real)
    requires p.Valid() && IsSqrt(sqrt) && p.thresholds.None?
    modifies p`calib, p`thresholds
    ensures p.Valid()
    ensures var ready := FirstReady(histories, p.warmupTrials);
      p.thresholds == if ready.None? then None else Some(ThresholdsOf(RowsOf(ready.value), p.relaxation, sqrt))
    ensures var ready := FirstReady(histories, p.warmupTrials);
      ready.Some? ==> p.calib == RowsOf(ready.value)
  {
    hide RowsOf, ThresholdsOf;
    assert histories[..0] == [];
    for i := 0 to |histories|
      invariant p.Valid()
      invariant var ready := FirstReady(histories[..i], p.warmupTrials);
        && (p.thresholds == if ready.None? then None else Some(ThresholdsOf(RowsOf(ready.value), p.relaxation, sqrt)))
        && (ready.Some? ==> p.calib == RowsOf(ready.value))
    {
      assert histories[..i + 1][..i] == histories[..i];
      p.Calibrate(histories[i], sqrt);
    }
    assert histories[..|histories|] == histories;
  }

  /**
    A pruner that waits for no trial fixes its thresholds on the first call, over whatever
    rows there are: over none, it never prunes for rank again, nor for a share of at most one.
  */
  lemma NoWarmupNeverCollapses(histories: seq<seq<Trial>>, relaxation: real, sqrt: real -> real, rank: real, top: real)
    requires histories != [] && relaxation >= 1.0 && IsSqrt(sqrt)
    ensures FirstReady(histories, 0) == Some(histories[0])
    ensures RowsOf(histories[0]) == [] && top <= 1.0 ==> !Collapsed(ThresholdsOf(RowsOf(histories[0]), relaxation, sqrt), rank, top)
  {
    FirstIsReady(histories);
  }

  lemma {:induction false} FirstIsReady(histories: seq<seq<Trial>>)
    requires histories != []
    ensures FirstReady(histories, 0) == Some(histories[0])
  {
    if |histories| > 1 {
      FirstIsReady(histories[..|histories| - 1]);
    } else {
      assert histories[..0] == [];
    }
  }

  /**
    A wider relaxation lowers the floor exactly when the floor before relaxing is not
    negative, and raises the ceiling, or leaves it, exactly when the ceiling before
    relaxing is not negative; then it prunes nothing that a narrower one spared.
  */
  lemma RelaxingWidens(rows: seq<(real, real)>, r: real, q: real, sqrt: real -> real)
    requires rows != [] && 1.0 <= r < q && IsSqrt(sqrt)
    ensures var s, t := ThresholdsOf(rows, r, sqrt), ThresholdsOf(rows, q, sqrt);
      && (t.floor.value <= s.floor.value <==> Mean(rows, false) - sqrt(Variance(rows, false)) >= 0.0)
      && (s.ceiling <= t.ceiling <==> Mean(rows, true) + sqrt(Variance(rows, true)) >= 0.0)
      && ((forall rank, top :: Collapsed(t, rank, top) ==> Collapsed(s, rank, top)) <==>
          Mean(rows, false) - sqrt(Variance(rows, false)) >= 0.0 && Mean(rows, true) + sqrt(Variance(rows, true)) >= 0.0)
  {
    var x, y := Mean(rows, false) - sqrt(Variance(rows, false)), Mean(rows, true) + sqrt(Variance(rows, true));
    Divided(x, r, q);
    ScaledOrder(y, r, q);
    var s, t := ThresholdsOf(rows, r, sqrt), ThresholdsOf(rows, q, sqrt);
    hide ThresholdsOf, Mean, Variance, Times;
    if forall rank, top :: Collapsed(t, rank, top) ==> Collapsed(s, rank, top) {
      assert Collapsed(t, s.floor.value, s.ceiling) ==> Collapsed(s, s.floor.value, s.ceiling);
    }
  }

  lemma ScaledOrder(y: real, r: real, q: real)
    requires 1.0 <= r < q
    ensures Times(y, r) <= Times(y, q) <==> y >= 0.0
    ensures y < 0.0 ==> Times(y, r) < 0.0
  {
    if y >= 0.0 {
      TimesNonNegative(y, q - r);
      assert y * (q - r) == y * q - y * r;
    } else {
      TimesPositive(-y, q - r);
      assert -y * (q - r) == y * r - y * q;
      TimesPositive(-y, r);
      assert -y * r == -(y * r);
    }
  }

  /** Five trials of which one has all the rank: the mean is one and the deviation two, so relaxing raises the floor. */
  lemma RelaxingCanTighten(sqrt: real -> real)
    requires IsSqrt(sqrt)
    ensures var rows := [(0.0, 0.5), (0.0, 0.5), (0.0, 0.5), (0.0, 0.5), (5.0, 0.5)];
      ThresholdsOf(rows, 1.0, sqrt).floor == Some(-1.0) && ThresholdsOf(rows, 2.0, sqrt).floor == Some(-0.5)
  {
    var rows := [(0.0, 0.5), (0.0, 0.5), (0.0, 0.5), (0.0, 0.5), (5.0, 0.5)];
    assert Sum(rows, false, 1) == 0.0 && Sum(rows, false, 2) == 0.0 && Sum(rows, false, 3) == 0.0 && Sum(rows, false, 4) == 0.0;
    assert Mean(rows, false) == 1.0;
    assert SquareSum(rows, false, 1.0, 1) == 1.0 && SquareSum(rows, false, 1.0, 2) == 2.0;
    assert SquareSum(rows, false, 1.0, 3) == 3.0 && SquareSum(rows, false, 1.0, 4) == 4.0;
    assert SquareSum(rows, false, 1.0, 5) == 20.0;
    assert Variance(rows, false) == 4.0;
    RootOfFour(sqrt(4.0));
  }

  lemma RootOfFour(x: real)
    requires x >= 0.0 && Times(x, x) == 4.0
    ensures x == 2.0
  {
    assert (x - 2.0) * (x + 2.0) == 0.0;
    if x > 2.0 {
      TimesPositive(x - 2.0, x + 2.0);
    } else if x < 2.0 {
      TimesPositive(2.0 - x, x + 2.0);
    }
  }

  lemma Divided(x: real, r: real, q: real)
    requires 1.0 <= r <= q
    ensures x / q <= x / r <==> r == q || x >= 0.0
  {
    var a, b := x / r, x / q;
    assert a * r == x && b * q == x;
    if x >= 0.0 {
      if a < 0.0 { TimesPositive(-a, r); }
      if b > a {
        TimesPositive(b - a, q);
        TimesNonNegative(a, q - r) by { if a < 0.0 { assert false; } }
        DividedParts(a, b, r, q);
      }
    } else if r < q {
      if b <= a {
        if a >= 0.0 { TimesNonNegative(a, r); }
        TimesNonNegative(a - b, q);
        TimesPositive(-a, q - r);
        DividedParts(a, b, r, q);
      }
    }
  }

  lemma DividedParts(a: real, b: real, r: real, q: real)
    ensures Times(b - a, q) == b * q - a * q && Times(a, q - r) == a * q - a * r && Times(-a, q - r) == a * r - a * q
    ensures Times(a - b, q) == a * q - b * q
  {
  }

  // ---- what the sampler learns

  /** How often each choice of dimension d occurs, above a prior weight. */
  ghost function Count(rows: seq<seq<nat>>, d: nat, k: nat, v: nat): nat
    requires k >= 1
  {
    if rows == [] then 0 else
      Count(rows[..|rows| - 1], d, k, v) + if d < |rows[|rows| - 1]| && Least(rows[|rows| - 1][d], k - 1) == v then 1 else 0
  }

  function Least(a: nat, b: nat): nat { if a <= b then a else b }

  function Total(s: seq<real>, k: nat): real
    requires k <= |s|
  {
    if k == 0 then 0.0 else Total(s, k - 1) + s[k - 1]
  }

  lemma {:induction false} TotalOfQuotients(s: seq<real>, t: seq<real>, q: real, k: nat)
    requires |s| == |t| && k <= |s| && forall i | 0 <= i < |s| :: s[i] == Times(q, t[i])
    ensures Total(s, k) == Times(q, Total(t, k))
  {
    if k == 0 {
    } else {
      TotalOfQuotients(s, t, q, k - 1);
      Linear.Distribute(q, Total(t, k - 1), t[k - 1]);
    }
  }

  /** How many rows have a choice for dimension d. */
  function Hits(rows: seq<seq<nat>>, d: nat): nat {
    if rows == [] then 0 else Hits(rows[..|rows| - 1], d) + if d < |rows[|rows| - 1]| then 1 else 0
  }

  lemma {:induction false} TotalOfSame(s: seq<real>, x: real, k: nat)
    requires k <= |s| && forall i | 0 <= i < k :: s[i] == x
    ensures Total(s, k) == Times(k as real, x)
  {
    if k > 0 {
      TotalOfSame(s, x, k - 1);
      assert k as real * x == (k - 1) as real * x + x;
    } else {
      assert 0 as real * x == 0.0;
    }
  }

  lemma {:induction false} TotalBumped(s: seq<real>, i: nat, k: nat)
    requires i < |s| && k <= |s|
    ensures Total(s[i := s[i] + 1.0], k) == Total(s, k) + if i < k then 1.0 else 0.0
  {
    if k > 0 {
      TotalBumped(s, i, k - 1);
    }
  }

  /** The sum that the counts are divided by. */
  function Divisor(rows: seq<seq<nat>>, d: nat, k: nat, prior: real): real { Times(k as real, prior) + Hits(rows, d) as real }

  /**
    The smoothed density of one dimension: a probability for each of the k choices, in
    proportion to the prior weight and the count.  There is none exactly when the divisor
    is zero: with no prior weight, when no row has a choice for the dimension.
  */
  method Density(rows: seq<seq<nat>>, d: nat, k: nat, prior: real) returns (p: Option<seq<real>>)
    requires k >= 1
    ensures p.None? <==> Divisor(rows, d, k, prior) == 0.0
    ensures p.Some? ==> |p.value| == k && Total(p.value, k) == 1.0
    ensures p.Some? ==> forall v | 0 <= v < k :: Times(Divisor(rows, d, k, prior), p.value[v]) == prior + Count(rows, d, k, v) as real
    ensures prior > 0.0 ==> p.Some? && forall v | 0 <= v < k :: p.value[v] > 0.0
    ensures prior == 0.0 ==> (p.None? <==> Hits(rows, d) == 0)
    ensures prior == 0.0 && p.Some? ==> forall v | 0 <= v < k :: p.value[v] >= 0.0 && (p.value[v] == 0.0 <==> Count(rows, d, k, v) == 0)
  {
    var counts: seq<real> := seq(k, _ => prior);
    TotalOfSame(counts, prior, k);
    assert rows[..0] == [];
    for r := 0 to |rows|
      invariant |counts| == k && forall v | 0 <= v < k :: counts[v] == prior + Count(rows[..r], d, k, v) as real
      invariant Total(counts, k) == Divisor(rows[..r], d, k, prior)
    {
      assert rows[..r + 1][..r] == rows[..r];
      if d < |rows[r]| {
        var i := Least(rows[r][d], k - 1);
        TotalBumped(counts, i, k);
        counts := counts[i := counts[i] + 1.0];
      }
    }
    assert rows[..|rows|] == rows;
    var total := 0.0;
    for v := 0 to k
      invariant total == Total(counts, v)
    {
      total := total + counts[v];
    }
    PriorTimes(k, prior);
    if total == 0.0 {
      return None;
    }
    var q := Normalised(counts, total);
    return Some(q);
  }

  lemma PriorTimes(k: nat, prior: real)
    requires k >= 1
    ensures prior > 0.0 ==> Times(k as real, prior) > 0.0
    ensures prior == 0.0 ==> Times(k as real, prior) == 0.0
  {
    if prior > 0.0 {
      TimesPositive(k as real, prior);
    }
  }

  method Normalised(counts: seq<real>, total: real) returns (p: seq<real>)
    requires total != 0.0 && total == Total(counts, |counts|)
    ensures |p| == |counts| && Total(p, |counts|) == 1.0
    ensures forall v | 0 <= v < |counts| :: Times(total, p[v]) == counts[v]
    ensures total > 0.0 ==> forall v | 0 <= v < |counts| :: (p[v] > 0.0 <==> counts[v] > 0.0) && (p[v] == 0.0 <==> counts[v] == 0.0)
  {
    p := seq(|counts|, v requires 0 <= v < |counts| => counts[v] / total);
    forall v | 0 <= v < |counts|
      ensures Times(total, p[v]) == counts[v] && p[v] == Times(1.0 / total, counts[v])
      ensures total > 0.0 ==> (p[v] > 0.0 <==> counts[v] > 0.0) && (p[v] == 0.0 <==> counts[v] == 0.0)
    {
      QuotientIs(counts[v], total);
    }
    TotalOfQuotients(p, counts, 1.0 / total, |counts|);
    assert Times(1.0 / total, total) == 1.0;
  }

  lemma QuotientIs(c: real, t: real)
    requires t != 0.0
    ensures Times(t, c / t) == c && c / t == Times(1.0 / t, c)
    ensures t > 0.0 ==> (c / t > 0.0 <==> c > 0.0) && (c / t == 0.0 <==> c == 0.0)
  {
    var q := c / t;
    assert q * t == c;
    if t > 0.0 && q > 0.0 { TimesPositive(q, t); }
    if t > 0.0 && q < 0.0 { TimesPositive(-q, t); }
  }

  // ---- the good and the bad

  /** Which of two observations the sampler ranks first: the better one, and of two equally good ones the earlier. */
  predicate First(scores: seq<real>, d: Direction, a: nat, b: nat)
    requires a < |scores| && b < |scores|
  {
    d.Better(scores[a], scores[b]) || (scores[a] == scores[b] && a < b)
  }

  ghost predicate Ranked(order: seq<nat>, scores: seq<real>, d: Direction) {
    && (forall i | 0 <= i < |order| :: order[i] < |scores|)
    && forall i, j | 0 <= i < j < |order| :: First(scores, d, order[i], order[j])
  }

  /** Every index once. */
  ghost predicate Permutation(order: seq<nat>, n: nat) {
    && |order| == n && (forall i | 0 <= i < n :: order[i] < n)
    && (forall i, j | 0 <= i < j < n :: order[i] != order[j])
  }

  /** Where the next index goes: behind everything that is no worse than it. */
  method Place(order: seq<nat>, scores: seq<real>, d: Direction, x: nat) returns (at: nat)
    requires Ranked(order, scores, d) && x < |scores| && forall i | 0 <= i < |order| :: order[i] < x
    ensures at <= |order|
    ensures forall i | 0 <= i < at :: First(scores, d, order[i], x)
    ensures forall i | at <= i < |order| :: First(scores, d, x, order[i])
  {
    at := 0;
    while at < |order| && d.AtLeastAsGood(scores[order[at]], scores[x])
      invariant at <= |order| && forall i | 0 <= i < at :: First(scores, d, order[i], x)
    {
      at := at + 1;
    }
    if at < |order| {
      forall i | at <= i < |order| ensures First(scores, d, x, order[i]) {
        assert i == at || First(scores, d, order[at], order[i]);
      }
    }
  }

  /** How many observations count as good: a fraction of them, but at least one and never all. */
  function GoodCount(n: nat, gamma: real): (k: nat)
    requires n >= 2
    ensures 1 <= k <= n - 1
  {
    var x := n as real * gamma;
    var up := if x.Floor as real == x then x.Floor else x.Floor + 1;
    var wanted := if up <= 1 then 1 else up;
    Least(wanted, n - 1)
  }

  /** Split the observations: both sides are inhabited, together they are everything, and every good one ranks before every bad one. */
  method Split(scores: seq<real>, d: Direction, gamma: real) returns (good: seq<nat>, bad: seq<nat>)
    requires |scores| >= 2
    ensures Permutation(good + bad, |scores|) && |good| == GoodCount(|scores|, gamma) && good != [] && bad != []
    ensures Ranked(good + bad, scores, d)
  {
    var order: seq<nat> := [];
    for x := 0 to |scores|
      invariant Ranked(order, scores, d) && |order| == x
      invariant forall i | 0 <= i < |order| :: order[i] < x
      invariant forall i, j | 0 <= i < j < |order| :: order[i] != order[j]
    {
      var at := Place(order, scores, d, x);
      order := Inserted(order, scores, d, x, at);
    }
    var k := GoodCount(|scores|, gamma);
    good, bad := order[..k], order[k..];
    assert good + bad == order;
  }

  /** Putting an index where it belongs. */
  function Inserted(order: seq<nat>, scores: seq<real>, d: Direction, x: nat, at: nat): (r: seq<nat>)
    requires Ranked(order, scores, d) && x < |scores| && at <= |order| && forall i | 0 <= i < |order| :: order[i] < x
    requires forall i | 0 <= i < at :: First(scores, d, order[i], x)
    requires forall i | at <= i < |order| :: First(scores, d, x, order[i])
    ensures Ranked(r, scores, d) && |r| == |order| + 1 && forall i | 0 <= i < |r| :: r[i] == if i < at then order[i] else if i == at then x else order[i - 1]
  {
    order[..at] + [x] + order[at..]
  }

  /** The ranking leaves no choice: two rankings of all the observations are the same. */
  lemma {:induction false} RankingIsUnique(s: seq<nat>, t: seq<nat>, scores: seq<real>, d: Direction)
    requires Ranked(s, scores, d) && Ranked(t, scores, d) && (forall x :: x in s <==> x in t)
    ensures s == t
  {
    assert s != [] ==> s[0] in t;
    assert t != [] ==> t[0] in s;
    if s != [] {
      FirstOfRanking(s, scores, d, t[0]);
      FirstOfRanking(t, scores, d, s[0]);
      assert s[0] == t[0];
      RestOfRanking(s, scores, d);
      RestOfRanking(t, scores, d);
      forall x ensures x in s[1..] <==> x in t[1..] {
      }
      RankingIsUnique(s[1..], t[1..], scores, d);
    }
  }

  lemma FirstOfRanking(s: seq<nat>, scores: seq<real>, d: Direction, x: nat)
    requires Ranked(s, scores, d) && x in s
    ensures s[0] == x || First(scores, d, s[0], x)
  {
    var i :| 0 <= i < |s| && s[i] == x;
    if i > 0 { assert First(scores, d, s[0], s[i]); }
  }

  lemma RestOfRanking(s: seq<nat>, scores: seq<real>, d: Direction)
    requires Ranked(s, scores, d) && s != []
    ensures Ranked(s[1..], scores, d)
    ensures forall x :: x in s[1..] <==> x in s && x != s[0]
  {
    assert s == [s[0]] + s[1..];
    forall i | 1 <= i < |s| ensures s[i] != s[0] { assert First(scores, d, s[0], s[i]); }
  }
}
