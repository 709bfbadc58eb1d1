/** The median and successive-halving pruners: who is pruned, how many survive, and what a change of sign changes. */
module TunePruner {
  import opened Wrappers
  import opened Linear
  import opened TuneSpace
  import opened TuneStudy

  // ---- sorting and the median

  ghost predicate Ascending(s: seq<real>) { forall i, j | 0 <= i < j < |s| :: s[i] <= s[j] }

  function Insert(x: real, s: seq<real>): (r: seq<real>)
    ensures |r| == |s| + 1 && multiset(r) == multiset(s) + multiset{x}
  {
    if s == [] || x <= s[0] then [x] + s else
      assert s == [s[0]] + s[1..];
      [s[0]] + Insert(x, s[1..])
  }

  lemma {:induction false} InsertAscending(x: real, s: seq<real>)
    requires Ascending(s)
    ensures Ascending(Insert(x, s))
  {
    if s == [] || x <= s[0] {
    } else {
      InsertAscending(x, s[1..]);
      var rest := Insert(x, s[1..]);
      forall j | 0 <= j < |rest| ensures s[0] <= rest[j] {
        assert rest[j] in multiset(rest);
        assert rest[j] == x || rest[j] in s[1..];
      }
    }
  }

  function Sorted(s: seq<real>): (r: seq<real>)
    ensures |r| == |s| && multiset(r) == multiset(s)
  {
    if s == [] then [] else
      assert s == s[..|s| - 1] + [s[|s| - 1]];
      Insert(s[|s| - 1], Sorted(s[..|s| - 1]))
  }

  lemma {:induction false} SortedAscending(s: seq<real>)
    ensures Ascending(Sorted(s))
  {
    if s == [] {
    } else {
      SortedAscending(s[..|s| - 1]);
      InsertAscending(s[|s| - 1], Sorted(s[..|s| - 1]));
    }
  }

  /** A list without its entry i. */
  function Without(t: seq<real>, i: nat): (r: seq<real>)
    requires i < |t|
    ensures |r| == |t| - 1
  {
    t[..i] + t[i + 1..]
  }

  lemma WithoutMultiset(t: seq<real>, i: nat)
    requires i < |t|
    ensures multiset(Without(t, i)) == multiset(t) - multiset{t[i]}
  {
    assert t == t[..i] + [t[i]] + t[i + 1..];
  }

  /** The same value somewhere in a list with the same values, and the rest of both lists. */
  lemma Matching(s: seq<real>, t: seq<real>) returns (i: nat)
    requires s != [] && multiset(s) == multiset(t)
    ensures i < |t| && t[i] == s[|s| - 1] && multiset(s[..|s| - 1]) == multiset(Without(t, i))
  {
    var x := s[|s| - 1];
    assert s == s[..|s| - 1] + [x];
    assert x in multiset(t);
    i :| 0 <= i < |t| && t[i] == x;
    WithoutMultiset(t, i);
    assert multiset(s[..|s| - 1]) == multiset(s) - multiset{x};
  }

  lemma EmptyLists(t: seq<real>)
    requires multiset(t) == multiset{}
    ensures t == []
  {
    assert |multiset(t)| == |t|;
  }

  function Median(xs: seq<real>): Option<real> {
    if xs == [] then None else
      var s, n := Sorted(xs), |xs|;
      Some(if n % 2 == 1 then s[n / 2] else (s[n / 2 - 1] + s[n / 2]) / 2.0)
  }

  /** How many values a predicate holds of. */
  function CountIf(s: seq<real>, p: real -> bool): (r: nat)
    ensures r <= |s|
  {
    if s == [] then 0 else CountIf(s[..|s| - 1], p) + if p(s[|s| - 1]) then 1 else 0
  }

  lemma {:induction false} CountOfMultiset(s: seq<real>, t: seq<real>, p: real -> bool)
    requires multiset(s) == multiset(t)
    ensures CountIf(s, p) == CountIf(t, p)
  {
    if s == [] {
      EmptyLists(t);
    } else {
      var i := Matching(s, t);
      CountOfMultiset(s[..|s| - 1], Without(t, i), p);
      CountWithout(t, i, p);
    }
  }

  lemma CountWithout(t: seq<real>, i: nat, p: real -> bool)
    requires i < |t|
    ensures CountIf(t, p) == CountIf(Without(t, i), p) + if p(t[i]) then 1 else 0
  {
    var a, x, b := t[..i], t[i], t[i + 1..];
    assert t == a + ([x] + b);
    hide CountIf;
    CountConcat(a, [x] + b, p);
    CountConcat([x], b, p);
    CountConcat(a, b, p);
    CountOne(x, p);
  }

  lemma CountOne(x: real, p: real -> bool)
    ensures CountIf([x], p) == if p(x) then 1 else 0
  {
    assert CountIf([x], p) == CountIf([], p) + if p(x) then 1 else 0;
  }

  lemma {:induction false} CountConcat(a: seq<real>, b: seq<real>, p: real -> bool)
    ensures CountIf(a + b, p) == CountIf(a, p) + CountIf(b, p)
  {
    if b == [] {
      assert a + b == a;
    } else {
      assert (a + b)[..|a + b| - 1] == a + b[..|b| - 1];
      CountConcat(a, b[..|b| - 1], p);
    }
  }

  lemma {:induction false} CountAll(s: seq<real>, p: real -> bool, v: bool)
    requires forall i | 0 <= i < |s| :: p(s[i]) == v
    ensures CountIf(s, p) == if v then |s| else 0
  {
    if s == [] {
    } else {
      CountAll(s[..|s| - 1], p, v);
    }
  }

  /** The values strictly better than x. */
  ghost function BetterThan(d: Direction, x: real): real -> bool { y => d.Better(y, x) }

  /** What the pruner compares with: the value of each peer at one step. */
  function FirstAt(steps: seq<StepReport>, step: nat): Option<real> {
    if steps == [] then None else if steps[0].step == step then Some(steps[0].value) else FirstAt(steps[1..], step)
  }

  function PeerValues(history: seq<Trial>, id: nat, step: nat, completedOnly: bool): seq<real> {
    if history == [] then [] else
      var front, t := history[..|history| - 1], history[|history| - 1];
      var before := PeerValues(front, id, step, completedOnly);
      if t.id == id || (completedOnly && !t.state.Complete?) || FirstAt(t.steps, step).None? then before
      else before + [FirstAt(t.steps, step).value]
  }

  function CompletedPeers(history: seq<Trial>, id: nat): nat {
    if history == [] then 0 else
      CompletedPeers(history[..|history| - 1], id) +
      if history[|history| - 1].state.Complete? && history[|history| - 1].id != id then 1 else 0
  }

  /** The median pruner's verdict. */
  function MedianVerdict(trial: Trial, history: seq<Trial>, d: Direction, warmupTrials: nat, warmupSteps: nat): bool {
    if trial.steps == [] || |trial.steps| <= warmupSteps || CompletedPeers(history, trial.id) < warmupTrials then false else
      var last := trial.steps[|trial.steps| - 1];
      var med := Median(PeerValues(history, trial.id, last.step, true));
      med.Some? && !d.AtLeastAsGood(last.value, med.value)
  }

  /** Half of an ascending list lies on each side of the value. */
  ghost predicate Splits(s: seq<real>, med: real) {
    && (forall i | |s| / 2 <= i < |s| :: s[i] >= med)
    && (forall i | 0 <= i < |s| - |s| / 2 :: s[i] <= med)
  }

  lemma MedianOf(xs: seq<real>, s: seq<real>)
    requires xs != [] && s == Sorted(xs)
    ensures Median(xs).Some? && Splits(s, Median(xs).value)
  {
    SortedAscending(xs);
    hide Sorted;
    assert |xs| - |xs| / 2 == if |xs| % 2 == 1 then |xs| / 2 + 1 else |xs| / 2;
  }

  /** A value is worse than the median only if at least half of the values beat it, and certainly if more than half do. */
  lemma MedianHalves(xs: seq<real>, d: Direction, x: real)
    requires xs != []
    ensures var better := CountIf(xs, BetterThan(d, x));
      && (!d.AtLeastAsGood(x, Median(xs).value) ==> 2 * better >= |xs|)
      && (2 * better > |xs| ==> !d.AtLeastAsGood(x, Median(xs).value))
  {
    hide CountIf, BetterThan, Median, Sorted;
    var s, n := Sorted(xs), |xs|;
    MedianOf(xs, s);
    var med := Median(xs).value;
    CountOfMultiset(s, xs, BetterThan(d, x));
    if d.Maximize? {
      if x < med {
        CountBeaten(s, n / 2, n, d, x, true);
      } else {
        CountBeaten(s, 0, n - n / 2, d, x, false);
      }
    } else {
      if x > med {
        CountBeaten(s, 0, n - n / 2, d, x, true);
      } else {
        CountBeaten(s, n / 2, n, d, x, false);
      }
    }
  }

  lemma CountBeaten(s: seq<real>, lo: nat, hi: nat, d: Direction, x: real, v: bool)
    requires lo <= hi <= |s| && forall i | lo <= i < hi :: d.Better(s[i], x) == v
    ensures v ==> CountIf(s, BetterThan(d, x)) >= hi - lo
    ensures !v ==> CountIf(s, BetterThan(d, x)) <= |s| - (hi - lo)
  {
    hide CountIf;
    var p := BetterThan(d, x);
    forall i | lo <= i < hi ensures p(s[i]) == v {
      assert p(s[i]) == d.Better(s[i], x);
    }
    CountRange(s, lo, hi, p, v);
  }

  /** A range decided one way bounds the count. */
  lemma CountRange(s: seq<real>, lo: nat, hi: nat, p: real -> bool, v: bool)
    requires lo <= hi <= |s| && forall i | lo <= i < hi :: p(s[i]) == v
    ensures v ==> CountIf(s, p) >= hi - lo
    ensures !v ==> CountIf(s, p) <= |s| - (hi - lo)
  {
    var a, b, c := s[..lo], s[lo..hi], s[hi..];
    assert s == a + (b + c);
    CountConcat(a, b + c, p);
    CountConcat(b, c, p);
    forall i | 0 <= i < |b| ensures p(b[i]) == v { assert b[i] == s[lo + i]; }
    CountAll(b, p, v);
  }

  /** The median pruner prunes only when at least half of the completed peers at the step are strictly better. */
  lemma MedianPrunesBeaten(trial: Trial, history: seq<Trial>, d: Direction, warmupTrials: nat, warmupSteps: nat)
    requires MedianVerdict(trial, history, d, warmupTrials, warmupSteps)
    ensures trial.steps != []
    ensures var last := trial.steps[|trial.steps| - 1];
      var peers := PeerValues(history, trial.id, last.step, true);
      peers != [] && 2 * CountIf(peers, BetterThan(d, last.value)) >= |peers|
  {
    var last := trial.steps[|trial.steps| - 1];
    MedianHalves(PeerValues(history, trial.id, last.step, true), d, last.value);
  }

  // ---- the verdicts under a change of sign

  function NegatedSteps(steps: seq<StepReport>): (r: seq<StepReport>)
    ensures |r| == |steps| && forall i | 0 <= i < |r| :: r[i] == steps[i].(value := -steps[i].value)
  {
    seq(|steps|, i requires 0 <= i < |steps| => steps[i].(value := -steps[i].value))
  }

  function NegatedState(s: TrialState): TrialState { if s.Complete? then TrialState.Complete(-s.score) else s }

  function NegatedTrial(t: Trial): Trial { t.(steps := NegatedSteps(t.steps), state := NegatedState(t.state)) }

  function NegatedTrials(ts: seq<Trial>): (r: seq<Trial>)
    ensures |r| == |ts| && forall i | 0 <= i < |r| :: r[i] == NegatedTrial(ts[i])
  {
    seq(|ts|, i requires 0 <= i < |ts| => NegatedTrial(ts[i]))
  }

  function Negated(s: seq<real>): (r: seq<real>)
    ensures |r| == |s| && forall i | 0 <= i < |r| :: r[i] == -s[i]
  {
    seq(|s|, i requires 0 <= i < |s| => -s[i])
  }

  lemma {:induction false} FirstAtNegated(steps: seq<StepReport>, step: nat)
    ensures FirstAt(NegatedSteps(steps), step) == if FirstAt(steps, step).Some? then Some(-FirstAt(steps, step).value) else None
  {
    if steps == [] {
    } else {
      FirstAtNegated(steps[1..], step);
      assert NegatedSteps(steps)[1..] == NegatedSteps(steps[1..]);
    }
  }

  lemma NegatedAppend(s: seq<real>, x: real)
    ensures Negated(s + [x]) == Negated(s) + [-x]
  {
  }

  lemma {:induction false} PeersNegated(history: seq<Trial>, id: nat, step: nat, completedOnly: bool)
    ensures PeerValues(NegatedTrials(history), id, step, completedOnly) == Negated(PeerValues(history, id, step, completedOnly))
    ensures CompletedPeers(NegatedTrials(history), id) == CompletedPeers(history, id)
  {
    if history == [] {
    } else {
      hide FirstAt, NegatedSteps, Negated, NegatedTrials;
      var front, t := history[..|history| - 1], history[|history| - 1];
      PeersNegated(front, id, step, completedOnly);
      FirstAtNegated(t.steps, step);
      assert NegatedTrials(history)[..|history| - 1] == NegatedTrials(front);
      if FirstAt(t.steps, step).Some? {
        NegatedAppend(PeerValues(front, id, step, completedOnly), FirstAt(t.steps, step).value);
      }
    }
  }

  lemma {:induction false} CountNegated(s: seq<real>, p: real -> bool, q: real -> bool)
    requires forall x :: q(-x) == p(x)
    ensures CountIf(Negated(s), q) == CountIf(s, p)
  {
    if s == [] {
    } else {
      CountNegated(s[..|s| - 1], p, q);
      assert Negated(s)[..|s| - 1] == Negated(s[..|s| - 1]);
    }
  }

  /** Two ascending lists of the same values are the same list. */
  lemma {:induction false} AscendingUnique(s: seq<real>, t: seq<real>)
    requires Ascending(s) && Ascending(t) && multiset(s) == multiset(t)
    ensures s == t
  {
    if s == [] {
      EmptyLists(t);
    } else if t == [] {
      EmptyLists(s);
    } else {
      LastsAgree(s, t);
      LastsAgree(t, s);
      FrontsAgree(s, t);
      AscendingUnique(s[..|s| - 1], t[..|t| - 1]);
      assert s == s[..|s| - 1] + [s[|s| - 1]] && t == t[..|t| - 1] + [t[|t| - 1]];
    }
  }

  lemma LastsAgree(s: seq<real>, t: seq<real>)
    requires s != [] && t != [] && Ascending(t) && multiset(s) == multiset(t)
    ensures s[|s| - 1] <= t[|t| - 1]
  {
    var i := Matching(s, t);
  }

  lemma FrontsAgree(s: seq<real>, t: seq<real>)
    requires s != [] && t != [] && multiset(s) == multiset(t) && s[|s| - 1] == t[|t| - 1]
    ensures multiset(s[..|s| - 1]) == multiset(t[..|t| - 1])
  {
    WithoutMultiset(t, |t| - 1);
    WithoutMultiset(s, |s| - 1);
    assert Without(t, |t| - 1) == t[..|t| - 1] && Without(s, |s| - 1) == s[..|s| - 1];
  }

  function Reversed(s: seq<real>): (r: seq<real>)
    ensures |r| == |s| && forall i | 0 <= i < |s| :: r[i] == s[|s| - 1 - i]
  {
    seq(|s|, i requires 0 <= i < |s| => s[|s| - 1 - i])
  }

  lemma {:induction false} ReversedMultiset(s: seq<real>)
    ensures multiset(Reversed(s)) == multiset(s)
  {
    if s == [] {
    } else {
      var x := s[|s| - 1];
      ReversedMultiset(s[..|s| - 1]);
      assert Reversed(s) == [x] + Reversed(s[..|s| - 1]);
      assert s == s[..|s| - 1] + [x];
    }
  }

  lemma {:induction false} NegatedMultiset(s: seq<real>, t: seq<real>)
    requires multiset(s) == multiset(t)
    ensures multiset(Negated(s)) == multiset(Negated(t))
  {
    if s == [] {
      EmptyLists(t);
    } else {
      var i := Matching(s, t);
      NegatedMultiset(s[..|s| - 1], Without(t, i));
      NegatedWithout(t, i);
      NegatedWithout(s, |s| - 1);
      assert Without(s, |s| - 1) == s[..|s| - 1];
    }
  }

  lemma NegatedWithout(t: seq<real>, i: nat)
    requires i < |t|
    ensures multiset(Negated(t)) == multiset(Negated(Without(t, i))) + multiset{-t[i]}
  {
    var r := Negated(t);
    assert Without(r, i) == Negated(Without(t, i));
    WithoutMultiset(r, i);
    assert r[i] in multiset(r);
  }

  /** The median of the negated values is the negated median. */
  lemma MedianNegated(xs: seq<real>)
    requires xs != []
    ensures Median(Negated(xs)).value == -Median(xs).value
  {
    var s, n := Sorted(xs), |xs|;
    SortedNegated(xs);
    var r := Sorted(Negated(xs));
    hide Sorted;
    assert r[n / 2] == -s[n - 1 - n / 2];
    if n % 2 == 1 {
      assert n - 1 - n / 2 == n / 2;
    } else {
      assert n - 1 - n / 2 == n / 2 - 1 && n - 1 - (n / 2 - 1) == n / 2;
      assert r[n / 2 - 1] == -s[n / 2];
    }
  }

  lemma SortedNegated(xs: seq<real>)
    ensures Sorted(Negated(xs)) == Reversed(Negated(Sorted(xs)))
  {
    hide Sorted;
    var s := Sorted(xs);
    SortedAscending(xs);
    SortedAscending(Negated(xs));
    ReversedMultiset(Negated(s));
    NegatedMultiset(s, xs);
    assert Ascending(Reversed(Negated(s)));
    AscendingUnique(Sorted(Negated(xs)), Reversed(Negated(s)));
  }

  /** Negating every value and turning the direction round changes no verdict of the median pruner. */
  lemma MedianMirrored(trial: Trial, history: seq<Trial>, d: Direction, warmupTrials: nat, warmupSteps: nat)
    ensures MedianVerdict(NegatedTrial(trial), NegatedTrials(history), d.Opposite(), warmupTrials, warmupSteps) ==
      MedianVerdict(trial, history, d, warmupTrials, warmupSteps)
  {
    hide Median, PeerValues, CompletedPeers;
    if trial.steps == [] {
      assert NegatedSteps(trial.steps) == [];
      EmptyPeers(history, trial.id);
    } else {
      var last := trial.steps[|trial.steps| - 1];
      PeersNegated(history, trial.id, last.step, true);
      var peers := PeerValues(history, trial.id, last.step, true);
      EmptyMedian(peers);
      EmptyMedian(Negated(peers));
      if peers != [] {
        MedianNegated(peers);
      }
    }
  }

  lemma EmptyMedian(xs: seq<real>)
    ensures Median(xs).None? <==> xs == []
  {
  }

  lemma EmptyPeers(history: seq<Trial>, id: nat)
    ensures CompletedPeers(NegatedTrials(history), id) == CompletedPeers(history, id)
  {
    PeersNegated(history, id, 0, false);
  }

  // ---- successive halving

  function Ceil(x: real): int {
    if x.Floor as real == x then x.Floor else x.Floor + 1
  }

  /** How many of n trials a rung keeps: the best 1/eta of them, and at least one. */
  function KeepOf(n: nat, eta: real): (k: nat)
    requires eta > 0.0
    ensures k >= 1
  {
    Max(Ceil(n as real / eta), 1)
  }

  /** The successive-halving verdict. */
  function HalvingVerdict(trial: Trial, history: seq<Trial>, d: Direction, rungs: seq<nat>, eta: real, minAtRung: nat): bool
    requires eta > 0.0
  {
    if trial.steps == [] || trial.steps[|trial.steps| - 1].step !in rungs then false else
      var last := trial.steps[|trial.steps| - 1];
      var peers := PeerValues(history, trial.id, last.step, false);
      |peers| + 1 >= minAtRung && CountIf(peers, NotBehind(d, last.value)) >= KeepOf(|peers| + 1, eta)
  }

  lemma KeepIsWithin(n: nat, eta: real)
    requires eta >= 1.0 && n >= 1
    ensures KeepOf(n, eta) == Ceil(n as real / eta) && KeepOf(n, eta) <= n
    ensures Times(KeepOf(n, eta) as real, eta) >= n as real && Times((KeepOf(n, eta) - 1) as real, eta) < n as real
  {
    var q := n as real / eta;
    assert q * eta == n as real;
    QuotientSmaller(n as real, eta, q);
    var c := Ceil(q);
    assert q <= c as real < q + 1.0;
    assert c >= 1 && KeepOf(n, eta) == c;
    assert (c - 1) as real < q;
    ScaleUp(q, c as real, eta);
    ScaleUp((c - 1) as real, q, eta);
  }

  lemma QuotientSmaller(n: real, eta: real, q: real)
    requires eta >= 1.0 && q * eta == n && n > 0.0
    ensures 0.0 < q <= n
  {
    if q <= 0.0 {
      ScaleUp(q, 0.0, eta);
      assert false;
    }
    ScaleUp(1.0, eta, q);
  }

  lemma ScaleUp(x: real, y: real, eta: real)
    requires eta > 0.0
    ensures x <= y ==> Times(x, eta) <= Times(y, eta)
    ensures x < y ==> Times(x, eta) < Times(y, eta)
  {
    assert (y - x) * eta == y * eta - x * eta;
  }

  // one value per trial at a rung, all different

  ghost predicate AllDifferent(v: seq<real>) { forall i, j | 0 <= i < j < |v| :: v[i] != v[j] }

  /** The trials whose value beats that of trial i. */
  ghost function Ahead(v: seq<real>, d: Direction, i: nat): set<nat>
    requires i < |v|
  {
    set j: nat | j < |v| && d.Better(v[j], v[i])
  }

  ghost function Rank(v: seq<real>, d: Direction, i: nat): nat
    requires i < |v|
  {
    |Ahead(v, d, i)|
  }

  ghost function Positions(n: nat): (r: set<nat>)
    ensures |r| == n && forall k: nat :: k in r <==> k < n
  {
    if n == 0 then {} else Positions(n - 1) + {n - 1}
  }

  lemma SubsetSize(a: set<nat>, b: set<nat>)
    requires a <= b
    ensures |a| <= |b| && (a != b ==> |a| < |b|)
  {
    assert b == a + (b - a);
    assert |b| == |a| + |b - a|;
  }

  /** The trials whose value is at least as good as that of trial i, itself among them. */
  ghost function NotWorse(v: seq<real>, d: Direction, i: nat): set<nat>
    requires i < |v|
  {
    set j: nat | j < |v| && d.AtLeastAsGood(v[j], v[i])
  }

  /** The trials with fewer than k others ahead of them. */
  ghost function Survivors(v: seq<real>, d: Direction, k: nat): set<nat> {
    set i: nat | i < |v| && Rank(v, d, i) < k
  }

  /** The k-th and the next value in the ranking differ: nobody among the first k is level with someone past them. */
  ghost predicate ClearCut(v: seq<real>, d: Direction, k: nat) {
    forall i | 0 <= i < |v| && Rank(v, d, i) < k :: |NotWorse(v, d, i)| <= k
  }

  lemma RankOrder(v: seq<real>, d: Direction, i: nat, j: nat)
    requires i < |v| && j < |v| && d.AtLeastAsGood(v[i], v[j])
    ensures Rank(v, d, i) <= Rank(v, d, j)
  {
    assert Ahead(v, d, i) <= Ahead(v, d, j);
    SubsetSize(Ahead(v, d, i), Ahead(v, d, j));
  }

  /** The worst of some trials, or the best. */
  lemma {:induction false} Extreme(v: seq<real>, d: Direction, s: set<nat>, best: bool) returns (w: nat)
    requires s != {} && forall i | i in s :: i < |v|
    ensures w in s && forall i | i in s :: if best then d.AtLeastAsGood(v[w], v[i]) else d.AtLeastAsGood(v[i], v[w])
  {
    w :| w in s;
    if s - {w} != {} {
      var u := Extreme(v, d, s - {w}, best);
      if if best then d.Better(v[u], v[w]) else d.Better(v[w], v[u]) {
        w := u;
      }
    }
  }

  lemma EnoughSurvive(v: seq<real>, d: Direction, k: nat)
    requires k <= |v|
    ensures |Survivors(v, d, k)| >= k
  {
    hide Direction.AtLeastAsGood;
    var yes, all := Survivors(v, d, k), Positions(|v|);
    if all - yes != {} {
      var u := Extreme(v, d, all - yes, true);
      forall j | j in Ahead(v, d, u) ensures j in yes {
        assert j in all;
      }
      SubsetSize(Ahead(v, d, u), yes);
    } else {
      assert yes == all;
    }
  }

  lemma LevelSurvive(v: seq<real>, d: Direction, k: nat, i: nat)
    requires i in Survivors(v, d, k)
    ensures NotWorse(v, d, i) <= Survivors(v, d, k) && |NotWorse(v, d, i)| <= |Survivors(v, d, k)|
  {
    hide Rank;
    forall j | j in NotWorse(v, d, i) ensures j in Survivors(v, d, k) { RankOrder(v, d, j, i); }
    SubsetSize(NotWorse(v, d, i), Survivors(v, d, k));
  }

  lemma WorstSurvivor(v: seq<real>, d: Direction, k: nat) returns (w: nat)
    requires Survivors(v, d, k) != {}
    ensures w in Survivors(v, d, k) && NotWorse(v, d, w) == Survivors(v, d, k)
  {
    hide Rank;
    w := Extreme(v, d, Survivors(v, d, k), false);
    LevelSurvive(v, d, k, w);
  }

  /** At least k survive, and exactly k do when and only when the cut is clear. */
  lemma SurvivorCount(v: seq<real>, d: Direction, k: nat)
    requires k <= |v|
    ensures |Survivors(v, d, k)| >= k
    ensures |Survivors(v, d, k)| == k <==> ClearCut(v, d, k)
  {
    hide Rank, NotWorse, Direction.AtLeastAsGood;
    EnoughSurvive(v, d, k);
    forall i | i in Survivors(v, d, k) ensures |NotWorse(v, d, i)| <= |Survivors(v, d, k)| {
      LevelSurvive(v, d, k, i);
    }
    if Survivors(v, d, k) != {} {
      var w := WorstSurvivor(v, d, k);
    }
  }

  /** Different values leave every cut clear. */
  lemma DifferentIsClear(v: seq<real>, d: Direction, k: nat)
    requires AllDifferent(v)
    ensures ClearCut(v, d, k)
  {
    forall i | 0 <= i < |v| && Rank(v, d, i) < k ensures |NotWorse(v, d, i)| <= k {
      forall j | j in NotWorse(v, d, i) ensures j in Ahead(v, d, i) + {i} {
        if j < i { assert v[j] != v[i]; } else if i < j { assert v[i] != v[j]; }
      }
      assert NotWorse(v, d, i) == Ahead(v, d, i) + {i};
    }
  }

  /** The trials of a rung: each reported once at the step, and it was its last report. */
  ghost predicate AtRung(ts: seq<Trial>, v: seq<real>, step: nat) {
    && |ts| == |v|
    && (forall i | 0 <= i < |ts| :: ts[i].id == i)
    && (forall i | 0 <= i < |ts| :: ReachedOnce(ts[i], v[i], step))
  }

  ghost predicate ReachedOnce(t: Trial, value: real, step: nat) {
    && t.steps != [] && t.steps[|t.steps| - 1].step == step && t.steps[|t.steps| - 1].value == value
    && forall k | 0 <= k < |t.steps| - 1 :: t.steps[k].step != step
  }

  lemma {:induction false} FirstIsLast(steps: seq<StepReport>, step: nat)
    requires steps != [] && steps[|steps| - 1].step == step && forall k | 0 <= k < |steps| - 1 :: steps[k].step != step
    ensures FirstAt(steps, step) == Some(steps[|steps| - 1].value)
  {
    if |steps| > 1 {
      FirstIsLast(steps[1..], step);
    }
  }

  ghost function AheadAmong(v: seq<real>, d: Direction, i: nat, m: nat): set<nat>
    requires i < |v| && m <= |v|
  {
    set j: nat | j < m && d.Better(v[j], v[i])
  }

  lemma AheadNext(v: seq<real>, d: Direction, i: nat, m: nat)
    requires i < |v| && 0 < m <= |v|
    ensures AheadAmong(v, d, i, m) == AheadAmong(v, d, i, m - 1) + if d.Better(v[m - 1], v[i]) then {m - 1} else {}
    ensures |AheadAmong(v, d, i, m)| == |AheadAmong(v, d, i, m - 1)| + if d.Better(v[m - 1], v[i]) then 1 else 0
  {
  }

  function NotBehind(d: Direction, x: real): real -> bool { y => !d.AtLeastAsGood(x, y) }

  lemma NotBehindIs(d: Direction, x: real, y: real)
    ensures NotBehind(d, x)(y) == d.Better(y, x) && !d.Better(x, x)
  {
  }

  lemma CountNext(s: seq<real>, y: real, p: real -> bool)
    ensures CountIf(s + [y], p) == CountIf(s, p) + if p(y) then 1 else 0
  {
    assert (s + [y])[..|s|] == s;
  }

  lemma PeersNext(ts: seq<Trial>, v: seq<real>, step: nat, i: nat, m: nat)
    requires AtRung(ts, v, step) && i < |ts| && 0 < m <= |ts|
    ensures PeerValues(ts[..m], i, step, false) ==
      if m - 1 == i then PeerValues(ts[..m - 1], i, step, false) else PeerValues(ts[..m - 1], i, step, false) + [v[m - 1]]
  {
    assert ts[..m][..m - 1] == ts[..m - 1];
    var t := ts[m - 1];
    assert t.id == m - 1 && ReachedOnce(t, v[m - 1], step);
    FirstIsLast(t.steps, step);
  }

  ghost predicate Counted(peers: seq<real>, v: seq<real>, d: Direction, i: nat, m: nat)
    requires i < |v| && m <= |v|
  {
    |peers| == (if i < m then m - 1 else m) && CountIf(peers, NotBehind(d, v[i])) == |AheadAmong(v, d, i, m)|
  }

  lemma NoneAhead(v: seq<real>, d: Direction, i: nat)
    requires i < |v|
    ensures Counted([], v, d, i, 0)
  {
    assert AheadAmong(v, d, i, 0) == {};
  }

  lemma OneMoreAhead(before: seq<real>, peers: seq<real>, v: seq<real>, d: Direction, i: nat, m: nat)
    requires i < |v| && 0 < m <= |v| && Counted(before, v, d, i, m - 1)
    requires peers == if m - 1 == i then before else before + [v[m - 1]]
    ensures Counted(peers, v, d, i, m)
  {
    hide AheadAmong, CountIf, NotBehind, Direction.Better;
    NotBehindIs(d, v[i], v[m - 1]);
    AheadNext(v, d, i, m);
    CountNext(before, v[m - 1], NotBehind(d, v[i]));
  }

  /** The peers of trial i among the first m, and how many of them are ahead. */
  lemma {:induction false} PeersAhead(ts: seq<Trial>, v: seq<real>, step: nat, d: Direction, i: nat, m: nat)
    requires |ts| == |v| && AtRung(ts, v, step) && i < |ts| && m <= |ts|
    ensures Counted(PeerValues(ts[..m], i, step, false), v, d, i, m)
  {
    hide Counted, AtRung;
    if m == 0 {
      NoneAhead(v, d, i);
    } else {
      PeersAhead(ts, v, step, d, i, m - 1);
      PeersNext(ts, v, step, i, m);
      OneMoreAhead(PeerValues(ts[..m - 1], i, step, false), PeerValues(ts[..m], i, step, false), v, d, i, m);
    }
  }

  /** The verdict on trial i is that at least `keep` others are ahead of it. */
  lemma VerdictIsRank(ts: seq<Trial>, v: seq<real>, step: nat, d: Direction, rungs: seq<nat>, eta: real, minAtRung: nat, i: nat)
    requires AtRung(ts, v, step) && i < |ts| && step in rungs && eta > 0.0 && |ts| >= minAtRung
    ensures HalvingVerdict(ts[i], ts, d, rungs, eta, minAtRung) <==> Rank(v, d, i) >= KeepOf(|ts|, eta)
  {
    hide KeepOf;
    PeersAhead(ts, v, step, d, i, |ts|);
    assert ts[..|ts|] == ts;
    assert ReachedOnce(ts[i], v[i], step);
    assert AheadAmong(v, d, i, |ts|) == Ahead(v, d, i);
  }

  ghost function Kept(ts: seq<Trial>, d: Direction, rungs: seq<nat>, eta: real, minAtRung: nat): set<nat>
    requires eta > 0.0
  {
    set i: nat | i < |ts| && !HalvingVerdict(ts[i], ts, d, rungs, eta, minAtRung)
  }

  /**
    At a rung that N trials have reached, at least ceil(N / eta) of them survive, and
    exactly so many when and only when the cut is clear, as it is for different values.
  */
  lemma HalvingKeepsItsShare(ts: seq<Trial>, v: seq<real>, step: nat, d: Direction, rungs: seq<nat>, eta: real, minAtRung: nat)
    requires AtRung(ts, v, step) && step in rungs && eta >= 1.0001 && |ts| >= minAtRung && |ts| >= 1
    ensures KeepOf(|ts|, eta) == Ceil(|ts| as real / eta)
    ensures |Kept(ts, d, rungs, eta, minAtRung)| >= KeepOf(|ts|, eta)
    ensures |Kept(ts, d, rungs, eta, minAtRung)| == KeepOf(|ts|, eta) <==> ClearCut(v, d, KeepOf(|ts|, eta))
    ensures AllDifferent(v) ==> |Kept(ts, d, rungs, eta, minAtRung)| == KeepOf(|ts|, eta)
  {
    KeepIsWithin(|ts|, eta);
    var k := KeepOf(|ts|, eta);
    SurvivorCount(v, d, k);
    if AllDifferent(v) {
      DifferentIsClear(v, d, k);
    }
    hide HalvingVerdict, KeepOf, Rank, ClearCut;
    forall i: nat | i < |ts|
      ensures !HalvingVerdict(ts[i], ts, d, rungs, eta, minAtRung) <==> Rank(v, d, i) < k
    {
      VerdictIsRank(ts, v, step, d, rungs, eta, minAtRung, i);
    }
    assert Kept(ts, d, rungs, eta, minAtRung) == Survivors(v, d, k);
  }

  /** Negating every value and turning the direction round changes no verdict of successive halving. */
  lemma HalvingMirrored(trial: Trial, history: seq<Trial>, d: Direction, rungs: seq<nat>, eta: real, minAtRung: nat)
    requires eta > 0.0
    ensures HalvingVerdict(NegatedTrial(trial), NegatedTrials(history), d.Opposite(), rungs, eta, minAtRung) ==
      HalvingVerdict(trial, history, d, rungs, eta, minAtRung)
  {
    hide PeerValues, KeepOf;
    if trial.steps != [] {
      var last := trial.steps[|trial.steps| - 1];
      PeersNegated(history, trial.id, last.step, false);
      var peers := PeerValues(history, trial.id, last.step, false);
      CountNegated(peers, NotBehind(d, last.value), NotBehind(d.Opposite(), -last.value));
    }
  }
}
