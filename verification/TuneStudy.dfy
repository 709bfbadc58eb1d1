/** The ask / report / tell loop: what a trial's life allows, and what the study says about its trials. */
module TuneStudy {
  import opened Wrappers
  import opened TuneSpace

  datatype Direction = Maximize | Minimize {
    predicate AtLeastAsGood(a: real, b: real) { if this.Maximize? then a >= b else a <= b }

    predicate Better(a: real, b: real) { !AtLeastAsGood(b, a) }

    function Opposite(): Direction { if this.Maximize? then Minimize else Maximize }
  }

  datatype TrialState = Running | Complete(score: real) | Pruned

  datatype StepReport = StepReport(step: nat, value: real, aux: seq<(string, real)>)

  datatype Trial = Trial(id: nat, combo: seq<nat>, params: seq<(string, ParamValue)>, steps: seq<StepReport>, state: TrialState)

  type Observation = (seq<nat>, real)

  /** The sampler and the pruner the study was built with, as functions of what they are shown. */
  type Sampler = seq<Observation> -> seq<nat>

  type Pruner = (Trial, seq<Trial>) -> bool

  // ---- what may happen to trials

  /** A trial keeps its identity and its reports; its state moves only from running, and once. */
  ghost predicate Grows(t: Trial, u: Trial) {
    && u.id == t.id && u.combo == t.combo && u.params == t.params
    && t.steps <= u.steps
    && (t.state == u.state || t.state.Running?)
  }

  ghost predicate Evolves(before: seq<Trial>, after: seq<Trial>) {
    |before| <= |after| && forall i | 0 <= i < |before| :: Grows(before[i], after[i])
  }

  lemma EvolvesItself(s: seq<Trial>)
    ensures Evolves(s, s)
  {
  }

  lemma EvolvesChain(a: seq<Trial>, b: seq<Trial>, c: seq<Trial>)
    requires Evolves(a, b) && Evolves(b, c)
    ensures Evolves(a, c)
  {
    forall i | 0 <= i < |a| ensures Grows(a[i], c[i]) {
      assert Grows(a[i], b[i]) && Grows(b[i], c[i]);
    }
  }

  /** The completed trials, in trial order. */
  function HistoryOf(trials: seq<Trial>): seq<Observation> {
    if trials == [] then [] else
      var front, last := trials[..|trials| - 1], trials[|trials| - 1];
      HistoryOf(front) + if last.state.Complete? then [(last.combo, last.state.score)] else []
  }

  /** A completed trial is in the history of every later moment, with the score it was told. */
  lemma {:induction false} HistoryKeeps(trials: seq<Trial>, i: nat)
    requires i < |trials|
    ensures trials[i].state.Complete? ==> (trials[i].combo, trials[i].state.score) in HistoryOf(trials)
  {
    var front := trials[..|trials| - 1];
    if i < |trials| - 1 {
      HistoryKeeps(front, i);
      assert front[i] == trials[i];
    }
  }

  lemma CompletedStays(before: seq<Trial>, after: seq<Trial>, i: nat)
    requires Evolves(before, after) && i < |before| && before[i].state.Complete?
    ensures after[i].state == before[i].state && (before[i].combo, before[i].state.score) in HistoryOf(after)
  {
    assert Grows(before[i], after[i]);
    HistoryKeeps(after, i);
  }

  ghost predicate Scored(trials: seq<Trial>, i: nat) { i < |trials| && trials[i].state.Complete? }

  datatype Command = Ask(sampler: Sampler) | Report(id: nat, step: nat, value: real, aux: seq<(string, real)>)
    | ShouldPrune(id: nat, pruner: Pruner) | Tell(id: nat, score: Option<real>)

  /** What a call makes of the trials. */
  function After(space: Space, geometric: Geometric, trials: seq<Trial>, call: Command): seq<Trial> {
    match call
    case Ask(sampler) =>
      var combo := sampler(HistoryOf(trials));
      trials + [Trial(|trials|, combo, DecodePoint(space, combo, geometric), [], Running)]
    case Report(id, step, value, aux) =>
      if id < |trials| then trials[id := trials[id].(steps := trials[id].steps + [StepReport(step, value, aux)])] else trials
    case ShouldPrune(id, pruner) =>
      if id < |trials| && trials[id].state.Running? && pruner(trials[id], trials) then
        trials[id := trials[id].(state := Pruned)]
      else trials
    case Tell(id, score) =>
      if id < |trials| && trials[id].state.Running? then
        trials[id := trials[id].(state := if score.Some? then TrialState.Complete(score.value) else Pruned)]
      else trials
  }

  /** What the first k calls make of the trials. */
  function AfterAll(space: Space, geometric: Geometric, trials: seq<Trial>, calls: seq<Command>, k: nat): seq<Trial>
    requires k <= |calls|
  {
    if k == 0 then trials else After(space, geometric, AfterAll(space, geometric, trials, calls, k - 1), calls[k - 1])
  }

  /** Every trial's id is its position. */
  ghost predicate Placed(trials: seq<Trial>) { forall i | 0 <= i < |trials| :: trials[i].id == i }

  /**
    Over any sequence of calls ids stay positions, trials are never lost, a trial keeps
    its point and its reports, and its state moves only from running, and once.
  */
  lemma {:induction false} CallsEvolve(space: Space, geometric: Geometric, trials: seq<Trial>, calls: seq<Command>, j: nat, k: nat)
    requires Placed(trials) && j <= k <= |calls|
    ensures Placed(AfterAll(space, geometric, trials, calls, k))
    ensures Evolves(AfterAll(space, geometric, trials, calls, j), AfterAll(space, geometric, trials, calls, k))
    decreases k
  {
    if k == 0 {
    } else if j == k {
      CallsEvolve(space, geometric, trials, calls, j - 1, k - 1);
      CallEvolves(space, geometric, AfterAll(space, geometric, trials, calls, k - 1), calls[k - 1]);
      EvolvesItself(AfterAll(space, geometric, trials, calls, k));
    } else {
      CallsEvolve(space, geometric, trials, calls, j, k - 1);
      var before := AfterAll(space, geometric, trials, calls, k - 1);
      CallEvolves(space, geometric, before, calls[k - 1]);
      EvolvesChain(AfterAll(space, geometric, trials, calls, j), before, AfterAll(space, geometric, trials, calls, k));
    }
  }

  lemma CallEvolves(space: Space, geometric: Geometric, trials: seq<Trial>, call: Command)
    requires Placed(trials)
    ensures Placed(After(space, geometric, trials, call)) && Evolves(trials, After(space, geometric, trials, call))
  {
    hide HistoryOf;
  }

  class Study {
    const space: Space
    const direction: Direction
    var trials: seq<Trial>

    ghost predicate Valid()
      reads this
    {
      Placed(trials)
    }

    constructor (space: Space, direction: Direction)
      ensures Valid() && trials == [] && this.space == space && this.direction == direction
    {
      this.space, this.direction, trials := space, direction, [];
    }

    /** Completed observations, in trial order. */
    method History() returns (h: seq<Observation>)
      ensures h == HistoryOf(trials)
    {
      h := [];
      assert trials[..0] == [];
      for i := 0 to |trials|
        invariant h == HistoryOf(trials[..i])
      {
        assert trials[..i + 1][..i] == trials[..i];
        if trials[i].state.Complete? {
          h := h + [(trials[i].combo, trials[i].state.score)];
        }
      }
      assert trials[..|trials|] == trials;
    }

    /** Propose the next trial from the history alone, and register it as running. */
    method DoAsk(sampler: Sampler, geometric: Geometric) returns (trial: Trial)
      requires Valid()
      modifies this`trials
      ensures Valid() && trials == old(trials) + [trial]
      ensures trial.id == |old(trials)| && trial.combo == sampler(HistoryOf(old(trials))) && trial.steps == [] && trial.state.Running?
      ensures trial.params == DecodePoint(space, trial.combo, geometric)
    {
      var history := History();
      var combo := sampler(history);
      trial := Trial(|trials|, combo, DecodePoint(space, combo, geometric), [], Running);
      trials := trials + [trial];
    }

    /** Record an intermediate value; an unknown id is ignored. */
    method DoReport(id: nat, step: nat, value: real, aux: seq<(string, real)>)
      requires Valid()
      modifies this`trials
      ensures Valid()
      ensures |trials| == |old(trials)| && forall i | 0 <= i < |trials| ::
        trials[i] == if i == id then old(trials)[i].(steps := old(trials)[i].steps + [StepReport(step, value, aux)]) else old(trials)[i]
    {
      if id < |trials| {
        trials := trials[id := trials[id].(steps := trials[id].steps + [StepReport(step, value, aux)])];
      }
    }

    /** Whether the trial should stop; a yes is recorded. */
    method DoShouldPrune(id: nat, pruner: Pruner) returns (verdict: bool)
      requires Valid()
      modifies this`trials
      ensures Valid()
      ensures verdict <==> id < |old(trials)| && old(trials)[id].state.Running? && pruner(old(trials)[id], old(trials))
      ensures |trials| == |old(trials)| && forall i | 0 <= i < |trials| ::
        trials[i] == if i == id && verdict then old(trials)[i].(state := Pruned) else old(trials)[i]
    {
      if id >= |trials| || !trials[id].state.Running? {
        return false;
      }
      verdict := pruner(trials[id], trials);
      if verdict {
        trials := trials[id := trials[id].(state := Pruned)];
      }
    }

    /** Finish a running trial; a score that is no finite number prunes it. */
    method DoTell(id: nat, score: Option<real>)
      requires Valid()
      modifies this`trials
      ensures Valid()
      ensures |trials| == |old(trials)| && forall i | 0 <= i < |trials| ::
        trials[i] == if i == id && old(trials)[i].state.Running?
          then old(trials)[i].(state := if score.Some? then TrialState.Complete(score.value) else Pruned) else old(trials)[i]
    {
      if id < |trials| && trials[id].state.Running? {
        trials := trials[id := trials[id].(state := if score.Some? then TrialState.Complete(score.value) else Pruned)];
      }
    }

    /** The best completed trial: the earliest among the best scores. */
    method Best() returns (r: Option<Trial>)
      requires Valid()
      ensures r.None? <==> forall i: nat :: !Scored(trials, i)
      ensures r.Some? ==> r.value.id < |trials| && r.value == trials[r.value.id] && r.value.state.Complete?
      ensures r.Some? ==> forall i: nat | Scored(trials, i) ::
        direction.AtLeastAsGood(r.value.state.score, trials[i].state.score) &&
        (i < r.value.id ==> direction.Better(r.value.state.score, trials[i].state.score))
    {
      r := None;
      for k := 0 to |trials|
        invariant r.None? <==> forall i: nat | i < k :: !Scored(trials, i)
        invariant r.Some? ==> r.value.id < k && r.value == trials[r.value.id] && r.value.state.Complete?
        invariant r.Some? ==> forall i: nat | i < k && Scored(trials, i) ::
          direction.AtLeastAsGood(r.value.state.score, trials[i].state.score) &&
          (i < r.value.id ==> direction.Better(r.value.state.score, trials[i].state.score))
      {
        var b := trials[k];
        if b.state.Complete? {
          if r.None? || !direction.AtLeastAsGood(r.value.state.score, b.state.score) {
            r := Some(b);
          }
          assert Scored(trials, k);
        }
      }
    }

    /** Any sequence of calls. */
    method Run(calls: seq<Command>, geometric: Geometric)
      requires Valid()
      modifies this`trials
      ensures Valid() && trials == AfterAll(space, geometric, old(trials), calls, |calls|)
    {
      hide Evolves, Placed, HistoryOf;
      for k := 0 to |calls|
        invariant Valid() && trials == AfterAll(space, geometric, old(trials), calls, k)
      {
        ghost var before := trials;
        match calls[k] {
          case Ask(sampler) => var _ := DoAsk(sampler, geometric);
          case Report(id, step, value, aux) => DoReport(id, step, value, aux);
          case ShouldPrune(id, pruner) => var _ := DoShouldPrune(id, pruner);
          case Tell(id, score) => DoTell(id, score);
        }
        assert trials == After(space, geometric, before, calls[k]);
      }
    }
  }
}
