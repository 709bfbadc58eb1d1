/**
  The host-wide admission gate: processes that acquire, release, crash, restart
  and prune against a shared ledger.  Any number of processes, any needs, any
  capacity; restarts are bounded by `maxGen` or, with None, unbounded.
*/
module HostGate {
  import opened Wrappers
  import opened Worklist

  datatype Config = Config(needs: seq<nat>, capacity: nat, atomicLedger: bool, identityKeyed: bool, maxGen: Option<nat>)

  /** What the file records, what is really occupied, who runs, and which incarnation wrote each record. */
  datatype State = State(ledger: seq<nat>, resident: seq<nat>, alive: set<nat>, gen: seq<nat>, ledgerGen: seq<nat>)

  datatype Action = Acquire(p: nat) | Release(p: nat) | Crash(p: nat) | Restart(p: nat) | Prune

  datatype Violation = NeverOvercommitted | AccountingCoversReality | NoPhantomReclaim

  ghost predicate WellFormed(cfg: Config, s: State) {
    && |s.ledger| == |s.resident| == |s.gen| == |s.ledgerGen| == |cfg.needs|
    && forall p | p in s.alive :: p < |cfg.needs|
  }

  function Zeros(n: nat): (z: seq<nat>)
    ensures |z| == n && forall p | 0 <= p < n :: z[p] == 0
  {
    seq(n, _ => 0)
  }

  function Slots(n: nat): (r: set<nat>)
    ensures forall p: nat :: p in r <==> p < n
  {
    if n == 0 then {} else Slots(n - 1) + {n - 1}
  }

  function Initial(cfg: Config): State {
    var z := Zeros(|cfg.needs|);
    State(z, z, Slots(|cfg.needs|), z, z)
  }

  function Total(s: seq<nat>): nat {
    if s == [] then 0 else Total(s[..|s| - 1]) + s[|s| - 1]
  }

  function Charged(s: State): nat { Total(s.ledger) }

  function Occupied(s: State): nat { Total(s.resident) }

  function Free(cfg: Config, s: State): nat {
    if Charged(s) <= cfg.capacity then cfg.capacity - Charged(s) else 0
  }

  /** What the prune asks of a record: as good as the keying. */
  predicate StillHeld(cfg: Config, s: State, p: nat)
    requires WellFormed(cfg, s) && p < |cfg.needs|
  {
    p in s.alive && (cfg.identityKeyed ==> s.ledgerGen[p] == s.gen[p])
  }

  /** What the process itself knows: it took this grant in this incarnation. */
  predicate Owns(s: State, p: nat)
    requires p < |s.gen| && p < |s.ledgerGen|
  {
    p in s.alive && s.ledgerGen[p] == s.gen[p]
  }

  predicate Enabled(cfg: Config, s: State, a: Action)
    requires WellFormed(cfg, s)
  {
    match a
    case Acquire(p) => p in s.alive && s.ledger[p] == 0 && cfg.needs[p] <= Free(cfg, s)
    case Release(p) => p < |cfg.needs| && Owns(s, p) && s.ledger[p] > 0
    case Crash(p) => p in s.alive
    case Restart(p) => p < |cfg.needs| && p !in s.alive && (cfg.maxGen.Some? ==> s.gen[p] < cfg.maxGen.value)
    case Prune => exists p | 0 <= p < |cfg.needs| :: s.ledger[p] > 0 && !StillHeld(cfg, s, p)
  }

  function After(cfg: Config, s: State, a: Action): (t: State)
    requires WellFormed(cfg, s) && Enabled(cfg, s, a)
    ensures WellFormed(cfg, t)
  {
    match a
    case Acquire(p) =>
      s.(ledger := s.ledger[p := cfg.needs[p]], resident := s.resident[p := cfg.needs[p]],
         ledgerGen := s.ledgerGen[p := s.gen[p]])
    case Release(p) => s.(ledger := s.ledger[p := 0], resident := s.resident[p := 0])
    case Crash(p) =>
      s.(ledger := if cfg.atomicLedger then s.ledger else Zeros(|cfg.needs|),
         resident := s.resident[p := 0], alive := s.alive - {p})
    case Restart(p) => s.(alive := s.alive + {p}, gen := s.gen[p := s.gen[p] + 1])
    case Prune =>
      s.(ledger := seq(|cfg.needs|, p requires 0 <= p < |cfg.needs| =>
        if StillHeld(cfg, s, p) then s.ledger[p] else 0))
  }

  /** The enabled ones among `actions`, each with the state it leads to. */
  function Steps(cfg: Config, s: State, actions: seq<Action>): (es: seq<Edge<Action, State>>)
    requires WellFormed(cfg, s)
    ensures forall e :: e in es <==> e.act in actions && Enabled(cfg, s, e.act) && e.dst == After(cfg, s, e.act)
  {
    if actions == [] then [] else
      var a := actions[|actions| - 1];
      assert forall b :: b in actions <==> b == a || b in actions[..|actions| - 1];
      Steps(cfg, s, actions[..|actions| - 1]) + if Enabled(cfg, s, a) then [Edge(a, After(cfg, s, a))] else []
  }

  function SlotActions(n: nat): (actions: seq<Action>)
    ensures forall a :: a in actions <==> !a.Prune? && a.p < n
  {
    if n == 0 then [] else
      var p := n - 1;
      SlotActions(p) + [Acquire(p), Release(p), Crash(p), Restart(p)]
  }

  /** Every enabled action, slot by slot and then the prune, with the state it leads to. */
  function Successors(cfg: Config, s: State): (es: seq<Edge<Action, State>>)
    requires WellFormed(cfg, s)
    ensures forall e :: e in es <==> Enabled(cfg, s, e.act) && e.dst == After(cfg, s, e.act)
  {
    Steps(cfg, s, SlotActions(|cfg.needs|) + [Prune])
  }

  function Gate(cfg: Config): Graph<State, Action> {
    s requires WellFormed(cfg, s) => Successors(cfg, s)
  }

  /** The first violated safety property, in the order they are checked. */
  function Invariants(cfg: Config, s: State): Option<Violation>
    requires WellFormed(cfg, s)
  {
    if Occupied(s) > cfg.capacity then Some(NeverOvercommitted)
    else if Charged(s) < Occupied(s) then Some(AccountingCoversReality)
    else if exists p | p in s.alive :: s.resident[p] > s.ledger[p] then Some(NoPhantomReclaim)
    else None
  }

  // ---- sums over the slots

  lemma {:induction false} TotalUpdate(s: seq<nat>, p: nat, v: nat)
    requires p < |s|
    ensures Total(s[p := v]) == Total(s) - s[p] + v
  {
    var n := |s| - 1;
    if p == n {
      assert s[p := v][..n] == s[..n];
    } else {
      TotalUpdate(s[..n], p, v);
      assert s[p := v][..n] == s[..n][p := v];
    }
  }

  lemma {:induction false} TotalMonotone(s: seq<nat>, t: seq<nat>)
    requires |s| == |t| && forall p | 0 <= p < |s| :: s[p] <= t[p]
    ensures Total(s) <= Total(t)
    ensures Total(s) == Total(t) ==> s == t
  {
    if s == [] {
    } else {
      var n := |s| - 1;
      TotalMonotone(s[..n], t[..n]);
      assert s == s[..n] + [s[n]] && t == t[..n] + [t[n]];
    }
  }

  lemma TotalAtLeast(s: seq<nat>, p: nat)
    requires p < |s|
    ensures s[p] <= Total(s)
  {
    TotalUpdate(s, p, 0);
  }

  lemma {:induction false} TotalZero(n: nat)
    ensures Total(Zeros(n)) == 0
  {
    if n == 0 {
    } else {
      TotalZero(n - 1);
      assert Zeros(n)[..n - 1] == Zeros(n - 1);
    }
  }

  // ---- safety

  /** Some grant can be made at all: a process with a positive need that fits the box. */
  predicate Acquirable(cfg: Config) {
    exists p | 0 <= p < |cfg.needs| :: 0 < cfg.needs[p] <= cfg.capacity
  }

  /** The configurations in which no run breaks a safety property. */
  predicate SafeConfig(cfg: Config) {
    cfg.atomicLedger || |cfg.needs| < 2 || !Acquirable(cfg)
  }

  /**
    What every run keeps: a process occupies exactly what the record it owns
    says, incarnations only grow, records are all-or-nothing, and the books
    stay within capacity.
  */
  ghost predicate Inv(cfg: Config, s: State) {
    && WellFormed(cfg, s)
    && (forall p | 0 <= p < |cfg.needs| ::
          && s.ledgerGen[p] <= s.gen[p]
          && (s.ledger[p] == 0 || s.ledger[p] == cfg.needs[p])
          && s.resident[p] == (if Owns(s, p) then s.ledger[p] else 0))
    && (cfg.maxGen.Some? ==> forall p | 0 <= p < |cfg.needs| :: s.gen[p] <= cfg.maxGen.value)
    && Charged(s) <= cfg.capacity
  }

  lemma InitialInv(cfg: Config)
    ensures Inv(cfg, Initial(cfg))
  {
    TotalZero(|cfg.needs|);
  }

  /** One step of any kind keeps the invariant, except a crash that truncates a ledger someone else is using. */
  lemma StepKeepsInv(cfg: Config, s: State, a: Action)
    requires Inv(cfg, s) && Enabled(cfg, s, a)
    requires a.Crash? ==> SafeConfig(cfg)
    ensures Inv(cfg, After(cfg, s, a))
  {
    var t := After(cfg, s, a);
    match a
    case Acquire(p) => TotalUpdate(s.ledger, p, cfg.needs[p]);
    case Release(p) => TotalUpdate(s.ledger, p, 0);
    case Crash(p) =>
      TotalZero(|cfg.needs|);
      if !cfg.atomicLedger && |cfg.needs| >= 2 {
        forall q | 0 <= q < |cfg.needs| ensures s.ledger[q] == 0 {
          TotalAtLeast(s.ledger, q);
        }
      }
    case Restart(p) =>
    case Prune => TotalMonotone(t.ledger, s.ledger);
  }

  lemma InvIsSafe(cfg: Config, s: State)
    requires Inv(cfg, s)
    ensures Invariants(cfg, s) == None
  {
    TotalMonotone(s.resident, s.ledger);
  }

  lemma {:induction false} WalkKeepsInv(cfg: Config, start: State, steps: seq<Edge<Action, State>>)
    requires SafeConfig(cfg) && Inv(cfg, start) && Walk(Gate(cfg), start, steps)
    ensures Inv(cfg, End(start, steps))
    decreases |steps|
  {
    if steps == [] {
    } else {
      var init, last := steps[..|steps| - 1], steps[|steps| - 1];
      WalkKeepsInv(cfg, start, init);
      StepKeepsInv(cfg, End(start, init), last.act);
    }
  }

  lemma ReachableInv(cfg: Config, t: State)
    requires SafeConfig(cfg) && Reachable(Gate(cfg), Initial(cfg), t)
    ensures Inv(cfg, t)
  {
    var steps :| WalkTo(Gate(cfg), Initial(cfg), steps, t);
    InitialInv(cfg);
    WalkKeepsInv(cfg, Initial(cfg), steps);
  }

  /**
    Safety, exactly: every reachable state of the gate, under either keying,
    passes the safety test if and only if the ledger is atomic, or nobody else
    can be hurt by a truncation, or no grant ever happens.
  */
  lemma SafetyExactly(cfg: Config)
    ensures (forall t | Reachable(Gate(cfg), Initial(cfg), t) :: WellFormed(cfg, t) && Invariants(cfg, t) == None)
        <==> SafeConfig(cfg)
  {
    if SafeConfig(cfg) {
      forall t | Reachable(Gate(cfg), Initial(cfg), t) ensures WellFormed(cfg, t) && Invariants(cfg, t) == None {
        ReachableInv(cfg, t);
        InvIsSafe(cfg, t);
      }
    } else {
      var t := TruncationBreaksTheBooks(cfg);
    }
  }

  /** With an in-place ledger, one grant and one crash elsewhere leave memory occupied that the books do not show. */
  lemma TruncationBreaksTheBooks(cfg: Config) returns (t: State)
    requires !SafeConfig(cfg)
    ensures Reachable(Gate(cfg), Initial(cfg), t) && WellFormed(cfg, t)
    ensures Invariants(cfg, t) == Some(AccountingCoversReality)
  {
    var p :| 0 <= p < |cfg.needs| && 0 < cfg.needs[p] <= cfg.capacity;
    var q := if p == 0 then 1 else 0;
    var s := Initial(cfg);
    TotalZero(|cfg.needs|);
    TotalUpdate(s.resident, p, cfg.needs[p]);
    var s1 := After(cfg, s, Acquire(p));
    t := After(cfg, s1, Crash(q));
    assert t.resident == s1.resident;
    StartIsReachable(Gate(cfg), s);
    ReachNext(cfg, s, Acquire(p));
    ReachNext(cfg, s1, Crash(q));
  }

  lemma ReachNext(cfg: Config, s: State, a: Action)
    requires Reachable(Gate(cfg), Initial(cfg), s)
    requires WellFormed(cfg, s) && Enabled(cfg, s, a)
    ensures Reachable(Gate(cfg), Initial(cfg), After(cfg, s, a))
  {
    ReachOn(Gate(cfg), Initial(cfg), s, Edge(a, After(cfg, s, a)));
  }

  // ---- recovery

  predicate Healing(a: Action) { a.Prune? || a.Release? }

  predicate Balanced(s: State) { Charged(s) == Occupied(s) }

  function Positives(s: seq<nat>): nat {
    if s == [] then 0 else Positives(s[..|s| - 1]) + if s[|s| - 1] > 0 then 1 else 0
  }

  lemma {:induction false} PositivesDrop(s: seq<nat>, t: seq<nat>, p: nat)
    requires |s| == |t| && forall i | 0 <= i < |s| :: s[i] == 0 ==> t[i] == 0
    ensures Positives(t) <= Positives(s)
    ensures p < |s| && s[p] > 0 && t[p] == 0 ==> Positives(t) < Positives(s)
  {
    if s == [] {
    } else {
      PositivesDrop(s[..|s| - 1], t[..|s| - 1], p);
    }
  }

  /** Every healing step clears at least one positive record. */
  lemma HealingStepDrops(cfg: Config, s: State, a: Action)
    requires WellFormed(cfg, s) && Enabled(cfg, s, a) && Healing(a)
    ensures Positives(After(cfg, s, a).ledger) < Positives(s.ledger)
  {
    var p := if a.Release? then a.p else
      var p :| 0 <= p < |cfg.needs| && s.ledger[p] > 0 && !StillHeld(cfg, s, p); p;
    PositivesDrop(s.ledger, After(cfg, s, a).ledger, p);
  }

  /** So the system left to itself stops: a healing run is no longer than the number of positive records. */
  lemma {:induction false} HealingTerminates(cfg: Config, s: State, steps: seq<Edge<Action, State>>)
    requires WellFormed(cfg, s) && Walk(Gate(cfg), s, steps)
    requires forall e | e in steps :: Healing(e.act)
    ensures WellFormed(cfg, End(s, steps))
    ensures |steps| + Positives(End(s, steps).ledger) <= Positives(s.ledger)
    decreases |steps|
  {
    if steps == [] {
    } else {
      var init, last := steps[..|steps| - 1], steps[|steps| - 1];
      HealingTerminates(cfg, s, init);
      assert HasEdge(Gate(cfg), End(s, init), last);
      HealingStepDrops(cfg, End(s, init), last.act);
    }
  }

  /** A state in which nothing is left to heal: with identity keying and an atomic ledger, an empty one. */
  lemma HealedIsEmpty(cfg: Config, s: State)
    requires cfg.identityKeyed && Inv(cfg, s)
    requires forall a | Healing(a) :: !Enabled(cfg, s, a)
    ensures forall p | 0 <= p < |cfg.needs| :: s.ledger[p] == 0 && s.resident[p] == 0
  {
    forall p | 0 <= p < |cfg.needs| ensures s.ledger[p] == 0 && s.resident[p] == 0 {
      assert !Enabled(cfg, s, Release(p)) && !Enabled(cfg, s, Prune);
    }
  }

  /** A record of a dead incarnation whose slot is running again. */
  predicate StaleAt(s: State, p: nat)
    requires |s.ledger| == |s.gen| == |s.ledgerGen|
  {
    p < |s.ledger| && p in s.alive && s.ledger[p] > 0 && s.ledgerGen[p] != s.gen[p]
  }

  /** With pid-only keying such a record survives everything but a crash of that very process. */
  lemma StaleRecordSurvives(cfg: Config, s: State, a: Action, p: nat)
    requires !cfg.identityKeyed && cfg.atomicLedger
    requires Inv(cfg, s) && StaleAt(s, p) && Enabled(cfg, s, a)
    ensures StaleAt(After(cfg, s, a), p) <==> a != Crash(p)
  {
  }

  lemma StaleIsUnbalanced(cfg: Config, s: State, p: nat)
    requires Inv(cfg, s) && StaleAt(s, p)
    ensures Charged(s) > Occupied(s)
  {
    TotalMonotone(s.resident, s.ledger);
  }

  /** Where the keying can tell every dead record from a live one, an enabled prune balances the books at once. */
  lemma PruneBalances(cfg: Config, s: State)
    requires Inv(cfg, s) && (cfg.identityKeyed || forall p :: !StaleAt(s, p))
    ensures if Enabled(cfg, s, Prune) then Balanced(After(cfg, s, Prune)) else Balanced(s)
  {
    var t := if Enabled(cfg, s, Prune) then After(cfg, s, Prune) else s;
    forall p | 0 <= p < |cfg.needs| ensures t.ledger[p] == t.resident[p] {
      assert StaleAt(s, p) ==> cfg.identityKeyed;
    }
    assert t.ledger == t.resident;
  }

  /** All states whose numbers stay below b. */
  ghost function Candidates(n: nat, b: nat): set<State> {
    var rows := Rows(n, b);
    set l, r, a, g, h | l in rows && r in rows && a <= Slots(n) && g in rows && h in rows :: State(l, r, a, g, h)
  }

  lemma IsCandidate(s: State, n: nat, b: nat)
    requires s.ledger in Rows(n, b) && s.resident in Rows(n, b) && s.alive <= Slots(n) && s.gen in Rows(n, b) && s.ledgerGen in Rows(n, b)
    ensures s in Candidates(n, b)
  {
    hide Rows, Slots;
    assert s == State(s.ledger, s.resident, s.alive, s.gen, s.ledgerGen);
  }

  lemma BoxIsCandidate(cfg: Config, s: State)
    requires cfg.maxGen.Some? && InBox(cfg, s)
    ensures s in Candidates(|cfg.needs|, Total(cfg.needs) + cfg.maxGen.value)
  {
    hide Candidates, Total;
    forall p | 0 <= p < |cfg.needs| ensures cfg.needs[p] <= Total(cfg.needs) { TotalAtLeast(cfg.needs, p); }
    IsCandidate(s, |cfg.needs|, Total(cfg.needs) + cfg.maxGen.value);
  }

  /** The set of states a configuration with bounded restarts can be in. */
  ghost function Universe(cfg: Config): (u: set<State>)
    requires cfg.maxGen.Some?
    ensures forall s :: s in u <==> InBox(cfg, s)
  {
    assert forall s | InBox(cfg, s) :: s in Candidates(|cfg.needs|, Total(cfg.needs) + cfg.maxGen.value) by {
      forall s | InBox(cfg, s) ensures s in Candidates(|cfg.needs|, Total(cfg.needs) + cfg.maxGen.value) {
        BoxIsCandidate(cfg, s);
      }
    }
    set s | s in Candidates(|cfg.needs|, Total(cfg.needs) + cfg.maxGen.value) && InBox(cfg, s)
  }

  ghost predicate InBox(cfg: Config, s: State)
    requires cfg.maxGen.Some?
  {
    && WellFormed(cfg, s)
    && forall p | 0 <= p < |cfg.needs| ::
         && s.ledger[p] <= cfg.needs[p] && s.resident[p] <= cfg.needs[p]
         && s.ledgerGen[p] <= s.gen[p] <= cfg.maxGen.value
  }

  ghost function Rows(n: nat, b: nat): (rows: set<seq<nat>>)
    ensures forall r :: r in rows <==> |r| == n && forall i | 0 <= i < n :: r[i] <= b
  {
    if n == 0 then {[]} else
      var shorter := Rows(n - 1, b);
      var rows := set r, x | r in shorter && 0 <= x <= b :: r + [x];
      assert forall r: seq<nat> | |r| == n && forall i | 0 <= i < n :: r[i] <= b :: r in rows by {
        forall r: seq<nat> | |r| == n && forall i | 0 <= i < n :: r[i] <= b ensures r in rows {
          assert r == r[..n - 1] + [r[n - 1]];
          assert r[..n - 1] in shorter;
        }
      }
      rows
  }

  lemma UniverseIsClosed(cfg: Config)
    requires cfg.maxGen.Some?
    ensures Initial(cfg) in Universe(cfg) && Closed(Gate(cfg), Universe(cfg))
  {
    forall s, e | InBox(cfg, s) && e in Gate(cfg)(s) ensures InBox(cfg, e.dst) {
      StepStaysInBox(cfg, s, e.act);
    }
  }

  lemma StepStaysInBox(cfg: Config, s: State, a: Action)
    requires cfg.maxGen.Some? && InBox(cfg, s) && Enabled(cfg, s, a)
    ensures InBox(cfg, After(cfg, s, a))
  {
  }

  // ---- how much can be occupied

  /** The needs that fit the box at all; the others are never granted. */
  function Fitting(cfg: Config): (f: seq<nat>)
    ensures |f| == |cfg.needs| && forall p | 0 <= p < |f| :: f[p] == if cfg.needs[p] <= cfg.capacity then cfg.needs[p] else 0
  {
    seq(|cfg.needs|, p requires 0 <= p < |cfg.needs| => if cfg.needs[p] <= cfg.capacity then cfg.needs[p] else 0)
  }

  ghost predicate WithinFitting(cfg: Config, s: State) {
    WellFormed(cfg, s) && forall p | 0 <= p < |cfg.needs| :: s.resident[p] <= Fitting(cfg)[p]
  }

  lemma StepWithinFitting(cfg: Config, s: State, a: Action)
    requires WithinFitting(cfg, s) && Enabled(cfg, s, a)
    ensures WithinFitting(cfg, After(cfg, s, a))
  {
    hide Total;
  }

  lemma {:induction false} RunWithinFitting(cfg: Config, steps: seq<Edge<Action, State>>)
    requires Walk(Gate(cfg), Initial(cfg), steps)
    ensures WithinFitting(cfg, End(Initial(cfg), steps))
    decreases |steps|
  {
    hide WithinFitting, Enabled, After;
    if steps == [] {
      InitialWithinFitting(cfg);
    } else {
      RunWithinFitting(cfg, steps[..|steps| - 1]);
      var before, last := End(Initial(cfg), steps[..|steps| - 1]), steps[|steps| - 1];
      WithinIsWellFormed(cfg, before);
      assert HasEdge(Gate(cfg), before, last);
      StepWithinFitting(cfg, before, last.act);
    }
  }

  lemma InitialWithinFitting(cfg: Config)
    ensures WithinFitting(cfg, Initial(cfg))
  {
  }

  lemma WithinIsWellFormed(cfg: Config, s: State)
    requires WithinFitting(cfg, s)
    ensures WellFormed(cfg, s)
  {
  }

  /** Every state a run reaches occupies at most the needs that fit, whatever the flags. */
  lemma OccupiedWithinNeeds(cfg: Config, t: State)
    requires Reachable(Gate(cfg), Initial(cfg), t)
    ensures WellFormed(cfg, t) && (forall p | 0 <= p < |cfg.needs| :: t.resident[p] <= cfg.needs[p])
    ensures Occupied(t) <= Total(Fitting(cfg)) <= Total(cfg.needs)
  {
    var steps :| WalkTo(Gate(cfg), Initial(cfg), steps, t);
    RunWithinFitting(cfg, steps);
    TotalMonotone(t.resident, Fitting(cfg));
    TotalMonotone(Fitting(cfg), cfg.needs);
  }

  /** A dead process may come back at least once. */
  predicate Restartable(cfg: Config) { cfg.maxGen.Some? ==> cfg.maxGen.value > 0 }

  /** The slots before k hold what fits, the others nothing; everybody runs, and from f on never crashed. */
  ghost predicate Filled(cfg: Config, s: State, k: nat, f: nat) {
    && WellFormed(cfg, s) && k <= |cfg.needs| && (forall p: nat | p < |cfg.needs| :: p in s.alive)
    && (forall p | 0 <= p < |cfg.needs| :: s.resident[p] == if p < k then Fitting(cfg)[p] else 0)
    && forall p | f <= p < |cfg.needs| :: s.gen[p] == 0
  }

  /** Crash and restart: the same holdings, the books truncated. */
  lemma Bounce(cfg: Config, s: State, k: nat) returns (t: State)
    requires !cfg.atomicLedger && Restartable(cfg)
    requires k < |cfg.needs| && Filled(cfg, s, k, k) && Reachable(Gate(cfg), Initial(cfg), s)
    ensures Filled(cfg, t, k, k + 1) && t.ledger == Zeros(|cfg.needs|) && Reachable(Gate(cfg), Initial(cfg), t)
  {
    hide Total;
    var s1 := After(cfg, s, Crash(k));
    t := After(cfg, s1, Restart(k));
    ReachNext(cfg, s, Crash(k));
    ReachNext(cfg, s1, Restart(k));
  }

  /** After the truncation the next need that fits the box is granted. */
  lemma FillNext(cfg: Config, s: State, k: nat) returns (t: State)
    requires !cfg.atomicLedger && Restartable(cfg)
    requires k < |cfg.needs| && Filled(cfg, s, k, k) && Reachable(Gate(cfg), Initial(cfg), s)
    ensures Filled(cfg, t, k + 1, k + 1) && Reachable(Gate(cfg), Initial(cfg), t)
  {
    hide Total;
    if cfg.needs[k] > cfg.capacity {
      t := s;
    } else {
      var u := Bounce(cfg, s, k);
      TotalZero(|cfg.needs|);
      t := After(cfg, u, Acquire(k));
      ReachNext(cfg, u, Acquire(k));
    }
  }

  lemma {:induction false} FillUp(cfg: Config, k: nat) returns (t: State)
    requires !cfg.atomicLedger && Restartable(cfg) && k <= |cfg.needs|
    ensures Filled(cfg, t, k, k) && Reachable(Gate(cfg), Initial(cfg), t)
  {
    if k == 0 {
      t := Initial(cfg);
      StartIsReachable(Gate(cfg), t);
    } else {
      var s := FillUp(cfg, k - 1);
      t := FillNext(cfg, s, k - 1);
    }
  }

  lemma FilledIsFull(cfg: Config, t: State)
    requires Filled(cfg, t, |cfg.needs|, |cfg.needs|)
    ensures WellFormed(cfg, t) && Occupied(t) == Total(Fitting(cfg))
  {
    assert t.resident == Fitting(cfg);
  }

  /** Where nobody restarts: before the first crash the books are exact, and after it somebody is out for good. */
  ghost predicate OutForGood(cfg: Config, s: State) {
    && WithinFitting(cfg, s) && s.gen == s.ledgerGen
    && (forall p: nat | p < |cfg.needs| && p !in s.alive :: s.resident[p] == 0)
    && ((forall p: nat | p < |cfg.needs| :: p in s.alive) ==> s.resident == s.ledger && Occupied(s) <= cfg.capacity)
  }

  lemma StepOutForGood(cfg: Config, s: State, a: Action)
    requires OutForGood(cfg, s) && Enabled(cfg, s, a) && !a.Restart?
    ensures OutForGood(cfg, After(cfg, s, a))
  {
    StepWithinFitting(cfg, s, a);
    match a
    case Acquire(p) => TotalUpdate(s.ledger, p, cfg.needs[p]);
    case Release(p) => TotalUpdate(s.ledger, p, 0);
    case Crash(p) =>
    case Prune =>
  }

  lemma {:induction false} RunOutForGood(cfg: Config, steps: seq<Edge<Action, State>>)
    requires !Restartable(cfg) && Walk(Gate(cfg), Initial(cfg), steps)
    ensures OutForGood(cfg, End(Initial(cfg), steps))
    decreases |steps|
  {
    hide WithinFitting, After, Total;
    if steps == [] {
      InitialWithinFitting(cfg);
      TotalZero(|cfg.needs|);
    } else {
      RunOutForGood(cfg, steps[..|steps| - 1]);
      var before, last := End(Initial(cfg), steps[..|steps| - 1]), steps[|steps| - 1];
      WithinIsWellFormed(cfg, before);
      assert HasEdge(Gate(cfg), before, last);
      StepOutForGood(cfg, before, last.act);
    }
  }

  /** What can be held once q is out. */
  function Without(cfg: Config, q: nat): (f: seq<nat>)
    requires q < |cfg.needs|
    ensures |f| == |cfg.needs|
  {
    Fitting(cfg)[q := 0]
  }

  lemma OneIsOut(cfg: Config, t: State) returns (q: nat)
    requires OutForGood(cfg, t) && Occupied(t) > cfg.capacity
    ensures q < |cfg.needs| && Occupied(t) <= Total(Without(cfg, q))
  {
    q :| q < |cfg.needs| && q !in t.alive;
    TotalMonotone(t.resident, Without(cfg, q));
  }

  /** Nobody has crashed, and the slots before k hold what fits, all but q. */
  ghost predicate Stocked(cfg: Config, s: State, q: nat, k: nat) {
    && WellFormed(cfg, s) && q < |cfg.needs| && k <= |cfg.needs| && (forall p: nat | p < |cfg.needs| :: p in s.alive)
    && s.resident == s.ledger && Occupied(s) <= cfg.capacity
    && forall p | 0 <= p < |cfg.needs| :: s.resident[p] == if p < k && p != q then Fitting(cfg)[p] else 0
  }

  /** A run that overcommits, or one more slot stocked. */
  lemma StockNext(cfg: Config, s: State, q: nat, k: nat) returns (t: State)
    requires !cfg.atomicLedger && k < |cfg.needs| && Stocked(cfg, s, q, k) && Reachable(Gate(cfg), Initial(cfg), s)
    ensures WellFormed(cfg, t) && Reachable(Gate(cfg), Initial(cfg), t)
    ensures Occupied(t) > cfg.capacity || Stocked(cfg, t, q, k + 1)
  {
    hide Total;
    TotalUpdate(s.resident, k, cfg.needs[k]);
    if k == q || cfg.needs[k] > cfg.capacity {
      t := s;
    } else if Occupied(s) + cfg.needs[k] <= cfg.capacity {
      t := After(cfg, s, Acquire(k));
      ReachNext(cfg, s, Acquire(k));
    } else {
      t := Squeeze(cfg, s, q, k);
    }
  }

  /** A bystander crashes, the books go blank, and the next need is granted on top of the others. */
  lemma Squeeze(cfg: Config, s: State, q: nat, k: nat) returns (t: State)
    requires !cfg.atomicLedger && k < |cfg.needs| && Stocked(cfg, s, q, k) && Reachable(Gate(cfg), Initial(cfg), s)
    requires k != q && cfg.needs[k] <= cfg.capacity < Occupied(s) + cfg.needs[k]
    ensures WellFormed(cfg, t) && Reachable(Gate(cfg), Initial(cfg), t) && Occupied(t) > cfg.capacity
  {
    hide Total;
    TotalUpdate(s.resident, k, cfg.needs[k]);
    TotalZero(|cfg.needs|);
    var u := After(cfg, s, Crash(q));
    assert u.resident == s.resident;
    t := After(cfg, u, Acquire(k));
    ReachNext(cfg, s, Crash(q));
    ReachNext(cfg, u, Acquire(k));
  }

  lemma {:induction false} StockUp(cfg: Config, q: nat, k: nat) returns (t: State)
    requires !cfg.atomicLedger && k <= |cfg.needs| && q < |cfg.needs|
    ensures WellFormed(cfg, t) && Reachable(Gate(cfg), Initial(cfg), t)
    ensures Occupied(t) > cfg.capacity || Stocked(cfg, t, q, k)
  {
    if k == 0 {
      t := Initial(cfg);
      TotalZero(|cfg.needs|);
      StartIsReachable(Gate(cfg), t);
    } else {
      t := StockUp(cfg, q, k - 1);
      if Occupied(t) <= cfg.capacity {
        t := StockNext(cfg, t, q, k - 1);
      }
    }
  }

  lemma StockedIsFull(cfg: Config, t: State, q: nat)
    ensures Stocked(cfg, t, q, |cfg.needs|) ==> Occupied(t) == Total(Without(cfg, q))
  {
    if Stocked(cfg, t, q, |cfg.needs|) { assert t.resident == Without(cfg, q); }
  }

  /** The needs that can pile up over truncations: all that fit, or all but one where a crash is for good. */
  predicate PilesUp(cfg: Config) {
    if Restartable(cfg) then Total(Fitting(cfg)) > cfg.capacity
    else exists q: nat :: q < |cfg.needs| && Total(Without(cfg, q)) > cfg.capacity
  }

  ghost predicate Overcommitted(cfg: Config, t: State) {
    Reachable(Gate(cfg), Initial(cfg), t) && WellFormed(cfg, t) && Invariants(cfg, t) == Some(NeverOvercommitted)
  }

  /**
    Overcommitment, exactly: some run occupies more than the box holds if and only if the
    ledger is rewritten in place and the needs that fit the box one by one exceed it
    together, without one of them where a crashed process never comes back.
  */
  lemma OvercommitsExactly(cfg: Config)
    ensures (exists t :: Overcommitted(cfg, t)) <==> !cfg.atomicLedger && PilesUp(cfg)
  {
    hide WellFormed, Total;
    if t :| Overcommitted(cfg, t) {
      OvercommittedPiles(cfg, t);
    }
    if !cfg.atomicLedger && PilesUp(cfg) {
      var t := PilesOvercommit(cfg);
    }
  }

  lemma OvercommittedPiles(cfg: Config, t: State)
    requires Overcommitted(cfg, t)
    ensures !cfg.atomicLedger && PilesUp(cfg)
  {
    hide Total, WellFormed;
    if cfg.atomicLedger {
      SafetyExactly(cfg);
      assert false;
    }
    if Restartable(cfg) {
      OccupiedWithinNeeds(cfg, t);
    } else {
      var steps :| WalkTo(Gate(cfg), Initial(cfg), steps, t);
      RunOutForGood(cfg, steps);
      var q := OneIsOut(cfg, t);
    }
  }

  lemma PilesOvercommit(cfg: Config) returns (t: State)
    requires !cfg.atomicLedger && PilesUp(cfg)
    ensures Overcommitted(cfg, t)
  {
    hide Total, WellFormed;
    if Restartable(cfg) {
      t := FillUp(cfg, |cfg.needs|);
      FilledIsFull(cfg, t);
    } else {
      var q: nat :| q < |cfg.needs| && Total(Without(cfg, q)) > cfg.capacity;
      t := StockUp(cfg, q, |cfg.needs|);
      StockedIsFull(cfg, t, q);
    }
  }

  // ---- the checker's verdicts

  /** No healing run from a stale record reaches balance under pid-only keying. */
  lemma {:induction false} StaleNeverHeals(
      cfg: Config, nodes: set<State>, s: State, p: nat, steps: seq<Edge<Action, State>>)
    requires !cfg.identityKeyed && cfg.atomicLedger
    requires Inv(cfg, s) && StaleAt(s, p)
    ensures !Heals(Gate(cfg), Healing, Balanced, nodes, s, steps)
    decreases |steps|
  {
    if Heals(Gate(cfg), Healing, Balanced, nodes, s, steps) {
      if steps == [] {
        StaleIsUnbalanced(cfg, s, p);
      } else {
        var e := steps[0];
        StepKeepsInv(cfg, s, e.act);
        StaleRecordSurvives(cfg, s, e.act, p);
        StaleNeverHeals(cfg, nodes, e.dst, p, steps[1..]);
      }
    }
  }

  /**
    Recovery, exactly: from a state of an atomic gate, prunes and releases can
    bring the books back into balance if and only if the keying tells
    incarnations apart or no stale record sits beside a live process.
  */
  lemma HealableExactly(cfg: Config, nodes: set<State>, s: State)
    requires cfg.atomicLedger && Inv(cfg, s)
    requires s in nodes && Closed(Gate(cfg), nodes)
    ensures CanHeal(Gate(cfg), Healing, Balanced, nodes, s) <==> cfg.identityKeyed || forall p :: !StaleAt(s, p)
  {
    hide Enabled, After;
    if cfg.identityKeyed || forall p :: !StaleAt(s, p) {
      PruneHeals(cfg, nodes, s);
    } else {
      var p :| StaleAt(s, p);
      forall steps ensures !Heals(Gate(cfg), Healing, Balanced, nodes, s, steps) {
        StaleNeverHeals(cfg, nodes, s, p, steps);
      }
    }
  }

  lemma PruneHeals(cfg: Config, nodes: set<State>, s: State)
    requires Inv(cfg, s) && (cfg.identityKeyed || forall p :: !StaleAt(s, p))
    requires s in nodes && Closed(Gate(cfg), nodes)
    ensures CanHeal(Gate(cfg), Healing, Balanced, nodes, s)
  {
    hide After;
    PruneBalances(cfg, s);
    if Enabled(cfg, s, Prune) {
      var t := After(cfg, s, Prune);
      var e := Edge(Prune, t);
      assert HasEdge(Gate(cfg), s, e);
      assert Heals(Gate(cfg), Healing, Balanced, nodes, t, []);
      assert [e][1..] == [];
      assert Heals(Gate(cfg), Healing, Balanced, nodes, s, [e]);
    } else {
      assert Heals(Gate(cfg), Healing, Balanced, nodes, s, []);
    }
  }

  /**
    What every run of an in-place ledger keeps: since each crash blanks the
    file, a record in it was written by the very process that still holds it.
  */
  ghost predicate OwnBooks(cfg: Config, s: State) {
    && WellFormed(cfg, s)
    && forall p | 0 <= p < |cfg.needs| && s.ledger[p] > 0 :: Owns(s, p) && s.resident[p] == s.ledger[p]
  }

  lemma StepKeepsOwnBooks(cfg: Config, s: State, a: Action)
    requires !cfg.atomicLedger && OwnBooks(cfg, s) && Enabled(cfg, s, a)
    ensures OwnBooks(cfg, After(cfg, s, a)) && a != Prune
  {
    hide Total;
  }

  /** So a reachable state of an in-place ledger holds no stale record and offers no prune. */
  lemma {:induction false} RunKeepsOwnBooks(cfg: Config, steps: seq<Edge<Action, State>>)
    requires !cfg.atomicLedger && Walk(Gate(cfg), Initial(cfg), steps)
    ensures OwnBooks(cfg, End(Initial(cfg), steps))
    decreases |steps|
  {
    hide After, Enabled;
    if steps == [] {
    } else {
      RunKeepsOwnBooks(cfg, steps[..|steps| - 1]);
      var before, last := End(Initial(cfg), steps[..|steps| - 1]), steps[|steps| - 1];
      assert HasEdge(Gate(cfg), before, last);
      StepKeepsOwnBooks(cfg, before, last.act);
    }
  }

  /** A release moves books and memory alike: what the truncation hid stays hidden. */
  lemma ReleaseKeepsTheGap(cfg: Config, s: State, a: Action)
    requires !cfg.atomicLedger && OwnBooks(cfg, s) && Enabled(cfg, s, a) && Healing(a)
    ensures Charged(After(cfg, s, a)) - Occupied(After(cfg, s, a)) == Charged(s) - Occupied(s)
  {
    StepKeepsOwnBooks(cfg, s, a);
    TotalUpdate(s.ledger, a.p, 0);
    TotalUpdate(s.resident, a.p, 0);
  }

  lemma {:induction false} GapNeverHeals(cfg: Config, nodes: set<State>, s: State, steps: seq<Edge<Action, State>>)
    requires !cfg.atomicLedger && OwnBooks(cfg, s) && !Balanced(s)
    ensures !Heals(Gate(cfg), Healing, Balanced, nodes, s, steps)
    decreases |steps|
  {
    hide After, Enabled, OwnBooks, Total;
    if Heals(Gate(cfg), Healing, Balanced, nodes, s, steps) && steps != [] {
      var e := steps[0];
      OwnIsWellFormed(cfg, s);
      assert HasEdge(Gate(cfg), s, e);
      StepKeepsOwnBooks(cfg, s, e.act);
      ReleaseKeepsTheGap(cfg, s, e.act);
      GapNeverHeals(cfg, nodes, e.dst, steps[1..]);
    }
  }

  lemma OwnIsWellFormed(cfg: Config, s: State)
    requires OwnBooks(cfg, s)
    ensures WellFormed(cfg, s)
  {
  }

  /**
    Recovery with an in-place ledger, exactly: no prune is ever enabled, no
    release closes the gap, so a reachable state heals only if its books
    balance already, and that under either keying.
  */
  lemma InPlaceHealsExactly(cfg: Config, nodes: set<State>, s: State)
    requires !cfg.atomicLedger && Reachable(Gate(cfg), Initial(cfg), s)
    requires s in nodes && Closed(Gate(cfg), nodes)
    ensures WellFormed(cfg, s) && !Enabled(cfg, s, Prune) && forall p :: !StaleAt(s, p)
    ensures CanHeal(Gate(cfg), Healing, Balanced, nodes, s) <==> Balanced(s)
  {
    var steps :| WalkTo(Gate(cfg), Initial(cfg), steps, s);
    RunKeepsOwnBooks(cfg, steps);
    if Balanced(s) {
      assert Heals(Gate(cfg), Healing, Balanced, nodes, s, []);
    } else {
      forall h ensures !Heals(Gate(cfg), Healing, Balanced, nodes, s, h) {
        GapNeverHeals(cfg, nodes, s, h);
      }
    }
  }

  /** Acquire, crash, restart: the run that leaves a stale record beside a live process. */
  lemma StaleIsReachable(cfg: Config) returns (t: State, p: nat)
    requires cfg.atomicLedger && Acquirable(cfg) && Restartable(cfg)
    ensures Reachable(Gate(cfg), Initial(cfg), t) && Inv(cfg, t) && StaleAt(t, p)
  {
    p :| 0 <= p < |cfg.needs| && 0 < cfg.needs[p] <= cfg.capacity;
    var s := Initial(cfg);
    TotalZero(|cfg.needs|);
    var s1 := After(cfg, s, Acquire(p));
    var s2 := After(cfg, s1, Crash(p));
    t := After(cfg, s2, Restart(p));
    StartIsReachable(Gate(cfg), s);
    ReachNext(cfg, s, Acquire(p));
    ReachNext(cfg, s1, Crash(p));
    ReachNext(cfg, s2, Restart(p));
    ReachableInv(cfg, t);
  }

  /** The configurations in which some run gets stuck out of balance. */
  predicate Leaks(cfg: Config) {
    if cfg.atomicLedger then !cfg.identityKeyed && Restartable(cfg) && Acquirable(cfg) else !SafeConfig(cfg)
  }

  /**
    The whole checker on one configuration: explore, then ask which states can
    never rebalance.  It counts the reachable states, and its two verdicts are
    decided by the configuration alone.
  */
  method Report(cfg: Config) returns (states: nat, unsafe: bool, leaky: bool, ghost nodes: set<State>)
    requires cfg.maxGen.Some?
    ensures (forall t :: t in nodes <==> Reachable(Gate(cfg), Initial(cfg), t)) && states == |nodes|
    ensures leaky <==> exists t :: t in nodes && !CanHeal(Gate(cfg), Healing, Balanced, nodes, t)
    ensures unsafe <==> !SafeConfig(cfg)
    ensures leaky <==> Leaks(cfg)
  {
    UniverseIsClosed(cfg);
    var seen, order, edges, violation;
    ghost var dist;
    seen, order, edges, violation, dist := Explore(Initial(cfg), Gate(cfg), Check(cfg), Universe(cfg));
    SeenIsClosed(Gate(cfg), Initial(cfg), seen, dist, Universe(cfg));
    VerdictExactly(cfg, seen.Keys, order, violation);
    var stuck := CannotRebalance(order, Gate(cfg), Healing, Balanced);
    states, unsafe, leaky, nodes := |order|, violation.Some?, stuck != {}, seen.Keys;
    DistinctCount(order);
    LeakExactly(cfg, seen.Keys, stuck);
  }

  function Check(cfg: Config): State --> Option<Violation> {
    s requires WellFormed(cfg, s) => Invariants(cfg, s)
  }

  /** The search finds an offender exactly when the configuration is not a safe one. */
  lemma VerdictExactly(cfg: Config, nodes: set<State>, order: seq<State>, violation: Option<(Violation, State)>)
    requires nodes == Elements(order) && forall t | t in nodes :: WellFormed(cfg, t)
    requires forall t :: t in nodes <==> Reachable(Gate(cfg), Initial(cfg), t)
    requires FirstOffender(Check(cfg), order, violation)
    ensures violation.Some? <==> !SafeConfig(cfg)
  {
    SafetyExactly(cfg);
    if violation.Some? {
      var t := violation.value.1;
      assert t in nodes && Check(cfg)(t).Some?;
    } else {
      forall t | Reachable(Gate(cfg), Initial(cfg), t) ensures WellFormed(cfg, t) && Invariants(cfg, t) == None {
        assert t in order;
        assert Check(cfg).requires(t) && Check(cfg)(t).None?;
      }
    }
  }

  lemma LeakExactly(cfg: Config, nodes: set<State>, stuck: set<State>)
    requires forall t :: t in nodes <==> Reachable(Gate(cfg), Initial(cfg), t)
    requires Closed(Gate(cfg), nodes)
    requires forall t :: t in stuck <==> t in nodes && !CanHeal(Gate(cfg), Healing, Balanced, nodes, t)
    ensures stuck != {} <==> Leaks(cfg)
  {
    hide *;
    if t :| t in stuck {
      StuckLeaks(cfg, nodes, t);
    } else if Leaks(cfg) {
      var t := LeaksStick(cfg, nodes);
    }
  }

  lemma StuckLeaks(cfg: Config, nodes: set<State>, t: State)
    requires Reachable(Gate(cfg), Initial(cfg), t) && t in nodes && Closed(Gate(cfg), nodes)
    requires !CanHeal(Gate(cfg), Healing, Balanced, nodes, t)
    ensures Leaks(cfg)
  {
    hide CanHeal, Gate, Closed, Reachable, Total, Enabled;
    if cfg.atomicLedger {
      ReachableInv(cfg, t);
      HealableExactly(cfg, nodes, t);
      var p :| StaleAt(t, p);
      TotalAtLeast(t.ledger, p);
    } else {
      InPlaceHealsExactly(cfg, nodes, t);
      UnbalancedIsUnsafe(cfg, t);
    }
  }

  lemma UnbalancedIsUnsafe(cfg: Config, t: State)
    requires !cfg.atomicLedger && Reachable(Gate(cfg), Initial(cfg), t) && !Balanced(t)
    ensures !SafeConfig(cfg)
  {
    hide Inv, OwnBooks, Total, SafeConfig;
    if SafeConfig(cfg) {
      ReachableInv(cfg, t);
      var steps :| WalkTo(Gate(cfg), Initial(cfg), steps, t);
      RunKeepsOwnBooks(cfg, steps);
      OwnBooksBalance(cfg, t);
    }
  }

  lemma OwnBooksBalance(cfg: Config, t: State)
    requires Inv(cfg, t) && OwnBooks(cfg, t)
    ensures Balanced(t)
  {
    assert t.ledger == t.resident;
  }

  lemma LeaksStick(cfg: Config, nodes: set<State>) returns (t: State)
    requires Leaks(cfg) && Closed(Gate(cfg), nodes)
    requires forall t :: t in nodes <==> Reachable(Gate(cfg), Initial(cfg), t)
    ensures t in nodes && !CanHeal(Gate(cfg), Healing, Balanced, nodes, t)
  {
    hide CanHeal, Gate, Closed, Reachable, Total, Enabled, Inv;
    if cfg.atomicLedger {
      var p;
      t, p := StaleIsReachable(cfg);
      HealableExactly(cfg, nodes, t);
    } else {
      t := TruncationBreaksTheBooks(cfg);
      InPlaceHealsExactly(cfg, nodes, t);
    }
  }
}
