/**
  Which crates must be tested when some crates change: the declared
  dependencies turned around, and the closure over them.  A Python dict is
  modelled by the list of its items in insertion order.
*/
module Rdeps {
  import opened Wrappers

  /** A package, by its name; an undeclared dependency kind is the empty string. */
  datatype Crate = Crate(name: string)

  datatype Dependency = Dependency(name: Crate, kind: string, optional: bool)

  /** The kind printed for a dependent, and the crate it was reached through if it is not a direct one. */
  datatype Label = Label(kind: string, via: Option<Crate>)

  type Dependents = seq<(Crate, string)>
  type Reverse = map<Crate, Dependents>

  function Flags(d: Dependency): string {
    var kind := if d.kind == "" then "normal" else d.kind;
    if d.optional then kind + "+optional" else kind
  }

  predicate DistinctKeys(items: Dependents) {
    forall i, j | 0 <= i < j < |items| :: items[i].0 != items[j].0
  }

  /** Assign to a key of an insertion-ordered dict: an existing key keeps its place. */
  function Put(items: Dependents, key: Crate, value: string): (r: Dependents)
    requires DistinctKeys(items)
    ensures DistinctKeys(r)
    ensures forall k, v :: (k, v) in r <==> if k == key then v == value else (k, v) in items
  {
    if items == [] then [(key, value)]
    else if items[0].0 == key then
      assert forall i | 1 <= i < |items| :: items[i].0 != key;
      var r := [(key, value)] + items[1..];
      assert forall k, v :: (k, v) in items <==> (k, v) == items[0] || (k, v) in items[1..];
      r
    else
      var rest := Put(items[1..], key, value);
      assert forall k, v :: (k, v) in items <==> (k, v) == items[0] || (k, v) in items[1..];
      var r := [items[0]] + rest;
      assert forall i | 0 <= i < |rest| :: rest[i].0 != items[0].0 by {
        forall i | 0 <= i < |rest| ensures rest[i].0 != items[0].0 {
          var (k, v) := rest[i];
          assert (k, v) in rest;
        }
      }
      r
  }

  /** How the last declaration of crate `d` among `deps` reads, if there is one. */
  ghost function LastFlags(deps: seq<Dependency>, d: Crate): Option<string> {
    if deps == [] then None
    else if deps[|deps| - 1].name == d then Some(Flags(deps[|deps| - 1]))
    else LastFlags(deps[..|deps| - 1], d)
  }

  /** Package `name` declares crate `d`, and `kind` is how its last such declaration reads. */
  ghost predicate Declares(pkgs: seq<(Crate, seq<Dependency>)>, name: Crate, d: Crate, kind: string) {
    exists i :: 0 <= i < |pkgs| && pkgs[i].0 == name && LastFlags(pkgs[i].1, d) == Some(kind)
  }

  ghost predicate Turned(pkgs: seq<(Crate, seq<Dependency>)>, rev: Reverse) {
    && (forall d | d in rev :: DistinctKeys(rev[d]))
    && forall d, name, kind :: DependsBy(rev, d, name, kind) <==> Declares(pkgs, name, d, kind)
  }

  /** Turn the declared dependencies around: crate -> its dependents, each with how it depends. */
  method ReverseEdges(pkgs: seq<(Crate, seq<Dependency>)>) returns (rev: Reverse)
    requires forall i, j | 0 <= i < j < |pkgs| :: pkgs[i].0 != pkgs[j].0
    ensures forall d | d in rev :: DistinctKeys(rev[d])
    ensures forall d, name, kind :: DependsBy(rev, d, name, kind) <==> Declares(pkgs, name, d, kind)
  {
    hide Turned, Put, Declares, DependsBy, LastFlags, Flags;
    rev := map[];
    NothingTurned();
    var i := 0;
    while i < |pkgs|
      invariant i <= |pkgs| && Turned(pkgs[..i], rev)
    {
      var name, deps := pkgs[i].0, pkgs[i].1;
      var j := 0;
      assert deps[..0] == [];
      NewPackage(pkgs[..i], rev, name);
      while j < |deps|
        invariant j <= |deps| && Turned(pkgs[..i] + [(name, deps[..j])], rev)
      {
        var d := deps[j];
        var before := if d.name in rev then rev[d.name] else [];
        ghost var rev0 := rev;
        KeysStayDistinct(pkgs[..i] + [(name, deps[..j])], rev, d.name);
        rev := rev[d.name := Put(before, name, Flags(d))];
        OneMore(pkgs[..i], name, deps, j, rev0, rev);
        j := j + 1;
      }
      assert deps[..j] == deps;
      assert pkgs[..i] + [(name, deps)] == pkgs[..i + 1];
      i := i + 1;
    }
    assert pkgs[..i] == pkgs;
    TurnedReads(pkgs, rev);
  }

  lemma NothingTurned()
    ensures Turned([], map[])
  {
  }

  lemma KeysStayDistinct(pkgs: seq<(Crate, seq<Dependency>)>, rev: Reverse, d: Crate)
    requires Turned(pkgs, rev)
    ensures DistinctKeys(if d in rev then rev[d] else [])
  {
  }

  lemma TurnedReads(pkgs: seq<(Crate, seq<Dependency>)>, rev: Reverse)
    requires Turned(pkgs, rev)
    ensures forall d | d in rev :: DistinctKeys(rev[d])
    ensures forall d, name, kind :: DependsBy(rev, d, name, kind) <==> Declares(pkgs, name, d, kind)
  {
  }

  /** A package's own list says how it depends on a crate. */
  lemma OwnDeclarations(pkgs: seq<(Crate, seq<Dependency>)>, name: Crate, deps: seq<Dependency>, n: Crate, d: Crate, kind: string)
    requires forall i | 0 <= i < |pkgs| :: pkgs[i].0 != name
    ensures Declares(pkgs + [(name, deps)], n, d, kind) <==>
      if n == name then LastFlags(deps, d) == Some(kind) else Declares(pkgs, n, d, kind)
  {
    var all := pkgs + [(name, deps)];
    assert all[|pkgs|] == (name, deps);
    if i :| 0 <= i < |pkgs| && pkgs[i].0 == n && LastFlags(pkgs[i].1, d) == Some(kind) {
      assert all[i] == pkgs[i];
    }
    if i :| 0 <= i < |all| && all[i].0 == n && LastFlags(all[i].1, d) == Some(kind) {
      if i < |pkgs| { assert all[i] == pkgs[i]; }
    }
  }

  lemma NewPackage(pkgs: seq<(Crate, seq<Dependency>)>, rev: Reverse, name: Crate)
    requires Turned(pkgs, rev) && forall i | 0 <= i < |pkgs| :: pkgs[i].0 != name
    ensures Turned(pkgs + [(name, [])], rev)
  {
    forall d, n, kind ensures DependsBy(rev, d, n, kind) <==> Declares(pkgs + [(name, [])], n, d, kind) {
      OwnDeclarations(pkgs, name, [], n, d, kind);
      assert DependsBy(rev, d, n, kind) <==> Declares(pkgs, n, d, kind);
    }
  }

  /** Recording the declaration `deps[j]` of `name` accounts for exactly that declaration. */
  lemma OneMore(pkgs: seq<(Crate, seq<Dependency>)>, name: Crate, deps: seq<Dependency>, j: nat, rev0: Reverse, rev: Reverse)
    requires j < |deps| && forall i | 0 <= i < |pkgs| :: pkgs[i].0 != name
    requires Turned(pkgs + [(name, deps[..j])], rev0)
    requires rev == rev0[deps[j].name := Put(if deps[j].name in rev0 then rev0[deps[j].name] else [], name, Flags(deps[j]))]
    ensures Turned(pkgs + [(name, deps[..j + 1])], rev)
  {
    assert deps[..j + 1][..j] == deps[..j];
    forall d, n, kind ensures DependsBy(rev, d, n, kind) <==> Declares(pkgs + [(name, deps[..j + 1])], n, d, kind) {
      assert DependsBy(rev0, d, n, kind) <==> Declares(pkgs + [(name, deps[..j])], n, d, kind);
      OwnDeclarations(pkgs, name, deps[..j], n, d, kind);
      OwnDeclarations(pkgs, name, deps[..j + 1], n, d, kind);
      hide Declares, Put;
    }
  }

  // ---- the closure

  ghost predicate DependsBy(rev: Reverse, t: Crate, d: Crate, kind: string) {
    t in rev && (d, kind) in rev[t]
  }

  /** The declared dependents of one crate. */
  ghost function DependentsOf(rev: Reverse, t: Crate): set<Crate> {
    Firsts(if t in rev then rev[t] else [])
  }

  ghost function Firsts(items: Dependents): set<Crate> { set x | x in items :: x.0 }

  ghost predicate DependsOn(rev: Reverse, t: Crate, d: Crate) {
    d in DependentsOf(rev, t)
  }

  /** A chain of dependents that starts at a changed crate. */
  ghost predicate Chain(rev: Reverse, targets: set<Crate>, c: seq<Crate>) {
    && c != [] && c[0] in targets
    && forall i | 0 <= i < |c| - 1 :: DependsOn(rev, c[i], c[i + 1])
  }

  ghost predicate ChainTo(rev: Reverse, targets: set<Crate>, c: seq<Crate>, d: Crate) {
    Chain(rev, targets, c) && c[|c| - 1] == d
  }

  /** Everything within `k` links of the targets. */
  ghost function Ball(rev: Reverse, targets: set<Crate>, k: nat): set<Crate> {
    if k == 0 then targets else Ball(rev, targets, k - 1) + Neighbours(rev, Ball(rev, targets, k - 1))
  }

  ghost function Neighbours(rev: Reverse, s: set<Crate>): set<Crate> {
    set t, d | t in s && d in DependentsOf(rev, t) :: d
  }

  lemma {:induction false} ChainsStayInBalls(rev: Reverse, targets: set<Crate>, c: seq<Crate>, k: nat)
    requires Chain(rev, targets, c) && |c| <= k + 1
    ensures c[|c| - 1] in Ball(rev, targets, k)
  {
    if k == 0 {
    } else if |c| <= k {
      ChainsStayInBalls(rev, targets, c, k - 1);
    } else {
      ChainsStayInBalls(rev, targets, c[..|c| - 1], k - 1);
      assert DependsOn(rev, c[|c| - 2], c[|c| - 1]);
    }
  }

  lemma {:induction false} BallsHaveChains(rev: Reverse, targets: set<Crate>, d: Crate, k: nat) returns (c: seq<Crate>)
    requires d in Ball(rev, targets, k)
    ensures ChainTo(rev, targets, c, d) && |c| <= k + 1
    decreases k
  {
    if k == 0 || d in Ball(rev, targets, k - 1) {
      if k == 0 { c := [d]; } else { c := BallsHaveChains(rev, targets, d, k - 1); }
    } else {
      var t :| t in Ball(rev, targets, k - 1) && d in DependentsOf(rev, t);
      c := BallsHaveChains(rev, targets, t, k - 1);
      c := c + [d];
    }
  }

  /** `tag` tells truly how `d` was reached: directly, or through a crate next to last on a shortest chain. */
  ghost predicate LabelTells(rev: Reverse, targets: set<Crate>, d: Crate, tag: Label) {
    match tag.via
    case None => exists t :: t in targets && DependsBy(rev, t, d, tag.kind)
    case Some(t) =>
      && DependsBy(rev, t, d, tag.kind)
      && exists c ::
        && ChainTo(rev, targets, c, t)
        && forall c' | ChainTo(rev, targets, c', d) :: |c| + 1 <= |c'|
  }

  ghost predicate Reached(rev: Reverse, targets: set<Crate>, direct: bool, d: Crate) {
    exists c :: ChainTo(rev, targets, c, d) && |c| >= 2 && (direct ==> |c| == 2)
  }

  ghost function Elements<T>(s: seq<T>): set<T> { set x | x in s }

  /** The labels `out` has beyond `out0` were given while expanding `frontier` at `depth`. */
  ghost predicate NewLabels(
      rev: Reverse, frontier: set<Crate>, depth: nat, out0: map<Crate, Label>, out: map<Crate, Label>)
  {
    && (forall d | d in out0 :: d in out && out[d] == out0[d])
    && forall d | d in out && d !in out0 :: FromFrontier(rev, frontier, depth, d, out[d])
  }

  /** How a crate first met while expanding the frontier at `depth` is labelled. */
  ghost predicate FromFrontier(rev: Reverse, frontier: set<Crate>, depth: nat, d: Crate, tag: Label) {
    exists t :: t in frontier && DependsBy(rev, t, d, tag.kind) && tag.via == if depth == 0 then None else Some(t)
  }

  lemma OneNeighbour(rev: Reverse, t: Crate)
    ensures Neighbours(rev, {t}) == DependentsOf(rev, t)
  {
  }

  lemma LabelOne(rev: Reverse, t: Crate, depth: nat, out0: map<Crate, Label>, out: map<Crate, Label>, d: Crate, kind: string)
    requires NewLabels(rev, {t}, depth, out0, out) && d !in out && DependsBy(rev, t, d, kind)
    ensures NewLabels(rev, {t}, depth, out0, out[d := Label(kind, if depth == 0 then None else Some(t))])
  {
  }

  /** Visit every dependent of the frontier crate `t`, recording the first label and queueing what is new. */
  method Visit(rev: Reverse, t: Crate, depth: nat, out0: map<Crate, Label>, seen0: set<Crate>, nxt0: seq<Crate>)
      returns (out: map<Crate, Label>, seen: set<Crate>, nxt: seq<Crate>)
    ensures out.Keys == out0.Keys + Neighbours(rev, {t})
    ensures NewLabels(rev, {t}, depth, out0, out)
    ensures seen == seen0 + Neighbours(rev, {t})
    ensures Elements(nxt) == Elements(nxt0) + (seen - seen0)
  {
    hide FromFrontier, Neighbours;
    OneNeighbour(rev, t);
    out, seen, nxt := out0, seen0, nxt0;
    var items := if t in rev then rev[t] else [];
    ghost var met := {};
    var i := 0;
    while i < |items|
      invariant i <= |items| && met == Firsts(items[..i])
      invariant out.Keys == out0.Keys + met && seen == seen0 + met
      invariant NewLabels(rev, {t}, depth, out0, out)
      invariant Elements(nxt) == Elements(nxt0) + (seen - seen0)
    {
      var (dep, kind) := items[i];
      assert DependsBy(rev, t, dep, kind);
      assert items[..i + 1] == items[..i] + [(dep, kind)];
      if dep !in out {
        LabelOne(rev, t, depth, out0, out, dep, kind);
        out := out[dep := Label(kind, if depth == 0 then None else Some(t))];
      }
      if dep !in seen {
        seen := seen + {dep};
        assert Elements(nxt + [dep]) == Elements(nxt) + {dep};
        nxt := nxt + [dep];
      }
      met := met + {dep};
      i := i + 1;
    }
    assert items[..i] == items;
  }

  lemma {:induction false} ClosedBallHoldsAllChains(rev: Reverse, targets: set<Crate>, s: set<Crate>, c: seq<Crate>)
    requires targets <= s && Neighbours(rev, s) <= s && Chain(rev, targets, c)
    ensures c[|c| - 1] in s
  {
    if |c| == 1 {
    } else {
      ClosedBallHoldsAllChains(rev, targets, s, c[..|c| - 1]);
      assert DependsOn(rev, c[|c| - 2], c[|c| - 1]);
    }
  }

  /** A crate is reached exactly when it depends on a member of the stable ball, or of the targets if only one link counts. */
  lemma ReachedExactly(rev: Reverse, targets: set<Crate>, direct: bool, k: nat, d: Crate)
    requires if direct then k == 0 else Neighbours(rev, Ball(rev, targets, k)) <= Ball(rev, targets, k)
    ensures Reached(rev, targets, direct, d) <==> d in Neighbours(rev, Ball(rev, targets, k))
  {
    hide Ball, Neighbours, Chain, DependsOn;
    if Reached(rev, targets, direct, d) {
      var c :| ChainTo(rev, targets, c, d) && |c| >= 2 && (direct ==> |c| == 2);
      ReachedDepends(rev, targets, direct, k, d, c);
    }
    if d in Neighbours(rev, Ball(rev, targets, k)) {
      DependsReached(rev, targets, direct, k, d);
    }
  }

  lemma ReachedDepends(rev: Reverse, targets: set<Crate>, direct: bool, k: nat, d: Crate, c: seq<Crate>)
    requires if direct then k == 0 else Neighbours(rev, Ball(rev, targets, k)) <= Ball(rev, targets, k)
    requires ChainTo(rev, targets, c, d) && |c| >= 2 && (direct ==> |c| == 2)
    ensures d in Neighbours(rev, Ball(rev, targets, k))
  {
    var init := c[..|c| - 1];
    assert DependsOn(rev, init[|init| - 1], c[|c| - 1]);
    if !direct {
      BallsGrow(rev, targets, k);
      ClosedBallHoldsAllChains(rev, targets, Ball(rev, targets, k), init);
    }
  }

  lemma DependsReached(rev: Reverse, targets: set<Crate>, direct: bool, k: nat, d: Crate)
    requires d in Neighbours(rev, Ball(rev, targets, k)) && (direct ==> k == 0)
    ensures Reached(rev, targets, direct, d)
  {
    var t :| t in Ball(rev, targets, k) && d in DependentsOf(rev, t);
    var c := BallsHaveChains(rev, targets, t, k);
    assert ChainTo(rev, targets, c + [d], d);
  }

  lemma {:induction false} BallsGrow(rev: Reverse, targets: set<Crate>, k: nat)
    ensures targets <= Ball(rev, targets, k)
    ensures Ball(rev, targets, k) <= targets + Neighbours(rev, rev.Keys)
  {
    if k == 0 {
    } else {
      BallsGrow(rev, targets, k - 1);
    }
  }

  /** The labels given so far: they tell truly, and only direct dependents go without a "via". */
  ghost predicate Labelled(rev: Reverse, targets: set<Crate>, out: map<Crate, Label>) {
    forall d | d in out && d !in targets ::
      LabelTells(rev, targets, d, out[d]) && (out[d].via.None? <==> d in Neighbours(rev, targets))
  }

  lemma NoShorterChain(rev: Reverse, targets: set<Crate>, depth: nat, c: seq<Crate>, d: Crate)
    requires depth > 0 && d !in targets && d !in Neighbours(rev, Ball(rev, targets, depth - 1))
    requires ChainTo(rev, targets, c, d)
    ensures |c| >= depth + 2
  {
    var init := c[..|c| - 1];
    assert DependsOn(rev, init[|init| - 1], c[|c| - 1]);
    if |init| <= depth {
      ChainsStayInBalls(rev, targets, init, depth - 1);
    }
  }

  /** A label given at `depth` to a crate not met before tells truly. */
  lemma FrontierLabelTells(rev: Reverse, targets: set<Crate>, frontier: set<Crate>, depth: nat, d: Crate, tag: Label)
    requires depth == 0 ==> frontier == targets
    requires depth > 0 ==> frontier <= Ball(rev, targets, depth)
    requires depth > 0 ==> d !in Neighbours(rev, Ball(rev, targets, depth - 1))
    requires d !in targets && FromFrontier(rev, frontier, depth, d, tag)
    ensures LabelTells(rev, targets, d, tag)
    ensures tag.via.None? <==> d in Neighbours(rev, targets)
  {
    var t :| t in frontier && DependsBy(rev, t, d, tag.kind) && tag.via == if depth == 0 then None else Some(t);
    assert d in DependentsOf(rev, t);
    hide DependsOn, DependentsOf;
    if depth > 0 {
      hide Neighbours, Ball;
      NeighboursGrow(rev, targets, depth - 1, d);
      ShortestThrough(rev, targets, depth, t, d);
    }
  }

  lemma NeighboursGrow(rev: Reverse, targets: set<Crate>, k: nat, d: Crate)
    ensures d in Neighbours(rev, targets) ==> d in Neighbours(rev, Ball(rev, targets, k))
  {
    BallsGrow(rev, targets, k);
  }

  /** A crate on the rim of a ball is the last stop before a crate outside it on a shortest chain. */
  lemma ShortestThrough(rev: Reverse, targets: set<Crate>, depth: nat, t: Crate, d: Crate)
    requires depth > 0 && t in Ball(rev, targets, depth) && d !in targets && d !in Neighbours(rev, Ball(rev, targets, depth - 1))
    ensures exists c :: ChainTo(rev, targets, c, t) && forall c' | ChainTo(rev, targets, c', d) :: |c| + 1 <= |c'|
  {
    hide Neighbours, Ball, ChainTo;
    var c := BallsHaveChains(rev, targets, t, depth);
    forall c' | ChainTo(rev, targets, c', d) ensures |c| + 1 <= |c'| {
      NoShorterChain(rev, targets, depth, c', d);
    }
  }

  lemma LabelsExtend(
      rev: Reverse, targets: set<Crate>, frontier: set<Crate>, depth: nat, out0: map<Crate, Label>, out: map<Crate, Label>)
    requires depth == 0 ==> frontier == targets && out0 == map[]
    requires depth > 0 ==> frontier <= Ball(rev, targets, depth)
    requires depth > 0 ==> out0.Keys == Neighbours(rev, Ball(rev, targets, depth - 1))
    requires Labelled(rev, targets, out0)
    requires NewLabels(rev, frontier, depth, out0, out)
    ensures Labelled(rev, targets, out)
  {
    forall d | d in out && d !in targets
      ensures LabelTells(rev, targets, d, out[d]) && (out[d].via.None? <==> d in Neighbours(rev, targets))
    {
      if d !in out0 {
        FrontierLabelTells(rev, targets, frontier, depth, d, out[d]);
      }
    }
  }

  lemma NeighboursOfUnion(rev: Reverse, s: set<Crate>, t: set<Crate>)
    ensures Neighbours(rev, s + t) == Neighbours(rev, s) + Neighbours(rev, t)
  {
  }

  lemma NewLabelsAdd(
      rev: Reverse, frontier: set<Crate>, t: Crate, depth: nat,
      out0: map<Crate, Label>, out1: map<Crate, Label>, out: map<Crate, Label>)
    requires t in frontier && NewLabels(rev, frontier, depth, out0, out1) && NewLabels(rev, {t}, depth, out1, out)
    ensures NewLabels(rev, frontier, depth, out0, out)
  {
    forall d | d in out && d !in out0 ensures FromFrontier(rev, frontier, depth, d, out[d]) {
      assert d in out1 || FromFrontier(rev, {t}, depth, d, out[d]);
    }
  }

  /** One level of the search: expand the whole frontier. */
  method Level(rev: Reverse, frontier: seq<Crate>, depth: nat, out0: map<Crate, Label>, seen0: set<Crate>)
      returns (out: map<Crate, Label>, seen: set<Crate>, nxt: seq<Crate>)
    ensures out.Keys == out0.Keys + Neighbours(rev, Elements(frontier))
    ensures seen == seen0 + Neighbours(rev, Elements(frontier))
    ensures Elements(nxt) == seen - seen0
    ensures nxt != [] ==> nxt[0] in seen && nxt[0] !in seen0
    ensures NewLabels(rev, Elements(frontier), depth, out0, out)
  {
    hide FromFrontier, DependsOn, DependentsOf, NewLabels, Neighbours;
    out, seen, nxt := out0, seen0, [];
    ghost var done := {};
    NoLabels(rev, Elements(frontier), depth, out);
    NoNeighbours(rev);
    var i := 0;
    while i < |frontier|
      invariant i <= |frontier| && done == Elements(frontier[..i])
      invariant out.Keys == out0.Keys + Neighbours(rev, done)
      invariant seen == seen0 + Neighbours(rev, done)
      invariant Elements(nxt) == seen - seen0
      invariant NewLabels(rev, Elements(frontier), depth, out0, out)
    {
      ghost var out1 := out;
      out, seen, nxt := Visit(rev, frontier[i], depth, out, seen, nxt);
      NewLabelsAdd(rev, Elements(frontier), frontier[i], depth, out0, out1, out);
      NeighboursOfUnion(rev, done, {frontier[i]});
      ElementsNext(frontier, i);
      done := done + {frontier[i]};
      i := i + 1;
    }
    assert frontier[..i] == frontier;
    assert nxt != [] ==> nxt[0] in Elements(nxt);
  }

  lemma NoLabels(rev: Reverse, frontier: set<Crate>, depth: nat, out: map<Crate, Label>)
    ensures NewLabels(rev, frontier, depth, out, out)
  {
  }

  lemma NoNeighbours(rev: Reverse)
    ensures Neighbours(rev, {}) == {}
  {
  }

  lemma ElementsNext<T>(s: seq<T>, i: nat)
    requires i < |s|
    ensures Elements(s[..i + 1]) == Elements(s[..i]) + {s[i]}
  {
    assert s[..i + 1] == s[..i] + [s[i]];
  }

  /** What holds before each level: the ball is explored up to its rim, which is the frontier. */
  ghost predicate Searching(
      rev: Reverse, targets: seq<Crate>, depth: nat, frontier: seq<Crate>, seen: set<Crate>, out: map<Crate, Label>)
  {
    var tset := Elements(targets);
    && seen == Ball(rev, tset, depth)
    && Labelled(rev, tset, out)
    && if depth == 0 then frontier == targets && out == map[] else
         && Elements(frontier) == seen - Ball(rev, tset, depth - 1)
         && out.Keys == Neighbours(rev, Ball(rev, tset, depth - 1))
  }

  lemma LevelKeeps(
      rev: Reverse, targets: seq<Crate>, depth: nat,
      frontier0: seq<Crate>, seen0: set<Crate>, out0: map<Crate, Label>,
      frontier: seq<Crate>, seen: set<Crate>, out: map<Crate, Label>)
    requires Searching(rev, targets, depth, frontier0, seen0, out0)
    requires out.Keys == out0.Keys + Neighbours(rev, Elements(frontier0))
    requires seen == seen0 + Neighbours(rev, Elements(frontier0))
    requires Elements(frontier) == seen - seen0
    requires NewLabels(rev, Elements(frontier0), depth, out0, out)
    ensures Searching(rev, targets, depth + 1, frontier, seen, out)
    ensures seen <= Elements(targets) + Neighbours(rev, rev.Keys)
  {
    var tset := Elements(targets);
    hide Neighbours, Labelled, NewLabels, Elements;
    BallStep(rev, tset, depth, Elements(frontier0));
    BallsGrow(rev, tset, depth + 1);
    LabelsExtend(rev, tset, Elements(frontier0), depth, out0, out);
    if depth == 0 {
      NoNeighbours(rev);
    }
  }

  /** One step further out: only the rim has neighbours that are not already inside. */
  lemma BallStep(rev: Reverse, targets: set<Crate>, depth: nat, rim: set<Crate>)
    requires rim == if depth == 0 then targets else Ball(rev, targets, depth) - Ball(rev, targets, depth - 1)
    ensures Ball(rev, targets, depth) + Neighbours(rev, rim) == Ball(rev, targets, depth + 1)
    ensures (if depth == 0 then {} else Neighbours(rev, Ball(rev, targets, depth - 1))) + Neighbours(rev, rim) ==
      Neighbours(rev, Ball(rev, targets, depth))
  {
    hide Neighbours;
    if depth > 0 {
      var ball := Ball(rev, targets, depth - 1);
      NeighboursOfUnion(rev, ball, rim);
      assert ball + rim == Ball(rev, targets, depth);
    }
  }

  /**
    The crates to test besides the changed ones: everything that depends on a
    target through one link or more, or exactly one if only `direct` dependents
    are asked for.  A dependent is labelled without a "via" exactly when it is
    a direct one.
  */
  method Closure(targets: seq<Crate>, rev: Reverse, direct: bool) returns (out: map<Crate, Label>)
    ensures forall d :: d in out <==> d !in targets && Reached(rev, Elements(targets), direct, d)
    ensures forall d | d in out :: LabelTells(rev, Elements(targets), d, out[d])
    ensures forall d | d in out :: out[d].via.None? <==> exists t :: t in targets && DependsOn(rev, t, d)
  {
    hide Searching, LabelTells, NewLabels, Reached, Neighbours, DependsOn, Elements, Labelled, Ball;
    out := map[];
    var frontier := targets;
    var seen := set t | t in targets;
    var depth := 0;
    SearchStarts(rev, targets, seen);
    while frontier != []
      invariant Searching(rev, targets, depth, frontier, seen, out)
      invariant direct ==> depth == 0
      decreases Elements(targets) + Neighbours(rev, rev.Keys) - seen, |frontier|
    {
      var out1, seen1, nxt := Level(rev, frontier, depth, out, seen);
      LevelKeeps(rev, targets, depth, frontier, seen, out, nxt, seen1, out1);
      out, seen, frontier := out1, seen1, nxt;
      depth := depth + 1;
      if direct { break; }
    }
    Finished(rev, targets, direct, depth, seen, frontier, out);
    out := Without(targets, out);
  }

  lemma SearchStarts(rev: Reverse, targets: seq<Crate>, seen: set<Crate>)
    requires seen == set t | t in targets
    ensures Searching(rev, targets, 0, targets, seen, map[])
  {
  }

  /** When the search stops, everything reached has been recorded, and nothing else. */
  lemma Finished(rev: Reverse, targets: seq<Crate>, direct: bool, depth: nat, seen: set<Crate>, frontier: seq<Crate>, out: map<Crate, Label>)
    requires Searching(rev, targets, depth, frontier, seen, out)
    requires if direct then depth == 1 || (depth == 0 && frontier == []) else frontier == []
    ensures forall d :: d in out <==> Reached(rev, Elements(targets), direct, d)
    ensures forall d | d in out && d !in targets ::
      LabelTells(rev, Elements(targets), d, out[d]) &&
      (out[d].via.None? <==> exists t :: t in targets && DependsOn(rev, t, d))
  {
    var tset, last := Elements(targets), if depth == 0 then 0 else depth - 1;
    if depth == 0 {
      assert tset == {} && Neighbours(rev, tset) == {};
    } else if !direct {
      assert Elements(frontier) == {};
      assert seen - Ball(rev, tset, last) == {};
      assert Ball(rev, tset, depth) == Ball(rev, tset, last) + Neighbours(rev, Ball(rev, tset, last));
      forall x | x in seen ensures x in Ball(rev, tset, last) { assert x !in seen - Ball(rev, tset, last); }
    }
    forall d ensures d in out.Keys <==> Reached(rev, tset, direct, d) {
      ReachedExactly(rev, tset, direct, last, d);
    }
  }

  /** The changed crates themselves are not listed. */
  method Without(targets: seq<Crate>, out0: map<Crate, Label>) returns (out: map<Crate, Label>)
    ensures forall d :: d in out <==> d in out0 && d !in targets
    ensures forall d | d in out :: out[d] == out0[d]
  {
    out := out0;
    var i := 0;
    while i < |targets|
      invariant i <= |targets|
      invariant forall d :: d in out <==> d in out0 && d !in targets[..i]
      invariant forall d | d in out :: out[d] == out0[d]
    {
      out := out - {targets[i]};
      i := i + 1;
    }
    assert targets[..i] == targets;
  }
}
