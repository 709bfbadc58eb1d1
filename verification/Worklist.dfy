/**
  The breadth-first explorer, the parent-chain trace and the backwards
  "who can still get home" search of the HostGate checker, over an arbitrary
  finite labelled graph.  The graph is given by its successor function; `nodes`
  is a finite ghost set that is closed under it.
*/
module Worklist {
  import opened Wrappers

  /** An outgoing edge: a label and the state it leads to. */
  datatype Edge<L, T> = Edge(act: L, dst: T)

  /** How a state was first reached: from which state, along which edge. */
  datatype Via<T, L> = Root | From(parent: T, act: L)

  type Graph<!T, L> = T --> seq<Edge<L, T>>

  ghost predicate HasEdge<T, L>(succ: Graph<T, L>, x: T, e: Edge<L, T>) {
    succ.requires(x) && e in succ(x)
  }

  ghost predicate Closed<T, L>(succ: Graph<T, L>, nodes: set<T>) {
    forall x | x in nodes :: succ.requires(x) && forall e | e in succ(x) :: e.dst in nodes
  }

  /** The state a list of steps ends in. */
  ghost function End<T, L>(start: T, steps: seq<Edge<L, T>>): T {
    if steps == [] then start else steps[|steps| - 1].dst
  }

  /** `steps` is a walk along edges of the graph, from `start` on. */
  ghost predicate Walk<T, L>(succ: Graph<T, L>, start: T, steps: seq<Edge<L, T>>) {
    steps == [] ||
    var init := steps[..|steps| - 1];
    Walk(succ, start, init) && HasEdge(succ, End(start, init), steps[|steps| - 1])
  }

  ghost predicate WalkTo<T, L>(succ: Graph<T, L>, start: T, steps: seq<Edge<L, T>>, t: T) {
    Walk(succ, start, steps) && End(start, steps) == t
  }

  ghost predicate Reachable<T(!new), L(!new)>(succ: Graph<T, L>, start: T, t: T) {
    exists steps :: WalkTo(succ, start, steps, t)
  }

  lemma StartIsReachable<T(!new), L(!new)>(succ: Graph<T, L>, start: T)
    ensures Reachable(succ, start, start)
  {
    assert WalkTo(succ, start, [], start);
  }

  lemma ReachOn<T(!new), L(!new)>(succ: Graph<T, L>, start: T, t: T, e: Edge<L, T>)
    requires Reachable(succ, start, t) && HasEdge(succ, t, e)
    ensures Reachable(succ, start, e.dst)
  {
    var steps :| WalkTo(succ, start, steps, t);
    assert (steps + [e])[..|steps|] == steps;
    assert WalkTo(succ, start, steps + [e], e.dst);
  }

  /** `t` hangs one level below the parent recorded for it. */
  ghost predicate HangsBelow<T, L>(succ: Graph<T, L>, seen: map<T, Via<T, L>>, dist: map<T, nat>, t: T)
    requires dist.Keys == seen.Keys && t in seen
  {
    && seen[t].From?
    && seen[t].parent in seen
    && HasEdge(succ, seen[t].parent, Edge(seen[t].act, t))
    && dist[t] == dist[seen[t].parent] + 1
  }

  ghost predicate Hanging<T, L>(succ: Graph<T, L>, start: T, seen: map<T, Via<T, L>>, dist: map<T, nat>)
    requires dist.Keys == seen.Keys
  {
    forall t {:trigger HangsBelow(succ, seen, dist, t)} | t in seen && t != start :: HangsBelow(succ, seen, dist, t)
  }

  /**
    `dist` labels the explored states with their breadth-first depth: every
    state but the root hangs one level below the parent `seen` records for it,
    and no edge descends by more than one level.
  */
  ghost predicate BfsTree<T(!new), L(!new)>(succ: Graph<T, L>, start: T, seen: map<T, Via<T, L>>, dist: map<T, nat>) {
    && dist.Keys == seen.Keys
    && start in seen && seen[start].Root? && dist[start] == 0
    && Hanging(succ, start, seen, dist)
    && (forall x, e | x in seen && HasEdge(succ, x, e) :: e.dst in seen && dist[e.dst] <= dist[x] + 1)
  }

  /** In a finished tree every walk stays inside, and is at least as long as the depth it reaches. */
  lemma {:induction false} WalksAreNoShorter<T(!new), L(!new)>(
      succ: Graph<T, L>, start: T, seen: map<T, Via<T, L>>, dist: map<T, nat>, steps: seq<Edge<L, T>>)
    requires BfsTree(succ, start, seen, dist)
    requires Walk(succ, start, steps)
    ensures End(start, steps) in seen
    ensures dist[End(start, steps)] <= |steps|
    decreases |steps|
  {
    if steps == [] {
    } else {
      WalksAreNoShorter(succ, start, seen, dist, steps[..|steps| - 1]);
    }
  }

  /** The chain of parents of an explored state, read forwards. */
  ghost function Chain<T(!new), L(!new)>(succ: Graph<T, L>, start: T, seen: map<T, Via<T, L>>, dist: map<T, nat>, t: T): (steps: seq<Edge<L, T>>)
    requires BfsTree(succ, start, seen, dist) && t in seen
    ensures WalkTo(succ, start, steps, t) && |steps| == dist[t]
    decreases dist[t]
  {
    if t == start then [] else
      assert HangsBelow(succ, seen, dist, t);
      var before := Chain(succ, start, seen, dist, seen[t].parent);
      var steps := before + [Edge(seen[t].act, t)];
      assert steps[..|steps| - 1] == before;
      steps
  }

  ghost function EdgeCount<T, L>(succ: Graph<T, L>, order: seq<T>): nat
    requires forall x | x in order :: succ.requires(x)
  {
    if order == [] then 0 else EdgeCount(succ, order[..|order| - 1]) + |succ(order[|order| - 1])|
  }

  ghost function Elements<T>(s: seq<T>): set<T> {
    set x | x in s
  }

  ghost predicate Distinct<T>(s: seq<T>) {
    forall i, j | 0 <= i < j < |s| :: s[i] != s[j]
  }

  lemma {:induction false} DistinctCount<T>(s: seq<T>)
    requires Distinct(s)
    ensures |Elements(s)| == |s|
  {
    if s != [] {
      var n := |s| - 1;
      DistinctCount(s[..n]);
      assert Elements(s) == Elements(s[..n]) + {s[n]};
      assert s[n] !in s[..n];
    }
  }

  ghost predicate WithinLevel<T>(dist: map<T, nat>, level: nat) {
    forall t | t in dist :: dist[t] <= level
  }

  /** What holds of the search at every moment: a partial tree, listed level by level. */
  ghost predicate Growing<T, L>(succ: Graph<T, L>, start: T, seen: map<T, Via<T, L>>, order: seq<T>, dist: map<T, nat>) {
    && dist.Keys == seen.Keys
    && start in seen && seen[start].Root? && dist[start] == 0
    && Hanging(succ, start, seen, dist)
    && Distinct(order) && Elements(order) == seen.Keys
    && forall i, j | 0 <= i < j < |order| :: dist[order[i]] <= dist[order[j]]
  }

  /** The first `n` edges out of `x` have been followed. */
  ghost predicate Expanded<T, L>(succ: Graph<T, L>, seen: map<T, Via<T, L>>, dist: map<T, nat>, x: T, n: nat)
    requires dist.Keys == seen.Keys
  {
    && succ.requires(x) && x in seen && n <= |succ(x)|
    && forall j | 0 <= j < n :: succ(x)[j].dst in seen && dist[succ(x)[j].dst] <= dist[x] + 1
  }

  /** Hanging a new state below `s` keeps the partial tree, provided `s` is on the last or last but one level. */
  lemma GrowByOne<T, L>(
      succ: Graph<T, L>, start: T, seen: map<T, Via<T, L>>, order: seq<T>, dist: map<T, nat>, s: T, e: Edge<L, T>)
    requires Growing(succ, start, seen, order, dist) && s in seen && e.dst !in seen
    requires HasEdge(succ, s, e)
    requires WithinLevel(dist, dist[s] + 1)
    ensures Growing(succ, start, seen[e.dst := From(s, e.act)], order + [e.dst], dist[e.dst := dist[s] + 1])
    ensures WithinLevel(dist[e.dst := dist[s] + 1], dist[s] + 1)
    ensures Deepens(seen, dist, seen[e.dst := From(s, e.act)], dist[e.dst := dist[s] + 1])
  {
    assert e == Edge(e.act, e.dst);
    var order', seen', dist' := order + [e.dst], seen[e.dst := From(s, e.act)], dist[e.dst := dist[s] + 1];
    forall t | t in seen' && t != start ensures HangsBelow(succ, seen', dist', t) {
      assert t in seen ==> HangsBelow(succ, seen, dist, t);
    }
    assert forall i | 0 <= i < |order| :: order'[i] in seen;
  }

  /** The inner loop of the search: follow every edge out of `s`, queueing what is new. */
  method Expand<T(==, !new), L(==, !new)>(
      succ: Graph<T, L>, ghost start: T, ghost nodes: set<T>, s: T,
      seen0: map<T, Via<T, L>>, order0: seq<T>, q0: seq<T>, edges0: nat, ghost dist0: map<T, nat>)
      returns (seen: map<T, Via<T, L>>, order: seq<T>, q: seq<T>, edges: nat, ghost dist: map<T, nat>, ghost found: seq<T>)
    requires Closed(succ, nodes) && seen0.Keys <= nodes
    requires Growing(succ, start, seen0, order0, dist0) && s in seen0
    requires WithinLevel(dist0, dist0[s] + 1)
    ensures Growing(succ, start, seen, order, dist) && seen.Keys <= nodes
    ensures order == order0 + found && q == q0 + found
    ensures Deepens(seen0, dist0, seen, dist)
    ensures WithinLevel(dist, dist[s] + 1)
    ensures Expanded(succ, seen, dist, s, |succ(s)|)
    ensures edges == edges0 + |succ(s)|
  {
    seen, order, q, edges, dist, found := seen0, order0, q0, edges0, dist0, [];
    var out := succ(s);
    var i := 0;
    while i < |out|
      invariant i <= |out|
      invariant Growing(succ, start, seen, order, dist) && seen.Keys <= nodes
      invariant order == order0 + found && q == q0 + found
      invariant Deepens(seen0, dist0, seen, dist)
      invariant WithinLevel(dist, dist[s] + 1)
      invariant Expanded(succ, seen, dist, s, i)
      invariant edges == edges0 + i
    {
      var e := out[i];
      ghost var seen1, dist1 := seen, dist;
      edges := edges + 1;
      if e.dst !in seen {
        GrowByOne(succ, start, seen, order, dist, s, e);
        Associative(order0, found, [e.dst]);
        Associative(q0, found, [e.dst]);
        seen := seen[e.dst := From(s, e.act)];
        dist := dist[e.dst := dist[s] + 1];
        order := order + [e.dst];
        q := q + [e.dst];
        found := found + [e.dst];
      }
      ExpandedNext(succ, seen1, dist1, seen, dist, s, i);
      i := i + 1;
    }
  }

  /** More states may be known, but no depth changed. */
  ghost predicate Deepens<T, L>(seen0: map<T, Via<T, L>>, dist0: map<T, nat>, seen: map<T, Via<T, L>>, dist: map<T, nat>) {
    && dist0.Keys == seen0.Keys && dist.Keys == seen.Keys
    && forall t | t in seen0 :: t in seen && dist[t] == dist0[t]
  }

  lemma ExpandedNext<T, L>(
      succ: Graph<T, L>, seen0: map<T, Via<T, L>>, dist0: map<T, nat>,
      seen: map<T, Via<T, L>>, dist: map<T, nat>, s: T, i: nat)
    requires Deepens(seen0, dist0, seen, dist)
    requires Expanded(succ, seen0, dist0, s, i) && i < |succ(s)|
    requires succ(s)[i].dst in seen && dist[succ(s)[i].dst] <= dist[s] + 1
    ensures Expanded(succ, seen, dist, s, i + 1)
  {
  }

  /** The states in `done` have no unexplored edges. */
  ghost predicate Settled<T, L>(succ: Graph<T, L>, seen: map<T, Via<T, L>>, dist: map<T, nat>, done: seq<T>)
    requires dist.Keys == seen.Keys
  {
    forall x | x in done :: succ.requires(x) && Expanded(succ, seen, dist, x, |succ(x)|)
  }

  lemma SettleNext<T, L>(
      succ: Graph<T, L>, seen0: map<T, Via<T, L>>, dist0: map<T, nat>,
      seen: map<T, Via<T, L>>, dist: map<T, nat>, done: seq<T>, s: T)
    requires Deepens(seen0, dist0, seen, dist)
    requires Settled(succ, seen0, dist0, done)
    requires succ.requires(s) && Expanded(succ, seen, dist, s, |succ(s)|)
    ensures Settled(succ, seen, dist, done + [s])
  {
    forall x | x in done ensures succ.requires(x) && Expanded(succ, seen, dist, x, |succ(x)|) {
      assert Expanded(succ, seen0, dist0, x, |succ(x)|);
    }
  }

  /** `violation` is the earliest offender in `order`, if there is one. */
  ghost predicate FirstOffender<T(!new), V>(check: T --> Option<V>, order: seq<T>, violation: Option<(V, T)>) {
    match violation
    case None => forall x | x in order :: check.requires(x) && check(x).None?
    case Some(v) =>
      check.requires(v.1) && check(v.1) == Some(v.0) &&
      exists b: nat ::
        b < |order| && order[b] == v.1 && (forall i | 0 <= i < b :: check.requires(order[i]) && check(order[i]).None?)
  }

  lemma Associative<T>(a: seq<T>, b: seq<T>, c: seq<T>)
    ensures (a + b) + c == a + (b + c)
  {
  }

  lemma NextInLine<T>(done: seq<T>, s: T, q: seq<T>)
    ensures done + ([s] + q) == (done + [s]) + q
    ensures Distinct(done + ([s] + q)) ==> s !in done
  {
    var all := done + ([s] + q);
    if s in done {
      var i :| 0 <= i < |done| && done[i] == s;
      assert all[i] == s && all[|done|] == s;
    }
  }

  /** The safety test of the search: keep the first offender met. */
  method Inspect<T(!new), V>(check: T --> Option<V>, ghost done: seq<T>, s: T, violation: Option<(V, T)>)
      returns (r: Option<(V, T)>)
    requires check.requires(s) && FirstOffender(check, done, violation)
    ensures FirstOffender(check, done + [s], r)
  {
    r := violation;
    if violation.None? {
      var bad := check(s);
      if bad.Some? {
        r := Some((bad.value, s));
        assert (done + [s])[|done|] == s;
      }
    } else {
      ghost var b: nat :| b < |done| && done[b] == violation.value.1 &&
        (forall i | 0 <= i < b :: check.requires(done[i]) && check(done[i]).None?);
      assert (done + [s])[b] == violation.value.1;
    }
  }

  /**
    Breadth-first search of everything reachable from `start`, keeping parents.
    `check` is the safety test; the first offender in search order is kept.
  */
  method Explore<T(==, !new), L(==, !new), V(!new)>(start: T, succ: Graph<T, L>, check: T --> Option<V>, ghost nodes: set<T>)
      returns (seen: map<T, Via<T, L>>, order: seq<T>, edges: nat, violation: Option<(V, T)>, ghost dist: map<T, nat>)
    requires start in nodes && Closed(succ, nodes)
    requires forall x | x in nodes :: check.requires(x)
    ensures BfsTree(succ, start, seen, dist)
    ensures seen.Keys <= nodes
    ensures forall t :: t in seen <==> Reachable(succ, start, t)
    ensures Distinct(order) && Elements(order) == seen.Keys
    ensures forall i, j | 0 <= i < j < |order| :: dist[order[i]] <= dist[order[j]]
    ensures edges == EdgeCount(succ, order)
    ensures FirstOffender(check, order, violation)
  {
    seen := map[start := Root];
    order := [start];
    var q := [start];
    edges := 0;
    violation := None;
    dist := map[start := 0];
    ghost var done, pending := [], nodes;
    while q != []
      invariant order == done + q
      invariant Growing(succ, start, seen, order, dist) && seen.Keys <= nodes
      invariant q != [] ==> WithinLevel(dist, dist[q[0]] + 1)
      invariant Settled(succ, seen, dist, done)
      invariant edges == EdgeCount(succ, done)
      invariant FirstOffender(check, done, violation)
      invariant forall x | x in nodes :: x in pending || x in done
      decreases pending
    {
      var s := q[0];
      assert q == [s] + q[1..];
      q := q[1..];
      violation := Inspect(check, done, s, violation);
      ghost var found, seen0, dist0, q0 := [], seen, dist, q;
      NextInLine(done, s, q);
      seen, order, q, edges, dist, found := Expand(succ, start, nodes, s, seen, order, q, edges, dist);
      SettleNext(succ, seen0, dist0, seen, dist, done, s);
      pending := pending - {s};
      done := done + [s];
      Associative(done, q0, found);
      assert order[|done| - 1] == s && (q != [] ==> order[|done|] == q[0]);
    }
    assert order == done;
    TreeWhenSettled(succ, start, seen, order, dist);
    SeenIsReachable(succ, start, seen, dist);
  }

  lemma TreeWhenSettled<T(!new), L(!new)>(
      succ: Graph<T, L>, start: T, seen: map<T, Via<T, L>>, order: seq<T>, dist: map<T, nat>)
    requires Growing(succ, start, seen, order, dist) && Settled(succ, seen, dist, order)
    ensures BfsTree(succ, start, seen, dist)
  {
    forall x, e | x in seen && HasEdge(succ, x, e) ensures e.dst in seen && dist[e.dst] <= dist[x] + 1 {
      assert x in order;
      assert Expanded(succ, seen, dist, x, |succ(x)|);
    }
  }

  lemma SeenIsReachable<T(!new), L(!new)>(succ: Graph<T, L>, start: T, seen: map<T, Via<T, L>>, dist: map<T, nat>)
    requires BfsTree(succ, start, seen, dist)
    ensures forall t :: t in seen <==> Reachable(succ, start, t)
  {
    forall t ensures t in seen <==> Reachable(succ, start, t) {
      if t in seen {
        assert WalkTo(succ, start, Chain(succ, start, seen, dist, t), t);
      }
      if Reachable(succ, start, t) {
        var steps :| WalkTo(succ, start, steps, t);
        WalksAreNoShorter(succ, start, seen, dist, steps);
      }
    }
  }

  lemma SeenIsClosed<T(!new), L(!new)>(
      succ: Graph<T, L>, start: T, seen: map<T, Via<T, L>>, dist: map<T, nat>, nodes: set<T>)
    requires BfsTree(succ, start, seen, dist) && Closed(succ, nodes) && seen.Keys <= nodes
    ensures Closed(succ, seen.Keys)
  {
    forall x | x in seen.Keys ensures succ.requires(x) && forall e | e in succ(x) :: e.dst in seen.Keys {
      forall e | e in succ(x) ensures e.dst in seen.Keys { assert HasEdge(succ, x, e); }
    }
  }

  /** Walk the parent chain back to the root and reverse it. */
  method TraceTo<T(==, !new), L(!new)>(
      ghost succ: Graph<T, L>, ghost start: T, seen: map<T, Via<T, L>>, ghost dist: map<T, nat>, t: T)
      returns (trace: seq<Edge<L, T>>)
    requires BfsTree(succ, start, seen, dist) && t in seen
    ensures WalkTo(succ, start, trace, t)
    ensures forall steps | WalkTo(succ, start, steps, t) :: |trace| <= |steps|
  {
    var s := t;
    var steps := [];
    while seen[s].From?
      invariant s in seen
      invariant Chain(succ, start, seen, dist, t) == Chain(succ, start, seen, dist, s) + Reverse(steps)
      decreases dist[s]
    {
      var v := seen[s];
      assert HangsBelow(succ, seen, dist, s);
      steps := steps + [Edge(v.act, s)];
      assert steps[..|steps| - 1] == steps[..|steps| - 1];
      ReverseSnoc(steps[..|steps| - 1], Edge(v.act, s));
      assert steps == steps[..|steps| - 1] + [Edge(v.act, s)];
      s := v.parent;
    }
    trace := Reverse(steps);
    assert s != start ==> HangsBelow(succ, seen, dist, s);
    assert trace == Chain(succ, start, seen, dist, t);
    forall steps' | WalkTo(succ, start, steps', t) ensures |trace| <= |steps'| {
      WalksAreNoShorter(succ, start, seen, dist, steps');
    }
  }

  function Reverse<A>(s: seq<A>): (r: seq<A>)
    ensures |r| == |s| && forall i | 0 <= i < |s| :: r[i] == s[|s| - 1 - i]
  {
    if s == [] then [] else Reverse(s[1..]) + [s[0]]
  }

  lemma ReverseSnoc<A>(s: seq<A>, x: A)
    ensures Reverse(s + [x]) == [x] + Reverse(s)
  {
  }

  /**
    A walk that heals: every step carries a healing label, stays among the
    explored states, and the last state is balanced.
  */
  ghost predicate Heals<T, L>(
      succ: Graph<T, L>, healing: L -> bool, balanced: T --> bool, nodes: set<T>, x: T, steps: seq<Edge<L, T>>)
  {
    x in nodes &&
    if steps == [] then balanced.requires(x) && balanced(x)
    else HasEdge(succ, x, steps[0]) && healing(steps[0].act) &&
         Heals(succ, healing, balanced, nodes, steps[0].dst, steps[1..])
  }

  ghost predicate CanHeal<T(!new), L(!new)>(succ: Graph<T, L>, healing: L -> bool, balanced: T --> bool, nodes: set<T>, x: T) {
    exists steps :: Heals(succ, healing, balanced, nodes, x, steps)
  }

  /** A set that contains every balanced state and every healing predecessor of its own contains all that can heal. */
  lemma {:induction false} HealersAreInside<T(!new), L(!new)>(
      succ: Graph<T, L>, healing: L -> bool, balanced: T --> bool, nodes: set<T>, good: set<T>, x: T, steps: seq<Edge<L, T>>)
    requires forall y | y in nodes && balanced.requires(y) && balanced(y) :: y in good
    requires forall y, x | x in nodes && y in good && HealingEdge(succ, healing, x, y) :: x in good
    requires Heals(succ, healing, balanced, nodes, x, steps)
    ensures x in good
    decreases |steps|
  {
    if steps == [] {
    } else {
      HealersAreInside(succ, healing, balanced, nodes, good, steps[0].dst, steps[1..]);
      assert HealingEdge(succ, healing, x, steps[0].dst);
    }
  }

  lemma HealOneStep<T(!new), L(!new)>(
      succ: Graph<T, L>, healing: L -> bool, balanced: T --> bool, nodes: set<T>, x: T, e: Edge<L, T>)
    requires x in nodes && HasEdge(succ, x, e) && healing(e.act)
    requires CanHeal(succ, healing, balanced, nodes, e.dst)
    ensures CanHeal(succ, healing, balanced, nodes, x)
  {
    var steps :| Heals(succ, healing, balanced, nodes, e.dst, steps);
    assert ([e] + steps)[1..] == steps;
    assert Heals(succ, healing, balanced, nodes, x, [e] + steps);
  }

  /** Some healing edge leads from `x` to `y`. */
  ghost predicate HealingEdge<T(!new), L(!new)>(succ: Graph<T, L>, healing: L -> bool, x: T, y: T) {
    exists e :: HasEdge(succ, x, e) && healing(e.act) && e.dst == y
  }

  /** Record every healing edge between explored states, backwards. */
  method HealingPredecessors<T(==, !new), L(!new)>(seen: seq<T>, succ: Graph<T, L>, healing: L -> bool)
      returns (rev: map<T, seq<T>>)
    requires forall x | x in seen :: succ.requires(x)
    ensures rev.Keys == Elements(seen)
    ensures forall x, y | y in rev :: x in rev[y] <==> x in seen && HealingEdge(succ, healing, x, y)
  {
    rev := map s | s in seen :: [];
    var i := 0;
    while i < |seen|
      invariant i <= |seen| && rev.Keys == Elements(seen)
      invariant forall x, y | y in rev :: x in rev[y] <==> x in seen[..i] && HealingEdge(succ, healing, x, y)
    {
      var s := seen[i];
      var out := succ(s);
      var j := 0;
      ghost var rev0 := rev;
      while j < |out|
        invariant j <= |out| && rev.Keys == Elements(seen)
        invariant forall x, y | y in rev :: x in rev[y] <==>
          x in rev0[y] || (x == s && exists l | 0 <= l < j :: healing(out[l].act) && out[l].dst == y)
      {
        var e := out[j];
        if healing(e.act) && e.dst in rev {
          rev := rev[e.dst := rev[e.dst] + [s]];
        }
        j := j + 1;
      }
      HealingEdgesOf(succ, healing, s);
      assert seen[..i + 1] == seen[..i] + [s];
      i := i + 1;
    }
    assert seen[..i] == seen;
  }

  lemma HealingEdgesOf<T(!new), L(!new)>(succ: Graph<T, L>, healing: L -> bool, s: T)
    requires succ.requires(s)
    ensures forall y :: HealingEdge(succ, healing, s, y) <==>
      exists l | 0 <= l < |succ(s)| :: healing(succ(s)[l].act) && succ(s)[l].dst == y
  {
    forall y ensures HealingEdge(succ, healing, s, y) <==>
      exists l | 0 <= l < |succ(s)| :: healing(succ(s)[l].act) && succ(s)[l].dst == y
    {
      if l :| 0 <= l < |succ(s)| && healing(succ(s)[l].act) && succ(s)[l].dst == y {
        assert HasEdge(succ, s, succ(s)[l]);
      }
    }
  }

  /** Every member of `good` can heal. */
  ghost predicate AllHeal<T(!new), L(!new)>(
      succ: Graph<T, L>, healing: L -> bool, balanced: T --> bool, nodes: set<T>, good: set<T>)
  {
    good <= nodes && forall x | x in good :: CanHeal(succ, healing, balanced, nodes, x)
  }

  /** The explored states from which no healing walk leads to a balanced one. */
  method CannotRebalance<T(==, !new), L(!new)>(seen: seq<T>, succ: Graph<T, L>, healing: L -> bool, balanced: T --> bool)
      returns (stuck: set<T>)
    requires forall x | x in seen :: succ.requires(x) && balanced.requires(x)
    ensures forall x :: x in stuck <==> x in seen && !CanHeal(succ, healing, balanced, Elements(seen), x)
  {
    hide AllHeal, CanHeal, HealingEdge, Heals, Elements;
    var rev := HealingPredecessors(seen, succ, healing);
    ghost var nodes := Elements(seen);
    SameElements(seen);
    var good := set s | s in seen && balanced(s);
    var q := BalancedOnes(seen, balanced);
    BalancedHeal(succ, healing, balanced, nodes, good);
    ghost var ok := good;
    while q != []
      invariant ok <= good && (forall x | x in q :: x in good)
      invariant AllHeal(succ, healing, balanced, nodes, good) && good <= nodes
      invariant forall y, x | y in good && x in rev[y] && x !in good :: y in q
      decreases nodes - good, |q|
    {
      var s := q[0];
      ghost var good0 := good;
      good, q := Absorb(rev[s], good, q[1..]);
      AbsorbedHeal(succ, healing, balanced, nodes, s, rev[s], good0);
      SameElements(rev[s]);
    }
    stuck := set s | s in seen && s !in good;
    AllOfThemHeal(succ, healing, balanced, nodes, good);
    NothingElseHeals(succ, healing, balanced, nodes, good);
  }

  lemma SameElements<T(!new)>(s: seq<T>)
    ensures forall x :: x in Elements(s) <==> x in s
  {
  }

  lemma AllOfThemHeal<T(!new), L(!new)>(
      succ: Graph<T, L>, healing: L -> bool, balanced: T --> bool, nodes: set<T>, good: set<T>)
    requires AllHeal(succ, healing, balanced, nodes, good)
    ensures forall x | x in good :: CanHeal(succ, healing, balanced, nodes, x)
  {
  }

  lemma BalancedHeal<T(!new), L(!new)>(
      succ: Graph<T, L>, healing: L -> bool, balanced: T --> bool, nodes: set<T>, good: set<T>)
    requires good <= nodes && forall x | x in good :: balanced.requires(x) && balanced(x)
    ensures AllHeal(succ, healing, balanced, nodes, good)
  {
    forall x | x in good ensures CanHeal(succ, healing, balanced, nodes, x) {
      assert Heals(succ, healing, balanced, nodes, x, []);
    }
  }

  /** The balanced states, in the order in which they were found. */
  method BalancedOnes<T(==, !new)>(seen: seq<T>, balanced: T --> bool) returns (q: seq<T>)
    requires forall x | x in seen :: balanced.requires(x)
    ensures forall x :: x in q <==> x in seen && balanced(x)
  {
    q := [];
    var i := 0;
    while i < |seen|
      invariant i <= |seen|
      invariant forall x :: x in q <==> x in seen[..i] && balanced(x)
    {
      if balanced(seen[i]) { q := q + [seen[i]]; }
      i := i + 1;
    }
    assert seen[..i] == seen;
  }

  /** Move the members of `preds` that are not yet good into `good`, and queue them. */
  method Absorb<T(==)>(preds: seq<T>, good0: set<T>, q0: seq<T>) returns (good: set<T>, q: seq<T>)
    ensures good == good0 + Elements(preds)
    ensures q0 <= q && (good == good0 ==> q == q0)
    ensures forall x :: x in q[|q0|..] <==> x in good && x !in good0
  {
    good, q := good0, q0;
    var j := 0;
    while j < |preds|
      invariant j <= |preds|
      invariant good == good0 + Elements(preds[..j])
      invariant q0 <= q && (good == good0 ==> q == q0)
      invariant forall x :: x in q[|q0|..] <==> x in good && x !in good0
    {
      var p := preds[j];
      assert preds[..j + 1] == preds[..j] + [p];
      if p !in good {
        good := good + {p};
        assert (q + [p])[|q0|..] == q[|q0|..] + [p];
        q := q + [p];
      }
      j := j + 1;
    }
    assert preds[..j] == preds;
  }

  lemma AbsorbedHeal<T(!new), L(!new)>(
      succ: Graph<T, L>, healing: L -> bool, balanced: T --> bool, nodes: set<T>, s: T, preds: seq<T>, good: set<T>)
    requires AllHeal(succ, healing, balanced, nodes, good) && s in good
    requires forall x | x in preds :: x in nodes && HealingEdge(succ, healing, x, s)
    ensures AllHeal(succ, healing, balanced, nodes, good + Elements(preds))
  {
    forall x | x in preds ensures CanHeal(succ, healing, balanced, nodes, x) {
      HealPredecessor(succ, healing, balanced, nodes, x, s);
    }
  }

  lemma HealPredecessor<T(!new), L(!new)>(
      succ: Graph<T, L>, healing: L -> bool, balanced: T --> bool, nodes: set<T>, x: T, y: T)
    requires x in nodes && HealingEdge(succ, healing, x, y)
    requires CanHeal(succ, healing, balanced, nodes, y)
    ensures CanHeal(succ, healing, balanced, nodes, x)
  {
    var e :| HasEdge(succ, x, e) && healing(e.act) && e.dst == y;
    HealOneStep(succ, healing, balanced, nodes, x, e);
  }

  lemma NothingElseHeals<T(!new), L(!new)>(
      succ: Graph<T, L>, healing: L -> bool, balanced: T --> bool, nodes: set<T>, good: set<T>)
    requires forall y | y in nodes && balanced.requires(y) && balanced(y) :: y in good
    requires forall y, x | x in nodes && y in good && HealingEdge(succ, healing, x, y) :: x in good
    ensures forall x | CanHeal(succ, healing, balanced, nodes, x) :: x in good
  {
    forall x | CanHeal(succ, healing, balanced, nodes, x) ensures x in good {
      var steps :| Heals(succ, healing, balanced, nodes, x, steps);
      HealersAreInside(succ, healing, balanced, nodes, good, x, steps);
    }
  }
}
