/** Breadth first computes exact bounded hop distances. */
module Distances {
  import opened Prelude
  import opened Topology
  import opened Traversal
  import opened Reachability

  /** No walk reaches `v` in fewer steps. */
  ghost predicate Shortest(env: Env, t: Tree, v: nat)
    requires v in t.depth
  {
    forall p | IsWalk(env, p) && p[|p| - 1] == v :: t.depth[v] <= |p| - 1
  }

  ghost predicate AllShortest(env: Env, t: Tree) {
    forall v :: v in t.visited && v in t.depth ==> Shortest(env, t, v)
  }

  /** Every admissible entry of `u` leads to a visited node at most one level deeper. */
  ghost predicate Explored(env: Env, t: Tree, u: nat)
    requires u in t.depth
  {
    forall n :: n in env.Outgoing(u) && EntryAdmissible(env, n) ==> Settled(t, n.target, t.depth[u] + 1)
  }

  predicate Settled(t: Tree, v: nat, bound: int) {
    v in t.visited && v in t.depth && t.depth[v] <= bound
  }

  /** Every visited node outside the open ones is explored, unless it sits at the depth limit. */
  ghost predicate ClosedOutside(env: Env, t: Tree, frontier: seq<nat>, current: Option<nat>) {
    forall u |
      && u in t.visited && u in t.depth && u !in frontier && Some(u) != current
      && t.depth[u] < env.config.maxDepth
      :: Explored(env, t, u)
  }

  /** The queue holds at most two neighbouring levels, in order, and nothing lies deeper. */
  ghost predicate Banded(t: Tree, frontier: seq<nat>, level: int) {
    && (forall i | 0 <= i < |frontier| :: frontier[i] in t.depth && level <= t.depth[frontier[i]] <= level + 1)
    && (forall i, j | 0 <= i < j < |frontier| :: t.depth[frontier[i]] <= t.depth[frontier[j]])
    && (forall v <- t.visited :: v in t.depth && t.depth[v] <= level + 1)
  }

  /** The middle of the expansion of `current`. */
  ghost predicate Layered(env: Env, s: State, current: nat, level: int) {
    && current in s.tree.visited && current in s.tree.depth && s.tree.depth[current] == level
    && Banded(s.tree, s.frontier, level)
    && ClosedOutside(env, s.tree, s.frontier, Some(current))
    && AllShortest(env, s.tree)
  }

  /** Everything within the current level's walks is visited already, no deeper than the walk. */
  lemma {:induction false} NearVisited(env: Env, s: State, current: nat, level: int, p: seq<nat>)
    requires Rooted(env, s.tree) && Layered(env, s, current, level) && level < env.config.maxDepth
    requires IsWalk(env, p) && |p| - 1 <= level
    ensures Settled(s.tree, p[|p| - 1], |p| - 1)
    decreases |p|
  {
    if |p| > 1 {
      var q := p[..|p| - 1];
      NearVisited(env, s, current, level, q);
      assert Explored(env, s.tree, q[|q| - 1]);
      assert Step(env, p[|p| - 2], p[|p| - 1]);
    }
  }

  /** A newly admitted node gets its exact distance. */
  lemma NewIsShortest(env: Env, s: State, current: nat, level: int, g: Tree, target: nat)
    requires Rooted(env, s.tree) && Layered(env, s, current, level) && level < env.config.maxDepth
    requires target !in s.tree.visited && target in g.depth && g.depth[target] == level + 1
    ensures Shortest(env, g, target)
  {
    forall p | IsWalk(env, p) && p[|p| - 1] == target
      ensures g.depth[target] <= |p| - 1
    {
      if |p| - 1 <= level {
        NearVisited(env, s, current, level, p);
      }
    }
  }

  lemma GrownKeepsClosed(env: Env, s: State, t: State, current: nat, level: int, n: Neighbor)
    requires Rooted(env, s.tree) && n.target !in s.tree.visited
    requires ClosedOutside(env, s.tree, s.frontier, Some(current))
    requires t.tree == s.tree.Grow(n.target, level + 1, current, n.typeId)
    requires t.frontier == if level + 1 < env.config.maxDepth then s.frontier + [n.target] else s.frontier
    ensures ClosedOutside(env, t.tree, t.frontier, Some(current))
  {
    forall u | u in t.tree.visited && u in t.tree.depth && u !in t.frontier && u != current
               && t.tree.depth[u] < env.config.maxDepth
      ensures Explored(env, t.tree, u)
    {
      assert Explored(env, s.tree, u);
    }
  }

  lemma GrownKeepsBanded(s: State, t: State, current: nat, level: int, n: Neighbor)
    requires Banded(s.tree, s.frontier, level) && Queued(s) && n.target !in s.tree.visited
    requires t.tree == s.tree.Grow(n.target, level + 1, current, n.typeId)
    requires t.frontier == s.frontier || t.frontier == s.frontier + [n.target]
    ensures Banded(t.tree, t.frontier, level)
  {
  }

  lemma GrownKeepsLayered(env: Env, s: State, t: State, current: nat, level: int, n: Neighbor)
    requires Rooted(env, s.tree) && Queued(s) && Layered(env, s, current, level)
    requires level < env.config.maxDepth && n.target !in s.tree.visited
    requires t.tree == s.tree.Grow(n.target, level + 1, current, n.typeId)
    requires t.frontier == if level + 1 < env.config.maxDepth then s.frontier + [n.target] else s.frontier
    ensures Layered(env, t, current, level)
  {
    GrownKeepsShortest(env, s, t.tree, current, level, n);
    GrownKeepsClosed(env, s, t, current, level, n);
    GrownKeepsBanded(s, t, current, level, n);
  }

  lemma GrownKeepsShortest(env: Env, s: State, g: Tree, current: nat, level: int, n: Neighbor)
    requires Rooted(env, s.tree) && Layered(env, s, current, level) && level < env.config.maxDepth
    requires n.target !in s.tree.visited
    requires g == s.tree.Grow(n.target, level + 1, current, n.typeId)
    ensures AllShortest(env, g)
  {
    forall v | v in g.visited && v in g.depth
      ensures Shortest(env, g, v)
    {
      if v == n.target {
        NewIsShortest(env, s, current, level, g, v);
      } else {
        assert Shortest(env, s.tree, v);
      }
    }
  }

  /** Distances stay exact, and while no cap has fired the layering holds. */
  ghost predicate LayeredOrStopped(env: Env, t: State, current: nat, level: int) {
    AllShortest(env, t.tree) && (t.status == Open ==> Layered(env, t, current, level))
  }

  lemma OfferKeepsLayered(env: Env, s: State, current: nat, level: int, ns: seq<Neighbor>)
    requires ns != [] && Expanding(env, s, current, ns) && s.status == Open && Layered(env, s, current, level)
    ensures LayeredOrStopped(env, Offer(env, s, current, level, ns[0]), current, level)
  {
    var t := Offer(env, s, current, level, ns[0]);
    OfferCases(env, s, current, level, ns[0]);
    if t.tree != s.tree {
      if t.status == Open {
        GrownKeepsLayered(env, s, t, current, level, ns[0]);
      } else {
        GrownKeepsShortest(env, s, t.tree, current, level, ns[0]);
      }
    }
  }

  /** Offering a node's neighbours keeps the layering. */
  lemma {:induction false} OfferAllKeepsLayered(env: Env, s: State, current: nat, level: int, ns: seq<Neighbor>)
    requires Expanding(env, s, current, ns) && s.status == Open && Layered(env, s, current, level)
    ensures LayeredOrStopped(env, OfferAll(env, s, current, level, ns), current, level)
    decreases |ns|
  {
    if ns != [] {
      var t := Offer(env, s, current, level, ns[0]);
      OfferKeepsLayered(env, s, current, level, ns);
      if t.status == Open {
        OfferKeepsExpanding(env, s, current, ns);
        OfferAllKeepsLayered(env, t, current, level, ns[1..]);
      } else {
        OfferAllClosed(env, t, current, level, ns[1..]);
      }
    }
  }

  /** Between expansions: the queue spans at most two levels and everything behind it is closed. */
  ghost predicate Ready(env: Env, s: State) {
    && AllShortest(env, s.tree)
    && (s.status == Open ==>
          && ClosedOutside(env, s.tree, s.frontier, None)
          && (s.frontier != [] ==> Banded(s.tree, s.frontier, s.tree.DepthOf(s.frontier[0]))))
  }

  /** Once a node's neighbours are all settled, it need no longer be kept open. */
  lemma CurrentCloses(env: Env, t: State, current: nat, level: int)
    requires Rooted(env, t.tree) && Queued(t) && Layered(env, t, current, level)
    requires forall n :: n in env.Outgoing(current) && EntryAdmissible(env, n) ==> n.target in t.tree.visited
    ensures Ready(env, t)
  {
    assert Explored(env, t.tree, current);
    if t.frontier != [] {
      assert t.tree.DepthOf(t.frontier[0]) >= level;
    }
  }

  lemma BandedTail(t: Tree, frontier: seq<nat>, current: nat, rest: seq<nat>, level: int)
    requires Banded(t, frontier, level) && frontier == [current] + rest
    ensures Banded(t, rest, level)
  {
    assert forall i | 0 <= i < |rest| :: rest[i] == frontier[i + 1];
  }

  lemma ClosedBeside(env: Env, t: Tree, frontier: seq<nat>, current: nat, rest: seq<nat>)
    requires ClosedOutside(env, t, frontier, None) && frontier == [current] + rest
    ensures ClosedOutside(env, t, rest, Some(current))
  {
    forall u | u !in rest && u != current
      ensures u !in frontier
    {
    }
  }

  lemma ReadyBegins(env: Env, s: State, current: nat, rest: seq<nat>)
    requires Rooted(env, s.tree) && Queued(s) && s.status == Open && Ready(env, s)
    requires s.frontier == [current] + rest
    ensures Layered(env, s.(frontier := rest), current, s.tree.depth[current])
  {
    assert s.frontier[0] == current;
    BandedTail(s.tree, s.frontier, current, rest, s.tree.depth[current]);
    ClosedBeside(env, s.tree, s.frontier, current, rest);
  }

  /** Offering everything a node leads to closes it, unless a cap fires first. */
  lemma ExpansionReadies(env: Env, taken: State, current: nat, level: int, t: State)
    requires Expanding(env, taken, current, env.Expansion(current)) && taken.status == Open && !env.depthFirst
    requires Layered(env, taken, current, level) && t == OfferAll(env, taken, current, level, env.Expansion(current))
    requires Rooted(env, t.tree) && Queued(t)
    ensures Ready(env, t)
  {
    OfferAllKeepsLayered(env, taken, current, level, env.Expansion(current));
    if t.status == Open {
      OfferAllVisits(env, taken, current, level, env.Expansion(current));
      CurrentCloses(env, t, current, level);
    }
  }

  lemma OfferingReadies(env: Env, taken: State, current: nat, level: int, t: State)
    requires Expanding(env, taken, current, env.Expansion(current)) && taken.status == Open && !env.depthFirst
    requires Layered(env, taken, current, level) && t == OfferAll(env, taken, current, level, env.Expansion(current))
    ensures Ready(env, t) && Rooted(env, t.tree) && Queued(t)
  {
    OfferAllKeepsRooted(env, taken, current, env.Expansion(current));
    ExpansionReadies(env, taken, current, level, t);
  }

  lemma ExpandKeepsReady(env: Env, s: State)
    requires Rooted(env, s.tree) && Queued(s) && s.status == Open && Ready(env, s)
    requires s.frontier != [] && !env.depthFirst && !env.config.edgeTypeFilter.NoneMatched?
    ensures Ready(env, Expand(env, s)) && Rooted(env, Expand(env, s).tree) && Queued(Expand(env, s))
  {
    var current, rest := s.frontier[0], s.frontier[1..];
    var level, taken, t := s.tree.depth[current], s.(frontier := rest), Expand(env, s);
    ExpansionBegins(env, s);
    ReadyBegins(env, s, current, rest);
    if level < env.config.maxDepth {
      OfferingReadies(env, taken, current, level, t);
    } else {
      LimitCloses(env, taken, current, level);
      assert t == taken;
    }
  }

  /** A node at the depth limit closes without an expansion. */
  lemma LimitCloses(env: Env, t: State, current: nat, level: int)
    requires Layered(env, t, current, level) && level >= env.config.maxDepth
    ensures Ready(env, t)
  {
    if t.frontier != [] {
      assert t.tree.DepthOf(t.frontier[0]) >= level;
    }
  }

  lemma {:induction false} RunKeepsReady(env: Env, s: State)
    requires Rooted(env, s.tree) && Queued(s) && Ready(env, s)
    requires !env.depthFirst && !env.config.edgeTypeFilter.NoneMatched?
    ensures var t := Run(env, s);
            && Rooted(env, t.tree) && Ready(env, t) && (t.status == Open ==> t.frontier == [])
    decreases Nodes(env) - s.tree.visited, |s.frontier|
  {
    if s.status == Open && s.frontier != [] {
      ExpandProgresses(env, s);
      ExpandKeepsReady(env, s);
      RunKeepsReady(env, Expand(env, s));
    }
  }

  lemma StartIsReady(env: Env)
    ensures Rooted(env, Start(env).tree) && Queued(Start(env)) && Ready(env, Start(env))
  {
    assert Start(env).tree.visited == {} || Start(env).tree.visited == {env.config.seedNode};
    if env.config.seedNode in Start(env).tree.visited {
      SeedIsShortest(env, Start(env).tree);
    }
  }

  lemma SeedIsShortest(env: Env, t: Tree)
    requires t.visited == {env.config.seedNode} && t.depth == map[env.config.seedNode := 0]
    ensures AllShortest(env, t)
  {
  }

  /** With everything closed, each walk within the depth limit ends at a settled node. */
  lemma {:induction false} ClosedCovers(env: Env, t: Tree, p: seq<nat>)
    requires Rooted(env, t) && t.visited != {} && ClosedOutside(env, t, [], None)
    requires IsWalk(env, p) && |p| - 1 <= DepthLimit(env)
    ensures Settled(t, p[|p| - 1], |p| - 1)
    decreases |p|
  {
    if |p| > 1 {
      var q := p[..|p| - 1];
      ClosedCovers(env, t, q);
      assert Explored(env, t, q[|q| - 1]);
      assert Step(env, p[|p| - 2], p[|p| - 1]);
    }
  }

  /** What every breadth-first run ends with, capped or not. */
  lemma FinalState(env: Env)
    requires !env.depthFirst
    ensures var t := Run(env, Start(env));
            && Rooted(env, t.tree) && Ready(env, t)
            && (t.status == Open ==> t.frontier == [])
            && (t.tree.visited != {} <==> SeedAccepted(env))
  {
    StartIsReady(env);
    StartGrows(env);
    if env.config.edgeTypeFilter.NoneMatched? {
      NoTypeNoSteps(env);
    } else {
      RunKeepsReady(env, Start(env));
    }
  }

  /** Breadth first records exact hop distances, even when a cap truncated the run: every visited
      node's depth is attained by a walk within the depth limit and beaten by none. */
  lemma BreadthFirstDepths(env: Env, v: nat)
    requires !env.depthFirst && Answer(env).Ok? && v in Answer(env).value.tree.visited
    ensures var depth := Answer(env).value.tree.depth;
            && v in depth && 0 <= depth[v] <= DepthLimit(env)
            && (exists p :: IsWalk(env, p) && p[|p| - 1] == v && |p| - 1 == depth[v])
            && (forall p | IsWalk(env, p) && p[|p| - 1] == v :: depth[v] <= |p| - 1)
  {
    FinalState(env);
    var t := Run(env, Start(env)).tree;
    TreePathIsWalk(env, t, v);
    assert Shortest(env, t, v);
  }

  /** Untruncated, breadth first visits exactly the nodes that some walk within the depth limit
      reaches from an accepted seed. */
  lemma BreadthFirstComplete(env: Env, v: nat)
    requires !env.depthFirst && Answer(env).Ok? && !Answer(env).value.truncated
    ensures v in Answer(env).value.tree.visited <==>
            SeedAccepted(env) && exists p :: IsWalk(env, p) && p[|p| - 1] == v && |p| - 1 <= DepthLimit(env)
  {
    FinalState(env);
    var t := Run(env, Start(env)).tree;
    if v in t.visited {
      TreePathIsWalk(env, t, v);
    }
    if SeedAccepted(env) {
      forall p | IsWalk(env, p) && |p| - 1 <= DepthLimit(env)
        ensures p[|p| - 1] in t.visited
      {
        ClosedCovers(env, t, p);
      }
    }
  }
}
