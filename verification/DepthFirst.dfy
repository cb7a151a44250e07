/** Guarantees that hold whatever order nodes are expanded in, which is all depth first promises:
    recorded depths are attained, and an unlimited untruncated run reaches everything. */
module DepthFirst {
  import opened Prelude
  import opened Topology
  import opened Traversal
  import opened Reachability

  /** Every admissible entry of `u` leads to a visited node. */
  ghost predicate Covered(env: Env, t: Tree, u: nat) {
    forall n :: n in env.Outgoing(u) && EntryAdmissible(env, n) ==> n.target in t.visited
  }

  /** All visited nodes are covered except the queued ones and the one being expanded. */
  ghost predicate CoveredOutside(env: Env, t: Tree, frontier: seq<nat>, current: Option<nat>) {
    forall u | u in t.visited && u !in frontier && Some(u) != current :: Covered(env, t, u)
  }

  /** A tree of k nodes is less than k levels deep. */
  ghost predicate Shallow(t: Tree) {
    forall v :: v in t.visited && v in t.depth ==> t.depth[v] < |t.visited|
  }

  ghost predicate Sweeping(env: Env, s: State, current: Option<nat>) {
    Shallow(s.tree) && (s.status == Open ==> CoveredOutside(env, s.tree, s.frontier, current))
  }

  lemma GrownKeepsSweeping(env: Env, s: State, t: State, current: nat, n: Neighbor)
    requires Rooted(env, s.tree) && current in s.tree.visited && n.target !in s.tree.visited
    requires s.status == Open && Sweeping(env, s, Some(current))
    requires t.tree == s.tree.Grow(n.target, s.tree.depth[current] + 1, current, n.typeId)
    requires t.status == Open ==> t.frontier == s.frontier + [n.target]
    ensures Sweeping(env, t, Some(current))
  {
    assert |t.tree.visited| == |s.tree.visited| + 1;
    if t.status == Open {
      forall u | u in t.tree.visited && u !in t.frontier && u != current
        ensures Covered(env, t.tree, u)
      {
        assert Covered(env, s.tree, u);
      }
    }
  }

  /** With the limit at or above the node count no admitted node is ever left unqueued. */
  lemma BelowLimit(env: Env, s: State, current: nat)
    requires Rooted(env, s.tree) && Shallow(s.tree) && current in s.tree.visited
    requires env.store.nodeCount <= env.config.maxDepth
    ensures s.tree.depth[current] < env.config.maxDepth
    ensures forall v :: v !in s.tree.visited && v in Nodes(env) ==> s.tree.depth[current] + 1 < env.config.maxDepth
  {
    SubsetSize(s.tree.visited, Nodes(env));
    forall v | v !in s.tree.visited && v in Nodes(env)
      ensures s.tree.depth[current] + 1 < env.config.maxDepth
    {
      SubsetSize(s.tree.visited + {v}, Nodes(env));
    }
  }

  lemma OfferKeepsSweeping(env: Env, s: State, current: nat, ns: seq<Neighbor>)
    requires Expanding(env, s, current, ns) && s.status == Open && Sweeping(env, s, Some(current)) && ns != []
    requires env.store.nodeCount <= env.config.maxDepth
    ensures Sweeping(env, Offer(env, s, current, s.tree.depth[current], ns[0]), Some(current))
  {
    var t := Offer(env, s, current, s.tree.depth[current], ns[0]);
    OfferCases(env, s, current, s.tree.depth[current], ns[0]);
    if t.tree != s.tree {
      BelowLimit(env, s, current);
      AdmissibleIsNode(env, ns[0]);
      GrownKeepsSweeping(env, s, t, current, ns[0]);
    } else {
      SameTreeSweeps(env, s, t, current);
    }
  }

  lemma SameTreeSweeps(env: Env, s: State, t: State, current: nat)
    requires s.status == Open && Sweeping(env, s, Some(current)) && t == s.(status := t.status)
    ensures Sweeping(env, t, Some(current))
  {
  }

  lemma {:induction false} OfferAllKeepsSweeping(env: Env, s: State, current: nat, ns: seq<Neighbor>)
    requires Expanding(env, s, current, ns) && s.status == Open && Sweeping(env, s, Some(current))
    requires env.store.nodeCount <= env.config.maxDepth
    ensures Sweeping(env, OfferAll(env, s, current, s.tree.depth[current], ns), Some(current))
    decreases |ns|
  {
    if ns != [] {
      var d := s.tree.depth[current];
      var t := Offer(env, s, current, d, ns[0]);
      OfferKeepsExpanding(env, s, current, ns);
      OfferKeepsSweeping(env, s, current, ns);
      if t.status == Open {
        OfferAllKeepsSweeping(env, t, current, ns[1..]);
      } else {
        OfferAllClosed(env, t, current, d, ns[1..]);
      }
    }
  }

  /** Offering the whole expansion covers the node itself. */
  lemma ExpansionCovers(env: Env, s: State, current: nat, d: int)
    requires !env.config.edgeTypeFilter.NoneMatched?
    requires OfferAll(env, s, current, d, env.Expansion(current)).status == Open
    ensures Covered(env, OfferAll(env, s, current, d, env.Expansion(current)).tree, current)
  {
    OfferAllVisits(env, s, current, d, env.Expansion(current));
    forall n | n in env.Outgoing(current) && EntryAdmissible(env, n)
      ensures n.target in OfferAll(env, s, current, d, env.Expansion(current)).tree.visited
    {
      ExpansionEntries(env, current, n);
    }
  }

  lemma SweepingBegins(env: Env, s: State, current: nat, rest: seq<nat>)
    requires s.frontier != [] && s.status == Open && Sweeping(env, s, None)
    requires (current, rest) == Next(env.depthFirst, s.frontier)
    ensures Sweeping(env, s.(frontier := rest), Some(current))
  {
    assert forall u :: u in s.frontier ==> u == current || u in rest;
  }

  lemma ExpandKeepsSweeping(env: Env, s: State)
    requires Rooted(env, s.tree) && Queued(s) && s.status == Open && Sweeping(env, s, None)
    requires s.frontier != [] && !env.config.edgeTypeFilter.NoneMatched?
    requires env.store.nodeCount <= env.config.maxDepth
    ensures var t := Expand(env, s);
            Rooted(env, t.tree) && Queued(t) && Sweeping(env, t, None)
  {
    var (current, rest) := Next(env.depthFirst, s.frontier);
    var taken := s.(frontier := rest);
    ExpansionBegins(env, s);
    BelowLimit(env, s, current);
    SweepingBegins(env, s, current, rest);
    OfferAllKeepsRooted(env, taken, current, env.Expansion(current));
    OfferAllKeepsSweeping(env, taken, current, env.Expansion(current));
    if Expand(env, s).status == Open {
      ExpansionCovers(env, taken, current, s.tree.depth[current]);
    }
  }

  lemma {:induction false} RunKeepsSweeping(env: Env, s: State)
    requires Rooted(env, s.tree) && Queued(s) && Sweeping(env, s, None)
    requires !env.config.edgeTypeFilter.NoneMatched? && env.store.nodeCount <= env.config.maxDepth
    ensures var t := Run(env, s);
            t.status == Open ==> t.frontier == [] && CoveredOutside(env, t.tree, [], None)
    decreases Nodes(env) - s.tree.visited, |s.frontier|
  {
    if s.status == Open && s.frontier != [] {
      ExpandProgresses(env, s);
      ExpandKeepsSweeping(env, s);
      RunKeepsSweeping(env, Expand(env, s));
    }
  }

  lemma {:induction false} CoveredEverywhere(env: Env, t: Tree, p: seq<nat>)
    requires Rooted(env, t) && t.visited != {} && CoveredOutside(env, t, [], None) && IsWalk(env, p)
    ensures p[|p| - 1] in t.visited
    decreases |p|
  {
    if |p| > 1 {
      var q := p[..|p| - 1];
      CoveredEverywhere(env, t, q);
      assert Covered(env, t, q[|q| - 1]);
      assert Step(env, p[|p| - 2], p[|p| - 1]);
    }
  }

  /** Either strategy is sound at every depth limit, truncated or not: a visited node has a walk of
      exactly its recorded depth, and that depth respects the limit. */
  lemma DepthsAttained(env: Env, v: nat)
    requires Answer(env).Ok? && v in Answer(env).value.tree.visited
    ensures var depth := Answer(env).value.tree.depth;
            && v in depth && 0 <= depth[v] <= DepthLimit(env)
            && exists p :: IsWalk(env, p) && p[|p| - 1] == v && |p| - 1 == depth[v]
  {
    AnswerRooted(env);
    TreePathIsWalk(env, Run(env, Start(env)).tree, v);
  }

  /** Untruncated with a limit no smaller than the node count, the end of every walk is visited. */
  lemma WalksVisited(env: Env, t: Tree, p: seq<nat>)
    requires t == Run(env, Start(env)).tree && Run(env, Start(env)).status == Open && Rooted(env, t)
    requires env.store.nodeCount <= env.config.maxDepth && t.visited != {} && IsWalk(env, p)
    ensures p[|p| - 1] in t.visited
  {
    if env.config.edgeTypeFilter.NoneMatched? {
      assert forall u :: Covered(env, t, u);
    } else {
      StartSweeps(env);
      RunKeepsSweeping(env, Start(env));
    }
    CoveredEverywhere(env, t, p);
  }

  lemma StartSweeps(env: Env)
    requires !env.config.edgeTypeFilter.NoneMatched?
    ensures Rooted(env, Start(env).tree) && Queued(Start(env)) && Sweeping(env, Start(env), None)
  {
    StartGrows(env);
  }

  /** Untruncated and with a limit no smaller than the node count, either strategy visits exactly
      what some walk from an accepted seed reaches. */
  lemma ReachesEverything(env: Env, v: nat)
    requires Answer(env).Ok? && !Answer(env).value.truncated
    requires env.store.nodeCount <= env.config.maxDepth
    ensures v in Answer(env).value.tree.visited <==>
            SeedAccepted(env) && exists p :: IsWalk(env, p) && p[|p| - 1] == v
  {
    AnswerRooted(env);
    var t := Run(env, Start(env)).tree;
    if v in t.visited {
      TreePathIsWalk(env, t, v);
    }
    if SeedAccepted(env) {
      forall p | IsWalk(env, p)
        ensures p[|p| - 1] in t.visited
      {
        WalksVisited(env, t, p);
      }
    }
  }
}
