/** What a traversal's answer means: walks over admissible entries, the discovery tree, exact hop
    distances for breadth first and full reachability for depth first. */
module Reachability {
  import opened Topology
  import opened Traversal

  /** An admissible entry of `u` with this type leads to `v`. */
  ghost predicate StepBy(env: Env, u: nat, v: nat, typeId: nat) {
    exists n :: n in env.Outgoing(u) && EntryAdmissible(env, n) && n.target == v && n.typeId == typeId
  }

  ghost predicate Step(env: Env, u: nat, v: nat) {
    exists typeId: nat :: StepBy(env, u, v, typeId)
  }

  /** A walk from the seed over admissible entries. */
  ghost predicate IsWalk(env: Env, p: seq<nat>) {
    && p != []
    && p[0] == env.config.seedNode
    && forall i, j | 0 <= i < j < |p| && j == i + 1 :: Step(env, p[i], p[j])
  }

  ghost predicate SeedAccepted(env: Env) {
    env.config.seedNode < env.store.nodeCount && env.scope.AllowsNode(env.config.seedNode)
  }

  function DepthLimit(env: Env): nat {
    if env.config.maxDepth < 0 then 0 else env.config.maxDepth
  }

  /** The discovery tree: every visited node but the seed hangs one level below a visited parent, by
      an admissible entry of the recorded type. */
  ghost predicate Rooted(env: Env, t: Tree) {
    && t.visited <= Nodes(env)
    && t.visited == t.depth.Keys == t.parent.Keys == t.parentType.Keys
    && (t.visited != {} ==> SeedAtRoot(env, t))
    && (forall v <- t.visited :: 0 <= t.depth[v] <= DepthLimit(env))
    && (forall v {:trigger Hangs(env, t, v)} :: v in t.visited && v != env.config.seedNode ==> Hangs(env, t, v))
  }

  ghost predicate SeedAtRoot(env: Env, t: Tree)
    requires t.visited == t.depth.Keys == t.parent.Keys == t.parentType.Keys
  {
    var seed := env.config.seedNode;
    seed in t.visited && t.depth[seed] == 0 && t.parent[seed] == seed && t.parentType[seed] == UNTYPED
  }

  ghost predicate Hangs(env: Env, t: Tree, v: nat)
    requires t.visited == t.depth.Keys == t.parent.Keys == t.parentType.Keys
    requires v in t.visited
  {
    && t.parent[v] in t.visited
    && t.depth[v] == t.depth[t.parent[v]] + 1
    && StepBy(env, t.parent[v], v, t.parentType[v])
  }

  /** Queued nodes are visited, and queued once. */
  ghost predicate Queued(s: State) {
    && (forall i | 0 <= i < |s.frontier| :: s.frontier[i] in s.tree.visited)
    && (forall i, j | 0 <= i < j < |s.frontier| :: s.frontier[i] != s.frontier[j])
  }

  lemma ExpansionEntries(env: Env, u: nat, n: Neighbor)
    ensures n in env.Expansion(u) <==> n in env.Outgoing(u)
  {
    var out := env.Outgoing(u);
    var r := Reversed(out);
    if n in out {
      var i :| 0 <= i < |out| && out[i] == n;
      assert r[|out| - 1 - i] == n;
    }
    if n in r {
      var i :| 0 <= i < |r| && r[i] == n;
      assert out[|out| - 1 - i] == n;
    }
  }

  /** Growing the tree by an admissible entry of an expanding node keeps it a discovery tree. */
  /** Every node hangs where it should after another has been added below a visited one. */
  lemma GrowHangs(env: Env, t: Tree, g: Tree, parent: nat, n: Neighbor, v: nat)
    requires Rooted(env, t) && parent in t.visited
    requires n in env.Outgoing(parent) && EntryAdmissible(env, n) && n.target !in t.visited
    requires g == t.Grow(n.target, t.depth[parent] + 1, parent, n.typeId)
    requires v in g.visited && v != env.config.seedNode
    ensures g.visited == g.depth.Keys == g.parent.Keys == g.parentType.Keys && Hangs(env, g, v)
  {
    assert g.visited == g.depth.Keys == g.parent.Keys == g.parentType.Keys;
    if v == n.target {
      assert StepBy(env, parent, v, n.typeId);
    } else {
      assert Hangs(env, t, v);
    }
  }

  /** An admissible entry leads to a real node. */
  lemma AdmissibleIsNode(env: Env, n: Neighbor)
    requires EntryAdmissible(env, n)
    ensures n.target in Nodes(env)
  {
    assert n.target in env.store.active;
  }

  /** The columns, the seed and the depth bound after another node has been added. */
  lemma GrowKeepsBounds(env: Env, t: Tree, g: Tree, parent: nat, target: nat, typeId: nat)
    requires Rooted(env, t) && parent in t.visited && t.depth[parent] < env.config.maxDepth
    requires target !in t.visited && g == t.Grow(target, t.depth[parent] + 1, parent, typeId)
    ensures g.visited == g.depth.Keys == g.parent.Keys == g.parentType.Keys && SeedAtRoot(env, g)
    ensures forall v <- g.visited :: 0 <= g.depth[v] <= DepthLimit(env)
  {
  }

  lemma GrowKeepsRooted(env: Env, t: Tree, parent: nat, n: Neighbor)
    requires Rooted(env, t) && parent in t.visited && t.depth[parent] < env.config.maxDepth
    requires n in env.Outgoing(parent) && EntryAdmissible(env, n) && n.target !in t.visited
    ensures Rooted(env, t.Grow(n.target, t.depth[parent] + 1, parent, n.typeId))
  {
    var g := t.Grow(n.target, t.depth[parent] + 1, parent, n.typeId);
    AdmissibleIsNode(env, n);
    GrowKeepsBounds(env, t, g, parent, n.target, n.typeId);
    forall v | v in g.visited && v != env.config.seedNode
      ensures Hangs(env, g, v)
    {
      GrowHangs(env, t, g, parent, n, v);
    }
  }

  /** A node in the middle of its expansion, with the neighbours still to be offered. */
  ghost predicate Expanding(env: Env, s: State, parent: nat, ns: seq<Neighbor>) {
    && Rooted(env, s.tree) && Queued(s)
    && parent in s.tree.visited && s.tree.depth[parent] < env.config.maxDepth
    && (forall n <- ns :: n in env.Outgoing(parent))
    && !env.config.edgeTypeFilter.NoneMatched?
  }

  /** An offer either leaves tree and queue alone, or admits an admissible entry to a new node. */
  lemma OfferCases(env: Env, s: State, parent: nat, d: int, n: Neighbor)
    requires !env.config.edgeTypeFilter.NoneMatched?
    ensures var t := Offer(env, s, parent, d, n);
            || (t == s.(status := t.status) && (EntryAdmissible(env, n) && t.status == Open ==> n.target in s.tree.visited))
            || (&& s.status == Open && EntryAdmissible(env, n) && n.target !in s.tree.visited
                && t.tree == s.tree.Grow(n.target, d + 1, parent, n.typeId)
                && t.status != Failed
                && (t.frontier == s.frontier || t.frontier == s.frontier + [n.target])
                && (t.status == Open ==> t.frontier == if d + 1 < env.config.maxDepth then s.frontier + [n.target] else s.frontier))
  {
    GateMeaning(env, n, s.tree.visited);
  }

  lemma GrownKeepsExpanding(env: Env, s: State, t: State, parent: nat, ns: seq<Neighbor>)
    requires ns != [] && Expanding(env, s, parent, ns)
    requires EntryAdmissible(env, ns[0]) && ns[0].target !in s.tree.visited
    requires t.tree == s.tree.Grow(ns[0].target, s.tree.depth[parent] + 1, parent, ns[0].typeId)
    requires t.frontier == s.frontier || t.frontier == s.frontier + [ns[0].target]
    ensures Expanding(env, t, parent, ns[1..])
  {
    GrowKeepsRooted(env, s.tree, parent, ns[0]);
  }

  lemma OfferKeepsExpanding(env: Env, s: State, parent: nat, ns: seq<Neighbor>)
    requires ns != [] && Expanding(env, s, parent, ns)
    ensures var t := Offer(env, s, parent, s.tree.depth[parent], ns[0]);
            && Expanding(env, t, parent, ns[1..])
            && t.tree.depth[parent] == s.tree.depth[parent]
  {
    var t := Offer(env, s, parent, s.tree.depth[parent], ns[0]);
    OfferCases(env, s, parent, s.tree.depth[parent], ns[0]);
    if t.tree != s.tree {
      GrownKeepsExpanding(env, s, t, parent, ns);
    }
  }

  lemma {:induction false} OfferAllKeepsRooted(env: Env, s: State, parent: nat, ns: seq<Neighbor>)
    requires Expanding(env, s, parent, ns)
    ensures var t := OfferAll(env, s, parent, s.tree.depth[parent], ns);
            Rooted(env, t.tree) && Queued(t)
    decreases |ns|
  {
    if ns != [] {
      OfferKeepsExpanding(env, s, parent, ns);
      OfferAllKeepsRooted(env, Offer(env, s, parent, s.tree.depth[parent], ns[0]), parent, ns[1..]);
    }
  }

  /** If no cap fires, every admissible neighbour offered ends up visited. */
  lemma {:induction false} OfferAllVisits(env: Env, s: State, parent: nat, d: int, ns: seq<Neighbor>)
    requires !env.config.edgeTypeFilter.NoneMatched? && OfferAll(env, s, parent, d, ns).status == Open
    ensures s.status == Open
    ensures var t := OfferAll(env, s, parent, d, ns);
            && s.tree.visited <= t.tree.visited
            && (forall n :: n in ns && EntryAdmissible(env, n) ==> n.target in t.tree.visited)
    decreases |ns|
  {
    if s.status != Open {
      OfferAllClosed(env, s, parent, d, ns);
    } else if ns != [] {
      var next := Offer(env, s, parent, d, ns[0]);
      OfferAllVisits(env, next, parent, d, ns[1..]);
      OfferCases(env, s, parent, d, ns[0]);
    }
  }

  /** The next node's expansion begins in a state that fits its offers. */
  lemma ExpansionBegins(env: Env, s: State)
    requires Rooted(env, s.tree) && Queued(s) && s.frontier != []
    requires !env.config.edgeTypeFilter.NoneMatched?
    ensures var (current, rest) := Next(env.depthFirst, s.frontier);
            && current in s.tree.visited && current !in rest
            && Queued(s.(frontier := rest))
            && (s.tree.depth[current] < env.config.maxDepth ==>
                  Expanding(env, s.(frontier := rest), current, env.Expansion(current)))
  {
    var (current, rest) := Next(env.depthFirst, s.frontier);
    forall n | n in env.Expansion(current)
      ensures n in env.Outgoing(current)
    {
      ExpansionEntries(env, current, n);
    }
  }

  lemma {:induction false} RunKeepsRooted(env: Env, s: State)
    requires Rooted(env, s.tree) && Queued(s)
    requires env.config.edgeTypeFilter.NoneMatched? ==> s.frontier == []
    ensures Rooted(env, Run(env, s).tree)
    decreases Nodes(env) - s.tree.visited, |s.frontier|
  {
    if s.status == Open && s.frontier != [] {
      ExpandProgresses(env, s);
      ExpansionBegins(env, s);
      var (current, rest) := Next(env.depthFirst, s.frontier);
      if s.tree.depth[current] < env.config.maxDepth {
        OfferAllKeepsRooted(env, s.(frontier := rest), current, env.Expansion(current));
      }
      RunKeepsRooted(env, Expand(env, s));
    }
  }

  /** The nodes from the seed down to a visited node, parent by parent. */
  ghost function TreePath(env: Env, t: Tree, v: nat): seq<nat>
    requires Rooted(env, t) && v in t.visited
    decreases t.depth[v]
  {
    if v == env.config.seedNode then [v]
    else
      assert Hangs(env, t, v);
      TreePath(env, t, t.parent[v]) + [v]
  }

  /** That path is a walk with one step per level. */
  lemma {:induction false} TreePathIsWalk(env: Env, t: Tree, v: nat)
    requires Rooted(env, t) && v in t.visited
    ensures var p := TreePath(env, t, v);
            IsWalk(env, p) && |p| == t.depth[v] + 1 && p[|p| - 1] == v
    decreases t.depth[v]
  {
    if v != env.config.seedNode {
      assert Hangs(env, t, v);
      TreePathIsWalk(env, t, t.parent[v]);
      assert Step(env, t.parent[v], v);
    }
  }

  /** A run visits something exactly when the seed is accepted. */
  lemma StartGrows(env: Env)
    ensures Run(env, Start(env)).tree.visited != {} <==> SeedAccepted(env)
  {
    RunOnlyGrows(env, Start(env));
    if SeedAccepted(env) {
      assert env.config.seedNode in Start(env).tree.visited;
    }
  }

  lemma {:induction false} RunOnlyGrows(env: Env, s: State)
    requires s.tree.visited <= Nodes(env)
    ensures s.tree.visited <= Run(env, s).tree.visited
    decreases Nodes(env) - s.tree.visited, |s.frontier|
  {
    if s.status == Open && s.frontier != [] {
      var (current, rest) := Next(env.depthFirst, s.frontier);
      ExpandProgresses(env, s);
      OfferAllProgresses(env, s.(frontier := rest), current, s.tree.DepthOf(current), env.Expansion(current));
      RunOnlyGrows(env, Expand(env, s));
    }
  }

  /** When no edge type can match there are no steps at all, and the start is the whole answer. */
  lemma NoTypeNoSteps(env: Env)
    requires env.config.edgeTypeFilter.NoneMatched?
    ensures forall u, v :: !Step(env, u, v)
    ensures Run(env, Start(env)) == Start(env)
  {
  }

  /** Every answer of either strategy is a discovery tree, rooted at the seed if it was accepted. */
  lemma AnswerRooted(env: Env)
    ensures var t := Run(env, Start(env)).tree;
            Rooted(env, t) && (t.visited != {} <==> SeedAccepted(env))
  {
    StartGrows(env);
    RunKeepsRooted(env, Start(env));
  }
}
