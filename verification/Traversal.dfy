/** The traversal both strategies share, as a function on values: offer the neighbours of one node
    after another to the admission gate, stopping at the first cap or gate failure. */
module Traversal {
  import opened Prelude
  import opened Topology

  datatype Status = Open | Capped | Failed

  /** Discovery metadata: one entry per visited node in each map. */
  datatype Tree = Tree(
    visited: set<nat>,
    depth: map<nat, int>,
    parent: map<nat, nat>,
    parentType: map<nat, nat>)
  {
    function DepthOf(node: nat): int {
      if node in depth then depth[node] else -1
    }

    function Grow(node: nat, nodeDepth: int, nodeParent: nat, typeId: nat): Tree {
      Tree(visited + {node}, depth[node := nodeDepth], parent[node := nodeParent], parentType[node := typeId])
    }
  }

  datatype State = State(frontier: seq<nat>, tree: Tree, status: Status)

  const UNVISITED := Tree({}, map[], map[], map[])

  function Nodes(env: Inputs): set<nat> {
    Below(env.store.nodeCount)
  }

  /** The seed visited at depth zero and queued, unless no edge type can match. */
  function Seeded(env: Inputs): State {
    var seed := env.config.seedNode;
    if seed >= env.store.nodeCount then State([], UNVISITED, Open)
    else State(if env.config.edgeTypeFilter.NoneMatched? then [] else [seed],
               UNVISITED.Grow(seed, 0, seed, UNTYPED), Open)
  }

  /** The eager engines also refuse a seed the caller may not see. */
  function Start(env: Inputs): State {
    if env.scope.AllowsNode(env.config.seedNode) then Seeded(env) else State([], UNVISITED, Open)
  }

  /** Record one admitted neighbour, then apply the circuit breakers in their order. */
  function Admit(config: BfsConfig, s: State, parent: nat, parentDepth: int, target: nat, typeId: nat): State {
    var seen := s.(tree := s.tree.Grow(target, parentDepth + 1, parent, typeId));
    if |seen.tree.visited| >= config.maxNodes then seen.(status := Capped)
    else if parentDepth + 1 < config.maxDepth then
      var queued := seen.(frontier := seen.frontier + [target]);
      if |queued.frontier| >= config.maxFrontier then queued.(status := Capped) else queued
    else seen
  }

  function Offer(env: Inputs, s: State, parent: nat, parentDepth: int, n: Neighbor): State {
    if s.status != Open then s
    else match CandidateAllowed(env, n, s.tree.visited)
      case Err(_) => s.(status := Failed)
      case Ok(allowed) =>
        if allowed then Admit(env.config, s, parent, parentDepth, n.target, n.typeId) else s
  }

  function OfferAll(env: Inputs, s: State, parent: nat, parentDepth: int, ns: seq<Neighbor>): State
    decreases |ns|
  {
    if ns == [] then s
    else OfferAll(env, Offer(env, s, parent, parentDepth, ns[0]), parent, parentDepth, ns[1..])
  }

  /** Breadth first takes the oldest queued node, depth first the newest. */
  function Next(depthFirst: bool, frontier: seq<nat>): (r: (nat, seq<nat>))
    requires frontier != []
  {
    if depthFirst then (frontier[|frontier| - 1], frontier[..|frontier| - 1])
    else (frontier[0], frontier[1..])
  }

  /** Take the next queued node and offer everything it leads to. */
  function Expand(env: Inputs, s: State): State
    requires s.frontier != []
  {
    var (current, rest) := Next(env.depthFirst, s.frontier);
    var d := s.tree.DepthOf(current);
    if d >= env.config.maxDepth then s.(frontier := rest)
    else OfferAll(env, s.(frontier := rest), current, d, env.Expansion(current))
  }

  /** Expand until the frontier drains, a cap fires or the gate fails. */
  function Run(env: Env, s: State): State
    requires s.tree.visited <= Nodes(env)
    decreases Nodes(env) - s.tree.visited, |s.frontier|
  {
    if s.status != Open || s.frontier == [] then s
    else
      ExpandProgresses(env, s);
      Run(env, Expand(env, s))
  }

  /** Offering only ever adds visited nodes, all of them real ones; with nothing added the frontier
      is untouched. */
  lemma {:induction false} OfferAllProgresses(env: Env, s: State, parent: nat, d: int, ns: seq<Neighbor>)
    requires s.tree.visited <= Nodes(env)
    ensures var t := OfferAll(env, s, parent, d, ns);
            && s.tree.visited <= t.tree.visited <= Nodes(env)
            && (t.tree.visited == s.tree.visited ==> t.frontier == s.frontier)
    decreases |ns|
  {
    if ns != [] {
      var next := Offer(env, s, parent, d, ns[0]);
      assert next == s.(status := next.status)
        || (ns[0].target in next.tree.visited && ns[0].target !in s.tree.visited);
      OfferAllProgresses(env, next, parent, d, ns[1..]);
    }
  }

  lemma ExpandProgresses(env: Env, s: State)
    requires s.tree.visited <= Nodes(env) && s.frontier != []
    ensures var t := Expand(env, s);
            && t.tree.visited <= Nodes(env)
            && (|| Nodes(env) - t.tree.visited < Nodes(env) - s.tree.visited
                || (t.tree.visited == s.tree.visited && |t.frontier| < |s.frontier|))
  {
    var (current, rest) := Next(env.depthFirst, s.frontier);
    OfferAllProgresses(env, s.(frontier := rest), current, s.tree.DepthOf(current), env.Expansion(current));
    var t := Expand(env, s);
    if t.tree.visited != s.tree.visited {
      var added :| added in t.tree.visited && added !in s.tree.visited;
      assert added in Nodes(env) - s.tree.visited && added !in Nodes(env) - t.tree.visited;
    }
  }

  lemma {:induction false} OfferAllSplit(env: Inputs, s: State, parent: nat, d: int, a: seq<Neighbor>, b: seq<Neighbor>)
    ensures OfferAll(env, s, parent, d, a + b) == OfferAll(env, OfferAll(env, s, parent, d, a), parent, d, b)
    decreases |a|
  {
    if a == [] {
      assert a + b == b;
    } else {
      assert (a + b)[1..] == a[1..] + b;
      OfferAllSplit(env, Offer(env, s, parent, d, a[0]), parent, d, a[1..], b);
    }
  }

  lemma {:induction false} OfferAllClosed(env: Inputs, s: State, parent: nat, d: int, ns: seq<Neighbor>)
    requires s.status != Open
    ensures OfferAll(env, s, parent, d, ns) == s
    decreases |ns|
  {
    if ns != [] {
      OfferAllClosed(env, s, parent, d, ns[1..]);
    }
  }

  /** What a run reports; a gate failure reports no partial result. */
  datatype BfsResult = BfsResult(tree: Tree, truncated: bool)

  function Report(s: State): Result<BfsResult> {
    if s.status == Failed then Err(RelationshipIdentityMissing)
    else Ok(BfsResult(s.tree, s.status == Capped))
  }

  /** The eager answer. */
  function Answer(env: Env): Result<BfsResult> {
    Report(Run(env, Start(env)))
  }
}
