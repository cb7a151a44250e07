/** Hidden equals absent: a caller's scope changes an answer only as deleting the hidden nodes and
    relationships from the graph would. */
module HiddenAbsent {
  import opened Prelude
  import opened Topology
  import opened Traversal

  predicate NodeHidden(scope: VisibilityScope, node: nat) {
    match scope
    case Unrestricted => false
    case DirectNode(visible) => node != visible
    case Enforced(hiddenNodes, _, _) => node in hiddenNodes
  }

  /** Hidden relationships of the types whose identity counts, and those of such types without one. */
  predicate RelationshipHidden(scope: VisibilityScope, n: Neighbor) {
    match scope
    case Unrestricted => false
    case DirectNode(_) => true
    case Enforced(_, hiddenRelationships, policy) =>
      && (policy.AllTypes? || n.typeId in policy.types)
      && (n.relationshipId.None? || n.relationshipId.value in hiddenRelationships)
  }

  predicate Shows(scope: VisibilityScope, n: Neighbor) {
    !RelationshipHidden(scope, n) && !NodeHidden(scope, n.target)
  }

  /** The entries of an adjacency list that the scope leaves visible, in order. */
  function Shown(scope: VisibilityScope, ns: seq<Neighbor>): (r: seq<Neighbor>)
    ensures forall n :: n in r ==> n in ns
  {
    if ns == [] then []
    else (if Shows(scope, ns[0]) then [ns[0]] else []) + Shown(scope, ns[1..])
  }

  /** The same graph with every hidden node's list emptied, every entry to a hidden node or over a
      hidden relationship deleted, and no scope left to enforce. */
  function Erased(env: Env): (r: Env)
    ensures |r.adjacency| == |env.adjacency|
    ensures forall u | 0 <= u < |env.adjacency| ::
              r.adjacency[u] == if !NodeHidden(env.scope, u) then Shown(env.scope, env.adjacency[u]) else []
  {
    var lists := seq(|env.adjacency|, u requires 0 <= u < |env.adjacency| =>
      if !NodeHidden(env.scope, u) then Shown(env.scope, env.adjacency[u]) else []);
    assert forall u, i | 0 <= u < |lists| && 0 <= i < |lists[u]| :: lists[u][i] in env.adjacency[u];
    env.(scope := Unrestricted, adjacency := lists)
  }

  lemma {:induction false} ShownSplit(scope: VisibilityScope, a: seq<Neighbor>, b: seq<Neighbor>)
    ensures Shown(scope, a + b) == Shown(scope, a) + Shown(scope, b)
    decreases |a|
  {
    if a == [] {
      assert a + b == b;
    } else {
      assert (a + b)[1..] == a[1..] + b && (a + b)[0] == a[0];
      ShownSplit(scope, a[1..], b);
      assert Shown(scope, a + b) == (if Shows(scope, a[0]) then [a[0]] else []) + Shown(scope, a[1..] + b);
    }
  }

  lemma {:induction false} ShownReversed(scope: VisibilityScope, ns: seq<Neighbor>)
    ensures Shown(scope, Reversed(ns)) == Reversed(Shown(scope, ns))
    decreases |ns|
  {
    if ns != [] {
      ShownReversed(scope, ns[1..]);
      ShownSplit(scope, Reversed(ns[1..]), [ns[0]]);
      if Shows(scope, ns[0]) {
        assert Shown(scope, ns)[1..] == Shown(scope, ns[1..]);
      } else {
        assert Shown(scope, ns) == Shown(scope, ns[1..]);
      }
    }
  }

  lemma ErasedExpansion(env: Env, u: nat)
    requires !NodeHidden(env.scope, u)
    ensures Erased(env).Expansion(u) == Shown(env.scope, env.Expansion(u))
  {
    if u < |env.adjacency| {
      ShownReversed(env.scope, env.adjacency[u]);
    }
  }

  /** A shown entry meets the same gate without the scope; any other entry is refused or fails. */
  lemma ErasedGate(env: Env, n: Neighbor, visited: set<nat>)
    ensures Shows(env.scope, n) ==> CandidateAllowed(Erased(env), n, visited) == CandidateAllowed(env, n, visited)
    ensures !Shows(env.scope, n) ==> CandidateAllowed(env, n, visited) != Ok(true)
  {
  }

  lemma ErasedOffer(env: Env, s: State, parent: nat, d: int, n: Neighbor)
    requires forall u <- s.frontier :: !NodeHidden(env.scope, u)
    requires Offer(env, s, parent, d, n).status != Failed
    ensures var t := Offer(env, s, parent, d, n);
            && t == (if Shows(env.scope, n) then Offer(Erased(env), s, parent, d, n) else s)
            && (forall u <- t.frontier :: !NodeHidden(env.scope, u))
  {
    ErasedGate(env, n, s.tree.visited);
  }

  lemma {:induction false} ErasedOffers(env: Env, s: State, parent: nat, d: int, ns: seq<Neighbor>)
    requires forall u <- s.frontier :: !NodeHidden(env.scope, u)
    requires OfferAll(env, s, parent, d, ns).status != Failed
    ensures var t := OfferAll(env, s, parent, d, ns);
            && t == OfferAll(Erased(env), s, parent, d, Shown(env.scope, ns))
            && (forall u <- t.frontier :: !NodeHidden(env.scope, u))
    decreases |ns|
  {
    if ns != [] {
      var t := Offer(env, s, parent, d, ns[0]);
      if t.status == Failed {
        OfferAllClosed(env, t, parent, d, ns[1..]);
      }
      ErasedOffer(env, s, parent, d, ns[0]);
      ErasedOffers(env, t, parent, d, ns[1..]);
      if Shows(env.scope, ns[0]) {
        assert Shown(env.scope, ns)[1..] == Shown(env.scope, ns[1..]);
      } else {
        assert Shown(env.scope, ns) == Shown(env.scope, ns[1..]);
      }
    }
  }

  lemma {:induction false} ErasedRun(env: Env, s: State)
    requires s.tree.visited <= Nodes(env)
    requires forall u <- s.frontier :: !NodeHidden(env.scope, u)
    requires Run(env, s).status != Failed
    ensures Run(Erased(env), s) == Run(env, s)
    decreases Nodes(env) - s.tree.visited, |s.frontier|
  {
    if s.status == Open && s.frontier != [] {
      var (current, rest) := Next(env.depthFirst, s.frontier);
      var taken := s.(frontier := rest);
      ExpandProgresses(env, s);
      ExpandProgresses(Erased(env), s);
      assert forall u :: u in rest ==> u in s.frontier;
      var t := Expand(env, s);
      if s.tree.DepthOf(current) < env.config.maxDepth {
        ErasedExpansion(env, current);
        ErasedOffers(env, taken, current, s.tree.DepthOf(current), env.Expansion(current));
      }
      ErasedRun(env, t);
    }
  }

  /** For a scope that admits the seed, breadth first and depth first answer exactly as they would,
      unrestricted, on the graph with the hidden nodes and relationships deleted. */
  lemma HiddenEqualsAbsent(env: Env)
    requires !NodeHidden(env.scope, env.config.seedNode) && Answer(env).Ok?
    ensures Answer(Erased(env)) == Answer(env)
  {
    assert Start(Erased(env)) == Start(env);
    ErasedRun(env, Start(env));
  }

  /** A seed the caller may not see, or that does not exist, answers with nothing. */
  lemma HiddenSeedAnswersNothing(env: Env)
    requires NodeHidden(env.scope, env.config.seedNode) || env.config.seedNode >= env.store.nodeCount
    ensures Answer(env) == Ok(BfsResult(Tree({}, map[], map[], map[]), false))
  {
    assert Start(env) == State([], UNVISITED, Open);
  }
}
