/** The eager engines as they run: loops over the queue or stack that record each admitted node and
    return at the first cap. */
module Engines {
  import opened Prelude
  import opened Topology
  import opened Traversal
  import opened TraversalMaps
  import opened DepthOrder
  import Reachability

  /** The visited bitmap with its three metadata columns. */
  datatype Ledger = Ledger(
    visited: set<nat>,
    depth: TraversalMap<int>,
    parent: TraversalMap<nat>,
    parentType: TraversalMap<nat>)
  {
    /** The columns have the run's size and reserved values, and depths are never negative. */
    ghost predicate Valid(nodeCount: nat) {
      && depth.Holds(nodeCount) && parent.Holds(nodeCount) && parentType.Holds(nodeCount)
      && depth.absent == -1 && parent.absent == U32_MAX && parentType.absent == U32_MAX
      && forall v <- depth.View() :: depth.View()[v] >= 0
    }

    ghost function View(): Tree {
      Tree(visited, depth.View(), parent.View(), parentType.View())
    }

    function DepthOf(node: nat): int {
      match depth.Get(node)
      case Some(d) => d
      case None => -1
    }

    function Record(node: nat, nodeDepth: int, nodeParent: nat, typeId: nat): Ledger
      requires depth.Dense? ==> node < |depth.cells|
      requires parent.Dense? ==> node < |parent.cells|
      requires parentType.Dense? ==> node < |parentType.cells|
    {
      Ledger(visited + {node}, depth.Set(node, nodeDepth), parent.Set(node, nodeParent), parentType.Set(node, typeId))
    }
  }

  function NewLedger(nodeCount: nat, maxNodes: nat): Ledger {
    var sparse := UseSparseMetadata(nodeCount, maxNodes);
    Ledger({}, Unvisited(nodeCount, sparse, -1), Unvisited(nodeCount, sparse, U32_MAX),
           Unvisited(nodeCount, sparse, U32_MAX))
  }

  lemma RecordGrows(l: Ledger, nodeCount: nat, node: nat, nodeDepth: int, nodeParent: nat, typeId: nat)
    requires l.Valid(nodeCount) && node < nodeCount
    requires nodeDepth >= 0 && nodeParent != U32_MAX && typeId != U32_MAX
    ensures l.Record(node, nodeDepth, nodeParent, typeId).Valid(nodeCount)
    ensures l.Record(node, nodeDepth, nodeParent, typeId).View() ==
            l.View().Grow(node, nodeDepth, nodeParent, typeId)
  {
    LayoutUnobservable(l.depth, nodeCount, node, nodeDepth);
    LayoutUnobservable(l.parent, nodeCount, node, nodeParent);
    LayoutUnobservable(l.parentType, nodeCount, node, typeId);
  }

  lemma DepthReads(l: Ledger, nodeCount: nat, node: nat)
    requires l.Valid(nodeCount)
    ensures l.DepthOf(node) == l.View().DepthOf(node) >= -1
  {
    LayoutUnobservable(l.depth, nodeCount, node, 0);
  }

  datatype TraversalOutcome = TraversalOutcome(ledger: Ledger, truncated: bool)

  /** An engine's result read through its columns. */
  ghost function Reads(r: Result<TraversalOutcome>): Result<BfsResult> {
    match r
    case Ok(o) => Ok(BfsResult(o.ledger.View(), o.truncated))
    case Err(e) => Err(e)
  }

  lemma EntryStorable(env: Env, u: nat, i: nat)
    requires i < |env.Expansion(u)|
    ensures env.Expansion(u)[i].typeId < U32_MAX
    ensures env.Expansion(u)[i].target in env.store.active ==> env.Expansion(u)[i].target < env.store.nodeCount
  {
    Reachability.ExpansionEntries(env, u, env.Expansion(u)[i]);
  }

  lemma GateFacts(env: Env, n: Neighbor, visited: set<nat>)
    ensures CandidateAllowed(env, n, visited) == Ok(true) ==> n.target < env.store.nodeCount && n.target !in visited
    ensures CandidateAllowed(env, n, visited).Err? ==>
            CandidateAllowed(env, n, visited).error == RelationshipIdentityMissing
  {
  }

  /** Record one admitted neighbour and apply the circuit breakers; true once a cap has fired. */
  method RecordNeighbor(env: Env, ledger: Ledger, queue: seq<nat>, seen: nat, current: nat, currentDepth: int, n: Neighbor)
    returns (capped: bool, found: Ledger, frontier: seq<nat>, nodesVisited: nat)
    requires ledger.Valid(env.store.nodeCount) && seen == |ledger.visited|
    requires n.target < env.store.nodeCount && n.target !in ledger.visited && n.typeId < U32_MAX
    requires current < env.store.nodeCount && currentDepth >= -1
    ensures Admit(env.config, State(queue, ledger.View(), Open), current, currentDepth, n.target, n.typeId) ==
            State(frontier, found.View(), if capped then Capped else Open)
    ensures found.Valid(env.store.nodeCount) && nodesVisited == |found.visited|
    ensures found.visited == ledger.visited + {n.target} && (frontier == queue || frontier == queue + [n.target])
  {
    RecordGrows(ledger, env.store.nodeCount, n.target, currentDepth + 1, current, n.typeId);
    found := ledger.Record(n.target, currentDepth + 1, current, n.typeId);
    frontier, nodesVisited := queue, seen + 1;
    if nodesVisited >= env.config.maxNodes {
      return true, found, frontier, nodesVisited;
    }
    if currentDepth + 1 < env.config.maxDepth {
      frontier := frontier + [n.target];
      if |frontier| >= env.config.maxFrontier {
        return true, found, frontier, nodesVisited;
      }
    }
    return false, found, frontier, nodesVisited;
  }

  /** The inner loop of eager breadth first; true once a cap has fired. */
  method OfferNeighbors(env: Env, ledger: Ledger, queue: seq<nat>, current: nat, currentDepth: int)
    returns (stopped: Result<bool>, found: Ledger, frontier: seq<nat>)
    requires ledger.Valid(env.store.nodeCount) && ledger.visited <= Nodes(env)
    requires forall j | 0 <= j < |queue| :: queue[j] < env.store.nodeCount
    requires current < env.store.nodeCount && currentDepth >= -1
    ensures var t := OfferAll(env, State(queue, ledger.View(), Open), current, currentDepth, env.Expansion(current));
            && stopped == (match t.status case Failed => Err(RelationshipIdentityMissing) case Capped => Ok(true) case Open => Ok(false))
            && (stopped.Ok? ==> State(frontier, found.View(), Open) == t.(status := Open))
    ensures found.Valid(env.store.nodeCount) && ledger.visited <= found.visited <= Nodes(env)
    ensures forall j | 0 <= j < |frontier| :: frontier[j] < env.store.nodeCount
  {
    found, frontier := ledger, queue;
    var nodesVisited := |found.visited|;
    var neighbors := env.Expansion(current);
    ghost var start := State(queue, ledger.View(), Open);
    var i := 0;
    while i < |neighbors|
      invariant i <= |neighbors|
      invariant found.Valid(env.store.nodeCount) && nodesVisited == |found.visited|
      invariant ledger.visited <= found.visited <= Nodes(env)
      invariant forall j | 0 <= j < |frontier| :: frontier[j] < env.store.nodeCount
      invariant OfferAll(env, State(frontier, found.View(), Open), current, currentDepth, neighbors[i..]) ==
                OfferAll(env, start, current, currentDepth, neighbors)
    {
      var n := neighbors[i];
      ghost var next := Offer(env, State(frontier, found.View(), Open), current, currentDepth, n);
      assert neighbors[i..][0] == n && neighbors[i..][1..] == neighbors[i + 1..];
      EntryStorable(env, current, i);
      GateFacts(env, n, found.visited);
      i := i + 1;
      if next.status != Open {
        OfferAllClosed(env, next, current, currentDepth, neighbors[i..]);
      }
      var allowed := CandidateAllowed(env, n, found.visited);
      if allowed.Err? {
        return Err(allowed.error), found, frontier;
      }
      if !allowed.value {
        continue;
      }
      var capped;
      capped, found, frontier, nodesVisited := RecordNeighbor(env, found, frontier, nodesVisited, current, currentDepth, n);
      if capped {
        return Ok(true), found, frontier;
      }
    }
    assert neighbors[i..] == [];
    return Ok(false), found, frontier;
  }

  /** Eager breadth first answers exactly as the value-level traversal, which is the search that always
      opens the oldest queued node. */
  method ExecuteBfs(env: Env) returns (r: Result<TraversalOutcome>)
    requires !env.depthFirst
    ensures Reads(r) == Answer(env)
    ensures Start(env).tree.visited <= Nodes(env) && Reads(r) == Report(Swept(env, Start(env)))
  {
    AnswerIsSweep(env);
    var nodeCount := env.store.nodeCount;
    var ledger := NewLedger(nodeCount, env.config.maxNodes);
    var seed := env.config.seedNode;
    if seed >= nodeCount || !env.scope.AllowsNode(seed) {
      return Ok(TraversalOutcome(ledger, false));
    }
    RecordGrows(ledger, nodeCount, seed, 0, seed, UNTYPED);
    ledger := ledger.Record(seed, 0, seed, UNTYPED);
    var frontier := [seed];
    if env.config.edgeTypeFilter.NoneMatched? {
      return Ok(TraversalOutcome(ledger, false));
    }
    while frontier != []
      invariant ledger.Valid(nodeCount) && ledger.visited <= Nodes(env)
      invariant forall j | 0 <= j < |frontier| :: frontier[j] < nodeCount
      invariant Run(env, State(frontier, ledger.View(), Open)) == Run(env, Start(env))
      decreases Nodes(env) - ledger.visited, |frontier|
    {
      ghost var before := State(frontier, ledger.View(), Open);
      var current := frontier[0];
      frontier := frontier[1..];
      DepthReads(ledger, nodeCount, current);
      var currentDepth := ledger.DepthOf(current);
      if currentDepth >= env.config.maxDepth {
        continue;
      }
      ExpandProgresses(env, before);
      var stopped;
      stopped, ledger, frontier := OfferNeighbors(env, ledger, frontier, current, currentDepth);
      if stopped.Err? {
        return Err(stopped.error);
      }
      if stopped.value {
        return Ok(TraversalOutcome(ledger, true));
      }
    }
    return Ok(TraversalOutcome(ledger, false));
  }

  /** The mutable state the depth-first engine lends to each expansion. */
  class DfsPushContext {
    const env: Env
    var ledger: Ledger
    var stack: seq<nat>
    var nodesVisited: nat

    ghost predicate Valid()
      reads this
    {
      && ledger.Valid(env.store.nodeCount)
      && ledger.visited <= Nodes(env)
      && nodesVisited == |ledger.visited|
      && forall j | 0 <= j < |stack| :: stack[j] < env.store.nodeCount
    }

    ghost function Now(): State
      reads this
    {
      State(stack, ledger.View(), Open)
    }

    constructor (env: Env, ledger: Ledger, stack: seq<nat>)
      requires ledger.Valid(env.store.nodeCount) && ledger.visited <= Nodes(env)
      requires forall j | 0 <= j < |stack| :: stack[j] < env.store.nodeCount
      ensures this.env == env && Valid() && Now() == State(stack, ledger.View(), Open)
    {
      this.env := env;
      this.ledger := ledger;
      this.stack := stack;
      this.nodesVisited := |ledger.visited|;
    }

    /** False once a cap has fired. */
    method PushCandidate(current: nat, currentDepth: int, n: Neighbor) returns (r: Result<bool>)
      requires Valid() && current < env.store.nodeCount && currentDepth >= -1 && n.typeId < U32_MAX
      modifies this
      ensures Valid()
      ensures var t := Offer(env, old(Now()), current, currentDepth, n);
              && r == (match t.status case Failed => Err(RelationshipIdentityMissing) case Capped => Ok(false) case Open => Ok(true))
              && (r.Ok? ==> Now() == t.(status := Open) && old(ledger.visited) <= ledger.visited)
    {
      GateFacts(env, n, ledger.visited);
      var allowed := CandidateAllowed(env, n, ledger.visited);
      if allowed.Err? {
        return Err(allowed.error);
      }
      if !allowed.value {
        return Ok(true);
      }
      var capped;
      capped, ledger, stack, nodesVisited := RecordNeighbor(env, ledger, stack, nodesVisited, current, currentDepth, n);
      return Ok(!capped);
    }

    /** True once a cap has fired. */
    method PushNeighbors(current: nat, currentDepth: int) returns (r: Result<bool>)
      requires Valid() && current < env.store.nodeCount && currentDepth >= -1
      modifies this
      ensures Valid()
      ensures var t := OfferAll(env, old(Now()), current, currentDepth, env.Expansion(current));
              && r == (match t.status case Failed => Err(RelationshipIdentityMissing) case Capped => Ok(true) case Open => Ok(false))
              && (r.Ok? ==> Now() == t.(status := Open) && old(ledger.visited) <= ledger.visited)
    {
      var neighbors := env.Expansion(current);
      var i := 0;
      while i < |neighbors|
        invariant i <= |neighbors| && Valid() && old(ledger.visited) <= ledger.visited
        invariant OfferAll(env, Now(), current, currentDepth, neighbors[i..]) ==
                  OfferAll(env, old(Now()), current, currentDepth, neighbors)
      {
        var n := neighbors[i];
        ghost var now := Now();
        assert neighbors[i..][0] == n && neighbors[i..][1..] == neighbors[i + 1..];
        EntryStorable(env, current, i);
        i := i + 1;
        var pushed := PushCandidate(current, currentDepth, n);
        if pushed.Err? {
          OfferAllClosed(env, Offer(env, now, current, currentDepth, n), current, currentDepth, neighbors[i..]);
          return Err(pushed.error);
        }
        if !pushed.value {
          OfferAllClosed(env, Offer(env, now, current, currentDepth, n), current, currentDepth, neighbors[i..]);
          return Ok(true);
        }
      }
      assert neighbors[i..] == [];
      return Ok(false);
    }

    /** Take the newest node off the stack and push what it leads to; true once a cap has fired. */
    method ExpandNewest() returns (r: Result<bool>)
      requires Valid() && stack != [] && env.depthFirst
      modifies this
      ensures Valid()
      ensures var t := Expand(env, old(Now()));
              && r == (match t.status case Failed => Err(RelationshipIdentityMissing) case Capped => Ok(true) case Open => Ok(false))
              && (r.Ok? ==> Now() == t.(status := Open))
    {
      var current := stack[|stack| - 1];
      stack := stack[..|stack| - 1];
      DepthReads(ledger, env.store.nodeCount, current);
      var currentDepth := ledger.DepthOf(current);
      if currentDepth >= env.config.maxDepth {
        return Ok(false);
      }
      r := PushNeighbors(current, currentDepth);
    }
  }

  /** Eager depth first answers exactly as the value-level traversal, which is the search that
      finishes everything the newest queued node leads to before it returns to an older one. */
  method ExecuteDfs(env: Env) returns (r: Result<TraversalOutcome>)
    requires env.depthFirst
    ensures Reads(r) == Answer(env)
    ensures Start(env).tree.visited <= Nodes(env) && Reads(r) == Report(Finished(env, Start(env), 0))
  {
    AnswerIsSearch(env);
    var nodeCount := env.store.nodeCount;
    var ledger := NewLedger(nodeCount, env.config.maxNodes);
    var seed := env.config.seedNode;
    if seed >= nodeCount || !env.scope.AllowsNode(seed) {
      return Ok(TraversalOutcome(ledger, false));
    }
    RecordGrows(ledger, nodeCount, seed, 0, seed, UNTYPED);
    ledger := ledger.Record(seed, 0, seed, UNTYPED);
    if env.config.edgeTypeFilter.NoneMatched? {
      return Ok(TraversalOutcome(ledger, false));
    }
    var push := new DfsPushContext(env, ledger, [seed]);
    while push.stack != []
      invariant push.env == env && push.Valid()
      invariant Run(env, push.Now()) == Run(env, Start(env))
      decreases Nodes(env) - push.ledger.visited, |push.stack|
    {
      ExpandProgresses(env, push.Now());
      var stopped := push.ExpandNewest();
      if stopped.Err? {
        return Err(stopped.error);
      }
      if stopped.value {
        return Ok(TraversalOutcome(push.ledger, true));
      }
    }
    return Ok(TraversalOutcome(push.ledger, false));
  }
}
