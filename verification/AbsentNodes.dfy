/** What the admission gate refuses might as well not be there: nodes of another tenant, deleted or
    filtered nodes and entries of other types change an answer only as removing them would. */
module AbsentNodes {
  import opened Prelude
  import opened Topology
  import opened Traversal

  /** The nodes a tenant's run must not see: those in a tenanted table that are not among the tenant's
      own, unless the mapped base has them and they have not been moved out of the tenant. */
  function Outsiders(env: Inputs, tenant: string): set<nat> {
    set node |
      && node in env.store.tableOids
      && env.store.tableOids[node] in env.config.tenantedTableOids
      && !(tenant in env.config.tenantMembership && node in env.config.tenantMembership[tenant])
      && !(&& (tenant, node) in env.filters.mappedTenants
           && !(tenant in env.config.tenantMembershipRemovals && node in env.config.tenantMembershipRemovals[tenant]))
  }

  /** The same run with no tenant set, on the graph without the outsiders. */
  function Untenanted(env: Env): Env {
    match env.config.tenant
    case None => env
    case Some(tenant) =>
      env.(config := env.config.(tenant := None),
           store := env.store.(active := env.store.active - Outsiders(env, tenant)))
  }

  /** The same run with nothing to test a node for but that it is there. */
  function Bare(env: Env): Env {
    var there := set node |
      && node in env.store.active && node !in env.deletedNodes
      && (env.config.tenant.Some? ==> node !in Outsiders(env, env.config.tenant.value))
      && (env.config.hasFilters ==> node in env.filters.passing);
    env.(config := env.config.(tenant := None, hasFilters := false), store := env.store.(active := there), deletedNodes := {})
  }

  /** Two graphs that differ only in what the gate asks of a node. */
  predicate AlikeButNodes(a: Inputs, b: Inputs) {
    && b.store.nodeCount == a.store.nodeCount && b.scope == a.scope && b.adjacency == a.adjacency && b.depthFirst == a.depthFirst
    && b.config.seedNode == a.config.seedNode && b.config.maxDepth == a.config.maxDepth
    && b.config.maxNodes == a.config.maxNodes && b.config.maxFrontier == a.config.maxFrontier
    && b.config.edgeTypeFilter == a.config.edgeTypeFilter
  }

  /** The gates answer alike, failures included. */
  ghost predicate SameGate(a: Inputs, b: Inputs) {
    forall n: Neighbor, visited: set<nat> :: CandidateAllowed(b, n, visited) == CandidateAllowed(a, n, visited)
  }

  lemma {:induction false} SameOffers(a: Env, b: Env, s: State, parent: nat, d: int, ns: seq<Neighbor>)
    requires AlikeButNodes(a, b) && SameGate(a, b)
    ensures OfferAll(b, s, parent, d, ns) == OfferAll(a, s, parent, d, ns)
    decreases |ns|
  {
    if ns != [] {
      assert CandidateAllowed(b, ns[0], s.tree.visited) == CandidateAllowed(a, ns[0], s.tree.visited);
      SameOffers(a, b, Offer(a, s, parent, d, ns[0]), parent, d, ns[1..]);
    }
  }

  lemma {:induction false} SameRun(a: Env, b: Env, s: State)
    requires AlikeButNodes(a, b) && SameGate(a, b) && s.tree.visited <= Nodes(a)
    ensures Run(b, s) == Run(a, s)
    decreases Nodes(a) - s.tree.visited, |s.frontier|
  {
    if s.status == Open && s.frontier != [] {
      var (current, rest) := Next(a.depthFirst, s.frontier);
      ExpandProgresses(a, s);
      ExpandProgresses(b, s);
      SameOffers(a, b, s.(frontier := rest), current, s.tree.DepthOf(current), a.Expansion(current));
      SameRun(a, b, Expand(a, s));
    }
  }

  lemma SameAnswer(a: Env, b: Env)
    requires AlikeButNodes(a, b) && SameGate(a, b)
    ensures Answer(b) == Answer(a)
  {
    SameRun(a, b, Start(a));
  }

  /** Either strategy answers a tenant's run, failures included, as it would with no tenant set on the
      graph without the other tenants' nodes. */
  lemma TenantEqualsAbsent(env: Env)
    ensures Answer(Untenanted(env)) == Answer(env)
  {
    SameAnswer(env, Untenanted(env));
  }

  /** Deleted, filtered, inactive and other tenants' nodes change an answer only as being absent does. */
  lemma RefusedEqualsAbsent(env: Env)
    ensures Answer(Bare(env)) == Answer(env)
  {
    SameAnswer(env, Bare(env));
  }

  /** The identity of this type of relationship decides who may see it. */
  predicate NeedsIdentity(scope: VisibilityScope, typeId: nat) {
    scope.Enforced? && (scope.policy.AllTypes? || typeId in scope.policy.types)
  }

  /** The gate in terms of the run's inputs alone. It admits an entry exactly when its type is followed,
      the scope hides neither its target nor, where that counts, its relationship, and the target is
      unvisited, active, not deleted, no outsider and passes the filters; it fails exactly over an entry
      of a followed type that needs an identity and has none. */
  lemma GateByFields(env: Inputs, n: Neighbor, visited: set<nat>)
    requires !env.config.edgeTypeFilter.NoneMatched?
    ensures CandidateAllowed(env, n, visited) == Ok(true) <==>
            && (env.config.edgeTypeFilter.Only? ==> n.typeId in env.config.edgeTypeFilter.allowed)
            && !env.scope.DirectNode?
            && (env.scope.Enforced? ==> n.target !in env.scope.hiddenNodes)
            && (NeedsIdentity(env.scope, n.typeId) ==>
                  n.relationshipId.Some? && n.relationshipId.value !in env.scope.hiddenRelationships)
            && n.target !in visited
            && n.target in env.store.active && n.target !in env.deletedNodes
            && (env.config.tenant.Some? ==> n.target !in Outsiders(env, env.config.tenant.value))
            && (env.config.hasFilters ==> n.target in env.filters.passing)
    ensures CandidateAllowed(env, n, visited).Err? <==>
            && (env.config.edgeTypeFilter.Only? ==> n.typeId in env.config.edgeTypeFilter.allowed)
            && NeedsIdentity(env.scope, n.typeId) && n.relationshipId.None?
  {
  }

  /** The same of an entry walks may take. */
  lemma AdmissibleByFields(env: Inputs, n: Neighbor)
    ensures EntryAdmissible(env, n) <==>
            !env.config.edgeTypeFilter.NoneMatched? && CandidateAllowed(env, n, {}) == Ok(true)
  {
    if !env.config.edgeTypeFilter.NoneMatched? {
      GateMeaning(env, n, {});
    }
  }
}
