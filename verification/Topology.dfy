/** What a traversal reads: node columns, adjacency lists, the run's configuration and the
    caller's visibility scope, with the gate every candidate edge must pass. */
module Topology {
  import opened Prelude

  const UNTYPED: nat := 0

  datatype Neighbor = Neighbor(
    target: nat,
    typeId: nat,
    schemaReversed: bool,
    relationshipId: Option<nat>)

  datatype EdgeTypeFilter = All | Only(allowed: set<nat>) | NoneMatched

  datatype RelationshipTypePolicy = Selected(types: set<nat>) | AllTypes {
    predicate RequiresIdentity(typeId: nat) {
      match this
      case Selected(types) => typeId in types
      case AllTypes => true
    }
  }

  datatype VisibilityScope =
    | Unrestricted
    | DirectNode(visibleNode: nat)
    | Enforced(hiddenNodes: set<nat>, hiddenRelationships: set<nat>, policy: RelationshipTypePolicy)
  {
    predicate AllowsNode(node: nat) {
      match this
      case Unrestricted => true
      case DirectNode(visible) => node == visible
      case Enforced(hidden, _, _) => node !in hidden
    }

    function AllowsRelationship(typeId: nat, relationshipId: Option<nat>): Result<bool> {
      match this
      case Unrestricted => Ok(true)
      case DirectNode(_) => Ok(false)
      case Enforced(_, hidden, policy) =>
        if !policy.RequiresIdentity(typeId) then Ok(true)
        else match relationshipId
          case None => Err(RelationshipIdentityMissing)
          case Some(id) => Ok(id !in hidden)
    }
  }

  datatype NodeStore = NodeStore(
    nodeCount: nat,
    active: set<nat>,
    tableOids: map<nat, nat>,
    primaryKeys: map<nat, seq<byte>>)

  /** Outcomes of the filter columns for this run's predicates, and the mapped tenant base. */
  datatype FilterIndex = FilterIndex(passing: set<nat>, mappedTenants: set<(string, nat)>)

  datatype RelationshipIdentity = RelationshipIdentity(mappingId: nat, sourceKey: seq<byte>)

  datatype BfsConfig = BfsConfig(
    seedNode: nat,
    maxDepth: int,
    maxNodes: nat,
    maxFrontier: nat,
    edgeTypeFilter: EdgeTypeFilter,
    hasFilters: bool,
    tenant: Option<string>,
    tenantedTableOids: set<nat>,
    tenantMembership: map<string, set<nat>>,
    tenantMembershipRemovals: map<string, set<nat>>)

  /** One run's frozen inputs. The projection epoch bound to a run is what keeps them constant. */
  datatype Inputs = Inputs(
    store: NodeStore,
    filters: FilterIndex,
    config: BfsConfig,
    scope: VisibilityScope,
    deletedNodes: set<nat>,
    relationships: map<nat, RelationshipIdentity>,
    adjacency: seq<seq<Neighbor>>,
    depthFirst: bool)
  {
    /** Node indexes are `u32`, the active column has `nodeCount` rows, and no stored edge carries
        the reserved all-ones type. */
    predicate WellFormed() {
      && store.nodeCount <= U32_MAX
      && (forall n <- store.active :: n < store.nodeCount)
      && (forall u, i | 0 <= u < |adjacency| && 0 <= i < |adjacency[u]| ::
            adjacency[u][i].typeId < U32_MAX)
    }

    /** Stored neighbour order of a node; nodes outside the offset table have none. */
    function Outgoing(node: nat): seq<Neighbor> {
      if node < |adjacency| then adjacency[node] else []
    }

    /** Neighbours in the order this run expands them. */
    function Expansion(node: nat): seq<Neighbor> {
      if depthFirst then Reversed(Outgoing(node)) else Outgoing(node)
    }
  }

  const NO_INPUTS := Inputs(
    NodeStore(0, {}, map[], map[]),
    FilterIndex({}, {}),
    BfsConfig(0, 0, 0, 0, All, false, None, {}, map[], map[]),
    Unrestricted, {}, map[], [], false)

  type Env = e: Inputs | e.WellFormed() witness NO_INPUTS

  function Reversed<T>(s: seq<T>): (r: seq<T>)
    ensures |r| == |s| && forall i :: 0 <= i < |s| ==> r[i] == s[|s| - 1 - i]
  {
    if s == [] then [] else Reversed(s[1..]) + [s[0]]
  }

  /** The tenant clause shared by both admission gates. */
  predicate ExcludedByTenant(env: Inputs, node: nat) {
    && env.config.tenant.Some?
    && node in env.store.tableOids
    && env.store.tableOids[node] in env.config.tenantedTableOids
    && var tenant := env.config.tenant.value;
       !(|| Holds(env.config.tenantMembership, tenant, node)
         || (&& (tenant, node) in env.filters.mappedTenants
             && !Holds(env.config.tenantMembershipRemovals, tenant, node)))
  }

  predicate Holds(members: map<string, set<nat>>, tenant: string, node: nat) {
    tenant in members && node in members[tenant]
  }

  predicate TypeAllowed(filter: EdgeTypeFilter, typeId: nat) {
    match filter
    case All => true
    case Only(allowed) => typeId in allowed
    case NoneMatched => false
  }

  /** The gate of the eager engine, in its own order. `NoneMatched` never reaches it: the eager
      entry points return before their loop. */
  function CandidateAllowed(env: Inputs, n: Neighbor, visited: set<nat>): Result<bool> {
    if env.config.edgeTypeFilter.Only? && n.typeId !in env.config.edgeTypeFilter.allowed then Ok(false)
    else
      var relationship :- env.scope.AllowsRelationship(n.typeId, n.relationshipId);
      if !relationship || !env.scope.AllowsNode(n.target) then Ok(false)
      else if n.target in visited then Ok(false)
      else if n.target !in env.store.active || n.target in env.deletedNodes then Ok(false)
      else if ExcludedByTenant(env, n.target) then Ok(false)
      else if env.config.hasFilters && n.target !in env.filters.passing then Ok(false)
      else Ok(true)
  }

  /** A node that may be visited, whatever edge leads to it. */
  predicate NodeAdmissible(env: Inputs, node: nat) {
    && node in env.store.active
    && node !in env.deletedNodes
    && !ExcludedByTenant(env, node)
    && (env.config.hasFilters ==> node in env.filters.passing)
  }

  /** The adjacency entry may be walked: its type, relationship and target are all permitted. */
  predicate EntryAdmissible(env: Inputs, n: Neighbor) {
    && TypeAllowed(env.config.edgeTypeFilter, n.typeId)
    && env.scope.AllowsRelationship(n.typeId, n.relationshipId) == Ok(true)
    && env.scope.AllowsNode(n.target)
    && NodeAdmissible(env, n.target)
  }

  /** The gate admits exactly the admissible entries whose target is still unvisited, and fails
      exactly on a permitted type whose required relationship identity is missing. */
  lemma GateMeaning(env: Inputs, n: Neighbor, visited: set<nat>)
    requires !env.config.edgeTypeFilter.NoneMatched?
    ensures CandidateAllowed(env, n, visited) == Ok(true) <==>
            EntryAdmissible(env, n) && n.target !in visited
    ensures CandidateAllowed(env, n, visited).Err? <==>
            && TypeAllowed(env.config.edgeTypeFilter, n.typeId)
            && env.scope.AllowsRelationship(n.typeId, n.relationshipId).Err?
    ensures CandidateAllowed(env, n, visited).Err? ==>
            CandidateAllowed(env, n, visited) == Err(RelationshipIdentityMissing)
  {
  }
}
