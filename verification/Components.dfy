/** Connected components over the visible part of the graph. */
module Components {
  import opened Prelude
  import opened Topology
  import opened UnionFind

  /** Present, undeleted and visible. */
  predicate Participates(env: Env, u: nat) {
    u in env.store.active && u !in env.deletedNodes && env.scope.AllowsNode(u)
  }

  /** An entry that joins its owner to its target. */
  predicate Joins(env: Env, n: Neighbor) {
    env.scope.AllowsRelationship(n.typeId, n.relationshipId) == Ok(true) && Participates(env, n.target)
  }

  /** A visible edge between participating nodes, in either direction. */
  ghost predicate Linked(env: Env, u: nat, v: nat) {
    LinksTo(env, u, v) || LinksTo(env, v, u)
  }

  ghost predicate LinksTo(env: Env, u: nat, v: nat) {
    Participates(env, u) && exists n :: n in env.Outgoing(u) && n.target == v && Joins(env, n)
  }

  /** An undirected path of visible edges through participating nodes. */
  ghost predicate IsChain(env: Env, p: seq<nat>) {
    && p != []
    && (forall i | 0 <= i < |p| :: Participates(env, p[i]))
    && (forall i, j | 0 <= i < j < |p| && j == i + 1 :: Linked(env, p[i], p[j]))
  }

  ghost predicate Connected(env: Env, u: nat, v: nat) {
    exists p :: IsChain(env, p) && p[0] == u && p[|p| - 1] == v
  }

  /** Nodes that take part and entries that join, in the inputs' own fields: a present node the scope does
      not hide, and an entry to such a node over a relationship it does not hide. */
  predicate Present(env: Inputs, u: nat) {
    && u in env.store.active && u !in env.deletedNodes
    && match env.scope
       case Unrestricted => true
       case DirectNode(visible) => u == visible
       case Enforced(hiddenNodes, _, _) => u !in hiddenNodes
  }

  predicate Followable(env: Inputs, n: Neighbor) {
    && Present(env, n.target)
    && match env.scope
       case Unrestricted => true
       case DirectNode(_) => false
       case Enforced(_, hiddenRelationships, policy) =>
         policy.AllTypes? || n.typeId in policy.types ==>
           n.relationshipId.Some? && n.relationshipId.value !in hiddenRelationships
  }

  ghost predicate Adjoining(env: Inputs, u: nat, v: nat) {
    && Present(env, u) && Present(env, v)
    && ((exists n :: n in env.Outgoing(u) && n.target == v && Followable(env, n))
        || (exists n :: n in env.Outgoing(v) && n.target == u && Followable(env, n)))
  }

  /** Being connected means a path of adjoining present nodes. */
  lemma ConnectedByFields(env: Env, u: nat, v: nat)
    ensures Participates(env, u) <==> Present(env, u)
    ensures Connected(env, u, v) <==>
            exists p: seq<nat> :: && p != [] && p[0] == u && p[|p| - 1] == v && IsFieldChain(env, p)
  {
    forall p: seq<nat>
      ensures IsChain(env, p) <==> p != [] && IsFieldChain(env, p)
    {
      ChainByFields(env, p);
    }
  }

  ghost predicate IsFieldChain(env: Inputs, p: seq<nat>) {
    && (forall i | 0 <= i < |p| :: Present(env, p[i]))
    && (forall i, j | 0 <= i < j < |p| && j == i + 1 :: Adjoining(env, p[i], p[j]))
  }

  lemma ChainByFields(env: Env, p: seq<nat>)
    ensures IsChain(env, p) <==> p != [] && IsFieldChain(env, p)
  {
    forall a, b
      ensures Participates(env, a) <==> Present(env, a)
      ensures Participates(env, a) && Participates(env, b) ==> (Linked(env, a, b) <==> Adjoining(env, a, b))
    {
      LinkByFields(env, a, b);
    }
  }

  lemma LinkByFields(env: Env, a: nat, b: nat)
    ensures Participates(env, a) <==> Present(env, a)
    ensures Participates(env, a) && Participates(env, b) ==> (Linked(env, a, b) <==> Adjoining(env, a, b))
  {
    forall n: Neighbor
      ensures Joins(env, n) <==> Followable(env, n)
    {
    }
  }

  lemma ConnectedSelf(env: Env, u: nat)
    requires Participates(env, u)
    ensures Connected(env, u, u)
  {
    assert IsChain(env, [u]);
  }

  lemma ConnectedStep(env: Env, u: nat, v: nat)
    requires Participates(env, u) && Participates(env, v) && Linked(env, u, v)
    ensures Connected(env, u, v)
  {
    assert IsChain(env, [u, v]);
  }

  lemma ConnectedTrans(env: Env, u: nat, v: nat, w: nat)
    requires Connected(env, u, v) && Connected(env, v, w)
    ensures Connected(env, u, w)
  {
    var p :| IsChain(env, p) && p[0] == u && p[|p| - 1] == v;
    var q :| IsChain(env, q) && q[0] == v && q[|q| - 1] == w;
    var r := p + q[1..];
    forall i, j | 0 <= i < j < |r| && j == i + 1
      ensures Linked(env, r[i], r[j])
    {
      if j < |p| {
        assert r[i] == p[i] && r[j] == p[j];
      } else {
        assert r[i] == q[i - |p| + 1] && r[j] == q[j - |p| + 1];
      }
    }
    assert IsChain(env, r);
    assert r[|r| - 1] == w;
  }

  lemma ConnectedSym(env: Env, u: nat, v: nat)
    requires Connected(env, u, v)
    ensures Connected(env, v, u)
  {
    var p :| IsChain(env, p) && p[0] == u && p[|p| - 1] == v;
    var r := Reversed(p);
    forall i, j | 0 <= i < j < |r| && j == i + 1
      ensures Linked(env, r[i], r[j])
    {
      assert Linked(env, p[|p| - 1 - j], p[|p| - 1 - i]);
    }
    assert IsChain(env, r);
  }

  /** Nodes share a class only if they are connected (or the same). */
  ghost predicate OnlyConnected(env: Env, root: seq<nat>) {
    forall x, y | 0 <= x < |root| && 0 <= y < |root| && root[x] == root[y] && x != y :: Connected(env, x, y)
  }

  /** The first `count` entries of a node have been merged. */
  ghost predicate MergedEntries(env: Env, root: seq<nat>, u: nat, count: nat)
    requires count <= |env.Outgoing(u)|
  {
    forall i | 0 <= i < count :: MergedEntry(env, root, u, env.Outgoing(u)[i])
  }

  ghost predicate MergedEntry(env: Env, root: seq<nat>, u: nat, n: Neighbor) {
    Joins(env, n) ==> u < |root| && n.target < |root| && root[u] == root[n.target]
  }

  ghost predicate MergedNodes(env: Env, root: seq<nat>, count: nat) {
    forall u | 0 <= u < count && Participates(env, u) :: MergedEntries(env, root, u, |env.Outgoing(u)|)
  }

  /** Merging the classes of two connected nodes joins only connected nodes. */
  lemma MergeKeepsOnlyConnected(env: Env, root: seq<nat>, u: nat, v: nat, from: nat, to: nat)
    requires OnlyConnected(env, root) && u < |root| && v < |root|
    requires (from, to) == (root[u], root[v]) || (from, to) == (root[v], root[u])
    requires Participates(env, u) && Participates(env, v) && Linked(env, u, v)
    ensures OnlyConnected(env, Merged(root, from, to))
  {
    var m := Merged(root, from, to);
    ConnectedSelf(env, u);
    ConnectedSelf(env, v);
    ConnectedStep(env, u, v);
    ConnectedSym(env, u, v);
    forall x, y | 0 <= x < |m| && 0 <= y < |m| && m[x] == m[y] && x != y
      ensures Connected(env, x, y)
    {
      if root[x] != root[y] {
        var a, b := if root[x] == root[u] then u else v, if root[y] == root[u] then u else v;
        assert root[x] == root[a] && root[y] == root[b];
        assert Connected(env, x, a) by { if x != a { assert root[x] == root[a]; } }
        assert Connected(env, b, y) by { if b != y { assert root[b] == root[y]; } }
        ConnectedTrans(env, x, a, b);
        ConnectedTrans(env, x, b, y);
      }
    }
  }

  /** Merging never separates nodes already together. */
  lemma MergeKeepsMerged(env: Env, root: seq<nat>, from: nat, to: nat, u: nat, count: nat)
    requires count <= |env.Outgoing(u)| && MergedEntries(env, root, u, count)
    ensures MergedEntries(env, Merged(root, from, to), u, count)
  {
    forall i | 0 <= i < count
      ensures MergedEntry(env, Merged(root, from, to), u, env.Outgoing(u)[i])
    {
      assert MergedEntry(env, root, u, env.Outgoing(u)[i]);
    }
  }

  lemma MergeKeepsMergedNodes(env: Env, root: seq<nat>, from: nat, to: nat, count: nat)
    requires MergedNodes(env, root, count)
    ensures MergedNodes(env, Merged(root, from, to), count)
  {
    forall u | 0 <= u < count && Participates(env, u)
      ensures MergedEntries(env, Merged(root, from, to), u, |env.Outgoing(u)|)
    {
      MergeKeepsMerged(env, root, from, to, u, |env.Outgoing(u)|);
    }
  }

  /** Once every node's entries are merged, the ends of any chain share a class. */
  lemma {:induction false} ChainsShareClass(env: Env, root: seq<nat>, p: seq<nat>)
    requires |root| == env.store.nodeCount && MergedNodes(env, root, env.store.nodeCount) && IsChain(env, p)
    ensures p[0] < |root| && p[|p| - 1] < |root| && root[p[0]] == root[p[|p| - 1]]
    decreases |p|
  {
    if |p| > 1 {
      var q := p[..|p| - 1];
      ChainsShareClass(env, root, q);
      var u, v := p[|p| - 2], p[|p| - 1];
      assert Linked(env, u, v);
      LinkSharesClass(env, root, u, v);
    }
  }

  lemma LinkSharesClass(env: Env, root: seq<nat>, u: nat, v: nat)
    requires |root| == env.store.nodeCount && MergedNodes(env, root, env.store.nodeCount) && Linked(env, u, v)
    ensures u < |root| && v < |root| && root[u] == root[v]
  {
    var a, b := if LinksTo(env, u, v) then u else v, if LinksTo(env, u, v) then v else u;
    var n :| n in env.Outgoing(a) && n.target == b && Joins(env, n);
    var i :| 0 <= i < |env.Outgoing(a)| && env.Outgoing(a)[i] == n;
    assert MergedEntries(env, root, a, |env.Outgoing(a)|);
    assert MergedEntry(env, root, a, env.Outgoing(a)[i]);
  }

  /** What the classes are worth once all entries are merged. */
  lemma ClassesAreComponents(env: Env, root: seq<nat>, u: nat, v: nat)
    requires |root| == env.store.nodeCount && MergedNodes(env, root, env.store.nodeCount) && OnlyConnected(env, root)
    requires Participates(env, u) && Participates(env, v)
    ensures u < |root| && v < |root| && (root[u] == root[v] <==> Connected(env, u, v))
  {
    if Connected(env, u, v) {
      var p :| IsChain(env, p) && p[0] == u && p[|p| - 1] == v;
      ChainsShareClass(env, root, p);
    } else {
      ConnectedSelf(env, u);
    }
  }

  datatype ComponentResult = ComponentResult(
    component: seq<nat>,
    numComponents: nat,
    largestComponentSize: nat,
    componentSizes: map<nat, nat>)

  /** The nodes carrying a label. */
  function Labelled(component: seq<nat>, c: nat): set<nat> {
    set u: nat | u < |component| && component[u] == c
  }

  function Participants(env: Env): set<nat> {
    set u | u in env.store.active && Participates(env, u)
  }

  /** The sizes recorded for labels below `bound`, added up. */
  function SumSizes(sizes: map<nat, nat>, bound: nat): nat {
    if bound == 0 then 0
    else SumSizes(sizes, bound - 1) + if bound - 1 in sizes then sizes[bound - 1] else 0
  }

  ghost predicate IsLargest(sizes: map<nat, nat>, largest: nat) {
    && (forall c <- sizes :: sizes[c] <= largest)
    && (if sizes == map[] then largest == 0 else exists c :: c in sizes && sizes[c] == largest)
  }

  /** Only excluded nodes carry the reserved label; participating nodes share a label exactly when a
      chain joins them. */
  ghost predicate LabelsRight(env: Env, component: seq<nat>) {
    && |component| == env.store.nodeCount
    && (forall u | 0 <= u < |component| :: component[u] == U32_MAX <==> !Participates(env, u))
    && (forall u, v | 0 <= u < |component| && 0 <= v < |component| && Participates(env, u) && Participates(env, v) ::
          component[u] == component[v] <==> Connected(env, u, v))
  }

  /** One size per label in use, each the number of nodes carrying it; together they cover every
      participating node. */
  ghost predicate SizesRight(env: Env, component: seq<nat>, sizes: map<nat, nat>) {
    && (forall c :: c in sizes <==> c != U32_MAX && Labelled(component, c) != {})
    && (forall c <- sizes :: sizes[c] == |Labelled(component, c)|)
    && SumSizes(sizes, env.store.nodeCount) == |Participants(env)|
  }

  /** A participating node with an entry whose type requires an identity it lacks. */
  ghost predicate Unresolved(env: Env, u: nat) {
    Participates(env, u) && exists n :: n in env.Outgoing(u) && env.scope.AllowsRelationship(n.typeId, n.relationshipId).Err?
  }

  lemma UnresolvedByFields(env: Env, u: nat)
    ensures Unresolved(env, u) <==>
            && Present(env, u) && env.scope.Enforced?
            && exists n :: n in env.Outgoing(u) && n.relationshipId.None?
                           && (env.scope.policy.AllTypes? || n.typeId in env.scope.policy.types)
  {
    forall n: Neighbor
      ensures env.scope.AllowsRelationship(n.typeId, n.relationshipId).Err? <==>
              env.scope.Enforced? && n.relationshipId.None? && (env.scope.policy.AllTypes? || n.typeId in env.scope.policy.types)
    {
    }
  }

  /** Merge one participating node with everything its entries join it to. */
  method UnionEntries(env: Env, sets: DisjointSets, node: nat) returns (r: Result<()>)
    requires sets.Valid() && |sets.root| == env.store.nodeCount && Participates(env, node)
    requires MergedNodes(env, sets.root, node) && OnlyConnected(env, sets.root)
    modifies sets
    ensures sets.Valid() && |sets.root| == env.store.nodeCount
    ensures r == if Unresolved(env, node) then Err(RelationshipIdentityMissing) else Ok(())
    ensures r.Ok? ==> MergedNodes(env, sets.root, node + 1) && OnlyConnected(env, sets.root)
  {
    var entries := env.Outgoing(node);
    var i := 0;
    while i < |entries|
      invariant i <= |entries| && sets.Valid() && |sets.root| == env.store.nodeCount
      invariant MergedNodes(env, sets.root, node) && OnlyConnected(env, sets.root)
      invariant MergedEntries(env, sets.root, node, i)
      invariant forall j | 0 <= j < i :: env.scope.AllowsRelationship(entries[j].typeId, entries[j].relationshipId).Ok?
    {
      var edge := entries[i];
      var allowed := env.scope.AllowsRelationship(edge.typeId, edge.relationshipId);
      if allowed.Err? {
        assert edge in env.Outgoing(node);
        return Err(allowed.error);
      }
      if allowed.value && env.scope.AllowsNode(edge.target)
         && edge.target in env.store.active && edge.target !in env.deletedNodes {
        ghost var before := sets.root;
        var from, to := sets.Union(node, edge.target);
        assert LinksTo(env, node, edge.target) by {
          assert edge in env.Outgoing(node);
        }
        MergeKeepsOnlyConnected(env, before, node, edge.target, from, to);
        MergeKeepsMerged(env, before, from, to, node, i);
        MergeKeepsMergedNodes(env, before, from, to, node);
      }
      assert MergedEntry(env, sets.root, node, edge);
      i := i + 1;
    }
    return Ok(());
  }

  /** Participating nodes of a class among the first `count`. */
  function Members(env: Env, root: seq<nat>, c: nat, count: nat): set<nat>
    requires count <= |root|
  {
    set u: nat | u < count && Participates(env, u) && root[u] == c
  }

  function ParticipantsBelow(env: Env, count: nat): set<nat> {
    set u: nat | u < count && Participates(env, u)
  }

  /** Each size counts the members found so far. */
  ghost predicate Counted(env: Env, root: seq<nat>, count: nat, sizes: map<nat, nat>)
    requires count <= |root|
  {
    && (forall c :: c in sizes <==> Members(env, root, c, count) != {})
    && (forall c <- sizes :: sizes[c] == |Members(env, root, c, count)|)
  }

  /** The first `count` nodes have been labelled and counted. */
  ghost predicate Tallied(env: Env, root: seq<nat>, count: nat, component: seq<nat>, sizes: map<nat, nat>) {
    && count <= |root| == |component| == env.store.nodeCount
    && (forall u | 0 <= u < count :: component[u] == if Participates(env, u) then root[u] else U32_MAX)
    && Counted(env, root, count, sizes)
    && SumSizes(sizes, env.store.nodeCount) == |ParticipantsBelow(env, count)|
  }

  lemma {:induction false} SumGrows(sizes: map<nat, nat>, c: nat, bound: nat)
    ensures SumSizes(sizes[c := (if c in sizes then sizes[c] else 0) + 1], bound) ==
            SumSizes(sizes, bound) + if c < bound then 1 else 0
  {
    if bound > 0 {
      SumGrows(sizes, c, bound - 1);
    }
  }

  lemma TallyExcluded(env: Env, root: seq<nat>, node: nat, component: seq<nat>, sizes: map<nat, nat>)
    requires Tallied(env, root, node, component, sizes) && node < |root| && !Participates(env, node)
    ensures Tallied(env, root, node + 1, component[node := U32_MAX], sizes)
  {
    assert ParticipantsBelow(env, node + 1) == ParticipantsBelow(env, node);
    assert forall c :: Members(env, root, c, node + 1) == Members(env, root, c, node);
  }

  /** One more for this label. */
  function CountOne(sizes: map<nat, nat>, c: nat): map<nat, nat> {
    sizes[c := (if c in sizes then sizes[c] else 0) + 1]
  }

  lemma CountMember(env: Env, root: seq<nat>, node: nat, sizes: map<nat, nat>)
    requires node < |root| && Counted(env, root, node, sizes) && Participates(env, node)
    ensures Counted(env, root, node + 1, CountOne(sizes, root[node]))
  {
    var c := root[node];
    var counted := CountOne(sizes, c);
    assert Members(env, root, c, node + 1) == Members(env, root, c, node) + {node};
    forall d | d != c
      ensures Members(env, root, d, node + 1) == Members(env, root, d, node)
      ensures d in counted <==> d in sizes
    {
    }
  }

  lemma BelowWith(env: Env, node: nat)
    requires Participates(env, node)
    ensures |ParticipantsBelow(env, node + 1)| == |ParticipantsBelow(env, node)| + 1
  {
    assert ParticipantsBelow(env, node + 1) == ParticipantsBelow(env, node) + {node};
  }

  lemma TallyMember(env: Env, root: seq<nat>, node: nat, component: seq<nat>, sizes: map<nat, nat>)
    requires Tallied(env, root, node, component, sizes) && node < |root| && Participates(env, node)
    requires root[node] < |root|
    ensures Tallied(env, root, node + 1, component[node := root[node]], CountOne(sizes, root[node]))
  {
    CountMember(env, root, node, sizes);
    SumGrows(sizes, root[node], env.store.nodeCount);
    BelowWith(env, node);
  }

  /** Labels taken from the representatives are components, and the tallies their sizes. */
  lemma TalliesAreComponents(env: Env, root: seq<nat>, component: seq<nat>, sizes: map<nat, nat>)
    requires Tallied(env, root, |root|, component, sizes)
    requires forall x | 0 <= x < |root| :: root[x] < |root|
    requires MergedNodes(env, root, |root|) && OnlyConnected(env, root)
    ensures LabelsRight(env, component) && SizesRight(env, component, sizes)
  {
    forall u, v | 0 <= u < |component| && 0 <= v < |component| && Participates(env, u) && Participates(env, v)
      ensures component[u] == component[v] <==> Connected(env, u, v)
    {
      ClassesAreComponents(env, root, u, v);
    }
    TalliesAreSizes(env, root, component, sizes);
  }

  lemma TalliesAreSizes(env: Env, root: seq<nat>, component: seq<nat>, sizes: map<nat, nat>)
    requires Tallied(env, root, |root|, component, sizes)
    requires forall x | 0 <= x < |root| :: root[x] < |root|
    ensures SizesRight(env, component, sizes)
  {
    assert ParticipantsBelow(env, |root|) == Participants(env);
    forall c | c != U32_MAX
      ensures Labelled(component, c) == Members(env, root, c, |root|)
    {
    }
    assert Members(env, root, U32_MAX, |root|) == {};
  }

  /** The largest recorded size, zero if there is none. */
  method LargestSize(sizes: map<nat, nat>, bound: nat) returns (largest: nat)
    requires forall c <- sizes :: c < bound
    ensures IsLargest(sizes, largest)
  {
    largest := 0;
    var found := false;
    var c := 0;
    while c < bound
      invariant c <= bound
      invariant forall d <- sizes :: d < c ==> sizes[d] <= largest
      invariant if found then exists d :: d in sizes && sizes[d] == largest
                else largest == 0 && forall d <- sizes :: d >= c
    {
      if c in sizes && (!found || sizes[c] > largest) {
        largest, found := sizes[c], true;
      }
      c := c + 1;
    }
  }

  /** Merge the whole graph, node by node. */
  method UnionAll(env: Env) returns (r: Result<DisjointSets>)
    ensures r.Err? <==> exists u :: Unresolved(env, u)
    ensures r.Err? ==> r == Err(RelationshipIdentityMissing)
    ensures r.Ok? ==>
              && fresh(r.value) && r.value.Valid() && |r.value.root| == env.store.nodeCount
              && MergedNodes(env, r.value.root, env.store.nodeCount) && OnlyConnected(env, r.value.root)
  {
    var sets := new DisjointSets(env.store.nodeCount);
    var node := 0;
    while node < env.store.nodeCount
      invariant node <= env.store.nodeCount && fresh(sets) && sets.Valid() && |sets.root| == env.store.nodeCount
      invariant MergedNodes(env, sets.root, node) && OnlyConnected(env, sets.root)
      invariant forall u | 0 <= u < node :: !Unresolved(env, u)
    {
      if Participates(env, node) {
        var merged := UnionEntries(env, sets, node);
        if merged.Err? {
          return Err(merged.error);
        }
      }
      node := node + 1;
    }
    assert forall u: nat :: Participates(env, u) ==> u < env.store.nodeCount;
    return Ok(sets);
  }

  /** Label one node and count its label. */
  method TallyNode(env: Env, sets: DisjointSets, node: nat, component: seq<nat>, sizes: map<nat, nat>)
    returns (labelled: seq<nat>, counted: map<nat, nat>)
    requires sets.Valid() && node < |sets.root| && Tallied(env, sets.root, node, component, sizes)
    modifies sets
    ensures sets.Valid() && sets.root == old(sets.root)
    ensures Tallied(env, sets.root, node + 1, labelled, counted)
  {
    if Participates(env, node) {
      TallyMember(env, sets.root, node, component, sizes);
      var top := sets.Find(node);
      return component[node := top], CountOne(sizes, top);
    } else {
      TallyExcluded(env, sets.root, node, component, sizes);
      return component[node := U32_MAX], sizes;
    }
  }

  /** Label every node by its representative and count each label. */
  method Tally(env: Env, sets: DisjointSets) returns (component: seq<nat>, sizes: map<nat, nat>)
    requires sets.Valid() && |sets.root| == env.store.nodeCount
    modifies sets
    ensures Tallied(env, old(sets.root), env.store.nodeCount, component, sizes)
  {
    ghost var root := sets.root;
    component := seq(env.store.nodeCount, _ => 0);
    sizes := map[];
    NothingTallied(env, root, component);
    var node := 0;
    while node < env.store.nodeCount
      invariant node <= env.store.nodeCount && sets.Valid() && sets.root == root
      invariant Tallied(env, root, node, component, sizes)
    {
      component, sizes := TallyNode(env, sets, node, component, sizes);
      node := node + 1;
    }
  }

  /** Label every participating node with its component and count the components. Fails exactly when
      some participating node has an entry whose required identity is missing. */
  method ComputeComponents(env: Env) returns (r: Result<ComponentResult>)
    ensures r.Err? <==> exists u :: Unresolved(env, u)
    ensures r.Ok? ==>
              && LabelsRight(env, r.value.component)
              && SizesRight(env, r.value.component, r.value.componentSizes)
              && r.value.numComponents == |r.value.componentSizes|
              && IsLargest(r.value.componentSizes, r.value.largestComponentSize)
  {
    var merged := UnionAll(env);
    if merged.Err? {
      return Err(merged.error);
    }
    ghost var root := merged.value.root;
    var component, sizes := Tally(env, merged.value);
    TalliesAreComponents(env, root, component, sizes);
    SizesBounded(env, root, component, sizes);
    var largest := LargestSize(sizes, env.store.nodeCount);
    return Ok(ComponentResult(component, |sizes|, largest, sizes));
  }

  lemma NothingTallied(env: Env, root: seq<nat>, component: seq<nat>)
    requires |root| == |component| == env.store.nodeCount
    ensures Tallied(env, root, 0, component, map[])
  {
    NoSizes(env.store.nodeCount);
    assert ParticipantsBelow(env, 0) == {};
  }

  lemma {:induction false} NoSizes(bound: nat)
    ensures SumSizes(map[], bound) == 0
  {
    if bound > 0 {
      NoSizes(bound - 1);
    }
  }

  lemma SizesBounded(env: Env, root: seq<nat>, component: seq<nat>, sizes: map<nat, nat>)
    requires Tallied(env, root, |root|, component, sizes)
    requires forall x | 0 <= x < |root| :: root[x] < |root|
    ensures forall c <- sizes :: c < |root|
  {
    forall c <- sizes
      ensures c < |root|
    {
      var u :| u in Members(env, root, c, |root|);
    }
  }
}
