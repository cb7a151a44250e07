/** The two ways to build a store, sorting first or streaming already sorted edges, and that they agree
    on everything the sort key determines. */
module StoreBuilders {
  import opened Prelude
  import opened Ordering
  import opened EdgeTypes
  import opened EdgeStore

  /** What the unsorted builder sorts by. */
  datatype EdgeKey = EdgeKey(source: nat, target: nat, typeId: nat, flag: nat)

  function KeyOf(e: Edge): EdgeKey {
    EdgeKey(e.source, e.target, e.typeId, e.Flag())
  }

  predicate KeyLe(a: EdgeKey, b: EdgeKey) {
    if a.source != b.source then a.source < b.source
    else if a.target != b.target then a.target < b.target
    else if a.typeId != b.typeId then a.typeId < b.typeId
    else a.flag <= b.flag
  }

  predicate EdgeLe(a: Edge, b: Edge) {
    KeyLe(KeyOf(a), KeyOf(b))
  }

  lemma KeyOrder()
    ensures TotalOrder(KeyLe) && TotalPreorder(EdgeLe)
  {
  }

  function Keys(es: seq<Edge>): (keys: seq<EdgeKey>)
    ensures |keys| == |es| && forall i | 0 <= i < |es| :: keys[i] == KeyOf(es[i])
  {
    if es == [] then [] else Keys(es[..|es| - 1]) + [KeyOf(es[|es| - 1])]
  }

  /** Edges without their durable relationship identity, which the unsorted builder does not keep. */
  function Unidentified(e: Edge): Edge {
    e.(relationshipId := 0)
  }

  /** Taking the same edge out of two arrangements leaves two arrangements. */
  lemma RestsPermute(a: seq<Edge>, b: seq<Edge>, i: nat, j: nat)
    requires multiset(a) == multiset(b) && i < |a| && j < |b| && a[i] == b[j]
    ensures multiset(Removed(a, i)) == multiset(Removed(b, j))
  {
    Without(a, i);
    Without(b, j);
    Cancel(multiset(Removed(a, i)), multiset(Removed(b, j)), a[i]);
  }

  lemma FindIn(a: seq<Edge>, b: seq<Edge>) returns (j: nat)
    requires multiset(a) == multiset(b) && a != []
    ensures j < |b| && b[j] == a[0]
  {
    assert a[0] in multiset(b);
    j :| 0 <= j < |b| && b[j] == a[0];
  }

  /** Reordering edges reorders their keys. */
  lemma {:induction false} KeysPermute(a: seq<Edge>, b: seq<Edge>)
    requires multiset(a) == multiset(b)
    ensures multiset(Keys(a)) == multiset(Keys(b))
    decreases |a|
  {
    if a == [] {
      assert |multiset(b)| == 0;
    } else {
      var j := FindIn(a, b);
      RestsPermute(a, b, 0, j);
      KeysPermute(Removed(a, 0), Removed(b, j));
      KeysSplit(a, 0);
      KeysSplit(b, j);
    }
  }

  lemma RemovedAt<T>(s: seq<T>, j: nat, k: nat)
    requires j < |s| && k < |s| - 1
    ensures Removed(s, j)[k] == s[if k < j then k else k + 1]
  {
  }

  lemma KeysWithout(b: seq<Edge>, j: nat)
    requires j < |b|
    ensures Keys(Removed(b, j)) == Removed(Keys(b), j)
  {
    var left, right := Keys(Removed(b, j)), Removed(Keys(b), j);
    assert |left| == |right|;
    forall k | 0 <= k < |left|
      ensures left[k] == right[k]
    {
      RemovedAt(b, j, k);
      RemovedAt(Keys(b), j, k);
    }
  }

  lemma KeysSplit(b: seq<Edge>, j: nat)
    requires j < |b|
    ensures multiset(Keys(b)) == multiset(Keys(Removed(b, j))) + multiset{KeyOf(b[j])}
  {
    KeysWithout(b, j);
    Without(Keys(b), j);
  }

  ghost predicate KeySorted(es: seq<Edge>) {
    Sorted(Keys(es), KeyLe)
  }

  /** The earlier edge is smaller in the first of source, target, type and flag that differs, if any does;
      an unset flag is below a set one. */
  predicate KeysInOrder(a: Edge, b: Edge) {
    || a.source < b.source
    || (a.source == b.source && a.target < b.target)
    || (a.source == b.source && a.target == b.target && a.typeId < b.typeId)
    || (a.source == b.source && a.target == b.target && a.typeId == b.typeId && (a.schemaReversed ==> b.schemaReversed))
  }

  lemma KeySortedByField(es: seq<Edge>)
    ensures KeySorted(es) <==> forall i, j | 0 <= i < j < |es| :: KeysInOrder(es[i], es[j])
  {
    assert forall i, j | 0 <= i < j < |es| :: KeyLe(Keys(es)[i], Keys(es)[j]) <==> KeysInOrder(es[i], es[j]);
  }

  lemma CutsUnique(a: seq<Edge>, b: seq<Edge>, node: nat, cutA: nat, cutB: nat)
    requires Keys(a) == Keys(b) && CutsAt(a, node, cutA) && CutsAt(b, node, cutB)
    ensures cutA == cutB
  {
    assert forall i | 0 <= i < |a| :: a[i].source == Keys(a)[i].source == Keys(b)[i].source == b[i].source;
    var atA, atB := SourceAt(a, cutB), SourceAt(b, cutA);
  }

  /** Two stores over key-sorted lists with the same keys agree on offsets, targets, types and flags;
      only what the key leaves open, weights of parallel edges and identities, can differ. */
  lemma StoresAgree(a: Csr, b: Csr, nodeCount: nat, weightsA: bool, weightsB: bool, es: seq<Edge>, fs: seq<Edge>)
    requires Represents(a, nodeCount, weightsA, es) && Represents(b, nodeCount, weightsB, fs)
    requires KeySorted(es) && KeySorted(fs) && multiset(Keys(es)) == multiset(Keys(fs))
    ensures a.offsets == b.offsets && a.targets == b.targets && a.flags == b.flags && a.types.Ids() == b.types.Ids()
  {
    KeyOrder();
    SortedUnique(Keys(es), Keys(fs), KeyLe);
    assert |es| == |Keys(es)| == |Keys(fs)| == |fs|;
    forall i | 0 <= i < |es|
      ensures a.targets[i] == b.targets[i] && a.flags[i] == b.flags[i] && a.types.Ids()[i] == b.types.Ids()[i]
    {
      assert KeyOf(es[i]) == Keys(es)[i] == Keys(fs)[i] == KeyOf(fs[i]);
    }
    forall v | 0 <= v <= nodeCount
      ensures a.offsets[v] == b.offsets[v]
    {
      CutsUnique(es, fs, v, a.offsets[v], b.offsets[v]);
    }
  }

  /** The edge types of a list. */
  function TypeIds(es: seq<Edge>): (ids: seq<nat>)
    ensures |ids| == |es| && forall i | 0 <= i < |es| :: ids[i] == es[i].typeId
  {
    if es == [] then [] else TypeIds(es[..|es| - 1]) + [es[|es| - 1].typeId]
  }

  lemma {:induction false} MaxIdBounds(ids: seq<nat>)
    ensures forall i | 0 <= i < |ids| :: ids[i] <= MaxId(ids)
    ensures MaxId(ids) == 0 || MaxId(ids) in ids
  {
    if ids != [] {
      MaxIdBounds(ids[..|ids| - 1]);
    }
  }

  /** The largest identifier depends only on which identifiers occur. */
  lemma MaxIdPermutes(a: seq<nat>, b: seq<nat>)
    requires forall id | id in a :: id in b
    requires forall id | id in b :: id in a
    ensures MaxId(a) == MaxId(b)
  {
    MaxIdBounds(a);
    MaxIdBounds(b);
  }

  lemma WidthGrows(edges: seq<Edge>, i: nat)
    requires i < |edges|
    ensures GrownWidth(One, TypeIds(edges[..i + 1])) == Wider(GrownWidth(One, TypeIds(edges[..i])), SelectForMaxId(edges[i].typeId))
  {
    assert edges[..i + 1][..i] == edges[..i];
    assert TypeIds(edges[..i + 1])[..i] == TypeIds(edges[..i]);
  }

  /** The largest source so far. */
  function Reached(es: seq<Edge>): nat {
    if es == [] then 0 else Max(Reached(es[..|es| - 1]), es[|es| - 1].source)
  }

  /** The edges as a streaming builder files them: each under the largest source so far. */
  function Settled(es: seq<Edge>): (out: seq<Edge>)
    ensures |out| == |es|
  {
    if es == [] then []
    else Settled(es[..|es| - 1]) + [FiledAt(Reached(es[..|es| - 1]), es[|es| - 1])]
  }

  lemma SettledGrows(edges: seq<Edge>, i: nat)
    requires i < |edges|
    ensures Settled(edges[..i + 1]) == Settled(edges[..i]) + [FiledAt(Reached(edges[..i]), edges[i])]
    ensures Reached(edges[..i + 1]) == Max(Reached(edges[..i]), edges[i].source)
  {
    assert edges[..i + 1][..i] == edges[..i];
  }

  lemma {:induction false} SettledKeepsTypes(es: seq<Edge>)
    ensures TypeIds(Settled(es)) == TypeIds(es)
  {
    if es != [] {
      SettledKeepsTypes(es[..|es| - 1]);
      assert Settled(es)[..|es| - 1] == Settled(es[..|es| - 1]);
    }
  }

  lemma {:induction false} ReachedBounds(es: seq<Edge>)
    ensures forall i | 0 <= i < |es| :: es[i].source <= Reached(es)
    ensures es != [] ==> exists i :: 0 <= i < |es| && es[i].source == Reached(es)
  {
    if es != [] {
      ReachedBounds(es[..|es| - 1]);
      assert Reached(es) == es[|es| - 1].source || exists i :: 0 <= i < |es| - 1 && es[i].source == Reached(es[..|es| - 1]);
    }
  }

  lemma AppendsAgree(a: seq<Edge>, b: seq<Edge>, x: Edge, y: Edge)
    requires |a| == |b|
    ensures a + [x] == b + [y] <==> a == b && x == y
  {
    if a + [x] == b + [y] {
      assert (a + [x])[..|a|] == a && (b + [y])[..|b|] == b;
      assert (a + [x])[|a|] == x && (b + [y])[|b|] == y;
    }
  }

  lemma SettledStep(es: seq<Edge>, front: seq<Edge>)
    requires es != [] && front == es[..|es| - 1]
    ensures Settled(es) == es <==> Settled(front) == front && Reached(front) <= es[|es| - 1].source
  {
    var last := es[|es| - 1];
    assert es == front + [last];
    AppendsAgree(Settled(front), front, FiledAt(Reached(front), last), last);
  }

  lemma {:induction false} SettledValid(nodeCount: nat, es: seq<Edge>)
    requires AllValid(nodeCount, Settled(es))
    ensures AllValid(nodeCount, es)
  {
    if es != [] {
      var front := es[..|es| - 1];
      var settled := Settled(es);
      assert settled[..|front|] == Settled(front);
      assert forall i | 0 <= i < |front| :: Settled(front)[i] == settled[i];
      SettledValid(nodeCount, front);
      assert ValidEdge(nodeCount, settled[|es| - 1]);
    }
  }

  lemma SortedStep(es: seq<Edge>, front: seq<Edge>)
    requires es != [] && front == es[..|es| - 1]
    ensures SourceSorted(es) <==> SourceSorted(front) && Reached(front) <= es[|es| - 1].source
  {
    ReachedBounds(front);
    if SourceSorted(front) && Reached(front) <= es[|es| - 1].source {
      forall i, j | 0 <= i < j < |es|
        ensures es[i].source <= es[j].source
      {
        assert es[i] == front[i];
      }
    }
    if SourceSorted(es) {
      assert forall i | 0 <= i < |front| :: front[i] == es[i];
    }
  }

  /** Filing leaves the edges as they are exactly when they come in source order. */
  lemma {:induction false} SettledWhenSorted(es: seq<Edge>)
    ensures Settled(es) == es <==> SourceSorted(es)
  {
    if es != [] {
      SettledWhenSorted(es[..|es| - 1]);
      SettledStep(es, es[..|es| - 1]);
      SortedStep(es, es[..|es| - 1]);
    }
  }

  /** A builder that has taken the first `i` edges. */
  ghost predicate BuiltTo(builder: SortedEdgeStoreBuilder, edges: seq<Edge>, i: nat)
    reads builder, builder.types
  {
    && i <= |edges| && builder.Valid() && builder.pushed == Settled(edges[..i])
    && builder.edgeCapacity.None? && builder.widthLimit.None?
    && builder.currentNode == Reached(edges[..i])
    && builder.types.column.Width() == GrownWidth(One, TypeIds(edges[..i]))
  }

  method PushNext(builder: SortedEdgeStoreBuilder, edges: seq<Edge>, i: nat) returns (r: Result<()>)
    requires BuiltTo(builder, edges, i) && i < |edges| && edges[i].typeId <= U32_MAX
    modifies builder, builder.types
    ensures r.Ok? <==> ValidEdge(builder.nodeCount, edges[i])
    ensures r.Ok? ==> BuiltTo(builder, edges, i + 1)
  {
    WidthGrows(edges, i);
    SettledGrows(edges, i);
    r := builder.TryPush(edges[i]);
  }

  method PushAll(builder: SortedEdgeStoreBuilder, edges: seq<Edge>) returns (r: Result<()>)
    requires BuiltTo(builder, edges, 0)
    requires forall i | 0 <= i < |edges| :: edges[i].typeId <= U32_MAX
    modifies builder, builder.types
    ensures r.Ok? <==> AllValid(builder.nodeCount, edges)
    ensures r.Ok? ==> builder.Valid() && builder.pushed == Settled(edges)
                      && builder.types.column.Width() == GrownWidth(One, TypeIds(edges))
  {
    for i := 0 to |edges|
      invariant BuiltTo(builder, edges, i)
    {
      var pushed :- PushNext(builder, edges, i);
    }
    assert edges[..|edges|] == edges;
    SettledValid(builder.nodeCount, edges);
    return Ok(());
  }

  /** Build a store from edges one at a time, each filed under the largest source so far: on edges in
      source order, and on no others, that is the edges themselves. It succeeds exactly when every edge
      is valid, and ends at the type width one look at all of them would have chosen. */
  method TryFromSortedEdges(nodeCount: nat, edges: seq<Edge>, hasWeights: bool) returns (r: Result<Csr>)
    requires nodeCount <= U32_MAX && |edges| <= U32_MAX
    requires forall i | 0 <= i < |edges| :: edges[i].typeId <= U32_MAX
    ensures r.Ok? <==> AllValid(nodeCount, edges)
    ensures r.Ok? ==> StreamedBuild(r.value, nodeCount, hasWeights, Settled(edges))
  {
    var builder := new SortedEdgeStoreBuilder(nodeCount, hasWeights);
    var filled :- PushAll(builder, edges);
    GrowthIsSelection(TypeIds(edges));
    SettledKeepsTypes(edges);
    var csr := builder.Finish();
    return Ok(csr);
  }

  function UnidentifiedAll(es: seq<Edge>): (out: seq<Edge>)
    ensures |out| == |es| && forall i | 0 <= i < |es| :: out[i] == Unidentified(es[i])
    ensures Keys(out) == Keys(es)
  {
    if es == [] then [] else
      var front := UnidentifiedAll(es[..|es| - 1]);
      assert (front + [Unidentified(es[|es| - 1])])[..|front|] == front;
      front + [Unidentified(es[|es| - 1])]
  }

  /** The plain arrays being filled beside the type column. */
  datatype Draft = Draft(targets: seq<nat>, flags: seq<nat>, weights: seq<nat>) {
    function With(e: Edge, hasWeights: bool): Draft {
      Draft(targets + [e.target], flags + [e.Flag()], if hasWeights then weights + [e.WeightOrOne()] else weights)
    }
  }

  /** The arrays hold the first `n` edges. */
  ghost predicate Filled(d: Draft, ids: seq<nat>, hasWeights: bool, es: seq<Edge>, n: nat) {
    && |d.targets| == |ids| == |d.flags| == n <= |es| && |d.weights| == (if hasWeights then n else 0)
    && (forall i | 0 <= i < n ::
          && d.targets[i] == es[i].target && ids[i] == es[i].typeId && d.flags[i] == es[i].Flag()
          && (hasWeights ==> d.weights[i] == es[i].WeightOrOne()))
  }

  lemma FillsOneMore(d: Draft, ids: seq<nat>, hasWeights: bool, es: seq<Edge>, n: nat)
    requires Filled(d, ids, hasWeights, es, n) && n < |es|
    ensures Filled(d.With(es[n], hasWeights), ids + [es[n].typeId], hasWeights, es, n + 1)
  {
  }

  /** The width of the largest identifier covers every other. */
  function WidthOf(es: seq<Edge>): Width {
    SelectForMaxId(MaxId(TypeIds(es)))
  }

  lemma WidthCovers(es: seq<Edge>, n: nat)
    requires n < |es|
    ensures Wider(WidthOf(es), SelectForMaxId(es[n].typeId)) == WidthOf(es)
  {
    MaxIdBounds(TypeIds(es));
    assert TypeIds(es)[n] == es[n].typeId;
  }

  /** Where the unsorted builder stands inside a node: its stretch begins at the last offset. */
  ghost predicate InNode(offsets: seq<nat>, node: nat, es: seq<Edge>, n: nat) {
    && |offsets| == node + 1 && offsets[node] <= n <= |es|
    && (forall v | 0 <= v <= node :: CutsAt(es, v, offsets[v]))
    && (forall i | 0 <= i < n :: es[i].source <= node)
  }

  lemma NodeEnds(offsets: seq<nat>, node: nat, es: seq<Edge>, n: nat)
    requires InNode(offsets, node, es, n) && SourceSorted(es) && (n < |es| ==> es[n].source != node)
    ensures CutsAt(es, node + 1, n)
  {
  }

  /** Append one edge to every array. */
  method FillOne(es: seq<Edge>, hasWeights: bool, n: nat, d: Draft, types: EdgeTypeStorage) returns (next: Draft)
    requires types.Valid() && types.column.Width() == WidthOf(es) && n < |es| && es[n].typeId < SENTINEL
    requires Filled(d, types.column.Ids(), hasWeights, es, n)
    modifies types
    ensures types.Valid() && types.column.Width() == WidthOf(es)
    ensures Filled(next, types.column.Ids(), hasWeights, es, n + 1)
  {
    FillsOneMore(d, types.column.Ids(), hasWeights, es, n);
    WidthCovers(es, n);
    var typed := types.TryPush(es[n].typeId);
    next := d.With(es[n], hasWeights);
  }

  /** Append one node's edges. */
  method FillNode(es: seq<Edge>, nodeCount: nat, node: nat, hasWeights: bool, start: nat, d: Draft, types: EdgeTypeStorage,
                  ghost offsets: seq<nat>)
    returns (end: nat, next: Draft)
    requires types.Valid() && types.column.Width() == WidthOf(es) && SourceSorted(es) && AllValid(nodeCount, es)
    requires Filled(d, types.column.Ids(), hasWeights, es, start) && InNode(offsets, node, es, start)
    modifies types
    ensures types.Valid() && types.column.Width() == WidthOf(es)
    ensures Filled(next, types.column.Ids(), hasWeights, es, end) && CutsAt(es, node + 1, end)
  {
    end, next := start, d;
    while end < |es| && es[end].source == node
      invariant types.Valid() && types.column.Width() == WidthOf(es)
      invariant Filled(next, types.column.Ids(), hasWeights, es, end) && InNode(offsets, node, es, end)
    {
      assert ValidEdge(nodeCount, es[end]);
      next := FillOne(es, hasWeights, end, next, types);
      end := end + 1;
    }
    NodeEnds(offsets, node, es, end);
  }

  /** The offsets of the nodes begun so far, and where the next one starts. */
  ghost predicate Begun(offsets: seq<nat>, node: nat, es: seq<Edge>, next: nat) {
    |offsets| == node && (forall v: nat | v < node :: CutsAt(es, v, offsets[v])) && CutsAt(es, node, next)
  }

  lemma BeginsNode(offsets: seq<nat>, node: nat, es: seq<Edge>, next: nat)
    requires Begun(offsets, node, es, next)
    ensures InNode(offsets + [next], node, es, next)
  {
  }

  /** Sort edges by key and lay them out node by node. Durable identities are not kept. */
  method FromValidEdges(nodeCount: nat, edges: seq<Edge>, hasWeights: bool) returns (csr: Csr, ghost sorted: seq<Edge>)
    requires AllValid(nodeCount, edges) && |edges| <= U32_MAX
    ensures UnsortedBuild(csr, nodeCount, hasWeights, edges, sorted)
  {
    var es := SortEdges(edges, nodeCount);
    sorted := es;
    var types := new EdgeTypeStorage.WithWidth(SelectForMaxId(MaxId(TypeIds(es))));
    var offsets: seq<nat>, next, draft := [], 0, Draft([], [], []);
    for node := 0 to nodeCount
      invariant fresh(types) && types.Valid() && types.column.Width() == WidthOf(es)
      invariant Begun(offsets, node, es, next) && Filled(draft, types.column.Ids(), hasWeights, es, next)
    {
      BeginsNode(offsets, node, es, next);
      offsets := offsets + [|draft.targets|];
      next, draft := FillNode(es, nodeCount, node, hasWeights, next, draft, types, offsets);
    }
    BeginsNode(offsets, nodeCount, es, next);
    offsets := offsets + [|draft.targets|];
    csr := Csr(offsets, draft.targets, types.column, draft.flags, draft.weights, seq(|es|, _ => 0));
    LaidOutRepresents(csr, nodeCount, hasWeights, es, draft);
  }

  /** Sort edges by key; edges the key does not tell apart come in any order. */
  method SortEdges(edges: seq<Edge>, nodeCount: nat) returns (es: seq<Edge>)
    requires AllValid(nodeCount, edges)
    ensures multiset(es) == multiset(edges) && |es| == |edges|
    ensures KeySorted(es) && SourceSorted(es) && AllValid(nodeCount, es)
  {
    KeyOrder();
    es := SortUnstable(edges, EdgeLe);
    assert |multiset(es)| == |es| && |multiset(edges)| == |edges|;
    forall i | 0 <= i < |es|
      ensures ValidEdge(nodeCount, es[i])
    {
      assert es[i] in multiset(edges);
    }
    forall i, j | 0 <= i < j < |es|
      ensures KeyLe(Keys(es)[i], Keys(es)[j]) && es[i].source <= es[j].source
    {
      assert EdgeLe(es[i], es[j]);
    }
  }

  lemma UnidentifiedKeeps(es: seq<Edge>, nodeCount: nat)
    requires AllValid(nodeCount, es) && SourceSorted(es)
    ensures AllValid(nodeCount, UnidentifiedAll(es)) && SourceSorted(UnidentifiedAll(es))
    ensures forall v: nat, cut: nat | CutsAt(es, v, cut) :: CutsAt(UnidentifiedAll(es), v, cut)
  {
    forall i | 0 <= i < |es|
      ensures ValidEdge(nodeCount, UnidentifiedAll(es)[i])
    {
      assert ValidEdge(nodeCount, es[i]);
    }
  }

  lemma LaidOutRepresents(csr: Csr, nodeCount: nat, hasWeights: bool, es: seq<Edge>, d: Draft)
    requires AllValid(nodeCount, es) && SourceSorted(es) && |es| <= U32_MAX
    requires InNode(csr.offsets, nodeCount, es, |d.targets|) && csr.offsets[nodeCount] == |d.targets|
    requires csr.targets == d.targets && csr.flags == d.flags && csr.weights == d.weights
    requires Filled(d, csr.types.Ids(), hasWeights, es, |d.targets|) && !csr.types.HoldsSentinel()
    requires csr.relationshipIds == seq(|es|, _ => 0)
    ensures Represents(csr, nodeCount, hasWeights, UnidentifiedAll(es))
  {
    CutEnds(es, nodeCount, csr.offsets[0], |d.targets|);
    UnidentifiedKeeps(es, nodeCount);
    FilledHolds(csr, hasWeights, es, d);
    forall v | 0 <= v <= nodeCount
      ensures CutsAt(UnidentifiedAll(es), v, csr.offsets[v])
    {
      assert CutsAt(es, v, csr.offsets[v]);
    }
  }

  lemma FilledHolds(csr: Csr, hasWeights: bool, es: seq<Edge>, d: Draft)
    requires csr.targets == d.targets && csr.flags == d.flags && csr.weights == d.weights
    requires Filled(d, csr.types.Ids(), hasWeights, es, |es|) && csr.relationshipIds == seq(|es|, _ => 0)
    ensures Holds(csr.targets, csr.types.Ids(), csr.flags, csr.weights, csr.relationshipIds, hasWeights, UnidentifiedAll(es))
  {
  }

  /** Validate every edge, then build. */
  method TryFromEdges(nodeCount: nat, edges: seq<Edge>, hasWeights: bool) returns (r: Result<Csr>, ghost sorted: seq<Edge>)
    requires |edges| <= U32_MAX && forall i | 0 <= i < |edges| :: edges[i].typeId <= U32_MAX
    ensures r.Ok? <==> AllValid(nodeCount, edges)
    ensures r.Ok? ==> UnsortedBuild(r.value, nodeCount, hasWeights, edges, sorted)
  {
    sorted := [];
    for i := 0 to |edges|
      invariant forall j | 0 <= j < i :: ValidEdge(nodeCount, edges[j])
    {
      var valid := ValidateRawEdge(nodeCount, edges[i]);
      if valid.Err? {
        return Err(valid.error), sorted;
      }
    }
    var csr;
    csr, sorted := FromValidEdges(nodeCount, edges, hasWeights);
    return Ok(csr), sorted;
  }

  /** What the unsorted builder makes of edges, sorting them as `sorted`. */
  ghost predicate UnsortedBuild(csr: Csr, nodeCount: nat, hasWeights: bool, edges: seq<Edge>, sorted: seq<Edge>) {
    && KeySorted(sorted) && multiset(sorted) == multiset(edges)
    && Represents(csr, nodeCount, hasWeights, UnidentifiedAll(sorted)) && csr.types.Width() == WidthOf(sorted)
  }

  /** What the streaming builder makes of source-sorted edges. */
  ghost predicate StreamedBuild(csr: Csr, nodeCount: nat, hasWeights: bool, edges: seq<Edge>) {
    Represents(csr, nodeCount, hasWeights, edges) && csr.types.Width() == WidthOf(edges)
  }

  lemma WidthPermutes(a: seq<Edge>, b: seq<Edge>)
    requires multiset(a) == multiset(b)
    ensures WidthOf(a) == WidthOf(b)
  {
    forall id | id in TypeIds(a)
      ensures id in TypeIds(b)
    {
      TypeIdCarriesOver(a, b, id);
    }
    forall id | id in TypeIds(b)
      ensures id in TypeIds(a)
    {
      TypeIdCarriesOver(b, a, id);
    }
    MaxIdPermutes(TypeIds(a), TypeIds(b));
  }

  lemma TypeIdCarriesOver(a: seq<Edge>, b: seq<Edge>, id: nat)
    requires multiset(a) == multiset(b) && id in TypeIds(a)
    ensures id in TypeIds(b)
  {
    var i :| 0 <= i < |a| && TypeIds(a)[i] == id;
    assert a[i] in multiset(b);
    var j :| 0 <= j < |b| && b[j] == a[i];
    assert TypeIds(b)[j] == id;
  }

  /** On key-sorted edges the streaming builder and the unsorted one, given them in any order, agree on
      offsets, targets, typed column and flags. */
  lemma BuildersAgree(streamed: Csr, built: Csr, nodeCount: nat, hasWeights: bool, edges: seq<Edge>, shuffled: seq<Edge>,
                      sorted: seq<Edge>)
    requires StreamedBuild(streamed, nodeCount, hasWeights, edges) && KeySorted(edges)
    requires UnsortedBuild(built, nodeCount, hasWeights, shuffled, sorted) && multiset(shuffled) == multiset(edges)
    ensures streamed.offsets == built.offsets && streamed.targets == built.targets
    ensures streamed.types == built.types && streamed.flags == built.flags
  {
    KeysPermute(sorted, edges);
    StoresAgree(streamed, built, nodeCount, hasWeights, hasWeights, edges, UnidentifiedAll(sorted));
    WidthPermutes(sorted, edges);
    SameColumn(streamed.types, built.types);
  }

  /** A node's adjacency: its targets and types, empty for a node the store does not have. */
  function Neighbors(csr: Csr, node: nat): (seq<nat>, seq<nat>)
    requires node + 1 < |csr.offsets| ==>
               csr.offsets[node] <= csr.offsets[node + 1] <= |csr.targets| && |csr.targets| == |csr.types.Ids()|
  {
    if node + 1 >= |csr.offsets| then ([], [])
    else (csr.targets[csr.offsets[node]..csr.offsets[node + 1]], csr.types.Ids()[csr.offsets[node]..csr.offsets[node + 1]])
  }

  /** The adjacency of a node is the targets and types of the edges that leave it, in order, and the
      slices it takes are always in range. */
  lemma NeighborsAreLeaving(csr: Csr, nodeCount: nat, hasWeights: bool, es: seq<Edge>, node: nat)
    requires Represents(csr, nodeCount, hasWeights, es)
    ensures node < nodeCount ==> csr.offsets[node] <= csr.offsets[node + 1] <= |csr.targets| == |csr.types.Ids()|
    ensures |Neighbors(csr, node).0| == |Neighbors(csr, node).1| == |Leaving(es, node)|
    ensures forall k | 0 <= k < |Leaving(es, node)| ::
              && Neighbors(csr, node).0[k] == Leaving(es, node)[k].target
              && Neighbors(csr, node).1[k] == Leaving(es, node)[k].typeId
  {
    if node < nodeCount {
      StretchIsLeaving(es, node, csr.offsets[node], csr.offsets[node + 1]);
    } else {
      forall i | 0 <= i < |es|
        ensures es[i].source != node
      {
        assert ValidEdge(nodeCount, es[i]);
      }
      LeavingNone(es, node);
    }
  }
}
