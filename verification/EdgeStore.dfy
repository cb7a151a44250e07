/** Compressed sparse row storage: parallel edge arrays cut into per-node stretches by offsets, and
    the streaming builder that fills them from source-sorted edges. */
module EdgeStore {
  import opened Prelude
  import opened EdgeTypes

  datatype Edge = Edge(
    source: nat,
    target: nat,
    typeId: nat,
    weight: Option<nat>,
    schemaReversed: bool,
    relationshipId: nat)
  {
    function Flag(): nat {
      if schemaReversed then 1 else 0
    }

    function WeightOrOne(): nat {
      match weight
      case Some(w) => w
      case None => 1
    }
  }

  datatype Csr = Csr(
    offsets: seq<nat>,
    targets: seq<nat>,
    types: Column,
    flags: seq<nat>,
    weights: seq<nat>,
    relationshipIds: seq<nat>)

  function ValidateRawEdge(nodeCount: nat, edge: Edge): Result<()> {
    if edge.typeId == SENTINEL then Err(EdgeTypeLimit)
    else if edge.source >= nodeCount || edge.target >= nodeCount then Err(Internal)
    else Ok(())
  }

  predicate ValidEdge(nodeCount: nat, edge: Edge) {
    edge.typeId < SENTINEL && edge.source < nodeCount && edge.target < nodeCount
  }

  predicate AllValid(nodeCount: nat, es: seq<Edge>) {
    forall i | 0 <= i < |es| :: ValidEdge(nodeCount, es[i])
  }

  ghost predicate SourceSorted(es: seq<Edge>) {
    forall i, j | 0 <= i < j < |es| :: es[i].source <= es[j].source
  }

  /** Edges with source below `node` are exactly the first `cut`. */
  ghost predicate CutsAt(es: seq<Edge>, node: nat, cut: nat) {
    && cut <= |es|
    && (forall i | 0 <= i < cut :: es[i].source < node)
    && (forall i | cut <= i < |es| :: es[i].source >= node)
  }

  /** The parallel arrays hold the edges in order. */
  ghost predicate Holds(targets: seq<nat>, ids: seq<nat>, flags: seq<nat>, weights: seq<nat>, relationshipIds: seq<nat>,
                        hasWeights: bool, es: seq<Edge>)
  {
    && |targets| == |ids| == |flags| == |relationshipIds| == |es|
    && |weights| == (if hasWeights then |es| else 0)
    && (forall i | 0 <= i < |es| ::
          && targets[i] == es[i].target && ids[i] == es[i].typeId
          && flags[i] == es[i].Flag() && relationshipIds[i] == es[i].relationshipId
          && (hasWeights ==> weights[i] == es[i].WeightOrOne()))
  }

  /** A store holding a source-sorted edge list over `nodeCount` nodes. */
  ghost predicate Represents(csr: Csr, nodeCount: nat, hasWeights: bool, es: seq<Edge>) {
    && AllValid(nodeCount, es) && SourceSorted(es) && |es| <= U32_MAX
    && Holds(csr.targets, csr.types.Ids(), csr.flags, csr.weights, csr.relationshipIds, hasWeights, es)
    && !csr.types.HoldsSentinel()
    && |csr.offsets| == nodeCount + 1
    && (forall v | 0 <= v <= nodeCount :: CutsAt(es, v, csr.offsets[v]))
  }

  /** The value-level checks a mapped store must pass. */
  ghost predicate PassesValidation(csr: Csr, nodeCount: nat, edgeCount: nat) {
    && |csr.offsets| == nodeCount + 1
    && |csr.targets| == |csr.types.Ids()| == |csr.flags| == |csr.relationshipIds| == edgeCount
    && (csr.weights == [] || |csr.weights| == edgeCount)
    && !csr.types.HoldsSentinel()
    && csr.offsets[0] == 0 && csr.offsets[nodeCount] == edgeCount
    && (forall v, w | 0 <= v < w <= nodeCount && w == v + 1 :: csr.offsets[v] <= csr.offsets[w] <= edgeCount)
    && (forall i | 0 <= i < edgeCount :: csr.targets[i] < nodeCount)
    && (forall i | 0 <= i < edgeCount :: csr.flags[i] <= 1)
  }

  /** The edges leaving a node, in order. */
  function Leaving(es: seq<Edge>, node: nat): seq<Edge> {
    if es == [] then []
    else Leaving(es[..|es| - 1], node) + if es[|es| - 1].source == node then [es[|es| - 1]] else []
  }

  /** A cut into a prefix and a suffix splits what leaves a node. */
  lemma {:induction false} LeavingSplit(a: seq<Edge>, b: seq<Edge>, node: nat)
    ensures Leaving(a + b, node) == Leaving(a, node) + Leaving(b, node)
    decreases |b|
  {
    if b == [] {
      assert a + b == a;
    } else {
      assert (a + b)[..|a + b| - 1] == a + b[..|b| - 1];
      LeavingSplit(a, b[..|b| - 1], node);
    }
  }

  lemma {:induction false} LeavingNone(es: seq<Edge>, node: nat)
    requires forall i | 0 <= i < |es| :: es[i].source != node
    ensures Leaving(es, node) == []
    decreases |es|
  {
    if es != [] {
      LeavingNone(es[..|es| - 1], node);
    }
  }

  lemma {:induction false} LeavingAll(es: seq<Edge>, node: nat)
    requires forall i | 0 <= i < |es| :: es[i].source == node
    ensures Leaving(es, node) == es
    decreases |es|
  {
    if es != [] {
      LeavingAll(es[..|es| - 1], node);
    }
  }

  function SourceAt(es: seq<Edge>, i: nat): nat {
    if i < |es| then es[i].source else 0
  }

  /** Cuts come in node order; below the first node nothing is cut, above the last everything is. */
  lemma CutsOrdered(es: seq<Edge>, node: nat, start: nat, end: nat)
    requires CutsAt(es, node, start) && CutsAt(es, node + 1, end)
    ensures start <= end
    ensures forall i | start <= i < end :: es[i].source == node
  {
    var atEnd := SourceAt(es, end);
  }

  lemma CutEnds(es: seq<Edge>, nodeCount: nat, first: nat, last: nat)
    requires AllValid(nodeCount, es) && CutsAt(es, 0, first) && CutsAt(es, nodeCount, last)
    ensures first == 0 && last == |es|
  {
    var atStart, atLast := SourceAt(es, 0), SourceAt(es, last);
  }

  /** A node's stretch of the arrays is exactly the edges that leave it, in input order. */
  lemma StretchIsLeaving(es: seq<Edge>, node: nat, start: nat, end: nat)
    requires CutsAt(es, node, start) && CutsAt(es, node + 1, end)
    ensures start <= end && es[start..end] == Leaving(es, node)
  {
    CutsOrdered(es, node, start, end);
    var front, mid, back := es[..start], es[start..end], es[end..];
    assert es == front + mid + back;
    LeavingSplit(front + mid, back, node);
    LeavingSplit(front, mid, node);
    LeavingNone(front, node);
    LeavingNone(back, node);
    LeavingAll(mid, node);
  }

  /** Every store that represents an edge list passes the mapped-store checks. */
  lemma RepresentationValidates(csr: Csr, nodeCount: nat, hasWeights: bool, es: seq<Edge>)
    requires Represents(csr, nodeCount, hasWeights, es)
    ensures PassesValidation(csr, nodeCount, |es|)
  {
    CutEnds(es, nodeCount, csr.offsets[0], csr.offsets[nodeCount]);
    forall v, w | 0 <= v < w <= nodeCount && w == v + 1
      ensures csr.offsets[v] <= csr.offsets[w] <= |es|
    {
      CutsOrdered(es, v, csr.offsets[v], csr.offsets[w]);
    }
    forall i | 0 <= i < |es|
      ensures csr.targets[i] < nodeCount
    {
      assert ValidEdge(nodeCount, es[i]);
    }
  }

  /** The node whose stretch of the offsets holds position `i`, looked for from `v` down. */
  function SourceOf(offsets: seq<nat>, i: nat, v: nat): (node: nat)
    requires v < |offsets|
    ensures node <= v && (node > 0 ==> offsets[node] <= i)
    ensures forall w | node < w <= v :: i < offsets[w]
  {
    if v == 0 || offsets[v] <= i then v else SourceOf(offsets, i, v - 1)
  }

  /** The edges a store's arrays describe. */
  function EdgesOf(csr: Csr, nodeCount: nat): (es: seq<Edge>)
    requires |csr.targets| == |csr.types.Ids()| == |csr.flags| == |csr.relationshipIds|
    requires csr.weights == [] || |csr.weights| == |csr.targets|
    requires nodeCount <= |csr.offsets|
    ensures |es| == |csr.targets|
  {
    seq(|csr.targets|, i requires 0 <= i < |csr.targets| =>
      Edge(if nodeCount == 0 then 0 else SourceOf(csr.offsets, i, nodeCount - 1), csr.targets[i], csr.types.Ids()[i],
           if csr.weights == [] then None else Some(csr.weights[i]), csr.flags[i] == 1, csr.relationshipIds[i]))
  }

  lemma {:induction false} OffsetsRise(csr: Csr, nodeCount: nat, edgeCount: nat, v: nat, w: nat)
    requires PassesValidation(csr, nodeCount, edgeCount) && v <= w <= nodeCount
    ensures csr.offsets[v] <= csr.offsets[w] <= edgeCount
    decreases w
  {
    if v < w {
      OffsetsRise(csr, nodeCount, edgeCount, v, w - 1);
    } else if w > 0 {
      assert csr.offsets[w - 1] <= csr.offsets[w] <= edgeCount;
    }
  }

  lemma ArraysCutAt(csr: Csr, nodeCount: nat, edgeCount: nat, v: nat)
    requires PassesValidation(csr, nodeCount, edgeCount) && v <= nodeCount
    ensures CutsAt(EdgesOf(csr, nodeCount), v, csr.offsets[v])
  {
    var es := EdgesOf(csr, nodeCount);
    OffsetsRise(csr, nodeCount, edgeCount, v, nodeCount);
    forall i | 0 <= i < |es|
      ensures es[i].source < v <==> i < csr.offsets[v]
    {
      assert nodeCount > 0 && csr.targets[i] < nodeCount;
      var source := SourceOf(csr.offsets, i, nodeCount - 1);
      if source < v {
        assert v == nodeCount || i < csr.offsets[v];
      } else {
        OffsetsRise(csr, nodeCount, edgeCount, v, source);
      }
    }
  }

  lemma ArraysSourceSorted(csr: Csr, nodeCount: nat, edgeCount: nat)
    requires PassesValidation(csr, nodeCount, edgeCount)
    ensures SourceSorted(EdgesOf(csr, nodeCount))
  {
    var es := EdgesOf(csr, nodeCount);
    forall i, j | 0 <= i < j < |es|
      ensures es[i].source <= es[j].source
    {
      var source := es[i].source;
      assert nodeCount > 0 && csr.targets[i] < nodeCount;
      ArraysCutAt(csr, nodeCount, edgeCount, source);
      assert CutsAt(es, source, csr.offsets[source]);
    }
  }

  lemma NoSentinelBelow(types: Column, i: nat)
    requires !types.HoldsSentinel() && i < |types.Ids()|
    ensures types.Ids()[i] < SENTINEL
  {
    match types
    case Bytes(b) => assert b[i] in b;
    case Halves(h) => assert h[i] in h;
    case Words(w) => assert w[i] in w;
  }

  /** A store that passes the mapped-store checks represents the edges its arrays describe. */
  lemma ValidatedRepresents(csr: Csr, nodeCount: nat, edgeCount: nat)
    requires PassesValidation(csr, nodeCount, edgeCount) && edgeCount <= U32_MAX
    ensures Represents(csr, nodeCount, csr.weights != [], EdgesOf(csr, nodeCount))
  {
    var es := EdgesOf(csr, nodeCount);
    ArraysSourceSorted(csr, nodeCount, edgeCount);
    forall i | 0 <= i < |es|
      ensures ValidEdge(nodeCount, es[i])
    {
      assert csr.targets[i] < nodeCount;
      NoSentinelBelow(csr.types, i);
    }
    forall v | 0 <= v <= nodeCount
      ensures CutsAt(es, v, csr.offsets[v])
    {
      ArraysCutAt(csr, nodeCount, edgeCount, v);
    }
  }

  /** The mapped-store checks accept exactly the stores that represent some edge list. */
  lemma ValidationExact(csr: Csr, nodeCount: nat, edgeCount: nat)
    requires edgeCount <= U32_MAX
    ensures PassesValidation(csr, nodeCount, edgeCount) <==>
            exists es: seq<Edge> :: |es| == edgeCount && Represents(csr, nodeCount, csr.weights != [], es)
  {
    if PassesValidation(csr, nodeCount, edgeCount) {
      ValidatedRepresents(csr, nodeCount, edgeCount);
    }
    if es: seq<Edge> :| |es| == edgeCount && Represents(csr, nodeCount, csr.weights != [], es) {
      RepresentationValidates(csr, nodeCount, csr.weights != [], es);
    }
  }

  lemma CutUnique(es: seq<Edge>, node: nat, a: nat, b: nat)
    requires CutsAt(es, node, a) && CutsAt(es, node, b)
    ensures a == b
  {
    var atA, atB := SourceAt(es, a), SourceAt(es, b);
  }

  /** Two stores of one edge list at the same type width are the same store. */
  lemma SameStore(a: Csr, b: Csr, nodeCount: nat, hasWeights: bool, es: seq<Edge>)
    requires Represents(a, nodeCount, hasWeights, es) && Represents(b, nodeCount, hasWeights, es)
    requires a.types.Width() == b.types.Width()
    ensures a == b
  {
    forall v | 0 <= v <= nodeCount
      ensures a.offsets[v] == b.offsets[v]
    {
      CutUnique(es, v, a.offsets[v], b.offsets[v]);
    }
    assert a.offsets == b.offsets;
    HoldSame(a, b, hasWeights, es);
    SameColumn(a.types, b.types);
  }

  lemma HoldSame(a: Csr, b: Csr, hasWeights: bool, es: seq<Edge>)
    requires Holds(a.targets, a.types.Ids(), a.flags, a.weights, a.relationshipIds, hasWeights, es)
    requires Holds(b.targets, b.types.Ids(), b.flags, b.weights, b.relationshipIds, hasWeights, es)
    ensures a.targets == b.targets && a.types.Ids() == b.types.Ids() && a.flags == b.flags
    ensures a.weights == b.weights && a.relationshipIds == b.relationshipIds
  {
  }

  /** What a store's arrays hold of each edge, field by field. */
  lemma ArraysHold(csr: Csr, nodeCount: nat, hasWeights: bool, es: seq<Edge>, i: nat)
    requires Represents(csr, nodeCount, hasWeights, es) && i < |es|
    ensures csr.targets[i] == es[i].target && csr.types.Ids()[i] == es[i].typeId
    ensures csr.flags[i] == 1 <==> es[i].schemaReversed
    ensures csr.flags[i] == 0 <==> !es[i].schemaReversed
    ensures csr.relationshipIds[i] == es[i].relationshipId
    ensures |csr.weights| == if hasWeights then |es| else 0
    ensures hasWeights && es[i].weight.Some? ==> csr.weights[i] == es[i].weight.value
    ensures hasWeights && es[i].weight.None? ==> csr.weights[i] == 1
    ensures es[i].source < nodeCount && csr.offsets[es[i].source] <= i < csr.offsets[es[i].source + 1]
  {
    assert ValidEdge(nodeCount, es[i]);
    assert CutsAt(es, es[i].source, csr.offsets[es[i].source]) && CutsAt(es, es[i].source + 1, csr.offsets[es[i].source + 1]);
  }

  /** What a builder has accumulated: the offsets up to the node it is at, and every accepted edge. */
  ghost predicate Accumulated(nodeCount: nat, offsets: seq<nat>, current: nat, es: seq<Edge>) {
    && AllValid(nodeCount, es) && SourceSorted(es)
    && |offsets| == current + 1 && (current == 0 || current < nodeCount)
    && (forall i | 0 <= i < |es| :: es[i].source <= current)
    && (forall v | 0 <= v <= current :: CutsAt(es, v, offsets[v]))
  }

  lemma AccumulatedAdvances(nodeCount: nat, offsets: seq<nat>, current: nat, es: seq<Edge>)
    requires Accumulated(nodeCount, offsets, current, es) && current + 1 < nodeCount
    ensures Accumulated(nodeCount, offsets + [|es|], current + 1, es)
  {
  }

  lemma AccumulatedAppends(nodeCount: nat, offsets: seq<nat>, current: nat, es: seq<Edge>, edge: Edge)
    requires Accumulated(nodeCount, offsets, current, es) && ValidEdge(nodeCount, edge) && edge.source == current
    ensures Accumulated(nodeCount, offsets, current, es + [edge])
  {
    forall v | 0 <= v <= current
      ensures CutsAt(es + [edge], v, offsets[v])
    {
      assert CutsAt(es, v, offsets[v]);
    }
  }

  lemma HoldsAppends(targets: seq<nat>, ids: seq<nat>, flags: seq<nat>, weights: seq<nat>, relationshipIds: seq<nat>,
                     hasWeights: bool, es: seq<Edge>, edge: Edge)
    requires Holds(targets, ids, flags, weights, relationshipIds, hasWeights, es)
    ensures Holds(targets + [edge.target], ids + [edge.typeId], flags + [edge.Flag()],
                  if hasWeights then weights + [edge.WeightOrOne()] else weights,
                  relationshipIds + [edge.relationshipId], hasWeights, es + [edge])
  {
  }

  /** An edge as a builder that has reached `node` files it. */
  function FiledAt(node: nat, edge: Edge): Edge {
    edge.(source := Max(node, edge.source))
  }

  class SortedEdgeStoreBuilder {
    const nodeCount: nat
    const hasWeights: bool
    const edgeCapacity: Option<nat>
    const widthLimit: Option<Width>
    var edgeOffsets: seq<nat>
    var targets: seq<nat>
    const types: EdgeTypeStorage
    var flags: seq<nat>
    var weights: seq<nat>
    var relationshipIds: seq<nat>
    var currentNode: nat
    /** The edges accepted so far. */
    ghost var pushed: seq<Edge>

    ghost predicate Valid()
      reads this, types
    {
      && types.Valid()
      && Accumulated(nodeCount, edgeOffsets, currentNode, pushed)
      && Holds(targets, types.column.Ids(), flags, weights, relationshipIds, hasWeights, pushed)
    }

    constructor (nodeCount: nat, hasWeights: bool)
      requires nodeCount <= U32_MAX
      ensures Valid() && fresh(types) && pushed == [] && types.column.Width() == One && currentNode == 0
      ensures this.nodeCount == nodeCount && this.hasWeights == hasWeights && edgeCapacity.None? && widthLimit.None?
    {
      this.nodeCount, this.hasWeights, edgeCapacity, widthLimit := nodeCount, hasWeights, None, None;
      edgeOffsets, targets, flags, weights, relationshipIds, currentNode := [0], [], [], [], [], 0;
      types := new EdgeTypeStorage();
      pushed := [];
    }

    constructor WithCapacity(nodeCount: nat, capacity: nat, hasWeights: bool, width: Width)
      requires nodeCount <= U32_MAX
      ensures Valid() && fresh(types) && pushed == [] && types.column.Width() == width && currentNode == 0
      ensures this.nodeCount == nodeCount && this.hasWeights == hasWeights
      ensures edgeCapacity == Some(capacity) && widthLimit == Some(width)
    {
      this.nodeCount, this.hasWeights, edgeCapacity, widthLimit := nodeCount, hasWeights, Some(capacity), Some(width);
      edgeOffsets, targets, flags, weights, relationshipIds, currentNode := [0], [], [], [], [], 0;
      types := new EdgeTypeStorage.WithWidth(width);
      pushed := [];
    }

    /** Whether the builder takes this edge. */
    predicate Accepts(edge: Edge)
      reads this
    {
      && ValidEdge(nodeCount, edge)
      && (edgeCapacity.Some? ==> |targets| < edgeCapacity.value)
      && (widthLimit.Some? ==> SelectForMaxId(edge.typeId).Bytes() <= widthLimit.value.Bytes())
    }

    /** Append one edge. Its source is not compared with those before it: an edge out of source order is
        filed under the node the builder has reached. An edge with bad endpoints, a reserved type, or
        beyond the preflight capacity or width is refused and changes nothing stored. */
    method TryPush(edge: Edge) returns (r: Result<()>)
      requires Valid() && edge.typeId <= U32_MAX
      modifies this, types
      ensures Valid()
      ensures r.Ok? <==> old(Accepts(edge))
      ensures r.Ok? ==> pushed == old(pushed) + [FiledAt(old(currentNode), edge)]
                        && currentNode == Max(old(currentNode), edge.source)
                        && types.column.Width() == Wider(old(types.column.Width()), SelectForMaxId(edge.typeId))
      ensures r.Err? ==>
                && pushed == old(pushed) && edgeOffsets == old(edgeOffsets) && targets == old(targets)
                && types.column == old(types.column) && flags == old(flags) && weights == old(weights)
                && relationshipIds == old(relationshipIds) && currentNode == old(currentNode)
    {
      var valid := ValidateRawEdge(nodeCount, edge);
      if valid.Err? {
        return Err(valid.error);
      }
      if edgeCapacity.Some? && |targets| >= edgeCapacity.value {
        return Err(Internal);
      }
      if widthLimit.Some? && SelectForMaxId(edge.typeId).Bytes() > widthLimit.value.Bytes() {
        return Err(Internal);
      }
      AdvanceTo(edge.source);
      Append(edge, FiledAt(old(currentNode), edge));
      return Ok(());
    }

    /** Close the stretches of the nodes before this one. */
    method AdvanceTo(node: nat)
      requires Valid() && node < nodeCount
      modifies `edgeOffsets, `currentNode
      ensures Valid() && currentNode == Max(old(currentNode), node)
    {
      while currentNode < node
        invariant Valid() && old(currentNode) <= currentNode <= Max(old(currentNode), node)
      {
        AccumulatedAdvances(nodeCount, edgeOffsets, currentNode, pushed);
        edgeOffsets := edgeOffsets + [|targets|];
        currentNode := currentNode + 1;
      }
    }

    /** Put an accepted edge behind the others. */
    method Append(edge: Edge, ghost filed: Edge)
      requires Valid() && ValidEdge(nodeCount, edge) && edge.source <= currentNode < nodeCount
      requires filed == edge.(source := currentNode)
      modifies `targets, `flags, `weights, `relationshipIds, `pushed, types
      ensures Valid() && pushed == old(pushed) + [filed]
      ensures types.column.Width() == Wider(old(types.column.Width()), SelectForMaxId(edge.typeId))
    {
      AccumulatedAppends(nodeCount, edgeOffsets, currentNode, pushed, filed);
      HoldsAppends(targets, types.column.Ids(), flags, weights, relationshipIds, hasWeights, pushed, filed);
      targets := targets + [edge.target];
      var typed := types.TryPush(edge.typeId);
      flags := flags + [edge.Flag()];
      relationshipIds := relationshipIds + [edge.relationshipId];
      if hasWeights {
        weights := weights + [edge.WeightOrOne()];
      }
      pushed := pushed + [filed];
    }

    /** Close the remaining nodes' stretches and hand the arrays over. */
    method Finish() returns (csr: Csr)
      requires Valid() && |pushed| <= U32_MAX
      modifies this
      ensures Represents(csr, nodeCount, hasWeights, old(pushed))
      ensures csr.types == types.column
    {
      while |edgeOffsets| < nodeCount + 1
        invariant currentNode + 1 <= |edgeOffsets| <= nodeCount + 1
        invariant forall v | 0 <= v < |edgeOffsets| :: CutsAt(pushed, v, edgeOffsets[v])
        invariant unchanged(`targets, `flags, `weights, `relationshipIds, `pushed, `currentNode)
      {
        edgeOffsets := edgeOffsets + [|targets|];
      }
      return Csr(edgeOffsets, targets, types.column, flags, weights, relationshipIds);
    }
  }
}
