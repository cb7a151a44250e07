/** The reverse store: a counting sort that scatters every edge to its slot among the edges that share
    its target. */
module ReverseStore {
  import opened Prelude
  import opened EdgeTypes
  import opened EdgeStore
  import opened Grouping

  /** A type column of a given width, all zero. */
  function FilledColumn(width: Width, size: nat): (c: Column)
    ensures c.Width() == width && |c.Ids()| == size && !c.HoldsSentinel()
  {
    match width
    case One => Bytes(seq(size, _ => 0))
    case Two => Halves(seq(size, _ => 0))
    case Four => Words(seq(size, _ => 0))
  }

  /** Overwrite one identifier, if it fits the width. */
  function Put(c: Column, i: nat, id: nat): (r: Result<Column>)
    requires i < |c.Ids()|
    ensures r.Ok? <==> id <= c.Width().AllOnes()
    ensures r.Ok? ==> r.value.Width() == c.Width() && r.value.Ids() == c.Ids()[i := id]
    ensures r.Ok? && !c.HoldsSentinel() && id < c.Width().AllOnes() ==> !r.value.HoldsSentinel()
  {
    match c
    case Bytes(b) => if id <= U8_MAX then Ok(Bytes(b[i := id])) else Err(EdgeTypeLimit)
    case Halves(h) => if id <= U16_MAX then Ok(Halves(h[i := id])) else Err(EdgeTypeLimit)
    case Words(w) => if id <= U32_MAX then Ok(Words(w[i := id])) else Err(EdgeTypeLimit)
  }

  lemma StoredIdsBelowSentinel(c: Column, i: nat)
    requires !c.HoldsSentinel() && i < |c.Ids()|
    ensures c.Ids()[i] < c.Width().AllOnes()
  {
    match c
    case Bytes(b) => assert b[i] in b;
    case Halves(h) => assert h[i] in h;
    case Words(w) => assert w[i] in w;
  }

  /** Entry `v` counts those of the first `k` edges that go into node `v - 1`. */
  ghost predicate Counted(counts: seq<nat>, nodeCount: nat, fs: seq<Edge>, k: nat) {
    && |counts| == nodeCount + 1 && counts[0] == 0 && k <= |fs|
    && forall v {:trigger counts[v]} | 1 <= v <= nodeCount :: counts[v] == |Leaving(fs[..k], v - 1)|
  }

  lemma CountsOneMore(counts: seq<nat>, nodeCount: nat, fs: seq<Edge>, k: nat)
    requires Counted(counts, nodeCount, fs, k) && k < |fs| && fs[k].source < nodeCount
    ensures Counted(counts[fs[k].source + 1 := counts[fs[k].source + 1] + 1], nodeCount, fs, k + 1)
  {
    var after := counts[fs[k].source + 1 := counts[fs[k].source + 1] + 1];
    forall v | 1 <= v <= nodeCount
      ensures after[v] == |Leaving(fs[..k + 1], v - 1)|
    {
      LeavingNext(fs, k, v - 1);
    }
  }

  lemma CountsNothing(nodeCount: nat, fs: seq<Edge>, counts: seq<nat>)
    requires counts == seq(nodeCount + 1, _ => 0)
    ensures Counted(counts, nodeCount, fs, 0)
  {
    assert fs[..0] == [];
  }

  method CountOne(counts: array<nat>, nodeCount: nat, target: nat, ghost fs: seq<Edge>, ghost k: nat)
    requires Counted(counts[..], nodeCount, fs, k) && k < |fs| && fs[k].source == target < nodeCount
    modifies counts
    ensures Counted(counts[..], nodeCount, fs, k + 1)
  {
    CountsOneMore(counts[..], nodeCount, fs, k);
    counts[target + 1] := counts[target + 1] + 1;
  }

  /** Count each node's inbound edges, one place up. */
  method CountTargets(csr: Csr, nodeCount: nat, ghost hasWeights: bool, ghost es: seq<Edge>) returns (counts: array<nat>)
    requires Represents(csr, nodeCount, hasWeights, es)
    ensures fresh(counts) && Counted(counts[..], nodeCount, FlipAll(es), |es|)
  {
    ghost var fs := FlipAll(es);
    counts := new nat[nodeCount + 1](_ => 0);
    assert counts[..] == seq(nodeCount + 1, _ => 0);
    CountsNothing(nodeCount, fs, counts[..]);
    CutEnds(es, nodeCount, csr.offsets[0], csr.offsets[nodeCount]);
    for source := 0 to nodeCount
      invariant Counted(counts[..], nodeCount, fs, csr.offsets[source])
    {
      var idx, end := csr.offsets[source], csr.offsets[source + 1];
      CutsOrdered(es, source, idx, end);
      while idx < end
        invariant idx <= end && Counted(counts[..], nodeCount, fs, idx)
      {
        assert ValidEdge(nodeCount, es[idx]);
        CountOne(counts, nodeCount, csr.targets[idx], fs, idx);
        idx := idx + 1;
      }
    }
  }

  function SumTo(s: seq<nat>, k: nat): nat
    requires k <= |s|
  {
    if k == 0 then 0 else SumTo(s, k - 1) + s[k - 1]
  }

  /** Add each entry to the next, in place. */
  method PrefixSums(a: array<nat>)
    modifies a
    ensures forall i | 0 <= i < a.Length :: a[i] == SumTo(old(a[..]), i + 1)
  {
    ghost var before := a[..];
    var idx := 1;
    while idx < a.Length
      invariant 1 <= idx
      invariant forall i | 0 <= i < idx && i < a.Length :: a[i] == SumTo(before, i + 1)
      invariant forall i | idx <= i < a.Length :: a[i] == before[i]
    {
      a[idx] := a[idx] + a[idx - 1];
      idx := idx + 1;
    }
  }

  /** Summed counts are where each node's edges start. */
  lemma {:induction false} SumsAreStarts(counts: seq<nat>, nodeCount: nat, fs: seq<Edge>, v: nat)
    requires Counted(counts, nodeCount, fs, |fs|) && v <= nodeCount
    ensures SumTo(counts, v + 1) == |Grouped(fs, v)|
  {
    if v == 0 {
      assert SumTo(counts, 0) == 0;
    } else {
      SumsAreStarts(counts, nodeCount, fs, v - 1);
      assert fs[..|fs|] == fs;
      assert counts[v] == |Leaving(fs, v - 1)|;
    }
  }

  /** One slot of the reverse arrays holds an edge's fields. */
  ghost predicate PlacedAt(targets: seq<nat>, ids: seq<nat>, flags: seq<nat>, weights: seq<nat>, relationshipIds: seq<nat>,
                           hasWeights: bool, p: nat, f: Edge)
  {
    && p < |targets| == |ids| == |flags| == |relationshipIds|
    && targets[p] == f.target && ids[p] == f.typeId && flags[p] == f.Flag() && relationshipIds[p] == f.relationshipId
    && (hasWeights ==> p < |weights| && weights[p] == f.WeightOrOne())
  }

  /** Each node's cursor is past the edges placed so far. */
  ghost predicate CursorsAt(starts: seq<nat>, nodeCount: nat, fs: seq<Edge>, k: nat) {
    && |starts| == nodeCount + 1 && k <= |fs|
    && (forall v {:trigger starts[v]} | 0 <= v < nodeCount :: starts[v] == |Grouped(fs, v)| + |Leaving(fs[..k], v)|)
  }

  lemma CursorMoves(starts: seq<nat>, nodeCount: nat, fs: seq<Edge>, k: nat)
    requires CursorsAt(starts, nodeCount, fs, k) && k < |fs| && fs[k].source < nodeCount
    ensures starts[fs[k].source] == Slot(fs, k)
    ensures CursorsAt(starts[fs[k].source := starts[fs[k].source] + 1], nodeCount, fs, k + 1)
  {
    var after := starts[fs[k].source := starts[fs[k].source] + 1];
    forall v | 0 <= v < nodeCount
      ensures after[v] == |Grouped(fs, v)| + |Leaving(fs[..k + 1], v)|
    {
      LeavingNext(fs, k, v);
    }
  }

  /** The first `k` edges sit in their slots. */
  ghost predicate Scattered(targets: seq<nat>, ids: seq<nat>, flags: seq<nat>, weights: seq<nat>,
                            relationshipIds: seq<nat>, hasWeights: bool, fs: seq<Edge>, k: nat)
  {
    && k <= |fs|
    && |targets| == |ids| == |flags| == |relationshipIds| == |fs| && |weights| == (if hasWeights then |fs| else 0)
    && (forall e | 0 <= e < k :: PlacedAt(targets, ids, flags, weights, relationshipIds, hasWeights, Slot(fs, e), fs[e]))
  }

  lemma ScattersOneMore(targets: seq<nat>, ids: seq<nat>, flags: seq<nat>, weights: seq<nat>, relationshipIds: seq<nat>,
                        hasWeights: bool, fs: seq<Edge>, k: nat, nodeCount: nat)
    requires Scattered(targets, ids, flags, weights, relationshipIds, hasWeights, fs, k)
    requires k < |fs| && forall i | 0 <= i < |fs| :: fs[i].source < nodeCount
    ensures var f, p := fs[k], Slot(fs, k);
            && p < |fs|
            && Scattered(targets[p := f.target], ids[p := f.typeId], flags[p := f.Flag()],
                         if hasWeights then weights[p := f.WeightOrOne()] else weights,
                         relationshipIds[p := f.relationshipId], hasWeights, fs, k + 1)
  {
    var f, p := fs[k], Slot(fs, k);
    SlotHolds(fs, k, nodeCount);
    GroupedSize(fs, nodeCount);
    forall e | 0 <= e < k + 1
      ensures PlacedAt(targets[p := f.target], ids[p := f.typeId], flags[p := f.Flag()],
                       if hasWeights then weights[p := f.WeightOrOne()] else weights,
                       relationshipIds[p := f.relationshipId], hasWeights, Slot(fs, e), fs[e])
    {
      if e < k {
        SlotsDiffer(fs, e, k, nodeCount);
      }
    }
  }

  /** With every edge in its slot the arrays hold the grouping. */
  lemma ScatteredHolds(targets: seq<nat>, ids: seq<nat>, flags: seq<nat>, weights: seq<nat>, relationshipIds: seq<nat>,
                       hasWeights: bool, fs: seq<Edge>, nodeCount: nat)
    requires Scattered(targets, ids, flags, weights, relationshipIds, hasWeights, fs, |fs|)
    requires forall i | 0 <= i < |fs| :: fs[i].source < nodeCount
    ensures Holds(targets, ids, flags, weights, relationshipIds, hasWeights, Grouped(fs, nodeCount))
  {
    var out := Grouped(fs, nodeCount);
    GroupedSize(fs, nodeCount);
    forall p | 0 <= p < |out|
      ensures PlacedAt(targets, ids, flags, weights, relationshipIds, hasWeights, p, out[p])
    {
      var e := SlotsOnto(fs, p, nodeCount);
      SlotHolds(fs, e, nodeCount);
      assert PlacedAt(targets, ids, flags, weights, relationshipIds, hasWeights, Slot(fs, e), fs[e]);
    }
  }

  /** The parallel arrays of a store being filled. */
  datatype Parts = Parts(targets: seq<nat>, types: Column, flags: seq<nat>, weights: seq<nat>, relationshipIds: seq<nat>)

  ghost predicate PartsScattered(parts: Parts, width: Width, hasWeights: bool, fs: seq<Edge>, k: nat) {
    && Scattered(parts.targets, parts.types.Ids(), parts.flags, parts.weights, parts.relationshipIds, hasWeights, fs, k)
    && !parts.types.HoldsSentinel() && parts.types.Width() == width
  }

  /** Blank arrays of the final size. */
  method Blank(width: Width, hasWeights: bool, size: nat, ghost fs: seq<Edge>) returns (parts: Parts)
    requires size == |fs|
    ensures PartsScattered(parts, width, hasWeights, fs, 0)
  {
    var zeros := seq(size, _ => 0);
    parts := Parts(zeros, FilledColumn(width, size), zeros, if hasWeights then zeros else [], zeros);
  }

  /** Write the `k`-th edge's fields into its slot. */
  method Place(csr: Csr, nodeCount: nat, hasWeights: bool, ghost es: seq<Edge>, parts: Parts, k: nat, source: nat, p: nat)
    returns (r: Result<Parts>)
    requires Represents(csr, nodeCount, hasWeights, es) && k < |es| && es[k].source == source
    requires PartsScattered(parts, csr.types.Width(), hasWeights, FlipAll(es), k) && p == Slot(FlipAll(es), k)
    ensures r.Ok? && PartsScattered(r.value, csr.types.Width(), hasWeights, FlipAll(es), k + 1)
  {
    ghost var fs := FlipAll(es);
    FlippedBelow(es, nodeCount);
    ScattersOneMore(parts.targets, parts.types.Ids(), parts.flags, parts.weights, parts.relationshipIds, hasWeights, fs, k, nodeCount);
    StoredIdsBelowSentinel(csr.types, k);
    var typed := Put(parts.types, p, csr.types.Ids()[k]);
    match typed {
      case Ok(types) =>
        var weights := if hasWeights then parts.weights[p := csr.weights[k]] else parts.weights;
        return Ok(Parts(parts.targets[p := source], types, parts.flags[p := csr.flags[k]], weights,
                        parts.relationshipIds[p := csr.relationshipIds[k]]));
      case Err(error) =>
        return Err(error);
    }
  }

  lemma FlippedBelow(es: seq<Edge>, nodeCount: nat)
    requires AllValid(nodeCount, es)
    ensures forall i | 0 <= i < |es| :: FlipAll(es)[i].source < nodeCount
    ensures AllValid(nodeCount, FlipAll(es))
  {
    forall i | 0 <= i < |es|
      ensures ValidEdge(nodeCount, FlipAll(es)[i])
    {
      assert ValidEdge(nodeCount, es[i]);
    }
  }

  /** Take the next slot of the edge's target and write the edge there. */
  method ScatterOne(csr: Csr, nodeCount: nat, hasWeights: bool, ghost es: seq<Edge>, starts: array<nat>, parts: Parts,
                    k: nat, source: nat)
    returns (r: Result<Parts>)
    requires Represents(csr, nodeCount, hasWeights, es) && k < |es| && es[k].source == source
    requires CursorsAt(starts[..], nodeCount, FlipAll(es), k)
    requires PartsScattered(parts, csr.types.Width(), hasWeights, FlipAll(es), k)
    modifies starts
    ensures CursorsAt(starts[..], nodeCount, FlipAll(es), k + 1)
    ensures r.Ok? && PartsScattered(r.value, csr.types.Width(), hasWeights, FlipAll(es), k + 1)
  {
    FlippedBelow(es, nodeCount);
    var slot := TakeSlot(starts, nodeCount, csr.targets[k], FlipAll(es), k);
    r := Place(csr, nodeCount, hasWeights, es, parts, k, source, slot);
  }

  lemma OffsetsSpan(csr: Csr, nodeCount: nat, hasWeights: bool, es: seq<Edge>)
    requires Represents(csr, nodeCount, hasWeights, es)
    ensures |csr.offsets| == nodeCount + 1 && csr.offsets[0] == 0 && csr.offsets[nodeCount] == |es| == |csr.targets|
  {
    CutEnds(es, nodeCount, csr.offsets[0], csr.offsets[nodeCount]);
  }

  lemma StretchOf(csr: Csr, nodeCount: nat, hasWeights: bool, es: seq<Edge>, source: nat)
    requires Represents(csr, nodeCount, hasWeights, es) && source < nodeCount
    ensures csr.offsets[source] <= csr.offsets[source + 1] <= |es|
    ensures forall i | csr.offsets[source] <= i < csr.offsets[source + 1] :: es[i].source == source
  {
    CutsOrdered(es, source, csr.offsets[source], csr.offsets[source + 1]);
  }

  /** Scatter one node's stretch of edges. */
  method ScatterNode(csr: Csr, nodeCount: nat, hasWeights: bool, ghost es: seq<Edge>, starts: array<nat>, parts: Parts,
                     source: nat)
    returns (r: Result<Parts>)
    requires Represents(csr, nodeCount, hasWeights, es) && source < nodeCount
    requires CursorsAt(starts[..], nodeCount, FlipAll(es), csr.offsets[source])
    requires PartsScattered(parts, csr.types.Width(), hasWeights, FlipAll(es), csr.offsets[source])
    modifies starts
    ensures CursorsAt(starts[..], nodeCount, FlipAll(es), csr.offsets[source + 1])
    ensures r.Ok? && PartsScattered(r.value, csr.types.Width(), hasWeights, FlipAll(es), csr.offsets[source + 1])
  {
    StretchOf(csr, nodeCount, hasWeights, es, source);
    r := Ok(parts);
    var idx, end := csr.offsets[source], csr.offsets[source + 1];
    ghost var fs, width := FlipAll(es), csr.types.Width();
    while idx < end
      invariant csr.offsets[source] <= idx <= end && CursorsAt(starts[..], nodeCount, fs, idx)
      invariant r.Ok? && PartsScattered(r.value, width, hasWeights, fs, idx)
    {
      r := ScatterOne(csr, nodeCount, hasWeights, es, starts, r.value, idx, source);
      idx := idx + 1;
    }
  }

  /** Scatter every edge to its slot, node by node. */
  method ScatterAll(csr: Csr, nodeCount: nat, hasWeights: bool, ghost es: seq<Edge>, starts: array<nat>) returns (r: Result<Parts>)
    requires Represents(csr, nodeCount, hasWeights, es) && CursorsAt(starts[..], nodeCount, FlipAll(es), 0)
    modifies starts
    ensures r.Ok? && PartsScattered(r.value, csr.types.Width(), hasWeights, FlipAll(es), |es|)
  {
    var parts := Blank(csr.types.Width(), hasWeights, |csr.targets|, FlipAll(es));
    r := Ok(parts);
    OffsetsSpan(csr, nodeCount, hasWeights, es);
    ghost var done := 0;
    for source := 0 to nodeCount
      invariant |csr.offsets| == nodeCount + 1 && csr.offsets[source] == done
      invariant CursorsAt(starts[..], nodeCount, FlipAll(es), done)
      invariant r.Ok? && PartsScattered(r.value, csr.types.Width(), hasWeights, FlipAll(es), done)
    {
      r := ScatterNode(csr, nodeCount, hasWeights, es, starts, r.value, source);
      done := csr.offsets[source + 1];
    }
  }

  method TakeSlot(starts: array<nat>, nodeCount: nat, target: nat, ghost fs: seq<Edge>, ghost k: nat) returns (slot: nat)
    requires CursorsAt(starts[..], nodeCount, fs, k) && k < |fs| && fs[k].source == target < nodeCount
    modifies starts
    ensures slot == Slot(fs, k) && CursorsAt(starts[..], nodeCount, fs, k + 1)
  {
    ghost var before := starts[..];
    CursorMoves(before, nodeCount, fs, k);
    slot := starts[target];
    starts[target] := starts[target] + 1;
    assert starts[..] == before[target := before[target] + 1];
  }

  /** Where each node's inbound edges start. */
  method ReverseOffsets(csr: Csr, nodeCount: nat, ghost hasWeights: bool, ghost es: seq<Edge>) returns (offsets: seq<nat>)
    requires Represents(csr, nodeCount, hasWeights, es)
    ensures |offsets| == nodeCount + 1
    ensures forall v {:trigger offsets[v]} | 0 <= v <= nodeCount :: offsets[v] == |Grouped(FlipAll(es), v)|
  {
    var counts := CountTargets(csr, nodeCount, hasWeights, es);
    ghost var before := counts[..];
    PrefixSums(counts);
    forall v | 0 <= v <= nodeCount
      ensures counts[v] == |Grouped(FlipAll(es), v)|
    {
      SumsAreStarts(before, nodeCount, FlipAll(es), v);
    }
    return counts[..];
  }

  /** The edge that lands in a slot. */
  ghost function EdgeAt(fs: seq<Edge>, n: nat, p: nat): (e: nat)
    requires p < |Grouped(fs, n)|
    ensures e < |fs| && fs[e].source < n && Slot(fs, e) == p
  {
    SlotTaken(fs, n, p);
    var e: nat :| e < |fs| && fs[e].source < n && Slot(fs, e) == p;
    e
  }

  lemma SlotTaken(fs: seq<Edge>, n: nat, p: nat)
    requires p < |Grouped(fs, n)|
    ensures exists e: nat :: e < |fs| && fs[e].source < n && Slot(fs, e) == p
  {
    var e := SlotsOnto(fs, p, n);
  }

  /** Position `p` of the reverse arrays holds what position `e` of the forward ones does: the same
      type, flag, weight and identity; its target is the node whose stretch holds `e`, and it lies in
      the stretch of the node that `e` goes to. */
  ghost predicate ReversesAt(csr: Csr, reversed: Csr, nodeCount: nat, p: nat, e: nat) {
    && |csr.offsets| == |reversed.offsets| == nodeCount + 1
    && e < |csr.targets| == |csr.types.Ids()| == |csr.flags| == |csr.relationshipIds|
    && p < |reversed.targets| == |reversed.types.Ids()| == |reversed.flags| == |reversed.relationshipIds|
    && reversed.types.Ids()[p] == csr.types.Ids()[e] && reversed.flags[p] == csr.flags[e]
    && reversed.relationshipIds[p] == csr.relationshipIds[e]
    && |reversed.weights| == |csr.weights| && (e < |csr.weights| ==> p < |reversed.weights| && reversed.weights[p] == csr.weights[e])
    && reversed.targets[p] < nodeCount && csr.targets[e] < nodeCount
    && csr.offsets[reversed.targets[p]] <= e < csr.offsets[reversed.targets[p] + 1]
    && reversed.offsets[csr.targets[e]] <= p < reversed.offsets[csr.targets[e] + 1]
  }

  /** Each position of the reverse arrays holds another edge, and within a node's stretch the edges come
      in their forward order. */
  ghost predicate Reverses(csr: Csr, reversed: Csr, nodeCount: nat, perm: seq<nat>) {
    && |perm| == |csr.targets| == |reversed.targets|
    && (forall p | 0 <= p < |perm| :: ReversesAt(csr, reversed, nodeCount, p, perm[p]))
    && (forall p, q | 0 <= p < q < |perm| :: perm[p] != perm[q])
    && (forall p, q | 0 <= p < q < |perm| && csr.targets[perm[p]] == csr.targets[perm[q]] :: perm[p] < perm[q])
  }

  lemma SlotsKeepOrder(fs: seq<Edge>, e: nat, f: nat)
    requires e < |fs| && f < |fs| && fs[e].source == fs[f].source && Slot(fs, e) < Slot(fs, f)
    ensures e < f
  {
    if f <= e {
      assert fs[..e][..f] == fs[..f];
      LeavingPrefix(fs[..e], f, fs[e].source);
    }
  }

  lemma StretchHolds(es: seq<Edge>, node: nat, from: nat, to: nat, i: nat)
    requires CutsAt(es, node, from) && CutsAt(es, node + 1, to) && i < |es| && es[i].source == node
    ensures from <= i < to
  {
  }

  lemma PlaceReverses(csr: Csr, reversed: Csr, nodeCount: nat, hasWeights: bool, es: seq<Edge>, p: nat, e: nat)
    requires Represents(csr, nodeCount, hasWeights, es) && Represents(reversed, nodeCount, hasWeights, Transpose(es, nodeCount))
    requires e < |es| && p < |Transpose(es, nodeCount)| == |es| && Transpose(es, nodeCount)[p] == Flip(es[e])
    ensures ReversesAt(csr, reversed, nodeCount, p, e)
  {
    assert ValidEdge(nodeCount, es[e]);
    StretchHolds(es, es[e].source, csr.offsets[es[e].source], csr.offsets[es[e].source + 1], e);
    StretchHolds(Transpose(es, nodeCount), es[e].target, reversed.offsets[es[e].target], reversed.offsets[es[e].target + 1], p);
  }

  /** The positions name every edge's slot. */
  ghost predicate SlotOrder(fs: seq<Edge>, perm: seq<nat>) {
    |perm| == |fs| && forall p | 0 <= p < |perm| :: perm[p] < |fs| && Slot(fs, perm[p]) == p
  }

  lemma SlotOrderKeeps(fs: seq<Edge>, perm: seq<nat>)
    requires SlotOrder(fs, perm)
    ensures forall p, q | 0 <= p < q < |perm| :: perm[p] != perm[q]
    ensures forall p, q | 0 <= p < q < |perm| && fs[perm[p]].source == fs[perm[q]].source :: perm[p] < perm[q]
  {
    forall p, q | 0 <= p < q < |perm| && fs[perm[p]].source == fs[perm[q]].source
      ensures perm[p] < perm[q]
    {
      SlotsKeepOrder(fs, perm[p], perm[q]);
    }
  }

  /** A store of the transposed list is the reverse, array by array. */
  lemma TransposeReverses(csr: Csr, reversed: Csr, nodeCount: nat, hasWeights: bool, es: seq<Edge>)
    requires Represents(csr, nodeCount, hasWeights, es) && Represents(reversed, nodeCount, hasWeights, Transpose(es, nodeCount))
    ensures exists perm :: Reverses(csr, reversed, nodeCount, perm)
  {
    var fs := FlipAll(es);
    FlippedBelow(es, nodeCount);
    GroupedSize(fs, nodeCount);
    var perm := seq(|es|, p requires 0 <= p < |es| => EdgeAt(fs, nodeCount, p));
    SlotOrderKeeps(fs, perm);
    SlotOrderReverses(csr, reversed, nodeCount, hasWeights, es, perm);
  }

  lemma SlotOrderReverses(csr: Csr, reversed: Csr, nodeCount: nat, hasWeights: bool, es: seq<Edge>, perm: seq<nat>)
    requires Represents(csr, nodeCount, hasWeights, es) && Represents(reversed, nodeCount, hasWeights, Transpose(es, nodeCount))
    requires SlotOrder(FlipAll(es), perm) && |Transpose(es, nodeCount)| == |es|
    requires forall p, q | 0 <= p < q < |perm| :: perm[p] != perm[q]
    requires forall p, q | 0 <= p < q < |perm| && FlipAll(es)[perm[p]].source == FlipAll(es)[perm[q]].source :: perm[p] < perm[q]
    ensures Reverses(csr, reversed, nodeCount, perm)
  {
    FlippedBelow(es, nodeCount);
    forall p | 0 <= p < |perm|
      ensures ReversesAt(csr, reversed, nodeCount, p, perm[p])
    {
      SlotHolds(FlipAll(es), perm[p], nodeCount);
      PlaceReverses(csr, reversed, nodeCount, hasWeights, es, p, perm[p]);
    }
  }

  /** Build the reverse store. It holds every edge, turned around, grouped by what was its target and
      otherwise in order. */
  method TryReversed(csr: Csr, nodeCount: nat, ghost hasWeights: bool, ghost es: seq<Edge>) returns (r: Result<Csr>)
    requires Represents(csr, nodeCount, hasWeights, es)
    ensures r.Ok? && Represents(r.value, nodeCount, hasWeights, Transpose(es, nodeCount))
    ensures r.value.types.Width() == csr.types.Width()
    ensures exists perm :: Reverses(csr, r.value, nodeCount, perm)
  {
    var weighted := csr.weights != [];
    var offsets := ReverseOffsets(csr, nodeCount, hasWeights, es);
    StartsAreCursors(offsets, nodeCount, FlipAll(es));
    var starts := new nat[nodeCount + 1](i requires 0 <= i < |offsets| => offsets[i]);
    assert starts[..] == offsets;
    var scattered := ScatterAll(csr, nodeCount, weighted, es, starts);
    match scattered {
      case Ok(parts) =>
        var reversed := Csr(offsets, parts.targets, parts.types, parts.flags, parts.weights, parts.relationshipIds);
        ReversedRepresents(reversed, nodeCount, weighted, es);
        TransposeReverses(csr, reversed, nodeCount, weighted, es);
        return Ok(reversed);
      case Err(error) =>
        return Err(error);
    }
  }

  lemma StartsAreCursors(starts: seq<nat>, nodeCount: nat, fs: seq<Edge>)
    requires |starts| == nodeCount + 1 && forall v {:trigger starts[v]} | 0 <= v <= nodeCount :: starts[v] == |Grouped(fs, v)|
    ensures CursorsAt(starts, nodeCount, fs, 0)
  {
    assert fs[..0] == [];
  }

  lemma ReversedRepresents(csr: Csr, nodeCount: nat, hasWeights: bool, es: seq<Edge>)
    requires AllValid(nodeCount, es) && |es| <= U32_MAX && |csr.offsets| == nodeCount + 1
    requires forall v {:trigger csr.offsets[v]} | 0 <= v <= nodeCount :: csr.offsets[v] == |Grouped(FlipAll(es), v)|
    requires Scattered(csr.targets, csr.types.Ids(), csr.flags, csr.weights, csr.relationshipIds, hasWeights, FlipAll(es), |es|)
    requires !csr.types.HoldsSentinel()
    ensures Represents(csr, nodeCount, hasWeights, Transpose(es, nodeCount))
  {
    var fs := FlipAll(es);
    FlippedBelow(es, nodeCount);
    ScatteredHolds(csr.targets, csr.types.Ids(), csr.flags, csr.weights, csr.relationshipIds, hasWeights, fs, nodeCount);
    GroupedSize(fs, nodeCount);
    GroupedSources(fs, nodeCount);
    forall p | 0 <= p < |Grouped(fs, nodeCount)|
      ensures ValidEdge(nodeCount, Grouped(fs, nodeCount)[p])
    {
      var e := SlotsOnto(fs, p, nodeCount);
      SlotHolds(fs, e, nodeCount);
      assert ValidEdge(nodeCount, fs[e]);
    }
    forall v | 0 <= v <= nodeCount
      ensures CutsAt(Grouped(fs, nodeCount), v, csr.offsets[v])
    {
      GroupedCuts(fs, v, nodeCount);
    }
  }
}
