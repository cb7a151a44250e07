/** Turning a store around twice sorts each node's edges by target, stably; it changes nothing exactly
    when they were sorted already. */
module Transposition {
  import opened EdgeStore
  import opened Grouping

  lemma FlipAllConcat(a: seq<Edge>, b: seq<Edge>)
    ensures FlipAll(a + b) == FlipAll(a) + FlipAll(b)
  {
  }

  lemma LeavingPush(fs: seq<Edge>, x: Edge, node: nat)
    ensures Leaving(fs + [x], node) == if x.source == node then Leaving(fs, node) + [x] else Leaving(fs, node)
  {
    assert (fs + [x])[..|fs|] == fs;
  }

  lemma FlipPush(es: seq<Edge>, x: Edge)
    ensures FlipAll(es + [x]) == FlipAll(es) + [Flip(x)] && Flip(Flip(x)) == x
  {
  }

  /** The edges of a node that go to a target, with their ends swapped back. */
  function Between(es: seq<Edge>, node: nat, target: nat): seq<Edge> {
    FlipAll(Leaving(FlipAll(Leaving(es, node)), target))
  }

  lemma BetweenPush(es: seq<Edge>, x: Edge, node: nat, target: nat)
    ensures Between(es + [x], node, target)
         == if x.source == node && x.target == target then Between(es, node, target) + [x] else Between(es, node, target)
  {
    LeavingPush(es, x, node);
    if x.source == node {
      var own := Leaving(es, node);
      FlipPush(own, x);
      LeavingPush(FlipAll(own), Flip(x), target);
      FlipPush(Leaving(FlipAll(own), target), Flip(x));
    }
  }

  lemma ArrivingPush(es: seq<Edge>, x: Edge, node: nat, target: nat)
    ensures Leaving(FlipAll(Leaving(FlipAll(es + [x]), target)), node)
         == if x.source == node && x.target == target then Leaving(FlipAll(Leaving(FlipAll(es), target)), node) + [x]
            else Leaving(FlipAll(Leaving(FlipAll(es), target)), node)
  {
    var arriving := Leaving(FlipAll(es), target);
    FlipPush(es, x);
    LeavingPush(FlipAll(es), Flip(x), target);
    if x.target == target {
      FlipPush(arriving, Flip(x));
      LeavingPush(FlipAll(arriving), x, node);
    }
  }

  /** Filtering by target and by source commute. */
  lemma {:induction false} FiltersCommute(es: seq<Edge>, target: nat, node: nat)
    ensures Leaving(FlipAll(Leaving(FlipAll(es), target)), node) == Between(es, node, target)
    decreases |es|
  {
    if es != [] {
      var front, last := es[..|es| - 1], es[|es| - 1];
      assert es == front + [last];
      FiltersCommute(front, target, node);
      ArrivingPush(front, last, node, target);
      BetweenPush(front, last, node, target);
    }
  }

  /** A stable sort by target: group the flipped edges, then flip back. */
  function SortedByTarget(es: seq<Edge>, nodeCount: nat): seq<Edge> {
    FlipAll(Grouped(FlipAll(es), nodeCount))
  }

  ghost predicate TargetSorted(es: seq<Edge>) {
    forall i, j | 0 <= i < j < |es| :: es[i].target <= es[j].target
  }

  /** It is sorted, and keeps the edges of each target in order. */
  lemma SortedByTargetIsStable(es: seq<Edge>, nodeCount: nat)
    ensures TargetSorted(SortedByTarget(es, nodeCount))
    ensures forall target | 0 <= target < nodeCount ::
              Leaving(FlipAll(SortedByTarget(es, nodeCount)), target) == Leaving(FlipAll(es), target)
  {
    GroupedSources(FlipAll(es), nodeCount);
    FlipTwice(Grouped(FlipAll(es), nodeCount));
    forall target | 0 <= target < nodeCount
      ensures Leaving(FlipAll(SortedByTarget(es, nodeCount)), target) == Leaving(FlipAll(es), target)
    {
      GroupedIsStable(FlipAll(es), target, nodeCount);
    }
  }

  lemma FlippedLeavingConcat(a: seq<Edge>, b: seq<Edge>, node: nat)
    ensures Leaving(FlipAll(a + b), node) == Leaving(FlipAll(a), node) + Leaving(FlipAll(b), node)
  {
    FlipAllConcat(a, b);
    LeavingSplit(FlipAll(a), FlipAll(b), node);
  }

  lemma GroupsGrow(fs: seq<Edge>, k: nat, node: nat)
    ensures Leaving(FlipAll(Grouped(fs, k + 1)), node)
         == Leaving(FlipAll(Grouped(fs, k)), node) + Leaving(FlipAll(Leaving(fs, k)), node)
  {
    FlippedLeavingConcat(Grouped(fs, k), Leaving(fs, k), node);
  }

  lemma SortedGrows(own: seq<Edge>, k: nat)
    ensures SortedByTarget(own, k + 1) == SortedByTarget(own, k) + FlipAll(Leaving(FlipAll(own), k))
  {
    FlipAllConcat(Grouped(FlipAll(own), k), Leaving(FlipAll(own), k));
  }

  lemma FlippedGroupsStart(es: seq<Edge>, node: nat)
    ensures Leaving(FlipAll(Grouped(FlipAll(es), 0)), node) == SortedByTarget(Leaving(es, node), 0)
  {
    assert Grouped(FlipAll(es), 0) == [] && FlipAll([]) == [] && Leaving([], node) == [];
  }

  lemma FlippedGroupsGrow(es: seq<Edge>, k: nat, node: nat)
    requires Leaving(FlipAll(Grouped(FlipAll(es), k)), node) == SortedByTarget(Leaving(es, node), k)
    ensures Leaving(FlipAll(Grouped(FlipAll(es), k + 1)), node) == SortedByTarget(Leaving(es, node), k + 1)
  {
    FiltersCommute(es, k, node);
    GroupsGrow(FlipAll(es), k, node);
    SortedGrows(Leaving(es, node), k);
  }

  lemma {:induction false} LeavingFlippedGroups(es: seq<Edge>, k: nat, node: nat)
    ensures Leaving(FlipAll(Grouped(FlipAll(es), k)), node) == SortedByTarget(Leaving(es, node), k)
  {
    if k == 0 {
      FlippedGroupsStart(es, node);
    } else {
      LeavingFlippedGroups(es, k - 1, node);
      FlippedGroupsGrow(es, k - 1, node);
    }
  }

  /** Reversing twice gives each node its own edges, stably sorted by target. */
  lemma TransposeTwice(es: seq<Edge>, nodeCount: nat, node: nat)
    requires node < nodeCount
    ensures Leaving(Transpose(Transpose(es, nodeCount), nodeCount), node) == SortedByTarget(Leaving(es, node), nodeCount)
  {
    GroupedIsStable(FlipAll(Transpose(es, nodeCount)), node, nodeCount);
    LeavingFlippedGroups(es, nodeCount, node);
  }

  lemma {:induction false} GroupedIgnoresHigher(a: seq<Edge>, b: seq<Edge>, v: nat)
    requires forall i | 0 <= i < |b| :: b[i].source >= v
    ensures Grouped(a + b, v) == Grouped(a, v)
  {
    if v > 0 {
      GroupedIgnoresHigher(a, b, v - 1);
      LeavingSplit(a, b, v - 1);
      LeavingNone(b, v - 1);
      assert Leaving(a + b, v - 1) == Leaving(a, v - 1);
    }
  }

  lemma SortedStaysInPlace(fs: seq<Edge>, e: nat)
    requires SourceSorted(fs) && e < |fs|
    ensures Slot(fs, e) == e
  {
    var v, front, back := fs[e].source, fs[..e], fs[e..];
    assert Grouped(fs, v) == Grouped(front, v) by {
      assert fs == front + back;
      GroupedIgnoresHigher(front, back, v);
    }
    assert |Grouped(front, v + 1)| == e by {
      GroupedSize(front, v + 1);
    }
  }

  /** Grouping a source-sorted list changes nothing. */
  lemma GroupedOfSorted(fs: seq<Edge>, n: nat)
    requires SourceSorted(fs) && forall i | 0 <= i < |fs| :: fs[i].source < n
    ensures Grouped(fs, n) == fs
  {
    GroupedSize(fs, n);
    forall e | 0 <= e < |fs|
      ensures Grouped(fs, n)[e] == fs[e]
    {
      SortedStaysInPlace(fs, e);
      SlotHolds(fs, e, n);
    }
  }

  lemma {:induction false} GroupedAgrees(a: seq<Edge>, b: seq<Edge>, n: nat)
    requires forall v | 0 <= v < n :: Leaving(a, v) == Leaving(b, v)
    ensures Grouped(a, n) == Grouped(b, n)
  {
    if n > 0 {
      GroupedAgrees(a, b, n - 1);
    }
  }

  lemma {:induction false} LeavingWithin(es: seq<Edge>, node: nat, nodeCount: nat)
    requires AllValid(nodeCount, es)
    ensures AllValid(nodeCount, Leaving(es, node))
    decreases |es|
  {
    if es != [] {
      LeavingWithin(es[..|es| - 1], node, nodeCount);
      assert ValidEdge(nodeCount, es[|es| - 1]);
    }
  }

  /** A list sorted by target stays as it is. */
  lemma SortingSortedIsIdentity(es: seq<Edge>, nodeCount: nat)
    requires AllValid(nodeCount, es) && TargetSorted(es)
    ensures SortedByTarget(es, nodeCount) == es
  {
    forall i | 0 <= i < |es|
      ensures FlipAll(es)[i].source < nodeCount
    {
      assert ValidEdge(nodeCount, es[i]);
    }
    GroupedOfSorted(FlipAll(es), nodeCount);
    FlipTwice(es);
  }

  lemma AllBelow(es: seq<Edge>, nodeCount: nat)
    requires AllValid(nodeCount, es)
    ensures forall i | 0 <= i < |es| :: es[i].source < nodeCount
  {
    forall i | 0 <= i < |es|
      ensures es[i].source < nodeCount
    {
      assert ValidEdge(nodeCount, es[i]);
    }
  }

  ghost predicate NodesTargetSorted(es: seq<Edge>, nodeCount: nat) {
    forall node | 0 <= node < nodeCount :: TargetSorted(Leaving(es, node))
  }

  lemma SortedReversesBack(es: seq<Edge>, nodeCount: nat)
    requires AllValid(nodeCount, es) && SourceSorted(es)
    requires NodesTargetSorted(es, nodeCount)
    ensures Transpose(Transpose(es, nodeCount), nodeCount) == es
  {
    var flipped := FlipAll(Transpose(es, nodeCount));
    forall node | 0 <= node < nodeCount
      ensures Leaving(flipped, node) == Leaving(es, node)
    {
      LeavingFlippedGroups(es, nodeCount, node);
      LeavingWithin(es, node, nodeCount);
      SortingSortedIsIdentity(Leaving(es, node), nodeCount);
    }
    GroupedAgrees(flipped, es, nodeCount);
    AllBelow(es, nodeCount);
    GroupedOfSorted(es, nodeCount);
  }

  /** Reversing a store twice gives it back exactly when every node's edges are sorted by target. */
  lemma TransposeTwiceIsIdentity(es: seq<Edge>, nodeCount: nat)
    requires AllValid(nodeCount, es) && SourceSorted(es)
    ensures Transpose(Transpose(es, nodeCount), nodeCount) == es
       <==> NodesTargetSorted(es, nodeCount)
  {
    if Transpose(Transpose(es, nodeCount), nodeCount) == es {
      forall node | 0 <= node < nodeCount
        ensures TargetSorted(Leaving(es, node))
      {
        TransposeTwice(es, nodeCount, node);
        SortedByTargetIsStable(Leaving(es, node), nodeCount);
      }
    }
    if NodesTargetSorted(es, nodeCount) {
      SortedReversesBack(es, nodeCount);
    }
  }

  /** A node's stretch of the target array holds the targets of its edges. */
  lemma StretchTargets(csr: Csr, nodeCount: nat, hasWeights: bool, es: seq<Edge>, node: nat)
    requires Represents(csr, nodeCount, hasWeights, es) && node < nodeCount
    ensures csr.offsets[node] + |Leaving(es, node)| == csr.offsets[node + 1] <= |csr.targets|
    ensures forall k | 0 <= k < |Leaving(es, node)| :: Leaving(es, node)[k].target == csr.targets[csr.offsets[node] + k]
  {
    StretchIsLeaving(es, node, csr.offsets[node], csr.offsets[node + 1]);
  }

  /** The target arrays of two lists one store represents agree node by node. */
  lemma SameTargets(csr: Csr, nodeCount: nat, hasWeights: bool, es: seq<Edge>, fs: seq<Edge>, node: nat)
    requires Represents(csr, nodeCount, hasWeights, es) && Represents(csr, nodeCount, hasWeights, fs) && node < nodeCount
    requires TargetSorted(Leaving(fs, node))
    ensures TargetSorted(Leaving(es, node))
  {
    StretchTargets(csr, nodeCount, hasWeights, es, node);
    StretchTargets(csr, nodeCount, hasWeights, fs, node);
    var own, other := Leaving(es, node), Leaving(fs, node);
    forall k | 0 <= k < |own|
      ensures own[k].target == other[k].target
    {
      assert own[k].target == csr.targets[csr.offsets[node] + k];
    }
  }

  /** Reversing a store and reversing the result gives the very same store, every array of it, exactly
      when every node's edges are sorted by target. */
  lemma ReversingTwiceIsIdentity(csr: Csr, twice: Csr, nodeCount: nat, hasWeights: bool, es: seq<Edge>)
    requires Represents(csr, nodeCount, hasWeights, es)
    requires Represents(twice, nodeCount, hasWeights, Transpose(Transpose(es, nodeCount), nodeCount))
    requires twice.types.Width() == csr.types.Width()
    ensures twice == csr <==> NodesTargetSorted(es, nodeCount)
  {
    if NodesTargetSorted(es, nodeCount) {
      SortedReversesBack(es, nodeCount);
      SameStore(twice, csr, nodeCount, hasWeights, es);
    }
    if twice == csr {
      forall node | 0 <= node < nodeCount
        ensures TargetSorted(Leaving(es, node))
      {
        TransposeTwice(es, nodeCount, node);
        SortedByTargetIsStable(Leaving(es, node), nodeCount);
        SameTargets(csr, nodeCount, hasWeights, es, Transpose(Transpose(es, nodeCount), nodeCount), node);
      }
    }
  }
}
