/** Stable grouping of edges by source, the reference for the reverse store: what it contains, where
    each edge lands, and that turning a store around twice sorts each node's edges by target. */
module Grouping {
  import opened EdgeStore
  import opened Ordering

  function Flip(e: Edge): Edge {
    e.(source := e.target, target := e.source)
  }

  function FlipAll(es: seq<Edge>): (fs: seq<Edge>)
    ensures |fs| == |es| && forall i | 0 <= i < |es| :: fs[i] == Flip(es[i])
  {
    if es == [] then [] else FlipAll(es[..|es| - 1]) + [Flip(es[|es| - 1])]
  }

  lemma FlipTwice(es: seq<Edge>)
    ensures FlipAll(FlipAll(es)) == es
  {
  }

  /** The edges leaving nodes below `v`, node by node, each node's in their given order. */
  function Grouped(fs: seq<Edge>, v: nat): seq<Edge> {
    if v == 0 then [] else Grouped(fs, v - 1) + Leaving(fs, v - 1)
  }

  /** The reverse of an edge list over `nodeCount` nodes. */
  function Transpose(es: seq<Edge>, nodeCount: nat): seq<Edge> {
    Grouped(FlipAll(es), nodeCount)
  }

  lemma {:induction false} LeavingSources(fs: seq<Edge>, node: nat)
    ensures forall i | 0 <= i < |Leaving(fs, node)| :: Leaving(fs, node)[i].source == node
    decreases |fs|
  {
    if fs != [] {
      LeavingSources(fs[..|fs| - 1], node);
    }
  }

  lemma {:induction false} GroupedSources(fs: seq<Edge>, v: nat)
    ensures forall i | 0 <= i < |Grouped(fs, v)| :: Grouped(fs, v)[i].source < v
    ensures SourceSorted(Grouped(fs, v))
  {
    if v > 0 {
      GroupedSources(fs, v - 1);
      LeavingSources(fs, v - 1);
    }
  }

  lemma {:induction false} GroupedPrefix(fs: seq<Edge>, v: nat, n: nat)
    requires v <= n
    ensures Grouped(fs, v) <= Grouped(fs, n)
    ensures forall i | |Grouped(fs, v)| <= i < |Grouped(fs, n)| :: Grouped(fs, n)[i].source >= v
  {
    if v < n {
      GroupedPrefix(fs, v, n - 1);
      LeavingSources(fs, n - 1);
    }
  }

  /** The sizes of the groups cut the grouping at each node. */
  lemma GroupedCuts(fs: seq<Edge>, v: nat, n: nat)
    requires v <= n
    ensures CutsAt(Grouped(fs, n), v, |Grouped(fs, v)|)
  {
    GroupedPrefix(fs, v, n);
    GroupedSources(fs, v);
    assert forall i | 0 <= i < |Grouped(fs, v)| :: Grouped(fs, n)[i] == Grouped(fs, v)[i];
  }

  /** Grouping keeps each node's edges in order. */
  lemma GroupedIsStable(fs: seq<Edge>, node: nat, n: nat)
    requires node < n
    ensures Leaving(Grouped(fs, n), node) == Leaving(fs, node)
  {
    GroupedCuts(fs, node, n);
    GroupedCuts(fs, node + 1, n);
    StretchIsLeaving(Grouped(fs, n), node, |Grouped(fs, node)|, |Grouped(fs, node + 1)|);
    GroupedPrefix(fs, node + 1, n);
    assert Grouped(fs, n)[..|Grouped(fs, node + 1)|] == Grouped(fs, node + 1);
  }

  lemma {:induction false} LeavingPrefix(fs: seq<Edge>, k: nat, node: nat)
    requires k <= |fs|
    ensures Leaving(fs[..k], node) <= Leaving(fs, node)
  {
    assert fs == fs[..k] + fs[k..];
    LeavingSplit(fs[..k], fs[k..], node);
  }

  lemma LeavingNext(fs: seq<Edge>, k: nat, node: nat)
    requires k < |fs|
    ensures Leaving(fs[..k + 1], node) == Leaving(fs[..k], node) + if fs[k].source == node then [fs[k]] else []
  {
    assert fs[..k + 1][..k] == fs[..k];
  }

  /** Where the `e`-th edge lands: after every edge of a lower node and every earlier one of its own. */
  function Slot(fs: seq<Edge>, e: nat): nat
    requires e < |fs|
  {
    |Grouped(fs, fs[e].source)| + |Leaving(fs[..e], fs[e].source)|
  }

  lemma LeavingHolds(fs: seq<Edge>, e: nat)
    requires e < |fs|
    ensures var v, j := fs[e].source, |Leaving(fs[..e], fs[e].source)|;
            j < |Leaving(fs, v)| && Leaving(fs, v)[j] == fs[e]
  {
    var v := fs[e].source;
    LeavingNext(fs, e, v);
    LeavingPrefix(fs, e + 1, v);
  }

  lemma GroupHolds(fs: seq<Edge>, v: nat, j: nat, n: nat)
    requires v < n && j < |Leaving(fs, v)|
    ensures |Grouped(fs, v)| + j < |Grouped(fs, v + 1)| <= |Grouped(fs, n)|
    ensures Grouped(fs, n)[|Grouped(fs, v)| + j] == Leaving(fs, v)[j]
  {
    GroupedPrefix(fs, v + 1, n);
    AtOffset(Grouped(fs, v), Leaving(fs, v), Grouped(fs, n), j);
  }

  lemma SlotHolds(fs: seq<Edge>, e: nat, n: nat)
    requires e < |fs| && fs[e].source < n
    ensures Slot(fs, e) < |Grouped(fs, fs[e].source + 1)| <= |Grouped(fs, n)| && Grouped(fs, n)[Slot(fs, e)] == fs[e]
  {
    LeavingHolds(fs, e);
    GroupHolds(fs, fs[e].source, |Leaving(fs[..e], fs[e].source)|, n);
  }

  /** No two edges land in the same slot. */
  lemma SlotsDiffer(fs: seq<Edge>, e: nat, f: nat, n: nat)
    requires e < f < |fs| && fs[e].source < n && fs[f].source < n
    ensures Slot(fs, e) != Slot(fs, f)
  {
    var v, w := fs[e].source, fs[f].source;
    SlotHolds(fs, e, n);
    SlotHolds(fs, f, n);
    if v == w {
      LeavingNext(fs, e, v);
      assert fs[..f][..e + 1] == fs[..e + 1];
      LeavingPrefix(fs[..f], e + 1, v);
    } else if v < w {
      GroupedPrefix(fs, v + 1, w);
    } else {
      GroupedPrefix(fs, w + 1, v);
    }
  }

  lemma {:induction false} LeavingOnto(fs: seq<Edge>, node: nat, j: nat) returns (e: nat)
    requires j < |Leaving(fs, node)|
    ensures e < |fs| && fs[e].source == node && |Leaving(fs[..e], node)| == j
    decreases |fs|
  {
    var front := fs[..|fs| - 1];
    if j < |Leaving(front, node)| {
      e := LeavingOnto(front, node, j);
      assert front[..e] == fs[..e];
    } else {
      e := |fs| - 1;
    }
  }

  /** Every place in the grouping is the slot of some edge. */
  lemma {:induction false} SlotsOnto(fs: seq<Edge>, p: nat, n: nat) returns (e: nat)
    requires p < |Grouped(fs, n)|
    ensures e < |fs| && fs[e].source < n && Slot(fs, e) == p
  {
    if p < |Grouped(fs, n - 1)| {
      e := SlotsOnto(fs, p, n - 1);
    } else {
      e := LeavingOnto(fs, n - 1, p - |Grouped(fs, n - 1)|);
    }
  }

  lemma {:induction false} GroupedPush(fs: seq<Edge>, x: Edge, v: nat)
    ensures |Grouped(fs + [x], v)| == |Grouped(fs, v)| + if x.source < v then 1 else 0
  {
    if v > 0 {
      GroupedPush(fs, x, v - 1);
      assert (fs + [x])[..|fs|] == fs;
    }
  }

  /** Grouping loses nothing. */
  lemma {:induction false} GroupedSize(fs: seq<Edge>, n: nat)
    requires forall i | 0 <= i < |fs| :: fs[i].source < n
    ensures |Grouped(fs, n)| == |fs|
    decreases |fs|
  {
    if fs == [] {
      GroupedNothing(n);
    } else {
      var front := fs[..|fs| - 1];
      GroupedSize(front, n);
      assert fs == front + [fs[|fs| - 1]];
      GroupedPush(front, fs[|fs| - 1], n);
    }
  }

  lemma {:induction false} GroupedNothing(n: nat)
    ensures Grouped([], n) == []
  {
    if n > 0 {
      GroupedNothing(n - 1);
    }
  }
}
