/** Disjoint sets with path compression and union by rank. */
module UnionFind {
  import opened Prelude

  function Pow2(k: nat): nat {
    if k == 0 then 1 else 2 * Pow2(k - 1)
  }

  /** The members of the class whose representative is `r`. */
  function Class(root: seq<nat>, r: nat): set<nat> {
    set x: nat | x < |root| && root[x] == r
  }

  /** `root` names each node's representative: parents stay within the class, only representatives are
      their own parent, and rank rises strictly at every step towards them. */
  ghost predicate Forest(parent: seq<nat>, rank: seq<nat>, root: seq<nat>) {
    && |parent| == |rank| == |root| <= U32_MAX
    && (forall x | 0 <= x < |parent| :: parent[x] < |parent| && root[x] < |parent|)
    && (forall x | 0 <= x < |parent| :: Rises(parent, rank, root, x))
  }

  ghost predicate Rises(parent: seq<nat>, rank: seq<nat>, root: seq<nat>, x: nat)
    requires |parent| == |rank| == |root| && x < |parent| && parent[x] < |parent| && root[x] < |parent|
  {
    && root[parent[x]] == root[x] && root[root[x]] == root[x] && parent[root[x]] == root[x]
    && (parent[x] == x <==> root[x] == x)
    && (parent[x] != x ==> rank[x] < rank[parent[x]])
    && rank[x] <= rank[root[x]]
  }

  /** A class whose representative has rank k holds at least 2^k nodes. */
  ghost predicate Weighted(rank: seq<nat>, root: seq<nat>) {
    |rank| == |root| && forall r | 0 <= r < |root| && root[r] == r :: Pow2(rank[r]) <= |Class(root, r)|
  }

  /** Below a representative every rank is strictly smaller than its own. */
  lemma BelowRoot(parent: seq<nat>, rank: seq<nat>, root: seq<nat>, x: nat)
    requires Forest(parent, rank, root) && x < |parent| && root[x] != x
    ensures rank[x] < rank[parent[x]] <= rank[root[x]]
  {
    assert Rises(parent, rank, root, x) && Rises(parent, rank, root, parent[x]);
  }

  /** Pointing a node straight at its representative keeps every node's representative and rank. */
  lemma CompressionKeepsForest(parent: seq<nat>, rank: seq<nat>, root: seq<nat>, x: nat)
    requires Forest(parent, rank, root) && x < |parent|
    ensures Forest(parent[x := root[x]], rank, root)
  {
    var p := parent[x := root[x]];
    forall y | 0 <= y < |p|
      ensures Rises(p, rank, root, y)
    {
      assert Rises(parent, rank, root, y) && Rises(parent, rank, root, x);
      if y == x && root[x] != x {
        BelowRoot(parent, rank, root, x);
      }
    }
  }

  /** Every member of class `from` renamed to `to`. */
  function Merged(root: seq<nat>, from: nat, to: nat): (r: seq<nat>)
    ensures |r| == |root| && forall x | 0 <= x < |root| :: r[x] == if root[x] == from then to else root[x]
  {
    seq(|root|, x requires 0 <= x < |root| => if root[x] == from then to else root[x])
  }

  /** Hanging one representative under another of no smaller rank, raised if they tie, keeps the
      forest with the classes merged. */
  lemma LinkKeepsForest(parent: seq<nat>, rank: seq<nat>, root: seq<nat>, from: nat, to: nat, rank': seq<nat>)
    requires Forest(parent, rank, root) && from < |parent| && to < |parent| && from != to
    requires root[from] == from && root[to] == to && rank[from] <= rank[to]
    requires rank' == if rank[from] == rank[to] then rank[to := rank[to] + 1] else rank
    ensures Forest(parent[from := to], rank', Merged(root, from, to))
  {
    var p, m := parent[from := to], Merged(root, from, to);
    assert Rises(parent, rank, root, from) && Rises(parent, rank, root, to);
    forall y | 0 <= y < |p|
      ensures Rises(p, rank', m, y)
    {
      assert Rises(parent, rank, root, y) && Rises(parent, rank, root, parent[y]);
    }
  }

  /** ... and the merged class is as large as its rank promises. */
  lemma LinkKeepsWeight(rank: seq<nat>, root: seq<nat>, from: nat, to: nat, rank': seq<nat>)
    requires Weighted(rank, root) && from < |root| && to < |root| && from != to
    requires root[from] == from && root[to] == to && rank[from] <= rank[to]
    requires rank' == if rank[from] == rank[to] then rank[to := rank[to] + 1] else rank
    ensures Weighted(rank', Merged(root, from, to))
  {
    var m := Merged(root, from, to);
    assert Class(m, to) == Class(root, from) + Class(root, to);
    assert Class(root, from) !! Class(root, to);
    forall r | 0 <= r < |m| && m[r] == r
      ensures Pow2(rank'[r]) <= |Class(m, r)|
    {
      if r != to {
        assert r != from && Class(m, r) == Class(root, r);
      }
    }
  }

  lemma {:induction false} Pow2Grows(j: nat, k: nat)
    requires j <= k
    ensures Pow2(j) <= Pow2(k)
    decreases k
  {
    if j < k {
      Pow2Grows(j, k - 1);
    }
  }

  /** Ranks stay far below what a byte can hold: with node indexes in 32 bits, at most 31. */
  lemma RankFitsByte(parent: seq<nat>, rank: seq<nat>, root: seq<nat>, x: nat)
    requires Forest(parent, rank, root) && Weighted(rank, root) && x < |parent|
    ensures rank[x] <= 31 < U8_MAX
  {
    assert Rises(parent, rank, root, x);
    var r := root[x];
    SubsetSize(Class(root, r), Below(|root|));
    assert Pow2(rank[r]) <= |root|;
    Pow2Of32();
    if rank[r] >= 32 {
      Pow2Grows(32, rank[r]);
    }
  }

  lemma Pow2Of32()
    ensures Pow2(32) == U32_MAX + 1
  {
    assert Pow2(8) == 256;
    assert Pow2(16) == 65536;
    assert Pow2(24) == 16777216;
  }

  ghost predicate SetsOk(parent: seq<nat>, rank: seq<nat>, root: seq<nat>) {
    Forest(parent, rank, root) && Weighted(rank, root)
  }

  /** Hanging representative `from` under `to`. */
  lemma LinkKeepsSets(parent: seq<nat>, rank: seq<nat>, root: seq<nat>, from: nat, to: nat, rank': seq<nat>)
    requires SetsOk(parent, rank, root) && from < |parent| && to < |parent| && from != to
    requires root[from] == from && root[to] == to && rank[from] <= rank[to]
    requires rank' == if rank[from] == rank[to] then rank[to := rank[to] + 1] else rank
    ensures SetsOk(parent[from := to], rank', Merged(root, from, to))
  {
    LinkKeepsForest(parent, rank, root, from, to, rank');
    LinkKeepsWeight(rank, root, from, to, rank');
  }

  /** How far below its representative a node's rank lies. */
  function Climb(rank: seq<nat>, root: seq<nat>, x: nat): nat
    requires x < |root| == |rank| && root[x] < |rank|
  {
    if rank[x] <= rank[root[x]] then rank[root[x]] - rank[x] else 0
  }

  class DisjointSets {
    var parent: seq<nat>
    var rank: seq<nat>
    /** Each node's representative. */
    ghost var root: seq<nat>

    ghost predicate Valid()
      reads this
    {
      SetsOk(parent, rank, root)
    }

    constructor (n: nat)
      requires n <= U32_MAX
      ensures Valid() && |root| == n && forall x | 0 <= x < n :: root[x] == x
    {
      parent := seq(n, i => i);
      rank := seq(n, _ => 0);
      root := seq(n, i => i);
      new;
      forall r | 0 <= r < n
        ensures Class(root, r) == {r}
      {
      }
    }

    /** The node's representative; on the way back every node passed is pointed straight at it. */
    method Find(x: nat) returns (r: nat)
      requires Valid() && x < |parent|
      modifies `parent
      ensures Valid() && r == root[x] == parent[x]
      ensures forall y | 0 <= y < |parent| :: parent[y] == old(parent)[y] || parent[y] == root[y]
      decreases Climb(rank, root, x)
    {
      assert Rises(parent, rank, root, x);
      if parent[x] != x {
        BelowRoot(parent, rank, root, x);
        var top := Find(parent[x]);
        CompressionKeepsForest(parent, rank, root, x);
        parent := parent[x := top];
      }
      return parent[x];
    }

    /** Hang representative `child` under representative `top`. */
    method Attach(child: nat, top: nat, newRank: seq<nat>)
      requires Valid() && child < |parent| && top < |parent| && child != top
      requires root[child] == child && root[top] == top && rank[child] <= rank[top]
      requires newRank == if rank[child] == rank[top] then rank[top := rank[top] + 1] else rank
      modifies this
      ensures Valid() && |root| == |old(root)| && root == Merged(old(root), child, top)
    {
      LinkKeepsSets(parent, rank, root, child, top, newRank);
      parent := parent[child := top];
      rank := newRank;
      root := Merged(root, child, top);
    }

    /** Merge the two classes, and no others. */
    method Union(x: nat, y: nat) returns (ghost from: nat, ghost to: nat)
      requires Valid() && x < |parent| && y < |parent|
      modifies this
      ensures Valid() && |root| == |old(root)|
      ensures (from, to) == (old(root)[x], old(root)[y]) || (from, to) == (old(root)[y], old(root)[x])
      ensures root == Merged(old(root), from, to)
    {
      var rx := Find(x);
      var ry := Find(y);
      assert Rises(parent, rank, root, x) && Rises(parent, rank, root, y);
      from, to := ry, rx;
      if rx == ry {
        assert root == Merged(root, from, to);
        return;
      }
      if rank[rx] < rank[ry] {
        from, to := rx, ry;
        Attach(rx, ry, rank);
      } else if rank[rx] > rank[ry] {
        Attach(ry, rx, rank);
      } else {
        RankFitsByte(parent, rank, root, rx);
        Attach(ry, rx, rank[rx := rank[rx] + 1]);
      }
    }
  }
}
