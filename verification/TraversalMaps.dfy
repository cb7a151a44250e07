/** Per-node traversal metadata, dense (one cell per graph node, a reserved value meaning absent) or
    sparse (visited nodes only). */
module TraversalMaps {
  import opened Prelude

  const SPARSE_METADATA_MIN_NODES: nat := 4_096
  const SPARSE_METADATA_RATIO: nat := 16

  datatype TraversalMap<T(==)> = Dense(cells: seq<T>, absent: T) | Sparse(entries: map<nat, T>, absent: T) {

    /** The visited nodes and what is recorded for them, whichever layout holds it. */
    function View(): map<nat, T> {
      match this
      case Dense(cells, absent) => map i: nat | i < |cells| && cells[i] != absent :: cells[i]
      case Sparse(entries, _) => entries
    }

    predicate Holds(nodeCount: nat) {
      Dense? ==> |cells| == nodeCount
    }

    function Get(node: nat): Option<T> {
      match this
      case Dense(cells, absent) => if node < |cells| && cells[node] != absent then Some(cells[node]) else None
      case Sparse(entries, _) => if node in entries then Some(entries[node]) else None
    }

    function Set(node: nat, value: T): TraversalMap<T>
      requires Dense? ==> node < |cells|
    {
      match this
      case Dense(cells, absent) => Dense(cells[node := value], absent)
      case Sparse(entries, absent) => Sparse(entries[node := value], absent)
    }
  }

  predicate UseSparseMetadata(nodeCount: nat, maxNodes: nat) {
    nodeCount >= SPARSE_METADATA_MIN_NODES && Min(maxNodes, nodeCount) * SPARSE_METADATA_RATIO < nodeCount
  }

  function Unvisited<T(==)>(nodeCount: nat, sparse: bool, absent: T): (r: TraversalMap<T>)
    ensures r.View() == map[] && r.Holds(nodeCount) && r.absent == absent
  {
    if sparse then Sparse(map[], absent) else Dense(seq(nodeCount, _ => absent), absent)
  }

  /** Either layout reads and writes as the plain map it stands for, so the choice between them
      cannot be observed: a stored value only has to differ from the reserved one. */
  lemma LayoutUnobservable<T>(m: TraversalMap<T>, nodeCount: nat, node: nat, value: T)
    requires m.Holds(nodeCount)
    ensures m.Get(node) == if node in m.View() then Some(m.View()[node]) else None
    ensures node < nodeCount && value != m.absent ==>
              && m.Set(node, value).View() == m.View()[node := value]
              && m.Set(node, value).Holds(nodeCount)
              && m.Set(node, value).absent == m.absent
  {
    if node < nodeCount && value != m.absent {
      var v := m.Set(node, value).View();
      assert v.Keys == m.View().Keys + {node};
      assert forall i <- v.Keys :: v[i] == m.View()[node := value][i];
    }
  }
}
