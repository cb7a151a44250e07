/** Rebuilding a path and its edge types from the recorded parents. */
module Paths {
  import opened Prelude
  import opened Topology
  import opened Traversal
  import opened TraversalMaps
  import opened Reachability

  /** The recorded types along the path to a visited node. */
  ghost function TreeTypes(env: Env, t: Tree, v: nat): seq<nat>
    requires Rooted(env, t) && v in t.visited
    decreases t.depth[v]
  {
    if v == env.config.seedNode then []
    else
      assert Hangs(env, t, v);
      TreeTypes(env, t, t.parent[v]) + [t.parentType[v]]
  }

  /** Each step goes from a recorded parent to its child, over an admissible entry of the recorded
      type. */
  ghost predicate RecordedSteps(env: Env, t: Tree, p: seq<nat>, types: seq<nat>) {
    && |p| == |types| + 1
    && forall i | 0 <= i < |types| :: RecordedStep(env, t, p[i], p[i + 1], types[i])
  }

  ghost predicate RecordedStep(env: Env, t: Tree, u: nat, v: nat, typeId: nat) {
    && v in t.parent && t.parent[v] == u
    && v in t.parentType && t.parentType[v] == typeId
    && StepBy(env, u, v, typeId)
  }

  lemma RecordedAppend(env: Env, t: Tree, p: seq<nat>, types: seq<nat>, v: nat, typeId: nat)
    requires RecordedSteps(env, t, p, types) && RecordedStep(env, t, p[|p| - 1], v, typeId)
    ensures RecordedSteps(env, t, p + [v], types + [typeId])
  {
    forall i | 0 <= i < |types| + 1
      ensures RecordedStep(env, t, (p + [v])[i], (p + [v])[i + 1], (types + [typeId])[i])
    {
      if i < |types| {
        assert RecordedStep(env, t, p[i], p[i + 1], types[i]);
      }
    }
  }

  /** The path to a visited node has one more node than its depth, and its types are the ones
      recorded for its steps. */
  lemma {:induction false} TypesMatchSteps(env: Env, t: Tree, v: nat)
    requires Rooted(env, t) && v in t.visited
    ensures |TreeTypes(env, t, v)| == t.depth[v]
    ensures RecordedSteps(env, t, TreePath(env, t, v), TreeTypes(env, t, v))
    decreases t.depth[v]
  {
    if v != env.config.seedNode {
      assert Hangs(env, t, v);
      var u := t.parent[v];
      TypesMatchSteps(env, t, u);
      TreePathIsWalk(env, t, u);
      RecordedAppend(env, t, TreePath(env, t, u), TreeTypes(env, t, u), v, t.parentType[v]);
    }
  }

  /** Walk the parents back from the target and reverse. On any traversal's tree this terminates; a
      visited target gives the path from the seed, and any other target only itself. */
  method ReconstructPath(parent: TraversalMap<nat>, seed: nat, target: nat, ghost env: Env, ghost t: Tree)
    returns (path: seq<nat>)
    requires Rooted(env, t) && parent.View() == t.parent && seed == env.config.seedNode
    ensures path == if target in t.visited then TreePath(env, t, target) else [target]
  {
    var back: seq<nat> := [];
    var current := target;
    while true
      invariant (current == target && back == []) || (target in t.visited && current in t.visited)
      invariant target in t.visited ==> TreePath(env, t, current) + Reversed(back) == TreePath(env, t, target)
      decreases if current in t.visited then t.depth[current] else 0
    {
      ghost var before := back;
      back := back + [current];
      ReversedAppend(before, current);
      if current == seed {
        break;
      }
      LayoutReads(parent, current);
      var p := parent.Get(current);
      if p.None? {
        break;
      }
      assert Hangs(env, t, current);
      if p.value == current {
        break;
      }
      current := p.value;
    }
    path := Reversed(back);
  }

  lemma LayoutReads(m: TraversalMap<nat>, node: nat)
    ensures m.Get(node) == if node in m.View() then Some(m.View()[node]) else None
  {
  }

  lemma {:induction false} ReversedAppend<T>(s: seq<T>, x: T)
    ensures Reversed(s + [x]) == [x] + Reversed(s)
    decreases |s|
  {
    if s != [] {
      assert (s + [x])[1..] == s[1..] + [x];
      ReversedAppend(s[1..], x);
    }
  }

  /** Moving one step up the tree takes that step's type to the front of what follows. */
  lemma StepTypes(env: Env, t: Tree, current: nat, typeId: nat, back: seq<nat>)
    requires Rooted(env, t) && current in t.visited && current != env.config.seedNode
    requires t.parent[current] in t.visited && typeId == t.parentType[current]
    ensures TreeTypes(env, t, t.parent[current]) + Reversed(back + [typeId]) == TreeTypes(env, t, current) + Reversed(back)
  {
    ReversedAppend(back, typeId);
    assert Hangs(env, t, current);
  }

  /** The types of the steps along the same path; none for a target that was not visited. */
  method ReconstructEdgePath(parent: TraversalMap<nat>, parentType: TraversalMap<nat>, seed: nat, target: nat,
                             ghost env: Env, ghost t: Tree)
    returns (types: seq<nat>)
    requires Rooted(env, t) && seed == env.config.seedNode
    requires parent.View() == t.parent && parentType.View() == t.parentType
    ensures types == if target in t.visited then TreeTypes(env, t, target) else []
  {
    var back: seq<nat> := [];
    var current := target;
    while current != seed
      invariant (current == target && back == []) || (target in t.visited && current in t.visited)
      invariant target in t.visited ==> TreeTypes(env, t, current) + Reversed(back) == TreeTypes(env, t, target)
      decreases if current in t.visited then t.depth[current] else 0
    {
      LayoutReads(parent, current);
      LayoutReads(parentType, current);
      var p := parent.Get(current);
      if p.None? {
        break;
      }
      assert Hangs(env, t, current);
      if p.value == current {
        break;
      }
      var typeId := match parentType.Get(current) { case Some(id) => id case None => UNTYPED };
      StepTypes(env, t, current, typeId, back);
      back := back + [typeId];
      current := p.value;
    }
    types := Reversed(back);
  }
}
