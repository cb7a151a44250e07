/** How many raw adjacency entries a set of expanded nodes owns. */
module Accounting {
  import opened Ordering
  import opened Topology

  function Degree(env: Inputs, u: nat): nat {
    |env.Outgoing(u)|
  }

  /** Entries owned by a list of nodes. */
  function Owned(env: Inputs, us: seq<nat>): nat {
    if us == [] then 0 else Owned(env, us[..|us| - 1]) + Degree(env, us[|us| - 1])
  }

  /** Entries in the first `count` adjacency lists. */
  function EntriesBelow(env: Inputs, count: nat): nat {
    if count == 0 then 0 else EntriesBelow(env, count - 1) + Degree(env, count - 1)
  }

  function TotalEntries(env: Inputs): nat {
    EntriesBelow(env, env.store.nodeCount)
  }

  ghost predicate Distinct(us: seq<nat>) {
    forall i, j | 0 <= i < j < |us| :: us[i] != us[j]
  }

  lemma {:induction false} OwnedWithout(env: Inputs, us: seq<nat>, i: nat)
    requires i < |us|
    ensures Owned(env, us) == Owned(env, Removed(us, i)) + Degree(env, us[i])
    decreases |us|
  {
    var rest := Removed(us, i);
    if i == |us| - 1 {
      assert rest == us[..i];
    } else {
      OwnedWithout(env, us[..|us| - 1], i);
      RemovedFront(us, i);
    }
  }

  lemma RemovedFront(us: seq<nat>, i: nat)
    requires i < |us| - 1
    ensures Removed(us, i) == Removed(us[..|us| - 1], i) + [us[|us| - 1]]
    ensures Removed(us, i)[..|us| - 2] == Removed(us[..|us| - 1], i)
  {
  }

  lemma RemovedMembers(us: seq<nat>, i: nat)
    requires Distinct(us) && i < |us|
    ensures Distinct(Removed(us, i)) && forall v :: v in Removed(us, i) <==> v in us && v != us[i]
  {
    var rest := Removed(us, i);
    assert forall j | 0 <= j < |rest| :: rest[j] == us[if j < i then j else j + 1];
    forall v | v in us && v != us[i]
      ensures v in rest
    {
      var j :| 0 <= j < |us| && us[j] == v;
      assert rest[if j < i then j else j - 1] == v;
    }
  }

  lemma FirstIsMember(us: seq<nat>)
    ensures us == [] || us[0] in us
  {
  }

  /** Entries in the first `count` adjacency lists, those of `keep` alone. */
  function EntriesOf(env: Inputs, keep: set<nat>, count: nat): nat {
    if count == 0 then 0
    else EntriesOf(env, keep, count - 1) + if count - 1 in keep then Degree(env, count - 1) else 0
  }

  /** A list that names each node of `keep` once owns exactly their entries. */
  lemma {:induction false} OwnedIsEntries(env: Inputs, us: seq<nat>, keep: set<nat>, count: nat)
    requires Distinct(us) && forall v: nat :: v in us <==> v in keep && v < count
    ensures Owned(env, us) == EntriesOf(env, keep, count)
    decreases count
  {
    if count == 0 {
      FirstIsMember(us);
    } else if count - 1 in keep {
      assert count - 1 in us;
      var i :| 0 <= i < |us| && us[i] == count - 1;
      OwnedWithout(env, us, i);
      RemovedMembers(us, i);
      OwnedIsEntries(env, Removed(us, i), keep, count - 1);
    } else {
      OwnedIsEntries(env, us, keep, count - 1);
    }
  }

  lemma {:induction false} EntriesWithinAll(env: Inputs, keep: set<nat>, count: nat)
    ensures EntriesOf(env, keep, count) <= EntriesBelow(env, count)
  {
    if count > 0 {
      EntriesWithinAll(env, keep, count - 1);
    }
  }

  lemma {:induction false} EntriesGrow(env: Inputs, few: set<nat>, more: set<nat>, count: nat)
    requires few <= more
    ensures EntriesOf(env, few, count) <= EntriesOf(env, more, count)
  {
    if count > 0 {
      EntriesGrow(env, few, more, count - 1);
    }
  }

  /** Nodes expanded at most once together own no more entries than the graph has. */
  lemma OwnedAtMostAll(env: Inputs, us: seq<nat>, count: nat)
    requires Distinct(us) && forall i | 0 <= i < |us| :: us[i] < count
    ensures Owned(env, us) <= EntriesBelow(env, count)
  {
    var keep := set v | v in us;
    OwnedIsEntries(env, us, keep, count);
    EntriesWithinAll(env, keep, count);
  }
}
