/** Sorted sequences under a total order: a multiset has only one sorted arrangement. */
module Ordering {

  ghost predicate TotalOrder<T(!new)>(le: (T, T) -> bool) {
    && (forall a, b :: le(a, b) || le(b, a))
    && (forall a, b :: le(a, b) && le(b, a) ==> a == b)
    && (forall a, b, c :: le(a, b) && le(b, c) ==> le(a, c))
  }

  ghost predicate Sorted<T>(s: seq<T>, le: (T, T) -> bool) {
    forall i, j | 0 <= i < j < |s| :: le(s[i], s[j])
  }

  /** Reading past a known front. */
  lemma AtOffset<T>(front: seq<T>, mid: seq<T>, whole: seq<T>, j: nat)
    requires front + mid <= whole && j < |mid|
    ensures |front| + j < |whole| && whole[|front| + j] == mid[j]
  {
    assert whole[|front| + j] == (front + mid)[|front| + j];
  }

  function Removed<T>(s: seq<T>, j: nat): (r: seq<T>)
    requires j < |s|
    ensures |r| == |s| - 1
  {
    s[..j] + s[j + 1..]
  }

  lemma Without<T>(s: seq<T>, j: nat)
    requires j < |s|
    ensures multiset(s) == multiset(Removed(s, j)) + multiset{s[j]}
  {
    assert s == s[..j] + [s[j]] + s[j + 1..];
  }

  lemma Cancel<T>(x: multiset<T>, y: multiset<T>, e: T)
    requires x + multiset{e} == y + multiset{e}
    ensures x == y
  {
    assert x == x + multiset{e} - multiset{e} && y == y + multiset{e} - multiset{e};
  }

  lemma FirstsAgree<T(!new)>(a: seq<T>, b: seq<T>, le: (T, T) -> bool)
    requires TotalOrder(le) && Sorted(a, le) && Sorted(b, le) && multiset(a) == multiset(b) && a != [] && b != []
    ensures a[0] == b[0]
  {
    assert a[0] in multiset(b) && b[0] in multiset(a);
    var i :| 0 <= i < |b| && b[i] == a[0];
    var j :| 0 <= j < |a| && a[j] == b[0];
    assert le(a[0], a[j]) || j == 0;
    assert le(b[0], b[i]) || i == 0;
  }

  lemma TailsSorted<T>(s: seq<T>, le: (T, T) -> bool)
    requires s != [] && Sorted(s, le)
    ensures Sorted(s[1..], le) && multiset(s) == multiset(s[1..]) + multiset{s[0]}
  {
    assert s == [s[0]] + s[1..];
  }

  /** Two sorted arrangements of the same elements are the same sequence. */
  lemma {:induction false} SortedUnique<T(!new)>(a: seq<T>, b: seq<T>, le: (T, T) -> bool)
    requires TotalOrder(le) && Sorted(a, le) && Sorted(b, le) && multiset(a) == multiset(b)
    ensures a == b
    decreases |a|
  {
    assert |multiset(a)| == |a| && |multiset(b)| == |b|;
    if a != [] {
      FirstsAgree(a, b, le);
      TailsSorted(a, le);
      TailsSorted(b, le);
      Cancel(multiset(a[1..]), multiset(b[1..]), a[0]);
      SortedUnique(a[1..], b[1..], le);
      assert a == [a[0]] + a[1..] && b == [b[0]] + b[1..];
    }
  }

  lemma SortedAppends<T(!new)>(s: seq<T>, x: T, le: (T, T) -> bool)
    requires TotalOrder(le) && Sorted(s, le) && (s != [] ==> le(s[|s| - 1], x))
    ensures Sorted(s + [x], le)
  {
    forall i | 0 <= i < |s|
      ensures le(s[i], x)
    {
      assert i == |s| - 1 || le(s[i], s[|s| - 1]);
    }
  }

  ghost predicate TotalPreorder<T(!new)>(le: (T, T) -> bool) {
    && (forall a, b :: le(a, b) || le(b, a))
    && (forall a, b, c :: le(a, b) && le(b, c) ==> le(a, c))
  }

  function Inserted<T>(s: seq<T>, x: T, k: nat): (r: seq<T>)
    requires k <= |s|
    ensures |r| == |s| + 1
    ensures forall i | 0 <= i < |r| :: r[i] == if i < k then s[i] else if i == k then x else s[i - 1]
  {
    s[..k] + [x] + s[k..]
  }

  lemma InsertedElements<T>(s: seq<T>, x: T, k: nat)
    requires k <= |s|
    ensures multiset(Inserted(s, x, k)) == multiset(s) + multiset{x}
  {
    assert s == s[..k] + s[k..];
  }

  lemma SortedInserts<T(!new)>(s: seq<T>, x: T, k: nat, le: (T, T) -> bool)
    requires TotalPreorder(le) && Sorted(s, le) && k <= |s|
    requires forall i | 0 <= i < k :: le(s[i], x)
    requires k < |s| ==> !le(s[k], x)
    ensures Sorted(Inserted(s, x, k), le)
  {
    var r := Inserted(s, x, k);
    forall i, j | 0 <= i < j < |r|
      ensures le(r[i], r[j])
    {
      if i == k {
        assert le(x, s[k]);
        assert j - 1 == k || le(s[k], s[j - 1]);
      }
    }
  }

  /** Any sort that only promises a sorted arrangement: elements the order does not tell apart may
      come out in any order. */
  method SortUnstable<T(!new)>(s: seq<T>, le: (T, T) -> bool) returns (r: seq<T>)
    requires TotalPreorder(le)
    ensures Sorted(r, le) && multiset(r) == multiset(s)
  {
    r := [];
    for n := 0 to |s|
      invariant Sorted(r, le) && multiset(r) == multiset(s[..n])
    {
      var k := 0;
      while k < |r| && le(r[k], s[n])
        invariant 0 <= k <= |r|
        invariant forall i | 0 <= i < k :: le(r[i], s[n])
      {
        k := k + 1;
      }
      SortedInserts(r, s[n], k, le);
      InsertedElements(r, s[n], k);
      assert s[..n + 1] == s[..n] + [s[n]];
      r := Inserted(r, s[n], k);
    }
    assert s[..|s|] == s;
  }
}
