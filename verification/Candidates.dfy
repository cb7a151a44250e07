/** Candidate batches exchanged with the visibility oracle, and what judging them amounts to. */
module Candidates {
  import opened Prelude
  import opened Topology
  import opened Traversal

  datatype BfsCandidateLimits = BfsCandidateLimits(maxCandidates: nat, maxKeyBytes: nat)

  datatype Candidate = Candidate(
    sequence: nat,
    parentNode: nat,
    parentDepth: int,
    targetNode: nat,
    targetTableOid: nat,
    targetSourceKey: seq<byte>,
    edgeType: nat,
    schemaReversed: bool,
    relationshipId: Option<nat>,
    relationshipMappingId: Option<nat>,
    relationshipSourceKey: Option<seq<byte>>)
  {
    function KeyBytes(): nat {
      |targetSourceKey| + if relationshipSourceKey.Some? then |relationshipSourceKey.value| else 0
    }

    /** The adjacency entry a candidate was made from. */
    function Entry(): Neighbor {
      Neighbor(targetNode, edgeType, schemaReversed, relationshipId)
    }
  }

  datatype CandidateBatch = CandidateBatch(candidates: seq<Candidate>, exhaustedCurrent: bool)

  function TotalKeyBytes(cs: seq<Candidate>): nat {
    if cs == [] then 0 else TotalKeyBytes(cs[..|cs| - 1]) + cs[|cs| - 1].KeyBytes()
  }

  /** The key bytes a batch is charged are the lengths of the keys it carries. */
  lemma {:induction false} KeyBytesAreLengths(cs: seq<Candidate>)
    ensures TotalKeyBytes(cs) == KeyLengths(cs, |cs|)
    decreases |cs|
  {
    if cs != [] {
      KeyBytesAreLengths(cs[..|cs| - 1]);
      KeyLengthsAgree(cs, cs[..|cs| - 1], |cs| - 1);
    }
  }

  function KeyLengths(cs: seq<Candidate>, k: nat): nat
    requires k <= |cs|
  {
    if k == 0 then 0
    else KeyLengths(cs, k - 1) + |cs[k - 1].targetSourceKey|
         + match cs[k - 1].relationshipSourceKey { case Some(key) => |key| case None => 0 }
  }

  lemma {:induction false} KeyLengthsAgree(a: seq<Candidate>, b: seq<Candidate>, k: nat)
    requires k <= |a| && k <= |b| && forall i | 0 <= i < k :: a[i] == b[i]
    ensures KeyLengths(a, k) == KeyLengths(b, k)
  {
    if k > 0 {
      KeyLengthsAgree(a, b, k - 1);
    }
  }

  ghost predicate Increasing(cs: seq<Candidate>) {
    forall i, j | 0 <= i < j < |cs| :: cs[i].sequence < cs[j].sequence
  }

  ghost predicate AcceptableBatch(cs: seq<Candidate>, limits: BfsCandidateLimits) {
    && limits.maxCandidates > 0 && limits.maxKeyBytes > 0
    && |cs| <= limits.maxCandidates
    && Increasing(cs)
    && TotalKeyBytes(cs) <= limits.maxKeyBytes
  }

  lemma {:induction false} PrefixKeyBytes(cs: seq<Candidate>, i: nat)
    requires i <= |cs|
    ensures TotalKeyBytes(cs[..i]) <= TotalKeyBytes(cs)
    decreases |cs|
  {
    if i < |cs| {
      PrefixKeyBytes(cs[..|cs| - 1], i);
      assert cs[..|cs| - 1][..i] == cs[..i];
    } else {
      assert cs[..i] == cs;
    }
  }

  /** A batch is accepted exactly when it is within both limits and its sequence increases. */
  method TryNewBatch(candidates: seq<Candidate>, exhaustedCurrent: bool, limits: BfsCandidateLimits)
    returns (r: Result<CandidateBatch>)
    ensures r == if AcceptableBatch(candidates, limits)
                 then Ok(CandidateBatch(candidates, exhaustedCurrent)) else Err(InvalidFilter)
  {
    if limits.maxCandidates == 0 || limits.maxKeyBytes == 0 || |candidates| > limits.maxCandidates {
      return Err(InvalidFilter);
    }
    var bytes := 0;
    var previous := None;
    var i := 0;
    while i < |candidates|
      invariant i <= |candidates|
      invariant previous == if i == 0 then None else Some(candidates[i - 1].sequence)
      invariant Increasing(candidates[..i])
      invariant bytes == TotalKeyBytes(candidates[..i]) <= limits.maxKeyBytes
    {
      var candidate := candidates[i];
      assert candidates[..i + 1][..i] == candidates[..i];
      PrefixKeyBytes(candidates, i + 1);
      if previous.Some? && candidate.sequence <= previous.value {
        return Err(InvalidFilter);
      }
      previous := Some(candidate.sequence);
      bytes := bytes + candidate.KeyBytes();
      if bytes > limits.maxKeyBytes {
        return Err(InvalidFilter);
      }
      i := i + 1;
    }
    assert candidates[..i] == candidates;
    return Ok(CandidateBatch(candidates, exhaustedCurrent));
  }

  datatype Verdict = Verdict(sequence: nat, nodeVisible: bool, relationshipVisible: bool) {
    predicate Visible() {
      nodeVisible && relationshipVisible
    }
  }

  /** Admission of one resolved candidate: its verdict first, then the node's own checks. */
  function Judge(env: Inputs, s: State, c: Candidate, v: Verdict): State {
    if s.status != Open then s
    else if !v.Visible() || c.targetNode in s.tree.visited || !NodeAdmissible(env, c.targetNode) then s
    else Admit(env.config, s, c.parentNode, c.parentDepth, c.targetNode, c.edgeType)
  }

  function JudgeAll(env: Inputs, s: State, cs: seq<Candidate>, vs: seq<Verdict>): State
    requires |cs| == |vs|
    decreases |cs|
  {
    if cs == [] then s else JudgeAll(env, Judge(env, s, cs[0], vs[0]), cs[1..], vs[1..])
  }

  lemma JudgeAllSteps(env: Inputs, s: State, cs: seq<Candidate>, vs: seq<Verdict>, i: nat)
    requires |cs| == |vs| && i < |cs|
    ensures JudgeAll(env, s, cs[i..], vs[i..]) == JudgeAll(env, Judge(env, s, cs[i], vs[i]), cs[i + 1..], vs[i + 1..])
  {
    assert cs[i..][1..] == cs[i + 1..] && vs[i..][1..] == vs[i + 1..];
  }

  lemma {:induction false} JudgeAllClosed(env: Inputs, s: State, cs: seq<Candidate>, vs: seq<Verdict>)
    requires |cs| == |vs| && s.status != Open
    ensures JudgeAll(env, s, cs, vs) == s
    decreases |cs|
  {
    if cs != [] {
      JudgeAllClosed(env, s, cs[1..], vs[1..]);
    }
  }

  function Entries(cs: seq<Candidate>): (r: seq<Neighbor>)
    ensures |r| == |cs| && forall i :: 0 <= i < |cs| ==> r[i] == cs[i].Entry()
  {
    if cs == [] then [] else [cs[0].Entry()] + Entries(cs[1..])
  }

  /** A scope's own answer for one candidate. */
  predicate Faithful(scope: VisibilityScope, c: Candidate, v: Verdict) {
    && v.nodeVisible == scope.AllowsNode(c.targetNode)
    && Ok(v.relationshipVisible) == scope.AllowsRelationship(c.edgeType, c.relationshipId)
  }

  /** With the scope's own verdicts, judging a batch is offering its entries. */
  lemma {:induction false} JudgingIsOffering(env: Inputs, s: State, parent: nat, d: int, cs: seq<Candidate>, vs: seq<Verdict>)
    requires |cs| == |vs|
    requires forall c <- cs :: c.parentNode == parent && c.parentDepth == d
    requires forall c <- cs :: TypeAllowed(env.config.edgeTypeFilter, c.edgeType)
    requires forall i | 0 <= i < |cs| :: Faithful(env.scope, cs[i], vs[i])
    ensures JudgeAll(env, s, cs, vs) == OfferAll(env, s, parent, d, Entries(cs))
    decreases |cs|
  {
    if cs != [] {
      assert cs[0] in cs && Faithful(env.scope, cs[0], vs[0]);
      GateMeaning(env, cs[0].Entry(), s.tree.visited);
      assert Judge(env, s, cs[0], vs[0]) == Offer(env, s, parent, d, cs[0].Entry());
      JudgingIsOffering(env, Judge(env, s, cs[0], vs[0]), parent, d, cs[1..], vs[1..]);
      assert Entries(cs)[1..] == Entries(cs[1..]);
    }
  }

  /** The entries whose type the run follows, in order. */
  function Kept(filter: EdgeTypeFilter, ns: seq<Neighbor>): seq<Neighbor>
    decreases |ns|
  {
    if ns == [] then []
    else Kept(filter, ns[..|ns| - 1]) + if TypeAllowed(filter, ns[|ns| - 1].typeId) then [ns[|ns| - 1]] else []
  }

  /** Dropping entries of other types before they are offered changes nothing. */
  lemma {:induction false} KeptOffers(env: Inputs, s: State, parent: nat, d: int, ns: seq<Neighbor>)
    requires !env.config.edgeTypeFilter.NoneMatched?
    ensures OfferAll(env, s, parent, d, Kept(env.config.edgeTypeFilter, ns)) == OfferAll(env, s, parent, d, ns)
    decreases |ns|
  {
    if ns != [] {
      var front, last := ns[..|ns| - 1], ns[|ns| - 1];
      assert ns == front + [last];
      KeptOffers(env, s, parent, d, front);
      OfferAllSplit(env, s, parent, d, front, [last]);
      if TypeAllowed(env.config.edgeTypeFilter, last.typeId) {
        OfferAllSplit(env, s, parent, d, Kept(env.config.edgeTypeFilter, front), [last]);
      } else {
        var t := OfferAll(env, s, parent, d, front);
        assert Kept(env.config.edgeTypeFilter, ns) == Kept(env.config.edgeTypeFilter, front);
        assert OfferAll(env, t, parent, d, [last]) == Offer(env, t, parent, d, last) == t;
      }
    }
  }
}
