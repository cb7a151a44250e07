/** Driving the machine to completion against a visibility oracle, and what that is worth: batch
    boundaries cannot be observed. */
module Driver {
  import opened Prelude
  import opened Topology
  import opened Traversal
  import opened Candidates
  import opened Engines
  import opened Accounting
  import opened Resumable
  import opened Machine
  import Breakers
  import Reachability

  const CANDIDATE_LIMIT: nat := 64
  const KEY_BYTE_LIMIT: nat := 1_048_576

  /** The scope's verdicts for a batch; a relationship whose required identity is missing fails it. */
  method ResolveBatch(scope: VisibilityScope, batch: CandidateBatch) returns (r: Result<seq<Verdict>>)
    ensures r.Ok? ==>
              && |r.value| == |batch.candidates|
              && (forall i | 0 <= i < |r.value| ::
                    r.value[i].sequence == batch.candidates[i].sequence && Faithful(scope, batch.candidates[i], r.value[i]))
    ensures r.Err? ==>
              && r == Err(RelationshipIdentityMissing)
              && (exists i :: 0 <= i < |batch.candidates| && Unresolvable(scope, batch.candidates[i]))
  {
    var verdicts: seq<Verdict> := [];
    var i := 0;
    while i < |batch.candidates|
      invariant i == |verdicts| <= |batch.candidates|
      invariant forall j | 0 <= j < i ::
                  verdicts[j].sequence == batch.candidates[j].sequence && Faithful(scope, batch.candidates[j], verdicts[j])
    {
      var c := batch.candidates[i];
      var relationship := scope.AllowsRelationship(c.edgeType, c.relationshipId);
      if relationship.Err? {
        assert Unresolvable(scope, c);
        return Err(relationship.error);
      }
      verdicts := verdicts + [Verdict(c.sequence, scope.AllowsNode(c.targetNode), relationship.value)];
      i := i + 1;
    }
    return Ok(verdicts);
  }

  predicate Unresolvable(scope: VisibilityScope, c: Candidate) {
    scope.AllowsRelationship(c.edgeType, c.relationshipId).Err?
  }

  /** An unresolvable candidate fails the eager engine too, provided no cap fires before it: true of
      every batch no longer than the next candidate limit. */
  lemma UnresolvableFails(env: Env, m: Snapshot, i: nat)
    requires Coherent(env, m) && m.phase.NeedVisibility?
    requires i < |m.offered| && Unresolvable(env.scope, m.offered[i])
    requires |m.offered| <= Breakers.NextCandidateLimit(env.config, CANDIDATE_LIMIT, |m.tree.visited|, |m.frontier|)
    ensures Meaning(env, m).status == Failed
  {
    var parent, d := m.offered[0].parentNode, m.offered[0].parentDepth;
    var entries := Entries(m.offered);
    Breakers.OfferCapOnlyAtLast(env, m.Now(), CANDIDATE_LIMIT, parent, d, entries, i);
    OffersFail(env, m.Now(), parent, d, entries, i);
    PursueClosed(env, Held(env, m), m.active, m.Remaining(env));
  }

  lemma OffersFail(env: Env, s: State, parent: nat, d: int, ns: seq<Neighbor>, i: nat)
    requires i < |ns| && OfferAll(env, s, parent, d, ns[..i]).status != Capped
    requires TypeAllowed(env.config.edgeTypeFilter, ns[i].typeId)
    requires env.scope.AllowsRelationship(ns[i].typeId, ns[i].relationshipId).Err?
    ensures OfferAll(env, s, parent, d, ns).status == Failed
  {
    var before := OfferAll(env, s, parent, d, ns[..i]);
    assert ns == ns[..i] + ns[i..];
    OfferAllSplit(env, s, parent, d, ns[..i], ns[i..]);
    if before.status == Open {
      GateMeaning(env, ns[i], before.tree.visited);
      var failed := Offer(env, before, parent, d, ns[i]);
      assert ns[i..][0] == ns[i];
      OfferAllClosed(env, failed, parent, d, ns[i..][1..]);
    } else {
      OfferAllClosed(env, before, parent, d, ns[i..]);
    }
  }

  /** No relationship on the graph lacks an identity its type requires. */
  ghost predicate Resolvable(env: Env) {
    forall u, n :: n in env.Outgoing(u) ==> env.scope.AllowsRelationship(n.typeId, n.relationshipId).Ok?
  }

  /** One round leaves the run leading to the same end and strictly less of it to do: more visited,
      or fewer queued, or less of the active node unread. */
  ghost predicate RoundMoves(env: Env, m: Snapshot, n: Snapshot) {
    && Coherent(env, m) && Coherent(env, n) && !n.phase.NeedVisibility?
    && Meaning(env, n) == Meaning(env, m)
    && m.tree.visited <= n.tree.visited
    && (n.tree.visited == m.tree.visited && !n.phase.Complete? ==>
          |n.frontier| < |m.frontier| || (n.frontier == m.frontier && Work(env, n) < Work(env, m)))
  }

  /** The machine is done, or fewer nodes are unseen, or fewer queued, or less is unread. */
  ghost predicate Shrinks(env: Env, m: Snapshot, n: Snapshot)
    requires PageOk(env, m) && PageOk(env, n)
  {
    n.phase.Complete?
    || Nodes(env) - n.tree.visited < Nodes(env) - m.tree.visited
    || (n.tree.visited == m.tree.visited
        && (|n.frontier| < |m.frontier| || (|n.frontier| == |m.frontier| && Work(env, n) < Work(env, m))))
  }

  lemma RoundShrinks(env: Env, m: Snapshot, n: Snapshot)
    requires RoundMoves(env, m, n)
    ensures Shrinks(env, m, n)
  {
    if !n.phase.Complete? && n.tree.visited != m.tree.visited {
      var added :| added in n.tree.visited && added !in m.tree.visited;
      assert added in Nodes(env) - m.tree.visited && added !in Nodes(env) - n.tree.visited;
    }
  }

  lemma JudgedRoundMoves(env: Env, m: Snapshot, c: Snapshot, vs: seq<Verdict>)
    requires Advanced(env, m, c) && c.phase.NeedVisibility? && |vs| == |c.offered|
    requires forall i | 0 <= i < |vs| :: Faithful(env.scope, c.offered[i], vs[i])
    ensures RoundMoves(env, m, Judged(env, c, c.offered, vs))
  {
    JudgingStaysCoherent(env, c, vs);
    JudgingKeepsMeaning(env, c, vs);
  }

  lemma DepthsKnown(l: Ledger, nodeCount: nat)
    requires l.Valid(nodeCount)
    ensures forall u :: l.View().DepthOf(u) >= -1
  {
    forall u
      ensures l.View().DepthOf(u) >= -1
    {
      DepthReads(l, nodeCount, u);
    }
  }

  lemma OfferedStorable(env: Env, c: Snapshot)
    requires Coherent(env, c) && c.phase.NeedVisibility?
    ensures Storable(env, c.offered)
  {
  }

  /** A step that may have added this many nodes, and no more, to the visited set and to the queue. */
  ghost predicate Spends(m: Snapshot, n: Snapshot, used: nat) {
    && n.pending == m.pending
    && |n.tree.visited| <= |m.tree.visited| + used && |n.frontier| <= |m.frontier| + used
  }

  lemma JudgedSpends(env: Env, c: Snapshot, vs: seq<Verdict>)
    requires Coherent(env, c) && c.phase.NeedVisibility? && |vs| == |c.offered|
    ensures Spends(c, Judged(env, c, c.offered, vs), |c.offered|)
  {
    Breakers.JudgeAllGrowth(env, c.Now(), c.offered, vs);
  }

  /** Whether a round that could gather its candidates must still fail: one of them cannot be
      resolved. */
  ghost predicate RoundUnresolvable(env: Env, c: Snapshot, limits: BfsCandidateLimits) {
    && c.phase.NeedVisibility? && AcceptableBatch(c.offered, limits)
    && (exists i :: 0 <= i < |c.offered| && Unresolvable(env.scope, c.offered[i]))
  }

  /** How many candidates await their verdicts. */
  function Outstanding(c: Snapshot): nat {
    if c.phase.NeedVisibility? then |c.offered| else 0
  }

  /** What a call leaves pending and what it hands out together come from one page. */
  ghost predicate Leaves(m: Snapshot, c: Snapshot, limits: BfsCandidateLimits) {
    && |c.pending| + Outstanding(c) <= Max(|m.pending|, limits.maxCandidates)
    && c.tree == m.tree && |c.frontier| <= |m.frontier|
  }

  /** What a successful call for candidates has handed out. */
  ghost predicate HandsOut(c: Snapshot, delivered: Materialization, limits: BfsCandidateLimits) {
    if delivered.Batched?
    then c.phase.NeedVisibility? && AcceptableBatch(c.offered, limits) && delivered.batch.candidates == c.offered
    else !c.phase.NeedVisibility?
  }

  lemma CallHandsOut(env: Env, m: Snapshot, limits: BfsCandidateLimits)
    requires Coherent(env, m) && m.phase.NeedCandidates? && ValidLimits(limits) && !CallFails(env, m, limits)
    requires forall u :: m.tree.DepthOf(u) >= -1
    ensures HandsOut(Called(env, m, limits), Delivered(env, m, limits), limits)
  {
    DeliveredBatch(env, m, limits);
  }

  lemma IdleRoundMoves(env: Env, m: Snapshot, c: Snapshot)
    requires Advanced(env, m, c) && !c.phase.NeedVisibility?
    ensures RoundMoves(env, m, c)
  {
  }

  /** Ask for candidates. */
  method Ask(machine: ResumableMachine, limits: BfsCandidateLimits) returns (r: Result<Materialization>)
    requires machine.Valid() && machine.state.NeedCandidates? && ValidLimits(limits)
    modifies machine`frontier, machine`state, machine`activeNode, machine`cursor, machine`pendingAdjacency,
             machine`pendingExhaustsNode, machine`expanded, machine`nextSequence, machine`charged, machine`pendingBatch,
             machine`offered
    ensures r.Ok? <==> !CallFails(machine.env, old(machine.Snap()), limits)
    ensures r.Ok? ==>
              && Advanced(machine.env, old(machine.Snap()), machine.Snap())
              && HandsOut(machine.Snap(), r.value, limits)
              && Leaves(old(machine.Snap()), machine.Snap(), limits)
              && (Resolvable(machine.env) ==> !RoundUnresolvable(machine.env, machine.Snap(), limits))
  {
    ghost var m := machine.Snap();
    DepthsKnown(machine.ledger, machine.env.store.nodeCount);
    r := machine.Materialize(limits);
    CallAnswered(machine.env, m, limits, r, machine.Snap());
    if r.Ok? {
      CallAdvances(machine.env, m, limits);
      CallHandsOut(machine.env, m, limits);
      CallLeaves(machine.env, m, limits, machine.Snap());
      if Resolvable(machine.env) {
        ResolvableRounds(machine.env, m, limits, machine.Snap());
      }
    }
  }

  /** Resolve the outstanding batch by the scope and resume. */
  method Resume(machine: ResumableMachine, batch: CandidateBatch, ghost m: Snapshot, ghost limits: BfsCandidateLimits)
    returns (r: Result<()>)
    requires machine.ValidStorage() && Advanced(machine.env, m, machine.Snap())
    requires HandsOut(machine.Snap(), Batched(batch), limits)
    modifies machine
    ensures r.Ok? ==>
              && machine.ValidStorage() && RoundMoves(machine.env, m, machine.Snap())
              && Spends(old(machine.Snap()), machine.Snap(), Outstanding(old(machine.Snap())))
    ensures r.Err? ==>
              && r == Err(RelationshipIdentityMissing)
              && RoundUnresolvable(machine.env, old(machine.Snap()), limits)
  {
    ghost var c := machine.Snap();
    OfferedStorable(machine.env, c);
    var verdicts := ResolveBatch(machine.env.scope, batch);
    if verdicts.Err? {
      return Err(verdicts.error);
    }
    JudgedRoundMoves(machine.env, m, c, verdicts.value);
    JudgedSpends(machine.env, c, verdicts.value);
    r := machine.ApplyVerdicts(batch, verdicts.value);
  }

  /** How a round that began at `m` and whose call left `c` may end. */
  ghost predicate RoundEnds(env: Env, m: Snapshot, c: Snapshot, n: Snapshot, limits: BfsCandidateLimits, r: Result<()>) {
    match r
    case Ok(_) => RoundMoves(env, m, n) && Spends(c, n, Outstanding(c))
    case Err(error) => error == RelationshipIdentityMissing && RoundUnresolvable(env, c, limits)
  }

  /** Answer what a call handed out. */
  method Answered(machine: ResumableMachine, delivered: Materialization, ghost m: Snapshot, ghost limits: BfsCandidateLimits)
    returns (r: Result<()>)
    requires machine.ValidStorage() && Advanced(machine.env, m, machine.Snap())
    requires HandsOut(machine.Snap(), delivered, limits)
    modifies machine
    ensures r.Ok? ==> machine.ValidStorage()
    ensures RoundEnds(machine.env, m, old(machine.Snap()), machine.Snap(), limits, r)
  {
    if delivered.Batched? {
      r := Resume(machine, delivered.batch, m, limits);
    } else {
      IdleRoundMoves(machine.env, m, machine.Snap());
      r := Ok(());
    }
  }

  /** The batch size a production round asks for. */
  function NextLimits(env: Env, m: Snapshot): BfsCandidateLimits {
    BfsCandidateLimits(
      Breakers.NextCandidateLimit(env.config, CANDIDATE_LIMIT, |m.tree.visited|, |m.frontier|), KEY_BYTE_LIMIT)
  }

  /** A round that may have read one page: what it left pending and what it added together fit. */
  ghost predicate WithinPage(m: Snapshot, n: Snapshot, limit: nat) {
    && |n.pending| <= limit
    && |n.pending| + |n.tree.visited| <= |m.tree.visited| + limit
    && |n.pending| + |n.frontier| <= |m.frontier| + limit
  }

  /** The next limit never drops below the page left over: a round that used some candidates leaves
      no more than the rest of the limit, and lowers the next limit by no more than it used. */
  lemma LimitCoversPage(env: Env, m: Snapshot, n: Snapshot)
    requires WithinPage(m, n, NextLimits(env, m).maxCandidates)
    ensures |n.pending| <= NextLimits(env, n).maxCandidates
  {
  }

  /** A round that cannot resolve a candidate: some identity is missing, and at the production batch
      size the run itself fails. */
  ghost predicate Unserved(env: Env, m: Snapshot, limits: BfsCandidateLimits)
    requires Coherent(env, m)
  {
    !Resolvable(env) && (limits == NextLimits(env, m) ==> Meaning(env, m).status == Failed)
  }

  /** A shorter queue leaves no less room. */
  lemma LimitGrows(config: BfsConfig, configured: nat, nodesVisited: nat, queued: nat, fewer: nat)
    requires fewer <= queued
    ensures Breakers.NextCandidateLimit(config, configured, nodesVisited, queued)
         <= Breakers.NextCandidateLimit(config, configured, nodesVisited, fewer)
  {
  }

  lemma UnresolvableRoundFails(env: Env, m: Snapshot, c: Snapshot, limits: BfsCandidateLimits)
    requires Advanced(env, m, c) && RoundUnresolvable(env, c, limits) && Leaves(m, c, limits) && !Resolvable(env)
    ensures Unserved(env, m, limits)
  {
    if limits == NextLimits(env, m) {
      var i :| 0 <= i < |c.offered| && Unresolvable(env.scope, c.offered[i]);
      LimitGrows(env.config, CANDIDATE_LIMIT, |m.tree.visited|, |m.frontier|, |c.frontier|);
      UnresolvableFails(env, c, i);
    }
  }

  /** Ask for candidates, resolve them by the scope, and resume. */
  method Round(machine: ResumableMachine, limits: BfsCandidateLimits) returns (r: Result<()>)
    requires machine.Valid() && machine.state.NeedCandidates? && ValidLimits(limits)
    modifies machine
    ensures r.Ok? ==>
              && machine.ValidStorage() && RoundMoves(machine.env, old(machine.Snap()), machine.Snap())
              && WithinPage(old(machine.Snap()), machine.Snap(), Max(old(|machine.pendingAdjacency|), limits.maxCandidates))
    ensures r.Err? && !CallFails(machine.env, old(machine.Snap()), limits) ==>
              r == Err(RelationshipIdentityMissing) && Unserved(machine.env, old(machine.Snap()), limits)
  {
    ghost var m := machine.Snap();
    var delivered :- Ask(machine, limits);
    ghost var c := machine.Snap();
    r := Answered(machine, delivered, m, limits);
    if r.Err? {
      UnresolvableRoundFails(machine.env, m, c, limits);
    }
  }

  /** Every entry of the graph has its identities and fits the key-byte budget on its own. */
  ghost predicate AllPresentable(env: Inputs, budget: nat) {
    forall u, n :: n in env.Outgoing(u) ==> HasIdentity(env, n.target) && EntryKeyBytes(env, n) <= budget
  }

  lemma PageEntry(env: Env, p: Snapshot, i: nat)
    requires PageOk(env, p) && i < |p.pending|
    ensures p.active.Some? && p.pending[i] in env.Outgoing(p.active.value)
  {
    Reachability.ExpansionEntries(env, p.active.value, p.pending[i]);
  }

  lemma PagePresentable(env: Env, p: Snapshot, budget: nat)
    requires PageOk(env, p) && AllPresentable(env, budget)
    ensures Presentable(env, p.pending, budget)
  {
    forall i | 0 <= i < |p.pending|
      ensures HasIdentity(env, p.pending[i].target) && EntryKeyBytes(env, p.pending[i]) <= budget
    {
      PageEntry(env, p, i);
    }
  }

  /** Sequence numbers never run out on a graph whose entries can be numbered, because each entry of
      an expanded node is read once. */
  lemma RoomLeft(env: Env, p: Snapshot)
    requires Coherent(env, p) && TotalEntries(env) <= U32_MAX
    ensures p.nextSequence + |p.pending| <= U32_MAX
  {
    OwnedAtMostAll(env, p.expanded, env.store.nodeCount);
    assert |p.pending| <= |p.Remaining(env)|;
  }

  /** A call cannot fail while the batch limit has not shrunk below the page left over. */
  lemma CallSucceeds(env: Env, m: Snapshot, limits: BfsCandidateLimits)
    requires Coherent(env, m) && m.phase.NeedCandidates? && ValidLimits(limits)
    requires AllPresentable(env, limits.maxKeyBytes) && TotalEntries(env) <= U32_MAX
    requires |m.pending| <= limits.maxCandidates
    ensures !CallFails(env, m, limits)
  {
    PageFacts(env, m, limits.maxCandidates);
    if HasWork(m) {
      PageAccepted(env, PageFor(env, m, limits.maxCandidates), limits);
    }
  }

  lemma PageAccepted(env: Env, p: Snapshot, limits: BfsCandidateLimits)
    requires Coherent(env, p) && p.active.Some? && ValidLimits(limits)
    requires AllPresentable(env, limits.maxKeyBytes) && TotalEntries(env) <= U32_MAX
    requires |p.pending| <= limits.maxCandidates
    ensures !Refuses(env, p, limits)
  {
    PagePresentable(env, p, limits.maxKeyBytes);
    RoomLeft(env, p);
    RefusalExact(env, p, limits);
  }

  /** A successful call that had something to expand gathered its page. */
  lemma CalledIsBatch(env: Env, m: Snapshot, limits: BfsCandidateLimits, p: Snapshot)
    requires Coherent(env, m) && m.phase.NeedCandidates? && ValidLimits(limits) && HasWork(m) && !CallFails(env, m, limits)
    requires p == PageFor(env, m, limits.maxCandidates)
    ensures p.active.Some? && p.phase.NeedCandidates? && Coherent(env, p)
    ensures p.tree == m.tree && |p.pending| <= Max(|m.pending|, limits.maxCandidates)
    ensures var g := GatherPage(env, p, limits.maxKeyBytes);
            g.Filled? && Called(env, m, limits) == AfterBatch(p, g)
  {
    PageFacts(env, m, limits.maxCandidates);
  }

  lemma PageQueue(env: Env, m: Snapshot, limit: nat)
    requires Coherent(env, m) && m.phase.NeedCandidates? && HasWork(m) && limit > 0
    ensures |PageFor(env, m, limit).frontier| <= |m.frontier|
  {
    PageLeadsInto(env, m, limit);
  }

  lemma BatchLeaves(env: Env, p: Snapshot, budget: nat, g: Collection)
    requires p.active.Some? && p.phase.NeedCandidates? && g == GatherPage(env, p, budget) && g.Filled?
    ensures var c := AfterBatch(p, g);
            |c.pending| + Outstanding(c) <= |p.pending| && c.tree == p.tree && c.frontier == p.frontier
  {
    PageLongestFit(env, p, budget);
  }

  lemma CallLeaves(env: Env, m: Snapshot, limits: BfsCandidateLimits, c: Snapshot)
    requires Coherent(env, m) && m.phase.NeedCandidates? && ValidLimits(limits) && !CallFails(env, m, limits)
    requires c == Called(env, m, limits)
    ensures Leaves(m, c, limits)
  {
    if HasWork(m) {
      var p := PageFor(env, m, limits.maxCandidates);
      CalledIsBatch(env, m, limits, p);
      PageQueue(env, m, limits.maxCandidates);
      BatchLeaves(env, p, limits.maxKeyBytes, GatherPage(env, p, limits.maxKeyBytes));
    } else {
      assert c == Chosen(env, m);
    }
  }

  /** A completed machine whose run led where the seed's does reports the eager answer. */
  lemma CompletedAnswers(env: Env, m: Snapshot)
    requires Coherent(env, m) && m.phase.Complete? && Meaning(env, m) == Run(env, Seeded(env))
    requires env.scope.AllowsNode(env.config.seedNode) || env.config.seedNode >= env.store.nodeCount
    ensures Ok(BfsResult(m.tree, m.truncated)) == Answer(env)
  {
    CompleteMeans(env, m);
    assert Start(env) == Seeded(env);
  }

  /** A graph every page of which can be presented within the budget, numbered and resolved. */
  ghost predicate Serviceable(env: Env, budget: nat) {
    AllPresentable(env, budget) && TotalEntries(env) <= U32_MAX && Resolvable(env)
  }

  lemma PageResolvable(env: Env, p: Snapshot, budget: nat, i: nat)
    requires Coherent(env, p) && p.active.Some? && p.tree.DepthOf(p.active.value) >= -1 && Resolvable(env)
    requires p.pendingExhausts ==> p.cursor == |env.Expansion(p.active.value)|
    requires GatherPage(env, p, budget).Filled? && i < |GatherPage(env, p, budget).candidates|
    ensures !Unresolvable(env.scope, GatherPage(env, p, budget).candidates[i])
  {
    var c := GatherPage(env, p, budget).candidates[i];
    BatchHolds(env, p, budget);
    assert MadeFrom(env, p.pending, c, p.nextSequence + i, p.active.value, p.tree.DepthOf(p.active.value));
    var j :| 0 <= j < |p.pending| && p.pending[j] == c.Entry();
    PageEntry(env, p, j);
  }

  lemma GatheredResolvable(env: Env, p: Snapshot, budget: nat, g: Collection)
    requires Coherent(env, p) && p.active.Some? && p.tree.DepthOf(p.active.value) >= -1 && Resolvable(env)
    requires p.pendingExhausts ==> p.cursor == |env.Expansion(p.active.value)|
    requires g == GatherPage(env, p, budget) && g.Filled?
    ensures forall i | 0 <= i < |g.candidates| :: !Unresolvable(env.scope, g.candidates[i])
  {
    forall i | 0 <= i < |g.candidates|
      ensures !Unresolvable(env.scope, g.candidates[i])
    {
      PageResolvable(env, p, budget, i);
    }
  }

  /** On a resolvable graph no gathered candidate is unresolvable. */
  lemma ResolvableRounds(env: Env, m: Snapshot, limits: BfsCandidateLimits, c: Snapshot)
    requires Resolvable(env)
    requires Coherent(env, m) && m.phase.NeedCandidates? && ValidLimits(limits) && !CallFails(env, m, limits)
    requires (forall u :: m.tree.DepthOf(u) >= -1) && c == Called(env, m, limits)
    ensures !RoundUnresolvable(env, c, limits)
  {
    if HasWork(m) {
      var p := PageFor(env, m, limits.maxCandidates);
      PageFacts(env, m, limits.maxCandidates);
      CalledIsBatch(env, m, limits, p);
      GatheredResolvable(env, p, limits.maxKeyBytes, GatherPage(env, p, limits.maxKeyBytes));
      ResolvedBatch(env, p, GatherPage(env, p, limits.maxKeyBytes), limits);
    }
  }

  lemma ResolvedBatch(env: Env, p: Snapshot, g: Collection, limits: BfsCandidateLimits)
    requires g.Filled? && g.taken <= |p.pending| && p.phase.NeedCandidates?
    requires forall i | 0 <= i < |g.candidates| :: !Unresolvable(env.scope, g.candidates[i])
    ensures !RoundUnresolvable(env, AfterBatch(p, g), limits)
  {
  }

  /** The machine's run still leads where it led when it was made. */
  ghost predicate Leads(machine: ResumableMachine, env: Env)
    reads machine
  {
    && machine.env == env && machine.Valid() && !machine.state.NeedVisibility?
    && Meaning(env, machine.Snap()) == Run(env, Seeded(env))
  }

  /** The limits never drop below a page an earlier call may have left over. */
  ghost predicate NeverShrinks(schedule: nat -> BfsCandidateLimits) {
    forall i: nat, j: nat :: i <= j ==> schedule(i).maxCandidates <= schedule(j).maxCandidates
  }

  ghost predicate AlwaysServiceable(env: Env, schedule: nat -> BfsCandidateLimits) {
    forall i: nat :: Serviceable(env, schedule(i).maxKeyBytes)
  }

  /** The limits have not shrunk below what is pending. */
  ghost predicate Covers(schedule: nat -> BfsCandidateLimits, i: nat, pending: nat) {
    NeverShrinks(schedule) ==> pending <= schedule(i).maxCandidates
  }

  lemma StillCovers(schedule: nat -> BfsCandidateLimits, i: nat, pending: nat, left: nat)
    requires Covers(schedule, i, pending) && left <= Max(pending, schedule(i).maxCandidates)
    ensures Covers(schedule, i + 1, left)
  {
    assert NeverShrinks(schedule) ==> schedule(i).maxCandidates <= schedule(i + 1).maxCandidates;
  }

  /** One scheduled round: while the limits have not shrunk, it fails on no serviceable graph. */
  method ScheduledRound(machine: ResumableMachine, env: Env, schedule: nat -> BfsCandidateLimits, i: nat)
    returns (r: Result<()>)
    requires Leads(machine, env) && machine.state.NeedCandidates? && ValidLimits(schedule(i))
    requires Covers(schedule, i, |machine.pendingAdjacency|)
    modifies machine
    ensures r.Ok? ==>
              && Leads(machine, env) && Shrinks(env, old(machine.Snap()), machine.Snap())
              && Covers(schedule, i + 1, |machine.pendingAdjacency|)
    ensures NeverShrinks(schedule) && Serviceable(env, schedule(i).maxKeyBytes) ==> r.Ok?
  {
    ghost var m := machine.Snap();
    var limits := schedule(i);
    DepthsKnown(machine.ledger, env.store.nodeCount);
    if NeverShrinks(schedule) && Serviceable(env, limits.maxKeyBytes) {
      CallSucceeds(env, m, limits);
    }
    r := Round(machine, limits);
    if r.Ok? {
      RoundShrinks(env, m, machine.Snap());
      StillCovers(schedule, i, |m.pending|, |machine.pendingAdjacency|);
    }
  }

  /** The raw entries a run has been charged for: never more than the entries of the visited nodes
      above the depth limit, and, untruncated, exactly those, each once. */
  ghost predicate PaidFor(env: Env, r: Result<TraversalOutcome>, charged: nat) {
    r.Ok? ==>
      && charged <= Due(env, r.value.ledger.View()) <= TotalEntries(env)
      && (!r.value.truncated ==> charged == Due(env, r.value.ledger.View()))
  }

  /** A run that visits nothing owes nothing. */
  lemma NothingDue(env: Env)
    ensures Due(env, UNVISITED) == 0
  {
    OwnedIsEntries(env, [], AboveLimit(env.config, UNVISITED), env.store.nodeCount);
  }

  method Begin(env: Env) returns (machine: ResumableMachine)
    ensures fresh(machine) && Leads(machine, env) && machine.pendingAdjacency == []
  {
    InitialIsSound(env);
    machine := new ResumableMachine(env);
  }

  /** Run under any schedule of page sizes and key-byte limits. A run that does not fail reports
      exactly the eager answer, so where the batches fell cannot be observed; and on a serviceable
      graph it does not fail as long as the limits never shrink. However the batches fell, an
      untruncated run is charged once for each entry it had to read, and for nothing else. */
  method TraverseBySchedule(env: Env, schedule: nat -> BfsCandidateLimits)
    returns (r: Result<TraversalOutcome>, charged: nat)
    requires forall i: nat :: ValidLimits(schedule(i))
    ensures r.Ok? ==> Reads(r) == Answer(env)
    ensures NeverShrinks(schedule) && AlwaysServiceable(env, schedule) ==> r.Ok?
    ensures PaidFor(env, r, charged)
  {
    var machine := Begin(env);
    if env.config.seedNode < env.store.nodeCount && !env.scope.AllowsNode(env.config.seedNode) {
      NothingDue(env);
      return Ok(TraversalOutcome(NewLedger(env.store.nodeCount, env.config.maxNodes), false)), 0;
    }
    var i: nat := 0;
    while machine.state.NeedCandidates?
      invariant Leads(machine, env)
      invariant Covers(schedule, i, |machine.pendingAdjacency|)
      decreases if machine.state.NeedCandidates? then 1 else 0,
                Nodes(env) - machine.tree.visited, |machine.frontier|, Work(env, machine.Snap())
    {
      var round := ScheduledRound(machine, env, schedule, i);
      if round.Err? {
        return Err(round.error), machine.charged;
      }
      i := i + 1;
    }
    r, charged := Finish(machine, env);
  }

  /** What a completed machine reports. */
  method Finish(machine: ResumableMachine, env: Env) returns (r: Result<TraversalOutcome>, charged: nat)
    requires Leads(machine, env) && !machine.state.NeedCandidates?
    requires env.scope.AllowsNode(env.config.seedNode) || env.config.seedNode >= env.store.nodeCount
    ensures r.Ok? && Reads(r) == Answer(env) && PaidFor(env, r, charged)
  {
    CompletedAnswers(env, machine.Snap());
    ChargedOnce(env, machine.Snap());
    return Ok(TraversalOutcome(machine.ledger, machine.truncated)), machine.charged;
  }

  /** Nothing about the graph stops a production round: every page can be presented and numbered. */
  ghost predicate Producible(env: Env) {
    AllPresentable(env, KEY_BYTE_LIMIT) && TotalEntries(env) <= U32_MAX
  }

  /** One production round. It fails only where the eager engine does. */
  method ProductionRound(machine: ResumableMachine, env: Env) returns (r: Result<()>)
    requires Leads(machine, env) && machine.state.NeedCandidates?
    requires |machine.pendingAdjacency| <= NextLimits(env, machine.Snap()).maxCandidates
    modifies machine
    ensures r.Ok? ==>
              && Leads(machine, env) && Shrinks(env, old(machine.Snap()), machine.Snap())
              && |machine.pendingAdjacency| <= NextLimits(env, machine.Snap()).maxCandidates
    ensures r.Err? && Producible(env) ==> r == Err(RelationshipIdentityMissing) && Run(env, Seeded(env)).status == Failed
  {
    ghost var m := machine.Snap();
    DepthsKnown(machine.ledger, env.store.nodeCount);
    var limits := BfsCandidateLimits(
      Breakers.NextCandidateLimit(env.config, CANDIDATE_LIMIT, machine.nodesVisited, |machine.frontier|), KEY_BYTE_LIMIT);
    if Producible(env) {
      CallSucceeds(env, m, limits);
    }
    r := Round(machine, limits);
    if r.Ok? {
      RoundShrinks(env, m, machine.Snap());
      LimitCoversPage(env, m, machine.Snap());
    }
  }

  /** The production driver: refuse an invisible seed, then ask for no more candidates at a time than
      the caps leave room for. On every graph whose entries can be presented and numbered it and the
      eager engine agree outright, failures included: its limit never drops below a page left over,
      and no candidate past a cap is ever resolved, so resolving ahead of admission cannot fail a run
      the eager engine completes. */
  method Traverse(env: Env) returns (r: Result<TraversalOutcome>, charged: nat)
    ensures r.Ok? ==> Reads(r) == Answer(env)
    ensures Producible(env) ==> Reads(r) == Answer(env)
    ensures PaidFor(env, r, charged)
  {
    var machine := Begin(env);
    if env.config.seedNode < env.store.nodeCount && !env.scope.AllowsNode(env.config.seedNode) {
      NothingDue(env);
      return Ok(TraversalOutcome(NewLedger(env.store.nodeCount, env.config.maxNodes), false)), 0;
    }
    while machine.state.NeedCandidates?
      invariant Leads(machine, env)
      invariant |machine.pendingAdjacency| <= NextLimits(env, machine.Snap()).maxCandidates
      decreases if machine.state.NeedCandidates? then 1 else 0,
                Nodes(env) - machine.tree.visited, |machine.frontier|, Work(env, machine.Snap())
    {
      var round := ProductionRound(machine, env);
      if round.Err? {
        return Err(round.error), machine.charged;
      }
    }
    r, charged := Finish(machine, env);
  }
}
