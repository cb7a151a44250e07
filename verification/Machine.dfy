/** The resumable machine as an object: its methods move the fields, and each is tied to the
    value-level step whose meaning is known. */
module Machine {
  import opened Prelude
  import opened Topology
  import opened Traversal
  import opened Candidates
  import opened Engines
  import opened Resumable

  predicate HasIdentity(env: Inputs, node: nat) {
    node in env.store.tableOids && node in env.store.primaryKeys
  }

  function IdentityOf(env: Inputs, n: Neighbor): Option<RelationshipIdentity> {
    if n.relationshipId.Some? && n.relationshipId.value in env.relationships
    then Some(env.relationships[n.relationshipId.value]) else None
  }

  /** Key bytes the oracle would be sent for an entry. */
  function EntryKeyBytes(env: Inputs, n: Neighbor): nat {
    (if n.target in env.store.primaryKeys then |env.store.primaryKeys[n.target]| else 0)
    + match IdentityOf(env, n) { case Some(identity) => |identity.sourceKey| case None => 0 }
  }

  /** The candidate made from an entry of the active node, with the identities the oracle needs. */
  function CandidateFor(env: Inputs, n: Neighbor, sequence: nat, parent: nat, d: int): (c: Candidate)
    ensures c.Entry() == n && c.KeyBytes() == EntryKeyBytes(env, n)
  {
    var identity := IdentityOf(env, n);
    Candidate(sequence, parent, d, n.target,
              if n.target in env.store.tableOids then env.store.tableOids[n.target] else 0,
              if n.target in env.store.primaryKeys then env.store.primaryKeys[n.target] else [],
              n.typeId, n.schemaReversed, n.relationshipId,
              if identity.Some? then Some(identity.value.mappingId) else None,
              if identity.Some? then Some(identity.value.sourceKey) else None)
  }

  /** The candidates of a page's first `count` entries, numbered in order from `first`. */
  function CandidatesFor(env: Inputs, page: seq<Neighbor>, count: nat, first: nat, parent: nat, d: int): seq<Candidate>
    requires count <= |page|
    decreases count
  {
    if count == 0 then []
    else
      var front := CandidatesFor(env, page, count - 1, first, parent, d);
      if TypeAllowed(env.config.edgeTypeFilter, page[count - 1].typeId)
      then front + [CandidateFor(env, page[count - 1], first + |front|, parent, d)]
      else front
  }

  /** A page's candidates stand for exactly its entries of followed types. */
  lemma {:induction false} CandidatesStandFor(env: Inputs, page: seq<Neighbor>, count: nat, first: nat, parent: nat, d: int)
    requires count <= |page|
    ensures Entries(CandidatesFor(env, page, count, first, parent, d)) == Kept(env.config.edgeTypeFilter, page[..count])
    decreases count
  {
    if count > 0 {
      var front := CandidatesFor(env, page, count - 1, first, parent, d);
      CandidatesStandFor(env, page, count - 1, first, parent, d);
      assert page[..count][..count - 1] == page[..count - 1];
      EntriesAppend(front, CandidateFor(env, page[count - 1], first + |front|, parent, d));
    }
  }

  /** The candidate was made from an entry of the page, for this parent. */
  ghost predicate MadeFrom(env: Inputs, page: seq<Neighbor>, c: Candidate, sequence: nat, parent: nat, d: int) {
    && c.sequence == sequence && c.parentNode == parent && c.parentDepth == d
    && TypeAllowed(env.config.edgeTypeFilter, c.edgeType) && c.Entry() in page
  }

  /** Numbered without gaps, each made from an entry of the page. */
  ghost predicate Numbered(env: Inputs, page: seq<Neighbor>, cs: seq<Candidate>, first: nat, parent: nat, d: int) {
    forall i | 0 <= i < |cs| :: MadeFrom(env, page, cs[i], first + i, parent, d)
  }

  lemma {:induction false} CandidatesNumbered(env: Inputs, page: seq<Neighbor>, count: nat, first: nat, parent: nat, d: int)
    requires count <= |page|
    ensures Numbered(env, page, CandidatesFor(env, page, count, first, parent, d), first, parent, d)
    decreases count
  {
    if count > 0 {
      var front := CandidatesFor(env, page, count - 1, first, parent, d);
      CandidatesNumbered(env, page, count - 1, first, parent, d);
      var cs := CandidatesFor(env, page, count, first, parent, d);
      forall i | 0 <= i < |cs|
        ensures MadeFrom(env, page, cs[i], first + i, parent, d)
      {
        if i < |front| {
          assert cs[i] == front[i];
        } else {
          assert cs[i] == CandidateFor(env, page[count - 1], first + i, parent, d);
          assert cs[i].Entry() == page[count - 1];
        }
      }
    }
  }

  /** The identities the oracle is asked about, straight from the stores: the target's own table and key,
      and the mapping and key of the relationship, if it has an identity. */
  predicate Identified(env: Inputs, c: Candidate) {
    && c.targetNode in env.store.tableOids && c.targetTableOid == env.store.tableOids[c.targetNode]
    && c.targetNode in env.store.primaryKeys && c.targetSourceKey == env.store.primaryKeys[c.targetNode]
    && if c.relationshipId.Some? && c.relationshipId.value in env.relationships then
         && c.relationshipMappingId == Some(env.relationships[c.relationshipId.value].mappingId)
         && c.relationshipSourceKey == Some(env.relationships[c.relationshipId.value].sourceKey)
       else
         c.relationshipMappingId.None? && c.relationshipSourceKey.None?
  }

  /** The candidate copies an adjacency entry of its parent, field by field. */
  ghost predicate Copies(entries: seq<Neighbor>, c: Candidate) {
    exists j ::
      && 0 <= j < |entries|
      && c.targetNode == entries[j].target && c.edgeType == entries[j].typeId
      && c.schemaReversed == entries[j].schemaReversed && c.relationshipId == entries[j].relationshipId
  }

  lemma {:induction false} CandidatesMade(env: Inputs, page: seq<Neighbor>, count: nat, first: nat, parent: nat, d: int)
    requires count <= |page|
    ensures forall c <- CandidatesFor(env, page, count, first, parent, d) ::
              Copies(page, c) && (HasIdentity(env, c.targetNode) ==> Identified(env, c))
    decreases count
  {
    if count > 0 {
      var front := CandidatesFor(env, page, count - 1, first, parent, d);
      CandidatesMade(env, page, count - 1, first, parent, d);
      MadeIdentified(env, page, count - 1, first + |front|, parent, d);
    }
  }

  lemma MadeIdentified(env: Inputs, page: seq<Neighbor>, j: nat, sequence: nat, parent: nat, d: int)
    requires j < |page|
    ensures var c := CandidateFor(env, page[j], sequence, parent, d);
            Copies(page, c) && (HasIdentity(env, c.targetNode) ==> Identified(env, c))
  {
    var c := CandidateFor(env, page[j], sequence, parent, d);
    assert c.targetNode == page[j].target;
  }

  lemma EntriesAppend(cs: seq<Candidate>, c: Candidate)
    ensures Entries(cs + [c]) == Entries(cs) + [c.Entry()]
  {
  }

  /** Where a page stops fitting the key-byte budget; entries of other types cost nothing. */
  function FitEnd(env: Inputs, page: seq<Neighbor>, from: nat, used: nat, budget: nat): (end: nat)
    requires from <= |page|
    ensures from <= end <= |page|
    decreases |page| - from
  {
    if from == |page| then from
    else if !TypeAllowed(env.config.edgeTypeFilter, page[from].typeId) then FitEnd(env, page, from + 1, used, budget)
    else if used + EntryKeyBytes(env, page[from]) > budget then from
    else FitEnd(env, page, from + 1, used + EntryKeyBytes(env, page[from]), budget)
  }

  /** Every entry has its identities and fits the key-byte budget on its own. */
  ghost predicate Presentable(env: Inputs, ns: seq<Neighbor>, budget: nat) {
    forall i | 0 <= i < |ns| :: HasIdentity(env, ns[i].target) && EntryKeyBytes(env, ns[i]) <= budget
  }

  /** A page partly collected: the candidates so far, their key bytes, and where it stops fitting. */
  ghost predicate Collected(env: Inputs, page: seq<Neighbor>, taken: nat, first: nat, parent: nat, d: int,
                            candidates: seq<Candidate>, keyBytes: nat, budget: nat)
  {
    && |candidates| <= taken <= |page|
    && candidates == CandidatesFor(env, page, taken, first, parent, d)
    && keyBytes == TotalKeyBytes(candidates) <= budget
    && FitEnd(env, page, taken, keyBytes, budget) == FitEnd(env, page, 0, 0, budget)
    && forall c <- candidates :: HasIdentity(env, c.targetNode)
  }

  /** What gathering a page comes to. A refusal has already drawn entries off the page; those before
      the refused one have been paid for, and the refused one too if only its number was missing. */
  datatype Collection =
    | Filled(taken: nat, candidates: seq<Candidate>)
    | Refused(error: GraphError, drawn: nat, paid: nat, sequence: nat)

  /** Make candidates of a page's entries until the page ends or the key-byte budget does. */
  function Gather(env: Inputs, page: seq<Neighbor>, taken: nat, sequence: nat, used: nat,
                  candidates: seq<Candidate>, parent: nat, d: int, budget: nat): (r: Collection)
    requires taken <= |page|
    ensures r.Filled? ==> taken <= r.taken <= |page|
    ensures r.Refused? ==> r.paid <= r.drawn <= |page|
    decreases |page| - taken
  {
    if taken == |page| then Filled(taken, candidates)
    else
      var n := page[taken];
      if !TypeAllowed(env.config.edgeTypeFilter, n.typeId) then
        Gather(env, page, taken + 1, sequence, used, candidates, parent, d, budget)
      else if !HasIdentity(env, n.target) then Refused(CorruptFile, taken + 1, taken, sequence)
      else if used + EntryKeyBytes(env, n) > budget then
        if candidates == [] then Refused(InvalidFilter, taken + 1, taken, sequence) else Filled(taken, candidates)
      else if sequence >= U32_MAX then Refused(Internal, taken + 1, taken + 1, sequence)
      else
        Gather(env, page, taken + 1, sequence + 1, used + EntryKeyBytes(env, n),
               candidates + [CandidateFor(env, n, sequence, parent, d)], parent, d, budget)
  }

  lemma CandidatesStep(env: Inputs, page: seq<Neighbor>, taken: nat, first: nat, parent: nat, d: int, cs: seq<Candidate>)
    requires taken < |page| && TypeAllowed(env.config.edgeTypeFilter, page[taken].typeId)
    requires cs == CandidatesFor(env, page, taken, first, parent, d)
    ensures CandidatesFor(env, page, taken + 1, first, parent, d) == cs + [CandidateFor(env, page[taken], first + |cs|, parent, d)]
  {
  }

  lemma KeyBytesAppend(cs: seq<Candidate>, c: Candidate)
    ensures TotalKeyBytes(cs + [c]) == TotalKeyBytes(cs) + c.KeyBytes()
  {
    assert (cs + [c])[..|cs|] == cs;
  }

  lemma FitStep(env: Inputs, page: seq<Neighbor>, from: nat, used: nat, budget: nat)
    requires from < |page| && TypeAllowed(env.config.edgeTypeFilter, page[from].typeId)
    requires used + EntryKeyBytes(env, page[from]) <= budget
    ensures FitEnd(env, page, from, used, budget) == FitEnd(env, page, from + 1, used + EntryKeyBytes(env, page[from]), budget)
  {
  }

  lemma CollectTakes(env: Inputs, page: seq<Neighbor>, taken: nat, first: nat, parent: nat, d: int,
                     candidates: seq<Candidate>, c: Candidate, used: nat, budget: nat)
    requires Collected(env, page, taken, first, parent, d, candidates, used, budget) && taken < |page|
    requires TypeAllowed(env.config.edgeTypeFilter, page[taken].typeId) && HasIdentity(env, page[taken].target)
    requires used + EntryKeyBytes(env, page[taken]) <= budget
    requires c == CandidateFor(env, page[taken], first + |candidates|, parent, d)
    ensures Collected(env, page, taken + 1, first, parent, d, candidates + [c],
                      used + EntryKeyBytes(env, page[taken]), budget)
  {
    CandidatesStep(env, page, taken, first, parent, d, candidates);
    KeyBytesAppend(candidates, c);
    FitStep(env, page, taken, used, budget);
    assert c.targetNode == c.Entry().target == page[taken].target;
  }

  /** A filled batch is the longest stretch of the page that fits the key-byte budget. */
  ghost predicate LongestFit(g: Collection, env: Inputs, page: seq<Neighbor>, first: nat, parent: nat, d: int, budget: nat) {
    g.Filled? ==>
      && Collected(env, page, g.taken, first, parent, d, g.candidates, TotalKeyBytes(g.candidates), budget)
      && g.taken == FitEnd(env, page, 0, 0, budget)
      && (g.taken < |page| ==> g.candidates != [])
  }

  lemma GatherSkips(env: Inputs, page: seq<Neighbor>, taken: nat, first: nat, parent: nat, d: int,
                    candidates: seq<Candidate>, used: nat, budget: nat)
    requires Collected(env, page, taken, first, parent, d, candidates, used, budget)
    requires taken < |page| && !TypeAllowed(env.config.edgeTypeFilter, page[taken].typeId)
    ensures Collected(env, page, taken + 1, first, parent, d, candidates, used, budget)
    ensures Gather(env, page, taken, first + |candidates|, used, candidates, parent, d, budget)
         == Gather(env, page, taken + 1, first + |candidates|, used, candidates, parent, d, budget)
  {
  }

  lemma GatherTakes(env: Inputs, page: seq<Neighbor>, taken: nat, first: nat, parent: nat, d: int,
                    candidates: seq<Candidate>, more: seq<Candidate>, used: nat, now: nat, budget: nat)
    requires Collected(env, page, taken, first, parent, d, candidates, used, budget) && taken < |page|
    requires TypeAllowed(env.config.edgeTypeFilter, page[taken].typeId) && HasIdentity(env, page[taken].target)
    requires now == used + EntryKeyBytes(env, page[taken]) <= budget && first + |candidates| < U32_MAX
    requires more == candidates + [CandidateFor(env, page[taken], first + |candidates|, parent, d)]
    ensures Collected(env, page, taken + 1, first, parent, d, more, now, budget)
    ensures Gather(env, page, taken, first + |candidates|, used, candidates, parent, d, budget)
         == Gather(env, page, taken + 1, first + |more|, now, more, parent, d, budget)
  {
    CollectTakes(env, page, taken, first, parent, d, candidates,
                 CandidateFor(env, page[taken], first + |candidates|, parent, d), used, budget);
  }

  lemma GatherStops(env: Inputs, page: seq<Neighbor>, taken: nat, first: nat, parent: nat, d: int,
                    candidates: seq<Candidate>, used: nat, budget: nat, g: Collection)
    requires Collected(env, page, taken, first, parent, d, candidates, used, budget)
    requires g == Gather(env, page, taken, first + |candidates|, used, candidates, parent, d, budget)
    requires taken < |page| ==>
               && TypeAllowed(env.config.edgeTypeFilter, page[taken].typeId)
               && !(HasIdentity(env, page[taken].target) && used + EntryKeyBytes(env, page[taken]) <= budget
                    && first + |candidates| < U32_MAX)
    ensures LongestFit(g, env, page, first, parent, d, budget)
  {
  }

  /** Whatever gathering fills a batch with is the longest stretch that fits the key-byte budget. */
  lemma {:induction false} GatherCollects(env: Inputs, page: seq<Neighbor>, taken: nat, first: nat, parent: nat, d: int,
                                          candidates: seq<Candidate>, used: nat, budget: nat, g: Collection)
    requires Collected(env, page, taken, first, parent, d, candidates, used, budget)
    requires g == Gather(env, page, taken, first + |candidates|, used, candidates, parent, d, budget)
    ensures LongestFit(g, env, page, first, parent, d, budget)
    decreases |page| - taken
  {
    if taken == |page| {
      GatherStops(env, page, taken, first, parent, d, candidates, used, budget, g);
    } else if !TypeAllowed(env.config.edgeTypeFilter, page[taken].typeId) {
      GatherSkips(env, page, taken, first, parent, d, candidates, used, budget);
      GatherCollects(env, page, taken + 1, first, parent, d, candidates, used, budget, g);
    } else if HasIdentity(env, page[taken].target) && used + EntryKeyBytes(env, page[taken]) <= budget
              && first + |candidates| < U32_MAX {
      var more := candidates + [CandidateFor(env, page[taken], first + |candidates|, parent, d)];
      var now := used + EntryKeyBytes(env, page[taken]);
      GatherTakes(env, page, taken, first, parent, d, candidates, more, used, now, budget);
      GatherCollects(env, page, taken + 1, first, parent, d, more, now, budget, g);
    } else {
      GatherStops(env, page, taken, first, parent, d, candidates, used, budget, g);
    }
  }

  /** Gathering is refused only over a missing identity, an entry that exceeds the whole budget, or
      an exhausted sequence. */
  lemma {:induction false} GatherFills(env: Inputs, page: seq<Neighbor>, taken: nat, sequence: nat, used: nat,
                                       candidates: seq<Candidate>, parent: nat, d: int, budget: nat)
    requires taken <= |page| && Presentable(env, page, budget)
    requires sequence + |page| - taken <= U32_MAX && (candidates == [] ==> used == 0)
    ensures Gather(env, page, taken, sequence, used, candidates, parent, d, budget).Filled?
    decreases |page| - taken
  {
    if taken < |page| {
      var n := page[taken];
      if !TypeAllowed(env.config.edgeTypeFilter, n.typeId) {
        GatherFills(env, page, taken + 1, sequence, used, candidates, parent, d, budget);
      } else if used + EntryKeyBytes(env, n) <= budget {
        GatherFills(env, page, taken + 1, sequence + 1, used + EntryKeyBytes(env, n),
                    candidates + [CandidateFor(env, n, sequence, parent, d)], parent, d, budget);
      }
    }
  }

  predicate HasWork(m: Snapshot) {
    m.active.Some? || m.frontier != []
  }

  /** The page a call works on, and where it stops. */
  function PageFor(env: Env, m: Snapshot, limit: nat): Snapshot
    requires Coherent(env, m) && m.phase.NeedCandidates? && HasWork(m)
  {
    ChoosingKeepsMeaning(env, m);
    Paged(env, Chosen(env, m), limit)
  }

  /** A candidate made from the page follows an allowed type that can be recorded. */
  lemma MadeStorable(env: Env, p: Snapshot, c: Candidate, sequence: nat)
    requires PageOk(env, p) && p.active.Some?
    requires MadeFrom(env, p.pending, c, sequence, p.active.value, p.tree.DepthOf(p.active.value))
    ensures c.edgeType < U32_MAX && c.parentNode == p.active.value && c.parentDepth == p.tree.DepthOf(p.active.value)
    ensures TypeAllowed(env.config.edgeTypeFilter, c.edgeType)
  {
    var j :| 0 <= j < |p.pending| && p.pending[j] == c.Entry();
    EntryStorable(env, p.active.value, p.cursor - |p.pending| + j);
  }

  lemma NumberedStorable(env: Env, p: Snapshot, cs: seq<Candidate>)
    requires PageOk(env, p) && p.active.Some?
    requires Numbered(env, p.pending, cs, p.nextSequence, p.active.value, p.tree.DepthOf(p.active.value))
    ensures forall c <- cs :: c.parentNode == p.active.value && c.parentDepth == p.tree.DepthOf(p.active.value)
    ensures forall c <- cs :: TypeAllowed(env.config.edgeTypeFilter, c.edgeType) && c.edgeType < U32_MAX
  {
    forall i | 0 <= i < |cs|
      ensures cs[i].edgeType < U32_MAX && cs[i].parentNode == p.active.value
              && cs[i].parentDepth == p.tree.DepthOf(p.active.value)
              && TypeAllowed(env.config.edgeTypeFilter, cs[i].edgeType)
    {
      MadeStorable(env, p, cs[i], p.nextSequence + i);
    }
  }

  lemma CollectedGathers(env: Env, p: Snapshot, taken: nat, cs: seq<Candidate>, ended: bool, budget: nat)
    requires PageOk(env, p) && p.active.Some? && taken <= |p.pending|
    requires cs == CandidatesFor(env, p.pending, taken, p.nextSequence, p.active.value, p.tree.DepthOf(p.active.value))
    requires ended ==> taken == |p.pending| && p.cursor == |env.Expansion(p.active.value)|
    requires p.tree.DepthOf(p.active.value) >= -1
    ensures Gathers(env, p, taken, cs, ended)
  {
    var u, d := p.active.value, p.tree.DepthOf(p.active.value);
    CandidatesStandFor(env, p.pending, taken, p.nextSequence, u, d);
    CandidatesNumbered(env, p.pending, taken, p.nextSequence, u, d);
    NumberedStorable(env, p, cs);
  }

  /** One materialization: what the run leads to is unchanged, and less of it is left to read. */
  ghost predicate Advanced(env: Env, m: Snapshot, g: Snapshot) {
    && Coherent(env, m) && Coherent(env, g)
    && Meaning(env, g) == Meaning(env, m)
    && g.tree == m.tree && g.truncated == m.truncated
    && (g.phase.Complete? || |g.frontier| < |m.frontier| || (g.frontier == m.frontier && Work(env, g) < Work(env, m)))
  }

  lemma GatheringAdvances(env: Env, p: Snapshot, taken: nat, cs: seq<Candidate>, ended: bool, g: Snapshot)
    requires Coherent(env, p) && p.phase.NeedCandidates? && Gathers(env, p, taken, cs, ended) && (taken > 0 || ended)
    requires g == Gathered(p, taken, cs, ended)
    ensures Advanced(env, p, g)
  {
    GatheringStaysCoherent(env, p, taken, cs, ended);
    GatheringKeepsMeaning(env, p, taken, cs, ended);
  }

  /** Choosing and paging move nothing backward. */
  ghost predicate LeadsInto(env: Env, m: Snapshot, p: Snapshot) {
    && Coherent(env, m) && Coherent(env, p)
    && Meaning(env, p) == Meaning(env, m) && p.tree == m.tree && p.truncated == m.truncated
    && (|p.frontier| < |m.frontier| || (p.frontier == m.frontier && Work(env, p) == Work(env, m)))
  }

  lemma PageLeadsInto(env: Env, m: Snapshot, limit: nat)
    requires Coherent(env, m) && m.phase.NeedCandidates? && HasWork(m) && limit > 0
    ensures LeadsInto(env, m, PageFor(env, m, limit))
  {
    ChoosingKeepsMeaning(env, m);
    PagingKeepsMeaning(env, Chosen(env, m), limit);
  }

  lemma AdvancesFrom(env: Env, m: Snapshot, p: Snapshot, g: Snapshot)
    requires LeadsInto(env, m, p) && Advanced(env, p, g)
    ensures Advanced(env, m, g)
  {
  }

  lemma MaterializationAdvances(env: Env, m: Snapshot, p: Snapshot, limit: nat, taken: nat, cs: seq<Candidate>, ended: bool)
    requires Coherent(env, m) && m.phase.NeedCandidates? && HasWork(m) && limit > 0
    requires p == PageFor(env, m, limit) && Coherent(env, p) && p.phase.NeedCandidates?
    requires Gathers(env, p, taken, cs, ended) && (taken > 0 || ended)
    ensures Advanced(env, m, Gathered(p, taken, cs, ended))
  {
    PageLeadsInto(env, m, limit);
    GatheringAdvances(env, p, taken, cs, ended, Gathered(p, taken, cs, ended));
    AdvancesFrom(env, m, p, Gathered(p, taken, cs, ended));
  }

  /** What gathering a page's batch comes to. */
  function GatherPage(env: Env, p: Snapshot, budget: nat): Collection
    requires p.active.Some?
  {
    Gather(env, p.pending, 0, p.nextSequence, 0, [], p.active.value, p.tree.DepthOf(p.active.value), budget)
  }

  lemma PageLongestFit(env: Env, p: Snapshot, budget: nat)
    requires p.active.Some?
    ensures LongestFit(GatherPage(env, p, budget), env, p.pending, p.nextSequence, p.active.value,
                       p.tree.DepthOf(p.active.value), budget)
  {
    GatherCollects(env, p.pending, 0, p.nextSequence, p.active.value, p.tree.DepthOf(p.active.value), [], 0, budget,
                   GatherPage(env, p, budget));
  }

  /** The machine once a page has been gathered and an ended list has freed its node. */
  function Consumed(p: Snapshot, g: Collection): Snapshot
    requires match g case Filled(taken, _) => taken <= |p.pending| case Refused(_, drawn, _, _) => drawn <= |p.pending|
  {
    match g
    case Refused(_, drawn, paid, sequence) =>
      p.(pending := p.pending[drawn..], nextSequence := sequence, charged := p.charged + paid)
    case Filled(taken, candidates) =>
      var paid := Paid(p, taken, |candidates|);
      if p.pendingExhausts && taken == |p.pending| then Released(paid) else paid
  }

  /** The machine after a call whose page filled a batch. */
  function AfterBatch(p: Snapshot, g: Collection): Snapshot
    requires g.Filled? && g.taken <= |p.pending|
  {
    Gathered(p, g.taken, g.candidates, p.pendingExhausts && g.taken == |p.pending|)
  }

  /** A call that has something to expand fails exactly here. */
  ghost predicate Refuses(env: Env, p: Snapshot, limits: BfsCandidateLimits)
    requires p.active.Some?
  {
    var g := GatherPage(env, p, limits.maxKeyBytes);
    g.Refused? || (g.candidates != [] && !AcceptableBatch(g.candidates, limits))
  }

  lemma PageFacts(env: Env, m: Snapshot, limit: nat)
    requires Coherent(env, m) && m.phase.NeedCandidates? && limit > 0
    ensures HasWork(m) ==>
              var p := PageFor(env, m, limit);
              && p.phase.NeedCandidates? && p.active.Some? && p.tree == m.tree && Coherent(env, p)
              && |p.pending| <= Max(|m.pending|, limit)
              && (p.pendingExhausts || p.pending != [])
              && (p.pendingExhausts ==> p.cursor == |env.Expansion(p.active.value)|)
  {
    if HasWork(m) {
      ChoosingKeepsMeaning(env, m);
      PagingKeepsMeaning(env, Chosen(env, m), limit);
    }
  }

  /** Where a call for candidates fails. */
  ghost predicate CallFails(env: Env, m: Snapshot, limits: BfsCandidateLimits)
    requires Coherent(env, m) && m.phase.NeedCandidates? && ValidLimits(limits)
  {
    PageFacts(env, m, limits.maxCandidates);
    HasWork(m) && Refuses(env, PageFor(env, m, limits.maxCandidates), limits)
  }

  /** The machine after a call that did not fail, and what the call returned. */
  function Called(env: Env, m: Snapshot, limits: BfsCandidateLimits): Snapshot
    requires Coherent(env, m) && m.phase.NeedCandidates? && ValidLimits(limits) && !CallFails(env, m, limits)
  {
    if !HasWork(m) then Chosen(env, m)
    else
      PageFacts(env, m, limits.maxCandidates);
      var p := PageFor(env, m, limits.maxCandidates);
      AfterBatch(p, GatherPage(env, p, limits.maxKeyBytes))
  }

  function Delivered(env: Env, m: Snapshot, limits: BfsCandidateLimits): Materialization
    requires Coherent(env, m) && m.phase.NeedCandidates? && ValidLimits(limits) && !CallFails(env, m, limits)
  {
    if !HasWork(m) then Exhausted
    else
      PageFacts(env, m, limits.maxCandidates);
      var p := PageFor(env, m, limits.maxCandidates);
      var g := GatherPage(env, p, limits.maxKeyBytes);
      if g.candidates == [] then Progress
      else Batched(CandidateBatch(g.candidates, p.pendingExhausts && g.taken == |p.pending|))
  }

  /** A batch ends before the end of its page only at an entry of a followed type whose own keys no longer
      fit beside those the batch carries. */
  lemma BatchStopsWhereFull(env: Inputs, page: seq<Neighbor>, first: nat, parent: nat, d: int, budget: nat, g: Collection)
    requires g == Gather(env, page, 0, first, 0, [], parent, d, budget)
    ensures g.Filled? ==> TotalKeyBytes(g.candidates) <= budget
    ensures g.Filled? && g.taken < |page| ==>
              && TypeAllowed(env.config.edgeTypeFilter, page[g.taken].typeId)
              && TotalKeyBytes(g.candidates)
                 + (if page[g.taken].target in env.store.primaryKeys then |env.store.primaryKeys[page[g.taken].target]| else 0)
                 + (if page[g.taken].relationshipId.Some? && page[g.taken].relationshipId.value in env.relationships
                    then |env.relationships[page[g.taken].relationshipId.value].sourceKey| else 0)
                 > budget
  {
    GatherCollects(env, page, 0, first, parent, d, [], 0, budget, g);
  }

  /** Whatever fills a batch is identified from the stores. */
  lemma GatheredIdentified(env: Inputs, page: seq<Neighbor>, first: nat, parent: nat, d: int, budget: nat, g: Collection)
    requires g == Gather(env, page, 0, first, 0, [], parent, d, budget)
    ensures g.Filled? ==> forall c <- g.candidates :: Copies(page, c) && Identified(env, c)
  {
    GatherCollects(env, page, 0, first, parent, d, [], 0, budget, g);
    if g.Filled? {
      CandidatesMade(env, page, g.taken, first, parent, d);
    }
  }

  lemma NothingLeft(env: Env, m: Snapshot)
    requires Coherent(env, m) && m.phase.NeedCandidates? && m.active.None? && m.frontier == []
    ensures Advanced(env, m, Chosen(env, m))
  {
    ChoosingKeepsMeaning(env, m);
  }

  /** What a filled batch holds: the longest fitting stretch of the page, numbered in order. */
  lemma BatchHolds(env: Env, p: Snapshot, budget: nat)
    requires Coherent(env, p) && p.active.Some? && p.tree.DepthOf(p.active.value) >= -1
    requires GatherPage(env, p, budget).Filled?
    requires p.pendingExhausts ==> p.cursor == |env.Expansion(p.active.value)|
    ensures var g := GatherPage(env, p, budget);
            && Numbered(env, p.pending, g.candidates, p.nextSequence, p.active.value, p.tree.DepthOf(p.active.value))
            && Gathers(env, p, g.taken, g.candidates, p.pendingExhausts && g.taken == |p.pending|)
            && (g.taken < |p.pending| ==> g.taken > 0)
  {
    var u, d := p.active.value, p.tree.DepthOf(p.active.value);
    var g := GatherPage(env, p, budget);
    PageLongestFit(env, p, budget);
    CandidatesNumbered(env, p.pending, g.taken, p.nextSequence, u, d);
    CollectedGathers(env, p, g.taken, g.candidates, p.pendingExhausts && g.taken == |p.pending|, budget);
  }

  /** A successful call leaves the run leading to the same end, with less of it left to read. */
  lemma CallAdvances(env: Env, m: Snapshot, limits: BfsCandidateLimits)
    requires Coherent(env, m) && m.phase.NeedCandidates? && ValidLimits(limits) && !CallFails(env, m, limits)
    requires forall u <- m.tree.visited :: m.tree.DepthOf(u) >= -1
    ensures Advanced(env, m, Called(env, m, limits))
  {
    if !HasWork(m) {
      NothingLeft(env, m);
    } else {
      PageFacts(env, m, limits.maxCandidates);
      var p := PageFor(env, m, limits.maxCandidates);
      var g := GatherPage(env, p, limits.maxKeyBytes);
      BatchHolds(env, p, limits.maxKeyBytes);
      MaterializationAdvances(env, m, p, limits.maxCandidates, g.taken, g.candidates,
                              p.pendingExhausts && g.taken == |p.pending|);
    }
  }

  lemma CopiesOutgoing(env: Env, p: Snapshot, c: Candidate)
    requires PageOk(env, p) && p.active.Some? && Copies(p.pending, c)
    ensures Copies(env.Outgoing(p.active.value), c)
  {
    var j :| && 0 <= j < |p.pending|
             && c.targetNode == p.pending[j].target && c.edgeType == p.pending[j].typeId
             && c.schemaReversed == p.pending[j].schemaReversed && c.relationshipId == p.pending[j].relationshipId;
    var list, at := env.Outgoing(p.active.value), p.cursor - |p.pending| + j;
    assert p.pending[j] == env.Expansion(p.active.value)[at];
    var k := if env.depthFirst then |list| - 1 - at else at;
    assert list[k] == p.pending[j];
  }

  /** A delivered batch says that the node at hand is exhausted exactly when the machine has let go of it. */
  lemma ExhaustedMeansReleased(env: Env, m: Snapshot, limits: BfsCandidateLimits)
    requires Coherent(env, m) && m.phase.NeedCandidates? && ValidLimits(limits) && !CallFails(env, m, limits)
    ensures var delivered, c := Delivered(env, m, limits), Called(env, m, limits);
            delivered.Batched? ==> (delivered.batch.exhaustedCurrent <==> c.active.None?)
  {
    PageFacts(env, m, limits.maxCandidates);
  }

  /** Every candidate a call delivers copies an adjacency entry of its parent, the node at hand, and
      carries that entry's own identities. */
  lemma DeliveredIdentities(env: Env, m: Snapshot, limits: BfsCandidateLimits)
    requires Coherent(env, m) && m.phase.NeedCandidates? && ValidLimits(limits) && !CallFails(env, m, limits)
    ensures var delivered := Delivered(env, m, limits);
            delivered.Batched? ==>
              forall c <- delivered.batch.candidates ::
                && Copies(env.Outgoing(c.parentNode), c) && c.parentDepth == m.tree.DepthOf(c.parentNode)
                && Identified(env, c)
  {
    PageFacts(env, m, limits.maxCandidates);
    if HasWork(m) {
      var p := PageFor(env, m, limits.maxCandidates);
      PageIdentities(env, p, limits.maxKeyBytes, GatherPage(env, p, limits.maxKeyBytes));
    }
  }

  lemma PageIdentities(env: Env, p: Snapshot, budget: nat, g: Collection)
    requires PageOk(env, p) && p.active.Some? && g == GatherPage(env, p, budget)
    ensures g.Filled? ==> forall c <- g.candidates ::
              && Copies(env.Outgoing(c.parentNode), c) && c.parentDepth == p.tree.DepthOf(c.parentNode)
              && Identified(env, c)
  {
    var u, d := p.active.value, p.tree.DepthOf(p.active.value);
    GatheredIdentified(env, p.pending, p.nextSequence, u, d, budget, g);
    PageLongestFit(env, p, budget);
    if g.Filled? {
      CandidatesNumbered(env, p.pending, g.taken, p.nextSequence, u, d);
      forall i | 0 <= i < |g.candidates|
        ensures var c := g.candidates[i];
                Copies(env.Outgoing(c.parentNode), c) && c.parentDepth == p.tree.DepthOf(c.parentNode) && Identified(env, c)
      {
        assert MadeFrom(env, p.pending, g.candidates[i], p.nextSequence + i, u, d);
        CopiesOutgoing(env, p, g.candidates[i]);
      }
    }
  }

  /** A delivered batch is within its limits, is the one awaiting verdicts, and continues the
      sequence numbers without a gap. */
  ghost predicate Continues(c: Snapshot, first: nat, batch: CandidateBatch, limits: BfsCandidateLimits) {
    && c.phase.NeedVisibility? && batch.candidates == c.offered && c.offered != []
    && AcceptableBatch(c.offered, limits)
    && c.nextSequence == first + |c.offered|
    && (forall i | 0 <= i < |c.offered| :: c.offered[i].sequence == first + i)
  }

  lemma FilledContinues(env: Env, p: Snapshot, limits: BfsCandidateLimits, ended: bool)
    requires Coherent(env, p) && p.active.Some? && p.tree.DepthOf(p.active.value) >= -1
    requires !Refuses(env, p, limits) && GatherPage(env, p, limits.maxKeyBytes).candidates != []
    requires p.pendingExhausts ==> p.cursor == |env.Expansion(p.active.value)|
    ensures var g := GatherPage(env, p, limits.maxKeyBytes);
            Continues(AfterBatch(p, g), p.nextSequence, CandidateBatch(g.candidates, ended), limits)
  {
    var g := GatherPage(env, p, limits.maxKeyBytes);
    BatchHolds(env, p, limits.maxKeyBytes);
    NumberedSequence(env, p.pending, g.candidates, p.nextSequence, p.active.value, p.tree.DepthOf(p.active.value));
  }

  /** What a call has delivered, seen from the machine it leaves behind. */
  ghost predicate DeliveredWell(m: Snapshot, c: Snapshot, delivered: Materialization, limits: BfsCandidateLimits) {
    match delivered
    case Exhausted => c.phase.Complete? && !HasWork(m)
    case Progress => c.phase.NeedCandidates? && c.nextSequence == m.nextSequence
    case Batched(batch) => Continues(c, m.nextSequence, batch, limits)
  }

  /** What a call that filled a batch delivers. */
  lemma DeliveredPage(env: Env, m: Snapshot, p: Snapshot, limits: BfsCandidateLimits, g: Collection)
    requires Coherent(env, p) && p.active.Some? && p.tree.DepthOf(p.active.value) >= -1 && p.phase.NeedCandidates?
    requires p.nextSequence == m.nextSequence && !Refuses(env, p, limits)
    requires p.pendingExhausts ==> p.cursor == |env.Expansion(p.active.value)|
    requires g == GatherPage(env, p, limits.maxKeyBytes)
    ensures g.candidates == [] ==> DeliveredWell(m, AfterBatch(p, g), Progress, limits)
    ensures forall ended :: g.candidates != [] ==> DeliveredWell(m, AfterBatch(p, g), Batched(CandidateBatch(g.candidates, ended)), limits)
  {
    BatchHolds(env, p, limits.maxKeyBytes);
    forall ended | g.candidates != []
      ensures Continues(AfterBatch(p, g), p.nextSequence, CandidateBatch(g.candidates, ended), limits)
    {
      FilledContinues(env, p, limits, ended);
    }
  }

  /** What a successful call delivers. */
  lemma DeliveredBatch(env: Env, m: Snapshot, limits: BfsCandidateLimits)
    requires Coherent(env, m) && m.phase.NeedCandidates? && ValidLimits(limits) && !CallFails(env, m, limits)
    requires forall u <- m.tree.visited :: m.tree.DepthOf(u) >= -1
    ensures DeliveredWell(m, Called(env, m, limits), Delivered(env, m, limits), limits)
  {
    PageFacts(env, m, limits.maxCandidates);
    if HasWork(m) {
      var p := PageFor(env, m, limits.maxCandidates);
      DeliveredPage(env, m, p, limits, GatherPage(env, p, limits.maxKeyBytes));
    }
  }

  /** A refused page's error, and the machine left behind with no batch outstanding. */
  ghost predicate RefusesPage(env: Env, p: Snapshot, limits: BfsCandidateLimits, r: Result<Materialization>, now: Snapshot)
    requires p.active.Some?
  {
    var g := GatherPage(env, p, limits.maxKeyBytes);
    r == Err(if g.Refused? then g.error else InvalidFilter) && now == Consumed(p, g)
  }

  /** What paging and gathering the node at hand answers. */
  ghost predicate AnswersPage(env: Env, p: Snapshot, limits: BfsCandidateLimits, r: Result<Materialization>, now: Snapshot)
    requires p.active.Some?
  {
    var g := GatherPage(env, p, limits.maxKeyBytes);
    if Refuses(env, p, limits) then RefusesPage(env, p, limits, r, now)
    else
      && now == AfterBatch(p, g)
      && r == Ok(if g.candidates == [] then Progress
                 else Batched(CandidateBatch(g.candidates, p.pendingExhausts && g.taken == |p.pending|)))
  }

  /** The cursor of the node chosen next lies within its list. */
  ghost predicate Readable(env: Env, m: Snapshot) {
    var c := Chosen(env, m);
    c.active.Some? ==> c.cursor <= |env.Expansion(c.active.value)|
  }

  /** What a call in the right state, on usable limits, answers. */
  ghost predicate AnswersOpen(env: Env, m: Snapshot, limits: BfsCandidateLimits, r: Result<Materialization>, now: Snapshot)
    requires Readable(env, m)
  {
    if HasWork(m) then AnswersPage(env, Paged(env, Chosen(env, m), limits.maxCandidates), limits, r, now)
    else r == Ok(Exhausted) && now == Chosen(env, m)
  }

  lemma OpenIsReadable(env: Env, m: Snapshot)
    requires Coherent(env, m) && m.phase.NeedCandidates?
    ensures Readable(env, m)
  {
    ChoosingKeepsMeaning(env, m);
  }

  /** What a call for candidates answers and leaves behind. */
  ghost predicate AnswersCall(env: Env, m: Snapshot, limits: BfsCandidateLimits, r: Result<Materialization>, now: Snapshot)
    requires Coherent(env, m)
  {
    if !m.phase.NeedCandidates? then r == Err(Internal) && now == m
    else if !ValidLimits(limits) then r == Err(InvalidFilter) && now == m
    else
      OpenIsReadable(env, m);
      AnswersOpen(env, m, limits, r, now)
  }

  /** Such a call fails exactly where `CallFails` says, and otherwise is `Called`. */
  lemma CallAnswered(env: Env, m: Snapshot, limits: BfsCandidateLimits, r: Result<Materialization>, now: Snapshot)
    requires Coherent(env, m) && m.phase.NeedCandidates? && ValidLimits(limits)
    requires AnswersCall(env, m, limits, r, now)
    ensures r.Err? <==> CallFails(env, m, limits)
    ensures r.Ok? ==> now == Called(env, m, limits) && r.value == Delivered(env, m, limits)
  {
    PageFacts(env, m, limits.maxCandidates);
  }

  /** While the page's entries have their identities, each fits the key-byte budget alone, and
      sequence numbers remain, a call fails exactly when more of the page fits the budget than the
      batch may hold, which takes a page left over from a larger limit. */
  lemma RefusalExact(env: Env, p: Snapshot, limits: BfsCandidateLimits)
    requires p.active.Some? && ValidLimits(limits)
    requires Presentable(env, p.pending, limits.maxKeyBytes) && p.nextSequence + |p.pending| <= U32_MAX
    ensures Refuses(env, p, limits) <==>
            limits.maxCandidates < |Kept(env.config.edgeTypeFilter, p.pending[..FitEnd(env, p.pending, 0, 0, limits.maxKeyBytes)])|
    ensures |p.pending| <= limits.maxCandidates ==> !Refuses(env, p, limits)
  {
    var u, d := p.active.value, p.tree.DepthOf(p.active.value);
    var g := GatherPage(env, p, limits.maxKeyBytes);
    GatherFills(env, p.pending, 0, p.nextSequence, 0, [], u, d, limits.maxKeyBytes);
    PageLongestFit(env, p, limits.maxKeyBytes);
    CandidatesStandFor(env, p.pending, g.taken, p.nextSequence, u, d);
    CandidatesNumbered(env, p.pending, g.taken, p.nextSequence, u, d);
    KeptShorter(env.config.edgeTypeFilter, p.pending[..g.taken]);
    NumberedIncreases(env, p.pending, g.candidates, p.nextSequence, u, d);
  }

  lemma NumberedSequence(env: Inputs, page: seq<Neighbor>, cs: seq<Candidate>, first: nat, parent: nat, d: int)
    ensures Numbered(env, page, cs, first, parent, d) ==> forall i | 0 <= i < |cs| :: cs[i].sequence == first + i
  {
    if Numbered(env, page, cs, first, parent, d) {
      forall i | 0 <= i < |cs|
        ensures cs[i].sequence == first + i
      {
        assert MadeFrom(env, page, cs[i], first + i, parent, d);
      }
    }
  }

  lemma NumberedIncreases(env: Inputs, page: seq<Neighbor>, cs: seq<Candidate>, first: nat, parent: nat, d: int)
    requires Numbered(env, page, cs, first, parent, d)
    ensures Increasing(cs)
  {
    forall i, j | 0 <= i < j < |cs|
      ensures cs[i].sequence < cs[j].sequence
    {
      assert MadeFrom(env, page, cs[i], first + i, parent, d) && MadeFrom(env, page, cs[j], first + j, parent, d);
    }
  }

  predicate ValidLimits(limits: BfsCandidateLimits) {
    0 < limits.maxCandidates <= PAGE_CAPACITY && limits.maxKeyBytes > 0
  }

  /** A new machine: the seed visited and queued, or complete at once if nothing can be expanded. */
  function Initial(env: Inputs): Snapshot {
    var seed := env.config.seedNode;
    var seedValid := seed < env.store.nodeCount;
    var idle := !seedValid || env.config.maxDepth <= 0 || env.config.edgeTypeFilter.NoneMatched?;
    Snapshot(if idle then [] else [seed], if seedValid then UNVISITED.Grow(seed, 0, seed, UNTYPED) else UNVISITED,
             None, 0, [], false, if idle then Complete else NeedCandidates, false, 0, None, [], [], 0)
  }

  /** A new machine's run leads where the seed does. */
  lemma InitialIsSound(env: Env)
    ensures Coherent(env, Initial(env)) && Meaning(env, Initial(env)) == Run(env, Seeded(env))
    ensures forall u :: Initial(env).tree.DepthOf(u) >= -1
  {
    var m := Initial(env);
    if m.phase.Complete? && env.config.seedNode < env.store.nodeCount && !env.config.edgeTypeFilter.NoneMatched? {
      assert Expand(env, Seeded(env)) == m.Now();
    }
  }

  lemma JudgedReads(env: Env, m: Snapshot, cs: seq<Candidate>, vs: seq<Verdict>, open: bool, frontier: seq<nat>, tree: Tree)
    requires |cs| == |vs| && !m.truncated
    requires JudgeAll(env, State(m.frontier, m.tree, Open), cs, vs) == State(frontier, tree, if open then Open else Capped)
    ensures Judged(env, m, cs, vs) ==
            m.(frontier := frontier, tree := tree, truncated := !open,
               phase := if open then NeedCandidates else Complete, batchKey := None)
  {
  }

  class ResumableMachine {
    const env: Env
    var frontier: seq<nat>
    var ledger: Ledger
    var outputs: seq<nat>
    var cursor: nat
    var pendingAdjacency: seq<Neighbor>
    var pendingExhaustsNode: bool
    var state: MachineState
    var nodesVisited: nat
    var activeNode: Option<nat>
    var nextSequence: nat
    var pendingBatch: Option<(Option<nat>, nat)>
    var truncated: bool
    /** Raw entries paid for, the units the source takes from its governor. */
    var charged: nat
    /** What the columns stand for, the outstanding batch, and the nodes whose expansion has begun. */
    ghost var tree: Tree
    ghost var offered: seq<Candidate>
    ghost var expanded: seq<nat>

    ghost predicate ValidStorage()
      reads `ledger, `tree, `nodesVisited, `outputs
    {
      && ledger.Valid(env.store.nodeCount) && ledger.View() == tree
      && nodesVisited == |tree.visited| == |outputs|
      && (forall v :: v in outputs <==> v in tree.visited)
    }

    ghost function Snap(): Snapshot
      reads this
    {
      Snapshot(frontier, tree, activeNode, cursor, pendingAdjacency, pendingExhaustsNode, state, truncated,
               nextSequence, pendingBatch, offered, expanded, charged)
    }

    ghost predicate Valid()
      reads this
    {
      ValidStorage() && Coherent(env, Snap())
    }

    constructor (env: Env)
      ensures this.env == env && Snap() == Initial(env) && Valid()
    {
      var config := env.config;
      var seed := config.seedNode;
      var start := NewLedger(env.store.nodeCount, config.maxNodes);
      var seedValid := seed < env.store.nodeCount;
      if seedValid {
        RecordGrows(start, env.store.nodeCount, seed, 0, seed, UNTYPED);
        start := start.Record(seed, 0, seed, UNTYPED);
      }
      var completeWithoutExpansion := !seedValid || config.maxDepth <= 0 || config.edgeTypeFilter.NoneMatched?;
      this.env := env;
      ledger := start;
      frontier := if completeWithoutExpansion then [] else [seed];
      outputs := if seedValid then [seed] else [];
      cursor, pendingAdjacency, pendingExhaustsNode := 0, [], false;
      state := if completeWithoutExpansion then Complete else NeedCandidates;
      nodesVisited := if seedValid then 1 else 0;
      activeNode, nextSequence, pendingBatch, truncated := None, 0, None, false;
      tree := start.View();
      offered, expanded, charged := [], [], 0;
      new;
      InitialIsSound(env);
      assert Snap() == Initial(env);
    }

    method TakeCurrent() returns (current: Option<nat>)
      modifies `frontier, `state, `activeNode, `cursor, `pendingAdjacency, `pendingExhaustsNode, `expanded
      ensures Snap() == Chosen(env, old(Snap()))
      ensures current == activeNode
      ensures old(activeNode).None? && old(frontier) != [] ==>
                var taken: nat := if env.depthFirst then |old(frontier)| - 1 else 0;
                activeNode == Some(old(frontier)[taken]) && frontier == old(frontier)[..taken] + old(frontier)[taken + 1..]
    {
      if activeNode.None? {
        if frontier == [] {
          state := Complete;
        } else {
          var next := Next(env.depthFirst, frontier);
          frontier := next.1;
          activeNode := Some(next.0);
          cursor, pendingAdjacency, pendingExhaustsNode := 0, [], false;
          expanded := expanded + [next.0];
        }
      }
      return activeNode;
    }

    /** The active node's pending page, read from its list if the last one has been consumed. */
    method FillPage(current: nat, limit: nat) returns (exhausted: bool)
      requires activeNode == Some(current) && cursor <= |env.Expansion(current)|
      modifies `cursor, `pendingAdjacency, `pendingExhaustsNode
      ensures Snap() == Paged(env, old(Snap()), limit)
      ensures exhausted == pendingExhaustsNode
    {
      if pendingAdjacency == [] {
        var page := FillNeighbors(env.Expansion(current), cursor, limit);
        cursor := page.1;
        pendingAdjacency := page.0;
        pendingExhaustsNode := page.2;
      }
      return pendingExhaustsNode;
    }

    /** Make candidates of the pending entries until the page ends or the key-byte budget does. */
    method Collect(current: nat, currentDepth: int, budget: nat)
      returns (r: Result<bool>, candidates: seq<Candidate>)
      modifies `pendingAdjacency, `nextSequence, `charged
      ensures match Gather(env, old(pendingAdjacency), 0, old(nextSequence), 0, [], current, currentDepth, budget)
              case Refused(error, drawn, paid, sequence) =>
                && r == Err(error) && pendingAdjacency == old(pendingAdjacency)[drawn..]
                && nextSequence == sequence && charged == old(charged) + paid
              case Filled(count, cs) =>
                && r == Ok(count < old(|pendingAdjacency|)) && candidates == cs
                && pendingAdjacency == old(pendingAdjacency)[count..]
                && nextSequence == old(nextSequence) + |cs| && charged == old(charged) + count
    {
      candidates := [];
      ghost var taken: nat := 0;
      var keyBytes: nat := 0;
      ghost var page := pendingAdjacency;
      while pendingAdjacency != []
        invariant taken <= |page| && pendingAdjacency == page[taken..]
        invariant Gather(env, page, taken, nextSequence, keyBytes, candidates, current, currentDepth, budget) ==
                  Gather(env, page, 0, old(nextSequence), 0, [], current, currentDepth, budget)
        invariant nextSequence == old(nextSequence) + |candidates| && charged == old(charged) + taken
        decreases |pendingAdjacency|
      {
        var neighbor := pendingAdjacency[0];
        assert neighbor == page[taken] && page[taken..][1..] == page[taken + 1..];
        pendingAdjacency := pendingAdjacency[1..];
        if !TypeAllowed(env.config.edgeTypeFilter, neighbor.typeId) {
          charged, taken := charged + 1, taken + 1;
          continue;
        }
        if !HasIdentity(env, neighbor.target) {
          return Err(CorruptFile), candidates;
        }
        var nextKeyBytes := keyBytes + EntryKeyBytes(env, neighbor);
        if nextKeyBytes > budget {
          if candidates == [] {
            return Err(InvalidFilter), candidates;
          }
          pendingAdjacency := [neighbor] + pendingAdjacency;
          assert pendingAdjacency == page[taken..];
          return Ok(true), candidates;
        }
        charged, taken := charged + 1, taken + 1;
        keyBytes := nextKeyBytes;
        candidates := candidates + [CandidateFor(env, neighbor, nextSequence, current, currentDepth)];
        if nextSequence >= U32_MAX {
          return Err(Internal), candidates;
        }
        nextSequence := nextSequence + 1;
      }
      assert taken == |page|;
      return Ok(false), candidates;
    }

    /** The same, seen as one step of the machine. */
    method DrawPage(current: nat, currentDepth: int, budget: nat)
      returns (r: Result<bool>, candidates: seq<Candidate>)
      modifies `pendingAdjacency, `nextSequence, `charged
      ensures match Gather(env, old(pendingAdjacency), 0, old(nextSequence), 0, [], current, currentDepth, budget)
              case Refused(error, drawn, paid, sequence) =>
                && r == Err(error)
                && Snap() == old(Snap()).(pending := old(pendingAdjacency)[drawn..], nextSequence := sequence,
                                          charged := old(charged) + paid)
              case Filled(count, cs) =>
                && r == Ok(count < old(|pendingAdjacency|)) && candidates == cs
                && Snap() == Paid(old(Snap()), count, |cs|)
    {
      r, candidates := Collect(current, currentDepth, budget);
    }

    /** Forget the active node; its list has ended. */
    method ReleaseNode()
      modifies `activeNode, `cursor, `pendingAdjacency, `pendingExhaustsNode
      ensures Snap() == Released(old(Snap()))
    {
      activeNode, cursor, pendingAdjacency, pendingExhaustsNode := None, 0, [], false;
    }

    /** Wait for this batch's verdicts. */
    method AwaitVerdicts(candidates: seq<Candidate>)
      requires candidates != []
      modifies `pendingBatch, `state, `offered
      ensures Snap() == Awaiting(old(Snap()), candidates)
    {
      pendingBatch := Some((Some(candidates[0].sequence), |candidates|));
      state := NeedVisibility;
      offered := candidates;
    }

    /** Page the active node and turn the page into a batch. */
    method GatherBatch(current: nat, currentDepth: int, limits: BfsCandidateLimits) returns (r: Result<Materialization>)
      requires activeNode == Some(current) && cursor <= |env.Expansion(current)| && currentDepth == tree.DepthOf(current)
      modifies `state, `activeNode, `cursor, `pendingAdjacency, `pendingExhaustsNode,
               `nextSequence, `charged, `pendingBatch, `offered
      ensures AnswersPage(env, Paged(env, old(Snap()), limits.maxCandidates), limits, r, Snap())
      ensures r.Ok? && r.value.Batched? ==> forall c <- r.value.batch.candidates :: Identified(env, c)
    {
      var exhausted := FillPage(current, limits.maxCandidates);
      r := MakeBatch(current, currentDepth, limits, exhausted);
    }

    /** Turn the pending page into a batch. */
    method MakeBatch(current: nat, currentDepth: int, limits: BfsCandidateLimits, exhausted: bool)
      returns (r: Result<Materialization>)
      requires activeNode == Some(current) && currentDepth == tree.DepthOf(current) && exhausted == pendingExhaustsNode
      modifies `state, `activeNode, `cursor, `pendingAdjacency, `pendingExhaustsNode,
               `nextSequence, `charged, `pendingBatch, `offered
      ensures AnswersPage(env, old(Snap()), limits, r, Snap())
      ensures r.Ok? && r.value.Batched? ==> forall c <- r.value.batch.candidates :: Identified(env, c)
    {
      ghost var g := Gather(env, pendingAdjacency, 0, nextSequence, 0, [], current, currentDepth, limits.maxKeyBytes);
      GatheredIdentified(env, pendingAdjacency, nextSequence, current, currentDepth, limits.maxKeyBytes, g);
      var yielded, candidates := DrawPage(current, currentDepth, limits.maxKeyBytes);
      if yielded.Err? {
        return Err(yielded.error);
      }
      var ended := exhausted && !yielded.value;
      if ended {
        ReleaseNode();
      }
      if candidates == [] {
        return Ok(Progress);
      }
      var batch := TryNewBatch(candidates, ended, limits);
      if batch.Err? {
        return Err(batch.error);
      }
      AwaitVerdicts(candidates);
      return Ok(Batched(batch.value));
    }

    /** Choose what to expand and turn its next page into a batch. */
    method Continue(limits: BfsCandidateLimits) returns (r: Result<Materialization>)
      requires ledger.Valid(env.store.nodeCount) && ledger.View() == tree && Readable(env, Snap())
      modifies `frontier, `state, `activeNode, `cursor, `pendingAdjacency, `pendingExhaustsNode, `expanded,
               `nextSequence, `charged, `pendingBatch, `offered
      ensures AnswersOpen(env, old(Snap()), limits, r, Snap())
      ensures r.Ok? && r.value.Batched? ==> forall c <- r.value.batch.candidates :: Identified(env, c)
    {
      var current := TakeCurrent();
      if current.None? {
        return Ok(Exhausted);
      }
      DepthReads(ledger, env.store.nodeCount, current.value);
      r := GatherBatch(current.value, ledger.DepthOf(current.value), limits);
    }

    /** Ask for the next candidates. A call in the wrong state or with unusable limits is refused and
        changes nothing; any other call with something to expand fails exactly when its page is
        refused. */
    method Materialize(limits: BfsCandidateLimits) returns (r: Result<Materialization>)
      requires Valid()
      modifies `frontier, `state, `activeNode, `cursor, `pendingAdjacency, `pendingExhaustsNode, `expanded,
               `nextSequence, `charged, `pendingBatch, `offered
      ensures AnswersCall(env, old(Snap()), limits, r, Snap())
      ensures r.Ok? && r.value.Batched? ==> forall c <- r.value.batch.candidates :: Identified(env, c)
    {
      if !state.NeedCandidates? {
        return Err(Internal);
      }
      if !ValidLimits(limits) {
        return Err(InvalidFilter);
      }
      OpenIsReadable(env, Snap());
      r := Continue(limits);
    }

    /** Judge one candidate and record it if it is admitted; false once a cap has fired. */
    method AdmitCandidate(c: Candidate, v: Verdict) returns (open: bool)
      requires ValidStorage() && !truncated && Storable(env, [c])
      modifies `frontier, `ledger, `outputs, `nodesVisited, `tree
      ensures ValidStorage()
      ensures Judge(env, State(old(frontier), old(tree), Open), c, v) ==
              State(frontier, tree, if open then Open else Capped)
    {
      assert c in [c];
      DepthReads(ledger, env.store.nodeCount, c.targetNode);
      if !v.Visible() || c.targetNode in ledger.visited || !NodeAdmissible(env, c.targetNode) {
        return true;
      }
      RecordGrows(ledger, env.store.nodeCount, c.targetNode, c.parentDepth + 1, c.parentNode, c.edgeType);
      ledger := ledger.Record(c.targetNode, c.parentDepth + 1, c.parentNode, c.edgeType);
      tree := ledger.View();
      outputs := outputs + [c.targetNode];
      nodesVisited := nodesVisited + 1;
      if nodesVisited >= env.config.maxNodes {
        return false;
      }
      if c.parentDepth + 1 < env.config.maxDepth {
        frontier := frontier + [c.targetNode];
        if |frontier| >= env.config.maxFrontier {
          return false;
        }
      }
      return true;
    }

    /** Judge a batch in order; false once a cap has fired. */
    method AdmitEach(cs: seq<Candidate>, vs: seq<Verdict>) returns (open: bool)
      requires ValidStorage() && !truncated && Storable(env, cs) && |vs| == |cs|
      modifies `frontier, `ledger, `outputs, `nodesVisited, `tree
      ensures ValidStorage()
      ensures JudgeAll(env, State(old(frontier), old(tree), Open), cs, vs) ==
              State(frontier, tree, if open then Open else Capped)
      ensures Snap() == old(Snap()).(frontier := frontier, tree := tree)
    {
      ghost var before := State(frontier, tree, Open);
      var i := 0;
      open := true;
      while i < |cs| && open
        invariant i <= |cs| && ValidStorage()
        invariant JudgeAll(env, State(frontier, tree, if open then Open else Capped), cs[i..], vs[i..]) ==
                  JudgeAll(env, before, cs, vs)
      {
        JudgeAllSteps(env, State(frontier, tree, Open), cs, vs, i);
        open := AdmitCandidate(cs[i], vs[i]);
        i := i + 1;
      }
      if open {
        assert cs[i..] == [];
      } else {
        JudgeAllClosed(env, State(frontier, tree, Capped), cs[i..], vs[i..]);
      }
    }

    /** Admit a judged batch and move on: complete if a cap fired, else ask for more candidates. */
    method AdmitBatch(cs: seq<Candidate>, vs: seq<Verdict>)
      requires ValidStorage() && !truncated && Storable(env, cs) && |vs| == |cs|
      modifies `state, `pendingBatch, `frontier, `ledger, `outputs, `nodesVisited, `truncated, `tree
      ensures ValidStorage() && Snap() == Judged(env, old(Snap()), cs, vs)
    {
      state := ReadyToAdmit;
      pendingBatch := None;
      var open := AdmitEach(cs, vs);
      Settle(open);
      JudgedReads(env, old(Snap()), cs, vs, open, frontier, tree);
    }

    /** Complete if a cap fired, else ready for more candidates. */
    method Settle(open: bool)
      modifies `state, `truncated
      ensures Snap() == old(Snap()).(truncated := !open, phase := if open then NeedCandidates else Complete)
    {
      truncated := !open;
      state := if open then NeedCandidates else Complete;
    }

    /** Whether these are the verdicts the machine is waiting for. */
    predicate Expects(batch: CandidateBatch, verdicts: seq<Verdict>)
      reads `state, `pendingBatch
    {
      && state.NeedVisibility?
      && |verdicts| == |batch.candidates|
      && pendingBatch == Some((if batch.candidates == [] then None else Some(batch.candidates[0].sequence),
                               |batch.candidates|))
      && forall i | 0 <= i < |verdicts| :: verdicts[i].sequence == batch.candidates[i].sequence
    }

    /** Resume with one verdict per candidate. Anything but the expected verdicts is refused and
        changes nothing; expected ones are judged in order until a cap fires. */
    method ApplyVerdicts(batch: CandidateBatch, verdicts: seq<Verdict>) returns (r: Result<()>)
      requires ValidStorage() && (state.NeedVisibility? ==> !truncated) && Storable(env, batch.candidates)
      modifies `state, `pendingBatch, `frontier, `ledger, `outputs, `nodesVisited, `truncated, `tree
      ensures ValidStorage()
      ensures r == Ok(()) || r == Err(Internal)
      ensures r.Ok? <==> && old(state).NeedVisibility? && |verdicts| == |batch.candidates|
                         && old(pendingBatch).Some? && old(pendingBatch).value.1 == |verdicts|
                         && (if batch.candidates == [] then old(pendingBatch).value.0 == None
                             else old(pendingBatch).value.0 == Some(batch.candidates[0].sequence))
                         && forall i | 0 <= i < |verdicts| :: verdicts[i].sequence == batch.candidates[i].sequence
      ensures Snap() == if r.Ok? then Judged(env, old(Snap()), batch.candidates, verdicts) else old(Snap())
    {
      if !Expects(batch, verdicts) {
        return Err(Internal);
      }
      AdmitBatch(batch.candidates, verdicts);
      return Ok(());
    }
  }
}
