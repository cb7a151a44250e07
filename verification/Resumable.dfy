/** The resumable traversal: it pages adjacency, hands candidate batches to an external visibility
    oracle and resumes with its verdicts. `Meaning` is the state a run would end in if the oracle
    kept answering as the scope does; every step keeps it. */
module Resumable {
  import opened Prelude
  import opened Topology
  import opened Traversal
  import opened Candidates
  import opened Engines
  import opened Accounting

  /** Largest raw adjacency page a machine retains. */
  const PAGE_CAPACITY: nat := 64

  datatype MachineState = NeedCandidates | NeedVisibility | ReadyToAdmit | Complete

  datatype Materialization = Batched(batch: CandidateBatch) | Progress | Exhausted

  /** A bounded page starting at the cursor, the cursor after it, and whether the list has ended. */
  function FillNeighbors(list: seq<Neighbor>, position: nat, limit: nat): (r: (seq<Neighbor>, nat, bool))
    requires position <= |list|
    ensures position <= r.1 <= |list| && r.0 == list[position..r.1]
    ensures |r.0| == Min(limit, |list| - position)
    ensures r.2 <==> r.1 == |list|
  {
    var end := Min(position + limit, |list|);
    (list[position..end], end, end == |list|)
  }

  /** Everything about a machine but its storage: the traversal state, the active node's page, the
      outstanding batch, and what has been paid for. */
  datatype Snapshot = Snapshot(
    frontier: seq<nat>,
    tree: Tree,
    active: Option<nat>,
    cursor: nat,
    pending: seq<Neighbor>,
    pendingExhausts: bool,
    phase: MachineState,
    truncated: bool,
    nextSequence: nat,
    batchKey: Option<(Option<nat>, nat)>,
    offered: seq<Candidate>,
    expanded: seq<nat>,
    charged: nat)
  {
    function Now(): State {
      State(frontier, tree, if truncated then Capped else Open)
    }

    /** The active node's entries not yet made into candidates. */
    function Remaining(env: Env): seq<Neighbor>
      requires |pending| <= cursor
      requires active.Some? ==> cursor <= |env.Expansion(active.value)|
    {
      match active
      case None => []
      case Some(u) => env.Expansion(u)[cursor - |pending|..]
    }
  }

  /** Queued and expanded nodes are visited ones above the depth limit, and no node is either twice. */
  ghost predicate QueueOk(frontier: seq<nat>, expanded: seq<nat>, t: Tree, maxDepth: int) {
    && (forall i | 0 <= i < |frontier| :: frontier[i] in t.visited && t.DepthOf(frontier[i]) < maxDepth)
    && (forall i | 0 <= i < |expanded| :: expanded[i] in t.visited && t.DepthOf(expanded[i]) < maxDepth)
    && Distinct(frontier) && Distinct(expanded)
    && (forall i, j | 0 <= i < |expanded| && 0 <= j < |frontier| :: expanded[i] != frontier[j])
  }

  /** While no cap has fired, every visited node above the depth limit is queued or being expanded. */
  ghost predicate Tracked(s: State, expanded: seq<nat>, maxDepth: int) {
    s.status == Open ==> forall v <- s.tree.visited | s.tree.DepthOf(v) < maxDepth :: v in s.frontier || v in expanded
  }

  ghost predicate TrackedOk(env: Env, m: Snapshot) {
    if env.config.edgeTypeFilter.NoneMatched? then m.expanded == []
    else Tracked(m.Now(), m.expanded, env.config.maxDepth)
  }

  /** The pending page is the stretch of the active node's list just before the cursor. */
  ghost predicate PageOk(env: Env, m: Snapshot) {
    && |m.pending| <= m.cursor
    && match m.active
       case None => m.pending == []
       case Some(u) =>
         && u in m.tree.visited && m.tree.DepthOf(u) < env.config.maxDepth
         && m.cursor <= |env.Expansion(u)|
         && m.pending == env.Expansion(u)[m.cursor - |m.pending|..m.cursor]
         && (m.pending != [] ==> (m.pendingExhausts <==> m.cursor == |env.Expansion(u)|))
  }

  /** The candidates of one outstanding batch share a parent and can be stored. */
  ghost predicate BatchOk(env: Env, cs: seq<Candidate>) {
    && cs != []
    && (forall c <- cs :: c.parentNode == cs[0].parentNode && c.parentDepth == cs[0].parentDepth)
    && (forall c <- cs :: TypeAllowed(env.config.edgeTypeFilter, c.edgeType) && c.edgeType < U32_MAX)
    && cs[0].parentNode < env.store.nodeCount && cs[0].parentDepth >= -1
  }

  ghost predicate PhaseOk(env: Env, m: Snapshot) {
    && !m.phase.ReadyToAdmit?
    && (m.truncated ==> m.phase.Complete?)
    && (m.phase.Complete? && !m.truncated ==> m.frontier == [] && m.active.None?)
    && (!m.phase.Complete? ==> !env.config.edgeTypeFilter.NoneMatched?)
    && (m.phase.NeedVisibility? ==>
          BatchOk(env, m.offered) && m.batchKey == Some((Some(m.offered[0].sequence), |m.offered|)))
  }

  /** Every raw entry of a node whose expansion has begun is either paid for or still unread. */
  ghost predicate ChargesOk(env: Env, m: Snapshot)
    requires PageOk(env, m)
  {
    m.charged + |m.Remaining(env)| == Owned(env, m.expanded) && m.nextSequence <= m.charged
  }

  ghost predicate Coherent(env: Env, m: Snapshot) {
    && m.tree.visited <= Nodes(env)
    && QueueOk(m.frontier, m.expanded, m.tree, env.config.maxDepth)
    && PageOk(env, m) && PhaseOk(env, m) && ChargesOk(env, m) && TrackedOk(env, m)
  }

  /** The visited nodes whose neighbours a run reads. */
  ghost function AboveLimit(config: BfsConfig, t: Tree): set<nat> {
    set v | v in t.visited && t.DepthOf(v) < config.maxDepth
  }

  /** The raw entries a run that visits exactly this tree reads. */
  ghost function Due(env: Env, t: Tree): nat {
    if env.config.edgeTypeFilter.NoneMatched? then 0
    else EntriesOf(env, AboveLimit(env.config, t), env.store.nodeCount)
  }

  /** No entry is ever paid for twice, and a run that completes untruncated has paid for every entry
      of every visited node above the depth limit. */
  lemma ChargedOnce(env: Env, m: Snapshot)
    requires Coherent(env, m)
    ensures m.charged <= Due(env, m.tree) <= TotalEntries(env)
    ensures m.phase.Complete? && !m.truncated ==> m.charged == Due(env, m.tree)
  {
    var begun := set v | v in m.expanded;
    assert begun <= AboveLimit(env.config, m.tree) && forall v <- begun :: v in Nodes(env);
    OwnedIsEntries(env, m.expanded, begun, env.store.nodeCount);
    EntriesGrow(env, begun, AboveLimit(env.config, m.tree), env.store.nodeCount);
    EntriesWithinAll(env, AboveLimit(env.config, m.tree), env.store.nodeCount);
    if m.phase.Complete? && !m.truncated && !env.config.edgeTypeFilter.NoneMatched? {
      assert begun == AboveLimit(env.config, m.tree);
    }
  }

  /** What a state with an active node still leads to: the rest of its entries, then the queue. */
  ghost function Pursue(env: Env, s: State, active: Option<nat>, remaining: seq<Neighbor>): State
    requires s.tree.visited <= Nodes(env)
  {
    match active
    case None => Run(env, s)
    case Some(u) =>
      OfferAllProgresses(env, s, u, s.tree.DepthOf(u), remaining);
      Run(env, OfferAll(env, s, u, s.tree.DepthOf(u), remaining))
  }

  /** The state as it will be once the outstanding batch has been judged as the scope would. */
  ghost function Held(env: Env, m: Snapshot): State
    requires m.tree.visited <= Nodes(env) && PhaseOk(env, m)
    ensures Held(env, m).tree.visited <= Nodes(env)
  {
    if m.phase.NeedVisibility? then
      OfferAllProgresses(env, m.Now(), m.offered[0].parentNode, m.offered[0].parentDepth, Entries(m.offered));
      OfferAll(env, m.Now(), m.offered[0].parentNode, m.offered[0].parentDepth, Entries(m.offered))
    else m.Now()
  }

  /** Where the run will end if the oracle keeps answering as the scope does. */
  ghost function Meaning(env: Env, m: Snapshot): State
    requires Coherent(env, m)
  {
    Pursue(env, Held(env, m), m.active, m.Remaining(env))
  }

  /** What is left of the active node, for termination. */
  ghost function Work(env: Env, m: Snapshot): nat
    requires PageOk(env, m)
  {
    if m.active.None? then 0 else 1 + |m.Remaining(env)|
  }

  lemma PursueClosed(env: Env, s: State, active: Option<nat>, remaining: seq<Neighbor>)
    requires s.tree.visited <= Nodes(env) && s.status != Open
    ensures Pursue(env, s, active, remaining) == s
  {
    if active.Some? {
      OfferAllClosed(env, s, active.value, s.tree.DepthOf(active.value), remaining);
    }
  }

  /** A completed machine already is where its run ends. */
  lemma CompleteMeans(env: Env, m: Snapshot)
    requires Coherent(env, m) && m.phase.Complete?
    ensures Meaning(env, m) == m.Now()
  {
    if m.truncated {
      PursueClosed(env, m.Now(), m.active, m.Remaining(env));
    }
  }

  lemma {:induction false} DepthStable(env: Env, s: State, parent: nat, d: int, ns: seq<Neighbor>, u: nat)
    requires u in s.tree.visited
    ensures OfferAll(env, s, parent, d, ns).tree.DepthOf(u) == s.tree.DepthOf(u)
    decreases |ns|
  {
    if ns != [] {
      DepthStable(env, Offer(env, s, parent, d, ns[0]), parent, d, ns[1..], u);
    }
  }

  /** Taking entries off the active node and offering only those of a followed type owes the same. */
  lemma PursueSplit(env: Env, s: State, u: nat, taken: seq<Neighbor>, rest: seq<Neighbor>)
    requires s.tree.visited <= Nodes(env) && u in s.tree.visited && !env.config.edgeTypeFilter.NoneMatched?
    ensures var d := s.tree.DepthOf(u);
            var held := OfferAll(env, s, u, d, Kept(env.config.edgeTypeFilter, taken));
            && held.tree.visited <= Nodes(env)
            && Pursue(env, s, Some(u), taken + rest) == Pursue(env, held, Some(u), rest)
            && (rest == [] ==> Pursue(env, s, Some(u), taken + rest) == Pursue(env, held, None, []))
  {
    var d := s.tree.DepthOf(u);
    KeptOffers(env, s, u, d, taken);
    OfferAllSplit(env, s, u, d, taken, rest);
    OfferAllProgresses(env, s, u, d, Kept(env.config.edgeTypeFilter, taken));
    DepthStable(env, s, u, d, Kept(env.config.edgeTypeFilter, taken), u);
  }

  lemma NextSplits(frontier: seq<nat>, depthFirst: bool)
    requires frontier != []
    ensures var (current, rest) := Next(depthFirst, frontier);
            && (forall v :: v in frontier ==> v == current || v in rest)
            && (Distinct(frontier) ==> Distinct(rest) && forall j | 0 <= j < |rest| :: rest[j] != current)
            && (forall j | 0 <= j < |rest| :: rest[j] in frontier) && current in frontier
  {
    var (current, rest) := Next(depthFirst, frontier);
    assert frontier == if depthFirst then rest + [current] else [current] + rest;
    assert forall j | 0 <= j < |rest| :: rest[j] == frontier[if depthFirst then j else j + 1];
  }

  lemma DistinctAppends(us: seq<nat>, u: nat)
    requires Distinct(us) && forall i | 0 <= i < |us| :: us[i] != u
    ensures Distinct(us + [u])
  {
  }

  lemma QueuePops(frontier: seq<nat>, expanded: seq<nat>, t: Tree, maxDepth: int, depthFirst: bool)
    requires QueueOk(frontier, expanded, t, maxDepth) && frontier != []
    ensures var (current, rest) := Next(depthFirst, frontier);
            && QueueOk(rest, expanded + [current], t, maxDepth)
            && current in t.visited && t.DepthOf(current) < maxDepth
            && (forall v :: v in frontier ==> v in rest || v in expanded + [current])
  {
    var (current, rest) := Next(depthFirst, frontier);
    NextSplits(frontier, depthFirst);
    DistinctAppends(expanded, current);
    var more := expanded + [current];
    assert forall i | 0 <= i < |more| :: more[i] == if i < |expanded| then expanded[i] else current;
  }

  lemma OwnedAppend(env: Env, us: seq<nat>, u: nat)
    ensures Owned(env, us + [u]) == Owned(env, us) + |env.Expansion(u)|
  {
    assert (us + [u])[..|us|] == us;
  }

  /** The machine with its next queued node made active. */
  function Activated(env: Env, m: Snapshot): Snapshot
    requires m.frontier != []
  {
    var (current, rest) := Next(env.depthFirst, m.frontier);
    m.(frontier := rest, active := Some(current), cursor := 0, pending := [], pendingExhausts := false,
       expanded := m.expanded + [current])
  }

  /** Beginning a queued node's expansion owes exactly what the run owed. */
  lemma ActivationKeepsMeaning(env: Env, m: Snapshot)
    requires Coherent(env, m) && m.phase.NeedCandidates? && m.active.None? && m.frontier != []
    ensures Coherent(env, Activated(env, m))
    ensures Meaning(env, Activated(env, m)) == Meaning(env, m)
  {
    var (current, rest) := Next(env.depthFirst, m.frontier);
    QueuePops(m.frontier, m.expanded, m.tree, env.config.maxDepth, env.depthFirst);
    OwnedAppend(env, m.expanded, current);
    ExpandProgresses(env, m.Now());
    assert Activated(env, m).Remaining(env) == env.Expansion(current);
  }

  /** The machine after choosing what to expand: the active node, or else the next queued one; with
      nothing left it completes. Queued nodes lie above the depth limit, so none is skipped. */
  function Chosen(env: Env, m: Snapshot): Snapshot {
    if m.active.Some? then m
    else if m.frontier == [] then m.(phase := Complete)
    else Activated(env, m)
  }

  lemma ChoosingKeepsMeaning(env: Env, m: Snapshot)
    requires Coherent(env, m) && m.phase.NeedCandidates?
    ensures var c := Chosen(env, m);
            && Coherent(env, c) && Meaning(env, c) == Meaning(env, m)
            && (c.phase.Complete? || (c.phase.NeedCandidates? && c.active.Some?))
            && (|c.frontier| < |m.frontier| || (c.frontier == m.frontier && Work(env, c) == Work(env, m)))
            && c.pending == m.pending
  {
    if m.active.None? && m.frontier != [] {
      ActivationKeepsMeaning(env, m);
    }
  }

  /** A fresh page is read only when the last one has been consumed. */
  function Paged(env: Env, m: Snapshot, limit: nat): Snapshot
    requires m.active.Some? && m.cursor <= |env.Expansion(m.active.value)|
  {
    if m.pending != [] then m
    else
      var (page, next, exhausted) := FillNeighbors(env.Expansion(m.active.value), m.cursor, limit);
      m.(cursor := next, pending := page, pendingExhausts := exhausted)
  }

  lemma PagingKeepsMeaning(env: Env, m: Snapshot, limit: nat)
    requires Coherent(env, m) && m.phase.NeedCandidates? && m.active.Some? && limit > 0
    ensures var p := Paged(env, m, limit);
            && Coherent(env, p) && p.Remaining(env) == m.Remaining(env) && Meaning(env, p) == Meaning(env, m)
            && |p.pending| <= Max(|m.pending|, limit)
            && (p.pendingExhausts || p.pending != [])
            && (p.pendingExhausts ==> p.cursor == |env.Expansion(m.active.value)|)
  {
    var p := Paged(env, m, limit);
    if m.pending == [] {
      var list := env.Expansion(m.active.value);
      assert p.pending == list[p.cursor - |p.pending|..p.cursor];
    }
  }

  lemma {:induction false} KeptShorter(filter: EdgeTypeFilter, ns: seq<Neighbor>)
    ensures |Kept(filter, ns)| <= |ns|
    decreases |ns|
  {
    if ns != [] {
      KeptShorter(filter, ns[..|ns| - 1]);
    }
  }

  /** The machine once the page's first entries have been read and paid for. */
  function Paid(m: Snapshot, taken: nat, numbered: nat): Snapshot
    requires taken <= |m.pending|
  {
    m.(pending := m.pending[taken..], nextSequence := m.nextSequence + numbered, charged := m.charged + taken)
  }

  function Released(m: Snapshot): Snapshot {
    m.(active := None, cursor := 0, pending := [], pendingExhausts := false)
  }

  function Awaiting(m: Snapshot, cs: seq<Candidate>): Snapshot
    requires cs != []
  {
    m.(phase := NeedVisibility, offered := cs, batchKey := Some((Some(cs[0].sequence), |cs|)))
  }

  /** The machine after a page's first entries became candidates: an ended list frees the active
      node, and a non-empty batch waits for its verdicts. */
  function Gathered(m: Snapshot, taken: nat, cs: seq<Candidate>, ended: bool): Snapshot
    requires taken <= |m.pending|
  {
    var paid := Paid(m, taken, |cs|);
    var left := if ended then Released(paid) else paid;
    if cs == [] then left else Awaiting(left, cs)
  }

  /** The candidates stand for the first `taken` pending entries of the active node. */
  ghost predicate Gathers(env: Env, m: Snapshot, taken: nat, cs: seq<Candidate>, ended: bool) {
    && m.active.Some? && taken <= |m.pending|
    && Entries(cs) == Kept(env.config.edgeTypeFilter, m.pending[..taken])
    && (forall c <- cs :: c.parentNode == m.active.value && c.parentDepth == m.tree.DepthOf(m.active.value))
    && (forall c <- cs :: TypeAllowed(env.config.edgeTypeFilter, c.edgeType) && c.edgeType < U32_MAX)
    && (ended ==> taken == |m.pending| && m.cursor == |env.Expansion(m.active.value)|)
    && m.tree.DepthOf(m.active.value) >= -1
  }

  lemma SplitAt<T>(list: seq<T>, i: nat, j: nat)
    requires i <= j <= |list|
    ensures list[i..] == list[i..j] + list[j..]
  {
  }

  /** Where a page lies in its list, cut after its first entries. */
  lemma PageCut(list: seq<Neighbor>, page: seq<Neighbor>, cursor: nat, taken: nat)
    requires |page| <= cursor <= |list| && page == list[cursor - |page|..cursor] && taken <= |page|
    ensures page[taken..] == list[cursor - (|page| - taken)..cursor]
    ensures list[cursor - |page|..] == page[..taken] + list[cursor - (|page| - taken)..]
  {
    assert page[..taken] == list[cursor - |page|..cursor - |page| + taken];
    SplitAt(list, cursor - |page|, cursor - |page| + taken);
  }

  /** Reading part of a page splits what remains of the node at that point. */
  lemma GatheringSplits(env: Env, m: Snapshot, taken: nat, cs: seq<Candidate>, ended: bool)
    requires PageOk(env, m) && m.tree.visited <= Nodes(env) && Gathers(env, m, taken, cs, ended)
    ensures var g := Gathered(m, taken, cs, ended);
            && PageOk(env, g)
            && m.Remaining(env) == m.pending[..taken] + g.Remaining(env)
            && (taken > 0 || ended ==> Work(env, g) < Work(env, m))
  {
    var list := env.Expansion(m.active.value);
    PageCut(list, m.pending, m.cursor, taken);
    GatheredFields(m, taken, cs, ended);
    if ended {
      assert m.pending[..taken] == m.pending && list[m.cursor..] == [];
      AllReadHere(env, m, Gathered(m, taken, cs, ended), m.pending[..taken]);
    } else {
      SomeReadHere(env, m, Gathered(m, taken, cs, ended), m.pending[..taken], list);
    }
  }

  /** What gathering does to the active node and its page. */
  lemma GatheredFields(m: Snapshot, taken: nat, cs: seq<Candidate>, ended: bool)
    requires taken <= |m.pending|
    ensures var g := Gathered(m, taken, cs, ended);
            && g.tree == m.tree && (ended ==> g.active.None? && g.pending == [])
            && (!ended ==> g.active == m.active && g.cursor == m.cursor && g.pending == m.pending[taken..]
                           && g.pendingExhausts == m.pendingExhausts)
  {
  }

  lemma AllReadHere(env: Env, m: Snapshot, g: Snapshot, read: seq<Neighbor>)
    requires PageOk(env, m) && m.active.Some? && m.Remaining(env) == read
    requires g.active.None? && g.pending == []
    ensures PageOk(env, g) && m.Remaining(env) == read + g.Remaining(env) && Work(env, g) < Work(env, m)
  {
  }

  lemma SomeReadHere(env: Env, m: Snapshot, g: Snapshot, read: seq<Neighbor>, list: seq<Neighbor>)
    requires PageOk(env, m) && m.active.Some? && list == env.Expansion(m.active.value)
    requires g.tree == m.tree && g.active == m.active && g.cursor == m.cursor && g.pendingExhausts == m.pendingExhausts
    requires |read| + |g.pending| == |m.pending| && g.pending == list[m.cursor - |g.pending|..m.cursor]
    requires m.Remaining(env) == read + list[m.cursor - |g.pending|..]
    ensures PageOk(env, g) && m.Remaining(env) == read + g.Remaining(env)
    ensures read != [] ==> Work(env, g) < Work(env, m)
  {
    assert g.Remaining(env) == list[m.cursor - |g.pending|..];
  }

  lemma GatheringStaysCoherent(env: Env, m: Snapshot, taken: nat, cs: seq<Candidate>, ended: bool)
    requires Coherent(env, m) && m.phase.NeedCandidates? && Gathers(env, m, taken, cs, ended)
    ensures Coherent(env, Gathered(m, taken, cs, ended))
    ensures var g := Gathered(m, taken, cs, ended);
            && m.Remaining(env) == m.pending[..taken] + g.Remaining(env)
            && (taken > 0 || ended ==> Work(env, g) < Work(env, m))
  {
    GatheringSplits(env, m, taken, cs, ended);
    KeptShorter(env.config.edgeTypeFilter, m.pending[..taken]);
    assert cs != [] ==> cs[0] in cs;
  }

  /** Gathering a batch owes exactly what was owed before. */
  lemma GatheringKeepsMeaning(env: Env, m: Snapshot, taken: nat, cs: seq<Candidate>, ended: bool)
    requires Coherent(env, m) && m.phase.NeedCandidates? && Gathers(env, m, taken, cs, ended)
    requires Coherent(env, Gathered(m, taken, cs, ended))
    ensures Meaning(env, Gathered(m, taken, cs, ended)) == Meaning(env, m)
  {
    var g := Gathered(m, taken, cs, ended);
    GatheringStaysCoherent(env, m, taken, cs, ended);
    PursueSplit(env, m.Now(), m.active.value, m.pending[..taken], g.Remaining(env));
    assert g.Now() == m.Now();
    if cs != [] {
      assert cs[0] in cs;
    } else {
      assert Kept(env.config.edgeTypeFilter, m.pending[..taken]) == [];
    }
  }

  /** The machine once a batch has been judged: complete if a cap fired, else asking for more. */
  function Judged(env: Env, m: Snapshot, cs: seq<Candidate>, vs: seq<Verdict>): Snapshot
    requires |vs| == |cs|
  {
    var t := JudgeAll(env, m.Now(), cs, vs);
    m.(frontier := t.frontier, tree := t.tree, truncated := t.status == Capped,
       phase := if t.status == Capped then Complete else NeedCandidates, batchKey := None)
  }

  /** Candidates whose admission can be recorded. */
  ghost predicate Storable(env: Env, cs: seq<Candidate>) {
    forall c <- cs :: c.edgeType < U32_MAX && c.parentNode < env.store.nodeCount && c.parentDepth >= -1
  }

  lemma JudgeKeepsTracked(env: Env, s: State, c: Candidate, v: Verdict, expanded: seq<nat>)
    requires Tracked(s, expanded, env.config.maxDepth)
    ensures Tracked(Judge(env, s, c, v), expanded, env.config.maxDepth)
  {
    var t := Judge(env, s, c, v);
    assert t.frontier == s.frontier || t.frontier == s.frontier + [c.targetNode];
  }

  /** Judging a batch loses no node: each admitted one above the depth limit is queued. */
  lemma {:induction false} JudgeAllKeepsTracked(env: Env, s: State, cs: seq<Candidate>, vs: seq<Verdict>, expanded: seq<nat>)
    requires |cs| == |vs| && Tracked(s, expanded, env.config.maxDepth)
    ensures Tracked(JudgeAll(env, s, cs, vs), expanded, env.config.maxDepth)
    decreases |cs|
  {
    if cs != [] {
      JudgeKeepsTracked(env, s, cs[0], vs[0], expanded);
      JudgeAllKeepsTracked(env, Judge(env, s, cs[0], vs[0]), cs[1..], vs[1..], expanded);
    }
  }

  /** A verdict either changes nothing or adds one new, real node, queued only above the depth limit. */
  ghost predicate Adds(env: Env, s: State, t: State, node: nat, depth: int) {
    && node !in s.tree.visited && node in Nodes(env)
    && t.tree.visited == s.tree.visited + {node} && t.tree.depth == s.tree.depth[node := depth]
    && (t.frontier == s.frontier || (t.frontier == s.frontier + [node] && depth < env.config.maxDepth))
  }

  lemma JudgeAdds(env: Env, s: State, c: Candidate, v: Verdict)
    ensures var t := Judge(env, s, c, v);
            t == s || (t.status != Failed && Adds(env, s, t, c.targetNode, c.parentDepth + 1))
  {
    assert c.targetNode in env.store.active ==> c.targetNode in Nodes(env);
  }

  lemma AddingKeepsQueue(env: Env, s: State, t: State, node: nat, depth: int, expanded: seq<nat>)
    requires QueueOk(s.frontier, expanded, s.tree, env.config.maxDepth) && Adds(env, s, t, node, depth)
    ensures QueueOk(t.frontier, expanded, t.tree, env.config.maxDepth)
    ensures forall u <- s.tree.visited :: t.tree.DepthOf(u) == s.tree.DepthOf(u)
  {
    assert forall i | 0 <= i < |t.frontier| :: t.frontier[i] == if i < |s.frontier| then s.frontier[i] else node;
  }

  lemma JudgeKeepsQueue(env: Env, s: State, c: Candidate, v: Verdict, expanded: seq<nat>)
    requires QueueOk(s.frontier, expanded, s.tree, env.config.maxDepth) && s.tree.visited <= Nodes(env)
    ensures var t := Judge(env, s, c, v);
            && (t.status != Failed || t == s)
            && QueueOk(t.frontier, expanded, t.tree, env.config.maxDepth)
            && s.tree.visited <= t.tree.visited <= Nodes(env)
            && (t.tree.visited == s.tree.visited ==> t == s)
            && (forall u <- s.tree.visited :: t.tree.DepthOf(u) == s.tree.DepthOf(u))
  {
    var t := Judge(env, s, c, v);
    JudgeAdds(env, s, c, v);
    if t != s {
      AddingKeepsQueue(env, s, t, c.targetNode, c.parentDepth + 1, expanded);
    }
  }

  /** Judging a batch keeps the queue sound, whatever the verdicts. */
  lemma {:induction false} JudgeAllKeepsQueue(env: Env, s: State, cs: seq<Candidate>, vs: seq<Verdict>, expanded: seq<nat>)
    requires |cs| == |vs| && s.status != Failed
    requires QueueOk(s.frontier, expanded, s.tree, env.config.maxDepth) && s.tree.visited <= Nodes(env)
    ensures var t := JudgeAll(env, s, cs, vs);
            && t.status != Failed
            && QueueOk(t.frontier, expanded, t.tree, env.config.maxDepth)
            && s.tree.visited <= t.tree.visited <= Nodes(env)
            && (t.tree.visited == s.tree.visited ==> t == s)
            && (forall u <- s.tree.visited :: t.tree.DepthOf(u) == s.tree.DepthOf(u))
    decreases |cs|
  {
    if cs != [] {
      JudgeKeepsQueue(env, s, cs[0], vs[0], expanded);
      JudgeAllKeepsQueue(env, Judge(env, s, cs[0], vs[0]), cs[1..], vs[1..], expanded);
    }
  }

  /** The active node's page is untouched by a judged batch. */
  lemma PageSurvives(env: Env, m: Snapshot, j: Snapshot)
    requires PageOk(env, m) && m.tree.visited <= j.tree.visited
    requires forall u <- m.tree.visited :: j.tree.DepthOf(u) == m.tree.DepthOf(u)
    requires j.active == m.active && j.cursor == m.cursor && j.pending == m.pending && j.pendingExhausts == m.pendingExhausts
    ensures PageOk(env, j) && j.Remaining(env) == m.Remaining(env) && Work(env, j) == Work(env, m)
  {
  }

  /** What judging does to the machine's fields. */
  lemma JudgedFields(env: Env, m: Snapshot, vs: seq<Verdict>, t: State)
    requires m.phase.NeedVisibility? && |vs| == |m.offered|
    requires t == JudgeAll(env, m.Now(), m.offered, vs) && t.status != Failed
    ensures var j := Judged(env, m, m.offered, vs);
            && j.Now() == t && (j.truncated <==> t.status == Capped)
            && j.phase == (if t.status == Capped then Complete else NeedCandidates)
            && j.active == m.active && j.cursor == m.cursor && j.pending == m.pending && j.pendingExhausts == m.pendingExhausts
            && j.expanded == m.expanded && j.charged == m.charged && j.nextSequence == m.nextSequence
  {
  }

  lemma JudgedIsCoherent(env: Env, m: Snapshot, j: Snapshot, t: State)
    requires Coherent(env, m) && m.phase.NeedVisibility? && t.status != Failed
    requires QueueOk(t.frontier, m.expanded, t.tree, env.config.maxDepth) && t.tree.visited <= Nodes(env)
    requires Tracked(t, m.expanded, env.config.maxDepth)
    requires j.Now() == t && j.phase == (if j.truncated then Complete else NeedCandidates)
    requires PageOk(env, j) && j.Remaining(env) == m.Remaining(env)
    requires j.expanded == m.expanded && j.charged == m.charged && j.nextSequence == m.nextSequence
    ensures Coherent(env, j)
  {
  }

  /** Whatever the oracle answers, the machine stays coherent, and it has moved on: either nothing
      was admitted and the same work is left, or some node is newly visited. */
  lemma JudgingStaysCoherent(env: Env, m: Snapshot, vs: seq<Verdict>)
    requires Coherent(env, m) && m.phase.NeedVisibility? && |vs| == |m.offered|
    ensures var j := Judged(env, m, m.offered, vs);
            && Coherent(env, j) && !j.phase.NeedVisibility?
            && m.tree.visited <= j.tree.visited
            && (j.tree.visited == m.tree.visited ==> j.frontier == m.frontier && Work(env, j) == Work(env, m))
  {
    var t, j := JudgeAll(env, m.Now(), m.offered, vs), Judged(env, m, m.offered, vs);
    JudgeAllKeepsQueue(env, m.Now(), m.offered, vs, m.expanded);
    JudgeAllKeepsTracked(env, m.Now(), m.offered, vs, m.expanded);
    JudgedFields(env, m, vs, t);
    PageSurvives(env, m, j);
    JudgedIsCoherent(env, m, j, t);
  }

  /** Two machines that owe the same of the same node lead to the same end. */
  lemma SameMeaning(env: Env, m: Snapshot, j: Snapshot)
    requires Coherent(env, m) && Coherent(env, j) && !j.phase.NeedVisibility?
    requires j.Now() == Held(env, m) && j.active == m.active && j.Remaining(env) == m.Remaining(env)
    ensures Meaning(env, j) == Meaning(env, m)
  {
  }

  /** Answered as the scope would, a batch's verdicts owe exactly what was owed before. */
  lemma JudgingKeepsMeaning(env: Env, m: Snapshot, vs: seq<Verdict>)
    requires Coherent(env, m) && m.phase.NeedVisibility? && |vs| == |m.offered|
    requires forall i | 0 <= i < |vs| :: Faithful(env.scope, m.offered[i], vs[i])
    requires Coherent(env, Judged(env, m, m.offered, vs))
    ensures Meaning(env, Judged(env, m, m.offered, vs)) == Meaning(env, m)
  {
    var t, j := JudgeAll(env, m.Now(), m.offered, vs), Judged(env, m, m.offered, vs);
    JudgeAllKeepsQueue(env, m.Now(), m.offered, vs, m.expanded);
    JudgedFields(env, m, vs, t);
    PageSurvives(env, m, j);
    JudgedIsHeld(env, m, vs);
    SameMeaning(env, m, j);
  }

  lemma JudgedIsHeld(env: Env, m: Snapshot, vs: seq<Verdict>)
    requires m.tree.visited <= Nodes(env) && PhaseOk(env, m) && m.phase.NeedVisibility? && |vs| == |m.offered|
    requires forall i | 0 <= i < |vs| :: Faithful(env.scope, m.offered[i], vs[i])
    requires JudgeAll(env, m.Now(), m.offered, vs).status != Failed
    ensures Judged(env, m, m.offered, vs).Now() == Held(env, m)
  {
    JudgingIsOffering(env, m.Now(), m.offered[0].parentNode, m.offered[0].parentDepth, m.offered, vs);
  }
}
