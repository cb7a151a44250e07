/** Every run of the resumable machine, whoever drives it: any sequence of calls with any limits, and
    of verdicts answering anything. */
module MachineRuns {
  import opened Prelude
  import opened Topology
  import opened Traversal
  import opened Candidates
  import opened Accounting
  import opened Resumable
  import opened Machine
  import opened Breakers

  datatype Event = Ask(limits: BfsCandidateLimits) | Answer(verdicts: seq<Verdict>)

  /** Both caps bound what has accumulated, and there is room for the next admission. */
  ghost predicate CapsOk(env: Env, m: Snapshot) {
    && WithinCaps(env.config, m.Now())
    && if m.active.Some? || m.phase.NeedVisibility? then HasSlack(env.config, m.Now())
       else HasSlackBetween(env.config, m.Now())
  }

  /** What every reachable state keeps. */
  ghost predicate Sound(env: Env, m: Snapshot) {
    Coherent(env, m) && CapsOk(env, m) && forall u :: m.tree.DepthOf(u) >= -1
  }

  /** The machine after one event. A call in the wrong state or with unusable limits, and verdicts
      that answer nothing, change nothing; a call whose page is refused ends the run. */
  ghost function Step(env: Env, m: Snapshot, e: Event): Option<Snapshot>
    requires Coherent(env, m)
  {
    match e
    case Ask(limits) =>
      if !m.phase.NeedCandidates? || !ValidLimits(limits) then Some(m)
      else if CallFails(env, m, limits) then None
      else Some(Called(env, m, limits))
    case Answer(verdicts) =>
      if !m.phase.NeedVisibility? || |verdicts| != |m.offered| then Some(m)
      else Some(Judged(env, m, m.offered, verdicts))
  }

  lemma ChoosingKeepsCaps(env: Env, m: Snapshot)
    requires m.phase.NeedCandidates? && CapsOk(env, m)
    ensures CapsOk(env, Chosen(env, m))
  {
  }

  lemma BatchKeepsCaps(env: Env, p: Snapshot, g: Collection)
    requires p.active.Some? && CapsOk(env, p) && g.Filled? && g.taken <= |p.pending|
    ensures CapsOk(env, AfterBatch(p, g))
  {
    assert AfterBatch(p, g).Now() == p.Now();
  }

  /** A call for candidates admits nothing, and taking a node off the queue makes room for another. */
  lemma CallKeepsCaps(env: Env, m: Snapshot, limits: BfsCandidateLimits)
    requires Coherent(env, m) && m.phase.NeedCandidates? && ValidLimits(limits) && !CallFails(env, m, limits)
    requires CapsOk(env, m)
    ensures CapsOk(env, Called(env, m, limits))
  {
    ChoosingKeepsCaps(env, m);
    PageFacts(env, m, limits.maxCandidates);
    if HasWork(m) {
      var p := PageFor(env, m, limits.maxCandidates);
      assert p.Now() == Chosen(env, m).Now() && p.active == Chosen(env, m).active;
      BatchKeepsCaps(env, p, GatherPage(env, p, limits.maxKeyBytes));
    }
  }

  /** Admission keeps the bounds, whatever the verdicts. */
  lemma JudgingKeepsCaps(env: Env, m: Snapshot, vs: seq<Verdict>)
    requires m.phase.NeedVisibility? && |vs| == |m.offered| && CapsOk(env, m) && !m.truncated
    requires JudgeAll(env, m.Now(), m.offered, vs).status != Failed
    ensures CapsOk(env, Judged(env, m, m.offered, vs))
  {
    JudgeAllKeepsCaps(env, m.Now(), m.offered, vs);
    assert Judged(env, m, m.offered, vs).Now() == JudgeAll(env, m.Now(), m.offered, vs);
  }

  lemma {:induction false} JudgingKeepsDepths(env: Env, s: State, cs: seq<Candidate>, vs: seq<Verdict>)
    requires |cs| == |vs| && forall c <- cs :: c.parentDepth >= -1
    requires forall u :: s.tree.DepthOf(u) >= -1
    ensures forall u :: JudgeAll(env, s, cs, vs).tree.DepthOf(u) >= -1
    decreases |cs|
  {
    if cs != [] {
      assert cs[0] in cs;
      var next := Judge(env, s, cs[0], vs[0]);
      forall u
        ensures next.tree.DepthOf(u) >= -1
      {
        assert next.tree.DepthOf(u) == s.tree.DepthOf(u) || next.tree.DepthOf(u) == cs[0].parentDepth + 1;
      }
      JudgingKeepsDepths(env, next, cs[1..], vs[1..]);
    }
  }

  lemma AskKeepsSound(env: Env, m: Snapshot, limits: BfsCandidateLimits)
    requires Sound(env, m) && m.phase.NeedCandidates? && ValidLimits(limits) && !CallFails(env, m, limits)
    ensures Sound(env, Called(env, m, limits))
  {
    CallAdvances(env, m, limits);
    CallKeepsCaps(env, m, limits);
  }

  lemma AnswerKeepsSound(env: Env, m: Snapshot, vs: seq<Verdict>)
    requires Sound(env, m) && m.phase.NeedVisibility? && |vs| == |m.offered|
    ensures Sound(env, Judged(env, m, m.offered, vs))
  {
    JudgingStaysCoherent(env, m, vs);
    JudgeAllKeepsQueue(env, m.Now(), m.offered, vs, m.expanded);
    JudgingKeepsCaps(env, m, vs);
    JudgingKeepsDepths(env, m.Now(), m.offered, vs);
  }

  lemma StepKeepsSound(env: Env, m: Snapshot, e: Event)
    requires Sound(env, m) && Step(env, m, e).Some?
    ensures Sound(env, Step(env, m, e).value)
  {
    match e
    case Ask(limits) =>
      if m.phase.NeedCandidates? && ValidLimits(limits) {
        AskKeepsSound(env, m, limits);
      }
    case Answer(verdicts) =>
      if m.phase.NeedVisibility? && |verdicts| == |m.offered| {
        AnswerKeepsSound(env, m, verdicts);
      }
  }

  /** Where a new machine is after these events, if none ended the run. Every such state is sound. */
  ghost function Reached(env: Env, events: seq<Event>): (r: Option<Snapshot>)
    ensures r.Some? ==> Sound(env, r.value)
  {
    InitialIsSound(env);
    if events == [] then Some(Initial(env))
    else
      match Reached(env, events[..|events| - 1])
      case None => None
      case Some(m) =>
        var next := Step(env, m, events[|events| - 1]);
        if next.Some? then
          StepKeepsSound(env, m, events[|events| - 1]);
          next
        else None
  }

  /** In every reachable state, whatever the limits and the verdicts have been: the caps bound what is
      visited and queued, no more has been charged than the visited nodes own, and sequence numbers
      have been drawn only for entries paid for. */
  lemma ReachedStates(env: Env, events: seq<Event>)
    requires Reached(env, events).Some?
    ensures var m := Reached(env, events).value;
            && |m.tree.visited| <= Max(2, env.config.maxNodes)
            && |m.frontier| <= Max(1, env.config.maxFrontier)
            && m.nextSequence <= m.charged <= Due(env, m.tree) <= TotalEntries(env)
            && (m.phase.Complete? && !m.truncated ==> m.charged == Due(env, m.tree))
  {
    ChargedOnce(env, Reached(env, events).value);
  }

  /** The verdicts an event brings, if it is answered at all, are the scope's own. */
  ghost predicate ByScope(env: Env, m: Snapshot, e: Event) {
    e.Answer? && m.phase.NeedVisibility? && |e.verdicts| == |m.offered| ==>
      forall i | 0 <= i < |e.verdicts| :: Faithful(env.scope, m.offered[i], e.verdicts[i])
  }

  ghost predicate AnsweredByScope(env: Env, events: seq<Event>) {
    events != [] ==>
      var before := events[..|events| - 1];
      AnsweredByScope(env, before)
      && (Reached(env, before).Some? ==> ByScope(env, Reached(env, before).value, events[|events| - 1]))
  }

  lemma StepKeepsMeaning(env: Env, m: Snapshot, e: Event)
    requires Sound(env, m) && Step(env, m, e).Some? && Sound(env, Step(env, m, e).value) && ByScope(env, m, e)
    ensures Meaning(env, Step(env, m, e).value) == Meaning(env, m)
  {
    match e
    case Ask(limits) =>
      if m.phase.NeedCandidates? && ValidLimits(limits) {
        CallAdvances(env, m, limits);
      }
    case Answer(verdicts) =>
      if m.phase.NeedVisibility? && |verdicts| == |m.offered| {
        JudgingKeepsMeaning(env, m, verdicts);
      }
  }

  /** However the calls and answers fell, as long as the answers are the scope's own the run leads
      where it led at first, and a completed machine stands where the eager run ends. */
  lemma {:induction false} RunsAgree(env: Env, events: seq<Event>)
    requires AnsweredByScope(env, events) && Reached(env, events).Some?
    ensures var m := Reached(env, events).value;
            && Meaning(env, m) == Run(env, Seeded(env))
            && (m.phase.Complete? ==> m.Now() == Run(env, Seeded(env)))
    decreases |events|
  {
    if events == [] {
      InitialIsSound(env);
    } else {
      var before := events[..|events| - 1];
      RunsAgree(env, before);
      StepKeepsMeaning(env, Reached(env, before).value, events[|events| - 1]);
    }
    var m := Reached(env, events).value;
    if m.phase.Complete? {
      CompleteMeans(env, m);
    }
  }

  const LIST: seq<Neighbor> := [Neighbor(1, 0, false, None), Neighbor(2, 0, false, None), Neighbor(3, 0, false, None)]

  const UNEVEN: Inputs := Inputs(
    NodeStore(4, {0, 1, 2, 3}, map[1 := 7, 2 := 7, 3 := 7], map[1 := [0, 0, 0, 0, 0, 0], 2 := [0], 3 := [0]]),
    FilterIndex({}, {}),
    BfsConfig(0, 1, 9, 9, All, false, None, {}, map[], map[]),
    Unrestricted, {}, map[], [LIST], false)

  /** The first page, all three entries read. */
  function FirstPage(): Snapshot {
    Initial(UNEVEN).(frontier := [], active := Some(0), cursor := 3, pending := LIST, pendingExhausts := true, expanded := [0])
  }

  function FirstCandidate(): Candidate {
    CandidateFor(UNEVEN, LIST[0], 0, 0, 0)
  }

  lemma FirstPageRead(env: Env)
    requires env == UNEVEN
    ensures env.Expansion(0) == LIST
    ensures Paged(env, Chosen(env, Initial(env)), 3) == FirstPage()
  {
    assert env.adjacency[0] == LIST;
  }

  lemma FirstGathered(env: Env)
    requires env == UNEVEN
    ensures GatherPage(env, FirstPage(), 6) == Filled(1, [FirstCandidate()])
  {
    var cs := [FirstCandidate()];
    assert EntryKeyBytes(env, LIST[0]) == 6 && EntryKeyBytes(env, LIST[1]) == 1;
    assert Gather(env, LIST, 1, 1, 6, cs, 0, 0, 6) == Filled(1, cs);
    assert [] + [FirstCandidate()] == cs;
  }

  /** The one candidate that fits has been judged visible; two entries stay pending. */
  function LeftOver(): Snapshot {
    var t := UNVISITED.Grow(0, 0, 0, UNTYPED).Grow(1, 1, 0, 0);
    FirstPage().(tree := t, pending := LIST[1..], nextSequence := 1, charged := 1, offered := [FirstCandidate()])
  }

  lemma FirstAccepted(limits: BfsCandidateLimits)
    requires limits == BfsCandidateLimits(3, 6)
    ensures AcceptableBatch([FirstCandidate()], limits)
  {
    KeyBytesAppend([], FirstCandidate());
    assert [] + [FirstCandidate()] == [FirstCandidate()];
    assert FirstCandidate().KeyBytes() == 6;
  }

  lemma FirstCalled(env: Env, limits: BfsCandidateLimits)
    requires env == UNEVEN && limits == BfsCandidateLimits(3, 6)
    ensures Coherent(env, Initial(env)) && Initial(env).phase.NeedCandidates? && !CallFails(env, Initial(env), limits)
    ensures Called(env, Initial(env), limits) == AfterBatch(FirstPage(), Filled(1, [FirstCandidate()]))
  {
    InitialIsSound(env);
    FirstPageRead(env);
    FirstGathered(env);
    FirstAccepted(limits);
    CalledByPage(env, Initial(env), limits, FirstPage(), Filled(1, [FirstCandidate()]));
  }

  lemma CalledByPage(env: Env, m: Snapshot, limits: BfsCandidateLimits, p: Snapshot, g: Collection)
    requires Coherent(env, m) && m.phase.NeedCandidates? && HasWork(m) && ValidLimits(limits)
    requires p == PageFor(env, m, limits.maxCandidates) && p.active.Some?
    requires g == GatherPage(env, p, limits.maxKeyBytes) && g.Filled? && AcceptableBatch(g.candidates, limits)
    ensures !CallFails(env, m, limits) && Called(env, m, limits) == AfterBatch(p, g)
  {
  }

  lemma FirstJudged(env: Env, c: Snapshot)
    requires env == UNEVEN && c == AfterBatch(FirstPage(), Filled(1, [FirstCandidate()]))
    ensures c.phase.NeedVisibility? && c.offered == [FirstCandidate()]
    ensures Judged(env, c, c.offered, [Verdict(0, true, true)]) == LeftOver()
  {
    var v := Verdict(0, true, true);
    var judged := Judge(env, c.Now(), FirstCandidate(), v);
    assert NodeAdmissible(env, 1);
    assert judged == State([], LeftOver().tree, Open);
    assert JudgeAll(env, c.Now(), c.offered, [v]) == JudgeAll(env, judged, [], []);
  }

  /** With the two entries pending, the limit decides. */
  lemma LeftOverRefused(env: Env, limits: BfsCandidateLimits)
    requires env == UNEVEN && Coherent(env, LeftOver()) && ValidLimits(limits) && limits.maxKeyBytes == 6
    ensures CallFails(env, LeftOver(), limits) <==> limits.maxCandidates < 2
  {
    LeftOverFits(env, LeftOver().pending);
    LeftOverPage(env, LeftOver(), limits);
    RefusalExact(env, LeftOver(), limits);
  }

  lemma LeftOverFits(env: Env, page: seq<Neighbor>)
    requires env == UNEVEN && page == LIST[1..]
    ensures Presentable(env, page, 6) && FitEnd(env, page, 0, 0, 6) == 2
    ensures |Kept(env.config.edgeTypeFilter, page[..2])| == 2
  {
    assert page == [LIST[1], LIST[2]];
    assert EntryKeyBytes(env, LIST[1]) == 1 && EntryKeyBytes(env, LIST[2]) == 1;
    assert page[..2][..1] == [LIST[1]] && [LIST[1]][..0] == [];
    assert Kept(All, [LIST[1]]) == [LIST[1]];
  }

  /** A machine with entries pending works on them. */
  lemma LeftOverPage(env: Env, m: Snapshot, limits: BfsCandidateLimits)
    requires Coherent(env, m) && m.phase.NeedCandidates? && ValidLimits(limits) && m.active.Some? && m.pending != []
    ensures CallFails(env, m, limits) <==> Refuses(env, m, limits)
  {
    assert PageFor(env, m, limits.maxCandidates) == m;
  }

  lemma ReachedThen(env: Env, events: seq<Event>, e: Event)
    requires Reached(env, events).Some?
    ensures Reached(env, events + [e]) == Step(env, Reached(env, events).value, e)
  {
    assert (events + [e])[..|events|] == events;
  }

  lemma ReachedByCall(env: Env, events: seq<Event>, m: Snapshot, limits: BfsCandidateLimits, c: Snapshot)
    requires Reached(env, events) == Some(m) && m.phase.NeedCandidates? && ValidLimits(limits)
    requires !CallFails(env, m, limits) && c == Called(env, m, limits)
    ensures Reached(env, events + [Ask(limits)]) == Some(c)
  {
    ReachedThen(env, events, Ask(limits));
  }

  lemma ReachedByVerdicts(env: Env, events: seq<Event>, m: Snapshot, vs: seq<Verdict>, n: Snapshot)
    requires Reached(env, events) == Some(m) && m.phase.NeedVisibility? && |vs| == |m.offered|
    requires n == Judged(env, m, m.offered, vs)
    ensures Reached(env, events + [Answer(vs)]) == Some(n)
  {
    ReachedThen(env, events, Answer(vs));
  }

  lemma LeftOverReached(env: Env, limits: BfsCandidateLimits, vs: seq<Verdict>, c: Snapshot)
    requires env == UNEVEN && limits == BfsCandidateLimits(3, 6) && vs == [Verdict(0, true, true)]
    requires c == AfterBatch(FirstPage(), Filled(1, [FirstCandidate()]))
    ensures Reached(env, [] + [Ask(limits)] + [Answer(vs)]) == Some(LeftOver())
  {
    FirstCalled(env, limits);
    ReachedByCall(env, [], Initial(env), limits, c);
    FirstJudged(env, c);
    ReachedByVerdicts(env, [] + [Ask(limits)], c, vs, LeftOver());
  }

  lemma AskedAgain(env: Env, run: seq<Event>, limits: BfsCandidateLimits)
    requires env == UNEVEN && Reached(env, run) == Some(LeftOver()) && ValidLimits(limits) && limits.maxKeyBytes == 6
    ensures Reached(env, run + [Ask(limits)]) == None <==> limits.maxCandidates < 2
  {
    LeftOverRefused(env, limits);
    ReachedThen(env, run, Ask(limits));
  }

  /** Shrinking the limit can fail a run: the first of three keys fills the byte budget, so two short
      ones stay pending, and a call that may hold only one candidate is then refused though every key
      fits. */
  lemma ShrunkLimitFails() returns (run: seq<Event>)
    ensures UNEVEN.WellFormed()
    ensures run == [Ask(BfsCandidateLimits(3, 6)), Answer([Verdict(0, true, true)])] && Reached(UNEVEN, run).Some?
    ensures Reached(UNEVEN, run + [Ask(BfsCandidateLimits(1, 6))]) == None
    ensures Reached(UNEVEN, run + [Ask(BfsCandidateLimits(2, 6))]) != None
  {
    var env: Env := UNEVEN;
    run := [Ask(BfsCandidateLimits(3, 6)), Answer([Verdict(0, true, true)])];
    LeftOverReached(env, run[0].limits, run[1].verdicts, AfterBatch(FirstPage(), Filled(1, [FirstCandidate()])));
    assert run == [] + [run[0]] + [run[1]];
    AskedAgain(env, run, BfsCandidateLimits(1, 6));
    AskedAgain(env, run, BfsCandidateLimits(2, 6));
  }
}
