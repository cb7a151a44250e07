/** The circuit breakers: how far past a cap a run can get, and why a batch sized by the remaining
    budget never holds a candidate past the cap. */
module Breakers {
  import opened Prelude
  import opened Topology
  import opened Traversal
  import opened Candidates

  predicate WithinCaps(config: BfsConfig, s: State) {
    |s.tree.visited| <= Max(2, config.maxNodes) && |s.frontier| <= Max(1, config.maxFrontier)
  }

  /** While a node is being expanded, the next admission still has room under both caps, except
      that the seed and one queued node are always allowed. */
  predicate HasSlack(config: BfsConfig, s: State) {
    s.status == Open ==>
      && (|s.tree.visited| <= 1 || |s.tree.visited| < config.maxNodes)
      && (|s.frontier| == 0 || |s.frontier| < config.maxFrontier)
  }

  /** Between expansions the node about to be taken need not be counted. */
  predicate HasSlackBetween(config: BfsConfig, s: State) {
    s.status == Open ==>
      && (|s.tree.visited| <= 1 || |s.tree.visited| < config.maxNodes)
      && (|s.frontier| <= 1 || |s.frontier| < config.maxFrontier)
  }

  lemma OfferKeepsCaps(env: Env, s: State, parent: nat, d: int, n: Neighbor)
    requires WithinCaps(env.config, s) && HasSlack(env.config, s)
    ensures var t := Offer(env, s, parent, d, n);
            WithinCaps(env.config, t) && HasSlack(env.config, t)
  {
    if s.status == Open && CandidateAllowed(env, n, s.tree.visited) == Ok(true) {
      assert n.target !in s.tree.visited;
      assert |s.tree.visited + {n.target}| == |s.tree.visited| + 1;
    }
  }

  lemma {:induction false} OfferAllKeepsCaps(env: Env, s: State, parent: nat, d: int, ns: seq<Neighbor>)
    requires WithinCaps(env.config, s) && HasSlack(env.config, s)
    ensures var t := OfferAll(env, s, parent, d, ns);
            WithinCaps(env.config, t) && HasSlack(env.config, t)
    decreases |ns|
  {
    if ns != [] {
      OfferKeepsCaps(env, s, parent, d, ns[0]);
      OfferAllKeepsCaps(env, Offer(env, s, parent, d, ns[0]), parent, d, ns[1..]);
    }
  }

  /** The state after a number of expansions; a finished run stays where it is. */
  function After(env: Env, expansions: nat): State {
    if expansions == 0 then Start(env)
    else
      var s := After(env, expansions - 1);
      if s.status != Open || s.frontier == [] then s else Expand(env, s)
  }

  /** The state inside the expansion that follows, with `offered` neighbours handled. */
  function Inside(env: Env, expansions: nat, offered: nat): State
    requires After(env, expansions).frontier != []
    requires offered <= |env.Expansion(Next(env.depthFirst, After(env, expansions).frontier).0)|
  {
    var s := After(env, expansions);
    var (current, rest) := Next(env.depthFirst, s.frontier);
    OfferAll(env, s.(frontier := rest), current, s.tree.DepthOf(current), env.Expansion(current)[..offered])
  }

  /** In every state a run passes through between expansions, both caps bound what has accumulated. */
  lemma {:induction false} CapsBetween(env: Env, expansions: nat)
    ensures var s := After(env, expansions);
            WithinCaps(env.config, s) && HasSlackBetween(env.config, s)
  {
    if expansions > 0 {
      var s := After(env, expansions - 1);
      CapsBetween(env, expansions - 1);
      if s.status == Open && s.frontier != [] {
        var (current, rest) := Next(env.depthFirst, s.frontier);
        OfferAllKeepsCaps(env, s.(frontier := rest), current, s.tree.DepthOf(current), env.Expansion(current));
      }
    }
  }

  /** ... and likewise after each single neighbour inside an expansion. */
  lemma CapsInside(env: Env, expansions: nat, offered: nat)
    requires After(env, expansions).status == Open && After(env, expansions).frontier != []
    requires offered <= |env.Expansion(Next(env.depthFirst, After(env, expansions).frontier).0)|
    ensures WithinCaps(env.config, Inside(env, expansions, offered))
  {
    var s := After(env, expansions);
    var (current, rest) := Next(env.depthFirst, s.frontier);
    CapsBetween(env, expansions);
    OfferAllKeepsCaps(env, s.(frontier := rest), current, s.tree.DepthOf(current), env.Expansion(current)[..offered]);
  }

  /** Enough expansions always reach the run's final state, so the bounds hold of every answer. */
  lemma {:induction false} RunIsAfter(env: Env, done: nat) returns (total: nat)
    requires After(env, done).tree.visited <= Nodes(env)
    ensures total >= done && After(env, total) == Run(env, After(env, done))
    decreases Nodes(env) - After(env, done).tree.visited, |After(env, done).frontier|
  {
    var s := After(env, done);
    if s.status != Open || s.frontier == [] {
      total := done;
    } else {
      ExpandProgresses(env, s);
      assert After(env, done + 1) == Expand(env, s);
      total := RunIsAfter(env, done + 1);
    }
  }

  lemma AnswerWithinCaps(env: Env)
    requires Answer(env).Ok?
    ensures |Answer(env).value.tree.visited| <= Max(2, env.config.maxNodes)
  {
    var total := RunIsAfter(env, 0);
    CapsBetween(env, total);
  }

  /** How many candidates to resolve next: the configured number, but no more than the admissions
      left before either cap, and at least one. */
  function NextCandidateLimit(config: BfsConfig, configured: nat, nodesVisited: nat, queued: nat): nat {
    var remainingNodes := Max(SaturatingSub(config.maxNodes, nodesVisited), 1);
    var remainingFrontier := Max(SaturatingSub(config.maxFrontier, queued), 1);
    Max(Min(Min(configured, remainingNodes), remainingFrontier), 1)
  }

  /** The next limit is the largest that is no more than configured and leaves room for every candidate
      under both caps, and one if there is none. */
  lemma LimitIsLargest(config: BfsConfig, configured: nat, nodesVisited: nat, queued: nat, limit: nat)
    requires limit == NextCandidateLimit(config, configured, nodesVisited, queued)
    ensures limit >= 1
    ensures limit > 1 ==> limit <= configured && nodesVisited + limit <= config.maxNodes && queued + limit <= config.maxFrontier
    ensures limit < configured ==> config.maxNodes <= nodesVisited + limit || config.maxFrontier <= queued + limit
  {
  }

  /** Each offer admits at most one node, and only reaching a cap caps. */
  lemma {:induction false} OfferAllGrowth(env: Env, s: State, parent: nat, d: int, ns: seq<Neighbor>)
    requires s.status == Open
    ensures var t := OfferAll(env, s, parent, d, ns);
            && |t.tree.visited| <= |s.tree.visited| + |ns|
            && |t.frontier| <= |s.frontier| + |ns|
            && (t.status == Capped ==>
                  || (env.config.maxNodes <= |t.tree.visited| && ns != [])
                  || (env.config.maxFrontier <= |t.frontier| && ns != []))
    decreases |ns|
  {
    if ns != [] {
      var t := Offer(env, s, parent, d, ns[0]);
      if t.status == Open {
        OfferAllGrowth(env, t, parent, d, ns[1..]);
      } else {
        OfferAllClosed(env, t, parent, d, ns[1..]);
      }
    }
  }

  /** Of a batch no longer than the next candidate limit, no cap fires before the last entry the
      scope itself would admit. */
  lemma OfferCapOnlyAtLast(env: Env, s: State, configured: nat, parent: nat, d: int, ns: seq<Neighbor>, used: nat)
    requires s.status == Open && used < |ns|
    requires |ns| <= NextCandidateLimit(env.config, configured, |s.tree.visited|, |s.frontier|)
    ensures OfferAll(env, s, parent, d, ns[..used]).status != Capped
  {
    OfferAllGrowth(env, s, parent, d, ns[..used]);
  }

  /** Each verdict admits at most one node, and only reaching a cap caps. */
  lemma {:induction false} JudgeAllGrowth(env: Env, s: State, cs: seq<Candidate>, vs: seq<Verdict>)
    requires s.status == Open && |cs| == |vs|
    ensures var t := JudgeAll(env, s, cs, vs);
            && t.status != Failed
            && |t.tree.visited| <= |s.tree.visited| + |cs|
            && |t.frontier| <= |s.frontier| + |cs|
            && (t.status == Capped ==>
                  || (env.config.maxNodes <= |t.tree.visited| && cs != [])
                  || (env.config.maxFrontier <= |t.frontier| && cs != []))
    decreases |cs|
  {
    if cs != [] {
      var t := Judge(env, s, cs[0], vs[0]);
      if t.status == Open {
        JudgeAllGrowth(env, t, cs[1..], vs[1..]);
      } else {
        JudgeAllClosed(env, t, cs[1..], vs[1..]);
      }
    }
  }

  /** In a batch no longer than the next candidate limit, whatever the verdicts, a cap can fire only
      at the last candidate: no verdict is ever resolved and then left unused. */
  lemma CapOnlyAtLast(env: Env, s: State, configured: nat, cs: seq<Candidate>, vs: seq<Verdict>, used: nat)
    requires s.status == Open && |cs| == |vs| && used < |cs|
    requires |cs| <= NextCandidateLimit(env.config, configured, |s.tree.visited|, |s.frontier|)
    ensures JudgeAll(env, s, cs[..used], vs[..used]).status == Open
  {
    JudgeAllGrowth(env, s, cs[..used], vs[..used]);
  }

  lemma JudgeKeepsCaps(env: Env, s: State, c: Candidate, v: Verdict)
    requires WithinCaps(env.config, s) && HasSlack(env.config, s)
    ensures var t := Judge(env, s, c, v);
            WithinCaps(env.config, t) && HasSlack(env.config, t)
  {
    if c.targetNode !in s.tree.visited {
      assert |s.tree.visited + {c.targetNode}| == |s.tree.visited| + 1;
    }
  }

  /** Judging keeps both bounds, whatever the verdicts. */
  lemma {:induction false} JudgeAllKeepsCaps(env: Env, s: State, cs: seq<Candidate>, vs: seq<Verdict>)
    requires |cs| == |vs| && WithinCaps(env.config, s) && HasSlack(env.config, s)
    ensures var t := JudgeAll(env, s, cs, vs);
            WithinCaps(env.config, t) && HasSlack(env.config, t)
    decreases |cs|
  {
    if cs != [] {
      JudgeKeepsCaps(env, s, cs[0], vs[0]);
      JudgeAllKeepsCaps(env, Judge(env, s, cs[0], vs[0]), cs[1..], vs[1..]);
    }
  }
}
