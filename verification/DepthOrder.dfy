/** In which order nodes are opened, by queue position and list index: depth first finishes everything
    the newest node leads to before it returns to an older one, breadth first opens the oldest. */
module DepthOrder {
  import opened Topology
  import opened Traversal

  /** Offer the last `k` entries still due of a list, from its end down to its start. */
  function OfferDown(env: Inputs, s: State, u: nat, d: int, list: seq<Neighbor>, k: nat): State
    requires k <= |list|
    decreases k
  {
    if k == 0 then s else OfferDown(env, Offer(env, s, u, d, list[k - 1]), u, d, list, k - 1)
  }

  /** Offer the entries of a list from index `i` up. */
  function OfferUp(env: Inputs, s: State, u: nat, d: int, list: seq<Neighbor>, i: nat): State
    requires i <= |list|
    decreases |list| - i
  {
    if i == |list| then s else OfferUp(env, Offer(env, s, u, d, list[i]), u, d, list, i + 1)
  }

  /** The newest queued node taken off and its own list offered from the last entry to the first. */
  function NewestOpened(env: Inputs, s: State): State
    requires s.frontier != []
  {
    var top := |s.frontier| - 1;
    var u, popped := s.frontier[top], s.(frontier := s.frontier[..top]);
    var d := s.tree.DepthOf(u);
    if d >= env.config.maxDepth then popped
    else OfferDown(env, popped, u, d, env.Outgoing(u), |env.Outgoing(u)|)
  }

  /** The oldest queued node taken off and its own list offered from the first entry to the last. */
  function OldestOpened(env: Inputs, s: State): State
    requires s.frontier != []
  {
    var u, popped := s.frontier[0], s.(frontier := s.frontier[1..]);
    var d := s.tree.DepthOf(u);
    if d >= env.config.maxDepth then popped
    else OfferUp(env, popped, u, d, env.Outgoing(u), 0)
  }

  lemma {:induction false} DownIsReversed(env: Env, s: State, u: nat, d: int, list: seq<Neighbor>, k: nat)
    requires k <= |list|
    ensures OfferDown(env, s, u, d, list, k) == OfferAll(env, s, u, d, Reversed(list)[|list| - k..])
    decreases k
  {
    var rest := Reversed(list)[|list| - k..];
    if k > 0 {
      assert rest[0] == list[k - 1] && rest[1..] == Reversed(list)[|list| - (k - 1)..];
      DownIsReversed(env, Offer(env, s, u, d, list[k - 1]), u, d, list, k - 1);
    }
  }

  lemma {:induction false} UpIsOffered(env: Env, s: State, u: nat, d: int, list: seq<Neighbor>, i: nat)
    requires i <= |list|
    ensures OfferUp(env, s, u, d, list, i) == OfferAll(env, s, u, d, list[i..])
    decreases |list| - i
  {
    if i < |list| {
      assert list[i..][0] == list[i] && list[i..][1..] == list[i + 1..];
      UpIsOffered(env, Offer(env, s, u, d, list[i]), u, d, list, i + 1);
    }
  }

  /** Offering only appends to the queue. */
  lemma {:induction false} OfferAllAppends(env: Env, s: State, u: nat, d: int, ns: seq<Neighbor>)
    ensures s.frontier <= OfferAll(env, s, u, d, ns).frontier
    decreases |ns|
  {
    if ns != [] {
      OfferAllAppends(env, Offer(env, s, u, d, ns[0]), u, d, ns[1..]);
    }
  }

  /** Depth first expands by opening the newest node. */
  lemma DepthFirstOpensNewest(env: Env, s: State)
    requires env.depthFirst && s.frontier != []
    ensures Expand(env, s) == NewestOpened(env, s)
    ensures s.frontier[..|s.frontier| - 1] <= NewestOpened(env, s).frontier
  {
    var top := |s.frontier| - 1;
    var u, popped := s.frontier[top], s.(frontier := s.frontier[..top]);
    var list := env.Outgoing(u);
    DownIsReversed(env, popped, u, s.tree.DepthOf(u), list, |list|);
    assert Reversed(list)[0..] == Reversed(list);
    OfferAllAppends(env, popped, u, s.tree.DepthOf(u), Reversed(list));
  }

  /** Depth-first search of everything queued above position `below`: open the newest node until the
      queue is back to that length. A cap or a failure stops it. */
  function Finished(env: Env, s: State, below: nat): (t: State)
    requires env.depthFirst && s.tree.visited <= Nodes(env) && below <= |s.frontier|
    ensures t.tree.visited <= Nodes(env)
    ensures t.status == Open ==> t.frontier == s.frontier[..below]
    decreases Nodes(env) - s.tree.visited, |s.frontier|
  {
    if s.status != Open then s
    else if |s.frontier| == below then
      assert s.frontier[..below] == s.frontier;
      s
    else
      OpeningProgresses(env, s);
      Finished(env, NewestOpened(env, s), below)
  }

  lemma OpeningProgresses(env: Env, s: State)
    requires env.depthFirst && s.tree.visited <= Nodes(env) && s.frontier != []
    ensures var t := NewestOpened(env, s);
            && s.tree.visited <= t.tree.visited <= Nodes(env) && |s.frontier| - 1 <= |t.frontier|
            && s.frontier[..|s.frontier| - 1] <= t.frontier
            && (|| Nodes(env) - t.tree.visited < Nodes(env) - s.tree.visited
                || (t.tree.visited == s.tree.visited && |t.frontier| < |s.frontier|))
  {
    DepthFirstOpensNewest(env, s);
    ExpandProgresses(env, s);
    var (current, rest) := Next(env.depthFirst, s.frontier);
    OfferAllProgresses(env, s.(frontier := rest), current, s.tree.DepthOf(current), env.Expansion(current));
  }

  /** The search is recursive: it finishes what lies above any higher position first, then the rest. In
      particular it finishes all that the newest node led to before it opens an older one. */
  lemma {:induction false} SearchNests(env: Env, s: State, mid: nat, below: nat)
    requires env.depthFirst && s.tree.visited <= Nodes(env) && below <= mid <= |s.frontier|
    ensures var own := Finished(env, s, mid);
            Finished(env, s, below) == if own.status == Open then Finished(env, own, below) else own
    decreases Nodes(env) - s.tree.visited, |s.frontier|
  {
    if s.status == Open && |s.frontier| > mid {
      OpeningProgresses(env, s);
      SearchNests(env, NewestOpened(env, s), mid, below);
    }
  }

  /** A depth-first run finishes everything queued above any position, leaving what is below it untouched
      and in place, and only then resumes there; a cap or a failure on the way is the end. */
  lemma {:induction false} NewestFirst(env: Env, s: State, below: nat)
    requires env.depthFirst && s.tree.visited <= Nodes(env) && below <= |s.frontier|
    ensures Run(env, s) == Run(env, Finished(env, s, below))
    decreases Nodes(env) - s.tree.visited, |s.frontier|
  {
    if s.status == Open && |s.frontier| > below {
      OpeningProgresses(env, s);
      DepthFirstOpensNewest(env, s);
      NewestFirst(env, NewestOpened(env, s), below);
    }
  }

  /** With F below and G above in the queue, the run is G's search and then, if nothing stopped it, F's. */
  lemma DepthFirstFinishesNewest(env: Env, s: State, older: seq<nat>, newer: seq<nat>)
    requires env.depthFirst && s.tree.visited <= Nodes(env) && s.frontier == older + newer
    ensures var t := Finished(env, s, |older|);
            if t.status == Open then t.frontier == older && Run(env, s) == Run(env, t) else Run(env, s) == t
  {
    NewestFirst(env, s, |older|);
  }

  /** The depth-first answer is the recursive search's. */
  lemma AnswerIsSearch(env: Env)
    requires env.depthFirst
    ensures Start(env).tree.visited <= Nodes(env)
    ensures Answer(env) == Report(Finished(env, Start(env), 0))
  {
    NewestFirst(env, Start(env), 0);
  }

  /** Breadth-first search: open the oldest queued node until the queue is empty or something stops it. */
  function Swept(env: Env, s: State): State
    requires !env.depthFirst && s.tree.visited <= Nodes(env)
    decreases Nodes(env) - s.tree.visited, |s.frontier|
  {
    if s.status != Open || s.frontier == [] then s
    else
      OldestProgresses(env, s);
      Swept(env, OldestOpened(env, s))
  }

  lemma OldestProgresses(env: Env, s: State)
    requires !env.depthFirst && s.status == Open && s.frontier != [] && s.tree.visited <= Nodes(env)
    ensures Expand(env, s) == OldestOpened(env, s)
    ensures var t := OldestOpened(env, s);
            && t.tree.visited <= Nodes(env) && s.frontier[1..] <= t.frontier
            && (|| Nodes(env) - t.tree.visited < Nodes(env) - s.tree.visited
                || (t.tree.visited == s.tree.visited && |t.frontier| < |s.frontier|))
  {
    var u, popped := s.frontier[0], s.(frontier := s.frontier[1..]);
    var list := env.Outgoing(u);
    ExpandProgresses(env, s);
    UpIsOffered(env, popped, u, s.tree.DepthOf(u), list, 0);
    assert list[0..] == list;
    OfferAllAppends(env, popped, u, s.tree.DepthOf(u), list);
  }

  lemma {:induction false} RunIsSweep(env: Env, s: State)
    requires !env.depthFirst && s.tree.visited <= Nodes(env)
    ensures Run(env, s) == Swept(env, s)
    decreases Nodes(env) - s.tree.visited, |s.frontier|
  {
    if s.status == Open && s.frontier != [] {
      OldestProgresses(env, s);
      RunIsSweep(env, OldestOpened(env, s));
    }
  }

  /** The breadth-first answer is the oldest-first search's. */
  lemma AnswerIsSweep(env: Env)
    requires !env.depthFirst
    ensures Start(env).tree.visited <= Nodes(env)
    ensures Answer(env) == Report(Swept(env, Start(env)))
  {
    RunIsSweep(env, Start(env));
  }
}
