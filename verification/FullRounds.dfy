/** Every failure-free run without joins in which all nodes keep taking their turns settles, whatever else
    happens in between and however stale the replies to it are.
 */
module FullRounds {
  import opened Ring
  import opened Sets
  import opened Wrappers
  import opened NodeLists
  import opened NodeSpec
  import opened ShapeRuns
  import opened StableBase
  import opened Convergence
  import opened Settled
  import opened Settling
  import opened Turns

  // ----- what it means that a node has had its turn -----

  /** Step m is the Rectify of n's Stabilize whose replies are those of step p. */
  ghost predicate IntroducedAt(c: Config, nets: seq<Net>, events: seq<Event>, p: nat, m: nat, n: int)
    requires p < |nets| && m < |events| && n in nets[p].nodes && Target(RoundDecision(c, nets[p], n)).Some?
  {
    && events[m].Act? && events[m].n == Target(RoundDecision(c, nets[p], n)).value.id
    && events[m].action == CommitRectify(nets[p].nodes[n].self, true)
  }

  ghost predicate SentBetween(c: Config, nets: seq<Net>, events: seq<Event>, p: nat, k: nat, n: int)
    requires p < |nets| && k <= |events| && n in nets[p].nodes
  {
    Introduces(c, nets[p], n) ==> exists m: nat :: p <= m < k && IntroducedAt(c, nets, events, p, m, n)
  }

  /** n reads at p, its Rectify is handled after that, and it writes at k; anything may happen in between. */
  ghost predicate TurnAt(c: Config, nets: seq<Net>, events: seq<Event>, p: nat, k: nat, n: int)
    requires p < |nets| && k < |events|
  {
    p <= k && n in nets[p].nodes && events[k] == Round(nets[p], n) && SentBetween(c, nets, events, p, k, n)
  }

  ghost predicate HasTurn(c: Config, nets: seq<Net>, events: seq<Event>, i: nat, j: nat, n: int)
    requires j <= |events| < |nets|
  {
    exists p: nat, k: nat :: i <= p <= k < j && TurnAt(c, nets, events, p, k, n)
  }

  /** Every node has its turn between steps i and j. */
  ghost predicate FullRound(c: Config, nets: seq<Net>, events: seq<Event>, i: nat, j: nat)
    requires j <= |events| < |nets|
  {
    i <= j && forall n :: n in nets[i].nodes ==> HasTurn(c, nets, events, i, j, n)
  }

  /** One full round after the other, the r-th from bounds[r] to bounds[r + 1]. */
  ghost predicate FullRoundsIn(c: Config, nets: seq<Net>, events: seq<Event>, bounds: seq<nat>)
    requires |events| < |nets|
  {
    && |bounds| > 0 && (forall r :: 0 <= r < |bounds| ==> bounds[r] <= |events|)
    && forall r, s :: 0 <= r && s == r + 1 && s < |bounds| ==> FullRound(c, nets, events, bounds[r], bounds[s])
  }

  ghost predicate PlainRun(c: Config, b: int, nets: seq<Net>, events: seq<Event>) {
    GoodClients(c) && IsSmoothRun(c, nets, events) && JoinsNobody(events) && SmoothNet(b, nets[0])
  }

  // ----- stretches without a move -----

  lemma PlainStep(c: Config, b: int, nets: seq<Net>, events: seq<Event>, i: nat)
    requires PlainRun(c, b, nets, events) && i < |events|
    ensures SmoothNet(b, nets[i]) && Smooth(c, nets[i], events[i]) && nets[i + 1] == Effect(c, nets[i], events[i])
    ensures !events[i].JoinNode?
  {
    RunSmooth(c, b, nets, events, i);
  }

  lemma StepOfRun(c: Config, b: int, nets: seq<Net>, events: seq<Event>, i: nat)
    requires PlainRun(c, b, nets, events) && i < |events|
    ensures Progress(b, nets[i], nets[i + 1])
    ensures IdealNet(nets[i]) ==> IdealNet(nets[i + 1])
  {
    PlainStep(c, b, nets, events, i);
    StepProgress(c, b, nets[i], events[i]);
    if IdealNet(nets[i]) {
      IdealRingStays(c, b, nets[i], events[i]);
    }
  }

  lemma {:induction false} ProgressAdds(b: int, nets: seq<Net>, i: nat, j: nat)
    requires i <= j < |nets| && SmoothNet(b, nets[i])
    requires forall k :: i <= k < j ==> Progress(b, nets[k], nets[k + 1])
    ensures Progress(b, nets[i], nets[j])
    decreases j
  {
    if i == j {
      ProgressNone(b, nets[i]);
    } else {
      ProgressAdds(b, nets, i, j - 1);
      assert Progress(b, nets[j - 1], nets[j - 1 + 1]);
      ProgressOn(b, nets[i], nets[j - 1], nets[j]);
    }
  }

  lemma RunProgress(c: Config, b: int, nets: seq<Net>, events: seq<Event>, i: nat, j: nat)
    requires PlainRun(c, b, nets, events) && i <= j <= |events|
    ensures SmoothNet(b, nets[i]) && Progress(b, nets[i], nets[j])
  {
    RunSmooth(c, b, nets, events, i);
    forall k | i <= k < j ensures Progress(b, nets[k], nets[k + 1]) {
      StepOfRun(c, b, nets, events, k);
    }
    ProgressAdds(b, nets, i, j);
  }

  /** If the rank is the same at both ends of a stretch, no pointer has moved within it. */
  lemma SameRankAlike(c: Config, b: int, nets: seq<Net>, events: seq<Event>, i: nat, k: nat, j: nat)
    requires PlainRun(c, b, nets, events) && i <= k <= j <= |events| && Rank(nets[i]) == Rank(nets[j])
    ensures Alike(nets[i], nets[k])
  {
    RunProgress(c, b, nets, events, i, k);
    RunProgress(c, b, nets, events, k, j);
  }

  lemma SameRankBetween(c: Config, b: int, nets: seq<Net>, events: seq<Event>, i: nat, k: nat, l: nat, j: nat)
    requires PlainRun(c, b, nets, events) && i <= k <= j && i <= l <= j && j <= |events| && Rank(nets[i]) == Rank(nets[j])
    ensures Alike(nets[k], nets[l])
  {
    SameRankAlike(c, b, nets, events, i, k, j);
    SameRankAlike(c, b, nets, events, i, l, j);
    AlikeBack(nets[i], nets[k]);
    AlikeChain(nets[k], nets[i], nets[l]);
  }

  // ----- a turn that moved nothing was idle -----

  /** Which successor a decision writes does not depend on when it is written. */
  lemma CommitSuccessor(st: NodeState, st': NodeState, snap: int, opts: Options, d: Decision)
    requires st.self == st'.self
    ensures Commit(st, snap, opts, d).succ.id == Commit(st', snap, opts, d).succ.id
  {
  }

  /** Nor whether a Rectify moves the predecessor, as long as the pointers are the same. */
  lemma RectifyMovesLater(st: NodeState, st': NodeState, opts: Options, sender: NodeInfo, seenPred: Option<NodeInfo>)
    requires SamePointers(st, st') && st.self == st'.self && !RectifyRefuses(st, sender)
    requires SamePointers(st', RectifyCommit(st', opts, sender, seenPred, true))
    ensures SamePointers(Rectified(st, opts, sender), st)
  {
  }

  lemma WriteWasIdle(c: Config, b: int, nets: seq<Net>, events: seq<Event>, p: nat, k: nat, n: int)
    requires PlainRun(c, b, nets, events) && p <= k < |events| && n in nets[p].nodes && events[k] == Round(nets[p], n)
    requires Alike(nets[p], nets[k]) && Alike(nets[p], nets[k + 1])
    ensures Commit(nets[p].nodes[n], nets[p].nodes[n].succ.id, c.opts(n), RoundDecision(c, nets[p], n)).succ.id
         == nets[p].nodes[n].succ.id
  {
    PlainStep(c, b, nets, events, k);
    AlikeAt(nets[p], nets[k], n);
    AlikeAt(nets[p], nets[k + 1], n);
    RoundEffect(c, nets[p], nets[k], n);
    CommitSuccessor(nets[p].nodes[n], nets[k].nodes[n], nets[p].nodes[n].succ.id, c.opts(n), RoundDecision(c, nets[p], n));
  }

  lemma RectifyEffect(c: Config, net: Net, t: int, snap: NodeState, candidate: NodeInfo)
    requires Enabled(c, net, Act(t, snap, CommitRectify(candidate, true)))
    ensures t in net.nodes
    ensures Effect(c, net, Act(t, snap, CommitRectify(candidate, true)))
         == Record(net, t, RectifyCommit(net.nodes[t], c.opts(t), candidate, snap.pred, true))
  {
  }

  lemma RectifyWasIdle(c: Config, b: int, nets: seq<Net>, events: seq<Event>, p: nat, m: nat, n: int)
    requires PlainRun(c, b, nets, events) && p <= m < |events| && n in nets[p].nodes && Introduces(c, nets[p], n)
    requires IntroducedAt(c, nets, events, p, m, n)
    requires Alike(nets[p], nets[m]) && Alike(nets[m], nets[m + 1])
    ensures var t := Target(RoundDecision(c, nets[p], n)).value.id;
            SamePointers(Rectified(nets[p].nodes[t], c.opts(t), nets[p].nodes[n].self), nets[p].nodes[t])
  {
    var t, sender := Target(RoundDecision(c, nets[p], n)).value.id, nets[p].nodes[n].self;
    PlainStep(c, b, nets, events, m);
    AlikeAt(nets[p], nets[m], t);
    AlikeAt(nets[m], nets[m + 1], t);
    RectifyEffect(c, nets[m], t, events[m].snap, sender);
    RectifyMovesLater(nets[p].nodes[t], nets[m].nodes[t], c.opts(t), sender, events[m].snap.pred);
  }

  lemma TurnWasIdle(c: Config, b: int, nets: seq<Net>, events: seq<Event>, i: nat, j: nat, p: nat, k: nat, n: int)
    requires PlainRun(c, b, nets, events) && i <= p <= k < j <= |events| && Rank(nets[i]) == Rank(nets[j])
    requires TurnAt(c, nets, events, p, k, n)
    ensures RoundIdle(c, nets[p], n)
  {
    SameRankBetween(c, b, nets, events, i, p, k, j);
    SameRankBetween(c, b, nets, events, i, p, k + 1, j);
    WriteWasIdle(c, b, nets, events, p, k, n);
    if Introduces(c, nets[p], n) {
      var m: nat :| p <= m < k && IntroducedAt(c, nets, events, p, m, n);
      SameRankBetween(c, b, nets, events, i, p, m, j);
      SameRankBetween(c, b, nets, events, i, m, m + 1, j);
      RectifyWasIdle(c, b, nets, events, p, m, n);
    }
  }

  lemma IdleAtStart(c: Config, b: int, nets: seq<Net>, events: seq<Event>, i: nat, j: nat, n: int)
    requires PlainRun(c, b, nets, events) && i <= j <= |events| && Rank(nets[i]) == Rank(nets[j])
    requires n in nets[i].nodes && HasTurn(c, nets, events, i, j, n)
    ensures RoundIdle(c, nets[i], n)
  {
    var p: nat, k: nat :| i <= p <= k < j && TurnAt(c, nets, events, p, k, n);
    TurnWasIdle(c, b, nets, events, i, j, p, k, n);
    SameRankBetween(c, b, nets, events, i, p, i, j);
    RunSmooth(c, b, nets, events, p);
    RunSmooth(c, b, nets, events, i);
    NodeOf(b, nets[p], n);
    RoundIdleIff(c, b, nets[p], n);
    NodeOf(b, nets[p], nets[p].nodes[n].succ.id);
    AlikeIdle(nets[p], nets[i], n);
    RoundIdleIff(c, b, nets[i], n);
  }

  /** A full round that has not lowered the rank started from a settled network. */
  lemma FullRoundIdle(c: Config, b: int, nets: seq<Net>, events: seq<Event>, i: nat, j: nat)
    requires PlainRun(c, b, nets, events) && j <= |events| && FullRound(c, nets, events, i, j) && Rank(nets[i]) == Rank(nets[j])
    ensures Quiet(c, nets[i])
  {
    forall n | n in nets[i].nodes ensures RoundIdle(c, nets[i], n) {
      IdleAtStart(c, b, nets, events, i, j, n);
    }
  }

  // ----- enough full rounds -----

  lemma {:induction false} SomeRoundIdle(c: Config, b: int, nets: seq<Net>, events: seq<Event>, bounds: seq<nat>, r: nat) returns (q: nat)
    requires PlainRun(c, b, nets, events) && FullRoundsIn(c, nets, events, bounds) && r < |bounds|
    requires Rank(nets[bounds[r]]) < |bounds| - 1 - r
    ensures r <= q < |bounds| - 1 && Quiet(c, nets[bounds[q]])
    decreases |bounds| - r
  {
    var i, j := bounds[r], bounds[r + 1];
    assert FullRound(c, nets, events, i, j);
    RunProgress(c, b, nets, events, i, j);
    if Rank(nets[i]) == Rank(nets[j]) {
      FullRoundIdle(c, b, nets, events, i, j);
      q := r;
    } else {
      q := SomeRoundIdle(c, b, nets, events, bounds, r + 1);
    }
  }

  /** More full rounds than the rank is high: some round starts from a settled network. */
  lemma FullRoundsSettle(c: Config, b: int, nets: seq<Net>, events: seq<Event>, bounds: seq<nat>) returns (q: nat)
    requires PlainRun(c, b, nets, events) && FullRoundsIn(c, nets, events, bounds)
    requires |bounds| - 1 > Rank(nets[bounds[0]])
    ensures q < |bounds| - 1 && Quiet(c, nets[bounds[q]])
    ensures Rank(nets[bounds[0]]) <= |nets[0].nodes.Keys| * (2 * |nets[0].nodes.Keys|)
  {
    q := SomeRoundIdle(c, b, nets, events, bounds, 0);
    RunProgress(c, b, nets, events, 0, bounds[0]);
    RankBound(nets[bounds[0]]);
  }

  lemma IdealStaysInRun(c: Config, b: int, nets: seq<Net>, events: seq<Event>, i: nat, j: nat)
    requires PlainRun(c, b, nets, events) && i <= j <= |events| && IdealNet(nets[i])
    ensures IdealNet(nets[j])
  {
    for k := i to j
      invariant IdealNet(nets[k])
    {
      StepOfRun(c, b, nets, events, k);
    }
  }

  /** Every failure-free run of physical nodes without joins that contains more full rounds than the rank is
      high, and the rank is at most quadratic in the number of members, ends in the ideal ring, whatever
      steps interleave. */
  lemma EveryFairRunReachesIdealRing(c: Config, b: int, nets: seq<Net>, events: seq<Event>, bounds: seq<nat>)
    requires PlainRun(c, b, nets, events) && FullRoundsIn(c, nets, events, bounds) && AllPhysical(nets[0])
    requires |bounds| - 1 > Rank(nets[bounds[0]])
    ensures IdealNet(nets[|events|])
    ensures Rank(nets[bounds[0]]) <= |nets[0].nodes.Keys| * (2 * |nets[0].nodes.Keys|)
  {
    var q := FullRoundsSettle(c, b, nets, events, bounds);
    RunProgress(c, b, nets, events, 0, bounds[q]);
    RunSmooth(c, b, nets, events, bounds[q]);
    PhysicalStay(nets[0], nets[bounds[q]]);
    QuietIffIdeal(c, b, nets[bounds[q]]);
    IdealStaysInRun(c, b, nets, events, bounds[q], |events|);
  }
}
