/** A node's whole turn of maintenance with fresh replies: the Rectify it sends under its own record to the
    target of its round, the write of its successor, and validation (maintenance.go:366-487).

    A run of turns contains nothing the code does not do, so it is turns, not single steps of the machine, that
    statements about what the code can reach speak of.
 */
module Turns {
  import opened Ring
  import opened Sets
  import opened Wrappers
  import opened NodeLists
  import opened NodeSpec
  import opened ShapeRuns
  import opened IdealRing
  import opened StableBase
  import opened Convergence
  import opened Settled
  import opened Settling

  // ----- the parts of a turn -----

  /** n's Stabilize gets through to its target: the Rectify is sent, and the target does not refuse it. */
  ghost predicate Introduces(c: Config, net: Net, n: int)
    requires n in net.nodes
  {
    var t := Target(RoundDecision(c, net, n));
    t.Some? && t.value.id in net.nodes && !RectifyRefuses(net.nodes[t.value.id], net.nodes[n].self)
  }

  function Told(c: Config, net: Net, t: int, candidate: NodeInfo): Net
    requires t in net.nodes
  {
    Record(net, t, RectifyCommit(net.nodes[t], c.opts(t), candidate, net.nodes[t].pred, true))
  }

  ghost function Announced(c: Config, net: Net, n: int): (after: Net)
    requires n in net.nodes
    ensures n in after.nodes
  {
    if Introduces(c, net, n) then Told(c, net, Target(RoundDecision(c, net, n)).value.id, net.nodes[n].self) else net
  }

  /** The write of a decision taken from `net`, in a network that has moved on to `mid`. */
  ghost function Committed(c: Config, net: Net, mid: Net, n: int): (after: Net)
    requires n in net.nodes && n in mid.nodes
    ensures n in after.nodes
  {
    Record(mid, n, Commit(mid.nodes[n], net.nodes[n].succ.id, c.opts(n), RoundDecision(c, net, n)))
  }

  /** What validation keeps when everyone answers. */
  ghost function Kept(c: Config, net: Net, n: int): seq<NodeInfo>
    requires n in net.nodes
  {
    KeepLive(net.nodes[n].self.id, Entries(net.nodes[n]), c.opts(n).hasClient, Alive, 0, [], LimitOf(c, n))
  }

  /** Everyone answers, and the list of the last kept entry is what that node holds now. */
  ghost function FreshProbe(c: Config, net: Net, n: int): Probe
    requires n in net.nodes
  {
    var kept := Kept(c, net, n);
    Probe(Alive,
          if kept != [] && kept[|kept| - 1].id in net.nodes then Some(net.nodes[kept[|kept| - 1].id].list) else None,
          Alive)
  }

  ghost function Revalidated(c: Config, net: Net, n: int): (after: Net)
    requires n in net.nodes
  {
    Record(net, n, ValidateStep(net.nodes[n], net.nodes[n], c.opts(n), FreshProbe(c, net, n)))
  }

  ghost function AfterTurn(c: Config, net: Net, n: int): Net
    requires n in net.nodes
  {
    var committed := Committed(c, net, Announced(c, net, n), n);
    if c.opts(n).validateAfterStabilize && Target(RoundDecision(c, net, n)).Some? then Revalidated(c, committed, n)
    else committed
  }

  // ----- each part is a step of a failure-free run -----

  /** Stabilize at n with every reply as fresh as `net`. */
  ghost function Round(net: Net, n: int): Event
    requires n in net.nodes
  {
    Act(n, net.nodes[n], CommitStabilize(Fresh(net, net.nodes[n]), Alive))
  }

  function Introduction(net: Net, t: int, candidate: NodeInfo): Event
    requires t in net.nodes
  {
    Act(t, net.nodes[t], CommitRectify(candidate, true))
  }

  ghost function Validating(c: Config, net: Net, n: int): Event
    requires n in net.nodes
  {
    Act(n, net.nodes[n], CommitValidate(FreshProbe(c, net, n)))
  }

  /** Whoever a member asks during Stabilize is a member. */
  lemma QueriedAreMembers(b: int, net: Net, n: int, k: nat)
    requires SmoothNet(b, net) && n in net.nodes && k < |Candidates(net.nodes[n])|
    ensures Queried(net.nodes[n], k).id in net.nodes
  {
    NodeOf(b, net, n);
    var st := net.nodes[n];
    var nodes := [st.succ] + st.list;
    DedupeMeaning(nodes, EMPTY);
    var x := Candidates(st)[k];
    assert x in Candidates(st) && x in nodes;
  }

  lemma FreshReplies(b: int, net: Net, mid: Net, n: int, k: nat)
    requires SmoothNet(b, net) && n in net.nodes && k < |Candidates(net.nodes[n])| && net.seen <= mid.seen
    ensures var st := net.nodes[n];
            var reply := Fresh(net, st)(k);
            reply.Some? && ReplyOf(mid, Queried(st, k), reply.value) && FromPeer(mid, Queried(st, k), reply.value)
  {
    QueriedAreMembers(b, net, n, k);
    NodeOf(b, net, Queried(net.nodes[n], k).id);
  }

  lemma RoundIsSmooth(c: Config, b: int, net: Net, mid: Net, n: int)
    requires GoodClients(c) && SmoothNet(b, net) && n in net.nodes && net.seen <= mid.seen
    requires n in mid.nodes && mid.nodes[n] == net.nodes[n]
    ensures Smooth(c, mid, Round(net, n))
  {
    NodeOf(b, net, n);
    forall k: nat | k < |Candidates(net.nodes[n])|
      ensures var reply := Fresh(net, net.nodes[n])(k);
              && reply.Some? && ReplyOf(mid, Queried(net.nodes[n], k), reply.value)
              && FromPeer(mid, Queried(net.nodes[n], k), reply.value)
    {
      FreshReplies(b, net, mid, n, k);
    }
  }

  lemma RoundEffect(c: Config, net: Net, mid: Net, n: int)
    requires n in net.nodes && n in mid.nodes && Enabled(c, mid, Round(net, n))
    ensures Effect(c, mid, Round(net, n)) == Committed(c, net, mid, n)
  {
  }

  lemma IntroductionIsSmooth(c: Config, b: int, net: Net, t: int, candidate: NodeInfo)
    requires SmoothNet(b, net) && t in net.nodes && candidate.id in net.nodes && !RectifyRefuses(net.nodes[t], candidate)
    ensures Smooth(c, net, Introduction(net, t, candidate))
    ensures Effect(c, net, Introduction(net, t, candidate)) == Told(c, net, t, candidate)
  {
    NodeOf(b, net, t);
  }

  lemma MemberReply(b: int, net: Net, contact: NodeInfo)
    requires SmoothNet(b, net) && contact.id in net.nodes
    ensures FromPeer(net, contact, PeerState(None, net.nodes[contact.id].list))
  {
    NodeOf(b, net, contact.id);
  }

  lemma ValidatingIsPermitted(c: Config, b: int, net: Net, n: int)
    requires SmoothNet(b, net) && n in net.nodes && c.opts(n).hasClient
    ensures Permitted(c, net, n, net.nodes[n], CommitValidate(FreshProbe(c, net, n)))
  {
    NodeOf(b, net, n);
    var kept := Kept(c, net, n);
    if FreshProbe(c, net, n).lastList.Some? {
      MemberReply(b, net, kept[|kept| - 1]);
    }
  }

  lemma ValidatingIsSmooth(c: Config, b: int, net: Net, n: int)
    requires GoodClients(c) && SmoothNet(b, net) && n in net.nodes
    ensures Smooth(c, net, Validating(c, net, n))
  {
    assert c.opts(n).hasClient;
    NodeOf(b, net, n);
    ValidatingIsPermitted(c, b, net, n);
  }

  lemma ValidatingEffect(c: Config, net: Net, n: int)
    requires n in net.nodes && Enabled(c, net, Validating(c, net, n))
    ensures Effect(c, net, Validating(c, net, n)) == Revalidated(c, net, n)
  {
  }

  // ----- a whole turn is a piece of a failure-free run -----

  ghost predicate Leads(c: Config, net: Net, net': Net) {
    exists nets, events :: IsSmoothRun(c, nets, events) && JoinsNobody(events) && nets[0] == net && nets[|events|] == net'
  }

  lemma LeadsNowhere(c: Config, net: Net)
    ensures Leads(c, net, net)
  {
    var nets, events: seq<Event> := [net], [];
    assert IsSmoothRun(c, nets, events) && JoinsNobody(events) && nets[0] == net && nets[|events|] == net;
  }

  lemma RunExtended(c: Config, nets: seq<Net>, events: seq<Event>, e: Event)
    requires IsSmoothRun(c, nets, events) && Smooth(c, nets[|events|], e)
    ensures IsSmoothRun(c, nets + [Effect(c, nets[|events|], e)], events + [e])
  {
    var all, steps := nets + [Effect(c, nets[|events|], e)], events + [e];
    forall i | 0 <= i < |steps|
      ensures Enabled(c, all[i], steps[i]) && all[i + 1] == Effect(c, all[i], steps[i]) && Smooth(c, all[i], steps[i])
    {
      if i < |events| {
        assert all[i] == nets[i] && all[i + 1] == nets[i + 1] && steps[i] == events[i];
      }
    }
  }

  lemma LeadsOn(c: Config, net: Net, mid: Net, e: Event)
    requires Leads(c, net, mid) && Smooth(c, mid, e) && !e.JoinNode?
    ensures Leads(c, net, Effect(c, mid, e))
  {
    var nets, events :| IsSmoothRun(c, nets, events) && JoinsNobody(events) && nets[0] == net && nets[|events|] == mid;
    RunExtended(c, nets, events, e);
    var all, steps := nets + [Effect(c, mid, e)], events + [e];
    assert IsSmoothRun(c, all, steps) && JoinsNobody(steps) && all[0] == net && all[|steps|] == Effect(c, mid, e);
  }

  /** Step by step: still smooth, the same members, no more rank, and less whenever a pointer has moved. */
  ghost predicate Progress(b: int, net: Net, net': Net) {
    && SmoothNet(b, net') && SameSelves(net, net') && net.seen <= net'.seen
    && Rank(net') <= Rank(net) && (Alike(net, net') || Rank(net') < Rank(net))
  }

  lemma StepProgress(c: Config, b: int, net: Net, e: Event)
    requires GoodClients(c) && SmoothNet(b, net) && Smooth(c, net, e) && !e.JoinNode?
    ensures Progress(b, net, Effect(c, net, e))
  {
    StepSmooth(c, b, net, e);
    SelvesStay(c, b, net, e);
    PointerChangesLowerRank(c, b, net, e);
    SeenGrows(c, net, e);
  }

  lemma SeenGrows(c: Config, net: Net, e: Event)
    requires Enabled(c, net, e)
    ensures net.seen <= Effect(c, net, e).seen
  {
  }

  lemma ProgressNone(b: int, net: Net)
    requires SmoothNet(b, net)
    ensures Progress(b, net, net)
  {
  }

  lemma ProgressOn(b: int, x: Net, y: Net, z: Net)
    requires Progress(b, x, y) && Progress(b, y, z)
    ensures Progress(b, x, z)
  {
    if Alike(x, y) && Alike(y, z) {
      AlikeChain(x, y, z);
    }
  }

  /** A network the run from `net` has come to. */
  ghost predicate Comes(c: Config, b: int, net: Net, net': Net) {
    Leads(c, net, net') && Progress(b, net, net')
  }

  lemma ComesOn(c: Config, b: int, net: Net, mid: Net, e: Event)
    requires GoodClients(c) && SmoothNet(b, net) && Comes(c, b, net, mid) && Smooth(c, mid, e) && !e.JoinNode?
    ensures Comes(c, b, net, Effect(c, mid, e))
  {
    LeadsOn(c, net, mid, e);
    StepProgress(c, b, mid, e);
    ProgressOn(b, net, mid, Effect(c, mid, e));
  }

  lemma IntroductionComes(c: Config, b: int, net: Net, n: int, t: int)
    requires GoodClients(c) && SmoothNet(b, net) && n in net.nodes && t in net.nodes
    requires !RectifyRefuses(net.nodes[t], net.nodes[n].self)
    ensures Comes(c, b, net, Told(c, net, t, net.nodes[n].self))
    ensures t != n
  {
    NodeOf(b, net, n);
    NodeOf(b, net, t);
    ComesNowhere(c, b, net);
    IntroductionIsSmooth(c, b, net, t, net.nodes[n].self);
    ComesOn(c, b, net, net, Introduction(net, t, net.nodes[n].self));
  }

  lemma ComesNowhere(c: Config, b: int, net: Net)
    requires SmoothNet(b, net)
    ensures Comes(c, b, net, net)
  {
    LeadsNowhere(c, net);
    ProgressNone(b, net);
  }

  lemma AnnouncedLeaves(c: Config, b: int, net: Net, n: int)
    requires SmoothNet(b, net) && n in net.nodes
    ensures Announced(c, net, n).nodes[n] == net.nodes[n]
  {
    NodeOf(b, net, n);
    if Introduces(c, net, n) {
      NodeOf(b, net, Target(RoundDecision(c, net, n)).value.id);
    }
  }

  lemma AnnouncedComes(c: Config, b: int, net: Net, n: int)
    requires GoodClients(c) && SmoothNet(b, net) && n in net.nodes
    ensures Comes(c, b, net, Announced(c, net, n))
  {
    if Introduces(c, net, n) {
      IntroductionComes(c, b, net, n, Target(RoundDecision(c, net, n)).value.id);
    } else {
      ComesNowhere(c, b, net);
    }
  }

  lemma CommittedComes(c: Config, b: int, net: Net, n: int)
    requires GoodClients(c) && SmoothNet(b, net) && n in net.nodes
    ensures Comes(c, b, net, Committed(c, net, Announced(c, net, n), n))
  {
    AnnouncedComes(c, b, net, n);
    AnnouncedLeaves(c, b, net, n);
    var mid := Announced(c, net, n);
    RoundIsSmooth(c, b, net, mid, n);
    RoundEffect(c, net, mid, n);
    ComesOn(c, b, net, mid, Round(net, n));
  }

  /** A turn is a piece of a failure-free run without joins. */
  lemma TurnComes(c: Config, b: int, net: Net, n: int)
    requires GoodClients(c) && SmoothNet(b, net) && n in net.nodes
    ensures Comes(c, b, net, AfterTurn(c, net, n))
  {
    CommittedComes(c, b, net, n);
    var committed := Committed(c, net, Announced(c, net, n), n);
    if c.opts(n).validateAfterStabilize && Target(RoundDecision(c, net, n)).Some? {
      ValidatingIsSmooth(c, b, committed, n);
      ValidatingEffect(c, committed, n);
      ComesOn(c, b, net, committed, Validating(c, committed, n));
    }
  }

  // ----- what a turn does to the pointers -----

  lemma RecordedAlike(net: Net, n: int, st: NodeState)
    requires n in net.nodes && st.self == net.nodes[n].self
    ensures Alike(net, Record(net, n, st)) <==> SamePointers(net.nodes[n], st)
  {
    var after := Record(net, n, st);
    assert after.nodes.Keys == net.nodes.Keys && after.nodes[n] == st;
  }

  lemma AlikeSelf(net: Net)
    ensures Alike(net, net)
  {
  }

  lemma ToldAlike(c: Config, net: Net, t: int, sender: NodeInfo)
    requires t in net.nodes && !RectifyRefuses(net.nodes[t], sender)
    ensures Alike(net, Told(c, net, t, sender)) <==> SamePointers(Rectified(net.nodes[t], c.opts(t), sender), net.nodes[t])
  {
    RecordedAlike(net, t, RectifyCommit(net.nodes[t], c.opts(t), sender, net.nodes[t].pred, true));
  }

  lemma AnnouncedAlike(c: Config, net: Net, n: int)
    requires n in net.nodes
    ensures var t := Target(RoundDecision(c, net, n));
            Alike(net, Announced(c, net, n))
            <==> (t.Some? && t.value.id in net.nodes ==>
                    SamePointers(Rectified(net.nodes[t.value.id], c.opts(t.value.id), net.nodes[n].self), net.nodes[t.value.id]))
  {
    if Introduces(c, net, n) {
      ToldAlike(c, net, Target(RoundDecision(c, net, n)).value.id, net.nodes[n].self);
    } else {
      AlikeSelf(net);
    }
  }

  lemma DecisionKind(c: Config, b: int, net: Net, n: int)
    requires GoodClients(c) && SmoothNet(b, net) && n in net.nodes
    ensures var d := RoundDecision(c, net, n); d.Adopt? || d.Bootstrap? || (d.StaySingle? && net.nodes[n].succ.id == n)
  {
    RoundOf(c, b, net, n);
  }

  lemma CommitKeepsPredecessor(st: NodeState, opts: Options, d: Decision)
    requires d.Adopt? || d.Bootstrap? || (d.StaySingle? && st.succ.id == st.self.id)
    ensures Commit(st, st.succ.id, opts, d).pred == st.pred && Commit(st, st.succ.id, opts, d).self == st.self
  {
  }

  lemma WrittenAlike(c: Config, b: int, net: Net, n: int)
    requires GoodClients(c) && SmoothNet(b, net) && n in net.nodes
    ensures var mid := Announced(c, net, n);
            Alike(mid, Committed(c, net, mid, n))
            <==> Commit(net.nodes[n], net.nodes[n].succ.id, c.opts(n), RoundDecision(c, net, n)).succ.id == net.nodes[n].succ.id
  {
    var st, d := net.nodes[n], RoundDecision(c, net, n);
    NodeOf(b, net, n);
    AnnouncedLeaves(c, b, net, n);
    DecisionKind(c, b, net, n);
    CommitKeepsPredecessor(st, c.opts(n), d);
    RecordedAlike(Announced(c, net, n), n, Commit(st, st.succ.id, c.opts(n), d));
  }

  lemma RevalidatedAlike(c: Config, b: int, net: Net, n: int)
    requires GoodClients(c) && SmoothNet(b, net) && n in net.nodes
    ensures Alike(net, Revalidated(c, net, n))
  {
    ValidatingIsSmooth(c, b, net, n);
    ValidateSmooth(c, b, net, n, net.nodes[n], FreshProbe(c, net, n));
    RecordedAlike(net, n, ValidateStep(net.nodes[n], net.nodes[n], c.opts(n), FreshProbe(c, net, n)));
  }

  lemma AlikeRank(a: Net, b: Net)
    requires Alike(a, b) && (forall n :: n in a.nodes ==> a.nodes[n].self.id == n)
    ensures Rank(a) == Rank(b)
  {
    assert a.nodes.Keys == b.nodes.Keys;
    forall n | n in a.nodes.Keys ensures NodeRank(a, n) == NodeRank(b, n) {
      AlikeAt(a, b, n);
    }
    SumSame(a.nodes.Keys, n => NodeRank(a, n), n => NodeRank(b, n));
  }

  /** If any part of a turn moved a pointer, the whole turn has: rank never comes back. */
  lemma MovedStays(b: int, net: Net, mid: Net, after: Net)
    requires SmoothNet(b, net) && Progress(b, net, mid) && Progress(b, mid, after) && Alike(net, after)
    ensures Alike(net, mid) && Alike(mid, after)
  {
    AlikeRank(net, after);
  }

  lemma WrittenProgress(c: Config, b: int, net: Net, n: int)
    requires GoodClients(c) && SmoothNet(b, net) && n in net.nodes
    ensures Progress(b, Announced(c, net, n), Committed(c, net, Announced(c, net, n), n))
  {
    AnnouncedComes(c, b, net, n);
    AnnouncedLeaves(c, b, net, n);
    var mid := Announced(c, net, n);
    RoundIsSmooth(c, b, net, mid, n);
    RoundEffect(c, net, mid, n);
    StepProgress(c, b, mid, Round(net, n));
  }

  /** A turn leaves all pointers alone exactly if the round is idle. */
  lemma TurnIdleIff(c: Config, b: int, net: Net, n: int)
    requires GoodClients(c) && SmoothNet(b, net) && n in net.nodes
    ensures Alike(net, AfterTurn(c, net, n)) <==> RoundIdle(c, net, n)
  {
    var mid := Announced(c, net, n);
    var committed := Committed(c, net, mid, n);
    AnnouncedComes(c, b, net, n);
    WrittenProgress(c, b, net, n);
    AnnouncedAlike(c, net, n);
    WrittenAlike(c, b, net, n);
    ValidatedAlike(c, b, net, n);
    if Alike(net, mid) && Alike(mid, committed) {
      AlikeChain(net, mid, committed);
    }
    if Alike(net, committed) {
      MovedStays(b, net, mid, committed);
    }
  }

  /** Validation at the end of a turn adds no move. */
  lemma ValidatedAlike(c: Config, b: int, net: Net, n: int)
    requires GoodClients(c) && SmoothNet(b, net) && n in net.nodes
    ensures Alike(net, AfterTurn(c, net, n)) <==> Alike(net, Committed(c, net, Announced(c, net, n), n))
  {
    var committed := Committed(c, net, Announced(c, net, n), n);
    CommittedComes(c, b, net, n);
    if c.opts(n).validateAfterStabilize && Target(RoundDecision(c, net, n)).Some? {
      RevalidatedAlike(c, b, committed, n);
      var after := Revalidated(c, committed, n);
      if Alike(net, committed) {
        AlikeChain(net, committed, after);
      }
      if Alike(net, after) {
        AlikeBack(committed, after);
        AlikeChain(net, after, committed);
      }
    }
  }

  /** The ideal ring is exactly where no turn of any node moves a pointer and every vnode is known to its
      successor. */
  lemma IdealIffNoTurnMoves(c: Config, b: int, net: Net)
    requires GoodClients(c) && SmoothNet(b, net)
    ensures IdealNet(net)
            <==> VnodesKnown(net) && forall n :: n in net.nodes ==> Alike(net, AfterTurn(c, net, n))
    ensures AllPhysical(net) ==> VnodesKnown(net)
  {
    QuietIffIdeal(c, b, net);
    forall n | n in net.nodes ensures Alike(net, AfterTurn(c, net, n)) <==> RoundIdle(c, net, n) {
      TurnIdleIff(c, b, net, n);
    }
  }

  // ----- once settled -----

  lemma QuietAlike(c: Config, b: int, net: Net, after: Net)
    requires GoodClients(c) && SmoothNet(b, net) && SmoothNet(b, after) && Alike(net, after) && Quiet(c, net)
    ensures Quiet(c, after)
  {
    forall n | n in after.nodes ensures RoundIdle(c, after, n) {
      assert n in after.nodes.Keys && n in net.nodes;
      NodeOf(b, net, n);
      NodeOf(b, net, net.nodes[n].succ.id);
      assert RoundIdle(c, net, n);
      RoundIdleIff(c, b, net, n);
      RoundIdleIff(c, b, after, n);
      AlikeIdle(net, after, n);
    }
  }

  // ----- turns lead to the ideal ring -----

  ghost predicate AreTurns(c: Config, nets: seq<Net>, who: seq<int>) {
    && |nets| == |who| + 1
    && forall i :: 0 <= i < |who| ==> who[i] in nets[i].nodes && nets[i + 1] == AfterTurn(c, nets[i], who[i])
  }

  /** A settled network stays as it is, whoever takes turns. */
  lemma SettledStays(c: Config, b: int, nets: seq<Net>, who: seq<int>, i: nat)
    requires GoodClients(c) && AreTurns(c, nets, who) && SmoothNet(b, nets[0]) && Quiet(c, nets[0]) && i < |nets|
    ensures SmoothNet(b, nets[i]) && Alike(nets[0], nets[i])
  {
    AlikeSelf(nets[0]);
    for k := 0 to i
      invariant SmoothNet(b, nets[k]) && Alike(nets[0], nets[k])
    {
      SettledTurn(c, b, nets[0], nets[k], who[k]);
      assert nets[k + 1] == AfterTurn(c, nets[k], who[k]);
    }
  }

  lemma SettledTurn(c: Config, b: int, first: Net, net: Net, n: int)
    requires GoodClients(c) && SmoothNet(b, first) && Quiet(c, first) && SmoothNet(b, net) && Alike(first, net) && n in net.nodes
    ensures SmoothNet(b, AfterTurn(c, net, n)) && Alike(first, AfterTurn(c, net, n))
  {
    QuietAlike(c, b, first, net);
    assert RoundIdle(c, net, n);
    TurnComes(c, b, net, n);
    TurnIdleIff(c, b, net, n);
    AlikeChain(first, net, AfterTurn(c, net, n));
  }

  /** Turns from `net` to a settled network of the same members, at most `most` of them. */
  ghost predicate SettlingTurns(c: Config, b: int, net: Net, most: nat, nets: seq<Net>, who: seq<int>) {
    && AreTurns(c, nets, who) && nets[0] == net && |who| <= most
    && SmoothNet(b, nets[|who|]) && Quiet(c, nets[|who|]) && SameSelves(net, nets[|who|])
  }

  lemma SelvesChain(a: Net, b: Net, c: Net)
    requires SameSelves(a, b) && SameSelves(b, c)
    ensures SameSelves(a, c)
  {
    forall n | n in a.nodes ensures c.nodes[n].self == a.nodes[n].self {
      assert n in a.nodes.Keys && n in b.nodes;
    }
  }

  lemma AreTurnsPrepended(c: Config, net: Net, n: int, nets: seq<Net>, who: seq<int>)
    requires n in net.nodes && AreTurns(c, nets, who) && nets[0] == AfterTurn(c, net, n)
    ensures AreTurns(c, [net] + nets, [n] + who)
  {
    var all, turns := [net] + nets, [n] + who;
    forall i | 0 <= i < |turns| ensures turns[i] in all[i].nodes && all[i + 1] == AfterTurn(c, all[i], turns[i]) {
      if i > 0 {
        assert all[i] == nets[i - 1] && all[i + 1] == nets[i - 1 + 1] && turns[i] == who[i - 1];
      }
    }
  }

  lemma TurnPrepended(c: Config, b: int, net: Net, n: int, less: nat, most: nat, nets: seq<Net>, who: seq<int>)
    requires n in net.nodes && less < most && SameSelves(net, AfterTurn(c, net, n))
    requires SettlingTurns(c, b, AfterTurn(c, net, n), less, nets, who)
    ensures SettlingTurns(c, b, net, most, [net] + nets, [n] + who)
  {
    AreTurnsPrepended(c, net, n, nets, who);
    assert ([net] + nets)[|[n] + who|] == nets[|who|];
    SelvesChain(net, AfterTurn(c, net, n), nets[|who|]);
  }

  lemma NoTurns(c: Config, b: int, net: Net, most: nat)
    requires SmoothNet(b, net) && Quiet(c, net)
    ensures SettlingTurns(c, b, net, most, [net], [])
  {
    var nets, who: seq<int> := [net], [];
    assert nets[|who|] == net && SameSelves(net, net);
  }

  /** In a network that is not settled some node's turn lowers the rank. */
  lemma TurnTowardsSettled(c: Config, b: int, net: Net) returns (n: int)
    requires GoodClients(c) && SmoothNet(b, net) && !Quiet(c, net)
    ensures n in net.nodes && Progress(b, net, AfterTurn(c, net, n)) && Rank(AfterTurn(c, net, n)) < Rank(net)
  {
    n :| n in net.nodes && !RoundIdle(c, net, n);
    TurnComes(c, b, net, n);
    TurnIdleIff(c, b, net, n);
  }

  /** From every smooth state at most as many turns as the rank is high lead to a settled network. */
  lemma {:induction false} TurnsSettle(c: Config, b: int, net: Net) returns (nets: seq<Net>, who: seq<int>)
    requires GoodClients(c) && SmoothNet(b, net)
    ensures SettlingTurns(c, b, net, Rank(net), nets, who)
    decreases Rank(net)
  {
    if Quiet(c, net) {
      nets, who := [net], [];
      NoTurns(c, b, net, Rank(net));
    } else {
      var n := TurnTowardsSettled(c, b, net);
      var after := AfterTurn(c, net, n);
      nets, who := TurnsSettle(c, b, after);
      TurnPrepended(c, b, net, n, Rank(after), Rank(net), nets, who);
      nets, who := [net] + nets, [n] + who;
    }
  }

  /** For physical nodes: from every reachable state a number of turns at most quadratic in the number of
      members leads to the ideal ring of the same members. */
  lemma ReachesIdealRing(c: Config, first: NodeInfo, before: seq<Net>, past: seq<Event>) returns (nets: seq<Net>, who: seq<int>)
    requires GoodClients(c) && ValidId(first.id) && IsSmoothRun(c, before, past) && before[0] == SingleNode(first)
    requires AllPhysical(before[|past|])
    ensures AreTurns(c, nets, who) && nets[0] == before[|past|]
    ensures |who| <= Rank(before[|past|]) <= |before[|past|].nodes.Keys| * (2 * |before[|past|].nodes.Keys|)
    ensures IdealNet(nets[|who|]) && nets[|who|].nodes.Keys == before[|past|].nodes.Keys
  {
    var net := before[|past|];
    StartIsSmooth(first);
    RunSmooth(c, first.id, before, past, |past|);
    nets, who := TurnsSettle(c, first.id, net);
    PhysicalStay(net, nets[|who|]);
    QuietIffIdeal(c, first.id, nets[|who|]);
    RankBound(net);
  }
}
