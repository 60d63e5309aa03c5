/** Where failure-free runs settle: a network in which no maintenance round would change a pointer is the
    ideal ring, and conversely.
 */
module Settled {
  import opened Ring
  import opened Sets
  import opened Wrappers
  import opened NodeLists
  import opened NodeSpec
  import opened ShapeRuns
  import opened IdealRing
  import opened StableBase
  import opened Convergence

  /** Every state query answered with the peer's present state. */
  ghost function Fresh(net: Net, st: NodeState): nat -> Option<PeerState> {
    (k: nat) =>
      if k < |Candidates(st)| && Queried(st, k).id in net.nodes
      then var p := net.nodes[Queried(st, k).id]; Some(PeerState(p.pred, p.list))
      else None
  }

  predicate Alive(k: nat) {
    true
  }

  ghost function RoundDecision(c: Config, net: Net, n: int): Decision
    requires n in net.nodes
  {
    Decide(net.nodes[n], c.opts(n).hasClient, Candidates(net.nodes[n]), 0, Fresh(net, net.nodes[n]), Alive)
  }

  /** The node after the Rectify request `from` sends at the end of its round (the sender as n.self holds it). */
  function Rectified(st: NodeState, opts: Options, sender: NodeInfo): NodeState {
    if RectifyRefuses(st, sender) then st else RectifyCommit(st, opts, sender, st.pred, true)
  }

  /** A round of node n changes neither its own successor nor the predecessor of the node it notifies. */
  ghost predicate RoundIdle(c: Config, net: Net, n: int)
    requires n in net.nodes
  {
    var st, d := net.nodes[n], RoundDecision(c, net, n);
    && Commit(st, st.succ.id, c.opts(n), d).succ.id == st.succ.id
    && (Target(d).Some? && Target(d).value.id in net.nodes ==>
          var t := net.nodes[Target(d).value.id];
          SamePointers(Rectified(t, c.opts(Target(d).value.id), st.self), t))
  }

  ghost predicate Quiet(c: Config, net: Net) {
    forall n :: n in net.nodes ==> RoundIdle(c, net, n)
  }

  ghost predicate IdealNode(members: set<int>, st: NodeState) {
    && IsNext(members, st.self.id, st.succ.id)
    && (if members == {st.self.id} then st.pred.None? else st.pred.Some? && IsNext(members, st.pred.value.id, st.self.id))
  }

  ghost predicate IdealNet(net: Net) {
    forall n :: n in net.nodes ==> IdealNode(net.nodes.Keys, net.nodes[n])
  }

  /** Physical nodes introduce themselves with a descriptor that passes validation; a vnode's own record
      carries no anchor id, so the request of its Stabilize is refused. */
  ghost predicate AllPhysical(net: Net) {
    forall n :: n in net.nodes ==> ValidNodeInfo(net.nodes[n].self)
  }

  /** The successor of n holds n as its predecessor. */
  predicate KnownToSuccessor(net: Net, n: int)
    requires n in net.nodes
  {
    var s := net.nodes[n].succ.id;
    s in net.nodes && net.nodes[s].pred.Some? && net.nodes[s].pred.value.id == n
  }

  /** What no round of its own can bring about for a vnode: its successor knows it.  The Rectify of its
      join, which does carry the anchor id, can. */
  ghost predicate VnodesKnown(net: Net) {
    forall n :: n in net.nodes && !ValidNodeInfo(net.nodes[n].self) && net.nodes[n].succ.id != n ==>
      KnownToSuccessor(net, n)
  }

  lemma RoundOf(c: Config, b: int, net: Net, n: int)
    requires GoodClients(c) && SmoothNet(b, net) && n in net.nodes
    ensures var st := net.nodes[n];
            && SmoothNode(net.nodes.Keys, b, st) && st.self.id == n
            && (st.pred.Some? ==> st.pred.value.id in net.nodes)
            && st.succ.id in net.nodes && SmoothNode(net.nodes.Keys, b, net.nodes[st.succ.id])
            && var s := net.nodes[st.succ.id];
            && s.self.id == st.succ.id
            && var reply := PeerState(s.pred, s.list);
            && (st.succ.id != n ==>
                  RoundDecision(c, net, n) ==
                    if Improves(n, st.succ, reply, true, true) then Adopt(0, st.succ, s.pred.value, [st.succ] + s.list)
                    else Adopt(0, st.succ, st.succ, s.list))
            && (st.succ.id == n ==>
                  RoundDecision(c, net, n) ==
                    if st.pred.None? then StaySingle(0)
                    else Bootstrap(0, st.pred.value, net.nodes[st.pred.value.id].list))
  {
    var st := net.nodes[n];
    assert st in net.seen && SmoothNode(net.nodes.Keys, b, st);
    assert net.nodes[st.succ.id] in net.seen;
    FirstCandidateIsSuccessor(st);
    SmoothDecision(st, Fresh(net, st), Alive);
  }

  /** A node alone has no predecessor; any other is known to its successor. */
  predicate KnownOrAlone(net: Net, n: int)
    requires n in net.nodes
  {
    if net.nodes[n].succ.id == n then net.nodes[n].pred.None? else KnownToSuccessor(net, n)
  }

  /** The same, except that a vnode may also be unknown to a successor that knows nobody nearer. */
  predicate IdlePointers(net: Net, n: int)
    requires n in net.nodes && net.nodes[n].succ.id in net.nodes
  {
    var st, s := net.nodes[n], net.nodes[net.nodes[n].succ.id];
    if st.succ.id == n || ValidNodeInfo(st.self) then KnownOrAlone(net, n)
    else s.pred.None? || !InRangeOpenOpen(s.pred.value.id, n, st.succ.id)
  }

  lemma RoundIdleAlone(c: Config, b: int, net: Net, n: int)
    requires GoodClients(c) && SmoothNet(b, net) && n in net.nodes && net.nodes[n].succ.id == n
    ensures RoundIdle(c, net, n) <==> net.nodes[n].pred.None?
  {
    RoundOf(c, b, net, n);
  }

  /** What the Rectify of `sender` makes of the predecessor. */
  lemma RectifiedLearns(members: set<int>, b: int, s: NodeState, opts: Options, sender: NodeInfo)
    requires SmoothNode(members, b, s) && ValidId(sender.id) && sender.id != s.self.id
    requires s.pred.None? || !InRangeOpenOpen(s.pred.value.id, sender.id, s.self.id)
    ensures SamePointers(Rectified(s, opts, sender), s)
            <==> !ValidNodeInfo(sender) || (s.pred.Some? && s.pred.value.id == sender.id)
  {
  }

  lemma RoundAdopts(c: Config, b: int, net: Net, n: int)
    requires GoodClients(c) && SmoothNet(b, net) && n in net.nodes && net.nodes[n].succ.id in net.nodes
    requires net.nodes[n].succ.id != n && net.nodes[net.nodes[n].succ.id].pred.Some?
    requires InRangeOpenOpen(net.nodes[net.nodes[n].succ.id].pred.value.id, n, net.nodes[n].succ.id)
    ensures !RoundIdle(c, net, n)
  {
    RoundOf(c, b, net, n);
  }

  lemma RoundStays(c: Config, b: int, net: Net, n: int)
    requires GoodClients(c) && SmoothNet(b, net) && n in net.nodes && net.nodes[n].succ.id in net.nodes
    requires net.nodes[n].succ.id != n
    requires var s := net.nodes[net.nodes[n].succ.id]; s.pred.None? || !InRangeOpenOpen(s.pred.value.id, n, s.self.id)
    ensures var s := net.nodes[net.nodes[n].succ.id];
            RoundIdle(c, net, n) <==> SamePointers(Rectified(s, c.opts(net.nodes[n].succ.id), net.nodes[n].self), s)
  {
    RoundOf(c, b, net, n);
  }

  lemma RoundIdleOther(c: Config, b: int, net: Net, n: int)
    requires GoodClients(c) && SmoothNet(b, net) && n in net.nodes && net.nodes[n].succ.id != n
    ensures net.nodes[n].succ.id in net.nodes
    ensures RoundIdle(c, net, n) <==> IdlePointers(net, n)
  {
    NodeOf(b, net, n);
    var st := net.nodes[n];
    NodeOf(b, net, st.succ.id);
    var s := net.nodes[st.succ.id];
    if s.pred.Some? && InRangeOpenOpen(s.pred.value.id, n, st.succ.id) {
      RoundAdopts(c, b, net, n);
    } else {
      RoundStays(c, b, net, n);
      RectifiedLearns(net.nodes.Keys, b, s, c.opts(st.succ.id), st.self);
    }
  }

  /** Whether a round changes a pointer can be read off the pointers. */
  lemma RoundIdleIff(c: Config, b: int, net: Net, n: int)
    requires GoodClients(c) && SmoothNet(b, net) && n in net.nodes
    ensures net.nodes[n].succ.id in net.nodes
    ensures RoundIdle(c, net, n) <==> IdlePointers(net, n)
  {
    NodeOf(b, net, n);
    if net.nodes[n].succ.id == n {
      RoundIdleAlone(c, b, net, n);
    } else {
      RoundIdleOther(c, b, net, n);
    }
  }

  // ----- the shape of the ring, seen from b -----

  /** Position of a successor pointer on the line that starts at `b`; pointing at `b` is the far end. */
  function Reach(b: int, x: int): nat
    requires ValidId(b) && ValidId(x)
  {
    Gap(b, x)
  }

  /** Successor pointers `next` that never jump over b, with predecessors `back` that agree with them. */
  ghost predicate Matched(b: int, next: map<int, int>, back: map<int, int>) {
    && ValidId(b)
    && forall n :: n in next ==>
         && ValidId(n) && next[n] in next && ValidId(next[n]) && !InRangeOpenOpen(b, n, next[n])
         && (next[n] != n ==> next[n] in back && back[next[n]] == n)
         && (next[n] == n ==> n !in back)
  }

  function Successors(net: Net): map<int, int> {
    map n | n in net.nodes :: net.nodes[n].succ.id
  }

  function Predecessors(net: Net): map<int, int> {
    map n | n in net.nodes && net.nodes[n].pred.Some? :: net.nodes[n].pred.value.id
  }

  ghost predicate AllKnown(net: Net) {
    forall n :: n in net.nodes ==> KnownOrAlone(net, n)
  }

  lemma KnownIsMatched(b: int, net: Net)
    requires SmoothNet(b, net) && AllKnown(net)
    ensures Matched(b, Successors(net), Predecessors(net))
  {
    var next, back := Successors(net), Predecessors(net);
    forall n | n in next
      ensures && ValidId(n) && next[n] in next && ValidId(next[n]) && !InRangeOpenOpen(b, n, next[n])
              && (next[n] != n ==> next[n] in back && back[next[n]] == n)
              && (next[n] == n ==> n !in back)
    {
      NodeOf(b, net, n);
      assert KnownOrAlone(net, n);
    }
  }

  /** No member lies between a node and its successor.  If x did, the chains of pointers from both would
      have to meet, and two nodes would claim to be the predecessor of the same node. */
  lemma {:induction false} NoneBetween(b: int, next: map<int, int>, back: map<int, int>, n: int, x: int)
    requires Matched(b, next, back) && n in next && x in next
    ensures !(Offset(b, n) < Offset(b, x) < Reach(b, next[n]))
    decreases 2 * M - Offset(b, n) - Offset(b, x)
  {
    var s, t := next[n], next[x];
    if Offset(b, n) < Offset(b, x) < Reach(b, s) {
      assert Offset(b, x) < Reach(b, t);
      if Reach(b, t) < Reach(b, s) {
        NoneBetween(b, next, back, n, t);
      } else if Reach(b, t) > Reach(b, s) {
        NoneBetween(b, next, back, x, s);
      }
    }
  }

  /** Inside an arc that does not pass b, positions on the line from b rise. */
  lemma BetweenOnLine(b: int, n: int, s: int, y: int)
    requires ValidId(b) && ValidId(s) && !InRangeOpenOpen(b, n, s) && InRangeOpenOpen(y, n, s)
    ensures Offset(b, n) < Offset(b, y) < Reach(b, s)
  {
  }

  lemma MatchedIsNext(b: int, next: map<int, int>, back: map<int, int>, n: int)
    requires Matched(b, next, back) && n in next
    ensures IsNext(next.Keys, n, next[n])
  {
    forall y | y in next.Keys ensures !InRangeOpenOpen(y, n, next[n]) {
      NoneBetween(b, next, back, n, y);
      if InRangeOpenOpen(y, n, next[n]) {
        BetweenOnLine(b, n, next[n], y);
      }
    }
  }

  lemma NearestIsPointedAt(p: int, x: int, m: int)
    requires ValidId(p) && ValidId(x) && ValidId(m) && Gap(p, m) <= Gap(x, m) && !InRangeOpenOpen(m, p, x)
    ensures x == m
  {
  }

  /** And every predecessor pointer is right too. */
  lemma MatchedIsPrevious(b: int, next: map<int, int>, back: map<int, int>, m: int)
    requires Matched(b, next, back) && m in next
    ensures if next.Keys == {m} then m !in back else m in back && IsNext(next.Keys, back[m], m)
  {
    var members := next.Keys;
    assert m in members;
    var p := ClosestBehind(members, m);
    MatchedIsNext(b, next, back, p);
    NearestIsPointedAt(p, next[p], m);
    if p == m {
      AloneIfSelf(members, m);
    }
  }

  lemma MatchedIsIdeal(b: int, next: map<int, int>, back: map<int, int>, n: int, st: NodeState)
    requires Matched(b, next, back) && n in next && st.self.id == n && st.succ.id == next[n]
    requires if st.pred.None? then n !in back else n in back && back[n] == st.pred.value.id
    ensures IdealNode(next.Keys, st)
  {
    MatchedIsNext(b, next, back, n);
    MatchedIsPrevious(b, next, back, n);
  }

  /** Pointers that agree everywhere make the ideal ring. */
  lemma KnownIsIdeal(b: int, net: Net)
    requires SmoothNet(b, net) && AllKnown(net)
    ensures IdealNet(net)
  {
    KnownIsMatched(b, net);
    assert Successors(net).Keys == net.nodes.Keys;
    forall n | n in net.nodes ensures IdealNode(net.nodes.Keys, net.nodes[n]) {
      NodeOf(b, net, n);
      MatchedIsIdeal(b, Successors(net), Predecessors(net), n, net.nodes[n]);
    }
  }

  lemma AloneIfSelf(members: set<int>, n: int)
    requires ValidId(n) && IsNext(members, n, n) && forall y :: y in members ==> ValidId(y)
    ensures members == {n}
  {
    forall y | y in members ensures y == n {
      assert !InRangeOpenOpen(y, n, n);
    }
  }

  /** The member before the successor of n is n. */
  lemma BackAgain(members: set<int>, n: int, x: int, p: int)
    requires IsNext(members, n, x) && IsNext(members, p, x) && ValidId(n) && ValidId(x) && ValidId(p) && n != x
    ensures p == n
  {
    assert !InRangeOpenOpen(p, n, x) && !InRangeOpenOpen(n, p, x);
    assert !InRangeOpenOpen(x, n, x) && (p == x ==> InRangeOpenOpen(n, p, x));
  }

  lemma MembersAreValid(b: int, net: Net)
    requires SmoothNet(b, net)
    ensures forall y :: y in net.nodes.Keys ==> ValidId(y)
  {
    forall y | y in net.nodes.Keys ensures ValidId(y) {
      assert SmoothNode(net.nodes.Keys, b, net.nodes[y]);
    }
  }

  lemma IdealNeighbours(members: set<int>, st: NodeState, s: NodeState)
    requires ValidId(st.self.id) && ValidId(s.self.id) && s.self.id == st.succ.id != st.self.id
    requires IdealNode(members, st) && IdealNode(members, s) && (s.pred.Some? ==> ValidId(s.pred.value.id))
    ensures s.pred.Some? && s.pred.value.id == st.self.id
  {
    assert st.self.id in members && members != {s.self.id};
    BackAgain(members, st.self.id, s.self.id, s.pred.value.id);
  }

  lemma NodeOf(b: int, net: Net, n: int)
    requires SmoothNet(b, net) && n in net.nodes
    ensures SmoothNode(net.nodes.Keys, b, net.nodes[n]) && net.nodes[n].self.id == n && net.nodes[n] in net.seen
  {
  }

  lemma IdealKnows(b: int, net: Net, n: int)
    requires SmoothNet(b, net) && IdealNet(net) && n in net.nodes
    ensures KnownOrAlone(net, n)
  {
    NodeOf(b, net, n);
    if net.nodes[n].succ.id == n {
      MembersAreValid(b, net);
      AloneIfSelf(net.nodes.Keys, n);
    } else {
      NodeOf(b, net, net.nodes[n].succ.id);
      IdealNeighbours(net.nodes.Keys, net.nodes[n], net.nodes[net.nodes[n].succ.id]);
    }
  }

  /** The ideal ring is where all pointers agree. */
  lemma KnownIffIdeal(b: int, net: Net)
    requires SmoothNet(b, net)
    ensures IdealNet(net) <==> AllKnown(net)
  {
    if IdealNet(net) {
      forall n | n in net.nodes ensures KnownOrAlone(net, n) {
        IdealKnows(b, net, n);
      }
    }
    if AllKnown(net) {
      KnownIsIdeal(b, net);
    }
  }

  /** Every settled network is the ideal ring, unless some vnode is unknown to its successor. */
  lemma QuietIsIdeal(c: Config, b: int, net: Net)
    requires GoodClients(c) && SmoothNet(b, net) && Quiet(c, net) && VnodesKnown(net)
    ensures IdealNet(net)
  {
    forall n | n in net.nodes ensures KnownOrAlone(net, n) {
      RoundIdleIff(c, b, net, n);
      assert RoundIdle(c, net, n);
    }
    KnownIffIdeal(b, net);
  }

  /** And on the ideal ring nothing is left to do. */
  lemma IdealIsQuiet(c: Config, b: int, net: Net)
    requires GoodClients(c) && SmoothNet(b, net) && IdealNet(net)
    ensures Quiet(c, net) && VnodesKnown(net)
  {
    KnownIffIdeal(b, net);
    forall n | n in net.nodes ensures RoundIdle(c, net, n) {
      RoundIdleIff(c, b, net, n);
      assert KnownOrAlone(net, n);
    }
    forall n | n in net.nodes && net.nodes[n].succ.id != n ensures KnownToSuccessor(net, n) {
      assert KnownOrAlone(net, n);
    }
  }

  /** A network is the ideal ring if and only if it is settled and every vnode is known to its successor. */
  lemma QuietIffIdeal(c: Config, b: int, net: Net)
    requires GoodClients(c) && SmoothNet(b, net)
    ensures IdealNet(net) <==> Quiet(c, net) && VnodesKnown(net)
  {
    if IdealNet(net) {
      IdealIsQuiet(c, b, net);
    }
    if Quiet(c, net) && VnodesKnown(net) {
      QuietIsIdeal(c, b, net);
    }
  }

  /** The same in every state of every failure-free run. */
  lemma SettledIffIdeal(c: Config, first: NodeInfo, nets: seq<Net>, events: seq<Event>, i: nat)
    requires GoodClients(c) && ValidId(first.id) && IsSmoothRun(c, nets, events)
    requires nets[0] == SingleNode(first) && i < |nets|
    ensures IdealNet(nets[i]) <==> Quiet(c, nets[i]) && VnodesKnown(nets[i])
    ensures AllPhysical(nets[i]) ==> VnodesKnown(nets[i])
  {
    StartIsSmooth(first);
    RunSmooth(c, first.id, nets, events, i);
    QuietIffIdeal(c, first.id, nets[i]);
  }
}
