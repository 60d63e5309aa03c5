/** What steps of failure-free runs leave alone, and why the ideal ring, once reached, stays. */
module Settling {
  import opened Ring
  import opened Sets
  import opened Wrappers
  import opened NodeLists
  import opened NodeSpec
  import opened ShapeRuns
  import opened IdealRing
  import opened StableBase
  import opened Convergence
  import opened Settled

  ghost predicate JoinsNobody(events: seq<Event>) {
    forall i :: 0 <= i < |events| ==> !events[i].JoinNode?
  }

  ghost predicate SameSelves(before: Net, after: Net) {
    before.nodes.Keys == after.nodes.Keys && forall n :: n in before.nodes ==> after.nodes[n].self == before.nodes[n].self
  }

  lemma RecordedSelves(net: Net, n: int, st: NodeState)
    requires n in net.nodes && st.self == net.nodes[n].self
    ensures SameSelves(net, Record(net, n, st))
  {
  }

  lemma ActKeepsSelves(c: Config, b: int, net: Net, n: int, snap: NodeState, a: Action)
    requires GoodClients(c) && SmoothNet(b, net) && Smooth(c, net, Act(n, snap, a))
    ensures SameSelves(net, Effect(c, net, Act(n, snap, a)))
  {
    ActSmooth(c, b, net, n, snap, a);
    RecordedSelves(net, n, Apply(net.nodes[n], snap, c.opts(n), a));
  }

  lemma SelvesStay(c: Config, b: int, net: Net, e: Event)
    requires GoodClients(c) && SmoothNet(b, net) && Smooth(c, net, e) && !e.JoinNode?
    ensures SameSelves(net, Effect(c, net, e))
  {
    if e.Act? {
      ActKeepsSelves(c, b, net, e.n, e.snap, e.action);
    } else {
      OthersKeepNodes(c, net, e);
    }
  }

  lemma PhysicalStay(before: Net, after: Net)
    requires SameSelves(before, after) && AllPhysical(before)
    ensures AllPhysical(after)
  {
    forall n | n in after.nodes ensures ValidNodeInfo(after.nodes[n].self) {
      assert n in after.nodes.Keys && n in before.nodes;
    }
  }

  // ----- networks with the same members and the same pointers -----

  ghost predicate Alike(before: Net, after: Net) {
    SameSelves(before, after) && !ChangesPointers(before, after)
  }

  lemma AlikeAt(before: Net, after: Net, n: int)
    requires Alike(before, after) && n in before.nodes
    ensures n in after.nodes && SamePointers(before.nodes[n], after.nodes[n]) && before.nodes[n].self == after.nodes[n].self
  {
    assert n in before.nodes.Keys;
  }

  lemma AlikeChain(a: Net, b: Net, c: Net)
    requires Alike(a, b) && Alike(b, c)
    ensures Alike(a, c)
  {
    forall n | n in a.nodes && n in c.nodes ensures SamePointers(a.nodes[n], c.nodes[n]) {
      AlikeAt(a, b, n);
      AlikeAt(b, c, n);
    }
    forall n | n in a.nodes ensures c.nodes[n].self == a.nodes[n].self {
      AlikeAt(a, b, n);
      AlikeAt(b, c, n);
    }
  }

  lemma AlikeBack(a: Net, b: Net)
    requires Alike(a, b)
    ensures Alike(b, a)
  {
    forall n | n in b.nodes ensures n in a.nodes && SamePointers(b.nodes[n], a.nodes[n]) && a.nodes[n].self == b.nodes[n].self {
      assert n in b.nodes.Keys && n in a.nodes;
      AlikeAt(a, b, n);
    }
  }

  /** Whether a round would change anything depends on the pointers alone. */
  lemma AlikeIdle(a: Net, b: Net, n: int)
    requires Alike(a, b) && n in a.nodes && a.nodes[n].succ.id in a.nodes && a.nodes[a.nodes[n].succ.id].self.id == a.nodes[n].succ.id
    requires a.nodes[n].self.id == n
    ensures n in b.nodes && b.nodes[n].succ.id in b.nodes && (IdlePointers(a, n) <==> IdlePointers(b, n))
  {
    AlikeAt(a, b, n);
    AlikeAt(a, b, a.nodes[n].succ.id);
  }

  // ----- the ideal ring stays -----

  /** Where the gaps cannot shrink, a step that only ever shrinks them changes nothing. */
  lemma IdealNodeStays(members: set<int>, b: int, st: NodeState, st': NodeState)
    requires SmoothNode(members, b, st) && IdealNode(members, st) && Advances(members, b, st, st')
    requires forall y :: y in members ==> ValidId(y)
    ensures SamePointers(st, st')
  {
    assert !InRangeOpenOpen(st'.succ.id, st.self.id, st.succ.id);
    if st'.pred.Some? && st.pred.Some? {
      assert !InRangeOpenOpen(st'.pred.value.id, st.pred.value.id, st.self.id);
    }
  }

  lemma IdealNodeKept(members: set<int>, st: NodeState, st': NodeState)
    requires IdealNode(members, st) && SamePointers(st, st') && st'.self == st.self
    ensures IdealNode(members, st')
  {
  }

  lemma AlikeIdeal(net: Net, after: Net)
    requires IdealNet(net) && Alike(net, after)
    ensures IdealNet(after)
  {
    assert after.nodes.Keys == net.nodes.Keys;
    forall n | n in after.nodes ensures IdealNode(after.nodes.Keys, after.nodes[n]) {
      assert n in after.nodes.Keys && n in net.nodes;
      AlikeAt(net, after, n);
      IdealNodeKept(net.nodes.Keys, net.nodes[n], after.nodes[n]);
    }
  }

  lemma RecordedSame(net: Net, n: int, st: NodeState)
    requires n in net.nodes && SamePointers(net.nodes[n], st)
    ensures !ChangesPointers(net, Record(net, n, st))
  {
  }

  lemma LeavesIdeal(b: int, net: Net, n: int, st: NodeState, after: Net)
    requires SmoothNet(b, net) && Leaves(b, net, n, st, after) && IdealNode(net.nodes.Keys, net.nodes[n])
    ensures !ChangesPointers(net, after)
  {
    MembersAreValid(b, net);
    IdealNodeStays(net.nodes.Keys, b, net.nodes[n], st);
    RecordedSame(net, n, st);
  }

  lemma ActLeavesIdeal(c: Config, b: int, net: Net, n: int, snap: NodeState, a: Action)
    requires GoodClients(c) && SmoothNet(b, net) && Smooth(c, net, Act(n, snap, a)) && IdealNet(net)
    ensures !ChangesPointers(net, Effect(c, net, Act(n, snap, a)))
  {
    ActLeaves(c, b, net, n, snap, a);
    LeavesIdeal(b, net, n, Apply(net.nodes[n], snap, c.opts(n), a), Effect(c, net, Act(n, snap, a)));
  }

  /** No step but a join, however stale its replies, moves a pointer of the ideal ring. */
  lemma IdealRingStays(c: Config, b: int, net: Net, e: Event)
    requires GoodClients(c) && SmoothNet(b, net) && Smooth(c, net, e) && !e.JoinNode? && IdealNet(net)
    ensures !ChangesPointers(net, Effect(c, net, e)) && IdealNet(Effect(c, net, e))
  {
    if e.Act? {
      ActLeavesIdeal(c, b, net, e.n, e.snap, e.action);
    } else {
      OthersKeepNodes(c, net, e);
    }
    SelvesStay(c, b, net, e);
    AlikeIdeal(net, Effect(c, net, e));
  }
}
