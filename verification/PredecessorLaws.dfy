/** What notifications, checks and departures do to the pointers, said of the messages and pings they involve
    (protocol.go:38-143, maintenance.go:337-362, 1079-1109).
 */
module PredecessorLaws {
  import opened Ring
  import opened Wrappers
  import opened NodeLists
  import opened NodeSpec
  import opened IdealRing
  import opened Settled
  import Sets

  /** The node has a predecessor other than itself and a client to ping it with. */
  predicate CanPing(st: NodeState, opts: Options) {
    st.pred.Some? && st.pred.value.id != st.self.id && opts.hasClient
  }

  predicate Welcome(st: NodeState, candidate: NodeInfo) {
    ValidNodeInfo(candidate) && candidate.id != st.self.id && st.status != Leaving && st.status != Joining
  }

  predicate Between(st: NodeState, candidate: NodeInfo) {
    st.pred.Some? && InRangeOpenOpen(candidate.id, st.pred.value.id, st.self.id)
  }

  /** A welcome candidate becomes the predecessor if and only if there is none, or the one there is does not answer
      this call's ping, or the candidate lies strictly between the two; the answer says so.  Nothing else but the
      count of a predecessor that answered changes. */
  lemma RectifyLaw(st: NodeState, opts: Options, candidate: NodeInfo, answer: bool)
    ensures var after, reply := Rectification(st, opts, candidate, answer), RectificationReply(st, opts, candidate, answer);
            var answers := CanPing(st, opts) && st.pred.value.id != EMPTY && answer;
            var taken := st.pred.None? || (CanPing(st, opts) && !answers) || Between(st, candidate);
            if !Welcome(st, candidate) then after == st && reply == RectifyRefused
            else
              && after.pred == (if taken then Some(candidate) else st.pred) && reply == RectifyAnswer(taken, after.pred)
              && after.predList == (if !taken then st.predList
                                    else if st.pred.Some? && (opts.predecessorListSize <= 0 || opts.predecessorListSize > 1)
                                    then [candidate, st.pred.value] else [candidate])
              && after.self == st.self && after.status == st.status && after.succ == st.succ && after.list == st.list
              && after.failures == (if answers then st.failures - {st.pred.value.id} else st.failures)
  {
  }

  /** The predecessor is given up if and only if there is one to ping and it misses both pings. */
  lemma CheckLaw(st: NodeState, opts: Options, first: bool, second: bool)
    ensures var after := PredecessorCheck(st, opts, first, second);
            && after.pred == (if CanPing(st, opts) && !first && !second then None else st.pred)
            && after.self == st.self && after.status == st.status && after.succ == st.succ && after.list == st.list
            && after.failures == (if CanPing(st, opts) && (first || second) then st.failures - {st.pred.value.id}
                                  else st.failures)
  {
  }

  // ----- leaving -----

  /** A leave message writes the pointer it names and no other; a new successor goes in front of the old list. */
  lemma LeaveLaw(st: NodeState, opts: Options, req: LeaveRequest)
    ensures var after := LeaveStep(st, opts, req);
            && after.self == st.self && after.status == st.status && after.fingers == st.fingers && after.failures == st.failures
            && match req
               case PredecessorLeaving(p) => after.pred == p && after.succ == st.succ && after.list == st.list
               case SuccessorLeaving(Some(s)) =>
                 after.pred == st.pred && after.succ == s && after.list == Merge(st.self, opts.listSize, opts.siblingCap, s, st.list)
               case _ => after == st
  {
  }

  /** What a leaving node tells its successor and its predecessor. */
  function ToSuccessor(leaver: NodeState): LeaveRequest {
    PredecessorLeaving(leaver.pred)
  }

  function ToPredecessor(leaver: NodeState): LeaveRequest {
    SuccessorLeaving(Some(leaver.succ))
  }

  /** A member after the messages of a leaving node that are meant for it. */
  function AfterLeaving(st: NodeState, opts: Options, leaver: NodeState): NodeState {
    var told := if leaver.succ.id == st.self.id && leaver.succ.id != leaver.self.id
                then LeaveStep(st, opts, ToSuccessor(leaver)) else st;
    if leaver.pred.Some? && leaver.pred.value.id == st.self.id && leaver.pred.value.id != leaver.self.id
    then LeaveStep(told, opts, ToPredecessor(leaver)) else told
  }

  lemma NextWithout(s: set<int>, n: int, x: int, y: int)
    requires Members(s) && IsNext(s, n, x) && n != y && x != y
    ensures IsNext(s - {y}, n, x)
  {
  }

  /** Taking out the node in between joins the two arcs. */
  lemma NextOver(s: set<int>, n: int, y: int, x: int)
    requires Members(s) && IsNext(s, n, y) && IsNext(s, y, x) && n != y && x != y
    ensures IsNext(s - {y}, n, x)
  {
    forall z | z in s - {y} ensures !InRangeOpenOpen(z, n, x) {
      assert !InRangeOpenOpen(z, n, y) && !InRangeOpenOpen(z, y, x);
      assert !InRangeOpenOpen(x, n, y) && !InRangeOpenOpen(n, y, x);
    }
  }

  lemma SameNeighbour(s: set<int>, n: int, m: int, y: int)
    requires Members(s) && IsNext(s, n, y) && IsNext(s, m, y) && n != y && m != y
    ensures n == m
  {
    assert !InRangeOpenOpen(n, m, y) && !InRangeOpenOpen(m, n, y);
  }

  lemma SameFollower(s: set<int>, y: int, n: int, m: int)
    requires Members(s) && IsNext(s, y, n) && IsNext(s, y, m) && n != y && m != y
    ensures n == m
  {
    assert !InRangeOpenOpen(n, y, m) && !InRangeOpenOpen(m, y, n);
  }

  lemma OthersExist(s: set<int>, st: NodeState, n: int)
    requires Members(s) && IdealNode(s, st) && n in s && n != st.self.id
    ensures st.succ.id != st.self.id && st.pred.Some? && st.pred.value.id != st.self.id
  {
    assert !InRangeOpenOpen(n, st.self.id, st.succ.id);
    assert s != {st.self.id} && !InRangeOpenOpen(n, st.pred.value.id, st.self.id);
  }

  /** A node that leaves an ideal ring of at least three closes the ring behind it: with its two messages handled,
      the pointers of everyone else are those of the ideal ring without it. */
  lemma LeaveClosesRing(s: set<int>, leaver: NodeState, st: NodeState, opts: Options)
    requires Members(s) && IdealNode(s, leaver) && IdealNode(s, st) && st.self.id != leaver.self.id
    requires s - {leaver.self.id} != {st.self.id}
    ensures IdealNode(s - {leaver.self.id}, AfterLeaving(st, opts, leaver))
  {
    var y, n := leaver.self.id, st.self.id;
    OthersExist(s, leaver, n);
    OthersExist(s, st, y);
    if st.succ.id == y {
      SameNeighbour(s, n, leaver.pred.value.id, y);
      NextOver(s, n, y, leaver.succ.id);
    } else {
      if leaver.pred.value.id == n {
        SameFollower(s, n, y, st.succ.id);
      }
      NextWithout(s, n, st.succ.id, y);
    }
    if st.pred.value.id == y {
      SameFollower(s, y, n, leaver.succ.id);
      NextOver(s, leaver.pred.value.id, y, n);
    } else {
      if leaver.succ.id == n {
        SameNeighbour(s, y, st.pred.value.id, n);
      }
      NextWithout(s, st.pred.value.id, n, y);
    }
  }

  /** Of two, the one left behind is its own successor, but also its own predecessor, which the ideal ring of one
      node does not have: the message names it.  So the ring is closed if and only if more than two were in it. */
  lemma LeaveClosesRingIff(s: set<int>, leaver: NodeState, st: NodeState, opts: Options)
    requires Members(s) && IdealNode(s, leaver) && IdealNode(s, st) && st.self.id != leaver.self.id
    ensures IdealNode(s - {leaver.self.id}, AfterLeaving(st, opts, leaver)) <==> |s| > 2
  {
    var y, n := leaver.self.id, st.self.id;
    OthersExist(s, leaver, n);
    OthersExist(s, st, y);
    if s - {y} == {n} {
      assert s == (s - {y}) + {y};
      assert leaver.succ.id == n && leaver.pred.value.id == n;
    } else {
      LeaveClosesRing(s, leaver, st, opts);
      Sets.SubsetCard({y, n}, s);
    }
  }
}
