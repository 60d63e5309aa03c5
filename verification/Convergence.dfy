/** Failure-free runs from one activated node: between joins the pointers settle.  Module Settled shows that
    they settle on the ideal ring.

    These are runs of the same network machine in which every call is answered, nobody crashes, and each
    node's maintenance runs in one loop (its own successor and list are current when it writes; replies and
    its predecessor may still be stale).  The first node plays the base.
 */
module Convergence {
  import opened Ring
  import opened Sets
  import opened Wrappers
  import opened NodeLists
  import opened ListOrder
  import opened NodeSpec
  import opened NoSkip
  import opened ShapeRuns
  import opened Lookup
  import opened LookupTheorems
  import opened IdealRing
  import opened StableBase

  /** What the contact may answer: a predecessor and a list it once had, not necessarily at the same time. */
  ghost predicate ReplyOf(net: Net, contact: NodeInfo, reply: PeerState) {
    && (exists v :: v in net.seen && v.self.id == contact.id && reply.pred == v.pred)
    && (exists w :: w in net.seen && w.self.id == contact.id && reply.list == w.list)
  }

  /** Steps of a failure-free run. */
  ghost predicate Smooth(c: Config, net: Net, e: Event) {
    && Enabled(c, net, e)
    && match e
       case Crash(_) => false
       case Act(n, snap, a) =>
         && snap.succ == net.nodes[n].succ && snap.list == net.nodes[n].list
         && (match a
             case CommitStabilize(fetch, alive) =>
               && (forall k: nat :: alive(k))
               && (forall k: nat :: k < |Candidates(snap)| ==>
                     fetch(k).Some? && ReplyOf(net, Queried(snap, k), fetch(k).value))
             case CommitValidate(p) => forall i: nat :: p.alive(i) && p.extAlive(i)
             case CommitRectify(candidate, alive) =>
               alive && candidate.id in net.nodes && !RectifyRefuses(net.nodes[n], candidate)
             case Succeeded(_) => true
             case _ => false)
       case JoinNode(self, _, _, _) => true
       case _ => true
  }

  /** What every state in a failure-free run satisfies, with `b` the node activated first. */
  ghost predicate SmoothNode(members: set<int>, b: int, st: NodeState) {
    && st.status == Active && ValidId(st.self.id) && st.self.id in members
    && ValidId(st.succ.id) && st.succ.id in members && !InRangeOpenOpen(b, st.self.id, st.succ.id)
    && st.list != [] && st.list[0] == st.succ && Ids(st.list) <= members
    && (st.pred.Some? ==> st.pred.value.id in members && st.pred.value.id != st.self.id && ValidNodeInfo(st.pred.value))
  }

  ghost predicate SmoothArc(members: set<int>, b: int, from: int, succ: NodeInfo) {
    ValidId(from) && ValidId(succ.id) && succ.id in members && !InRangeOpenOpen(b, from, succ.id)
  }

  ghost predicate SmoothAnswer(members: set<int>, b: int, a: Answer) {
    ValidId(a.succ.id) && a.succ.id in members && (a.succ.id == a.target || SmoothArc(members, b, a.target, a.succ))
  }

  ghost predicate SmoothLine(members: set<int>, b: int, l: CacheLine) {
    SmoothArc(members, b, l.pred, l.succ) && InRangeOpenClosed(l.target, l.pred, l.succ.id)
  }

  ghost predicate SmoothNet(b: int, net: Net) {
    ValidId(b) && b in net.nodes && SmoothFor(b, net.nodes.Keys, net)
  }

  ghost predicate SmoothFor(b: int, members: set<int>, net: Net) {
    && (forall n :: n in net.nodes ==> net.nodes[n].self.id == n && net.nodes[n] in net.seen)
    && (forall v :: v in net.seen ==> SmoothNode(members, b, v))
    && (forall a :: a in net.answers ==> SmoothAnswer(members, b, a))
    && (forall l :: l in net.cached ==> SmoothLine(members, b, l))
  }

  function SingleNode(self: NodeInfo): Net {
    var st := ActivateSingle(NewNode(self));
    Net(map[self.id := st], {st}, {}, {})
  }

  lemma StartIsSmooth(self: NodeInfo)
    requires ValidId(self.id)
    ensures SmoothNet(self.id, SingleNode(self))
  {
    assert Ids([self]) == {self.id};
  }

  lemma FirstCandidateIsSuccessor(snap: NodeState)
    requires snap.succ.id != EMPTY
    ensures |Candidates(snap)| > 0 && Candidates(snap)[0] == snap.succ
  {
    DedupePrefix([snap.succ], snap.list);
    assert Dedupe([snap.succ], EMPTY) == [snap.succ] by {
      assert [snap.succ][..0] == [];
    }
  }

  lemma {:induction false} DedupePrefix(s: seq<NodeInfo>, t: seq<NodeInfo>)
    ensures Dedupe(s, EMPTY) <= Dedupe(s + t, EMPTY)
    decreases |t|
  {
    if t == [] {
      assert s + t == s;
    } else {
      assert (s + t)[..|s + t| - 1] == s + t[..|t| - 1];
      DedupePrefix(s, t[..|t| - 1]);
    }
  }

  /** What a Stabilize whose calls are answered decides, given the reply `reply` of its successor. */
  lemma SmoothDecision(snap: NodeState, fetch: nat -> Option<PeerState>, alive: nat -> bool)
    requires snap.succ.id != EMPTY && fetch(0).Some? && alive(0)
    requires snap.pred.Some? ==> snap.pred.value.id != EMPTY && snap.pred.value.id != snap.self.id
    ensures var d := Decide(snap, true, Candidates(snap), 0, fetch, alive);
            if snap.succ.id == snap.self.id then
              if snap.pred.None? then d == StaySingle(0)
              else d == Bootstrap(0, snap.pred.value, fetch(0).value.list)
            else if Improves(snap.self.id, snap.succ, fetch(0).value, true, true) then
              d == Adopt(0, snap.succ, fetch(0).value.pred.value, [snap.succ] + fetch(0).value.list)
            else d == Adopt(0, snap.succ, snap.succ, fetch(0).value.list)
  {
    FirstCandidateIsSuccessor(snap);
  }

  /** A merge names nobody but this node, the successor and the entries of the peer's list. */
  lemma MergeNames(self: NodeInfo, size: int, cap: real, succ: NodeInfo, remote: seq<NodeInfo>)
    requires self.id != EMPTY
    ensures Ids(Merge(self, size, cap, succ, remote)) <= {self.id, succ.id} + Ids(remote)
  {
    MergeMeaning(self, size, cap, succ, remote);
    var r := Merge(self, size, cap, succ, remote);
    if r != [self] {
      forall n | n in r ensures n.id in {self.id, succ.id} + Ids(remote) {
        SubsequenceMember(r, [succ] + remote, n);
      }
    }
  }

  lemma InstallNames(st: NodeState, opts: Options, succ: NodeInfo, remote: seq<NodeInfo>, members: set<int>)
    requires st.self.id != EMPTY && succ.id != EMPTY && succ.id != st.self.id
    requires st.self.id in members && succ.id in members && Ids(remote) <= members
    ensures var list := Install(st, opts, succ, remote).list;
            list != [] && list[0] == succ && Ids(list) <= members
  {
    MergeMeaning(st.self, opts.listSize, opts.siblingCap, succ, remote);
    MergeNames(st.self, opts.listSize, opts.siblingCap, succ, remote);
  }

  /** The successor after a Stabilize whose successor replied with its predecessor in an earlier state `v`:
      unchanged, or nearer. */
  lemma CommitSmooth(members: set<int>, b: int, cur: NodeState, snap: NodeState, opts: Options, v: NodeState, w: NodeState,
                     fetch: nat -> Option<PeerState>, alive: nat -> bool)
    requires ValidId(b) && SmoothNode(members, b, cur) && SmoothNode(members, b, snap)
    requires SmoothNode(members, b, v) && SmoothNode(members, b, w)
    requires snap.self == cur.self && snap.succ == cur.succ && opts.hasClient && alive(0)
    requires |Candidates(snap)| > 0 && v.self.id == Queried(snap, 0).id && fetch(0) == Some(PeerState(v.pred, w.list))
    ensures var st := Commit(cur, snap.succ.id, opts, Decide(snap, opts.hasClient, Candidates(snap), 0, fetch, alive));
            && SmoothNode(members, b, st) && st.self == cur.self && st.pred == cur.pred
            && (st.succ.id == cur.succ.id || Gap(cur.self.id, st.succ.id) < Gap(cur.self.id, cur.succ.id))
  {
    SmoothDecision(snap, fetch, alive);
    FirstCandidateIsSuccessor(snap);
    match Decide(snap, true, Candidates(snap), 0, fetch, alive)
    case Bootstrap(_, succ, remote) => InstallNames(cur, opts, succ, remote, members);
    case Adopt(_, contact, succ, remote) =>
      assert forall n :: n in [contact] + w.list ==> n == contact || n in w.list;
      InstallNames(cur, opts, succ, remote, members);
    case StaySingle(_) => assert Ids([cur.self]) == {cur.self.id};
    case NoCandidate(_) =>
  }

  lemma StabilizeSmooth(c: Config, b: int, net: Net, n: int, snap: NodeState, fetch: nat -> Option<PeerState>, alive: nat -> bool)
    requires GoodClients(c) && SmoothNet(b, net) && Smooth(c, net, Act(n, snap, CommitStabilize(fetch, alive)))
    ensures var st := Apply(net.nodes[n], snap, c.opts(n), CommitStabilize(fetch, alive));
            && SmoothNode(net.nodes.Keys, b, st) && st.self == net.nodes[n].self && st.pred == net.nodes[n].pred
            && (st.succ.id == net.nodes[n].succ.id || Gap(n, st.succ.id) < Gap(n, net.nodes[n].succ.id))
  {
    assert SmoothNode(net.nodes.Keys, b, snap) && SmoothNode(net.nodes.Keys, b, net.nodes[n]);
    FirstCandidateIsSuccessor(snap);
    assert fetch(0).Some? && ReplyOf(net, Queried(snap, 0), fetch(0).value);
    var v :| v in net.seen && v.self.id == Queried(snap, 0).id && fetch(0).value.pred == v.pred;
    var w :| w in net.seen && w.self.id == Queried(snap, 0).id && fetch(0).value.list == w.list;
    CommitSmooth(net.nodes.Keys, b, net.nodes[n], snap, c.opts(n), v, w, fetch, alive);
  }

  ghost predicate GoodClients(c: Config) {
    forall n :: c.opts(n).hasClient
  }

  /** With everyone alive, validation keeps the head of the list, hence the successor. */
  lemma {:induction false} KeepLiveHead(self: int, current: seq<NodeInfo>, alive: nat -> bool, i: nat, out: seq<NodeInfo>, limit: nat)
    requires i <= |current|
    ensures var r := KeepLive(self, current, true, alive, i, out, limit);
            out <= r && Ids(r) <= Ids(out) + Ids(current)
    decreases |current| - i
  {
    if i < |current| && |out| < limit {
      AnchorCountAppend(out, current[i]);
      if !PingAnswer(self, current[i], true, alive(i)) || current[i].id in Ids(out) {
        KeepLiveHead(self, current, alive, i + 1, out, limit);
      } else {
        KeepLiveHead(self, current, alive, i + 1, out + [current[i]], limit);
      }
    }
  }

  lemma {:induction false} ExtendHead(self: int, more: seq<NodeInfo>, alive: nat -> bool, i: nat, out: seq<NodeInfo>, limit: nat)
    requires i <= |more|
    ensures var r := Extend(self, more, true, alive, i, out, limit);
            out <= r && Ids(r) <= Ids(out) + Ids(more)
    decreases |more| - i
  {
    if i < |more| && |out| < limit {
      AnchorCountAppend(out, more[i]);
      if more[i].id == EMPTY || more[i].id == self || more[i].id in Ids(out) || !PingAnswer(self, more[i], true, alive(i)) {
        ExtendHead(self, more, alive, i + 1, out, limit);
      } else {
        ExtendHead(self, more, alive, i + 1, out + [more[i]], limit);
      }
    }
  }

  lemma ValidatedHead(self: int, current: seq<NodeInfo>, limit: nat, p: Probe)
    requires current != [] && current[0].id != EMPTY && limit > 0 && p.alive(0)
    ensures var r := Validated(self, current, limit, true, p);
            r != [] && r[0] == current[0]
  {
    assert [] + [current[0]] == [current[0]];
    KeepLiveHead(self, current, p.alive, 1, [current[0]], limit);
    var kept := KeepLive(self, current, true, p.alive, 0, [], limit);
    assert kept == KeepLive(self, current, true, p.alive, 1, [current[0]], limit);
    if ExtendsFrom(self, kept, true, limit) && p.lastList.Some? {
      ExtendHead(self, p.lastList.value, p.extAlive, 0, kept, limit);
    }
  }

  /** The predecessor after a Rectify from a live member: unchanged, or nearer. */
  function PredGap(st: NodeState): nat {
    if st.pred.None? || !ValidId(st.self.id) || !ValidId(st.pred.value.id) then M
    else Gap(st.pred.value.id, st.self.id)
  }

  function SuccGap(st: NodeState): nat {
    if ValidId(st.self.id) && ValidId(st.succ.id) then Gap(st.self.id, st.succ.id) else M
  }

  predicate SamePointers(a: NodeState, b: NodeState) {
    a.succ.id == b.succ.id && (a.pred.Some? <==> b.pred.Some?) && (a.pred.Some? ==> a.pred.value.id == b.pred.value.id)
  }

  /** Validation names members only: it extends by what some member's list held. */
  lemma ValidatedNames(c: Config, b: int, net: Net, n: int, snap: NodeState, p: Probe)
    requires GoodClients(c) && SmoothNet(b, net) && Smooth(c, net, Act(n, snap, CommitValidate(p)))
    ensures Ids(Validated(n, Entries(snap), LimitOf(c, n), true, p)) <= net.nodes.Keys
  {
    var current, limit := Entries(snap), LimitOf(c, n);
    assert SmoothNode(net.nodes.Keys, b, snap) && snap.self.id == n;
    KeepLiveHead(n, current, p.alive, 0, [], limit);
    var kept := KeepLive(n, current, true, p.alive, 0, [], limit);
    if ExtendsFrom(n, kept, true, limit) && p.lastList.Some? {
      FromPeerNames(b, net, kept[|kept| - 1], PeerState(None, p.lastList.value));
      ExtendHead(n, p.lastList.value, p.extAlive, 0, kept, limit);
    }
  }

  lemma FromPeerNames(b: int, net: Net, contact: NodeInfo, reply: PeerState)
    requires SmoothNet(b, net) && FromPeer(net, contact, reply)
    ensures Ids(reply.list) <= net.nodes.Keys
  {
    if reply.list != [] {
      var v :| v in net.seen && v.self.id == contact.id && reply.list == v.list;
      assert SmoothNode(net.nodes.Keys, b, v);
    }
  }

  lemma ValidateSmooth(c: Config, b: int, net: Net, n: int, snap: NodeState, p: Probe)
    requires GoodClients(c) && SmoothNet(b, net) && Smooth(c, net, Act(n, snap, CommitValidate(p)))
    ensures var st := Apply(net.nodes[n], snap, c.opts(n), CommitValidate(p));
            SmoothNode(net.nodes.Keys, b, st) && st.self == net.nodes[n].self && SamePointers(st, net.nodes[n])
  {
    assert SmoothNode(net.nodes.Keys, b, snap) && SmoothNode(net.nodes.Keys, b, net.nodes[n]);
    ValidatedHead(n, Entries(snap), LimitOf(c, n), p);
    ValidatedNames(c, b, net, n, snap, p);
  }

  lemma RectifySmooth(members: set<int>, b: int, st: NodeState, opts: Options, candidate: NodeInfo, snapPred: Option<NodeInfo>)
    requires SmoothNode(members, b, st) && candidate.id in members && !RectifyRefuses(st, candidate)
    ensures var r := RectifyCommit(st, opts, candidate, snapPred, true);
            && SmoothNode(members, b, r) && r.self == st.self && r.succ == st.succ
            && (r.pred == st.pred || PredGap(r) < PredGap(st))
  {
  }

  predicate SamePredecessor(a: NodeState, b: NodeState) {
    (a.pred.Some? <==> b.pred.Some?) && (a.pred.Some? ==> a.pred.value.id == b.pred.value.id)
  }

  /** What every step of a failure-free run does to its node: still smooth, and any pointer that changed
      came strictly nearer. */
  ghost predicate Advances(members: set<int>, b: int, before: NodeState, after: NodeState) {
    && SmoothNode(members, b, after) && after.self == before.self
    && (after.succ.id == before.succ.id || SuccGap(after) < SuccGap(before))
    && (SamePredecessor(after, before) || (after.pred.Some? && PredGap(after) < PredGap(before)))
  }

  lemma SucceededAdvances(c: Config, b: int, net: Net, n: int, snap: NodeState, ids: set<int>)
    requires SmoothNet(b, net) && Smooth(c, net, Act(n, snap, Succeeded(ids)))
    ensures Advances(net.nodes.Keys, b, net.nodes[n], Apply(net.nodes[n], snap, c.opts(n), Succeeded(ids)))
  {
    assert SmoothNode(net.nodes.Keys, b, net.nodes[n]);
  }

  lemma RectifyAdvances(c: Config, b: int, net: Net, n: int, snap: NodeState, candidate: NodeInfo, alive: bool)
    requires SmoothNet(b, net) && Smooth(c, net, Act(n, snap, CommitRectify(candidate, alive)))
    ensures Advances(net.nodes.Keys, b, net.nodes[n], Apply(net.nodes[n], snap, c.opts(n), CommitRectify(candidate, alive)))
  {
    assert SmoothNode(net.nodes.Keys, b, net.nodes[n]);
    RectifySmooth(net.nodes.Keys, b, net.nodes[n], c.opts(n), candidate, snap.pred);
  }

  lemma ValidateAdvances(c: Config, b: int, net: Net, n: int, snap: NodeState, p: Probe)
    requires GoodClients(c) && SmoothNet(b, net) && Smooth(c, net, Act(n, snap, CommitValidate(p)))
    ensures Advances(net.nodes.Keys, b, net.nodes[n], Apply(net.nodes[n], snap, c.opts(n), CommitValidate(p)))
  {
    ValidateSmooth(c, b, net, n, snap, p);
  }

  lemma StabilizeAdvances(c: Config, b: int, net: Net, n: int, snap: NodeState, fetch: nat -> Option<PeerState>, alive: nat -> bool)
    requires GoodClients(c) && SmoothNet(b, net) && Smooth(c, net, Act(n, snap, CommitStabilize(fetch, alive)))
    ensures Advances(net.nodes.Keys, b, net.nodes[n], Apply(net.nodes[n], snap, c.opts(n), CommitStabilize(fetch, alive)))
  {
    StabilizeSmooth(c, b, net, n, snap, fetch, alive);
  }

  lemma ActSmooth(c: Config, b: int, net: Net, n: int, snap: NodeState, a: Action)
    requires GoodClients(c) && SmoothNet(b, net) && Smooth(c, net, Act(n, snap, a))
    ensures Advances(net.nodes.Keys, b, net.nodes[n], Apply(net.nodes[n], snap, c.opts(n), a))
  {
    match a
    case CommitStabilize(fetch, alive) => StabilizeAdvances(c, b, net, n, snap, fetch, alive);
    case CommitValidate(p) => ValidateAdvances(c, b, net, n, snap, p);
    case CommitRectify(candidate, alive) => RectifyAdvances(c, b, net, n, snap, candidate, alive);
    case Succeeded(ids) => SucceededAdvances(c, b, net, n, snap, ids);
    case _ =>
  }

  lemma MoreMembers(b: int, members: set<int>, more: set<int>, st: NodeState)
    requires members <= more && SmoothNode(members, b, st)
    ensures SmoothNode(more, b, st)
  {
  }

  lemma ArcsSurvive(b: int, members: set<int>, more: set<int>, net: Net)
    requires members <= more
    requires forall a :: a in net.answers ==> SmoothAnswer(members, b, a)
    requires forall l :: l in net.cached ==> SmoothLine(members, b, l)
    ensures forall a :: a in net.answers ==> SmoothAnswer(more, b, a)
    ensures forall l :: l in net.cached ==> SmoothLine(more, b, l)
  {
  }

  lemma NodesSurvive(b: int, members: set<int>, more: set<int>, seen: set<NodeState>)
    requires members <= more
    requires forall v :: v in seen ==> SmoothNode(members, b, v)
    ensures forall v :: v in seen ==> SmoothNode(more, b, v)
  {
    forall v | v in seen ensures SmoothNode(more, b, v) {
      MoreMembers(b, members, more, v);
    }
  }

  /** Recording a new state of node n, whatever is claimed of all states. */
  lemma RecordKeeps(net: Net, n: int, st: NodeState, p: NodeState -> bool)
    requires forall m :: m in net.nodes ==> net.nodes[m].self.id == m && net.nodes[m] in net.seen
    requires forall v :: v in net.seen ==> p(v)
    requires p(st) && st.self.id == n
    ensures var after := Record(net, n, st);
            && after.nodes.Keys == net.nodes.Keys + {n}
            && (n in net.nodes ==> after.nodes.Keys == net.nodes.Keys)
            && (forall m :: m in after.nodes ==> after.nodes[m].self.id == m && after.nodes[m] in after.seen)
            && (forall v :: v in after.seen ==> p(v))
            && (forall m :: m in net.nodes && m != n ==> after.nodes[m] == net.nodes[m])
            && after.nodes[n] == st
  {
  }

  lemma RecordSmooth(b: int, members: set<int>, more: set<int>, net: Net, n: int, st: NodeState)
    requires members <= more && SmoothFor(b, members, net) && st.self.id == n && SmoothNode(more, b, st)
    ensures SmoothFor(b, more, Record(net, n, st))
  {
    ArcsSurvive(b, members, more, net);
    NodesSurvive(b, members, more, net.seen);
    RecordKeeps(net, n, st, v => SmoothNode(more, b, v));
  }

  lemma SmoothSurvives(b: int, net: Net, n: int, st: NodeState)
    requires SmoothNet(b, net) && st.self.id == n && SmoothNode(net.nodes.Keys + {n}, b, st)
    ensures SmoothNet(b, Record(net, n, st))
  {
    RecordSmooth(b, net.nodes.Keys, net.nodes.Keys + {n}, net, n, st);
    RecordKeeps(net, n, st, v => true);
  }

  // ----- lookups and joins, stale caches included -----

  lemma AnswerSmooth(c: Config, b: int, net: Net, v: NodeState, r: Router, target: int)
    requires SmoothNet(b, net) && Enabled(c, net, AnswerLookup(v, r, target))
    ensures var reply := Route(r, Request(target, 0, DEFAULT_MAX_HOPS, []));
            reply.Found? ==>
              && reply.succ == v.succ
              && (reply.succ.id == target || SmoothArc(net.nodes.Keys, b, target, reply.succ))
              && SmoothArc(net.nodes.Keys, b, v.self.id, reply.succ)
              && InRangeOpenClosed(target, v.self.id, reply.succ.id)
  {
    assert SmoothNode(net.nodes.Keys, b, v);
    if !AnswersLocally(r, target) {
      FallbackUnreachable(r, target);
    }
  }

  lemma CacheAnswerSmooth(members: set<int>, b: int, line: CacheLine, target: int)
    requires ValidId(b) && SmoothArc(members, b, line.pred, line.succ)
    requires InRangeOpenClosed(line.target, line.pred, line.succ.id)
    requires line.target == target || InRangeOpenClosed(target, line.pred, line.succ.id)
    ensures line.succ.id == target || SmoothArc(members, b, target, line.succ)
  {
  }

  /** The state of a joiner whose successor is a member reached over a smooth arc. */
  lemma JoinerSmooth(members: set<int>, b: int, self: NodeInfo, opts: Options, succ: NodeInfo, seedList: seq<NodeInfo>)
    requires ValidId(self.id) && SmoothArc(members, b, self.id, succ) && succ.id != self.id && Ids(seedList) <= members
    ensures SmoothNode(members + {self.id}, b, JoinCommit(NewNode(self).(status := Joining), opts, succ, seedList))
  {
    MergeMeaning(self, opts.listSize, opts.siblingCap, succ, seedList);
    MergeNames(self, opts.listSize, opts.siblingCap, succ, seedList);
  }

  lemma JoinSmooth(c: Config, b: int, net: Net, self: NodeInfo, answer: Answer, peer: NodeState, seedList: seq<NodeInfo>)
    requires SmoothNet(b, net) && Enabled(c, net, JoinNode(self, answer, peer, seedList))
    ensures SmoothNet(b, Effect(c, net, JoinNode(self, answer, peer, seedList)))
  {
    assert SmoothNode(net.nodes.Keys, b, peer) && SmoothAnswer(net.nodes.Keys, b, answer);
    assert forall n :: n in seedList ==> n == answer.succ || n in peer.list;
    JoinerSmooth(net.nodes.Keys, b, self, c.opts(self.id), answer.succ, seedList);
    SmoothSurvives(b, net, self.id, JoinCommit(NewNode(self).(status := Joining), c.opts(self.id), answer.succ, seedList));
  }

  lemma AnswerAdded(b: int, members: set<int>, net: Net, a: Answer, lines: set<CacheLine>)
    requires SmoothFor(b, members, net) && SmoothAnswer(members, b, a)
    requires forall l :: l in lines ==> SmoothLine(members, b, l)
    ensures SmoothFor(b, members, net.(answers := net.answers + {a}, cached := net.cached + lines))
  {
  }

  lemma AnswerStaysSmooth(b: int, net: Net, a: Answer, lines: set<CacheLine>)
    requires SmoothNet(b, net) && SmoothAnswer(net.nodes.Keys, b, a)
    requires forall l :: l in lines ==> SmoothLine(net.nodes.Keys, b, l)
    ensures SmoothNet(b, net.(answers := net.answers + {a}, cached := net.cached + lines))
  {
    AnswerAdded(b, net.nodes.Keys, net, a, lines);
  }

  lemma LookupEffect(c: Config, net: Net, v: NodeState, r: Router, target: int)
    requires Enabled(c, net, AnswerLookup(v, r, target))
    ensures var reply := Route(r, Request(target, 0, DEFAULT_MAX_HOPS, []));
            Effect(c, net, AnswerLookup(v, r, target)) ==
              if reply.Found? then net.(answers := net.answers + {Answer(target, reply.succ)},
                                        cached := net.cached + {CacheLine(target, v.self.id, reply.succ)})
              else net
  {
  }

  lemma FoundStaysSmooth(b: int, net: Net, target: int, from: int, succ: NodeInfo)
    requires SmoothNet(b, net) && ValidId(succ.id) && succ.id in net.nodes
    requires succ.id == target || SmoothArc(net.nodes.Keys, b, target, succ)
    requires SmoothArc(net.nodes.Keys, b, from, succ) && InRangeOpenClosed(target, from, succ.id)
    ensures SmoothNet(b, net.(answers := net.answers + {Answer(target, succ)},
                              cached := net.cached + {CacheLine(target, from, succ)}))
  {
    AnswerStaysSmooth(b, net, Answer(target, succ), {CacheLine(target, from, succ)});
  }

  lemma LookupStepSmooth(c: Config, b: int, net: Net, v: NodeState, r: Router, target: int)
    requires SmoothNet(b, net) && Enabled(c, net, AnswerLookup(v, r, target))
    ensures SmoothNet(b, Effect(c, net, AnswerLookup(v, r, target)))
  {
    LookupEffect(c, net, v, r, target);
    AnswerSmooth(c, b, net, v, r, target);
    var reply := Route(r, Request(target, 0, DEFAULT_MAX_HOPS, []));
    if reply.Found? {
      FoundStaysSmooth(b, net, target, v.self.id, reply.succ);
    }
  }

  lemma CacheStepSmooth(c: Config, b: int, net: Net, line: CacheLine, target: int)
    requires SmoothNet(b, net) && Enabled(c, net, AnswerFromCache(line, target))
    ensures SmoothNet(b, Effect(c, net, AnswerFromCache(line, target)))
  {
    assert SmoothLine(net.nodes.Keys, b, line);
    CacheAnswerSmooth(net.nodes.Keys, b, line, target);
    AnswerStaysSmooth(b, net, Answer(target, line.succ), {});
    assert net.cached + {} == net.cached;
  }

  /** What a step of node n leaves behind, put so that the lemmas about it need not look at the step. */
  ghost predicate Leaves(b: int, net: Net, n: int, st: NodeState, after: Net) {
    && n in net.nodes && net.nodes[n].self.id == n && after == Record(net, n, st)
    && SmoothNode(net.nodes.Keys, b, net.nodes[n]) && Advances(net.nodes.Keys, b, net.nodes[n], st)
  }

  lemma ActLeaves(c: Config, b: int, net: Net, n: int, snap: NodeState, a: Action)
    requires GoodClients(c) && SmoothNet(b, net) && Smooth(c, net, Act(n, snap, a))
    ensures Leaves(b, net, n, Apply(net.nodes[n], snap, c.opts(n), a), Effect(c, net, Act(n, snap, a)))
  {
    ActSmooth(c, b, net, n, snap, a);
    assert SmoothNode(net.nodes.Keys, b, net.nodes[n]);
  }

  lemma SmoothOver(b: int, members: set<int>, net: Net)
    requires ValidId(b) && b in members && net.nodes.Keys == members && SmoothFor(b, members, net)
    ensures SmoothNet(b, net)
  {
  }

  lemma LeavesRecord(b: int, net: Net, n: int, st: NodeState, after: Net)
    requires Leaves(b, net, n, st, after)
    ensures after == Record(net, n, st) && after.nodes.Keys == net.nodes.Keys
    ensures st.self.id == n && SmoothNode(net.nodes.Keys, b, st)
  {
    assert after.nodes.Keys == net.nodes.Keys;
  }

  lemma LeavesSmooth(b: int, net: Net, n: int, st: NodeState, after: Net)
    requires SmoothNet(b, net) && Leaves(b, net, n, st, after)
    ensures SmoothNet(b, after)
  {
    LeavesRecord(b, net, n, st, after);
    RecordStaysSmooth(b, net, n, st, after);
  }

  lemma RecordStaysSmooth(b: int, net: Net, n: int, st: NodeState, after: Net)
    requires SmoothNet(b, net) && after == Record(net, n, st) && after.nodes.Keys == net.nodes.Keys
    requires st.self.id == n && SmoothNode(net.nodes.Keys, b, st)
    ensures SmoothNet(b, after)
  {
    RecordSmooth(b, net.nodes.Keys, net.nodes.Keys, net, n, st);
    SmoothOver(b, net.nodes.Keys, after);
  }

  lemma ActStepSmooth(c: Config, b: int, net: Net, n: int, snap: NodeState, a: Action)
    requires GoodClients(c) && SmoothNet(b, net) && Smooth(c, net, Act(n, snap, a))
    ensures SmoothNet(b, Effect(c, net, Act(n, snap, a)))
  {
    ActLeaves(c, b, net, n, snap, a);
    LeavesSmooth(b, net, n, Apply(net.nodes[n], snap, c.opts(n), a), Effect(c, net, Act(n, snap, a)));
  }

  /** Every step keeps the invariant: in particular no stale cache line, not even the full-circle line a
      one-node ring stores, ever has the first node strictly inside its interval, so a join it answers
      cannot jump over that node. */
  lemma StepSmooth(c: Config, b: int, net: Net, e: Event)
    requires GoodClients(c) && SmoothNet(b, net) && Smooth(c, net, e)
    ensures SmoothNet(b, Effect(c, net, e))
  {
    match e
    case Act(n, snap, a) => ActStepSmooth(c, b, net, n, snap, a);
    case AnswerLookup(v, r, target) => LookupStepSmooth(c, b, net, v, r, target);
    case AnswerFromCache(line, target) => CacheStepSmooth(c, b, net, line, target);
    case JoinNode(self, answer, peer, seedList) => JoinSmooth(c, b, net, self, answer, peer, seedList);
    case _ =>
  }

  // ----- the potential -----

  ghost predicate ChangesPointers(before: Net, after: Net) {
    exists n :: n in before.nodes && n in after.nodes && !SamePointers(before.nodes[n], after.nodes[n])
  }

  function NodeGap(net: Net, n: int): nat {
    if n in net.nodes then SuccGap(net.nodes[n]) + PredGap(net.nodes[n]) else 0
  }

  /** Sum over the nodes of the clockwise gaps to the successor and from the predecessor. */
  ghost function Potential(net: Net): nat {
    Sum(net.nodes.Keys, n => NodeGap(net, n))
  }

  /** A step that changes a pointer strictly lowers the sum of the gaps, and no step except a join raises it. */
  lemma PointerChangesLowerPotential(c: Config, b: int, net: Net, e: Event)
    requires GoodClients(c) && SmoothNet(b, net) && Smooth(c, net, e) && !e.JoinNode?
    ensures var after := Effect(c, net, e);
            && after.nodes.Keys == net.nodes.Keys
            && Potential(after) <= Potential(net)
            && (ChangesPointers(net, after) ==> Potential(after) < Potential(net))
  {
    if e.Act? {
      ActLowersPotential(c, b, net, e.n, e.snap, e.action);
    } else {
      OthersKeepNodes(c, net, e);
      SameNodes(net, Effect(c, net, e));
    }
  }

  lemma OthersKeepNodes(c: Config, net: Net, e: Event)
    requires Smooth(c, net, e) && !e.JoinNode? && !e.Act?
    ensures Effect(c, net, e).nodes == net.nodes
  {
  }

  lemma SameNodes(net: Net, after: Net)
    requires after.nodes == net.nodes
    ensures Potential(after) == Potential(net) && !ChangesPointers(net, after)
  {
    SumSame(net.nodes.Keys, n => NodeGap(net, n), n => NodeGap(after, n));
  }

  lemma LeavesLowerPotential(b: int, net: Net, n: int, st: NodeState, after: Net)
    requires Leaves(b, net, n, st, after)
    ensures after.nodes.Keys == net.nodes.Keys
    ensures Potential(after) <= Potential(net)
    ensures ChangesPointers(net, after) ==> Potential(after) < Potential(net)
  {
    assert after.nodes.Keys == net.nodes.Keys;
    OneNodeChanged(net, after, n);
  }

  lemma ActLowersPotential(c: Config, b: int, net: Net, n: int, snap: NodeState, a: Action)
    requires GoodClients(c) && SmoothNet(b, net) && Smooth(c, net, Act(n, snap, a))
    ensures var after := Effect(c, net, Act(n, snap, a));
            && after.nodes.Keys == net.nodes.Keys
            && Potential(after) <= Potential(net)
            && (ChangesPointers(net, after) ==> Potential(after) < Potential(net))
  {
    ActLeaves(c, b, net, n, snap, a);
    LeavesLowerPotential(b, net, n, Apply(net.nodes[n], snap, c.opts(n), a), Effect(c, net, Act(n, snap, a)));
  }

  lemma OneNodeChanged(net: Net, after: Net, n: int)
    requires n in net.nodes && after.nodes.Keys == net.nodes.Keys
    requires forall m :: m in net.nodes && m != n ==> after.nodes[m] == net.nodes[m]
    ensures Potential(net) + NodeGap(after, n) == Potential(after) + NodeGap(net, n)
    ensures ChangesPointers(net, after) ==> !SamePointers(net.nodes[n], after.nodes[n])
    ensures SamePointers(net.nodes[n], after.nodes[n]) && net.nodes[n].self == after.nodes[n].self ==>
              NodeGap(net, n) == NodeGap(after, n)
  {
    SumChange(net.nodes.Keys, m => NodeGap(net, m), m => NodeGap(after, m), n);
  }

  ghost predicate IsSmoothRun(c: Config, nets: seq<Net>, events: seq<Event>) {
    IsNetRun(c, nets, events) && forall i :: 0 <= i < |events| ==> Smooth(c, nets[i], events[i])
  }

  lemma {:induction false} RunSmooth(c: Config, b: int, nets: seq<Net>, events: seq<Event>, i: nat)
    requires GoodClients(c) && IsSmoothRun(c, nets, events) && SmoothNet(b, nets[0]) && i < |nets|
    ensures SmoothNet(b, nets[i])
    decreases i
  {
    if i > 0 {
      RunSmooth(c, b, nets, events, i - 1);
      StepSmooth(c, b, nets[i - 1], events[i - 1]);
    }
  }

  ghost function PointerChanges(nets: seq<Net>): nat {
    if |nets| < 2 then 0
    else PointerChanges(nets[..|nets| - 1]) + Count(ChangesPointers(nets[|nets| - 2], nets[|nets| - 1]))
  }

  // ----- the rank: members that lie in between -----

  /** The members strictly between two ids. */
  function Between(members: set<int>, a: int, b: int): (s: set<int>)
    ensures s <= members
  {
    set y | y in members && InRangeOpenOpen(y, a, b)
  }

  function SuccRank(members: set<int>, st: NodeState): nat {
    |Between(members, st.self.id, st.succ.id)|
  }

  function PredRank(members: set<int>, st: NodeState): nat {
    if st.pred.None? then |members| else |Between(members, st.pred.value.id, st.self.id)|
  }

  function NodeRank(net: Net, n: int): nat {
    if n in net.nodes then SuccRank(net.nodes.Keys, net.nodes[n]) + PredRank(net.nodes.Keys, net.nodes[n]) else 0
  }

  /** How many members the pointers jump over, summed over the nodes; a missing predecessor counts them all. */
  ghost function Rank(net: Net): nat {
    Sum(net.nodes.Keys, n => NodeRank(net, n))
  }

  lemma RankBound(net: Net)
    ensures Rank(net) <= |net.nodes.Keys| * (2 * |net.nodes.Keys|)
  {
    var members := net.nodes.Keys;
    forall n | n in members ensures NodeRank(net, n) <= 2 * |members| {
      SubsetCard(Between(members, net.nodes[n].self.id, net.nodes[n].succ.id), members);
      if net.nodes[n].pred.Some? {
        SubsetCard(Between(members, net.nodes[n].pred.value.id, net.nodes[n].self.id), members);
      }
    }
    SumBound(members, n => NodeRank(net, n), 2 * |members|);
  }

  /** A nearer member leaves fewer members in between. */
  lemma FewerBetween(members: set<int>, a: int, x: int, y: int)
    requires ValidId(a) && ValidId(x) && ValidId(y) && x in members && Gap(a, x) < Gap(a, y)
    ensures |Between(members, a, x)| < |Between(members, a, y)|
  {
    var near, far := Between(members, a, x), Between(members, a, y);
    assert x in far && x !in near && near <= far;
    SubsetCard(near, far);
  }

  lemma FewerBefore(members: set<int>, x: int, y: int, a: int)
    requires ValidId(a) && ValidId(x) && ValidId(y) && x in members && Gap(x, a) < Gap(y, a)
    ensures |Between(members, x, a)| < |Between(members, y, a)|
  {
    var near, far := Between(members, x, a), Between(members, y, a);
    assert x in far && x !in near && near <= far;
    SubsetCard(near, far);
  }

  lemma FewerThanAll(members: set<int>, x: int, a: int)
    requires x in members
    ensures |Between(members, x, a)| < |members|
  {
    var near := Between(members, x, a);
    assert x !in near;
    SubsetCard(near, members);
  }

  lemma SuccRankFalls(members: set<int>, b: int, st: NodeState, after: NodeState)
    requires SmoothNode(members, b, st) && Advances(members, b, st, after)
    ensures SuccRank(members, after) <= SuccRank(members, st)
    ensures after.succ.id != st.succ.id ==> SuccRank(members, after) < SuccRank(members, st)
  {
    if after.succ.id != st.succ.id {
      FewerBetween(members, st.self.id, after.succ.id, st.succ.id);
    }
  }

  lemma PredRankFalls(members: set<int>, b: int, st: NodeState, after: NodeState)
    requires SmoothNode(members, b, st) && Advances(members, b, st, after)
    ensures PredRank(members, after) <= PredRank(members, st)
    ensures !SamePredecessor(after, st) ==> PredRank(members, after) < PredRank(members, st)
  {
    if !SamePredecessor(after, st) {
      if st.pred.Some? {
        FewerBefore(members, after.pred.value.id, st.pred.value.id, st.self.id);
      } else {
        FewerThanAll(members, after.pred.value.id, st.self.id);
      }
    }
  }

  lemma SameNodesRank(net: Net, after: Net)
    requires after.nodes == net.nodes
    ensures Rank(after) == Rank(net) && !ChangesPointers(net, after)
  {
    SumSame(net.nodes.Keys, n => NodeRank(net, n), n => NodeRank(after, n));
  }

  lemma OneRankChanged(net: Net, n: int, st: NodeState)
    requires n in net.nodes
    ensures var after := Record(net, n, st);
            && Rank(net) + NodeRank(after, n) == Rank(after) + NodeRank(net, n)
            && (ChangesPointers(net, after) ==> !SamePointers(net.nodes[n], st))
  {
    var after := Record(net, n, st);
    assert after.nodes.Keys == net.nodes.Keys;
    SumChange(net.nodes.Keys, m => NodeRank(net, m), m => NodeRank(after, m), n);
  }

  lemma LeavesLowerRank(b: int, net: Net, n: int, st: NodeState, after: Net)
    requires Leaves(b, net, n, st, after)
    ensures Rank(after) <= Rank(net) && (ChangesPointers(net, after) ==> Rank(after) < Rank(net))
  {
    SuccRankFalls(net.nodes.Keys, b, net.nodes[n], st);
    PredRankFalls(net.nodes.Keys, b, net.nodes[n], st);
    OneRankChanged(net, n, st);
    assert after.nodes.Keys == net.nodes.Keys;
  }

  lemma ActLowersRank(c: Config, b: int, net: Net, n: int, snap: NodeState, a: Action)
    requires GoodClients(c) && SmoothNet(b, net) && Smooth(c, net, Act(n, snap, a))
    ensures var after := Effect(c, net, Act(n, snap, a));
            Rank(after) <= Rank(net) && (ChangesPointers(net, after) ==> Rank(after) < Rank(net))
  {
    ActLeaves(c, b, net, n, snap, a);
    LeavesLowerRank(b, net, n, Apply(net.nodes[n], snap, c.opts(n), a), Effect(c, net, Act(n, snap, a)));
  }

  /** A step that changes a pointer makes the pointers jump over fewer members, and no step except a join
      makes them jump over more. */
  lemma PointerChangesLowerRank(c: Config, b: int, net: Net, e: Event)
    requires GoodClients(c) && SmoothNet(b, net) && Smooth(c, net, e) && !e.JoinNode?
    ensures var after := Effect(c, net, e);
            Rank(after) <= Rank(net) && (ChangesPointers(net, after) ==> Rank(after) < Rank(net))
  {
    if e.Act? {
      ActLowersRank(c, b, net, e.n, e.snap, e.action);
    } else {
      OthersKeepNodes(c, net, e);
      SameNodesRank(net, Effect(c, net, e));
    }
  }

  function Count(changed: bool): nat {
    if changed then 1 else 0
  }

  lemma StepSettles(c: Config, b: int, net: Net, e: Event)
    requires GoodClients(c) && SmoothNet(b, net) && Smooth(c, net, e) && !e.JoinNode?
    ensures Count(ChangesPointers(net, Effect(c, net, e))) + Potential(Effect(c, net, e)) <= Potential(net)
    ensures Count(ChangesPointers(net, Effect(c, net, e))) + Rank(Effect(c, net, e)) <= Rank(net)
  {
    PointerChangesLowerPotential(c, b, net, e);
    PointerChangesLowerRank(c, b, net, e);
  }

  /** A pointer change between two networks is paid for by potential and rank. */
  ghost predicate Paid(before: Net, after: Net) {
    && Count(ChangesPointers(before, after)) + Potential(after) <= Potential(before)
    && Count(ChangesPointers(before, after)) + Rank(after) <= Rank(before)
  }

  lemma StepIsPaid(c: Config, b: int, nets: seq<Net>, events: seq<Event>, k: nat)
    requires GoodClients(c) && IsSmoothRun(c, nets, events) && SmoothNet(b, nets[0]) && k < |events| && !events[k].JoinNode?
    ensures Paid(nets[k], nets[k + 1])
  {
    RunSmooth(c, b, nets, events, k);
    StepSettles(c, b, nets[k], events[k]);
    assert nets[k + 1] == Effect(c, nets[k], events[k]);
  }

  lemma {:induction false} ChangesArePaid(nets: seq<Net>, i: nat)
    requires i < |nets| && forall k :: 0 <= k < |nets| - 1 ==> Paid(nets[k], nets[k + 1])
    ensures PointerChanges(nets[..i + 1]) + Potential(nets[i]) <= Potential(nets[0])
    ensures PointerChanges(nets[..i + 1]) + Rank(nets[i]) <= Rank(nets[0])
    decreases i
  {
    if i > 0 {
      ChangesArePaid(nets, i - 1);
      assert Paid(nets[i - 1], nets[i - 1 + 1]);
      assert nets[..i + 1][..i] == nets[..i];
    }
  }

  lemma AllPaid(c: Config, b: int, nets: seq<Net>, events: seq<Event>)
    requires GoodClients(c) && IsSmoothRun(c, nets, events) && SmoothNet(b, nets[0])
    requires forall i :: 0 <= i < |events| ==> !events[i].JoinNode?
    ensures |nets| > 0 && forall k :: 0 <= k < |nets| - 1 ==> Paid(nets[k], nets[k + 1])
  {
    forall k | 0 <= k < |nets| - 1 ensures Paid(nets[k], nets[k + 1]) {
      StepIsPaid(c, b, nets, events, k);
    }
  }

  lemma PaidSettles(nets: seq<Net>)
    requires |nets| > 0 && forall k :: 0 <= k < |nets| - 1 ==> Paid(nets[k], nets[k + 1])
    ensures PointerChanges(nets) + Potential(nets[|nets| - 1]) <= Potential(nets[0])
    ensures PointerChanges(nets) + Rank(nets[|nets| - 1]) <= Rank(nets[0])
  {
    ChangesArePaid(nets, |nets| - 1);
    assert nets[..|nets| - 1 + 1] == nets;
  }

  /** Between joins, pointers change no more often than potential and rank allow, hence at most quadratically
      often in the number of members: they settle. */
  lemma PointersSettle(c: Config, b: int, nets: seq<Net>, events: seq<Event>)
    requires GoodClients(c) && IsSmoothRun(c, nets, events) && SmoothNet(b, nets[0])
    requires forall i :: 0 <= i < |events| ==> !events[i].JoinNode?
    ensures PointerChanges(nets) + Potential(nets[|nets| - 1]) <= Potential(nets[0])
    ensures PointerChanges(nets) + Rank(nets[|nets| - 1]) <= Rank(nets[0])
    ensures PointerChanges(nets) <= |nets[0].nodes.Keys| * (2 * |nets[0].nodes.Keys|)
  {
    AllPaid(c, b, nets, events);
    RankBound(nets[0]);
    PaidSettles(nets);
  }
}
