/** A network of nodes running the maintenance protocol with stale reads, failures and joins.

    Every state a node has ever been in stays readable: `seen` collects them, and an action may read any
    earlier state of its own node and of its peers.  So the critical sections of Stabilize, validation,
    Rectify, CheckPredecessor, failure counting, lookups and joins may interleave in any order, whatever has
    become of the node in between, and messages may take any time.  A fixed set of base nodes never crashes
    and always answers.
 */
module StableBase {
  import opened Ring
  import opened Sets
  import opened Wrappers
  import opened NodeLists
  import opened ListOrder
  import opened NodeSpec
  import opened NoSkip
  import opened ShapeRuns
  import opened Lookup
  import opened LookupTheorems

  /** Any lookup answer ever given, and any routing cache line ever stored. */
  datatype Answer = Answer(target: int, succ: NodeInfo)
  datatype CacheLine = CacheLine(target: int, pred: int, succ: NodeInfo)

  datatype Net = Net(nodes: map<int, NodeState>, seen: set<NodeState>, answers: set<Answer>, cached: set<CacheLine>)

  datatype Config = Config(base: set<int>, opts: int -> Options)

  datatype Event =
    | Act(n: int, snap: NodeState, action: Action)
    | Crash(n: int)
    | AnswerLookup(answerer: NodeState, router: Router, target: int)
    | AnswerFromCache(line: CacheLine, target: int)
    | JoinNode(self: NodeInfo, answer: Answer, peer: NodeState, seedList: seq<NodeInfo>)

  function LimitOf(c: Config, n: int): (limit: nat)
    ensures limit > 0
  {
    EffectiveLimit(c.opts(n).listSize)
  }

  ghost predicate GoodConfig(c: Config) {
    forall n :: c.opts(n).hasClient && BaseFor(c.base, LimitOf(c, n))
  }

  // ----- what each step may do -----

  /** A reply to a state query for `contact` shows some state that node was in; its predecessor field may be
      anything, and its list may be missing. */
  ghost predicate FromPeer(net: Net, contact: NodeInfo, reply: PeerState) {
    reply.list == [] || exists v :: v in net.seen && v.self.id == contact.id && reply.list == v.list
  }

  ghost predicate Permitted(c: Config, net: Net, n: int, snap: NodeState, a: Action)
    requires n in net.nodes
  {
    match a
    case CommitRectify(_, _) => true
    case CommitCheck(_) => true
    case Succeeded(_) => true
    case Failed(id) => id !in c.base
    case CommitStabilize(fetch, _) =>
      && snap.status == Active
      && var candidates := Candidates(snap);
      && (forall k: nat :: k < |candidates| && candidates[k].id in c.base ==> fetch(k).Some?)
      && (forall k: nat :: k < |candidates| && fetch(k).Some? ==> FromPeer(net, Queried(snap, k), fetch(k).value))
    case CommitValidate(p) =>
      && (snap.status == Active || (snap.status == Isolated && net.nodes[n].status == Isolated))
      && var current := Entries(snap);
      && (forall i: nat :: i < |current| && current[i].id in c.base ==> p.alive(i))
      && (p.lastList.Some? ==>
            && var kept := KeepLive(snap.self.id, current, c.opts(n).hasClient, p.alive, 0, [], LimitOf(c, n));
            && (kept != [] ==> FromPeer(net, kept[|kept| - 1], PeerState(None, p.lastList.value)))
            && (forall i: nat :: i < |p.lastList.value| && p.lastList.value[i].id in c.base ==> p.extAlive(i)))
    case _ => false
  }

  ghost predicate Enabled(c: Config, net: Net, e: Event) {
    match e
    case Act(n, snap, a) =>
      n in net.nodes && snap in net.seen && snap.self == net.nodes[n].self && Permitted(c, net, n, snap, a)
    case Crash(n) => n !in c.base
    case AnswerLookup(v, r, target) =>
      && v in net.seen && v.status == Active && ValidId(target)
      && r.self == v.self && r.succ == v.succ && r.list == v.list && r.status == v.status
      && (AnswersLocally(r, target) || v.succ.id in Ids(v.list))
    case AnswerFromCache(line, target) =>
      line in net.cached && (line.target == target || InRangeOpenClosed(target, line.pred, line.succ.id))
    case JoinNode(self, answer, peer, seedList) =>
      && self.id !in net.nodes && self.id !in c.base && ValidId(self.id)
      && answer in net.answers && answer.target == self.id && answer.succ.id != self.id
      && peer in net.seen && peer.self.id == answer.succ.id && JoinList(answer.succ, peer.list, seedList)
  }

  function Record(net: Net, n: int, st: NodeState): Net {
    net.(nodes := net.nodes[n := st], seen := net.seen + {st})
  }

  ghost function Effect(c: Config, net: Net, e: Event): Net
    requires Enabled(c, net, e)
  {
    match e
    case Act(n, snap, a) => Record(net, n, Apply(net.nodes[n], snap, c.opts(n), a))
    case Crash(n) => net.(nodes := net.nodes - {n})
    case AnswerLookup(v, r, target) =>
      (match Route(r, Request(target, 0, DEFAULT_MAX_HOPS, []))
       case Found(succ, _) =>
         net.(answers := net.answers + {Answer(target, succ)},
              cached := net.cached + {CacheLine(target, v.self.id, succ)})
       case _ => net)
    case AnswerFromCache(line, target) => net.(answers := net.answers + {Answer(target, line.succ)})
    case JoinNode(self, answer, peer, seedList) =>
      Record(net, self.id, JoinCommit(NewNode(self).(status := Joining), c.opts(self.id), answer.succ, seedList))
  }

  ghost predicate IsNetRun(c: Config, nets: seq<Net>, events: seq<Event>) {
    && |nets| == |events| + 1
    && forall i :: 0 <= i < |events| ==>
         Enabled(c, nets[i], events[i]) && nets[i + 1] == Effect(c, nets[i], events[i])
  }

  // ----- the invariant -----

  /** Nothing this node holds jumps over a base node; an isolated node may hold itself instead. */
  ghost predicate SafeNode(c: Config, st: NodeState) {
    && Honest(c.base, st.self) && Honest(c.base, st.succ) && AllHonest(c.base, st.list)
    && |st.list| <= LimitOf(c, st.self.id)
    && match st.status
       case Active => SkipsNone(c.base, st.self.id, st.list) && SkipsNone(c.base, st.self.id, [st.succ])
       case Isolated =>
         && PeerList(c, st.self.id, st.list)
         && (st.succ.id == st.self.id || SkipsNone(c.base, st.self.id, [st.succ]))
       case _ => false
  }

  ghost predicate SafeArc(c: Config, from: int, succ: NodeInfo) {
    ValidId(from) && Honest(c.base, succ) && SkipsNone(c.base, from, [succ])
  }

  ghost predicate Safe(c: Config, net: Net) {
    && (forall n :: n in net.nodes ==> net.nodes[n].self.id == n && net.nodes[n] in net.seen)
    && (forall v :: v in net.seen ==> SafeNode(c, v))
    && (forall a :: a in net.answers ==> a.succ.id == a.target || SafeArc(c, a.target, a.succ))
    && (forall l :: l in net.cached ==> SafeArc(c, l.pred, l.succ) && InRangeOpenClosed(l.target, l.pred, l.succ.id))
  }

  // ----- lists that come from peers -----

  /** What a peer's list may look like to the reader. */
  ghost predicate PeerList(c: Config, from: int, list: seq<NodeInfo>) {
    AllHonest(c.base, list) && (SkipsNone(c.base, from, list) || (|list| == 1 && list[0].id == from))
  }

  lemma FromPeerIsPeerList(c: Config, net: Net, contact: NodeInfo, reply: PeerState)
    requires Safe(c, net) && FromPeer(net, contact, reply)
    ensures PeerList(c, contact.id, reply.list)
  {
    if reply.list != [] {
      var v :| v in net.seen && v.self.id == contact.id && reply.list == v.list;
      assert SafeNode(c, v);
    }
  }

  lemma BaseHasTwo(c: Config, n: int, self: int)
    requires GoodConfig(c)
    ensures !(c.base <= {self})
  {
    assert |c.base| > LimitOf(c, n);
    if c.base <= {self} {
      SubsetCard(c.base, {self});
    }
  }

  lemma ArcProper(c: Config, from: int, succ: NodeInfo)
    requires GoodConfig(c) && SafeArc(c, from, succ)
    ensures succ.id != from
  {
    if succ.id == from {
      forall b | b in c.base ensures b in {from} {
        assert BaseFor(c.base, LimitOf(c, 0));
        ClosedWalkCovers(b, from, [succ]);
      }
      BaseHasTwo(c, 0, from);
    }
  }

  lemma SameIdSameWalk(base: set<int>, from: int, a: NodeInfo, b: NodeInfo)
    requires a.id == b.id && SkipsNone(base, from, [a])
    ensures SkipsNone(base, from, [b])
  {
  }

  /** Installing a successor on a safe arc, with a list a peer sent, leaves the node safe. */
  lemma InstallSafe(c: Config, self: NodeInfo, succ: NodeInfo, remote: seq<NodeInfo>)
    requires GoodConfig(c) && Honest(c.base, self) && SafeArc(c, self.id, succ)
    requires AllHonest(c.base, remote) && SkipsNone(c.base, succ.id, remote)
    ensures var opts := c.opts(self.id);
            var list := Merge(self, opts.listSize, opts.siblingCap, succ, remote);
            && SkipsNone(c.base, self.id, list) && AllHonest(c.base, list)
            && list[0] == succ && |list| <= LimitOf(c, self.id)
  {
    var opts := c.opts(self.id);
    assert BaseFor(c.base, LimitOf(c, self.id));
    forall i | 0 <= i < |[succ] + remote| ensures Honest(c.base, ([succ] + remote)[i]) {
      assert i > 0 ==> ([succ] + remote)[i] == remote[i - 1];
    }
    MergeSkipsNone(c.base, self, opts.listSize, opts.siblingCap, succ, remote);
    MergeMeaning(self, opts.listSize, opts.siblingCap, succ, remote);
  }

  /** One step of the merge over the successor, which is always taken. */
  lemma SuccessorTaken(self: NodeInfo, limit: nat, most: nat, succ: NodeInfo, remote: seq<NodeInfo>)
    requires succ.id != EMPTY && succ.id != self.id && limit > 0 && most > 0
    ensures MergeFrom(self.id, [], [succ] + remote, limit, most) == MergeFrom(self.id, [succ], remote, limit, most)
    ensures forall again: NodeInfo :: again.id == succ.id ==> Rejected(self.id, [succ], again, most)
  {
    assert AnchorCount([], succ.anchor) == 0;
    assert !Rejected(self.id, [], succ, most);
    assert [] + [succ] == [succ] && ([succ] + remote)[1..] == remote;
    assert succ in [succ];
  }

  /** A list that starts by repeating the successor merges like the list without it. */
  lemma RepeatedHead(self: NodeInfo, size: int, cap: real, succ: NodeInfo, again: NodeInfo, rest: seq<NodeInfo>)
    requires again.id == succ.id && succ.id != EMPTY && succ.id != self.id
    ensures Merge(self, size, cap, succ, [again] + rest) == Merge(self, size, cap, succ, rest)
  {
    var limit := EffectiveLimit(size);
    var most := MaxFromAnchor(limit, cap);
    SuccessorTaken(self, limit, most, succ, [again] + rest);
    SuccessorTaken(self, limit, most, succ, rest);
    assert ([again] + rest)[1..] == rest;
    assert MergeFrom(self.id, [succ], [again] + rest, limit, most) == MergeFrom(self.id, [succ], rest, limit, most);
  }

  /** The same for the two-entry start that adopting the contact's predecessor produces. */
  lemma RepeatedSecond(self: NodeInfo, size: int, cap: real, succ: NodeInfo, contact: NodeInfo, again: NodeInfo)
    requires again.id == contact.id && succ.id != EMPTY && succ.id != self.id && contact.id != self.id
    ensures || Merge(self, size, cap, succ, [contact, again]) == Merge(self, size, cap, succ, [contact])
            || Merge(self, size, cap, succ, [contact, again]) == Merge(self, size, cap, succ, [again])
  {
    var limit := EffectiveLimit(size);
    var most := MaxFromAnchor(limit, cap);
    SuccessorTaken(self, limit, most, succ, [contact, again]);
    SuccessorTaken(self, limit, most, succ, [contact]);
    SuccessorTaken(self, limit, most, succ, [again]);
    assert [contact, again][1..] == [again] && [again][1..] == [] && [contact][1..] == [];
    if limit > 1 && !Rejected(self.id, [succ], contact, most) {
      var two := [succ] + [contact];
      assert contact in two && Rejected(self.id, two, again, most);
      assert MergeFrom(self.id, two, [again], limit, most) == two;
    }
  }

  lemma InstallFromPeer(c: Config, self: NodeInfo, contact: NodeInfo, list: seq<NodeInfo>)
    requires GoodConfig(c) && Honest(c.base, self) && SafeArc(c, self.id, contact) && PeerList(c, contact.id, list)
    ensures var opts := c.opts(self.id);
            var r := Merge(self, opts.listSize, opts.siblingCap, contact, list);
            SkipsNone(c.base, self.id, r) && AllHonest(c.base, r) && |r| <= LimitOf(c, self.id)
  {
    ArcProper(c, self.id, contact);
    if SkipsNone(c.base, contact.id, list) {
      InstallSafe(c, self, contact, list);
    } else {
      assert list == [list[0]] + [];
      RepeatedHead(self, c.opts(self.id).listSize, c.opts(self.id).siblingCap, contact, list[0], []);
      InstallSafe(c, self, contact, []);
    }
  }

  lemma InstallPredecessor(c: Config, self: NodeInfo, pred: NodeInfo, contact: NodeInfo, list: seq<NodeInfo>)
    requires GoodConfig(c) && Honest(c.base, self) && SafeArc(c, self.id, contact) && PeerList(c, contact.id, list)
    requires InRangeOpenOpen(pred.id, self.id, contact.id)
    ensures SafeArc(c, self.id, pred)
    ensures var opts := c.opts(self.id);
            var r := Merge(self, opts.listSize, opts.siblingCap, pred, [contact] + list);
            SkipsNone(c.base, self.id, r) && AllHonest(c.base, r) && |r| <= LimitOf(c, self.id)
  {
    var opts := c.opts(self.id);
    forall b | b in c.base ensures !InRangeOpenOpen(b, self.id, pred.id) && !InRangeOpenOpen(b, pred.id, contact.id) && b != pred.id {
      assert WalkSkipsNot(b, self.id, [contact]);
      assert BaseFor(c.base, LimitOf(c, 0));
      IntervalSplit(self.id, pred.id, contact.id, b);
    }
    assert SkipsNone(c.base, pred.id, [contact]) && SkipsNone(c.base, self.id, [pred]);
    ArcProper(c, self.id, contact);
    if SkipsNone(c.base, contact.id, list) {
      WalkJoin(c.base, pred.id, [contact], list);
      InstallSafe(c, self, pred, [contact] + list);
    } else {
      assert [contact] + list == [contact, list[0]];
      RepeatedSecond(self, opts.listSize, opts.siblingCap, pred, contact, list[0]);
      SameIdSameWalk(c.base, pred.id, contact, list[0]);
      InstallSafe(c, self, pred, [contact]);
      InstallSafe(c, self, pred, [list[0]]);
    }
  }
}
