/** The stable-base property over whole runs: no step of the network machine makes a node's list or
    successor jump over a base node.
 */
module StableBaseRuns {
  import opened Ring
  import opened Sets
  import opened Wrappers
  import opened NodeLists
  import opened ListOrder
  import opened NodeSpec
  import opened NoSkip
  import opened ShapeRuns
  import opened Lookup
  import opened LookupTheorems
  import opened StableBase

  // ----- Stabilize -----

  /** The k-th candidate is where it first appears in the input, after exactly the earlier candidates. */
  lemma {:induction false} DedupeOrder(nodes: seq<NodeInfo>, k: nat) returns (m: nat)
    requires k < |Dedupe(nodes, EMPTY)|
    ensures m < |nodes| && nodes[m] == Dedupe(nodes, EMPTY)[k]
    ensures Ids(nodes[..m]) - {EMPTY} == Ids(Dedupe(nodes, EMPTY)[..k])
  {
    var before, n := nodes[..|nodes| - 1], nodes[|nodes| - 1];
    var d := Dedupe(before, EMPTY);
    if k < |d| {
      m := DedupeOrder(before, k);
      assert nodes[..m] == before[..m] && Dedupe(nodes, EMPTY)[..k] == d[..k];
    } else {
      m := |nodes| - 1;
      DedupeMeaning(before, EMPTY);
      assert Dedupe(nodes, EMPTY)[..k] == d;
    }
  }

  /** If no earlier candidate is a base node, the arc to the k-th candidate is safe. */
  lemma CandidateSafe(c: Config, snap: NodeState, k: nat)
    requires GoodConfig(c) && SafeNode(c, snap) && snap.status == Active && k < |Candidates(snap)|
    requires Ids(Candidates(snap)[..k]) !! c.base
    ensures SafeArc(c, snap.self.id, Candidates(snap)[k]) && Candidates(snap)[k].id != snap.self.id
  {
    var nodes := [snap.succ] + snap.list;
    var m := DedupeOrder(nodes, k);
    var contact := Candidates(snap)[k];
    if m > 0 {
      var walk := snap.list[..m];
      assert walk + snap.list[m..] == snap.list;
      WalkPrefix(c.base, snap.self.id, walk, snap.list[m..]);
      assert nodes[..m] == [snap.succ] + walk[..m - 1];
      assert walk[m - 1] == contact && AllValid(walk);
      forall b | b in c.base ensures WalkSkipsNot(b, snap.self.id, [contact]) {
        assert forall n :: n in walk[..m - 1] ==> n in nodes[..m];
        assert BaseFor(c.base, LimitOf(c, 0));
        assert b !in Ids(walk[..m - 1]);
        WalkCollapses(b, snap.self.id, walk);
      }
      assert Honest(c.base, snap.list[m - 1]);
    }
    ArcProper(c, snap.self.id, contact);
  }

  /** Stabilize finds a safe successor or gives up; the single-node and bootstrap branches are not taken. */
  lemma {:induction false} DecisionSafe(c: Config, snap: NodeState, k: nat, fetch: nat -> Option<PeerState>, alive: nat -> bool)
    requires GoodConfig(c) && SafeNode(c, snap) && snap.status == Active && k <= |Candidates(snap)|
    requires Ids(Candidates(snap)[..k]) !! c.base
    requires forall i: nat :: i < |Candidates(snap)| && Candidates(snap)[i].id in c.base ==> fetch(i).Some?
    ensures var d := Decide(snap, true, Candidates(snap), k, fetch, alive);
            || d.NoCandidate?
            || (d.Adopt? && d.tried < |Candidates(snap)| && d.contact == Candidates(snap)[d.tried]
                && SafeArc(c, snap.self.id, d.contact) && fetch(d.tried).Some?
                && Some(d) == Try(snap.self.id, snap.pred, true, d.tried, d.contact, fetch(d.tried), alive(d.tried)))
    decreases |Candidates(snap)| - k
  {
    var candidates := Candidates(snap);
    if k < |candidates| {
      CandidateSafe(c, snap, k);
      if fetch(k).None? {
        assert candidates[..k + 1] == candidates[..k] + [candidates[k]];
        AnchorCountAppend(candidates[..k], candidates[k]);
        DecisionSafe(c, snap, k + 1, fetch, alive);
      }
    }
  }

  lemma StabilizeSafe(c: Config, net: Net, st: NodeState, snap: NodeState, fetch: nat -> Option<PeerState>, alive: nat -> bool)
    requires GoodConfig(c) && Safe(c, net) && SafeNode(c, st) && SafeNode(c, snap) && snap.self == st.self
    requires st.self.id in net.nodes && net.nodes[st.self.id] == st
    requires Permitted(c, net, st.self.id, snap, CommitStabilize(fetch, alive))
    ensures SafeNode(c, Apply(st, snap, c.opts(st.self.id), CommitStabilize(fetch, alive)))
  {
    var opts := c.opts(st.self.id);
    assert Candidates(snap)[..0] == [];
    DecisionSafe(c, snap, 0, fetch, alive);
    var d := Decide(snap, true, Candidates(snap), 0, fetch, alive);
    if d.Adopt? {
      var reply := fetch(d.tried).value;
      FromPeerIsPeerList(c, net, d.contact, reply);
      if d.succ == d.contact && d.remote == reply.list {
        InstallFromPeer(c, st.self, d.contact, reply.list);
      } else {
        InstallPredecessor(c, st.self, d.succ, d.contact, reply.list);
      }
    }
  }

  // ----- validation -----

  lemma {:induction false} KeepLiveSafe(base: set<int>, self: int, current: seq<NodeInfo>, alive: nat -> bool,
                                        i: nat, out: seq<NodeInfo>, limit: nat)
    requires BaseFor(base, limit) && i <= |current| && |out| <= limit
    requires AllHonest(base, out + current[i..]) && SkipsNone(base, self, out + current[i..])
    requires forall k: nat :: k < |current| && current[k].id in base ==> alive(k)
    ensures var r := KeepLive(self, current, true, alive, i, out, limit);
            SkipsNone(base, self, r) && AllHonest(base, r) && |r| <= limit
    decreases |current| - i
  {
    if i == |current| || |out| >= limit {
      WalkPrefix(base, self, out, current[i..]);
      assert forall k :: 0 <= k < |out| ==> out[k] == (out + current[i..])[k];
    } else {
      SplitAt(base, self, out, current, i);
      if !PingAnswer(self, current[i], true, alive(i)) || current[i].id in Ids(out) {
        DropIsHarmless(base, self, out, current[i], current[i + 1..]);
        KeepLiveSafe(base, self, current, alive, i + 1, out, limit);
      } else {
        KeepLiveSafe(base, self, current, alive, i + 1, out + [current[i]], limit);
      }
    }
  }

  lemma SplitAt(base: set<int>, self: int, out: seq<NodeInfo>, list: seq<NodeInfo>, i: nat)
    requires i < |list| && AllHonest(base, out + list[i..])
    ensures out + list[i..] == out + [list[i]] + list[i + 1..]
    ensures Honest(base, list[i]) && AllHonest(base, out + list[i + 1..])
  {
    assert Honest(base, (out + list[i..])[|out|]);
    var shorter := out + list[i + 1..];
    forall k | 0 <= k < |shorter| ensures Honest(base, shorter[k]) {
      assert shorter[k] == (out + list[i..])[if k < |out| then k else k + 1];
    }
  }

  lemma {:induction false} ExtendSafe(base: set<int>, self: int, more: seq<NodeInfo>, alive: nat -> bool,
                                      i: nat, out: seq<NodeInfo>, limit: nat)
    requires BaseFor(base, limit) && i <= |more| && |out| <= limit
    requires AllHonest(base, out + more[i..]) && SkipsNone(base, self, out + more[i..])
    requires forall k: nat :: k < |more| && more[k].id in base ==> alive(k)
    ensures var r := Extend(self, more, true, alive, i, out, limit);
            SkipsNone(base, self, r) && AllHonest(base, r) && |r| <= limit
    decreases |more| - i
  {
    if i == |more| || |out| >= limit {
      WalkPrefix(base, self, out, more[i..]);
      assert forall k :: 0 <= k < |out| ==> out[k] == (out + more[i..])[k];
    } else {
      SplitAt(base, self, out, more, i);
      if more[i].id == EMPTY || more[i].id == self || more[i].id in Ids(out) || !PingAnswer(self, more[i], true, alive(i)) {
        DropIsHarmless(base, self, out, more[i], more[i + 1..]);
        ExtendSafe(base, self, more, alive, i + 1, out, limit);
      } else {
        ExtendSafe(base, self, more, alive, i + 1, out + [more[i]], limit);
      }
    }
  }

  /** Extending a safe list by what its last entry's node sent keeps it safe. */
  lemma ExtendFromPeer(c: Config, self: int, kept: seq<NodeInfo>, more: seq<NodeInfo>, extAlive: nat -> bool, limit: nat)
    requires BaseFor(c.base, limit) && ValidId(self) && kept != [] && |kept| <= limit
    requires SkipsNone(c.base, self, kept) && AllHonest(c.base, kept) && PeerList(c, kept[|kept| - 1].id, more)
    requires forall i: nat :: i < |more| && more[i].id in c.base ==> extAlive(i)
    ensures var r := Extend(self, more, true, extAlive, 0, kept, limit);
            SkipsNone(c.base, self, r) && AllHonest(c.base, r) && |r| <= limit
  {
    var last := kept[|kept| - 1];
    if SkipsNone(c.base, last.id, more) {
      assert more[0..] == more;
      WalkJoin(c.base, self, kept, more);
      forall k | 0 <= k < |kept + more| ensures Honest(c.base, (kept + more)[k]) {
        assert (kept + more)[k] == if k < |kept| then kept[k] else more[k - |kept|];
      }
      ExtendSafe(c.base, self, more, extAlive, 0, kept, limit);
    } else {
      assert last in kept && more[0].id in Ids(kept);
      assert Extend(self, more, true, extAlive, 0, kept, limit) == Extend(self, more, true, extAlive, 1, kept, limit);
    }
  }

  /** Validation of a skip-free list yields a skip-free list. */
  lemma ValidatedSafe(c: Config, net: Net, snap: NodeState, p: Probe)
    requires GoodConfig(c) && Safe(c, net) && SafeNode(c, snap) && SkipsNone(c.base, snap.self.id, Entries(snap))
    requires snap.self.id in net.nodes
    requires Permitted(c, net, snap.self.id, snap, CommitValidate(p))
    ensures var r := Validated(snap.self.id, Entries(snap), LimitOf(c, snap.self.id), true, p);
            SkipsNone(c.base, snap.self.id, r) && AllHonest(c.base, r) && |r| <= LimitOf(c, snap.self.id)
  {
    var self, current, limit := snap.self.id, Entries(snap), LimitOf(c, snap.self.id);
    assert BaseFor(c.base, limit);
    assert [] + current[0..] == current;
    KeepLiveSafe(c.base, self, current, p.alive, 0, [], limit);
    var kept := KeepLive(self, current, true, p.alive, 0, [], limit);
    if ExtendsFrom(self, kept, true, limit) && p.lastList.Some? {
      var last, more := kept[|kept| - 1], p.lastList.value;
      FromPeerIsPeerList(c, net, last, PeerState(None, more));
      ExtendFromPeer(c, self, kept, more, p.extAlive, limit);
    }
  }

  lemma ValidateSafe(c: Config, net: Net, st: NodeState, snap: NodeState, p: Probe)
    requires GoodConfig(c) && Safe(c, net) && SafeNode(c, st) && SafeNode(c, snap) && snap.self == st.self
    requires st.self.id in net.nodes && net.nodes[st.self.id] == st
    requires Permitted(c, net, st.self.id, snap, CommitValidate(p))
    ensures SafeNode(c, Apply(st, snap, c.opts(st.self.id), CommitValidate(p)))
  {
    var r := Validated(snap.self.id, Entries(snap), LimitOf(c, snap.self.id), true, p);
    if SkipsNone(c.base, snap.self.id, Entries(snap)) {
      ValidatedSafe(c, net, snap, p);
      if r != [] {
        assert r == [r[0]] + r[1..] && Honest(c.base, r[0]);
        WalkPrefix(c.base, snap.self.id, [r[0]], r[1..]);
      }
    } else {
      LoneValidated(snap.self.id, Entries(snap), LimitOf(c, snap.self.id), p);
    }
  }

  /** A list that names only the node itself stays as it is. */
  lemma LoneValidated(self: int, current: seq<NodeInfo>, limit: nat, p: Probe)
    requires |current| == 1 && current[0].id == self && self != EMPTY && limit > 0
    ensures Validated(self, current, limit, true, p) == current
  {
    assert [] + [current[0]] == current;
    assert KeepLive(self, current, true, p.alive, 0, [], limit) == KeepLive(self, current, true, p.alive, 1, current, limit);
  }

  // ----- eviction -----

  lemma {:induction false} WithoutSafe(base: set<int>, self: int, list: seq<NodeInfo>, tail: seq<NodeInfo>, id: int)
    requires id !in base && AllHonest(base, list + tail) && SkipsNone(base, self, list + tail)
    ensures SkipsNone(base, self, Without(list, id) + tail) && AllHonest(base, Without(list, id) + tail)
    ensures |Without(list, id)| <= |list|
    decreases |list|
  {
    if list == [] {
      assert Without(list, id) + tail == list + tail;
    } else {
      var before, x := list[..|list| - 1], list[|list| - 1];
      assert list + tail == before + [x] + tail == before + ([x] + tail);
      if x.id == id {
        RemoveOther(base, self, before, x, tail);
        forall k | 0 <= k < |before + tail| ensures Honest(base, (before + tail)[k]) {
          assert (before + tail)[k] == (list + tail)[if k < |before| then k else k + 1];
        }
        WithoutSafe(base, self, before, tail, id);
        assert Without(before, id) + [] == Without(before, id);
      } else {
        WithoutSafe(base, self, before, [x] + tail, id);
        assert Without(list, id) + tail == Without(before, id) + ([x] + tail);
      }
    }
  }

  /** Counting a failure keeps a node safe, evicting the node or not. */
  lemma FailedSafe(c: Config, st: NodeState, opts: Options, id: int)
    requires SafeNode(c, st) && id !in c.base
    ensures SafeNode(c, MarkFailure(st, opts, id))
  {
    if SkipsNone(c.base, st.self.id, st.list) {
      assert st.list + [] == st.list && Without(st.list, id) + [] == Without(st.list, id);
      WithoutSafe(c.base, st.self.id, st.list, [], id);
    } else {
      assert st.list[..0] == [] && st.list == [st.list[0]];
      assert Without(st.list, id) == if st.list[0].id == id then [] else st.list;
    }
  }

  // ----- every event -----

  lemma ActSafe(c: Config, net: Net, n: int, snap: NodeState, a: Action)
    requires GoodConfig(c) && Safe(c, net) && Enabled(c, net, Act(n, snap, a))
    ensures SafeNode(c, Apply(net.nodes[n], snap, c.opts(n), a))
    ensures Apply(net.nodes[n], snap, c.opts(n), a).self == net.nodes[n].self
  {
    var st := net.nodes[n];
    assert SafeNode(c, st) && SafeNode(c, snap);
    match a
    case CommitStabilize(fetch, alive) => StabilizeSafe(c, net, st, snap, fetch, alive);
    case CommitValidate(p) => ValidateSafe(c, net, st, snap, p);
    case Failed(id) => FailedSafe(c, st, c.opts(n), id);
    case _ =>
  }

  lemma AnswerSafe(c: Config, net: Net, v: NodeState, r: Router, target: int)
    requires GoodConfig(c) && Safe(c, net) && Enabled(c, net, AnswerLookup(v, r, target))
    ensures var reply := Route(r, Request(target, 0, DEFAULT_MAX_HOPS, []));
            reply.Found? ==>
              && (reply.succ.id == target || SafeArc(c, target, reply.succ))
              && SafeArc(c, v.self.id, reply.succ) && InRangeOpenClosed(target, v.self.id, reply.succ.id)
  {
    assert SafeNode(c, v);
    ArcProper(c, v.self.id, v.succ);
    if AnswersLocally(r, target) {
      forall b | b in c.base ensures target == v.succ.id || !InRangeOpenOpen(b, target, v.succ.id) {
        assert WalkSkipsNot(b, v.self.id, [v.succ]);
      }
    } else {
      FallbackUnreachable(r, target);
    }
  }

  lemma CacheAnswerSafe(c: Config, line: CacheLine, target: int)
    requires SafeArc(c, line.pred, line.succ) && InRangeOpenClosed(line.target, line.pred, line.succ.id)
    requires line.target == target || InRangeOpenClosed(target, line.pred, line.succ.id)
    ensures line.succ.id == target || SafeArc(c, target, line.succ)
  {
    forall b | b in c.base ensures target == line.succ.id || !InRangeOpenOpen(b, target, line.succ.id) {
      assert WalkSkipsNot(b, line.pred, [line.succ]);
    }
  }

  lemma JoinSafe(c: Config, net: Net, self: NodeInfo, answer: Answer, peer: NodeState, seedList: seq<NodeInfo>)
    requires GoodConfig(c) && Safe(c, net) && Enabled(c, net, JoinNode(self, answer, peer, seedList))
    ensures SafeNode(c, JoinCommit(NewNode(self).(status := Joining), c.opts(self.id), answer.succ, seedList))
  {
    var opts := c.opts(self.id);
    assert SafeNode(c, peer) && SafeArc(c, self.id, answer.succ);
    if seedList == [answer.succ] {
      assert seedList == [answer.succ] + [];
      RepeatedHead(self, opts.listSize, opts.siblingCap, answer.succ, answer.succ, []);
      InstallFromPeer(c, self, answer.succ, []);
    } else {
      if seedList != peer.list {
        RepeatedHead(self, opts.listSize, opts.siblingCap, answer.succ, answer.succ, peer.list);
      }
      InstallFromPeer(c, self, answer.succ, peer.list);
    }
  }

  lemma StepSafe(c: Config, net: Net, e: Event)
    requires GoodConfig(c) && Safe(c, net) && Enabled(c, net, e)
    ensures Safe(c, Effect(c, net, e))
  {
    match e
    case Act(n, snap, a) => ActSafe(c, net, n, snap, a);
    case Crash(n) =>
    case AnswerLookup(v, r, target) => AnswerSafe(c, net, v, r, target);
    case AnswerFromCache(line, target) => CacheAnswerSafe(c, line, target);
    case JoinNode(self, answer, peer, seedList) => JoinSafe(c, net, self, answer, peer, seedList);
  }

  /** With more base nodes than list entries, every run that starts without skips has none ever: not in
      any list, not at any successor, not in any lookup answer and not in any stale cache line. */
  lemma {:induction false} NoRunSkipsBase(c: Config, nets: seq<Net>, events: seq<Event>, i: nat)
    requires GoodConfig(c) && IsNetRun(c, nets, events) && Safe(c, nets[0]) && i < |nets|
    ensures Safe(c, nets[i])
    decreases i
  {
    if i > 0 {
      NoRunSkipsBase(c, nets, events, i - 1);
      StepSafe(c, nets[i - 1], events[i - 1]);
    }
  }

  /** Hence in every reachable state the list of every active node is in ring order, and the node's own
      order diagnostic is silent. */
  lemma ListsStayOrdered(c: Config, nets: seq<Net>, events: seq<Event>, i: nat, n: int)
    requires GoodConfig(c) && IsNetRun(c, nets, events) && Safe(c, nets[0]) && i < |nets|
    requires n in nets[i].nodes && nets[i].nodes[n].status == Active
    ensures var st := nets[i].nodes[n];
            && ValidId(n) && Ascending(n, st.list) && ListShape(n, LimitOf(c, n), st.list)
            && (st.list != [] ==> Violations(n, st.list[0].id, st.list) == [])
            && (forall b :: b in c.base ==> !InRangeOpenOpen(b, n, st.succ.id)) && st.succ.id != n
  {
    NoRunSkipsBase(c, nets, events, i);
    var st := nets[i].nodes[n];
    assert SafeNode(c, st) && BaseFor(c.base, LimitOf(c, n));
    BaseSizeOrdersLists(c.base, n, LimitOf(c, n), st.list);
    ArcProper(c, n, st.succ);
    forall b | b in c.base ensures !InRangeOpenOpen(b, n, st.succ.id) {
      assert WalkSkipsNot(b, n, [st.succ]);
    }
  }

  // ----- where runs may start, and the one join source that must be kept out -----

  /** The list names one next member after another. */
  ghost predicate ListsRing(members: set<int>, from: int, list: seq<NodeInfo>)
    decreases |list|
  {
    list != [] ==>
      && (forall y :: y in members ==> !InRangeOpenOpen(y, from, list[0].id))
      && ListsRing(members, list[0].id, list[1..])
  }

  /** Lists that follow the ring of all members skip no base node among them: an ideal ring is a safe start. */
  lemma {:induction false} RingListSkipsNone(base: set<int>, members: set<int>, from: int, list: seq<NodeInfo>)
    requires base <= members && ListsRing(members, from, list)
    ensures SkipsNone(base, from, list)
    decreases |list|
  {
    if list != [] {
      RingListSkipsNone(base, members, list[0].id, list[1..]);
    }
  }

  lemma IdealStartIsSafe(c: Config, net: Net)
    requires GoodConfig(c) && c.base <= net.nodes.Keys && net.answers == {} && net.cached == {}
    requires net.seen == net.nodes.Values
    requires forall n :: n in net.nodes ==>
               var st := net.nodes[n];
               && st.self.id == n && st.status == Active && Honest(c.base, st.self) && AllHonest(c.base, st.list)
               && 0 < |st.list| <= LimitOf(c, n) && st.succ == st.list[0]
               && ListsRing(net.nodes.Keys, n, st.list)
    ensures Safe(c, net)
  {
    forall n | n in net.nodes ensures SafeNode(c, net.nodes[n]) {
      var st := net.nodes[n];
      RingListSkipsNone(c.base, net.nodes.Keys, n, st.list);
      assert st.list == [st.succ] + st.list[1..] && Honest(c.base, st.list[0]);
      WalkPrefix(c.base, n, [st.succ], st.list[1..]);
    }
  }

  /** When the fallback answer of a safe node jumps over a base node: exactly when one lies after the target
      and not beyond the node itself. */
  lemma FallbackSkipsIff(c: Config, v: NodeState, target: int)
    requires SafeNode(c, v) && v.status == Active && ValidId(target) && ValidId(v.self.id) && v.succ.id != v.self.id
    requires forall b :: b in c.base ==> ValidId(b)
    requires !InRangeOpenClosed(target, v.self.id, v.succ.id)
    ensures SkipsNone(c.base, target, [v.succ])
            <==> forall b :: b in c.base ==> !(0 < Offset(target, b) <= Offset(target, v.self.id))
  {
    forall b | b in c.base
      ensures WalkSkipsNot(b, target, [v.succ]) <==> !(0 < Offset(target, b) <= Offset(target, v.self.id))
    {
      assert WalkSkipsNot(b, v.self.id, [v.succ]);
    }
  }

  /** Node 5 has joined behind 7 and known nobody else; three failed calls evict 7 from its list. */
  function Joined5(opts: Options): NodeState {
    JoinCommit(NewNode(Plain(5)).(status := Joining), opts, Plain(7), [])
  }

  function Evicted(opts: Options): NodeState {
    MarkFailure(MarkFailure(MarkFailure(Joined5(opts), opts, 7), opts, 7), opts, 7)
  }

  /** Only node 5 itself and node 7 are known. */
  predicate KnowsOnly7(st: NodeState) {
    && st.self == Plain(5) && st.status == Active && st.succ == Plain(7) && st.list == [Plain(7)]
    && |st.fingers| == BITS && forall i :: 0 <= i < BITS ==> st.fingers[i].node == Plain(5) || st.fingers[i].node == Plain(7)
  }

  lemma JoinedKnowsOnly7(opts: Options)
    ensures KnowsOnly7(Joined5(opts)) && Joined5(opts).failures == map[]
  {
    SuccessorTaken(Plain(5), EffectiveLimit(opts.listSize), MaxFromAnchor(EffectiveLimit(opts.listSize), opts.siblingCap),
                   Plain(7), []);
  }

  lemma CountedFailure(st: NodeState, opts: Options)
    requires KnowsOnly7(st) && !Evicts(st, opts, 7)
    ensures var r := MarkFailure(st, opts, 7); KnowsOnly7(r) && r.failures == st.failures[7 := FailureCount(st, 7)]
  {
  }

  lemma EvictingFailure(st: NodeState, opts: Options)
    requires KnowsOnly7(st) && Evicts(st, opts, 7)
    ensures var r := MarkFailure(st, opts, 7);
            && r.self == Plain(5) && r.status == Active && r.succ == Plain(7) && r.list == []
            && |r.fingers| == BITS && forall i :: 0 <= i < BITS ==> r.fingers[i].node == Plain(5)
  {
    assert Without([Plain(7)][..0], 7) == [];
  }

  lemma EvictedLooks(opts: Options)
    requires opts.failedThreshold == 3
    ensures var v := Evicted(opts);
            && v.self == Plain(5) && v.status == Active && v.succ == Plain(7) && v.list == []
            && |v.fingers| == BITS && forall i :: 0 <= i < BITS ==> v.fingers[i].node == Plain(5)
  {
    var st := Joined5(opts);
    JoinedKnowsOnly7(opts);
    CountedFailure(st, opts);
    var once := MarkFailure(st, opts, 7);
    CountedFailure(once, opts);
    EvictingFailure(MarkFailure(once, opts, 7), opts);
  }

  function EvictedRouter(opts: Options): Router {
    var v := Evicted(opts);
    Router(v.self, v.status, v.succ, v.list, v.fingers, DEFAULT_MAX_HOPS, EMPTY, Weights(1.0, 0.0, 0.0), _ => None)
  }

  lemma FallsBack(r: Router)
    requires r.self == Plain(5) && r.status == Active && r.succ == Plain(7) && r.list == []
    requires forall i :: 0 <= i < |r.fingers| ==> r.fingers[i].node == Plain(5)
    ensures Route(r, Request(60, 0, DEFAULT_MAX_HOPS, [])) == Found(Plain(7), false)
  {
    FallbackIff(r, 60);
  }

  /** A safe node whose only list entry has been evicted: it routes nowhere, and its fallback answer jumps
      over base nodes.  AnswerLookup therefore asks for a local answer, or for the successor to be in the list. */
  lemma EvictedHeadMisleads(opts: Options)
    requires opts.failedThreshold == 3
    ensures var r, base := EvictedRouter(opts), {0, 10, 20, 30, 40, 50};
            && |r.fingers| == BITS && SkipsNone(base, 5, [r.succ]) && SkipsNone(base, 5, r.list)
            && Route(r, Request(60, 0, DEFAULT_MAX_HOPS, [])) == Found(r.succ, false)
            && !SkipsNone(base, 60, [r.succ])
  {
    EvictedLooks(opts);
    FallsBack(EvictedRouter(opts));
    SixAreSkipped();
  }

  lemma SixAreSkipped()
    ensures var base := {0, 10, 20, 30, 40, 50};
            SkipsNone(base, 5, [Plain(7)]) && SkipsNone(base, 5, []) && !SkipsNone(base, 60, [Plain(7)])
  {
    assert !WalkSkipsNot(0, 60, [Plain(7)]);
  }
}
