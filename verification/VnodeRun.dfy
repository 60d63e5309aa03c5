/** A play of the code that comes to rest short of the ideal ring, because a vnode stays unknown to its
    successor: its Stabilize introduces it without an anchor id, and that request is refused.

    A play consists of whole joins and whole turns.  A join here is all that joinNetworkWithSeeds does when a
    member answers the lookup: the new node takes the answer, its own Rectify reaches the successor under the
    record that carries the anchor id, and it validates its list (node.go:597-640).
 */
module VnodeRun {
  import opened Ring
  import opened Wrappers
  import opened NodeLists
  import opened NodeSpec
  import opened Lookup
  import opened StableBase
  import opened Convergence
  import opened Settled
  import opened Settling
  import opened Turns

  datatype Move = Turn(n: int) | Join(host: int, joiner: NodeInfo, named: NodeInfo)

  /** `host` owns the arc the joiner's id lies in, and the record of its successor passes validation, as does
      `named`, the joiner's record with its anchor id filled in if it is a vnode. */
  predicate CanJoin(net: Net, host: int, joiner: NodeInfo, named: NodeInfo) {
    && host in net.nodes && net.nodes[host].succ.id in net.nodes && ValidNodeInfo(net.nodes[host].succ)
    && ValidId(joiner.id) && joiner.id !in net.nodes
    && (net.nodes[host].succ.id == host || InRangeOpenClosed(joiner.id, host, net.nodes[host].succ.id))
    && named == joiner.(anchor := named.anchor) && ValidNodeInfo(named)
  }

  function Asked(net: Net, host: int, target: int): Net
    requires host in net.nodes
  {
    var succ := net.nodes[host].succ;
    net.(answers := net.answers + {Answer(target, succ)}, cached := net.cached + {CacheLine(target, host, succ)})
  }

  function Joined(c: Config, net: Net, joiner: NodeInfo, succ: NodeInfo): (after: Net)
    requires succ.id in net.nodes
    ensures joiner.id in after.nodes && succ.id in after.nodes
  {
    Record(net, joiner.id,
           JoinCommit(NewNode(joiner).(status := Joining), c.opts(joiner.id), succ, net.nodes[succ.id].list))
  }

  /** The successor's handling of the join's own Rectify. */
  function Heard(c: Config, net: Net, t: int, named: NodeInfo): (after: Net)
    requires t in net.nodes
    ensures forall m :: m in net.nodes ==> m in after.nodes
  {
    if RectifyRefuses(net.nodes[t], named) then net else Told(c, net, t, named)
  }

  ghost function AfterJoin(c: Config, net: Net, host: int, joiner: NodeInfo, named: NodeInfo): Net
    requires CanJoin(net, host, joiner, named)
  {
    var succ := net.nodes[host].succ;
    Revalidated(c, Heard(c, Joined(c, Asked(net, host, joiner.id), joiner, succ), succ.id, named), joiner.id)
  }

  ghost predicate Played(c: Config, net: Net, move: Move, after: Net) {
    match move
    case Turn(n) => n in net.nodes && after == AfterTurn(c, net, n)
    case Join(host, joiner, named) => CanJoin(net, host, joiner, named) && after == AfterJoin(c, net, host, joiner, named)
  }

  ghost predicate Plays(c: Config, nets: seq<Net>, moves: seq<Move>) {
    |nets| == |moves| + 1 && forall i :: 0 <= i < |moves| ==> Played(c, nets[i], moves[i], nets[i + 1])
  }

  // ----- every play is a failure-free run of the machine -----

  ghost predicate Reachable(c: Config, net: Net, net': Net) {
    exists nets, events :: IsSmoothRun(c, nets, events) && nets[0] == net && nets[|events|] == net'
  }

  lemma ReachNext(c: Config, net: Net, mid: Net, e: Event)
    requires Reachable(c, net, mid) && Smooth(c, mid, e)
    ensures Reachable(c, net, Effect(c, mid, e))
  {
    var nets, events :| IsSmoothRun(c, nets, events) && nets[0] == net && nets[|events|] == mid;
    RunExtended(c, nets, events, e);
    var all, steps := nets + [Effect(c, mid, e)], events + [e];
    assert IsSmoothRun(c, all, steps) && all[0] == net && all[|steps|] == Effect(c, mid, e);
  }

  /** Runs put one after the other. */
  lemma ReachFurther(c: Config, net: Net, mid: Net, net': Net)
    requires Reachable(c, net, mid) && Reachable(c, mid, net')
    ensures Reachable(c, net, net')
  {
    var nets, events :| IsSmoothRun(c, nets, events) && nets[0] == mid && nets[|events|] == net';
    for i := 0 to |events|
      invariant Reachable(c, net, nets[i])
    {
      assert Smooth(c, nets[i], events[i]) && nets[i + 1] == Effect(c, nets[i], events[i]);
      ReachNext(c, net, nets[i], events[i]);
    }
  }

  /** A reachable network with its invariant. */
  ghost predicate At(c: Config, b: int, net: Net, net': Net) {
    Reachable(c, net, net') && SmoothNet(b, net')
  }

  lemma AtNext(c: Config, b: int, net: Net, mid: Net, e: Event)
    requires GoodClients(c) && At(c, b, net, mid) && Smooth(c, mid, e)
    ensures At(c, b, net, Effect(c, mid, e))
  {
    ReachNext(c, net, mid, e);
    StepSmooth(c, b, mid, e);
  }

  lemma AtStart(c: Config, b: int, net: Net)
    requires SmoothNet(b, net)
    ensures At(c, b, net, net)
  {
    var nets: seq<Net>, events: seq<Event> := [net], [];
    assert IsSmoothRun(c, nets, events) && nets[0] == net && nets[|events|] == net;
  }

  function RouterOf(st: NodeState): Router {
    Router(st.self, st.status, st.succ, st.list, st.fingers, DEFAULT_MAX_HOPS, EMPTY, Weights(1.0, 0.0, 0.0), _ => None)
  }

  lemma AskedAt(c: Config, b: int, net: Net, host: int, target: int)
    requires GoodClients(c) && SmoothNet(b, net) && host in net.nodes && ValidId(target)
    requires net.nodes[host].succ.id == host || InRangeOpenClosed(target, host, net.nodes[host].succ.id)
    ensures At(c, b, net, Asked(net, host, target))
  {
    NodeOf(b, net, host);
    AtStart(c, b, net);
    var st := net.nodes[host];
    assert Route(RouterOf(st), Request(target, 0, DEFAULT_MAX_HOPS, [])) == Found(st.succ, false);
    AtNext(c, b, net, net, AnswerLookup(st, RouterOf(st), target));
  }

  lemma JoinedAt(c: Config, b: int, net: Net, mid: Net, joiner: NodeInfo, succ: NodeInfo)
    requires GoodClients(c) && c.base == {} && At(c, b, net, mid) && succ.id in mid.nodes
    requires ValidId(joiner.id) && joiner.id !in mid.nodes && Answer(joiner.id, succ) in mid.answers
    ensures At(c, b, net, Joined(c, mid, joiner, succ))
  {
    NodeOf(b, mid, succ.id);
    var j := JoinNode(joiner, Answer(joiner.id, succ), mid.nodes[succ.id], mid.nodes[succ.id].list);
    assert Smooth(c, mid, j);
    AtNext(c, b, net, mid, j);
  }

  lemma HeardAt(c: Config, b: int, net: Net, mid: Net, t: int, named: NodeInfo)
    requires GoodClients(c) && At(c, b, net, mid) && t in mid.nodes && named.id in mid.nodes
    ensures At(c, b, net, Heard(c, mid, t, named))
  {
    if !RectifyRefuses(mid.nodes[t], named) {
      IntroductionIsSmooth(c, b, mid, t, named);
      AtNext(c, b, net, mid, Introduction(mid, t, named));
    }
  }

  lemma RevalidatedAt(c: Config, b: int, net: Net, mid: Net, n: int)
    requires GoodClients(c) && At(c, b, net, mid) && n in mid.nodes
    ensures At(c, b, net, Revalidated(c, mid, n))
  {
    ValidatingIsSmooth(c, b, mid, n);
    ValidatingEffect(c, mid, n);
    AtNext(c, b, net, mid, Validating(c, mid, n));
  }

  lemma JoinAt(c: Config, b: int, net: Net, host: int, joiner: NodeInfo, named: NodeInfo)
    requires GoodClients(c) && c.base == {} && SmoothNet(b, net) && CanJoin(net, host, joiner, named)
    ensures At(c, b, net, AfterJoin(c, net, host, joiner, named))
  {
    var succ := net.nodes[host].succ;
    var asked := Asked(net, host, joiner.id);
    AskedAt(c, b, net, host, joiner.id);
    JoinedAt(c, b, net, asked, joiner, succ);
    var joined := Joined(c, asked, joiner, succ);
    HeardAt(c, b, net, joined, succ.id, named);
    RevalidatedAt(c, b, net, Heard(c, joined, succ.id, named), joiner.id);
  }

  lemma TurnAt(c: Config, b: int, net: Net, n: int)
    requires GoodClients(c) && SmoothNet(b, net) && n in net.nodes
    ensures At(c, b, net, AfterTurn(c, net, n))
  {
    TurnComes(c, b, net, n);
    var nets, events :| IsSmoothRun(c, nets, events) && JoinsNobody(events) && nets[0] == net
                        && nets[|events|] == AfterTurn(c, net, n);
  }

  lemma PlayedAt(c: Config, b: int, net: Net, move: Move, after: Net)
    requires GoodClients(c) && c.base == {} && SmoothNet(b, net) && Played(c, net, move, after)
    ensures At(c, b, net, after)
  {
    match move
    case Turn(n) => TurnAt(c, b, net, n);
    case Join(host, joiner, named) => JoinAt(c, b, net, host, joiner, named);
  }

  /** Every play leads where some failure-free run of the machine leads. */
  lemma PlayIsRun(c: Config, b: int, nets: seq<Net>, moves: seq<Move>, i: nat)
    requires GoodClients(c) && c.base == {} && Plays(c, nets, moves) && SmoothNet(b, nets[0]) && i < |nets|
    ensures At(c, b, nets[0], nets[i])
  {
    AtStart(c, b, nets[0]);
    for k := 0 to i
      invariant At(c, b, nets[0], nets[k])
    {
      PlayedAt(c, b, nets[k], moves[k], nets[k + 1]);
      ReachFurther(c, nets[0], nets[k], nets[k + 1]);
    }
  }

  // ----- moves, by what they do to the pointers -----

  /** What a node's record and pointers look like; EMPTY stands for no predecessor. */
  predicate Looks(net: Net, self: NodeInfo, succ: int, pred: int) {
    && self.id in net.nodes
    && var st := net.nodes[self.id];
    && st.self == self && st.succ.id == succ
    && (if pred == EMPTY then st.pred.None? else st.pred.Some? && st.pred.value.id == pred)
  }

  ghost predicate OthersLook(net: Net, after: Net, m: int, n: int) {
    forall x: NodeInfo, s, p :: x.id != m && x.id != n && Looks(net, x, s, p) ==> Looks(after, x, s, p)
  }

  lemma RecordLooks(net: Net, n: int, st: NodeState, pred: int)
    requires st.self.id == n
    requires if pred == EMPTY then st.pred.None? else st.pred.Some? && st.pred.value.id == pred
    ensures var after := Record(net, n, st);
            && after.nodes.Keys == net.nodes.Keys + {n}
            && Looks(after, st.self, st.succ.id, pred) && OthersLook(net, after, n, n)
  {
  }

  lemma AlikeLooks(net: Net, after: Net, x: NodeInfo, s: int, p: int)
    requires Alike(net, after) && Looks(net, x, s, p)
    ensures Looks(after, x, s, p)
  {
    AlikeAt(net, after, x.id);
  }

  lemma JoinedLooks(c: Config, net: Net, joiner: NodeInfo, succ: NodeInfo)
    requires succ.id in net.nodes && joiner.id !in net.nodes
    ensures var after := Joined(c, net, joiner, succ);
            && after.nodes.Keys == net.nodes.Keys + {joiner.id}
            && Looks(after, joiner, succ.id, EMPTY) && OthersLook(net, after, joiner.id, joiner.id)
  {
    RecordLooks(net, joiner.id,
                JoinCommit(NewNode(joiner).(status := Joining), c.opts(joiner.id), succ, net.nodes[succ.id].list), EMPTY);
  }

  lemma Hears(members: set<int>, b: int, st: NodeState, opts: Options, named: NodeInfo)
    requires SmoothNode(members, b, st) && ValidNodeInfo(named) && named.id != st.self.id
    requires st.pred.None? || InRangeOpenOpen(named.id, st.pred.value.id, st.self.id)
    ensures !RectifyRefuses(st, named)
    ensures var r := RectifyCommit(st, opts, named, st.pred, true); r.pred == Some(named) && r.succ == st.succ && r.self == st.self
  {
  }

  lemma ToldLooks(c: Config, net: Net, at: NodeInfo, s: int, named: NodeInfo)
    requires at.id in net.nodes && named.id != EMPTY
    requires var st := net.nodes[at.id];
             var r := RectifyCommit(st, c.opts(at.id), named, st.pred, true);
             r.pred == Some(named) && r.succ.id == s && r.self == at
    ensures var after := Told(c, net, at.id, named);
            && after.nodes.Keys == net.nodes.Keys && Looks(after, at, s, named.id) && OthersLook(net, after, at.id, at.id)
  {
    var st := net.nodes[at.id];
    RecordLooks(net, at.id, RectifyCommit(st, c.opts(at.id), named, st.pred, true), named.id);
    assert net.nodes.Keys + {at.id} == net.nodes.Keys;
  }

  lemma HeardIsTold(c: Config, net: Net, t: int, named: NodeInfo)
    requires t in net.nodes && !RectifyRefuses(net.nodes[t], named)
    ensures Heard(c, net, t, named) == Told(c, net, t, named)
  {
  }

  lemma HeardLooks(c: Config, b: int, net: Net, at: NodeInfo, s: int, p: int, named: NodeInfo)
    requires SmoothNet(b, net) && Looks(net, at, s, p) && ValidNodeInfo(named) && named.id != at.id
    requires p == EMPTY || InRangeOpenOpen(named.id, p, at.id)
    ensures var after := Heard(c, net, at.id, named);
            && after.nodes.Keys == net.nodes.Keys && Looks(after, at, s, named.id) && OthersLook(net, after, at.id, at.id)
  {
    NodeOf(b, net, at.id);
    Hears(net.nodes.Keys, b, net.nodes[at.id], c.opts(at.id), named);
    HeardIsTold(c, net, at.id, named);
    ToldLooks(c, net, at, s, named);
  }

  lemma RevalidatedLooks(c: Config, b: int, net: Net, n: int)
    requires GoodClients(c) && SmoothNet(b, net) && n in net.nodes
    ensures var after := Revalidated(c, net, n);
            && after.nodes.Keys == net.nodes.Keys
            && forall x: NodeInfo, s, p :: Looks(net, x, s, p) ==> Looks(after, x, s, p)
  {
    RevalidatedAlike(c, b, net, n);
    forall x: NodeInfo, s, p | Looks(net, x, s, p) ensures Looks(Revalidated(c, net, n), x, s, p) {
      AlikeLooks(net, Revalidated(c, net, n), x, s, p);
    }
  }

  /** The stages of a join, one after the other. */
  lemma StagesLook(net: Net, joined: Net, heard: Net, after: Net, joiner: NodeInfo, at: NodeInfo, s: int, p: int)
    requires Looks(net, at, s, p) && joiner.id != at.id
    requires joined.nodes.Keys == net.nodes.Keys + {joiner.id} && Looks(joined, joiner, at.id, EMPTY)
    requires OthersLook(net, joined, joiner.id, joiner.id)
    requires heard.nodes.Keys == joined.nodes.Keys && Looks(heard, at, s, joiner.id) && OthersLook(joined, heard, at.id, at.id)
    requires after.nodes.Keys == heard.nodes.Keys && forall x: NodeInfo, y, z :: Looks(heard, x, y, z) ==> Looks(after, x, y, z)
    ensures after.nodes.Keys == net.nodes.Keys + {joiner.id}
    ensures Looks(after, joiner, at.id, EMPTY) && Looks(after, at, s, joiner.id) && OthersLook(net, after, joiner.id, at.id)
  {
    assert Looks(heard, joiner, at.id, EMPTY);
    OthersChain(net, joined, heard, after, joiner.id, at.id);
  }

  /** The successor hears of the joiner, the joiner has the successor, everyone else is as before. */
  lemma JoinLooks(c: Config, b: int, net: Net, host: int, joiner: NodeInfo, named: NodeInfo, at: NodeInfo, s: int, p: int)
    requires GoodClients(c) && c.base == {} && SmoothNet(b, net) && CanJoin(net, host, joiner, named)
    requires at.id == net.nodes[host].succ.id && Looks(net, at, s, p)
    requires p == EMPTY || InRangeOpenOpen(joiner.id, p, at.id)
    ensures var after := AfterJoin(c, net, host, joiner, named);
            && SmoothNet(b, after) && after.nodes.Keys == net.nodes.Keys + {joiner.id}
            && Looks(after, joiner, at.id, EMPTY) && Looks(after, at, s, joiner.id) && OthersLook(net, after, joiner.id, at.id)
  {
    var succ, asked := net.nodes[host].succ, Asked(net, host, joiner.id);
    var joined := Joined(c, asked, joiner, succ);
    var heard := Heard(c, joined, at.id, named);
    JoinSmoothly(c, b, net, host, joiner, named);
    AskedLooks(net, host, joiner.id);
    JoinedLooks(c, asked, joiner, succ);
    assert Looks(asked, at, s, p) && Looks(joined, at, s, p);
    HeardLooks(c, b, joined, at, s, p, named);
    RevalidatedLooks(c, b, heard, joiner.id);
    StagesLook(asked, joined, heard, Revalidated(c, heard, joiner.id), joiner, at, s, p);
    assert OthersLook(net, Revalidated(c, heard, joiner.id), joiner.id, at.id);
  }

  lemma AskedLooks(net: Net, host: int, target: int)
    requires host in net.nodes
    ensures Asked(net, host, target).nodes == net.nodes
    ensures forall x: NodeInfo, s, p :: Looks(net, x, s, p) ==> Looks(Asked(net, host, target), x, s, p)
  {
  }

  lemma OthersChain(x0: Net, x1: Net, x2: Net, x3: Net, m: int, n: int)
    requires OthersLook(x0, x1, m, m) && OthersLook(x1, x2, n, n)
    requires forall x: NodeInfo, s, p :: Looks(x2, x, s, p) ==> Looks(x3, x, s, p)
    ensures OthersLook(x0, x3, m, n)
  {
    forall x: NodeInfo, s, p | x.id != m && x.id != n && Looks(x0, x, s, p) ensures Looks(x3, x, s, p) {
      assert Looks(x1, x, s, p);
      assert Looks(x2, x, s, p);
    }
  }

  /** All stages of a join are smooth. */
  lemma JoinSmoothly(c: Config, b: int, net: Net, host: int, joiner: NodeInfo, named: NodeInfo)
    requires GoodClients(c) && c.base == {} && SmoothNet(b, net) && CanJoin(net, host, joiner, named)
    ensures var succ := net.nodes[host].succ;
            var joined := Joined(c, Asked(net, host, joiner.id), joiner, succ);
            var heard := Heard(c, joined, succ.id, named);
            SmoothNet(b, joined) && SmoothNet(b, heard) && SmoothNet(b, Revalidated(c, heard, joiner.id))
  {
    var succ := net.nodes[host].succ;
    var asked := Asked(net, host, joiner.id);
    AskedAt(c, b, net, host, joiner.id);
    JoinedAt(c, b, net, asked, joiner, succ);
    var joined := Joined(c, asked, joiner, succ);
    HeardAt(c, b, net, joined, succ.id, named);
    RevalidatedAt(c, b, net, Heard(c, joined, succ.id, named), joiner.id);
  }

  /** A join leaves the host's successor as it is, down to the record. */
  lemma JoinKeepsHost(c: Config, net: Net, host: int, joiner: NodeInfo, named: NodeInfo)
    requires CanJoin(net, host, joiner, named)
    ensures var after := AfterJoin(c, net, host, joiner, named);
            host in after.nodes && after.nodes[host].succ == net.nodes[host].succ
  {
    var joined := Joined(c, Asked(net, host, joiner.id), joiner, net.nodes[host].succ);
    assert joined.nodes[host] == net.nodes[host];
    assert Heard(c, joined, net.nodes[host].succ.id, named).nodes[host].succ == net.nodes[host].succ;
  }

  /** The write of a decision that has found a target. */
  lemma DecidedLooks(mid: Net, at: NodeInfo, s: int, p: int, snapSucc: int, opts: Options, d: Decision)
    requires Looks(mid, at, s, p) && (d.Adopt? || d.Bootstrap?)
    ensures var after := Record(mid, at.id, Commit(mid.nodes[at.id], snapSucc, opts, d));
            && after.nodes.Keys == mid.nodes.Keys
            && Looks(after, at, Target(d).value.id, p) && OthersLook(mid, after, at.id, at.id)
  {
    RecordLooks(mid, at.id, Commit(mid.nodes[at.id], snapSucc, opts, d), p);
    assert mid.nodes.Keys + {at.id} == mid.nodes.Keys;
  }

  lemma WrittenLooks(c: Config, b: int, net: Net, mid: Net, after: Net, at: NodeInfo, s: int, p: int, t: int)
    requires SmoothNet(b, net) && Looks(net, at, s, p)
    requires mid == Announced(c, net, at.id) && after == Committed(c, net, mid, at.id)
    requires Target(RoundDecision(c, net, at.id)).Some? && Target(RoundDecision(c, net, at.id)).value.id == t
    ensures after.nodes.Keys == mid.nodes.Keys && Looks(after, at, t, p) && OthersLook(mid, after, at.id, at.id)
  {
    AnnouncedLeaves(c, b, net, at.id);
    DecidedLooks(mid, at, s, p, net.nodes[at.id].succ.id, c.opts(at.id), RoundDecision(c, net, at.id));
  }

  /** Validation at its end changes no pointer. */
  lemma TurnEnds(c: Config, b: int, net: Net, n: int)
    requires GoodClients(c) && SmoothNet(b, net) && n in net.nodes
    ensures var written := Committed(c, net, Announced(c, net, n), n);
            && AfterTurn(c, net, n).nodes.Keys == written.nodes.Keys
            && forall x: NodeInfo, s, p :: Looks(written, x, s, p) ==> Looks(AfterTurn(c, net, n), x, s, p)
  {
    CommittedComes(c, b, net, n);
    RevalidatedLooks(c, b, Committed(c, net, Announced(c, net, n), n), n);
  }

  lemma AnnouncedToTarget(c: Config, net: Net, n: int, t: int)
    requires n in net.nodes && t in net.nodes
    requires Target(RoundDecision(c, net, n)).Some? && Target(RoundDecision(c, net, n)).value.id == t
    ensures RectifyRefuses(net.nodes[t], net.nodes[n].self) ==> Announced(c, net, n) == net
    ensures !RectifyRefuses(net.nodes[t], net.nodes[n].self) ==> Announced(c, net, n) == Told(c, net, t, net.nodes[n].self)
  {
  }

  /** The parts of a turn, one after the other. */
  lemma PartsLook(net: Net, mid: Net, written: Net, after: Net, at: NodeInfo, s: int, p: int, next: NodeInfo, y: int, z: int)
    requires at.id != next.id && mid.nodes.Keys == net.nodes.Keys
    requires Looks(mid, next, y, z) && OthersLook(net, mid, next.id, next.id)
    requires written.nodes.Keys == mid.nodes.Keys && Looks(written, at, s, p) && OthersLook(mid, written, at.id, at.id)
    requires after.nodes.Keys == written.nodes.Keys
    requires forall x: NodeInfo, k, l :: Looks(written, x, k, l) ==> Looks(after, x, k, l)
    ensures after.nodes.Keys == net.nodes.Keys
    ensures Looks(after, at, s, p) && Looks(after, next, y, z) && OthersLook(net, after, next.id, at.id)
  {
    assert Looks(written, next, y, z);
    OthersChain(net, mid, written, after, next.id, at.id);
  }

  lemma BootstrapTarget(c: Config, b: int, net: Net, n: int, t: int)
    requires GoodClients(c) && SmoothNet(b, net) && n in net.nodes && net.nodes[n].succ.id == n
    requires net.nodes[n].pred.Some? && net.nodes[n].pred.value.id == t
    ensures var target := Target(RoundDecision(c, net, n)); target.Some? && target.value.id == t
  {
    RoundOf(c, b, net, n);
  }

  lemma AdoptTarget(c: Config, b: int, net: Net, n: int, s: int, t: int)
    requires GoodClients(c) && SmoothNet(b, net) && n in net.nodes && net.nodes[n].succ.id == s && s != n
    requires s in net.nodes && net.nodes[s].pred.Some? && net.nodes[s].pred.value.id == t && InRangeOpenOpen(t, n, s)
    ensures var target := Target(RoundDecision(c, net, n)); target.Some? && target.value.id == t
  {
    RoundOf(c, b, net, n);
  }

  /** The turn of a node alone that a joiner has made itself known to. */
  lemma BootstrapLooks(c: Config, b: int, net: Net, at: NodeInfo, next: NodeInfo, s: int)
    requires GoodClients(c) && SmoothNet(b, net) && ValidNodeInfo(at) && next.id != EMPTY && next.id != at.id
    requires Looks(net, at, at.id, next.id) && Looks(net, next, s, EMPTY)
    ensures var after := AfterTurn(c, net, at.id);
            && SmoothNet(b, after) && after.nodes.Keys == net.nodes.Keys
            && Looks(after, at, next.id, next.id) && Looks(after, next, s, at.id) && OthersLook(net, after, next.id, at.id)
  {
    BootstrapTarget(c, b, net, at.id, next.id);
    NodeOf(b, net, next.id);
    TurnComes(c, b, net, at.id);
    AnnouncedToTarget(c, net, at.id, next.id);
    Hears(net.nodes.Keys, b, net.nodes[next.id], c.opts(next.id), at);
    ToldLooks(c, net, next, s, at);
    var mid := Announced(c, net, at.id);
    var written := Committed(c, net, mid, at.id);
    WrittenLooks(c, b, net, mid, written, at, at.id, next.id, next.id);
    TurnEnds(c, b, net, at.id);
    PartsLook(net, mid, written, AfterTurn(c, net, at.id),
              at, next.id, next.id, next, s, at.id);
  }

  /** The turn of a vnode whose successor has a nearer predecessor: it takes that one, which refuses to hear of it. */
  lemma AdoptLooks(c: Config, b: int, net: Net, at: NodeInfo, s: int, p: int, far: NodeInfo, next: NodeInfo, t: int, y: int, z: int)
    requires GoodClients(c) && SmoothNet(b, net) && !ValidNodeInfo(at) && far.id != at.id && next.id != at.id && next.id != EMPTY
    requires Looks(net, at, far.id, p) && Looks(net, far, t, next.id) && Looks(net, next, y, z)
    requires InRangeOpenOpen(next.id, at.id, far.id)
    ensures var after := AfterTurn(c, net, at.id);
            && SmoothNet(b, after) && after.nodes.Keys == net.nodes.Keys
            && Looks(after, at, next.id, p) && OthersLook(net, after, next.id, at.id) && Looks(after, next, y, z)
  {
    AdoptTarget(c, b, net, at.id, far.id, next.id);
    TurnComes(c, b, net, at.id);
    AnnouncedToTarget(c, net, at.id, next.id);
    var mid := Announced(c, net, at.id);
    var written := Committed(c, net, mid, at.id);
    WrittenLooks(c, b, net, mid, written, at, far.id, p, next.id);
    TurnEnds(c, b, net, at.id);
    PartsLook(net, mid, written, AfterTurn(c, net, at.id),
              at, next.id, p, next, y, z);
  }

  // ----- the play -----

  const ANCHOR: NodeInfo := NodeInfo(0, 0, EMPTY, EMPTY)

  /** The vnode's own record, and the one its join introduces it with. */
  const VNODE: NodeInfo := NodeInfo(10, 0, EMPTY, EMPTY)
  const VNODE_NAMED: NodeInfo := NodeInfo(10, 0, 0, EMPTY)

  const OTHER: NodeInfo := NodeInfo(20, 20, EMPTY, EMPTY)

  /** Members and pointers of the play, stage by stage. */
  predicate Alone(net: Net) {
    net.nodes.Keys == {0} && Looks(net, ANCHOR, 0, EMPTY) && net.nodes[0].succ == ANCHOR
  }

  predicate Two(net: Net) {
    && net.nodes.Keys == {0, 10} && Looks(net, ANCHOR, 0, 10) && Looks(net, VNODE, 0, EMPTY)
    && net.nodes[0].succ == ANCHOR
  }

  predicate Three(net: Net, succ: int, pred: int, vnodeSucc: int, otherPred: int) {
    && net.nodes.Keys == {0, 10, 20} && Looks(net, ANCHOR, succ, pred) && Looks(net, VNODE, vnodeSucc, EMPTY)
    && Looks(net, OTHER, 0, otherPred)
  }

  lemma StartAlone(net: Net)
    requires net == SingleNode(ANCHOR)
    ensures SmoothNet(0, net) && Alone(net)
  {
    StartIsSmooth(ANCHOR);
  }

  lemma JoinIsPlayed(c: Config, net: Net, host: int, joiner: NodeInfo, named: NodeInfo)
    requires CanJoin(net, host, joiner, named)
    ensures Played(c, net, Join(host, joiner, named), AfterJoin(c, net, host, joiner, named))
  {
  }

  lemma CanJoinZero(net: Net, joiner: NodeInfo, named: NodeInfo)
    requires 0 in net.nodes && net.nodes[0].succ == ANCHOR && joiner.id !in net.nodes.Keys
    requires ValidId(joiner.id) && ValidNodeInfo(named) && named == joiner.(anchor := named.anchor)
    ensures CanJoin(net, 0, joiner, named)
  {
  }

  lemma ThenTwo(net: Net, after: Net)
    requires Alone(net) && after.nodes.Keys == net.nodes.Keys + {10} && 0 in after.nodes && after.nodes[0].succ == net.nodes[0].succ
    requires Looks(after, VNODE, 0, EMPTY) && Looks(after, ANCHOR, 0, 10)
    ensures Two(after)
  {
  }

  lemma ThenThree(net: Net, after: Net)
    requires Two(net) && after.nodes.Keys == net.nodes.Keys + {20} && OthersLook(net, after, 20, 0)
    requires Looks(after, OTHER, 0, EMPTY) && Looks(after, ANCHOR, 0, 20)
    ensures Three(after, 0, 20, 0, EMPTY)
  {
  }

  lemma VnodeJoins(c: Config, net: Net)
    requires GoodClients(c) && c.base == {} && SmoothNet(0, net) && Alone(net)
    ensures CanJoin(net, 0, VNODE, VNODE_NAMED)
    ensures var after := AfterJoin(c, net, 0, VNODE, VNODE_NAMED); SmoothNet(0, after) && Two(after)
  {
    CanJoinZero(net, VNODE, VNODE_NAMED);
    JoinLooks(c, 0, net, 0, VNODE, VNODE_NAMED, ANCHOR, 0, EMPTY);
    JoinKeepsHost(c, net, 0, VNODE, VNODE_NAMED);
    ThenTwo(net, AfterJoin(c, net, 0, VNODE, VNODE_NAMED));
  }

  lemma OtherJoins(c: Config, net: Net)
    requires GoodClients(c) && c.base == {} && SmoothNet(0, net) && Two(net)
    ensures CanJoin(net, 0, OTHER, OTHER)
    ensures var after := AfterJoin(c, net, 0, OTHER, OTHER); SmoothNet(0, after) && Three(after, 0, 20, 0, EMPTY)
  {
    CanJoinZero(net, OTHER, OTHER);
    JoinLooks(c, 0, net, 0, OTHER, OTHER, ANCHOR, 0, 10);
    ThenThree(net, AfterJoin(c, net, 0, OTHER, OTHER));
  }

  lemma AnchorTurns(c: Config, net: Net)
    requires GoodClients(c) && SmoothNet(0, net) && Three(net, 0, 20, 0, EMPTY)
    ensures var after := AfterTurn(c, net, 0); SmoothNet(0, after) && Three(after, 20, 20, 0, 0)
  {
    BootstrapLooks(c, 0, net, ANCHOR, OTHER, 0);
  }

  lemma VnodeTurns(c: Config, net: Net)
    requires GoodClients(c) && SmoothNet(0, net) && Three(net, 20, 20, 0, 0)
    ensures var after := AfterTurn(c, net, 10); SmoothNet(0, after) && Three(after, 20, 20, 20, 0)
  {
    AdoptLooks(c, 0, net, VNODE, 0, EMPTY, ANCHOR, OTHER, 20, 0, 0);
  }

  lemma PlaysOn(c: Config, nets: seq<Net>, moves: seq<Move>, move: Move, after: Net)
    requires Plays(c, nets, moves) && Played(c, nets[|moves|], move, after)
    ensures Plays(c, nets + [after], moves + [move])
  {
    var all, steps := nets + [after], moves + [move];
    forall i | 0 <= i < |steps| ensures Played(c, all[i], steps[i], all[i + 1]) {
      if i < |moves| {
        assert all[i] == nets[i] && all[i + 1] == nets[i + 1] && steps[i] == moves[i];
      }
    }
  }

  lemma TurnIsPlayed(c: Config, net: Net, n: int)
    requires n in net.nodes
    ensures Played(c, net, Turn(n), AfterTurn(c, net, n))
  {
  }

  lemma JoinPlayed(c: Config, nets: seq<Net>, moves: seq<Move>, host: int, joiner: NodeInfo, named: NodeInfo)
    requires Plays(c, nets, moves) && CanJoin(nets[|moves|], host, joiner, named)
    ensures Plays(c, nets + [AfterJoin(c, nets[|moves|], host, joiner, named)], moves + [Join(host, joiner, named)])
  {
    JoinIsPlayed(c, nets[|moves|], host, joiner, named);
    PlaysOn(c, nets, moves, Join(host, joiner, named), AfterJoin(c, nets[|moves|], host, joiner, named));
  }

  lemma NothingPlayed(c: Config, net: Net)
    ensures Plays(c, [net], [])
  {
  }

  lemma FirstJoin(c: Config, before: seq<Net>, past: seq<Move>) returns (nets: seq<Net>, moves: seq<Move>)
    requires GoodClients(c) && c.base == {} && Plays(c, before, past)
    requires SmoothNet(0, before[|past|]) && Alone(before[|past|])
    ensures Plays(c, nets, moves) && nets[0] == before[0] && SmoothNet(0, nets[|moves|]) && Two(nets[|moves|])
  {
    var net := before[|past|];
    VnodeJoins(c, net);
    JoinPlayed(c, before, past, 0, VNODE, VNODE_NAMED);
    nets, moves := before + [AfterJoin(c, net, 0, VNODE, VNODE_NAMED)], past + [Join(0, VNODE, VNODE_NAMED)];
  }

  lemma SecondJoin(c: Config, before: seq<Net>, past: seq<Move>) returns (nets: seq<Net>, moves: seq<Move>)
    requires GoodClients(c) && c.base == {} && Plays(c, before, past)
    requires SmoothNet(0, before[|past|]) && Two(before[|past|])
    ensures Plays(c, nets, moves) && nets[0] == before[0]
    ensures SmoothNet(0, nets[|moves|]) && Three(nets[|moves|], 0, 20, 0, EMPTY)
  {
    var net := before[|past|];
    OtherJoins(c, net);
    JoinPlayed(c, before, past, 0, OTHER, OTHER);
    nets, moves := before + [AfterJoin(c, net, 0, OTHER, OTHER)], past + [Join(0, OTHER, OTHER)];
  }

  lemma BothJoin(c: Config, start: Net) returns (nets: seq<Net>, moves: seq<Move>)
    requires GoodClients(c) && c.base == {} && SmoothNet(0, start) && Alone(start)
    ensures Plays(c, nets, moves) && nets[0] == start
    ensures SmoothNet(0, nets[|moves|]) && Three(nets[|moves|], 0, 20, 0, EMPTY)
  {
    NothingPlayed(c, start);
    nets, moves := FirstJoin(c, [start], []);
    nets, moves := SecondJoin(c, nets, moves);
  }

  lemma TurnPlayed(c: Config, nets: seq<Net>, moves: seq<Move>, n: int)
    requires Plays(c, nets, moves) && n in nets[|moves|].nodes
    ensures Plays(c, nets + [AfterTurn(c, nets[|moves|], n)], moves + [Turn(n)])
  {
    TurnIsPlayed(c, nets[|moves|], n);
    PlaysOn(c, nets, moves, Turn(n), AfterTurn(c, nets[|moves|], n));
  }

  lemma ThreeIdle(net: Net, n: int)
    requires Three(net, 20, 20, 20, 0) && n in net.nodes
    ensures net.nodes[n].succ.id in net.nodes && IdlePointers(net, n)
    ensures net.nodes[n].succ.id != 10
  {
    assert n in net.nodes.Keys;
  }

  lemma VnodeUnknown(net: Net)
    requires Three(net, 20, 20, 20, 0)
    ensures !VnodesKnown(net)
  {
    assert 10 in net.nodes && !KnownToSuccessor(net, 10);
  }

  lemma ThreeRest(c: Config, net: Net)
    requires GoodClients(c) && SmoothNet(0, net) && Three(net, 20, 20, 20, 0)
    ensures Quiet(c, net) && !VnodesKnown(net) && !IdealNet(net)
    ensures forall n :: n in net.nodes ==> net.nodes[n].succ.id != 10
  {
    forall n | n in net.nodes ensures RoundIdle(c, net, n) && net.nodes[n].succ.id != 10 {
      ThreeIdle(net, n);
      RoundIdleIff(c, 0, net, n);
    }
    VnodeUnknown(net);
    QuietIffIdeal(c, 0, net);
  }

  lemma NothingMoves(c: Config, net: Net)
    requires GoodClients(c) && SmoothNet(0, net) && Quiet(c, net)
    ensures forall more, who :: AreTurns(c, more, who) && more[0] == net ==> Alike(net, more[|who|])
  {
    forall more, who | AreTurns(c, more, who) && more[0] == net ensures Alike(net, more[|who|]) {
      SettledStays(c, 0, more, who, |who|);
    }
  }

  lemma AnchorPlayed(c: Config, before: seq<Net>, past: seq<Move>) returns (nets: seq<Net>, moves: seq<Move>)
    requires GoodClients(c) && Plays(c, before, past)
    requires SmoothNet(0, before[|past|]) && Three(before[|past|], 0, 20, 0, EMPTY)
    ensures Plays(c, nets, moves) && nets[0] == before[0]
    ensures SmoothNet(0, nets[|moves|]) && Three(nets[|moves|], 20, 20, 0, 0)
  {
    AnchorTurns(c, before[|past|]);
    TurnPlayed(c, before, past, 0);
    nets, moves := before + [AfterTurn(c, before[|past|], 0)], past + [Turn(0)];
  }

  lemma VnodePlayed(c: Config, before: seq<Net>, past: seq<Move>) returns (nets: seq<Net>, moves: seq<Move>)
    requires GoodClients(c) && Plays(c, before, past)
    requires SmoothNet(0, before[|past|]) && Three(before[|past|], 20, 20, 0, 0)
    ensures Plays(c, nets, moves) && nets[0] == before[0]
    ensures SmoothNet(0, nets[|moves|]) && Three(nets[|moves|], 20, 20, 20, 0)
  {
    VnodeTurns(c, before[|past|]);
    TurnPlayed(c, before, past, 10);
    nets, moves := before + [AfterTurn(c, before[|past|], 10)], past + [Turn(10)];
  }

  lemma WholePlay(c: Config, start: Net) returns (nets: seq<Net>, moves: seq<Move>)
    requires GoodClients(c) && c.base == {} && SmoothNet(0, start) && Alone(start)
    ensures Plays(c, nets, moves) && nets[0] == start
    ensures SmoothNet(0, nets[|moves|]) && Three(nets[|moves|], 20, 20, 20, 0)
  {
    nets, moves := BothJoin(c, start);
    nets, moves := AnchorPlayed(c, nets, moves);
    nets, moves := VnodePlayed(c, nets, moves);
  }

  /** A vnode and a physical node join a node alone, each heard by the Rectify of its join, and two turns later
      the network is at rest with the vnode on nobody's ring: no turn of anybody moves a pointer again. */
  lemma VnodeStaysUnknown(c: Config) returns (nets: seq<Net>, moves: seq<Move>)
    requires GoodClients(c) && c.base == {}
    ensures Plays(c, nets, moves) && nets[0] == SingleNode(ANCHOR)
    ensures var last := nets[|moves|];
            && last.nodes.Keys == {0, 10, 20} && Quiet(c, last) && !VnodesKnown(last) && !IdealNet(last)
            && forall n :: n in last.nodes ==> last.nodes[n].succ.id != 10
    ensures forall more, who :: AreTurns(c, more, who) && more[0] == nets[|moves|] ==> Alike(nets[|moves|], more[|who|])
  {
    StartAlone(SingleNode(ANCHOR));
    nets, moves := WholePlay(c, SingleNode(ANCHOR));
    ThreeRest(c, nets[|moves|]);
    NothingMoves(c, nets[|moves|]);
  }
}
