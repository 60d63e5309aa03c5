/** What each protocol action does to one node's state, as functions on values.

    The remote calls an action makes are parameters: `fetch(k)` is the reply to the k-th state query,
    `alive(i)` the answer to the i-th ping, and None or false stand for a failed call.  An action that
    releases the node's lock between reading and writing takes two states: the snapshot it read and
    the state it finds when it writes.
 */
module NodeSpec {
  import opened Ring
  import opened Wrappers
  import opened NodeLists
  import opened ListOrder

  const DEFAULT_PREDECESSOR_LIST_SIZE: nat := 2

  datatype Status = Initializing | Joining | Active | Leaving | Isolated
  datatype FingerStatus = Ok | Suspicious | Unknown
  datatype Finger = Finger(node: NodeInfo, status: FingerStatus, valid: bool)

  datatype Options = Options(listSize: int, siblingCap: real, predecessorListSize: int, failedThreshold: int,
                             validateAfterStabilize: bool, atomicState: bool, hasClient: bool)

  datatype NodeState = NodeState(self: NodeInfo, status: Status,
                                 pred: Option<NodeInfo>, predList: seq<NodeInfo>,
                                 succ: NodeInfo, list: seq<NodeInfo>, listValid: bool,
                                 fingers: seq<Finger>, failures: map<int, nat>)

  /** The reply to a state query: the peer's predecessor and successor list. */
  datatype PeerState = PeerState(pred: Option<NodeInfo>, list: seq<NodeInfo>)

  /** Replies to the calls validateSuccessorList makes: pings of the current entries, the last entry's
      own list, and pings of the entries of that list. */
  datatype Probe = Probe(alive: nat -> bool, lastList: Option<seq<NodeInfo>>, extAlive: nat -> bool)

  // ----- node.go: construction and activation -----

  function NewNode(self: NodeInfo): NodeState {
    NodeState(self, Initializing, None, [], self, [self], true,
              seq(BITS, _ => Finger(self, Unknown, false)), map[])
  }

  function ActivateSingle(st: NodeState): NodeState {
    st.(status := Active, pred := None, succ := st.self, list := [st.self], listValid := true,
        fingers := seq(|st.fingers|, i requires 0 <= i < |st.fingers| => Finger(st.self, Ok, st.fingers[i].valid)))
  }

  // ----- failure bookkeeping (maintenance.go:1202-1242) -----

  function Without(list: seq<NodeInfo>, id: int): seq<NodeInfo> {
    if list == [] then []
    else
      var n := list[|list| - 1];
      Without(list[..|list| - 1], id) + if n.id == id then [] else [n]
  }

  function FailureCount(st: NodeState, id: int): nat {
    (if id in st.failures then st.failures[id] else 0) + 1
  }

  predicate Evicts(st: NodeState, opts: Options, id: int) {
    opts.failedThreshold > 0 && FailureCount(st, id) >= opts.failedThreshold
  }

  function MarkFailure(st: NodeState, opts: Options, id: int): NodeState {
    var counted := st.(failures := st.failures[id := FailureCount(st, id)]);
    if Evicts(st, opts, id) then
      counted.(list := Without(st.list, id), fingers := Replaced(st.fingers, id, Finger(st.self, Unknown, false)))
    else
      counted.(fingers := Doubted(st.fingers, id))
  }

  function Replaced(fs: seq<Finger>, id: int, with: Finger): seq<Finger> {
    seq(|fs|, i requires 0 <= i < |fs| => if fs[i].node.id == id then with else fs[i])
  }

  function Doubted(fs: seq<Finger>, id: int): seq<Finger> {
    seq(|fs|, i requires 0 <= i < |fs| => if fs[i].node.id == id then Finger(fs[i].node, Suspicious, false) else fs[i])
  }

  function Trusted(fs: seq<Finger>, ids: set<int>): seq<Finger> {
    seq(|fs|, i requires 0 <= i < |fs| => if fs[i].node.id in ids then fs[i].(status := Ok) else fs[i])
  }

  function MarkSuccesses(st: NodeState, ids: set<int>): NodeState {
    st.(failures := st.failures - ids, fingers := Trusted(st.fingers, ids))
  }

  // ----- writes of the successor -----

  function FirstFinger(fs: seq<Finger>, succ: NodeInfo): seq<Finger> {
    if fs == [] then fs else fs[0 := Finger(succ, Ok, true)]
  }

  function Install(st: NodeState, opts: Options, succ: NodeInfo, remote: seq<NodeInfo>): NodeState {
    st.(succ := succ, list := Merge(st.self, opts.listSize, opts.siblingCap, succ, remote),
        fingers := FirstFinger(st.fingers, succ))
  }

  function Isolate(st: NodeState): NodeState {
    st.(status := Isolated, pred := None, succ := st.self, list := [st.self], listValid := false)
  }

  predicate PingAnswer(self: int, target: NodeInfo, hasClient: bool, answer: bool) {
    target.id != EMPTY && (target.id == self || (hasClient && answer))
  }

  // ----- Stabilize (maintenance.go:366-487) -----

  datatype Decision = StaySingle(tried: nat)
                    | Bootstrap(tried: nat, succ: NodeInfo, remote: seq<NodeInfo>)
                    | Adopt(tried: nat, contact: NodeInfo, succ: NodeInfo, remote: seq<NodeInfo>)
                    | NoCandidate(tried: nat)

  function Candidates(snap: NodeState): seq<NodeInfo> {
    Dedupe([snap.succ] + snap.list, EMPTY)
  }

  /** Whose state Stabilize asks for when it comes to the k-th candidate: the candidate's, or the predecessor's
      when the candidate is the node itself. */
  function Queried(snap: NodeState, k: nat): NodeInfo
    requires k < |Candidates(snap)|
  {
    if Candidates(snap)[k].id == snap.self.id && snap.pred.Some? then snap.pred.value else Candidates(snap)[k]
  }

  /** The contact's predecessor takes precedence if it lies between us and the contact and is alive. */
  predicate Improves(self: int, contact: NodeInfo, reply: PeerState, hasClient: bool, answer: bool) {
    && reply.pred.Some?
    && reply.pred.value.id != self
    && InRangeOpenOpen(reply.pred.value.id, self, contact.id)
    && ValidNodeInfo(reply.pred.value)
    && PingAnswer(self, reply.pred.value, hasClient, answer)
  }

  /** What the k-th candidate leads to; None means: go on with the next one. */
  function Try(self: int, pred: Option<NodeInfo>, hasClient: bool, k: nat, c: NodeInfo,
               reply: Option<PeerState>, answer: bool): Option<Decision> {
    if c.id == self then
      if pred.None? || pred.value.id == self || !hasClient then Some(StaySingle(k))
      else if !PingAnswer(self, pred.value, hasClient, answer) then None
      else Some(Bootstrap(k, pred.value, if reply.Some? then reply.value.list else []))
    else if !hasClient then Some(NoCandidate(k))
    else if reply.None? then None
    else if Improves(self, c, reply.value, hasClient, answer) then
      Some(Adopt(k, c, reply.value.pred.value, [c] + reply.value.list))
    else Some(Adopt(k, c, c, reply.value.list))
  }

  function Decide(snap: NodeState, hasClient: bool, candidates: seq<NodeInfo>, k: nat,
                  fetch: nat -> Option<PeerState>, alive: nat -> bool): Decision
    requires k <= |candidates|
    decreases |candidates| - k
  {
    if k == |candidates| then NoCandidate(k)
    else
      match Try(snap.self.id, snap.pred, hasClient, k, candidates[k], fetch(k), alive(k))
      case Some(d) => d
      case None => Decide(snap, hasClient, candidates, k + 1, fetch, alive)
  }

  /** The write at the end of Stabilize. */
  function Commit(st: NodeState, snapSucc: int, opts: Options, d: Decision): NodeState {
    match d
    case StaySingle(_) =>
      var single := st.(succ := st.self, list := [st.self], listValid := true);
      if snapSucc != st.self.id then single.(status := Isolated, pred := None, listValid := false) else single
    case Bootstrap(_, succ, remote) => Install(st, opts, succ, remote)
    case Adopt(_, _, succ, remote) => Install(st, opts, succ, remote)
    case NoCandidate(_) => Isolate(st)
  }

  /** Failures counted while walking through the first `k` candidates. */
  function FailCandidates(st: NodeState, opts: Options, candidates: seq<NodeInfo>, k: nat): NodeState
    requires k <= |candidates|
  {
    if k == 0 then st
    else
      var before := FailCandidates(st, opts, candidates, k - 1);
      if candidates[k - 1].id == st.self.id then before else MarkFailure(before, opts, candidates[k - 1].id)
  }

  function Target(d: Decision): Option<NodeInfo> {
    match d
    case Bootstrap(_, succ, _) => Some(succ)
    case Adopt(_, _, succ, _) => Some(succ)
    case _ => None
  }

  /** Nodes whose calls succeeded on the way to the decision. */
  function Reached(d: Decision): set<int> {
    match d
    case StaySingle(_) => {}
    case Bootstrap(_, succ, _) => {succ.id}
    case Adopt(_, contact, succ, _) => {contact.id, succ.id}
    case NoCandidate(_) => {}
  }

  // ----- validateSuccessorList (maintenance.go:535-620) -----

  function Entries(snap: NodeState): seq<NodeInfo> {
    if snap.list == [] && snap.succ.id != EMPTY then [snap.succ] else snap.list
  }

  function KeepLive(self: int, current: seq<NodeInfo>, hasClient: bool, alive: nat -> bool,
                    i: nat, out: seq<NodeInfo>, limit: nat): seq<NodeInfo>
    requires i <= |current|
    decreases |current| - i
  {
    if i == |current| || |out| >= limit then out
    else if !PingAnswer(self, current[i], hasClient, alive(i)) || current[i].id in Ids(out) then
      KeepLive(self, current, hasClient, alive, i + 1, out, limit)
    else KeepLive(self, current, hasClient, alive, i + 1, out + [current[i]], limit)
  }

  function Extend(self: int, more: seq<NodeInfo>, hasClient: bool, alive: nat -> bool,
                  i: nat, out: seq<NodeInfo>, limit: nat): seq<NodeInfo>
    requires i <= |more|
    decreases |more| - i
  {
    if i == |more| || |out| >= limit then out
    else if more[i].id == EMPTY || more[i].id == self || more[i].id in Ids(out)
            || !PingAnswer(self, more[i], hasClient, alive(i)) then
      Extend(self, more, hasClient, alive, i + 1, out, limit)
    else Extend(self, more, hasClient, alive, i + 1, out + [more[i]], limit)
  }

  predicate ExtendsFrom(self: int, kept: seq<NodeInfo>, hasClient: bool, limit: nat) {
    0 < |kept| < limit && hasClient && kept[|kept| - 1].id != self
  }

  function Validated(self: int, current: seq<NodeInfo>, limit: nat, hasClient: bool, p: Probe): seq<NodeInfo> {
    var kept := KeepLive(self, current, hasClient, p.alive, 0, [], limit);
    if ExtendsFrom(self, kept, hasClient, limit) && p.lastList.Some? then
      Extend(self, p.lastList.value, hasClient, p.extAlive, 0, kept, limit)
    else kept
  }

  /** Ids whose pings were answered during validation. */
  function Answered(self: int, current: seq<NodeInfo>, hasClient: bool, alive: nat -> bool): set<int> {
    set i | 0 <= i < |current| && current[i].id != self && PingAnswer(self, current[i], hasClient, alive(i)) :: current[i].id
  }

  function ValidationReached(self: int, current: seq<NodeInfo>, limit: nat, hasClient: bool, p: Probe): set<int> {
    var kept := KeepLive(self, current, hasClient, p.alive, 0, [], limit);
    Answered(self, current, hasClient, p.alive)
    + (Ids(Validated(self, current, limit, hasClient, p)) - Ids(kept))
  }

  function WriteValidated(st: NodeState, valid: seq<NodeInfo>): NodeState {
    if valid == [] then Isolate(st)
    else st.(succ := valid[0], list := valid,
             listValid := Violations(st.self.id, valid[0].id, valid) == [],
             fingers := FirstFinger(st.fingers, valid[0]))
  }

  /** The node a Stabilize that reaches a decision introduces itself to: its new successor. */
  function RectifyTarget(st: NodeState, opts: Options, fetch: nat -> Option<PeerState>, alive: nat -> bool): Option<NodeInfo> {
    Target(Decide(st, opts.hasClient, Candidates(st), 0, fetch, alive))
  }

  /** A whole validation with nothing else running on the node. */
  function Validation(st: NodeState, opts: Options, p: Probe): NodeState {
    var limit := EffectiveLimit(opts.listSize);
    WriteValidated(MarkSuccesses(st, ValidationReached(st.self.id, Entries(st), limit, opts.hasClient, p)),
                   Validated(st.self.id, Entries(st), limit, opts.hasClient, p))
  }

  /** A whole Stabilize with nothing else running on the node. */
  function Stabilization(st: NodeState, opts: Options, fetch: nat -> Option<PeerState>, alive: nat -> bool,
                         p: Probe): NodeState {
    if st.status != Active then st
    else
      var d := Decide(st, opts.hasClient, Candidates(st), 0, fetch, alive);
      var written := Written(st, opts, Candidates(st), d);
      if opts.validateAfterStabilize && Target(d).Some? then Validation(written, opts, p) else written
  }

  /** The state before validation: failures counted, successes noted, the decision written. */
  function Written(st: NodeState, opts: Options, candidates: seq<NodeInfo>, d: Decision): NodeState {
    var failed := if d.tried <= |candidates| then FailCandidates(st, opts, candidates, d.tried) else st;
    Commit(MarkSuccesses(failed, Reached(d)), st.succ.id, opts, d)
  }

  /** A whole join attempt: the first seed whose answer is usable decides. */
  function JoinAttempt(st: NodeState, opts: Options, seeds: seq<NodeInfo>, replies: nat -> Option<JoinReply>,
                    states: nat -> Option<seq<NodeInfo>>, p: Probe): NodeState {
    var started := st.(status := Joining);
    if !opts.hasClient then ActivateSingle(started)
    else
      match FirstUsable(st.self.id, seeds, replies, 0)
      case None => ActivateSingle(started)
      case Some(i) =>
        var reply := replies(i).value;
        var seedList := if opts.atomicState && states(i).Some? then states(i).value else reply.list;
        Validation(JoinCommit(started, opts, reply.succ, seedList), opts, p)
  }

  /** Whom a joiner introduces itself to: the successor it has taken. */
  function JoinTarget(self: int, opts: Options, seeds: seq<NodeInfo>, replies: nat -> Option<JoinReply>): Option<NodeInfo> {
    if !opts.hasClient then None
    else
      match FirstUsable(self, seeds, replies, 0)
      case None => None
      case Some(i) => Some(replies(i).value.succ)
  }

  function ValidateStep(st: NodeState, snap: NodeState, opts: Options, p: Probe): NodeState {
    WriteValidated(st, Validated(snap.self.id, Entries(snap), EffectiveLimit(opts.listSize), opts.hasClient, p))
  }

  // ----- predecessor side (protocol.go:38-143, maintenance.go:337-362) -----

  datatype RectifyReply = RectifyRefused | RectifyAnswer(accepted: bool, pred: Option<NodeInfo>)

  predicate RectifyAccepts(st: NodeState, candidate: NodeInfo, snapPred: Option<NodeInfo>, snapAlive: bool) {
    || st.pred.None?
    || (snapPred.Some? && st.pred.value.id == snapPred.value.id && !snapAlive)
    || InRangeOpenOpen(candidate.id, st.pred.value.id, st.self.id)
  }

  function RectifyCommit(st: NodeState, opts: Options, candidate: NodeInfo, snapPred: Option<NodeInfo>, snapAlive: bool): NodeState {
    if RectifyAccepts(st, candidate, snapPred, snapAlive) then
      var p := if opts.predecessorListSize <= 0 then DEFAULT_PREDECESSOR_LIST_SIZE else opts.predecessorListSize;
      st.(pred := Some(candidate),
          predList := if st.pred.Some? && p > 1 then [candidate, st.pred.value] else [candidate])
    else st
  }

  predicate RectifyRefuses(st: NodeState, candidate: NodeInfo) {
    !ValidNodeInfo(candidate) || st.status == Leaving || st.status == Joining || candidate.id == st.self.id
  }

  function DropPredecessor(st: NodeState, checked: NodeInfo): NodeState {
    if st.pred.Some? && st.pred.value.id == checked.id then st.(pred := None) else st
  }

  predicate AsksPredecessor(st: NodeState, opts: Options) {
    st.pred.Some? && st.pred.value.id != st.self.id && opts.hasClient
  }

  predicate PredecessorSeemsAlive(st: NodeState, opts: Options, answer: bool) {
    AsksPredecessor(st, opts) ==> PingAnswer(st.self.id, st.pred.value, opts.hasClient, answer)
  }

  /** A whole Rectify request with nothing else running on the node; `answer` is the predecessor's to the ping. */
  function Rectification(st: NodeState, opts: Options, candidate: NodeInfo, answer: bool): NodeState {
    if RectifyRefuses(st, candidate) then st
    else
      var alive := PredecessorSeemsAlive(st, opts, answer);
      var pinged := if AsksPredecessor(st, opts) && alive then MarkSuccesses(st, {st.pred.value.id}) else st;
      RectifyCommit(pinged, opts, candidate, st.pred, alive)
  }

  function RectificationReply(st: NodeState, opts: Options, candidate: NodeInfo, answer: bool): RectifyReply {
    if RectifyRefuses(st, candidate) then RectifyRefused
    else RectifyAnswer(RectifyAccepts(st, candidate, st.pred, PredecessorSeemsAlive(st, opts, answer)),
                       Rectification(st, opts, candidate, answer).pred)
  }

  /** A whole check of the predecessor: two pings decide whether it is given up. */
  function PredecessorCheck(st: NodeState, opts: Options, first: bool, second: bool): NodeState {
    if !AsksPredecessor(st, opts) then st
    else if first || second then MarkSuccesses(st, {st.pred.value.id})
    else DropPredecessor(st, st.pred.value)
  }

  datatype LeaveRequest = PredecessorLeaving(newPred: Option<NodeInfo>)
                        | SuccessorLeaving(newSucc: Option<NodeInfo>)
                        | UnknownRole

  function LeaveStep(st: NodeState, opts: Options, req: LeaveRequest): NodeState {
    match req
    case PredecessorLeaving(p) => st.(pred := p)
    case SuccessorLeaving(None) => st
    case SuccessorLeaving(Some(s)) =>
      st.(succ := s, list := Merge(st.self, opts.listSize, opts.siblingCap, s, st.list))
    case UnknownRole => st
  }

  // ----- joining (node.go:580-644) -----

  datatype JoinReply = JoinReply(succ: NodeInfo, list: seq<NodeInfo>)

  /** The list a join reply carries: `state` and `list` are the successor's answers to the two queries. */
  function SuccessorListFor(self: int, own: seq<NodeInfo>, opts: Options, succ: NodeInfo,
                            state: Option<seq<NodeInfo>>, list: Option<seq<NodeInfo>>): seq<NodeInfo>
  {
    if succ.id == self then own
    else if !opts.hasClient then [succ]
    else if opts.atomicState && state.Some? then [succ] + state.value
    else if list.None? then [succ]
    else [succ] + list.value
  }

  /** What a joiner may be given to start from when its successor's list is `peerList`. */
  predicate JoinList(succ: NodeInfo, peerList: seq<NodeInfo>, seedList: seq<NodeInfo>) {
    seedList == peerList || seedList == [succ] + peerList || seedList == [succ]
  }

  /** A truthful reply, or the list the joiner fetches itself, is always of that kind. */
  lemma JoinRepliesAreJoinLists(self: int, own: seq<NodeInfo>, opts: Options, succ: NodeInfo, peerList: seq<NodeInfo>,
                                state: Option<seq<NodeInfo>>, list: Option<seq<NodeInfo>>)
    requires succ.id == self ==> own == peerList
    requires (state.Some? ==> state.value == peerList) && (list.Some? ==> list.value == peerList)
    ensures JoinList(succ, peerList, SuccessorListFor(self, own, opts, succ, state, list))
    ensures SuccessorListFor(self, own, opts, succ, state, list) == [] ==> peerList == []
  {
  }

  predicate UsableSeed(self: int, seed: NodeInfo, reply: Option<JoinReply>) {
    seed.id != self && ValidNodeInfo(seed) && reply.Some? && ValidNodeInfo(reply.value.succ)
  }

  function FirstUsable(self: int, seeds: seq<NodeInfo>, replies: nat -> Option<JoinReply>, i: nat): (r: Option<nat>)
    requires i <= |seeds|
    ensures r.Some? ==> i <= r.value < |seeds| && UsableSeed(self, seeds[r.value], replies(r.value))
    decreases |seeds| - i
  {
    if i == |seeds| then None
    else if UsableSeed(self, seeds[i], replies(i)) then Some(i)
    else FirstUsable(self, seeds, replies, i + 1)
  }

  function JoinCommit(st: NodeState, opts: Options, succ: NodeInfo, seedList: seq<NodeInfo>): NodeState {
    st.(status := Active, pred := None, succ := succ,
        list := Merge(st.self, opts.listSize, opts.siblingCap, succ, seedList),
        fingers := if st.fingers == [] then [] else st.fingers[0 := Finger(succ, Ok, st.fingers[0].valid)])
  }
}
