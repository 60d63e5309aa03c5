/** The node's whole calls are sequences of the critical sections the run theorems are about.

    `AfterCall` is what the methods of ChordNode.Node are proved to leave behind when nothing else runs on the
    node; every such call continues any run of ShapeRuns by actions that the replies to its calls determine.
 */
module NodeCalls {
  import opened Ring
  import opened Wrappers
  import opened NodeLists
  import opened ListOrder
  import opened NodeSpec
  import opened ShapeRuns
  import P = PredecessorLaws
  import S = StabilizeLaws
  import V = ValidationLaws

  datatype Call =
    | Stabilize(fetch: nat -> Option<PeerState>, alive: nat -> bool, p: Probe)
    | ValidateList(p: Probe)
    | HandleRectify(candidate: NodeInfo, answer: bool)
    | CheckPredecessor(first: bool, second: bool)
    | HandleLeave(req: LeaveRequest)
    | JoinNetwork(seeds: seq<NodeInfo>, replies: nat -> Option<JoinReply>, states: nat -> Option<seq<NodeInfo>>, p: Probe)
    | ActivateSingleNode
    | CountFailure(id: int)
    | CountSuccess(id: int)

  function AfterCall(st: NodeState, opts: Options, call: Call): NodeState {
    match call
    case Stabilize(fetch, alive, p) => Stabilization(st, opts, fetch, alive, p)
    case ValidateList(p) => Validation(st, opts, p)
    case HandleRectify(candidate, answer) => Rectification(st, opts, candidate, answer)
    case CheckPredecessor(first, second) => PredecessorCheck(st, opts, first, second)
    case HandleLeave(req) => LeaveStep(st, opts, req)
    case JoinNetwork(seeds, replies, states, p) => JoinAttempt(st, opts, seeds, replies, states, p)
    case ActivateSingleNode => ActivateSingle(st)
    case CountFailure(id) => MarkFailure(st, opts, id)
    case CountSuccess(id) => MarkSuccesses(st, {id})
  }

  datatype History = History(states: seq<NodeState>, snaps: seq<nat>, actions: seq<Action>)

  ghost predicate Of(self: NodeInfo, opts: Options, h: History) {
    IsRun(self, opts, h.states, h.snaps, h.actions)
  }

  function Last(h: History): NodeState
    requires h.states != []
  {
    h.states[|h.states| - 1]
  }

  /** `h` goes on to a state `st`. */
  ghost predicate LeadsTo(self: NodeInfo, opts: Options, h: History, h': History, st: NodeState) {
    Of(self, opts, h) && Of(self, opts, h') && h.states <= h'.states && Last(h') == st
  }

  /** `h'` goes on from `h` with these actions, each of which reads the state `h` ends in. */
  ghost predicate Appends(h: History, h': History, actions: seq<Action>) {
    && h'.actions == h.actions + actions && h'.snaps == h.snaps + seq(|actions|, _ => if h.states == [] then 0 else |h.states| - 1)
  }

  // ----- the actions of each call -----

  /** A failure for each of the first `k` candidates but the node itself. */
  function Failures(st: NodeState, k: nat): seq<Action>
    requires k <= |S.Asked(st)|
  {
    if k == 0 then []
    else Failures(st, k - 1) + if S.Asked(st)[k - 1].id == st.self.id then [] else [Failed(S.Asked(st)[k - 1].id)]
  }

  function Contacts(o: S.Outcome): set<int> {
    if o.Installs? then {o.contact, o.succ.id} else {}
  }

  /** Validation notes the successes of its pings and writes what it has chosen. */
  ghost predicate ValidationActions(st: NodeState, opts: Options, p: Probe, actions: seq<Action>) {
    && |actions| == 2 && actions[0].Succeeded? && actions[1] == CommitValidate(p)
    && exists c :: V.Chosen(st, opts, p, c) && forall id :: id in actions[0].ids <==> V.Answering(st, opts, p, c, id)
  }

  ghost predicate PerformsValidation(opts: Options, p: Probe, h: History, h': History)
    requires h.states != []
  {
    exists actions :: ValidationActions(Last(h), opts, p, actions) && Appends(h, h', actions)
  }

  function RoundActions(st: NodeState, opts: Options, fetch: nat -> Option<PeerState>, alive: nat -> bool, k: nat): seq<Action>
    requires k <= |S.Asked(st)| && (k < |S.Asked(st)| ==> S.Ends(st, opts, fetch, alive, k))
  {
    Failures(st, k) + [Succeeded(Contacts(S.OutcomeAt(st, opts, fetch, alive, k))), CommitStabilize(fetch, alive)]
  }

  /** A round: the failures before the candidate that ends the search, the successes, the write, and validation. */
  ghost predicate PerformsRound(opts: Options, fetch: nat -> Option<PeerState>, alive: nat -> bool, p: Probe, k: nat,
                                h: History, mid: History, h': History)
    requires h.states != []
  {
    var st := Last(h);
    && S.EndsAt(st, opts, fetch, alive, k) && Appends(h, mid, RoundActions(st, opts, fetch, alive, k)) && mid.states != []
    && if opts.validateAfterStabilize && S.OutcomeAt(st, opts, fetch, alive, k).Installs? then PerformsValidation(opts, p, mid, h')
       else h' == mid
  }

  predicate Usable(self: int, seeds: seq<NodeInfo>, replies: nat -> Option<JoinReply>, i: nat)
    requires i < |seeds|
  {
    seeds[i].id != self && ValidNodeInfo(seeds[i]) && replies(i).Some? && ValidNodeInfo(replies(i).value.succ)
  }

  /** The first usable seed; |seeds| if there is none. */
  ghost predicate UsableAt(self: int, seeds: seq<NodeInfo>, replies: nat -> Option<JoinReply>, i: nat) {
    && i <= |seeds| && (i < |seeds| ==> Usable(self, seeds, replies, i))
    && forall j: nat :: j < i ==> !Usable(self, seeds, replies, j)
  }

  function SeedList(opts: Options, reply: JoinReply, state: Option<seq<NodeInfo>>): seq<NodeInfo> {
    if opts.atomicState && state.Some? then state.value else reply.list
  }

  /** A join: alone without a client or a usable seed; else the successor the first usable seed has answered, with its
      list, and validation. */
  ghost predicate PerformsJoin(opts: Options, seeds: seq<NodeInfo>, replies: nat -> Option<JoinReply>,
                               states: nat -> Option<seq<NodeInfo>>, p: Probe, i: nat, h: History, mid: History, h': History)
    requires h.states != []
  {
    && UsableAt(Last(h).self.id, seeds, replies, i) && mid.states != []
    && if !opts.hasClient || i == |seeds| then Appends(h, mid, [Activate]) && h' == mid
       else && Appends(h, mid, [Join(replies(i).value.succ, SeedList(opts, replies(i).value, states(i)))])
            && PerformsValidation(opts, p, mid, h')
  }

  function RectifyActions(st: NodeState, opts: Options, candidate: NodeInfo, answer: bool): seq<Action> {
    if !P.Welcome(st, candidate) then []
    else if !P.CanPing(st, opts) then [CommitRectify(candidate, true)]
    else if st.pred.value.id != EMPTY && answer then [Succeeded({st.pred.value.id}), CommitRectify(candidate, true)]
    else [CommitRectify(candidate, false)]
  }

  function CheckActions(st: NodeState, opts: Options, first: bool, second: bool): seq<Action> {
    if !P.CanPing(st, opts) then []
    else if first || second then [Succeeded({st.pred.value.id})]
    else [CommitCheck(st.pred.value)]
  }

  ghost predicate Performs(opts: Options, call: Call, h: History, h': History)
    requires h.states != []
  {
    var st := Last(h);
    match call
    case Stabilize(fetch, alive, p) =>
      if st.status != Active then h' == h else exists k, mid :: PerformsRound(opts, fetch, alive, p, k, h, mid, h')
    case ValidateList(p) => PerformsValidation(opts, p, h, h')
    case HandleRectify(candidate, answer) => Appends(h, h', RectifyActions(st, opts, candidate, answer))
    case CheckPredecessor(first, second) => Appends(h, h', CheckActions(st, opts, first, second))
    case HandleLeave(req) => Appends(h, h', [Leave(req)])
    case JoinNetwork(seeds, replies, states, p) =>
      exists i, mid :: PerformsJoin(opts, seeds, replies, states, p, i, h, mid, h')
    case ActivateSingleNode => Appends(h, h', [Activate])
    case CountFailure(id) => Appends(h, h', [Failed(id)])
    case CountSuccess(id) => Appends(h, h', [Succeeded({id})])
  }

  // ----- performing them -----

  /** The actions one after the other, all from the same snapshot. */
  function Done(st: NodeState, snap: NodeState, opts: Options, actions: seq<Action>): NodeState {
    if actions == [] then st
    else Apply(Done(st, snap, opts, actions[..|actions| - 1]), snap, opts, actions[|actions| - 1])
  }

  /** One more action. */
  lemma Next(self: NodeInfo, opts: Options, h: History, snap: nat, a: Action) returns (h': History)
    requires Of(self, opts, h) && snap < |h.states|
    ensures LeadsTo(self, opts, h, h', Apply(Last(h), h.states[snap], opts, a))
    ensures h'.actions == h.actions + [a] && h'.snaps == h.snaps + [snap]
  {
    h' := History(h.states + [Apply(Last(h), h.states[snap], opts, a)], h.snaps + [snap], h.actions + [a]);
  }

  lemma AppendsOneMore(h: History, mid: History, h': History, actions: seq<Action>, a: Action)
    requires h.states != [] && Appends(h, mid, actions)
    requires h'.actions == mid.actions + [a] && h'.snaps == mid.snaps + [|h.states| - 1]
    ensures Appends(h, h', actions + [a])
  {
  }

  lemma {:induction false} DoAll(self: NodeInfo, opts: Options, h: History, actions: seq<Action>) returns (h': History)
    requires Of(self, opts, h)
    ensures LeadsTo(self, opts, h, h', Done(Last(h), Last(h), opts, actions)) && Appends(h, h', actions)
  {
    if actions == [] {
      h' := h;
    } else {
      var n := |actions| - 1;
      var mid := DoAll(self, opts, h, actions[..n]);
      h' := Next(self, opts, mid, |h.states| - 1, actions[n]);
      AppendsOneMore(h, mid, h', actions[..n], actions[n]);
      assert actions == actions[..n] + [actions[n]];
    }
  }

  lemma DoneOne(st: NodeState, snap: NodeState, opts: Options, a: Action)
    ensures Done(st, snap, opts, [a]) == Apply(st, snap, opts, a)
  {
    assert [a][..0] == [];
  }

  lemma DoneTwo(st: NodeState, snap: NodeState, opts: Options, before: seq<Action>, a: Action, b: Action)
    ensures Done(st, snap, opts, before + [a, b]) == Apply(Apply(Done(st, snap, opts, before), snap, opts, a), snap, opts, b)
  {
    var all := before + [a, b];
    assert all[..|all| - 1] == before + [a] && (before + [a])[..|before|] == before;
  }

  lemma DonePair(st: NodeState, opts: Options, a: Action, b: Action)
    ensures Done(st, st, opts, [a, b]) == Apply(Apply(st, st, opts, a), st, opts, b)
  {
    DoneTwo(st, st, opts, [], a, b);
    assert [] + [a, b] == [a, b];
  }

  lemma OneAction(self: NodeInfo, opts: Options, h: History, a: Action) returns (h': History)
    requires Of(self, opts, h)
    ensures LeadsTo(self, opts, h, h', Apply(Last(h), Last(h), opts, a)) && Appends(h, h', [a])
  {
    DoneOne(Last(h), Last(h), opts, a);
    h' := DoAll(self, opts, h, [a]);
  }

  lemma ValidationIs(st: NodeState, opts: Options, p: Probe, reached: set<int>)
    requires reached == ValidationReached(st.self.id, Entries(st), EffectiveLimit(opts.listSize), opts.hasClient, p)
    ensures Done(st, st, opts, [Succeeded(reached), CommitValidate(p)]) == Validation(st, opts, p)
  {
    DonePair(st, opts, Succeeded(reached), CommitValidate(p));
  }

  lemma ValidationFollows(self: NodeInfo, opts: Options, h: History, p: Probe) returns (h': History)
    requires Of(self, opts, h)
    ensures LeadsTo(self, opts, h, h', Validation(Last(h), opts, p)) && PerformsValidation(opts, p, h, h')
  {
    var st := Last(h);
    var reached := ValidationReached(st.self.id, Entries(st), EffectiveLimit(opts.listSize), opts.hasClient, p);
    var c := V.ValidatedIsChosen(st, opts, p);
    forall id ensures id in reached <==> V.Answering(st, opts, p, c, id) {
      V.ReachedAnswers(st, opts, p, c, id);
    }
    var actions := [Succeeded(reached), CommitValidate(p)];
    ValidationIs(st, opts, p, reached);
    h' := DoAll(self, opts, h, actions);
    assert ValidationActions(st, opts, p, actions);
  }

  lemma {:induction false} FailuresAre(st: NodeState, opts: Options, k: nat)
    requires k <= |S.Asked(st)|
    ensures Done(st, st, opts, Failures(st, k)) == FailCandidates(st, opts, S.Asked(st), k)
  {
    if k > 0 {
      FailuresAre(st, opts, k - 1);
      var before := Failures(st, k - 1);
      if S.Asked(st)[k - 1].id == st.self.id {
        assert before + [] == before;
      } else {
        assert (before + [Failed(S.Asked(st)[k - 1].id)])[..|before|] == before;
      }
    }
  }

  lemma ContactsAreReached(st: NodeState, k: nat, d: Decision, o: S.Outcome)
    requires S.Fits(st, k, d, o)
    ensures Contacts(o) == Reached(d) && d.tried == k && (Target(d).Some? <==> o.Installs?)
  {
  }

  /** The write at the end, once the failures are counted. */
  lemma WriteIs(st: NodeState, failed: NodeState, opts: Options, fetch: nat -> Option<PeerState>, alive: nat -> bool, ids: set<int>)
    ensures Apply(Apply(failed, st, opts, Succeeded(ids)), st, opts, CommitStabilize(fetch, alive))
         == Commit(MarkSuccesses(failed, ids), st.succ.id, opts, Decide(st, opts.hasClient, Candidates(st), 0, fetch, alive))
  {
  }

  lemma RoundIs(st: NodeState, opts: Options, fetch: nat -> Option<PeerState>, alive: nat -> bool) returns (k: nat)
    ensures S.EndsAt(st, opts, fetch, alive, k)
    ensures Done(st, st, opts, RoundActions(st, opts, fetch, alive, k))
         == Written(st, opts, Candidates(st), Decide(st, opts.hasClient, Candidates(st), 0, fetch, alive))
    ensures RectifyTarget(st, opts, fetch, alive).Some? <==> S.OutcomeAt(st, opts, fetch, alive, k).Installs?
  {
    S.CandidatesAre(st);
    k := S.DecideFits(st, opts, fetch, alive, 0);
    var o := S.OutcomeAt(st, opts, fetch, alive, k);
    var d := Decide(st, opts.hasClient, Candidates(st), 0, fetch, alive);
    ContactsAreReached(st, k, d, o);
    FailuresAre(st, opts, k);
    DoneTwo(st, st, opts, Failures(st, k), Succeeded(Contacts(o)), CommitStabilize(fetch, alive));
    WriteIs(st, FailCandidates(st, opts, Candidates(st), k), opts, fetch, alive, Contacts(o));
  }

  lemma StabilizationFollows(self: NodeInfo, opts: Options, h: History, fetch: nat -> Option<PeerState>, alive: nat -> bool,
                             p: Probe) returns (h': History)
    requires Of(self, opts, h)
    ensures LeadsTo(self, opts, h, h', Stabilization(Last(h), opts, fetch, alive, p))
    ensures Performs(opts, Stabilize(fetch, alive, p), h, h')
  {
    h' := h;
    if Last(h).status == Active {
      var k := RoundIs(Last(h), opts, fetch, alive);
      var mid := DoAll(self, opts, h, RoundActions(Last(h), opts, fetch, alive, k));
      h' := mid;
      if opts.validateAfterStabilize && RectifyTarget(Last(h), opts, fetch, alive).Some? {
        h' := ValidationFollows(self, opts, mid, p);
      }
      assert PerformsRound(opts, fetch, alive, p, k, h, mid, h');
    }
  }

  lemma {:induction false} FirstUsableIs(self: int, seeds: seq<NodeInfo>, replies: nat -> Option<JoinReply>, i: nat) returns (k: nat)
    requires i <= |seeds| && forall j: nat :: j < i ==> !Usable(self, seeds, replies, j)
    ensures UsableAt(self, seeds, replies, k)
    ensures FirstUsable(self, seeds, replies, i) == if k == |seeds| then None else Some(k)
    decreases |seeds| - i
  {
    k := i;
    if i < |seeds| && !Usable(self, seeds, replies, i) {
      k := FirstUsableIs(self, seeds, replies, i + 1);
    }
  }

  lemma JoinAlone(self: NodeInfo, opts: Options, h: History, seeds: seq<NodeInfo>, replies: nat -> Option<JoinReply>,
                  states: nat -> Option<seq<NodeInfo>>, p: Probe, i: nat) returns (h': History)
    requires Of(self, opts, h) && UsableAt(Last(h).self.id, seeds, replies, i) && (!opts.hasClient || i == |seeds|)
    requires FirstUsable(Last(h).self.id, seeds, replies, 0) == if i == |seeds| then None else Some(i)
    ensures LeadsTo(self, opts, h, h', JoinAttempt(Last(h), opts, seeds, replies, states, p))
    ensures PerformsJoin(opts, seeds, replies, states, p, i, h, h', h')
  {
    h' := OneAction(self, opts, h, Activate);
  }

  lemma JoinIs(st: NodeState, opts: Options, seeds: seq<NodeInfo>, replies: nat -> Option<JoinReply>,
               states: nat -> Option<seq<NodeInfo>>, p: Probe, i: nat)
    requires opts.hasClient && FirstUsable(st.self.id, seeds, replies, 0) == Some(i)
    ensures JoinAttempt(st, opts, seeds, replies, states, p)
         == Validation(Apply(st, st, opts, Join(replies(i).value.succ, SeedList(opts, replies(i).value, states(i)))), opts, p)
  {
  }

  lemma JoinThrough(self: NodeInfo, opts: Options, h: History, seeds: seq<NodeInfo>, replies: nat -> Option<JoinReply>,
                    states: nat -> Option<seq<NodeInfo>>, p: Probe, i: nat) returns (mid: History, h': History)
    requires Of(self, opts, h) && UsableAt(Last(h).self.id, seeds, replies, i) && opts.hasClient && i < |seeds|
    requires FirstUsable(Last(h).self.id, seeds, replies, 0) == Some(i)
    ensures LeadsTo(self, opts, h, h', JoinAttempt(Last(h), opts, seeds, replies, states, p))
    ensures PerformsJoin(opts, seeds, replies, states, p, i, h, mid, h')
  {
    JoinIs(Last(h), opts, seeds, replies, states, p, i);
    mid := OneAction(self, opts, h, Join(replies(i).value.succ, SeedList(opts, replies(i).value, states(i))));
    h' := ValidationFollows(self, opts, mid, p);
  }

  lemma JoinFollows(self: NodeInfo, opts: Options, h: History, seeds: seq<NodeInfo>, replies: nat -> Option<JoinReply>,
                    states: nat -> Option<seq<NodeInfo>>, p: Probe) returns (h': History)
    requires Of(self, opts, h)
    ensures LeadsTo(self, opts, h, h', JoinAttempt(Last(h), opts, seeds, replies, states, p))
    ensures Performs(opts, JoinNetwork(seeds, replies, states, p), h, h')
  {
    var i := FirstUsableIs(Last(h).self.id, seeds, replies, 0);
    var mid: History;
    if !opts.hasClient || i == |seeds| {
      h' := JoinAlone(self, opts, h, seeds, replies, states, p, i);
      mid := h';
    } else {
      mid, h' := JoinThrough(self, opts, h, seeds, replies, states, p, i);
    }
    assert PerformsJoin(opts, seeds, replies, states, p, i, h, mid, h');
  }

  lemma RectificationIs(st: NodeState, opts: Options, candidate: NodeInfo, answer: bool)
    ensures Done(st, st, opts, RectifyActions(st, opts, candidate, answer)) == Rectification(st, opts, candidate, answer)
  {
    if P.Welcome(st, candidate) {
      if P.CanPing(st, opts) && st.pred.value.id != EMPTY && answer {
        DonePair(st, opts, Succeeded({st.pred.value.id}), CommitRectify(candidate, true));
      } else {
        DoneOne(st, st, opts, CommitRectify(candidate, !P.CanPing(st, opts)));
      }
    }
  }

  lemma CheckIs(st: NodeState, opts: Options, first: bool, second: bool)
    ensures Done(st, st, opts, CheckActions(st, opts, first, second)) == PredecessorCheck(st, opts, first, second)
  {
    var actions := CheckActions(st, opts, first, second);
    if |actions| == 1 {
      DoneOne(st, st, opts, actions[0]);
    }
  }

  /** Every whole call, for all arguments and replies, continues every run of critical sections by exactly the actions
      its replies call for. */
  lemma CallFollows(self: NodeInfo, opts: Options, h: History, call: Call) returns (h': History)
    requires Of(self, opts, h)
    ensures LeadsTo(self, opts, h, h', AfterCall(Last(h), opts, call)) && Performs(opts, call, h, h')
  {
    match call
    case Stabilize(fetch, alive, p) => h' := StabilizationFollows(self, opts, h, fetch, alive, p);
    case ValidateList(p) => h' := ValidationFollows(self, opts, h, p);
    case HandleRectify(candidate, answer) =>
      RectificationIs(Last(h), opts, candidate, answer);
      h' := DoAll(self, opts, h, RectifyActions(Last(h), opts, candidate, answer));
    case CheckPredecessor(first, second) =>
      CheckIs(Last(h), opts, first, second);
      h' := DoAll(self, opts, h, CheckActions(Last(h), opts, first, second));
    case HandleLeave(req) => h' := OneAction(self, opts, h, Leave(req));
    case JoinNetwork(seeds, replies, states, p) => h' := JoinFollows(self, opts, h, seeds, replies, states, p);
    case ActivateSingleNode => h' := OneAction(self, opts, h, Activate);
    case CountFailure(id) => h' := OneAction(self, opts, h, Failed(id));
    case CountSuccess(id) => h' := OneAction(self, opts, h, Succeeded({id}));
  }

  /** A node's state after a sequence of calls. */
  function AfterCalls(self: NodeInfo, opts: Options, calls: seq<Call>): NodeState {
    if calls == [] then NewNode(self)
    else AfterCall(AfterCalls(self, opts, calls[..|calls| - 1]), opts, calls[|calls| - 1])
  }

  lemma {:induction false} CallsAreRun(self: NodeInfo, opts: Options, calls: seq<Call>) returns (h: History)
    ensures Of(self, opts, h) && Last(h) == AfterCalls(self, opts, calls)
  {
    if calls == [] {
      h := History([NewNode(self)], [], []);
    } else {
      h := CallsAreRun(self, opts, calls[..|calls| - 1]);
      h := CallFollows(self, opts, h, calls[|calls| - 1]);
    }
  }

  /** So what holds in every run holds of the object: whatever calls were made on it and whatever peers replied,
      its list has the list shape, and its report decides the order of all pairs. */
  lemma ObjectKeepsShape(self: NodeInfo, opts: Options, calls: seq<Call>)
    requires ValidId(self.id)
    ensures var st := AfterCalls(self, opts, calls);
            && ListShape(self.id, EffectiveLimit(opts.listSize), st.list)
            && (Violations(self.id, st.succ.id, st.list) == [] <==>
                  && st.list != []
                  && (st.succ.id == EMPTY || st.list[0].id == st.succ.id)
                  && (|st.list| == 1 || Ascending(self.id, st.list)))
  {
    var h := CallsAreRun(self, opts, calls);
    ShapeInEveryRun(self, opts, h.states, h.snaps, h.actions, |h.states| - 1);
    ReportDecidesOrderInEveryRun(self, opts, h.states, h.snaps, h.actions, |h.states| - 1);
  }
}
