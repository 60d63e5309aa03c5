/** The shape of the successor list in every reachable state, whatever peers reply and however the
    node's own loops and handlers interleave.
 */
module ShapeRuns {
  import opened Ring
  import opened Sets
  import opened Wrappers
  import opened NodeLists
  import opened ListOrder
  import opened NodeSpec

  /** One critical section of the node.  Actions that read the state in an earlier critical section
      (Stabilize, validation, Rectify) get that earlier state as their snapshot. */
  datatype Action =
    | Failed(id: int)
    | Succeeded(ids: set<int>)
    | CommitStabilize(fetch: nat -> Option<PeerState>, alive: nat -> bool)
    | CommitValidate(probe: Probe)
    | CommitRectify(candidate: NodeInfo, answer: bool)
    | CommitCheck(checked: NodeInfo)
    | Leave(req: LeaveRequest)
    | Join(succ: NodeInfo, seedList: seq<NodeInfo>)
    | Activate

  function Apply(st: NodeState, snap: NodeState, opts: Options, a: Action): NodeState {
    match a
    case Failed(id) => MarkFailure(st, opts, id)
    case Succeeded(ids) => MarkSuccesses(st, ids)
    case CommitStabilize(fetch, alive) =>
      Commit(st, snap.succ.id, opts, Decide(snap, opts.hasClient, Candidates(snap), 0, fetch, alive))
    case CommitValidate(p) => ValidateStep(st, snap, opts, p)
    case CommitRectify(candidate, answer) => RectifyCommit(st, opts, candidate, snap.pred, answer)
    case CommitCheck(checked) => DropPredecessor(st, checked)
    case Leave(req) => LeaveStep(st, opts, req)
    case Join(succ, seedList) => JoinCommit(st, opts, succ, seedList)
    case Activate => ActivateSingle(st)
  }

  /** A run: the i-th action acts on the i-th state and reads some state no later than that. */
  ghost predicate IsRun(self: NodeInfo, opts: Options, states: seq<NodeState>, snaps: seq<nat>, actions: seq<Action>) {
    && |states| == |actions| + 1 == |snaps| + 1
    && states[0] == NewNode(self)
    && (forall i :: 0 <= i < |actions| ==> snaps[i] <= i)
    && (forall i :: 0 <= i < |actions| ==> states[i + 1] == Apply(states[i], states[snaps[i]], opts, actions[i]))
  }

  ghost predicate Shaped(self: NodeInfo, opts: Options, st: NodeState) {
    st.self == self && ListShape(self.id, EffectiveLimit(opts.listSize), st.list)
  }

  lemma {:induction false} WithoutMeaning(list: seq<NodeInfo>, id: int)
    ensures var r := Without(list, id);
            && |r| <= |list|
            && Ids(r) == Ids(list) - {id}
            && (forall n :: n in r ==> n in list)
  {
    if list != [] {
      var before := list[..|list| - 1];
      WithoutMeaning(before, id);
      assert list == before + [list[|list| - 1]];
      AnchorCountAppend(before, list[|list| - 1]);
      AnchorCountAppend(Without(before, id), list[|list| - 1]);
    }
  }

  lemma {:induction false} WithoutDistinct(list: seq<NodeInfo>, id: int)
    requires Distinct(list)
    ensures Distinct(Without(list, id))
  {
    if list != [] {
      var before, last := list[..|list| - 1], list[|list| - 1];
      WithoutDistinct(before, id);
      WithoutMeaning(before, id);
      assert last.id !in Ids(before);
      DistinctAppend(Without(before, id), last);
    }
  }

  lemma DistinctAppend(s: seq<NodeInfo>, n: NodeInfo)
    requires Distinct(s) && n.id !in Ids(s)
    ensures Distinct(s + [n])
  {
    assert forall i :: 0 <= i < |s| ==> s[i] in s;
  }

  lemma {:induction false} KeepLiveMeaning(self: int, current: seq<NodeInfo>, hasClient: bool, alive: nat -> bool,
                                           i: nat, out: seq<NodeInfo>, limit: nat)
    requires i <= |current| && |out| <= limit
    requires Distinct(out) && EMPTY !in Ids(out) && Ids(out) <= Ids(current)
    ensures var r := KeepLive(self, current, hasClient, alive, i, out, limit);
            |r| <= limit && Distinct(r) && EMPTY !in Ids(r) && Ids(r) <= Ids(current)
    decreases |current| - i
  {
    if i < |current| && |out| < limit {
      if !PingAnswer(self, current[i], hasClient, alive(i)) || current[i].id in Ids(out) {
        KeepLiveMeaning(self, current, hasClient, alive, i + 1, out, limit);
      } else {
        AnchorCountAppend(out, current[i]);
        DistinctAppend(out, current[i]);
        assert current[i] in current;
        KeepLiveMeaning(self, current, hasClient, alive, i + 1, out + [current[i]], limit);
      }
    }
  }

  lemma {:induction false} ExtendMeaning(self: int, more: seq<NodeInfo>, hasClient: bool, alive: nat -> bool,
                                         i: nat, out: seq<NodeInfo>, limit: nat)
    requires i <= |more| && |out| <= limit
    requires Distinct(out) && EMPTY !in Ids(out) && self !in Ids(out)
    ensures var r := Extend(self, more, hasClient, alive, i, out, limit);
            out <= r && |r| <= limit && Distinct(r) && EMPTY !in Ids(r) && self !in Ids(r)
    decreases |more| - i
  {
    if i < |more| && |out| < limit {
      if more[i].id == EMPTY || more[i].id == self || more[i].id in Ids(out) || !PingAnswer(self, more[i], hasClient, alive(i)) {
        ExtendMeaning(self, more, hasClient, alive, i + 1, out, limit);
      } else {
        AnchorCountAppend(out, more[i]);
        DistinctAppend(out, more[i]);
        ExtendMeaning(self, more, hasClient, alive, i + 1, out + [more[i]], limit);
      }
    }
  }

  lemma IdsCard(s: seq<NodeInfo>, id: int)
    requires Distinct(s) && Ids(s) <= {id}
    ensures |s| <= 1
  {
    DistinctCard(s);
    SubsetCard(Ids(s), {id});
  }

  lemma ValidatedShape(self: int, current: seq<NodeInfo>, limit: nat, hasClient: bool, p: Probe)
    requires limit > 0 && ListShape(self, limit, current)
    ensures ListShape(self, limit, Validated(self, current, limit, hasClient, p))
  {
    KeepLiveMeaning(self, current, hasClient, p.alive, 0, [], limit);
    var kept := KeepLive(self, current, hasClient, p.alive, 0, [], limit);
    if self in Ids(kept) {
      assert current == [current[0]] && Ids(current) == {current[0].id};
      IdsCard(kept, self);
      assert kept[0] in kept;
    } else if ExtendsFrom(self, kept, hasClient, limit) && p.lastList.Some? {
      ExtendMeaning(self, p.lastList.value, hasClient, p.extAlive, 0, kept, limit);
    }
  }

  lemma MergeShape(self: NodeInfo, opts: Options, succ: NodeInfo, remote: seq<NodeInfo>)
    requires self.id != EMPTY
    ensures ListShape(self.id, EffectiveLimit(opts.listSize), Merge(self, opts.listSize, opts.siblingCap, succ, remote))
  {
    MergeMeaning(self, opts.listSize, opts.siblingCap, succ, remote);
  }

  lemma CommitKeepsShape(self: NodeInfo, opts: Options, st: NodeState, snapSucc: int, d: Decision)
    requires self.id != EMPTY && Shaped(self, opts, st)
    ensures Shaped(self, opts, Commit(st, snapSucc, opts, d))
  {
    assert Ids([self]) == {self.id};
    match d
    case Bootstrap(_, succ, remote) => MergeShape(self, opts, succ, remote);
    case Adopt(_, _, succ, remote) => MergeShape(self, opts, succ, remote);
    case _ =>
  }

  lemma ValidateKeepsShape(self: NodeInfo, opts: Options, st: NodeState, snap: NodeState, p: Probe)
    requires self.id != EMPTY && Shaped(self, opts, st) && Shaped(self, opts, snap)
    ensures Shaped(self, opts, ValidateStep(st, snap, opts, p))
  {
    assert Ids([self]) == {self.id};
    assert Ids([snap.succ]) == {snap.succ.id};
    ValidatedShape(self.id, Entries(snap), EffectiveLimit(opts.listSize), opts.hasClient, p);
  }

  lemma ApplyKeepsShape(self: NodeInfo, opts: Options, st: NodeState, snap: NodeState, a: Action)
    requires self.id != EMPTY && Shaped(self, opts, st) && Shaped(self, opts, snap)
    ensures Shaped(self, opts, Apply(st, snap, opts, a))
  {
    match a
    case Failed(id) =>
      WithoutMeaning(st.list, id);
      WithoutDistinct(st.list, id);
    case CommitStabilize(fetch, alive) =>
      CommitKeepsShape(self, opts, st, snap.succ.id, Decide(snap, opts.hasClient, Candidates(snap), 0, fetch, alive));
    case CommitValidate(p) => ValidateKeepsShape(self, opts, st, snap, p);
    case Leave(SuccessorLeaving(Some(s))) => MergeShape(self, opts, s, st.list);
    case Join(succ, seedList) => MergeShape(self, opts, succ, seedList);
    case Activate => assert Ids([self]) == {self.id};
    case _ =>
  }

  /** In every state of every run the successor list has no duplicates and no empty id, is no longer
      than configured, and names the node itself only as the one-element list. */
  lemma {:induction false} ShapeInEveryRun(self: NodeInfo, opts: Options, states: seq<NodeState>, snaps: seq<nat>,
                                           actions: seq<Action>, i: nat)
    requires self.id != EMPTY && IsRun(self, opts, states, snaps, actions) && i < |states|
    ensures ListShape(self.id, EffectiveLimit(opts.listSize), states[i].list)
    ensures Shaped(self, opts, states[i])
    decreases i
  {
    if i == 0 {
      assert Ids([self]) == {self.id};
    } else {
      ShapeInEveryRun(self, opts, states, snaps, actions, i - 1);
      ShapeInEveryRun(self, opts, states, snaps, actions, snaps[i - 1]);
      ApplyKeepsShape(self, opts, states[i - 1], states[snaps[i - 1]], actions[i - 1]);
    }
  }

  /** So in every run, lists that lying peers have filled with malformed ids included, the diagnostic, which
      looks at neighbours only, decides the order of all pairs. */
  lemma ReportDecidesOrderInEveryRun(self: NodeInfo, opts: Options, states: seq<NodeState>, snaps: seq<nat>,
                                     actions: seq<Action>, i: nat)
    requires ValidId(self.id) && IsRun(self, opts, states, snaps, actions) && i < |states|
    ensures var st := states[i];
            Violations(self.id, st.succ.id, st.list) == [] <==>
            && st.list != []
            && (st.succ.id == EMPTY || st.list[0].id == st.succ.id)
            && (|st.list| == 1 || Ascending(self.id, st.list))
  {
    ShapeInEveryRun(self, opts, states, snaps, actions, i);
    NoViolationsIff(self.id, states[i].succ.id, EffectiveLimit(opts.listSize), states[i].list);
  }
}
