/** The node itself: its fields and the methods that update them (maintenance.go, protocol.go, node.go),
    each proved to do to the state exactly what NodeSpec says.
 */
module ChordNode {
  import opened Ring
  import opened Wrappers
  import opened NodeLists
  import opened ListOrder
  import opened NodeSpec

  class Node {
    const self: NodeInfo
    const opts: Options
    var status: Status
    var pred: Option<NodeInfo>
    var predList: seq<NodeInfo>
    var succ: NodeInfo
    var list: seq<NodeInfo>
    var listValid: bool
    var fingers: seq<Finger>
    var failures: map<int, nat>

    function State(): NodeState
      reads this
    {
      NodeState(self, status, pred, predList, succ, list, listValid, fingers, failures)
    }

    constructor (self: NodeInfo, opts: Options)
      ensures this.self == self && this.opts == opts
      ensures State() == NewNode(self)
    {
      this.self, this.opts := self, opts;
      status, pred, predList := Initializing, None, [];
      succ, list, listValid := self, [self], true;
      fingers := seq(BITS, _ => Finger(self, Unknown, false));
      failures := map[];
    }

    method ActivateSingleNode()
      modifies this
      ensures State() == ActivateSingle(old(State()))
    {
      status, pred, succ, list, listValid := Active, None, self, [self], true;
      ghost var before := fingers;
      var i := 0;
      while i < |fingers|
        modifies this`fingers
        invariant 0 <= i <= |fingers| == |before|
        invariant forall k :: 0 <= k < i ==> fingers[k] == Finger(self, Ok, before[k].valid)
        invariant forall k :: i <= k < |fingers| ==> fingers[k] == before[k]
      {
        fingers := fingers[i := fingers[i].(node := self, status := Ok)];
        i := i + 1;
      }
      assert fingers == ActivateSingle(old(State())).fingers;
    }

    method MarkFailureOf(id: int) returns (count: nat, evicted: bool)
      modifies this
      ensures State() == MarkFailure(old(State()), opts, id)
      ensures count == FailureCount(old(State()), id) && evicted == Evicts(old(State()), opts, id)
    {
      count := if id in failures then failures[id] + 1 else 1;
      failures := failures[id := count];
      evicted := count >= opts.failedThreshold && opts.failedThreshold > 0;
      MarkFingers(id, evicted);
      if evicted {
        RemoveFromList(id);
      }
    }

    method MarkFingers(id: int, evicted: bool)
      modifies this`fingers
      ensures fingers == if evicted then Replaced(old(fingers), id, Finger(self, Unknown, false)) else Doubted(old(fingers), id)
    {
      ghost var before := fingers;
      var i := 0;
      while i < |fingers|
        invariant 0 <= i <= |fingers| == |before|
        invariant forall k :: 0 <= k < i ==>
                    fingers[k] == (if evicted then Replaced(before, id, Finger(self, Unknown, false)) else Doubted(before, id))[k]
        invariant forall k :: i <= k < |fingers| ==> fingers[k] == before[k]
      {
        if fingers[i].node.id == id {
          fingers := fingers[i := if evicted then Finger(self, Unknown, false)
                                  else fingers[i].(status := Suspicious, valid := false)];
        }
        i := i + 1;
      }
    }

    method RemoveFromList(id: int)
      modifies this`list
      ensures list == Without(old(list), id)
    {
      var filtered: seq<NodeInfo> := [];
      for j := 0 to |list|
        invariant filtered == Without(list[..j], id) && list == old(list)
      {
        assert list[..j + 1][..j] == list[..j];
        if list[j].id != id {
          filtered := filtered + [list[j]];
        }
      }
      assert list[..|list|] == list;
      list := filtered;
    }

    method MarkSuccess(id: int)
      modifies this`failures, this`fingers
      ensures State() == MarkSuccesses(old(State()), {id})
    {
      failures := failures - {id};
      ghost var before := fingers;
      var i := 0;
      while i < |fingers|
        modifies this`fingers
        invariant 0 <= i <= |fingers| == |before|
        invariant forall k :: 0 <= k < i ==> fingers[k] == Trusted(before, {id})[k]
        invariant forall k :: i <= k < |fingers| ==> fingers[k] == before[k]
      {
        if fingers[i].node.id == id {
          fingers := fingers[i := fingers[i].(status := Ok)];
        }
        i := i + 1;
      }
      assert fingers == Trusted(before, {id});
    }

    /** `answer` is what the peer's ping endpoint returns. */
    method PingLiveness(target: NodeInfo, answer: bool) returns (ok: bool)
      modifies this`failures, this`fingers
      ensures ok == PingAnswer(self.id, target, opts.hasClient, answer)
      ensures State() == if ok && target.id != self.id then MarkSuccesses(old(State()), {target.id}) else old(State())
    {
      if target.id == EMPTY {
        return false;
      }
      if target.id == self.id {
        return true;
      }
      if !opts.hasClient || !answer {
        return false;
      }
      MarkSuccess(target.id);
      return true;
    }

    static lemma SuccessesCompose(st: NodeState, a: set<int>, b: set<int>)
      ensures MarkSuccesses(MarkSuccesses(st, a), b) == MarkSuccesses(st, a + b)
      ensures MarkSuccesses(st, {}) == st
    {
      assert Trusted(Trusted(st.fingers, a), b) == Trusted(st.fingers, a + b);
      assert Trusted(st.fingers, {}) == st.fingers;
      assert (st.failures - a) - b == st.failures - (a + b);
    }

    method PingAll(current: seq<NodeInfo>, alive: nat -> bool) returns (results: seq<bool>)
      modifies this`failures, this`fingers
      ensures |results| == |current|
      ensures forall i :: 0 <= i < |current| ==> results[i] == PingAnswer(self.id, current[i], opts.hasClient, alive(i))
      ensures State() == MarkSuccesses(old(State()), Answered(self.id, current, opts.hasClient, alive))
    {
      results := [];
      SuccessesCompose(State(), {}, {});
      ghost var done := {};
      for i := 0 to |current|
        invariant |results| == i
        invariant forall k :: 0 <= k < i ==> results[k] == PingAnswer(self.id, current[k], opts.hasClient, alive(k))
        invariant done == set k | 0 <= k < i && current[k].id != self.id
                                  && PingAnswer(self.id, current[k], opts.hasClient, alive(k)) :: current[k].id
        invariant State() == MarkSuccesses(old(State()), done)
      {
        var ok := PingLiveness(current[i], alive(i));
        results := results + [ok];
        if ok && current[i].id != self.id {
          SuccessesCompose(old(State()), done, {current[i].id});
          done := done + {current[i].id};
        }
      }
    }

    method KeepLiveEntries(current: seq<NodeInfo>, results: seq<bool>, ghost alive: nat -> bool, limit: nat)
      returns (valid: seq<NodeInfo>)
      requires limit > 0 && |results| == |current|
      requires forall i :: 0 <= i < |current| ==> results[i] == PingAnswer(self.id, current[i], opts.hasClient, alive(i))
      ensures valid == KeepLive(self.id, current, opts.hasClient, alive, 0, [], limit)
    {
      valid := [];
      var seen: set<int> := {};
      var i := 0;
      while i < |current|
        invariant 0 <= i <= |current| && |valid| < limit && seen == Ids(valid)
        invariant KeepLive(self.id, current, opts.hasClient, alive, 0, [], limit)
               == KeepLive(self.id, current, opts.hasClient, alive, i, valid, limit)
      {
        var n := current[i];
        i := i + 1;
        if !results[i - 1] || n.id == EMPTY || n.id in seen {
          continue;
        }
        seen := seen + {n.id};
        AnchorCountAppend(valid, n);
        valid := valid + [n];
        if |valid| == limit {
          break;
        }
      }
    }

    method InstallValidated(valid: seq<NodeInfo>)
      modifies this
      ensures State() == WriteValidated(old(State()), valid)
    {
      if |valid| == 0 {
        status, pred, succ, list, listValid := Isolated, None, self, [self], false;
        return;
      }
      var violations := SuccessorListViolations(self.id, valid[0].id, valid);
      succ, list, listValid := valid[0], valid, |violations| == 0;
      if |fingers| > 0 {
        fingers := fingers[0 := Finger(valid[0], Ok, true)];
      }
    }

    method ValidateSuccessorList(p: Probe)
      modifies this
      ensures State() == Validation(old(State()), opts, p)
    {
      var current := list;
      if |current| == 0 && succ.id != EMPTY {
        current := [succ];
      }
      var limit := EffectiveLimit(opts.listSize);
      var results := PingAll(current, p.alive);
      ghost var answered := Answered(self.id, current, opts.hasClient, p.alive);
      var valid := KeepLiveEntries(current, results, p.alive, limit);
      valid := ExtendIfShort(valid, p, limit, answered, old(State()));
      InstallValidated(valid);
    }

    method ExtendIfShort(kept: seq<NodeInfo>, p: Probe, limit: nat, ghost answered: set<int>, ghost st: NodeState)
      returns (valid: seq<NodeInfo>)
      requires State() == MarkSuccesses(st, answered)
      modifies this`failures, this`fingers
      ensures valid == if ExtendsFrom(self.id, kept, opts.hasClient, limit) && p.lastList.Some?
                       then Extend(self.id, p.lastList.value, opts.hasClient, p.extAlive, 0, kept, limit) else kept
      ensures State() == MarkSuccesses(st, answered + (Ids(valid) - Ids(kept)))
    {
      valid := kept;
      assert answered + (Ids(kept) - Ids(kept)) == answered;
      if |valid| < limit && |valid| > 0 && opts.hasClient {
        var last := valid[|valid| - 1];
        if last.id != self.id && p.lastList.Some? {
          valid := ExtendList(valid, p.lastList.value, p.extAlive, limit, answered, st);
        }
      }
    }

    method ExtendList(kept: seq<NodeInfo>, more: seq<NodeInfo>, alive: nat -> bool, limit: nat,
                      ghost answered: set<int>, ghost st: NodeState)
      returns (valid: seq<NodeInfo>)
      requires State() == MarkSuccesses(st, answered) && |kept| < limit
      modifies this`failures, this`fingers
      ensures valid == Extend(self.id, more, opts.hasClient, alive, 0, kept, limit)
      ensures State() == MarkSuccesses(st, answered + (Ids(valid) - Ids(kept)))
    {
      valid := kept;
      var seen := set n | n in kept :: n.id;
      assert answered + (Ids(valid) - Ids(kept)) == answered;
      var i := 0;
      while i < |more|
        invariant 0 <= i <= |more| && |valid| <= limit && seen == Ids(valid) && Ids(kept) <= Ids(valid)
        invariant State() == MarkSuccesses(st, answered + (Ids(valid) - Ids(kept)))
        invariant Extend(self.id, more, opts.hasClient, alive, 0, kept, limit)
               == Extend(self.id, more, opts.hasClient, alive, i, valid, limit)
      {
        if |valid| == limit {
          break;
        }
        var n := more[i];
        i := i + 1;
        if n.id == EMPTY || n.id == self.id || n.id in seen {
          continue;
        }
        var ok := PingLiveness(n, alive(i - 1));
        if ok {
          SuccessesCompose(st, answered + (Ids(valid) - Ids(kept)), {n.id});
          AnchorCountAppend(valid, n);
          assert answered + (Ids(valid + [n]) - Ids(kept)) == answered + (Ids(valid) - Ids(kept)) + {n.id};
          seen := seen + {n.id};
          valid := valid + [n];
        }
      }
    }

    method CommitSuccessor(successor: NodeInfo, remote: seq<NodeInfo>)
      modifies this`succ, this`list, this`fingers
      ensures State() == Install(old(State()), opts, successor, remote)
    {
      succ := successor;
      list := MergeSuccessorList(self, opts.listSize, opts.siblingCap, successor, remote);
      if |fingers| > 0 {
        fingers := fingers[0 := Finger(successor, Ok, true)];
      }
    }

    /** A candidate has answered: choose between it and its predecessor. */
    method Contact(candidate: NodeInfo, reply: PeerState, answer: bool) returns (successor: NodeInfo, remote: seq<NodeInfo>)
      modifies this`failures, this`fingers
      ensures Improves(self.id, candidate, reply, opts.hasClient, answer) ==>
                successor == reply.pred.value && remote == [candidate] + reply.list
      ensures !Improves(self.id, candidate, reply, opts.hasClient, answer) ==>
                successor == candidate && remote == reply.list
      ensures State() == MarkSuccesses(old(State()), {candidate.id, successor.id})
    {
      MarkSuccess(candidate.id);
      successor, remote := candidate, reply.list;
      assert {candidate.id, candidate.id} == {candidate.id};
      if reply.pred.Some? && reply.pred.value.id != self.id
         && InRangeOpenOpen(reply.pred.value.id, self.id, candidate.id) && ValidNodeInfo(reply.pred.value) {
        var ok := PingLiveness(reply.pred.value, answer);
        if ok {
          SuccessesCompose(old(State()), {candidate.id}, {reply.pred.value.id});
          assert {candidate.id} + {reply.pred.value.id} == {candidate.id, reply.pred.value.id};
          successor, remote := reply.pred.value, [candidate] + reply.list;
        }
      }
    }

    /** One candidate of Stabilize: count its failure, or write the new successor. */
    method TryCandidate(k: nat, candidate: NodeInfo, currentSuccessor: int, currentPredecessor: Option<NodeInfo>,
                        reply: Option<PeerState>, answer: bool)
      returns (done: bool, rectified: Option<NodeInfo>)
      requires candidate.id != EMPTY
      modifies this
      ensures var t := Try(self.id, currentPredecessor, opts.hasClient, k, candidate, reply, answer);
              done == t.Some? && (t.None? ==> rectified == None) && (t.Some? ==> rectified == Target(t.value))
      ensures State() == match Try(self.id, currentPredecessor, opts.hasClient, k, candidate, reply, answer)
                         case None => if candidate.id == self.id then old(State())
                                      else MarkFailure(old(State()), opts, candidate.id)
                         case Some(d) => Commit(MarkSuccesses(old(State()), Reached(d)), currentSuccessor, opts, d)
    {
      SuccessesCompose(State(), {}, {});
      rectified := None;
      if candidate.id == self.id {
        if currentPredecessor.None? || currentPredecessor.value.id == self.id || !opts.hasClient {
          succ, list, listValid := self, [self], true;
          if currentSuccessor != self.id {
            status, pred, listValid := Isolated, None, false;
          }
          return true, None;
        }
        var ok := PingLiveness(currentPredecessor.value, answer);
        if !ok {
          return false, None;
        }
        CommitSuccessor(currentPredecessor.value, if reply.Some? then reply.value.list else []);
        return true, currentPredecessor;
      }
      if !opts.hasClient {
        status, pred, succ, list, listValid := Isolated, None, self, [self], false;
        return true, None;
      }
      if reply.None? {
        var _, _ := MarkFailureOf(candidate.id);
        return false, None;
      }
      var successor, remote := Contact(candidate, reply.value, answer);
      CommitSuccessor(successor, remote);
      return true, Some(successor);
    }

    /** Walk through the candidates until one decides. */
    method TryCandidates(candidates: seq<NodeInfo>, fetch: nat -> Option<PeerState>, alive: nat -> bool)
      returns (rectified: Option<NodeInfo>)
      requires EMPTY !in Ids(candidates)
      modifies this
      ensures var d := Decide(old(State()), opts.hasClient, candidates, 0, fetch, alive);
              State() == Written(old(State()), opts, candidates, d) && rectified == Target(d)
    {
      var currentSuccessor, currentPredecessor := succ.id, pred;
      ghost var snap := State();
      ghost var d := Decide(snap, opts.hasClient, candidates, 0, fetch, alive);
      var k := 0;
      while k < |candidates|
        invariant 0 <= k <= |candidates|
        invariant State() == FailCandidates(snap, opts, candidates, k)
        invariant d == Decide(snap, opts.hasClient, candidates, k, fetch, alive)
      {
        assert candidates[k].id in Ids(candidates);
        var done;
        done, rectified := TryCandidate(k, candidates[k], currentSuccessor, currentPredecessor, fetch(k), alive(k));
        if done {
          return;
        }
        k := k + 1;
      }
      SuccessesCompose(State(), {}, {});
      status, pred, succ, list, listValid := Isolated, None, self, [self], false;
      rectified := None;
    }

    /** One maintenance round.  Returns the node a Rectify request was sent to, if any. */
    method Stabilize(fetch: nat -> Option<PeerState>, alive: nat -> bool, p: Probe) returns (rectified: Option<NodeInfo>)
      modifies this
      ensures State() == Stabilization(old(State()), opts, fetch, alive, p)
      ensures rectified == if old(status) == Active then RectifyTarget(old(State()), opts, fetch, alive) else None
    {
      if status != Active {
        return None;
      }
      var candidates := DedupeNodes([succ] + list, EMPTY);
      DedupeMeaning([succ] + list, EMPTY);
      rectified := TryCandidates(candidates, fetch, alive);
      if opts.validateAfterStabilize && rectified.Some? {
        ValidateSuccessorList(p);
      }
    }

    /** `alive` answers the ping of the current predecessor. */
    method HandleRectify(candidate: NodeInfo, alive: bool) returns (reply: RectifyReply)
      modifies this
      ensures State() == Rectification(old(State()), opts, candidate, alive)
      ensures reply == RectificationReply(old(State()), opts, candidate, alive)
    {
      if !ValidNodeInfo(candidate) || status == Leaving || status == Joining || candidate.id == self.id {
        return RectifyRefused;
      }
      var currentPredecessor := pred;
      var predecessorAlive := true;
      if currentPredecessor.Some? && currentPredecessor.value.id != self.id && opts.hasClient {
        predecessorAlive := PingLiveness(currentPredecessor.value, alive);
      }
      var accepted := false;
      if pred.None? || (currentPredecessor.Some? && pred.value.id == currentPredecessor.value.id && !predecessorAlive)
         || InRangeOpenOpen(candidate.id, pred.value.id, self.id) {
        var size := if opts.predecessorListSize <= 0 then DEFAULT_PREDECESSOR_LIST_SIZE else opts.predecessorListSize;
        var newList := [candidate];
        if pred.Some? && |newList| < size {
          newList := newList + [pred.value];
        }
        predList, pred, accepted := newList, Some(candidate), true;
      }
      return RectifyAnswer(accepted, pred);
    }

    /** Two pings two seconds apart decide whether the predecessor is given up. */
    method CheckPredecessor(first: bool, second: bool)
      modifies this
      ensures State() == PredecessorCheck(old(State()), opts, first, second)
    {
      var checked := pred;
      if checked.None? || checked.value.id == self.id || !opts.hasClient {
        return;
      }
      var ok := first;
      if !ok {
        ok := second;
      }
      if !ok {
        if pred.Some? && pred.value.id == checked.value.id {
          pred := None;
        }
        return;
      }
      MarkSuccess(checked.value.id);
    }

    method HandleLeave(req: LeaveRequest) returns (acknowledged: bool)
      modifies this
      ensures State() == LeaveStep(old(State()), opts, req)
      ensures acknowledged <==> !req.UnknownRole?
    {
      match req
      case PredecessorLeaving(p) =>
        pred := p;
        return true;
      case SuccessorLeaving(s) =>
        if s.Some? {
          succ := s.value;
          list := MergeSuccessorList(self, opts.listSize, opts.siblingCap, succ, list);
        }
        return true;
      case UnknownRole =>
        return false;
    }

    method BecomeMember(successor: NodeInfo, seedList: seq<NodeInfo>)
      modifies this
      ensures State() == JoinCommit(old(State()), opts, successor, seedList)
    {
      pred, succ := None, successor;
      list := MergeSuccessorList(self, opts.listSize, opts.siblingCap, successor, seedList);
      if |fingers| > 0 {
        fingers := fingers[0 := Finger(successor, Ok, fingers[0].valid)];
      }
      status := Active;
    }

    /** Returns the successor a Rectify request was sent to, if any. */
    method JoinNetworkWithSeeds(seeds: seq<NodeInfo>, replies: nat -> Option<JoinReply>,
                                states: nat -> Option<seq<NodeInfo>>, p: Probe) returns (notified: Option<NodeInfo>)
      modifies this
      ensures State() == JoinAttempt(old(State()), opts, seeds, replies, states, p)
      ensures notified == JoinTarget(self.id, opts, seeds, replies)
    {
      status := Joining;
      if |seeds| == 0 || !opts.hasClient {
        ActivateSingleNode();
        return None;
      }
      var i := 0;
      while i < |seeds|
        invariant 0 <= i <= |seeds|
        invariant State() == old(State()).(status := Joining)
        invariant FirstUsable(self.id, seeds, replies, 0) == FirstUsable(self.id, seeds, replies, i)
      {
        var seed := seeds[i];
        if seed.id == self.id || !ValidNodeInfo(seed) || replies(i).None? || !ValidNodeInfo(replies(i).value.succ) {
          i := i + 1;
          continue;
        }
        var seedList := replies(i).value.list;
        if opts.atomicState && states(i).Some? {
          seedList := states(i).value;
        }
        BecomeMember(replies(i).value.succ, seedList);
        ValidateSuccessorList(p);
        return Some(replies(i).value.succ);
      }
      ActivateSingleNode();
      return None;
    }
  }
}
