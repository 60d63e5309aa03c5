/** How a node answers and whom it asks next: the candidates in their order, what the score weighs, when a query is
    refused, and the path a lookup takes (lookup.go:15-153, 230-340, protocol.go:9-32, 145-163).
 */
module RoutingLaws {
  import opened Ring
  import opened Wrappers
  import opened NodeLists
  import opened NodeSpec
  import opened Picks
  import opened Lookup
  import opened LookupTheorems
  import opened FindSuccessor

  // ----- candidates -----

  /** The nodes of the fingers, the farthest first. */
  function FingersDown(fingers: seq<Finger>): seq<NodeInfo> {
    seq(|fingers|, j requires 0 <= j < |fingers| => fingers[|fingers| - 1 - j].node)
  }

  function ListDown(list: seq<NodeInfo>): seq<NodeInfo> {
    seq(|list|, j requires 0 <= j < |list| => list[|list| - 1 - j])
  }

  predicate OnTheWay(self: int, target: int, n: NodeInfo) {
    n.id != EMPTY && n.id != self && InRangeOpenOpen(n.id, self, target)
  }

  predicate Trustworthy(f: Finger) {
    f.valid && f.status != Suspicious
  }

  function FingerCounts(self: int, target: int, fingers: seq<Finger>, trusted: bool): nat -> bool {
    (j: nat) => j < |fingers| && OnTheWay(self, target, FingersDown(fingers)[j])
                && (trusted ==> Trustworthy(fingers[|fingers| - 1 - j]))
  }

  function ListCounts(self: int, target: int, list: seq<NodeInfo>): nat -> bool {
    (j: nat) => j < |list| && OnTheWay(self, target, ListDown(list)[j])
  }

  lemma {:induction false} FingersTaken(self: int, target: int, fingers: seq<Finger>, upTo: nat, trusted: bool,
                                        out: seq<NodeInfo>, limit: nat) returns (idx: seq<nat>)
    requires upTo <= |fingers| && |out| + upTo < limit
    ensures Takes(FingersDown(fingers), FingerCounts(self, target, fingers, trusted), Ids(out), limit - |out|, |fingers| - upTo, idx)
    ensures FingerCandidates(self, target, fingers, upTo, trusted, out) == out + At(FingersDown(fingers), idx)
    decreases upTo
  {
    var src, ok := FingersDown(fingers), FingerCounts(self, target, fingers, trusted);
    if upTo == 0 {
      idx := [];
      TakesNone(src, ok, Ids(out), limit - |out|, |fingers|);
    } else {
      var at := |fingers| - upTo;
      if ok(at) && src[at].id !in Ids(out) {
        var rest := FingersTaken(self, target, fingers, upTo - 1, trusted, out + [src[at]], limit);
        TakesOne(src, ok, out, limit, at, rest);
        idx := [at] + rest;
      } else {
        idx := FingersTaken(self, target, fingers, upTo - 1, trusted, out, limit);
        Passes(src, ok, Ids(out), limit - |out|, at, idx);
      }
    }
  }

  lemma {:induction false} ListTaken(self: int, target: int, list: seq<NodeInfo>, upTo: nat, out: seq<NodeInfo>, limit: nat)
    returns (idx: seq<nat>)
    requires upTo <= |list| && |out| + upTo < limit
    ensures Takes(ListDown(list), ListCounts(self, target, list), Ids(out), limit - |out|, |list| - upTo, idx)
    ensures ListCandidates(self, target, list, upTo, out) == out + At(ListDown(list), idx)
    decreases upTo
  {
    var src, ok := ListDown(list), ListCounts(self, target, list);
    if upTo == 0 {
      idx := [];
      TakesNone(src, ok, Ids(out), limit - |out|, |list|);
    } else {
      var at := |list| - upTo;
      if ok(at) && src[at].id !in Ids(out) {
        var rest := ListTaken(self, target, list, upTo - 1, out + [src[at]], limit);
        TakesOne(src, ok, out, limit, at, rest);
        idx := [at] + rest;
      } else {
        idx := ListTaken(self, target, list, upTo - 1, out, limit);
        Passes(src, ok, Ids(out), limit - |out|, at, idx);
      }
    }
  }

  ghost predicate SomeTrusted(self: int, target: int, fingers: seq<Finger>) {
    exists i :: 0 <= i < |fingers| && OnTheWay(self, target, fingers[i].node) && Trustworthy(fingers[i])
  }

  lemma TrustedTaken(self: int, target: int, fingers: seq<Finger>, room: nat, idx: seq<nat>)
    requires room > 0 && Takes(FingersDown(fingers), FingerCounts(self, target, fingers, true), {}, room, 0, idx)
    ensures idx != [] <==> SomeTrusted(self, target, fingers)
  {
    var src, ok := FingersDown(fingers), FingerCounts(self, target, fingers, true);
    if idx != [] {
      assert ok(idx[0]) && Trustworthy(fingers[|fingers| - 1 - idx[0]]);
    }
    if i :| 0 <= i < |fingers| && OnTheWay(self, target, fingers[i].node) && Trustworthy(fingers[i]) {
      assert ok(|fingers| - 1 - i) && SeenTo(src, room, idx, |fingers| - 1 - i);
    }
  }

  /** The candidates, in the order in which ties are decided: the trusted fingers on the way, from the farthest down; only
      if there is none, the others on the way; then the list entries on the way, from the last up; each id once. */
  lemma CandidatesLaw(self: int, target: int, fingers: seq<Finger>, list: seq<NodeInfo>) returns (a: seq<nat>, b: seq<nat>)
    ensures Takes(FingersDown(fingers), FingerCounts(self, target, fingers, SomeTrusted(self, target, fingers)), {},
                  |fingers| + 1, 0, a)
    ensures var first := At(FingersDown(fingers), a);
            && Takes(ListDown(list), ListCounts(self, target, list), Ids(first), |list| + 1, 0, b)
            && Collect(self, target, fingers, list) == first + At(ListDown(list), b)
  {
    assert Ids([]) == {};
    a := FingersTaken(self, target, fingers, |fingers|, true, [], |fingers| + 1);
    TrustedTaken(self, target, fingers, |fingers| + 1, a);
    NothingBefore(At(FingersDown(fingers), a));
    if !SomeTrusted(self, target, fingers) {
      a := FingersTaken(self, target, fingers, |fingers|, false, [], |fingers| + 1);
      NothingBefore(At(FingersDown(fingers), a));
    }
    var first := At(FingersDown(fingers), a);
    b := ListTaken(self, target, list, |list|, first, |first| + |list| + 1);
  }

  lemma NothingBefore(s: seq<NodeInfo>)
    ensures [] + s == s
  {
  }

  // ----- one answer -----

  /** The query is well formed and its hop count below the limit it names, or else the node's own. */
  lemma RequestLaw(r: Router, req: Request)
    ensures RequestError(r, req).None? <==> ValidId(req.id) && (if req.maxHops > 0 then req.hop < req.maxHops else req.hop < r.maxHops)
    ensures !ValidId(req.id) ==> RequestError(r, req) == Some(InvalidRequest)
    ensures ValidId(req.id) && RequestError(r, req).Some? ==> RequestError(r, req) == Some(MaxHopsExceeded)
  {
  }

  /** The node takes part, and has not been asked before in this lookup. */
  predicate Open(r: Router, req: Request) {
    r.status != Leaving && r.status != Isolated && r.self.id !in req.visited
  }

  predicate Spans(r: Router, id: int) {
    r.succ.id == r.self.id || InRangeOpenClosed(id, r.self.id, r.succ.id)
  }

  /** Some entry of the tables lies strictly before the target. */
  ghost predicate KnowsNearer(r: Router, id: int) {
    || (exists i :: 0 <= i < |r.fingers| && OnTheWay(r.self.id, id, r.fingers[i].node))
    || (exists n :: n in r.list && OnTheWay(r.self.id, id, n))
  }

  lemma NextIsNearer(r: Router, id: int)
    requires ValidId(r.self.id)
    ensures Closest(r, id).id != r.self.id ==> OnTheWay(r.self.id, id, Closest(r, id)) && KnowsNearer(r, id)
    ensures KnowsNearer(r, id) ==> Closest(r, id).id != r.self.id
  {
    ClosestIsCandidate(r, id);
    CollectMeaning(r.self.id, id, r.fingers, r.list);
    FallbackIff(r, id);
  }

  /** What the tables answer: refused, by whoever leaves, is cut off or was asked already; the successor, if the node's
      arc spans the id, or if it knows nobody nearer; and otherwise somebody nearer. */
  lemma RouteLaw(r: Router, req: Request)
    requires ValidId(req.id) && ValidId(r.self.id)
    ensures match Route(r, req)
            case Refused(code) =>
              code == (if r.status == Leaving then NodeLeaving else if r.status == Isolated then NodeIsolated else LoopDetected)
              && !Open(r, req)
            case Found(succ, cached) =>
              Open(r, req) && succ == r.succ && !cached && (Spans(r, req.id) || !KnowsNearer(r, req.id))
            case NextHop(next) =>
              Open(r, req) && !Spans(r, req.id) && KnowsNearer(r, req.id) && OnTheWay(r.self.id, req.id, next)
  {
    NextIsNearer(r, req.id);
  }

  /** Only an answer from the node's own arc is stored: neither a fallback nor a forward nor a refusal is. */
  lemma OnlyOwnArcIsStored(r: Router, s: Lines, capacity: nat, req: Request, later: int, s': Lines)
    requires Served(r, s, capacity, req, later, s') && (!Open(r, req) || !Spans(r, req.id))
    ensures s' == s
  {
  }

  // ----- the path of a lookup -----

  function IdsOf(s: seq<NodeInfo>): seq<int> {
    seq(|s|, i requires 0 <= i < |s| => s[i].id)
  }

  /** What the k-th node of the path is asked, and answers. */
  function ReplyAt(net: Network, id: int, maxHops: nat, hop: nat, visited: seq<int>, path: seq<NodeInfo>, k: nat): Reply
    requires k < |path|
  {
    Ask(net, hop + k, path[k].id, Request(id, hop + k, maxHops, visited + IdsOf(path[..k])))
  }

  /** Each node of the path was named by the one before it, nobody twice, within the hop limit. */
  ghost predicate Followed(net: Network, id: int, maxHops: nat, hop: nat, visited: seq<int>, path: seq<NodeInfo>) {
    && hop + |path| <= maxHops
    && (forall k: nat :: k < |path| ==> path[k].id !in visited + IdsOf(path[..k]))
    && (forall k: nat :: k + 1 < |path| ==> ReplyAt(net, id, maxHops, hop, visited, path, k) == NextHop(path[k + 1]))
  }

  /** The result is what the last node asked replied; a forward ends a lookup only at the hop limit or at a node already
      asked. */
  ghost predicate Concludes(net: Network, id: int, maxHops: nat, hop: nat, visited: seq<int>, path: seq<NodeInfo>, result: Result)
    requires path != []
  {
    var last := |path| - 1;
    match ReplyAt(net, id, maxHops, hop, visited, path, last)
    case Found(succ, cached) => result == Resolved(succ, path[last], hop + last, cached)
    case Refused(code) => result == Failed(code)
    case NextHop(next) =>
      if hop + |path| == maxHops then result == Failed(MaxHopsExceeded)
      else next.id in visited + IdsOf(path) && result == Failed(LoopDetected)
  }

  lemma PathShifted(net: Network, id: int, maxHops: nat, hop: nat, visited: seq<int>, path: seq<NodeInfo>, first: NodeInfo, k: nat)
    requires k < |path|
    ensures visited + IdsOf(([first] + path)[..k + 1]) == (visited + [first.id]) + IdsOf(path[..k])
    ensures ReplyAt(net, id, maxHops, hop, visited, [first] + path, k + 1)
         == ReplyAt(net, id, maxHops, hop + 1, visited + [first.id], path, k)
  {
    assert ([first] + path)[..k + 1] == [first] + path[..k];
    assert IdsOf([first] + path[..k]) == [first.id] + IdsOf(path[..k]);
  }

  lemma FollowedFrom(net: Network, id: int, maxHops: nat, hop: nat, visited: seq<int>, path: seq<NodeInfo>, first: NodeInfo)
    requires first.id !in visited && path != [] && Followed(net, id, maxHops, hop + 1, visited + [first.id], path)
    requires Ask(net, hop, first.id, Request(id, hop, maxHops, visited)) == NextHop(path[0])
    ensures Followed(net, id, maxHops, hop, visited, [first] + path)
  {
    var all := [first] + path;
    assert visited + IdsOf(all[..0]) == visited;
    forall k: nat | k < |all| ensures all[k].id !in visited + IdsOf(all[..k]) {
      if k > 0 {
        PathShifted(net, id, maxHops, hop, visited, path, first, k - 1);
      }
    }
    forall k: nat | k + 1 < |all| ensures ReplyAt(net, id, maxHops, hop, visited, all, k) == NextHop(all[k + 1]) {
      if k > 0 {
        PathShifted(net, id, maxHops, hop, visited, path, first, k - 1);
      }
    }
  }

  lemma ConcludesFrom(net: Network, id: int, maxHops: nat, hop: nat, visited: seq<int>, path: seq<NodeInfo>, first: NodeInfo, result: Result)
    requires path != [] && Concludes(net, id, maxHops, hop + 1, visited + [first.id], path, result)
    ensures Concludes(net, id, maxHops, hop, visited, [first] + path, result)
  {
    PathShifted(net, id, maxHops, hop, visited, path, first, |path| - 1);
    assert visited + IdsOf([first] + path) == (visited + [first.id]) + IdsOf(path);
  }

  lemma OneAsked(net: Network, id: int, maxHops: nat, hop: nat, visited: seq<int>, current: NodeInfo)
    requires hop < maxHops && current.id !in visited
    ensures Followed(net, id, maxHops, hop, visited, [current])
    ensures ReplyAt(net, id, maxHops, hop, visited, [current], 0) == Ask(net, hop, current.id, Request(id, hop, maxHops, visited))
    ensures visited + IdsOf([current]) == visited + [current.id]
  {
    assert visited + IdsOf([current][..0]) == visited;
  }

  /** Whatever the nodes reply, the lookup asks them one after the other as they name each other, and ends with the reply
      of the last. */
  lemma {:induction false} LookupFollowsReplies(net: Network, id: int, current: NodeInfo, hop: nat, visited: seq<int>, maxHops: nat)
    returns (path: seq<NodeInfo>)
    requires hop < maxHops && current.id !in visited
    ensures path != [] && path[0] == current && Followed(net, id, maxHops, hop, visited, path)
    ensures Concludes(net, id, maxHops, hop, visited, path, LookupFrom(net, id, current, hop, visited, maxHops))
    decreases maxHops - hop
  {
    path := [current];
    OneAsked(net, id, maxHops, hop, visited, current);
    var reply := Ask(net, hop, current.id, Request(id, hop, maxHops, visited));
    if reply.NextHop? && hop + 1 < maxHops && reply.next.id !in visited + [current.id] {
      var rest := LookupFollowsReplies(net, id, reply.next, hop + 1, visited + [current.id], maxHops);
      FollowedFrom(net, id, maxHops, hop, visited, rest, current);
      ConcludesFrom(net, id, maxHops, hop, visited, rest, current, LookupFrom(net, id, current, hop, visited, maxHops));
      path := [current] + rest;
    }
  }

  // ----- answering a joiner -----

  /** A join is refused for a malformed record, by a node that leaves or is cut off, for the node's own id, and if the
      lookup fails.  Otherwise the joiner is told the successor found, with this node's list if that is the node itself,
      and else with what the successor replies behind it, the whole state if that is asked for and answered. */
  lemma JoinReplyLaw(r: Router, opts: Options, joiner: NodeInfo, result: Result,
                     state: int -> Option<seq<NodeInfo>>, list: int -> Option<seq<NodeInfo>>)
    ensures JoinRefuses(r, joiner)
            <==> !ValidNodeInfo(joiner) || r.status == Leaving || r.status == Isolated || joiner.id == r.self.id
    ensures var reply := JoinAnswer(r, opts, result, state, list);
            && (reply.None? <==> result.Failed?)
            && (result.Resolved? ==>
                  var succ := result.node;
                  && reply.value.succ == succ
                  && (succ.id == r.self.id ==> reply.value.list == r.list)
                  && (succ.id != r.self.id ==>
                        && reply.value.list != [] && reply.value.list[0] == succ
                        && reply.value.list[1..] ==
                             if !opts.hasClient then []
                             else if opts.atomicState && state(succ.id).Some? then state(succ.id).value
                             else if list(succ.id).Some? then list(succ.id).value else []))
  {
  }
}
