/** Routing: candidate collection, next-hop choice, one find_successor step and the iterative lookup
    (lookup.go:15-153, 230-340), without the cache.
 */
module Lookup {
  import opened Ring
  import opened Powers
  import opened Wrappers
  import opened NodeLists
  import opened NodeSpec

  const DEFAULT_MAX_HOPS: nat := 161

  datatype Weights = Weights(id: real, rtt: real, region: real)

  /** What a node reads to answer one query. */
  datatype Router = Router(self: NodeInfo, status: Status, succ: NodeInfo, list: seq<NodeInfo>,
                           fingers: seq<Finger>, maxHops: nat, region: int, weights: Weights,
                           rtt: int -> Option<nat>)

  datatype ErrorCode = InvalidRequest | MaxHopsExceeded | NodeLeaving | NodeIsolated | LoopDetected | Upstream

  datatype Request = Request(id: int, hop: int, maxHops: int, visited: seq<int>)

  datatype Reply = Found(succ: NodeInfo, cached: bool) | NextHop(next: NodeInfo) | Refused(code: ErrorCode)

  // ----- candidates -----

  predicate Eligible(self: int, target: int, out: seq<NodeInfo>, n: NodeInfo) {
    n.id != EMPTY && n.id != self && n.id !in Ids(out) && InRangeOpenOpen(n.id, self, target)
  }

  predicate Usable(f: Finger, trustedOnly: bool) {
    !trustedOnly || (f.status != Suspicious && f.valid)
  }

  function FingerCandidates(self: int, target: int, fingers: seq<Finger>, upTo: nat, trustedOnly: bool,
                            out: seq<NodeInfo>): seq<NodeInfo>
    requires upTo <= |fingers|
    decreases upTo
  {
    if upTo == 0 then out
    else
      var f := fingers[upTo - 1];
      FingerCandidates(self, target, fingers, upTo - 1, trustedOnly,
                       if Usable(f, trustedOnly) && Eligible(self, target, out, f.node) then out + [f.node] else out)
  }

  function ListCandidates(self: int, target: int, list: seq<NodeInfo>, upTo: nat, out: seq<NodeInfo>): seq<NodeInfo>
    requires upTo <= |list|
    decreases upTo
  {
    if upTo == 0 then out
    else
      var n := list[upTo - 1];
      ListCandidates(self, target, list, upTo - 1, if Eligible(self, target, out, n) then out + [n] else out)
  }

  function Collect(self: int, target: int, fingers: seq<Finger>, list: seq<NodeInfo>): seq<NodeInfo> {
    var trusted := FingerCandidates(self, target, fingers, |fingers|, true, []);
    var found := if trusted == [] then FingerCandidates(self, target, fingers, |fingers|, false, []) else trusted;
    ListCandidates(self, target, list, |list|, found)
  }

  method CollectFingers(self: int, target: int, fingers: seq<Finger>, trustedOnly: bool) returns (out: seq<NodeInfo>)
    ensures out == FingerCandidates(self, target, fingers, |fingers|, trustedOnly, [])
  {
    var seen := {self};
    out := [];
    var i := |fingers|;
    while i > 0
      invariant 0 <= i <= |fingers| && seen == {self} + Ids(out)
      invariant FingerCandidates(self, target, fingers, |fingers|, trustedOnly, [])
             == FingerCandidates(self, target, fingers, i, trustedOnly, out)
    {
      i := i - 1;
      var f := fingers[i];
      if f.node.id == EMPTY || f.node.id in seen {
        continue;
      }
      if trustedOnly && (f.status == Suspicious || !f.valid) {
        continue;
      }
      if InRangeOpenOpen(f.node.id, self, target) {
        seen := seen + {f.node.id};
        AnchorCountAppend(out, f.node);
        out := out + [f.node];
      }
    }
  }

  method CollectCandidates(self: int, target: int, fingers: seq<Finger>, list: seq<NodeInfo>) returns (out: seq<NodeInfo>)
    ensures out == Collect(self, target, fingers, list)
  {
    out := CollectFingers(self, target, fingers, true);
    if |out| == 0 {
      out := CollectFingers(self, target, fingers, false);
    }
    ghost var found := out;
    var seen := {self} + set n | n in out :: n.id;
    var i := |list|;
    while i > 0
      invariant 0 <= i <= |list| && seen == {self} + Ids(out)
      invariant ListCandidates(self, target, list, |list|, found) == ListCandidates(self, target, list, i, out)
    {
      i := i - 1;
      var n := list[i];
      if n.id == EMPTY || n.id in seen {
        continue;
      }
      if InRangeOpenOpen(n.id, self, target) {
        seen := seen + {n.id};
        AnchorCountAppend(out, n);
        out := out + [n];
      }
    }
  }

  ghost predicate AllBetween(self: int, target: int, s: seq<NodeInfo>) {
    forall n :: n in s ==> InRangeOpenOpen(n.id, self, target)
  }

  lemma {:induction false} FingerCandidatesBetween(self: int, target: int, fingers: seq<Finger>, upTo: nat,
                                                   trustedOnly: bool, out: seq<NodeInfo>)
    requires upTo <= |fingers| && AllBetween(self, target, out)
    ensures var r := FingerCandidates(self, target, fingers, upTo, trustedOnly, out);
            && AllBetween(self, target, r)
            && out <= r
            && (forall n :: n in r ==> n in out || exists i :: 0 <= i < upTo && fingers[i].node == n)
  {
    if upTo > 0 {
      var f := fingers[upTo - 1];
      FingerCandidatesBetween(self, target, fingers, upTo - 1, trustedOnly,
        if Usable(f, trustedOnly) && Eligible(self, target, out, f.node) then out + [f.node] else out);
    }
  }

  lemma {:induction false} ListCandidatesBetween(self: int, target: int, list: seq<NodeInfo>, upTo: nat, out: seq<NodeInfo>)
    requires upTo <= |list| && AllBetween(self, target, out)
    ensures var r := ListCandidates(self, target, list, upTo, out);
            && AllBetween(self, target, r)
            && out <= r
            && (forall n :: n in r ==> n in out || n in list)
            && (forall i :: 0 <= i < upTo && list[i].id != self && InRangeOpenOpen(list[i].id, self, target)
                  ==> list[i].id in Ids(r))
  {
    if upTo > 0 {
      var n := list[upTo - 1];
      var out' := if Eligible(self, target, out, n) then out + [n] else out;
      AnchorCountAppend(out, n);
      ListCandidatesBetween(self, target, list, upTo - 1, out');
      var r := ListCandidates(self, target, list, upTo, out);
      assert forall m :: m in out' ==> m in r;
    }
  }

  /** Every candidate lies strictly between this node and the target, comes from the tables, and no
      successor-list entry lying there is missed. */
  lemma CollectMeaning(self: int, target: int, fingers: seq<Finger>, list: seq<NodeInfo>)
    ensures var r := Collect(self, target, fingers, list);
            && AllBetween(self, target, r)
            && (forall n :: n in r ==> n in list || exists i :: 0 <= i < |fingers| && fingers[i].node == n)
            && (forall n :: n in list && n.id != self && InRangeOpenOpen(n.id, self, target) ==> n.id in Ids(r))
  {
    FingerCandidatesBetween(self, target, fingers, |fingers|, true, []);
    FingerCandidatesBetween(self, target, fingers, |fingers|, false, []);
    var trusted := FingerCandidates(self, target, fingers, |fingers|, true, []);
    var found := if trusted == [] then FingerCandidates(self, target, fingers, |fingers|, false, []) else trusted;
    ListCandidatesBetween(self, target, list, |list|, found);
  }

  // ----- next hop -----

  /** Proximity: the fewer bits the distance to the target has, the higher. */
  function IdScore(w: real, bits: nat): real {
    w * (1.0 - bits as real / (BITS + 1) as real)
  }

  function EffectiveWeights(r: Router): Weights {
    if r.weights.id == 0.0 then Weights(1.0, 0.0, 0.0) else r.weights
  }

  function RttScore(w: real, rtt: Option<nat>): real {
    if w > 0.0 && rtt.Some? then w * (1.0 / (1.0 + rtt.value as real / 100.0)) else 0.0
  }

  function Score(r: Router, target: int, c: NodeInfo): real
    requires ValidId(target) && ValidId(c.id)
  {
    var w := EffectiveWeights(r);
    IdScore(w.id, BitLen(Offset(c.id, target)))
    + RttScore(w.rtt, r.rtt(c.id))
    + (if w.region > 0.0 && c.region != EMPTY && c.region == r.region then w.region else 0.0)
  }

  function Best(r: Router, target: int, candidates: seq<NodeInfo>, i: nat, best: NodeInfo, bestScore: real): NodeInfo
    requires ValidId(target) && AllValid(candidates) && i <= |candidates|
    decreases |candidates| - i
  {
    if i == |candidates| then best
    else
      var s := Score(r, target, candidates[i]);
      if s > bestScore then Best(r, target, candidates, i + 1, candidates[i], s)
      else Best(r, target, candidates, i + 1, best, bestScore)
  }

  lemma BetweenIsValid(self: int, target: int, s: seq<NodeInfo>)
    requires AllBetween(self, target, s)
    ensures AllValid(s) && (s != [] ==> ValidId(target))
  {
    forall i | 0 <= i < |s| ensures ValidId(s[i].id) && ValidId(target) {
      assert s[i] in s;
    }
    assert s != [] ==> ValidId(s[0].id) && ValidId(target);
  }

  function Closest(r: Router, target: int): NodeInfo {
    var candidates := Collect(r.self.id, target, r.fingers, r.list);
    CollectMeaning(r.self.id, target, r.fingers, r.list);
    BetweenIsValid(r.self.id, target, candidates);
    if candidates == [] then r.self
    else if |candidates| == 1 then candidates[0]
    else Best(r, target, candidates, 0, candidates[0], -1.0)
  }

  method ClosestPrecedingNode(r: Router, target: int) returns (best: NodeInfo)
    ensures best == Closest(r, target)
  {
    var candidates := CollectCandidates(r.self.id, target, r.fingers, r.list);
    CollectMeaning(r.self.id, target, r.fingers, r.list);
    BetweenIsValid(r.self.id, target, candidates);
    if |candidates| == 0 {
      return r.self;
    }
    if |candidates| == 1 {
      return candidates[0];
    }
    best := candidates[0];
    var bestScore := -1.0;
    for i := 0 to |candidates|
      invariant Best(r, target, candidates, 0, candidates[0], -1.0) == Best(r, target, candidates, i, best, bestScore)
    {
      var score := Score(r, target, candidates[i]);
      if score > bestScore {
        bestScore := score;
        best := candidates[i];
      }
    }
  }

  /** The fold returns what it started with, or the first entry whose score beats everything before. */
  lemma {:induction false} BestMeaning(r: Router, target: int, candidates: seq<NodeInfo>, i: nat, best: NodeInfo, bestScore: real)
    requires ValidId(target) && AllValid(candidates) && i <= |candidates|
    ensures var c := Best(r, target, candidates, i, best, bestScore);
            || (c == best && forall k :: i <= k < |candidates| ==> Score(r, target, candidates[k]) <= bestScore)
            || (exists m :: i <= m < |candidates| && candidates[m] == c && Score(r, target, c) > bestScore
                  && (forall k :: i <= k < |candidates| ==> Score(r, target, candidates[k]) <= Score(r, target, c))
                  && (forall k :: i <= k < m ==> Score(r, target, candidates[k]) < Score(r, target, c)))
    decreases |candidates| - i
  {
    if i < |candidates| {
      var s := Score(r, target, candidates[i]);
      if s > bestScore {
        BestMeaning(r, target, candidates, i + 1, candidates[i], s);
        var c := Best(r, target, candidates, i + 1, candidates[i], s);
        if c == candidates[i] && forall k :: i + 1 <= k < |candidates| ==> Score(r, target, candidates[k]) <= s {
          assert candidates[i] == c;
        }
      } else {
        BestMeaning(r, target, candidates, i + 1, best, bestScore);
      }
    }
  }

  /** The next hop is the node itself only if there is no candidate; otherwise it is a candidate. */
  lemma ClosestIsCandidate(r: Router, target: int)
    ensures var candidates := Collect(r.self.id, target, r.fingers, r.list);
            if candidates == [] then Closest(r, target) == r.self
            else Closest(r, target) in candidates && InRangeOpenOpen(Closest(r, target).id, r.self.id, target)
  {
    var candidates := Collect(r.self.id, target, r.fingers, r.list);
    CollectMeaning(r.self.id, target, r.fingers, r.list);
    BetweenIsValid(r.self.id, target, candidates);
    if |candidates| > 1 {
      BestMeaning(r, target, candidates, 0, candidates[0], -1.0);
    }
  }

  // ----- one step and the whole lookup -----

  function RequestError(r: Router, req: Request): Option<ErrorCode> {
    if !ValidId(req.id) then Some(InvalidRequest)
    else if req.hop >= (if req.maxHops <= 0 then r.maxHops else req.maxHops) then Some(MaxHopsExceeded)
    else None
  }

  predicate AnswersLocally(r: Router, id: int) {
    r.succ.id == r.self.id || InRangeOpenClosed(id, r.self.id, r.succ.id)
  }

  /** The part of HandleFindSuccessor behind the cache check. */
  function Route(r: Router, req: Request): Reply {
    if r.status == Leaving then Refused(NodeLeaving)
    else if r.status == Isolated then Refused(NodeIsolated)
    else if r.self.id in req.visited then Refused(LoopDetected)
    else if AnswersLocally(r, req.id) then Found(r.succ, false)
    else
      var next := Closest(r, req.id);
      if next.id == r.self.id then Found(r.succ, false) else NextHop(next)
  }

  /** Who answers at each hop, and how: `router(h, n)` are the tables of node n at hop h (None: the call
      fails), `hit(h, n)` what its cache returns for the looked-up id at that moment. */
  datatype Network = Network(router: (nat, int) -> Option<Router>, hit: (nat, int) -> Option<NodeInfo>)

  function Ask(net: Network, at: nat, node: int, req: Request): Reply {
    match net.router(at, node)
    case None => Refused(Upstream)
    case Some(r) =>
      if RequestError(r, req).Some? then Refused(RequestError(r, req).value)
      else if net.hit(at, node).Some? then Found(net.hit(at, node).value, true)
      else Route(r, req)
  }

  datatype Result = Resolved(node: NodeInfo, answerer: NodeInfo, hops: nat, cached: bool) | Failed(code: ErrorCode)

  function LookupFrom(net: Network, id: int, current: NodeInfo, hop: nat, visited: seq<int>, maxHops: nat): Result
    decreases maxHops - hop
  {
    if hop >= maxHops then Failed(MaxHopsExceeded)
    else if current.id in visited then Failed(LoopDetected)
    else
      match Ask(net, hop, current.id, Request(id, hop, maxHops, visited))
      case Refused(code) => Failed(code)
      case Found(succ, cached) => Resolved(succ, current, hop, cached)
      case NextHop(next) => LookupFrom(net, id, next, hop + 1, visited + [current.id], maxHops)
  }

  /** The loop from hop `from` on; the node's own handler has answered before if `from` is 1. */
  method LookupIterative(net: Network, id: int, start: NodeInfo, from: nat, asked: seq<int>, maxHops: nat)
    returns (result: Result)
    requires from <= maxHops
    ensures result == LookupFrom(net, id, start, from, asked, maxHops)
  {
    var current := start;
    var visited := asked;
    for hop := from to maxHops
      invariant LookupFrom(net, id, start, from, asked, maxHops) == LookupFrom(net, id, current, hop, visited, maxHops)
    {
      for i := 0 to |visited|
        invariant forall k :: 0 <= k < i ==> visited[k] != current.id
      {
        if visited[i] == current.id {
          return Failed(LoopDetected);
        }
      }
      var reply := Ask(net, hop, current.id, Request(id, hop, maxHops, visited));
      match reply
      case Refused(code) => return Failed(code);
      case Found(succ, cached) => return Resolved(succ, current, hop, cached);
      case NextHop(next) =>
        visited := visited + [current.id];
        current := next;
    }
    return Failed(MaxHopsExceeded);
  }
}
