/** Progress, correctness and the hop bound of the iterative lookup. */
module LookupTheorems {
  import opened Ring
  import opened Sets
  import opened Powers
  import opened Wrappers
  import opened NodeLists
  import opened NodeSpec
  import opened Lookup
  import opened IdealRing

  // ----- progress, whatever the tables say -----

  /** How much of the circle a lookup for `t` standing at `n` still has ahead of it. */
  function Remaining(n: int, t: int): nat
    requires ValidId(n) && ValidId(t)
  {
    Gap(n, t) - 1
  }

  /** Every forward strictly lowers (t - n - 1) mod 2^160. */
  lemma HopsProgress(n: int, next: int, t: int)
    requires InRangeOpenOpen(next, n, t)
    ensures Remaining(n, t) == (t - n - 1) % M
    ensures Remaining(next, t) < Remaining(n, t)
  {
  }

  /** Nodes that follow the code: the router found at n is n's own. */
  ghost predicate Genuine(net: Network) {
    forall h: nat, n :: net.router(h, n).Some? ==> net.router(h, n).value.self.id == n
  }

  ghost predicate BehindUs(visited: seq<int>, n: int, t: int) {
    ValidId(n) && ValidId(t) && forall v :: v in visited ==> ValidId(v) && Remaining(v, t) > Remaining(n, t)
  }

  lemma AskProgress(net: Network, hop: nat, n: int, id: int, maxHops: nat, visited: seq<int>)
    requires Genuine(net) && BehindUs(visited, n, id) && hop < maxHops
    ensures var reply := Ask(net, hop, n, Request(id, hop, maxHops, visited));
            && reply != Refused(LoopDetected)
            && reply != Refused(MaxHopsExceeded)
            && (reply.NextHop? ==> InRangeOpenOpen(reply.next.id, n, id)
                                   && BehindUs(visited + [n], reply.next.id, id))
  {
    if net.router(hop, n).Some? {
      ClosestIsCandidate(net.router(hop, n).value, id);
    }
  }

  /** Even if every table changes between any two hops, no node is asked twice: neither the caller's nor
      the callee's loop check ever fires. */
  lemma {:induction false} NoLoop(net: Network, id: int, current: NodeInfo, hop: nat, visited: seq<int>, maxHops: nat)
    requires Genuine(net) && BehindUs(visited, current.id, id)
    ensures LookupFrom(net, id, current, hop, visited, maxHops) != Failed(LoopDetected)
    decreases maxHops - hop
  {
    if hop < maxHops {
      AskProgress(net, hop, current.id, id, maxHops, visited);
      var reply := Ask(net, hop, current.id, Request(id, hop, maxHops, visited));
      if reply.NextHop? {
        NoLoop(net, id, reply.next, hop + 1, visited + [current.id], maxHops);
      }
    }
  }

  /** All nodes named in the tables belong to `s`. */
  ghost predicate Closed(s: set<int>, net: Network) {
    forall h: nat, n :: n in s && net.router(h, n).Some? ==>
      var r := net.router(h, n).value;
      && (forall m :: m in r.list ==> m.id in s)
      && (forall i :: 0 <= i < |r.fingers| ==> r.fingers[i].node.id in s)
  }

  function Visited(visited: seq<int>): set<int> {
    set v | v in visited
  }

  /** Among finitely many nodes a lookup ends before it has asked more than all of them, so a hop limit
      of at least their number is never reached. */
  lemma {:induction false} EndsWithinMembers(s: set<int>, net: Network, id: int, current: NodeInfo, hop: nat,
                                             visited: seq<int>, maxHops: nat)
    requires Genuine(net) && Closed(s, net) && BehindUs(visited, current.id, id)
    requires current.id in s && Visited(visited) <= s && |Visited(visited)| == hop
    requires maxHops >= |s|
    ensures var r := LookupFrom(net, id, current, hop, visited, maxHops);
            && r != Failed(MaxHopsExceeded) && r != Failed(LoopDetected)
            && (r.Resolved? ==> r.hops < |s| && r.answerer.id in s)
    decreases |s| - hop
  {
    assert current.id !in Visited(visited);
    var asked := Visited(visited) + {current.id};
    SubsetCard(asked, s);
    assert |asked| == hop + 1;
    AskProgress(net, hop, current.id, id, maxHops, visited);
    var reply := Ask(net, hop, current.id, Request(id, hop, maxHops, visited));
    if reply.NextHop? {
      assert Visited(visited + [current.id]) == asked;
      var r := net.router(hop, current.id).value;
      ClosestIsCandidate(r, id);
      CollectMeaning(r.self.id, id, r.fingers, r.list);
      assert reply.next.id !in asked;
      SubsetCard(asked + {reply.next.id}, s);
      EndsWithinMembers(s, net, id, reply.next, hop + 1, visited + [current.id], maxHops);
    }
  }

  // ----- correctness on an ideal ring -----

  /** The fallback that answers with the successor although the id is not in its arc is unreachable as
      long as the successor is in the successor list. */
  lemma FallbackUnreachable(r: Router, id: int)
    requires ValidId(id) && ValidId(r.self.id) && ValidId(r.succ.id)
    requires r.succ.id in Ids(r.list) && !AnswersLocally(r, id)
    ensures Closest(r, id).id != r.self.id
    ensures InRangeOpenOpen(Closest(r, id).id, r.self.id, id)
  {
    var n :| n in r.list && n.id == r.succ.id;
    CollectMeaning(r.self.id, id, r.fingers, r.list);
    ClosestIsCandidate(r, id);
  }

  lemma {:induction false} NoFingerMissed(self: int, target: int, fingers: seq<Finger>, upTo: nat, out: seq<NodeInfo>)
    requires upTo <= |fingers|
    ensures FingerCandidates(self, target, fingers, upTo, false, out) == [] ==>
              out == [] && forall i :: 0 <= i < upTo ==> !Eligible(self, target, [], fingers[i].node)
    decreases upTo
  {
    if upTo > 0 {
      var n := fingers[upTo - 1].node;
      NoFingerMissed(self, target, fingers, upTo - 1, if Eligible(self, target, out, n) then out + [n] else out);
    }
  }

  /** Outside its successor arc a node falls back exactly when neither a finger of any status nor a list
      entry names another node strictly before the id. */
  lemma FallbackIff(r: Router, id: int)
    requires ValidId(r.self.id)
    ensures Closest(r, id).id == r.self.id <==>
              && (forall n :: n in r.list ==> !Eligible(r.self.id, id, [], n))
              && (forall i :: 0 <= i < |r.fingers| ==> !Eligible(r.self.id, id, [], r.fingers[i].node))
  {
    CollectMeaning(r.self.id, id, r.fingers, r.list);
    ClosestIsCandidate(r, id);
    var candidates := Collect(r.self.id, id, r.fingers, r.list);
    if candidates == [] {
      NoFingerMissed(r.self.id, id, r.fingers, |r.fingers|, []);
      CollectNeverShrinks(r.self.id, id, r.fingers, r.list);
    } else {
      var c := candidates[0];
      assert c in candidates && Eligible(r.self.id, id, [], c);
    }
  }

  /** Among members a fallback answer is always wrong: the node itself comes before its successor. */
  lemma FallbackIsWrong(s: set<int>, r: Router, id: int)
    requires Members(s) && ValidId(id) && r.self.id in s && r.succ.id in s && !AnswersLocally(r, id)
    ensures !IsFirstAt(s, id, r.succ.id)
  {
    assert Offset(id, r.self.id) < Offset(id, r.succ.id);
  }

  /** With the right successor, an answer is right if and only if it is no fallback. */
  lemma AnswerRightIffLocal(s: set<int>, r: Router, req: Request)
    requires Members(s) && ValidId(req.id) && IsNext(s, r.self.id, r.succ.id) && Route(r, req).Found?
    ensures IsFirstAt(s, req.id, Route(r, req).succ.id) <==> AnswersLocally(r, req.id)
  {
    if AnswersLocally(r, req.id) {
      assert InRangeOpenClosed(req.id, r.self.id, r.succ.id);
      ArcOwnerAnswers(s, r.self.id, r.succ.id, req.id);
    } else {
      FallbackIsWrong(s, r, req.id);
    }
  }

  lemma CollectNeverShrinks(self: int, target: int, fingers: seq<Finger>, list: seq<NodeInfo>)
    ensures Collect(self, target, fingers, list) == [] ==> FingerCandidates(self, target, fingers, |fingers|, false, []) == []
  {
    FingerCandidatesBetween(self, target, fingers, |fingers|, true, []);
    FingerCandidatesBetween(self, target, fingers, |fingers|, false, []);
    var trusted := FingerCandidates(self, target, fingers, |fingers|, true, []);
    var found := if trusted == [] then FingerCandidates(self, target, fingers, |fingers|, false, []) else trusted;
    ListCandidatesBetween(self, target, list, |list|, found);
  }

  /** Every hit in any cache is a right answer. */
  ghost predicate HitsRight(s: set<int>, net: Network, id: int)
    requires Members(s) && ValidId(id)
  {
    forall h: nat, n :: n in s && net.hit(h, n).Some? ==> IsFirstAt(s, id, net.hit(h, n).value.id)
  }

  /** On an ideal ring one step answers from the arc that contains the id, or sends the lookup on to a
      member nearer to it. */
  lemma IdealStep(s: set<int>, r: Router, req: Request)
    requires Members(s) && ValidId(req.id) && IdealRouter(s, r) && r.self.id !in req.visited
    ensures match Route(r, req)
            case Found(succ, cached) =>
              succ == r.succ && !cached && InRangeOpenClosed(req.id, r.self.id, succ.id) && IsFirstAt(s, req.id, succ.id)
            case NextHop(next) => next.id in s && InRangeOpenOpen(next.id, r.self.id, req.id)
            case Refused(_) => false
  {
    if AnswersLocally(r, req.id) {
      assert InRangeOpenClosed(req.id, r.self.id, r.succ.id);
      ArcOwnerAnswers(s, r.self.id, r.succ.id, req.id);
    } else {
      FallbackUnreachable(r, req.id);
      ClosestIsCandidate(r, req.id);
      CollectMeaning(r.self.id, req.id, r.fingers, r.list);
    }
  }

  /** On an ideal ring, with stale, suspicious or invalid fingers and any weights, the lookup of any id
      returns the first member at or after it, within as many queries as there are members.  An answer
      that did not come from a cache came from the member that precedes it. */
  lemma {:induction false} LookupCorrect(s: set<int>, net: Network, id: int, current: NodeInfo, hop: nat,
                                         visited: seq<int>, maxHops: nat)
    requires Members(s) && ValidId(id) && IdealNetwork(s, net) && HitsRight(s, net, id)
    requires current.id in s && Visited(visited) <= s && |Visited(visited)| == hop
    requires BehindUs(visited, current.id, id) && maxHops >= |s|
    ensures var r := LookupFrom(net, id, current, hop, visited, maxHops);
            && r.Resolved? && IsFirstAt(s, id, r.node.id) && r.hops < |s|
            && (!r.cached ==> IsNext(s, r.answerer.id, r.node.id)
                              && InRangeOpenClosed(id, r.answerer.id, r.node.id))
    decreases |s| - hop
  {
    assert current.id !in Visited(visited);
    var asked := Visited(visited) + {current.id};
    SubsetCard(asked, s);
    assert |asked| == hop + 1;
    var req := Request(id, hop, maxHops, visited);
    assert net.router(hop, current.id).Some?;
    var r := net.router(hop, current.id).value;
    if net.hit(hop, current.id).None? {
      IdealStep(s, r, req);
      assert Ask(net, hop, current.id, req) == Route(r, req);
      if Route(r, req).NextHop? {
        var next := Route(r, req).next;
        HopsProgress(current.id, next.id, id);
        assert Visited(visited + [current.id]) == asked;
        assert next.id !in asked;
        SubsetCard(asked + {next.id}, s);
        LookupCorrect(s, net, id, next, hop + 1, visited + [current.id], maxHops);
      }
    }
  }

  // ----- the hop bound -----

  ghost predicate ExactFingers(s: set<int>, r: Router)
    requires Members(s) && ValidId(r.self.id)
  {
    && |r.fingers| == BITS
    && forall i :: 0 <= i < BITS ==>
         && r.fingers[i].valid && r.fingers[i].status != Suspicious
         && IsFirstAt(s, StartOf(r.self.id, i), r.fingers[i].node.id)
  }

  /** The score depends on the id only: weights for latency and region are off, or the id weight is 0,
      which the code turns into the same thing. */
  predicate PureId(w: Weights) {
    w.id == 0.0 || (w.id > 0.0 && w.rtt <= 0.0 && w.region <= 0.0)
  }

  lemma ScaledOrder(w: real, x: real, y: real)
    requires w > 0.0 && x >= y
    ensures w * (1.0 - x) <= w * (1.0 - y)
  {
    assert w * (1.0 - y) - w * (1.0 - x) == w * (x - y);
  }

  lemma IdScoreOrder(w: real, x: nat, y: nat)
    requires w > 0.0
    ensures x >= y ==> IdScore(w, x) <= IdScore(w, y)
    ensures x <= BITS ==> IdScore(w, x) >= 0.0
  {
    if x >= y {
      ScaledOrder(w, x as real / 161.0, y as real / 161.0);
    }
    if x <= BITS {
      ScaledOrder(w, 1.0, x as real / 161.0);
    }
  }

  /** A strictly better pure-id score means strictly fewer bits of distance. */
  lemma PureScore(r: Router, t: int, c: NodeInfo, d: NodeInfo)
    requires PureId(r.weights) && ValidId(t) && ValidId(c.id) && ValidId(d.id)
    ensures Score(r, t, c) > Score(r, t, d) ==> BitLen(Offset(c.id, t)) < BitLen(Offset(d.id, t))
    ensures Score(r, t, c) >= 0.0
  {
    WithinRing(Offset(c.id, t), 0);
    IdScoreOrder(EffectiveWeights(r).id, BitLen(Offset(c.id, t)), BitLen(Offset(d.id, t)));
  }

  /** With the highest eligible finger known, it is the first candidate. */
  lemma {:induction false} FirstCandidate(self: int, t: int, fingers: seq<Finger>, upTo: nat, k: nat)
    requires k < upTo <= |fingers|
    requires Usable(fingers[k], true) && Eligible(self, t, [], fingers[k].node)
    requires forall j :: k < j < upTo ==> !InRangeOpenOpen(fingers[j].node.id, self, t)
    ensures var r := FingerCandidates(self, t, fingers, upTo, true, []);
            r != [] && r[0] == fingers[k].node
  {
    if upTo == k + 1 {
      var one := [fingers[k].node];
      assert [] + one == one;
      assert AllBetween(self, t, one);
      FingerCandidatesBetween(self, t, fingers, k, true, one);
    } else {
      FirstCandidate(self, t, fingers, upTo - 1, k);
    }
  }

  /** Standing at n, with p the member whose arc holds t: no member beyond p lies before t. */
  lemma NotBeyond(s: set<int>, n: int, p: int, q: int, t: int, x: int)
    requires Members(s) && IsNext(s, p, q) && InRangeOpenClosed(t, p, q) && n in s && n != p && x in s
    requires ValidId(t) && InRangeOpenOpen(x, n, t)
    ensures 0 < Offset(n, x) <= Offset(n, p)
    ensures Offset(x, t) == Offset(x, p) + Offset(p, t) && Offset(x, p) == Offset(n, p) - Offset(n, x)
    ensures InRangeOpenOpen(p, n, t)
  {
    assert !InRangeOpenOpen(n, p, q) && !InRangeOpenOpen(x, p, q);
  }

  lemma ArcEnd(s: set<int>, n: int, p: int, q: int, t: int)
    requires Members(s) && IsNext(s, p, q) && InRangeOpenClosed(t, p, q) && n in s && n != p && ValidId(t)
    ensures InRangeOpenOpen(p, n, t)
  {
    assert !InRangeOpenOpen(n, p, q);
  }

  /** Where finger k of node n starts (HexId.FingerStartExact states the same of the texts). */
  function StartOf(n: int, k: nat): (start: int)
    requires ValidId(n) && k < BITS
    ensures ValidId(start) && Offset(n, start) == Pow(2, k)
  {
    WithinRing(0, k);
    Advance(n, Pow(2, k))
  }

  /** Finger k of n reaches at least 2^k and does not overshoot p. */
  lemma FingerReaches(s: set<int>, n: int, p: int, f: int, k: nat)
    requires Members(s) && n in s && p in s && k < BITS && Pow(2, k) <= Offset(n, p)
    requires IsFirstAt(s, StartOf(n, k), f)
    ensures f in s && Pow(2, k) <= Offset(n, f) <= Offset(n, p)
  {
    var start := StartOf(n, k);
    assert Offset(start, f) <= Offset(start, p);
    OffsetsAdd(n, start, p);
    OffsetsAdd(n, start, f);
  }

  /** A finger that starts beyond p comes to nothing between n and p: n itself would come first. */
  lemma FingerBeyond(s: set<int>, n: int, p: int, x: int, j: nat)
    requires Members(s) && n in s && j < BITS && ValidId(p) && Offset(n, p) < Pow(2, j)
    requires IsFirstAt(s, StartOf(n, j), x)
    ensures !(0 < Offset(n, x) <= Offset(n, p))
  {
    var start := StartOf(n, j);
    assert Offset(start, x) <= Offset(start, n);
    OffsetsAdd(n, start, x);
    OffsetsAdd(n, start, n);
  }

  /** Node n stands before p, the member whose arc (p, q] holds the target t. */
  ghost predicate Before(s: set<int>, n: int, p: int, q: int, t: int) {
    Members(s) && ValidId(t) && IsNext(s, p, q) && InRangeOpenClosed(t, p, q) && n in s && n != p
  }

  lemma NearFinger(s: set<int>, r: Router, p: int, q: int, t: int, k: nat)
    requires Before(s, r.self.id, p, q, t) && ExactFingers(s, r)
    requires k < BITS && Pow(2, k) <= Offset(r.self.id, p)
    ensures Usable(r.fingers[k], true) && Eligible(r.self.id, t, [], r.fingers[k].node)
    ensures r.fingers[k].node.id in s && Pow(2, k) <= Offset(r.self.id, r.fingers[k].node.id)
  {
    var n, f := r.self.id, r.fingers[k].node.id;
    assert IsFirstAt(s, StartOf(n, k), f);
    FingerReaches(s, n, p, f, k);
    PowBound(0, k);
    ArcEnd(s, n, p, q, t);
  }

  lemma FarFinger(s: set<int>, r: Router, p: int, q: int, t: int, j: nat)
    requires Before(s, r.self.id, p, q, t) && ExactFingers(s, r)
    requires j < BITS && Offset(r.self.id, p) < Pow(2, j)
    ensures !InRangeOpenOpen(r.fingers[j].node.id, r.self.id, t)
  {
    var n, f := r.self.id, r.fingers[j].node.id;
    assert IsFirstAt(s, StartOf(n, j), f);
    FingerBeyond(s, n, p, f, j);
    if InRangeOpenOpen(f, n, t) {
      NotBeyond(s, n, p, q, t, f);
    }
  }

  /** The first candidate is a finger that covers at least half of the way to p. */
  lemma FirstCandidateReaches(s: set<int>, r: Router, p: int, q: int, t: int, k: nat)
    requires Before(s, r.self.id, p, q, t) && ExactFingers(s, r)
    requires k < BITS && Pow(2, k) <= Offset(r.self.id, p) < Pow(2, k + 1)
    ensures var candidates := Collect(r.self.id, t, r.fingers, r.list);
            candidates != [] && candidates[0].id in s && Pow(2, k) <= Offset(r.self.id, candidates[0].id)
  {
    NearFinger(s, r, p, q, t, k);
    forall j | k < j < BITS ensures !InRangeOpenOpen(r.fingers[j].node.id, r.self.id, t) {
      PowBound(k + 1, j);
      FarFinger(s, r, p, q, t, j);
    }
    FirstCandidate(r.self.id, t, r.fingers, BITS, k);
    FirstFingerFirst(r, t);
  }

  lemma FirstFingerFirst(r: Router, t: int)
    requires FingerCandidates(r.self.id, t, r.fingers, |r.fingers|, true, []) != []
    ensures var candidates := Collect(r.self.id, t, r.fingers, r.list);
            candidates != [] && candidates[0] == FingerCandidates(r.self.id, t, r.fingers, |r.fingers|, true, [])[0]
  {
    FingerCandidatesBetween(r.self.id, t, r.fingers, |r.fingers|, true, []);
    ListCandidatesBetween(r.self.id, t, r.list, |r.list|,
                          FingerCandidates(r.self.id, t, r.fingers, |r.fingers|, true, []));
  }

  /** The choice is the first candidate or strictly closer to the target. */
  lemma ChoiceNotWorse(r: Router, t: int)
    requires ValidId(t) && PureId(r.weights) && Collect(r.self.id, t, r.fingers, r.list) != []
    ensures var c, f := Closest(r, t), Collect(r.self.id, t, r.fingers, r.list)[0];
            ValidId(c.id) && ValidId(f.id) && Offset(c.id, t) <= Offset(f.id, t)
  {
    var candidates := Collect(r.self.id, t, r.fingers, r.list);
    CollectMeaning(r.self.id, t, r.fingers, r.list);
    BetweenIsValid(r.self.id, t, candidates);
    var c, f := Closest(r, t), candidates[0];
    ClosestIsCandidate(r, t);
    if c != f {
      PureScore(r, t, f, c);
      CloserScore(r, t, candidates, c);
      PureScore(r, t, c, f);
      if Offset(c.id, t) > Offset(f.id, t) {
        BitLenMonotone(Offset(f.id, t), Offset(c.id, t));
      }
    }
  }

  /** A choice c no farther from t than f, where f covers 2^k of the way to p, has less than 2^k left. */
  lemma CloserIsNearer(s: set<int>, n: int, p: int, q: int, t: int, c: int, f: int, k: nat)
    requires Before(s, n, p, q, t) && c in s && f in s
    requires InRangeOpenOpen(c, n, t) && InRangeOpenOpen(f, n, t) && Offset(c, t) <= Offset(f, t)
    requires Pow(2, k) <= Offset(n, f) && Offset(n, p) < Pow(2, k + 1)
    ensures Offset(c, p) < Pow(2, k)
  {
    NotBeyond(s, n, p, q, t, c);
    NotBeyond(s, n, p, q, t, f);
  }

  lemma TopBit(e: nat) returns (k: nat)
    requires 0 < e < M
    ensures k < BITS && BitLen(e) == k + 1 && Pow(2, k) <= e < Pow(2, k + 1)
  {
    WithinRing(e, 0);
    BitLenBound(e, 0);
    k := BitLen(e) - 1;
    BitLenBound(e, k);
    BitLenBound(e, k + 1);
  }

  /** One forward strictly shortens the bit length of the distance to the target's predecessor. */
  lemma HopHalves(s: set<int>, r: Router, p: int, q: int, t: int)
    requires Before(s, r.self.id, p, q, t) && IdealRouter(s, r) && ExactFingers(s, r) && PureId(r.weights)
    ensures var c := Closest(r, t);
            && c.id in s && c.id != r.self.id
            && BitLen(Offset(c.id, p)) < BitLen(Offset(r.self.id, p))
  {
    var k := TopBit(Offset(r.self.id, p));
    FirstCandidateReaches(s, r, p, q, t, k);
    ChoiceNotWorse(r, t);
    var candidates := Collect(r.self.id, t, r.fingers, r.list);
    CollectMeaning(r.self.id, t, r.fingers, r.list);
    var c, f := Closest(r, t).id, candidates[0].id;
    ClosestIsCandidate(r, t);
    assert candidates[0] in candidates;
    CloserIsNearer(s, r.self.id, p, q, t, c, f, k);
    BitLenBound(Offset(c, p), k);
  }

  lemma CloserScore(r: Router, t: int, candidates: seq<NodeInfo>, c: NodeInfo)
    requires ValidId(t) && AllValid(candidates) && candidates != [] && Score(r, t, candidates[0]) > -1.0
    requires c == Best(r, t, candidates, 0, candidates[0], -1.0) && c != candidates[0]
    ensures ValidId(c.id) && Score(r, t, c) > Score(r, t, candidates[0])
  {
    BestMeaning(r, t, candidates, 0, candidates[0], -1.0);
  }

  ghost predicate FastRouter(s: set<int>, r: Router)
    requires Members(s)
  {
    IdealRouter(s, r) && ExactFingers(s, r) && PureId(r.weights)
  }

  ghost predicate FastNetwork(s: set<int>, net: Network)
    requires Members(s)
  {
    forall h: nat, n :: n in s ==>
      && net.router(h, n).Some? && net.router(h, n).value.self.id == n
      && FastRouter(s, net.router(h, n).value)
      && net.hit(h, n).None?
  }

  lemma LocalAnswer(s: set<int>, r: Router, p: int, q: int, t: int)
    requires Members(s) && ValidId(t) && IsNext(s, p, q) && InRangeOpenClosed(t, p, q)
    requires IdealRouter(s, r)
    ensures AnswersLocally(r, t) ==> r.succ.id == q
    ensures !AnswersLocally(r, t) ==> r.self.id != p
  {
    if AnswersLocally(r, t) {
      ArcOwnerAnswers(s, r.self.id, r.succ.id, t);
      ArcOwnerAnswers(s, p, q, t);
      FirstIsUnique(s, t, r.succ.id, q);
    }
  }

  /** The reply of node n is q, or sends the lookup on with fewer bits to go. */
  ghost predicate Advances(s: set<int>, n: int, p: int, q: int, id: int, reply: Reply)
    requires ValidId(n) && ValidId(p)
  {
    match reply
    case Found(succ, _) => succ.id == q
    case NextHop(next) =>
      next.id in s && InRangeOpenOpen(next.id, n, id) && BitLen(Offset(next.id, p)) < BitLen(Offset(n, p))
    case Refused(_) => false
  }

  lemma ForwardReply(r: Router, req: Request)
    requires r.status == Active && r.self.id !in req.visited && !AnswersLocally(r, req.id)
    requires Closest(r, req.id).id != r.self.id
    ensures Route(r, req) == NextHop(Closest(r, req.id))
  {
  }

  lemma FastForward(s: set<int>, r: Router, p: int, q: int, req: Request)
    requires Members(s) && FastRouter(s, r) && IsNext(s, p, q) && InRangeOpenClosed(req.id, p, q)
    requires r.self.id !in req.visited && !AnswersLocally(r, req.id) && r.self.id != p
    ensures Advances(s, r.self.id, p, q, req.id, Route(r, req))
  {
    FallbackUnreachable(r, req.id);
    ForwardReply(r, req);
    HopHalves(s, r, p, q, req.id);
  }

  lemma FastStep(s: set<int>, r: Router, p: int, q: int, req: Request)
    requires Members(s) && FastRouter(s, r) && IsNext(s, p, q) && InRangeOpenClosed(req.id, p, q)
    requires BehindUs(req.visited, r.self.id, req.id)
    ensures Advances(s, r.self.id, p, q, req.id, Route(r, req))
  {
    LocalAnswer(s, r, p, q, req.id);
    if AnswersLocally(r, req.id) {
      assert Route(r, req) == Found(r.succ, false);
    } else {
      FastForward(s, r, p, q, req);
    }
  }

  lemma FastAsk(s: set<int>, net: Network, id: int, p: int, q: int, n: int, hop: nat, visited: seq<int>, maxHops: nat)
    requires Members(s) && FastNetwork(s, net) && IsNext(s, p, q) && InRangeOpenClosed(id, p, q)
    requires n in s && BehindUs(visited, n, id) && hop < maxHops
    ensures Advances(s, n, p, q, id, Ask(net, hop, n, Request(id, hop, maxHops, visited)))
  {
    assert net.router(hop, n).Some?;
    FastStep(s, net.router(hop, n).value, p, q, Request(id, hop, maxHops, visited));
  }

  /** With exact fingers and a pure-id score the default limit of 161 queries is enough for any ring:
      the lookup succeeds and MAX_HOPS_EXCEEDED is never returned. */
  lemma HopBound(s: set<int>, net: Network, id: int, self: NodeInfo)
    requires Members(s) && ValidId(id) && FastNetwork(s, net) && self.id in s
    ensures var r := LookupFrom(net, id, self, 0, [], DEFAULT_MAX_HOPS);
            r.Resolved? && IsFirstAt(s, id, r.node.id) && r.hops <= BITS
  {
    var p := ArcOwnerExists(s, id);
    assert net.router(0, p).Some? && FastRouter(s, net.router(0, p).value);
    var q := net.router(0, p).value.succ.id;
    ArcOwnerAnswers(s, p, q, id);
    WithinRing(Offset(self.id, p), 0);
    var current, hop: nat, visited: seq<int> := self, 0, [];
    while true
      invariant LookupFrom(net, id, self, 0, [], DEFAULT_MAX_HOPS)
             == LookupFrom(net, id, current, hop, visited, DEFAULT_MAX_HOPS)
      invariant current.id in s && BehindUs(visited, current.id, id)
      invariant hop + BitLen(Offset(current.id, p)) <= BITS
      decreases BITS - hop
    {
      FastAsk(s, net, id, p, q, current.id, hop, visited, DEFAULT_MAX_HOPS);
      var reply := Ask(net, hop, current.id, Request(id, hop, DEFAULT_MAX_HOPS, visited));
      if reply.Found? {
        FirstIsUnique(s, id, q, reply.succ.id);
        return;
      }
      HopsProgress(current.id, reply.next.id, id);
      current, hop, visited := reply.next, hop + 1, visited + [current.id];
    }
  }
}
