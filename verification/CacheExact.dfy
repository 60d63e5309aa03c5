/** On an ideal ring the caches never change an answer, whoever shares them and in whatever order they
    are filled, cleaned and invalidated.
 */
module CacheExact {
  import opened Ring
  import opened Sets
  import opened Wrappers
  import opened NodeLists
  import opened NodeSpec
  import opened Lookup
  import opened IdealRing
  import opened LookupTheorems
  import opened FindSuccessor
  import CacheSpec

  /** What happens to a cache.  The cache is free for others between the calls of one lookup: the Get with
      which a handler or a caller starts is a call of its own, and so is the Put that may follow. */
  datatype Event =
    | Fetch(id: int, now: int, hit: Option<NodeInfo>)
    | Serve(r: Router, req: Request, later: int)
    | Keep(net: Network, self: NodeInfo, id: int, maxHops: nat, later: int, result: Result)
    | Clean(now: int)
    | Invalidate

  /** One call on cache number `c`, which any member, and several of them, may be using. */
  datatype Call = Call(c: nat, event: Event)

  /** A hit some network query reported was given by some cache at some earlier moment. */
  ghost predicate HitGiven(history: seq<seq<Lines>>, ttl: int, id: int, hit: NodeInfo) {
    exists j, c, now, s' :: 0 <= j < |history| && 0 <= c < |history[j]|
                            && CacheSpec.GetResult(history[j][c], id, now, ttl, s', Some(hit))
  }

  ghost predicate HitsGiven(history: seq<seq<Lines>>, ttl: int, net: Network, id: int) {
    forall h: nat, n :: net.hit(h, n).Some? ==> HitGiven(history, ttl, id, net.hit(h, n).value)
  }

  ghost predicate Occurs(s: set<int>, history: seq<seq<Lines>>, lines: Lines, e: Event, lines': Lines, capacity: nat, ttl: int) {
    match e
    case Fetch(id, now, hit) => ValidId(id) && CacheSpec.GetResult(lines, id, now, ttl, lines', hit)
    case Serve(r, req, later) => IdealRouter(s, r) && ValidId(req.id) && Served(r, lines, capacity, req, later, lines')
    case Keep(net, self, id, maxHops, later, result) =>
      && ValidId(id) && self.id in s && maxHops >= |s| && IdealNetwork(s, net) && HitsGiven(history, ttl, net, id)
      && result == LookupFrom(net, id, self, 0, [], maxHops) && Stored(lines, capacity, id, result, later, lines')
    case Clean(now) => lines' == CacheSpec.Unexpired(lines, now, ttl)
    case Invalidate => lines' == []
  }

  /** What the call answers, if it answers: a hit, the handler's reply from its tables, the lookup's result. */
  function Answered(e: Event): Option<NodeInfo> {
    match e
    case Fetch(_, _, hit) => hit
    case Serve(r, req, _) => if Route(r, req).Found? then Some(Route(r, req).succ) else None
    case Keep(_, _, _, _, _, result) => if result.Resolved? then Some(result.node) else None
    case _ => None
  }

  function AskedFor(e: Event): int {
    match e
    case Fetch(id, _, _) => id
    case Serve(_, req, _) => req.id
    case Keep(_, _, id, _, _, _) => id
    case _ => EMPTY
  }

  /** A run over several caches, all empty at first. */
  ghost predicate IsRun(s: set<int>, calls: seq<Call>, states: seq<seq<Lines>>, capacity: nat, ttl: int) {
    && |states| == |calls| + 1 && (forall c :: 0 <= c < |states[0]| ==> states[0][c] == [])
    && forall i :: 0 <= i < |calls| ==>
         && calls[i].c < |states[i]| == |states[i + 1]|
         && Occurs(s, states[..i + 1], states[i][calls[i].c], calls[i].event, states[i + 1][calls[i].c], capacity, ttl)
         && forall c :: 0 <= c < |states[i]| && c != calls[i].c ==> states[i + 1][c] == states[i][c]
  }

  /** The line is an arc of the ring, and its target lies in that arc. */
  ghost predicate RingLine(s: set<int>, l: CacheSpec.Line) {
    IsNext(s, l.pred, l.succ.id) && InRangeOpenClosed(l.target, l.pred, l.succ.id)
  }

  ghost predicate RingLines(s: set<int>, lines: Lines) {
    forall i :: 0 <= i < |lines| ==> RingLine(s, lines[i])
  }

  /** Hits on such lines are right answers, exact hits and interval hits alike, whichever covering line
      is picked. */
  lemma HitIsRight(s: set<int>, lines: Lines, id: int, now: int, ttl: int, lines': Lines, hit: Option<NodeInfo>)
    requires Members(s) && ValidId(id) && RingLines(s, lines)
    requires CacheSpec.GetResult(lines, id, now, ttl, lines', hit)
    ensures RingLines(s, lines')
    ensures hit.Some? ==> IsFirstAt(s, id, hit.value.id)
  {
    if hit.Some? {
      var i :| 0 <= i < |lines| && lines' == CacheSpec.Fronted(lines, i) && hit == Some(lines[i].succ)
               && (lines[i].target == id || CacheSpec.Covers(lines[i], id));
      assert RingLine(s, lines[i]);
      ArcOwnerAnswers(s, lines[i].pred, lines[i].succ.id, id);
    }
  }

  lemma PutKeepsRingLines(s: set<int>, lines: Lines, capacity: nat, l: CacheSpec.Line, lines': Lines)
    requires RingLines(s, lines) && RingLine(s, l) && CacheSpec.PutResult(lines, capacity, l, lines')
    ensures RingLines(s, lines')
  {
  }

  lemma {:induction false} UnexpiredKeepsRingLines(s: set<int>, lines: Lines, now: int, ttl: int)
    requires RingLines(s, lines)
    ensures RingLines(s, CacheSpec.Unexpired(lines, now, ttl))
  {
    if lines != [] {
      UnexpiredKeepsRingLines(s, lines[..|lines| - 1], now, ttl);
    }
  }

  /** What the handler stores is its own arc; on a ring of one member that is the full circle. */
  lemma ServedExact(s: set<int>, r: Router, lines: Lines, capacity: nat, req: Request, later: int, lines': Lines)
    requires Members(s) && RingLines(s, lines) && IdealRouter(s, r) && ValidId(req.id)
    requires Served(r, lines, capacity, req, later, lines')
    ensures RingLines(s, lines') && (Route(r, req).Found? ==> IsFirstAt(s, req.id, Route(r, req).succ.id))
  {
    RouteExact(s, r, req);
    if StoresAnswer(r, req) {
      PutKeepsRingLines(s, lines, capacity, CacheSpec.Line(req.id, r.self.id, r.succ, later), lines');
    }
  }

  /** The same for the whole handler. */
  lemma HandledExact(s: set<int>, r: Router, lines: Lines, capacity: nat, ttl: int, req: Request, now: int, later: int,
                     lines': Lines, reply: Reply)
    requires Members(s) && RingLines(s, lines) && IdealRouter(s, r)
    requires Handled(r, lines, capacity, ttl, req, now, later, lines', reply)
    ensures RingLines(s, lines') && (reply.Found? ==> ValidId(req.id) && IsFirstAt(s, req.id, reply.succ.id))
  {
    if RequestError(r, req).None? {
      var mid, hit :| CacheSpec.GetResult(lines, req.id, now, ttl, mid, hit)
                      && AfterGet(r, mid, capacity, req, hit, later, lines', reply);
      HitIsRight(s, lines, req.id, now, ttl, mid, hit);
      if hit.None? {
        ServedExact(s, r, mid, capacity, req, later, lines');
      }
    }
  }

  lemma RouteExact(s: set<int>, r: Router, req: Request)
    requires Members(s) && IdealRouter(s, r) && ValidId(req.id)
    ensures Route(r, req).Found? ==> IsFirstAt(s, req.id, Route(r, req).succ.id)
    ensures StoresAnswer(r, req) ==> InRangeOpenClosed(req.id, r.self.id, r.succ.id)
  {
    if AnswersLocally(r, req.id) {
      assert InRangeOpenClosed(req.id, r.self.id, r.succ.id);
      ArcOwnerAnswers(s, r.self.id, r.succ.id, req.id);
    } else {
      FallbackUnreachable(r, req.id);
    }
  }

  ghost predicate HistoryExact(s: set<int>, history: seq<seq<Lines>>) {
    forall j, c :: 0 <= j < |history| && 0 <= c < |history[j]| ==> RingLines(s, history[j][c])
  }

  lemma HitsGivenAreRight(s: set<int>, history: seq<seq<Lines>>, ttl: int, net: Network, id: int)
    requires Members(s) && ValidId(id) && HistoryExact(s, history) && HitsGiven(history, ttl, net, id)
    ensures HitsRight(s, net, id)
  {
    forall h: nat, n | n in s && net.hit(h, n).Some? ensures IsFirstAt(s, id, net.hit(h, n).value.id) {
      var hit := net.hit(h, n).value;
      assert HitGiven(history, ttl, id, hit);
      var j, c, now, lines' :| 0 <= j < |history| && 0 <= c < |history[j]|
                               && CacheSpec.GetResult(history[j][c], id, now, ttl, lines', Some(hit));
      HitIsRight(s, history[j][c], id, now, ttl, lines', Some(hit));
    }
  }

  /** What a lookup brings back from the network is right, and what it stores is an arc. */
  lemma KeptExact(s: set<int>, lines: Lines, capacity: nat, net: Network, self: NodeInfo, id: int, maxHops: nat,
                  later: int, result: Result, lines': Lines)
    requires Members(s) && RingLines(s, lines) && ValidId(id) && self.id in s && maxHops >= |s|
    requires IdealNetwork(s, net) && HitsRight(s, net, id) && result == LookupFrom(net, id, self, 0, [], maxHops)
    requires Stored(lines, capacity, id, result, later, lines')
    ensures RingLines(s, lines') && result.Resolved? && IsFirstAt(s, id, result.node.id)
  {
    assert Visited([]) == {};
    LookupCorrect(s, net, id, self, 0, [], maxHops);
    if !result.cached {
      PutKeepsRingLines(s, lines, capacity, CacheSpec.Line(id, result.answerer.id, result.node, later), lines');
    }
  }

  lemma OccursExact(s: set<int>, history: seq<seq<Lines>>, lines: Lines, e: Event, lines': Lines, capacity: nat, ttl: int)
    requires Members(s) && RingLines(s, lines) && HistoryExact(s, history)
    requires Occurs(s, history, lines, e, lines', capacity, ttl)
    ensures RingLines(s, lines')
    ensures Answered(e).Some? ==> ValidId(AskedFor(e)) && IsFirstAt(s, AskedFor(e), Answered(e).value.id)
    ensures e.Keep? ==> Answered(e).Some?
  {
    match e
    case Fetch(id, now, hit) => HitIsRight(s, lines, id, now, ttl, lines', hit);
    case Serve(r, req, later) => ServedExact(s, r, lines, capacity, req, later, lines');
    case Keep(net, self, id, maxHops, later, result) =>
      HitsGivenAreRight(s, history, ttl, net, id);
      KeptExact(s, lines, capacity, net, self, id, maxHops, later, result, lines');
    case Clean(now) => UnexpiredKeepsRingLines(s, lines, now, ttl);
    case Invalidate =>
  }

  ghost predicate AllRingLines(s: set<int>, caches: seq<Lines>) {
    forall c :: 0 <= c < |caches| ==> RingLines(s, caches[c])
  }

  lemma CallExact(s: set<int>, calls: seq<Call>, states: seq<seq<Lines>>, capacity: nat, ttl: int, k: nat)
    requires Members(s) && IsRun(s, calls, states, capacity, ttl) && k < |calls|
    requires HistoryExact(s, states[..k + 1])
    ensures AllRingLines(s, states[k + 1])
  {
    var history, c := states[..k + 1], calls[k].c;
    assert history[k] == states[k];
    OccursExact(s, history, states[k][c], calls[k].event, states[k + 1][c], capacity, ttl);
    var after := states[k + 1];
    forall d | 0 <= d < |after| ensures RingLines(s, after[d]) {
      assert d != c ==> after[d] == history[k][d];
    }
  }

  lemma HistoryGrows(s: set<int>, history: seq<seq<Lines>>, caches: seq<Lines>)
    requires HistoryExact(s, history) && AllRingLines(s, caches)
    ensures HistoryExact(s, history + [caches])
  {
  }

  /** In every run all cached lines are arcs of the ring. */
  lemma {:induction false} CachesStayExact(s: set<int>, calls: seq<Call>, states: seq<seq<Lines>>, capacity: nat, ttl: int, i: nat)
    requires Members(s) && IsRun(s, calls, states, capacity, ttl) && i <= |calls|
    ensures HistoryExact(s, states[..i + 1])
  {
    if i == 0 {
      assert states[..1] == [] + [states[0]];
      HistoryGrows(s, [], states[0]);
    } else {
      CachesStayExact(s, calls, states, capacity, ttl, i - 1);
      CallExact(s, calls, states, capacity, ttl, i - 1);
      assert states[..i + 1] == states[..i] + [states[i]];
      HistoryGrows(s, states[..i], states[i]);
    }
  }

  /** In every run each answer, from a cache, a handler or the network, is the first member at or after the id
      asked for; with the same question an uncached network, asked anywhere, gives the same one. */
  lemma EveryAnswerIsRight(s: set<int>, calls: seq<Call>, states: seq<seq<Lines>>, capacity: nat, ttl: int, i: nat,
                           plain: Network, self: NodeInfo, maxHops: nat)
    requires Members(s) && IsRun(s, calls, states, capacity, ttl) && i < |calls|
    requires IdealNetwork(s, plain) && (forall h: nat, n :: plain.hit(h, n).None?) && self.id in s && maxHops >= |s|
    ensures calls[i].event.Keep? ==> Answered(calls[i].event).Some?
    ensures Answered(calls[i].event).Some? ==>
              var id, answer := AskedFor(calls[i].event), Answered(calls[i].event).value;
              var uncached := LookupFrom(plain, id, self, 0, [], maxHops);
              ValidId(id) && IsFirstAt(s, id, answer.id) && uncached.Resolved? && uncached.node.id == answer.id
  {
    CachesStayExact(s, calls, states, capacity, ttl, i);
    var e, c := calls[i].event, calls[i].c;
    var history := states[..i + 1];
    assert history[i] == states[i];
    OccursExact(s, history, states[i][c], e, states[i + 1][c], capacity, ttl);
    if Answered(e).Some? {
      assert Visited([]) == {};
      LookupCorrect(s, plain, AskedFor(e), self, 0, [], maxHops);
    }
  }

  // ----- whole calls, with nothing in between -----

  /** The handler is a Fetch and, on a miss, a Serve. */
  lemma HandlerIsCalls(s: set<int>, history: seq<seq<Lines>>, r: Router, lines: Lines, capacity: nat, ttl: int, req: Request,
                       now: int, later: int, lines': Lines, reply: Reply) returns (mid: Lines, hit: Option<NodeInfo>)
    requires IdealRouter(s, r) && RequestError(r, req).None?
    requires Handled(r, lines, capacity, ttl, req, now, later, lines', reply)
    ensures Occurs(s, history, lines, Fetch(req.id, now, hit), mid, capacity, ttl)
    ensures if hit.Some? then lines' == mid && reply == Found(hit.value, true)
            else reply == Route(r, req) && Occurs(s, history, mid, Serve(r, req, later), lines', capacity, ttl)
  {
    mid, hit :| CacheSpec.GetResult(lines, req.id, now, ttl, mid, hit)
                && AfterGet(r, mid, capacity, req, hit, later, lines', reply);
  }

  lemma OwnNetwork(s: set<int>, net: Network, r: Router, hit: Option<NodeInfo>)
    requires IdealNetwork(s, net) && IdealRouter(s, r)
    ensures IdealNetwork(s, WithOwn(net, r, hit))
  {
    var own := WithOwn(net, r, hit);
    forall h: nat, n | n in s
      ensures own.router(h, n).Some? && own.router(h, n).value.self.id == n && IdealRouter(s, own.router(h, n).value)
    {
      assert net.router(h, n).Some?;
    }
  }

  lemma OwnHitsGiven(history: seq<seq<Lines>>, lines: Lines, ttl: int, net: Network, r: Router, id: int, now: int,
                     lines': Lines, hit: Option<NodeInfo>)
    requires HitsGiven(history, ttl, net, id) && CacheSpec.GetResult(lines, id, now, ttl, lines', hit)
    ensures HitsGiven(history + [[lines]], ttl, WithOwn(net, r, hit), id)
  {
    var more, own := history + [[lines]], WithOwn(net, r, hit);
    forall h: nat, n | own.hit(h, n).Some? ensures HitGiven(more, ttl, id, own.hit(h, n).value) {
      if h == 0 && n == r.self.id {
        assert more[|history|][0] == lines;
      } else {
        var j, c, now', s' :| 0 <= j < |history| && 0 <= c < |history[j]|
                              && CacheSpec.GetResult(history[j][c], id, now', ttl, s', Some(net.hit(h, n).value));
        assert more[j] == history[j];
      }
    }
  }

  /** A lookup that misses is the handler's calls on the same cache and a Keep, in a network that answers at
      hop 0 what the own handler answered. */
  lemma LookupIsCalls(s: set<int>, history: seq<seq<Lines>>, r: Router, lines: Lines, capacity: nat, ttl: int, net: Network,
                      id: int, clock: nat -> int, lines': Lines, result: Result)
    returns (mid: Lines, after: Lines, hit: Option<NodeInfo>)
    requires IdealRouter(s, r) && IdealNetwork(s, net) && HitsGiven(history, ttl, net, id)
    requires ValidId(id) && r.maxHops > 0 && r.maxHops >= |s|
    requires AfterLookup(r, lines, capacity, ttl, net, id, None, clock, lines', result)
    ensures Occurs(s, history, lines, Fetch(id, clock(1), hit), mid, capacity, ttl)
    ensures if hit.Some? then after == mid
            else Occurs(s, history, mid, Serve(r, OwnRequest(r, id), clock(2)), after, capacity, ttl)
    ensures Occurs(s, history + [[lines]], after, Keep(WithOwn(net, r, hit), r.self, id, r.maxHops, clock(3), result),
                   lines', capacity, ttl)
  {
    var reply: Reply;
    after, reply :| Handled(r, lines, capacity, ttl, OwnRequest(r, id), clock(1), clock(2), after, reply)
                    && result == Continue(net, r, id, reply) && Stored(after, capacity, id, result, clock(3), lines');
    mid, hit := HandlerIsCalls(s, history, r, lines, capacity, ttl, OwnRequest(r, id), clock(1), clock(2), after, reply);
    OwnHandlerIsHopZero(net, r, id, hit, reply);
    OwnNetwork(s, net, r, hit);
    OwnHitsGiven(history, lines, ttl, net, r, id, clock(1), mid, hit);
  }

  lemma MissedExact(s: set<int>, history: seq<seq<Lines>>, r: Router, first: Lines, capacity: nat, ttl: int, net: Network,
                    id: int, clock: nat -> int, lines': Lines, result: Result)
    requires Members(s) && RingLines(s, first) && HistoryExact(s, history)
    requires IdealRouter(s, r) && r.maxHops >= |s| > 0 && IdealNetwork(s, net) && HitsGiven(history, ttl, net, id) && ValidId(id)
    requires AfterLookup(r, first, capacity, ttl, net, id, None, clock, lines', result)
    ensures RingLines(s, lines') && result.Resolved? && IsFirstAt(s, id, result.node.id)
  {
    var mid, after, hit := LookupIsCalls(s, history, r, first, capacity, ttl, net, id, clock, lines', result);
    OccursExact(s, history, first, Fetch(id, clock(1), hit), mid, capacity, ttl);
    if hit.None? {
      OccursExact(s, history, mid, Serve(r, OwnRequest(r, id), clock(2)), after, capacity, ttl);
    }
    HistoryGrows(s, history, [first]);
    OccursExact(s, history + [[first]], after, Keep(WithOwn(net, r, hit), r.self, id, r.maxHops, clock(3), result),
                lines', capacity, ttl);
  }

  /** A lookup through the caches answers what a lookup without any cache answers, and stores an arc. */
  lemma LookedUpExact(s: set<int>, history: seq<seq<Lines>>, r: Router, lines: Lines, capacity: nat, ttl: int, net: Network,
                      id: int, clock: nat -> int, lines': Lines, result: Result)
    requires Members(s) && RingLines(s, lines) && HistoryExact(s, history)
    requires IdealRouter(s, r) && r.maxHops >= |s| && IdealNetwork(s, net) && HitsGiven(history, ttl, net, id) && ValidId(id)
    requires LookedUp(r, lines, capacity, ttl, net, id, clock, lines', result)
    ensures RingLines(s, lines') && result.Resolved? && IsFirstAt(s, id, result.node.id)
  {
    var first, found :| CacheSpec.GetResult(lines, id, clock(0), ttl, first, found)
                        && AfterLookup(r, first, capacity, ttl, net, id, found, clock, lines', result);
    HitIsRight(s, lines, id, clock(0), ttl, first, found);
    if found.None? {
      assert r.self.id in s;
      MissedExact(s, history, r, first, capacity, ttl, net, id, clock, lines', result);
    }
  }

  /** A join through any member is given the first member at or after the joiner's id as its successor. */
  lemma JoinAnswerIsRight(s: set<int>, history: seq<seq<Lines>>, lines: Lines, capacity: nat, ttl: int, net: Network, r: Router,
                          opts: Options, joiner: NodeInfo, clock: nat -> int, lines': Lines, result: Result,
                          state: int -> Option<seq<NodeInfo>>, list: int -> Option<seq<NodeInfo>>)
    requires Members(s) && RingLines(s, lines) && HistoryExact(s, history) && IdealRouter(s, r) && !JoinRefuses(r, joiner)
    requires r.maxHops >= |s| && IdealNetwork(s, net) && HitsGiven(history, ttl, net, joiner.id)
    requires LookedUp(r, lines, capacity, ttl, net, joiner.id, clock, lines', result)
    ensures var reply := JoinAnswer(r, opts, result, state, list);
            reply.Some? && IsFirstAt(s, joiner.id, reply.value.succ.id)
  {
    LookedUpExact(s, history, r, lines, capacity, ttl, net, joiner.id, clock, lines', result);
  }
}
