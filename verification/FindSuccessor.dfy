/** Lookups with the cache in front: the find_successor handler and the caller's side
    (lookup.go:15-103, 137-142).
 */
module FindSuccessor {
  import opened Ring
  import opened Wrappers
  import opened NodeLists
  import opened NodeSpec
  import opened Lookup
  import CacheSpec
  import RoutingCache

  type Lines = seq<CacheSpec.Line>

  /** The handler stores an answer only when it comes from its own successor arc. */
  predicate StoresAnswer(r: Router, req: Request) {
    r.status != Leaving && r.status != Isolated && r.self.id !in req.visited && AnswersLocally(r, req.id)
  }

  /** The cache is asked first; the tables decide only on a miss. */
  ghost predicate Handled(r: Router, s: Lines, capacity: nat, ttl: int, req: Request, now: int, later: int,
                          s': Lines, reply: Reply)
  {
    if RequestError(r, req).Some? then s' == s && reply == Refused(RequestError(r, req).value)
    else exists mid, hit :: CacheSpec.GetResult(s, req.id, now, ttl, mid, hit)
                            && AfterGet(r, mid, capacity, req, hit, later, s', reply)
  }

  ghost predicate AfterGet(r: Router, mid: Lines, capacity: nat, req: Request, hit: Option<NodeInfo>, later: int,
                           s': Lines, reply: Reply)
  {
    if hit.Some? then s' == mid && reply == Found(hit.value, true)
    else
      reply == Route(r, req) && Served(r, mid, capacity, req, later, s')
  }

  ghost predicate Served(r: Router, mid: Lines, capacity: nat, req: Request, later: int, s': Lines) {
    if StoresAnswer(r, req)
    then CacheSpec.PutResult(mid, capacity, CacheSpec.Line(req.id, r.self.id, r.succ, later), s')
    else s' == mid
  }

  /** What a call may write: nothing when the node has no cache. */
  ghost function Footprint(cache: RoutingCache.Cache?): set<object>
    reads cache
  {
    if cache == null then {} else {cache} + set e: RoutingCache.Entry | e in cache.order
  }

  ghost predicate CacheOk(cache: RoutingCache.Cache?)
    reads cache
  {
    cache != null ==> cache.Valid()
  }

  /** Without a cache the tables decide alone. */
  function HandledPlain(r: Router, req: Request): Reply {
    if RequestError(r, req).Some? then Refused(RequestError(r, req).value) else Route(r, req)
  }

  method HandleFindSuccessor(r: Router, cache: RoutingCache.Cache?, req: Request, now: int, later: int) returns (reply: Reply)
    requires CacheOk(cache)
    modifies Footprint(cache)
    ensures fresh(Footprint(cache) - old(Footprint(cache)))
    ensures CacheOk(cache)
    ensures cache == null ==> reply == HandledPlain(r, req)
    ensures cache != null ==>
              Handled(r, old(cache.Lines()), cache.capacity, cache.ttl, req, now, later, cache.Lines(), reply)
  {
    if !ValidId(req.id) {
      return Refused(InvalidRequest);
    }
    var maxHops := if req.maxHops <= 0 then r.maxHops else req.maxHops;
    if req.hop >= maxHops {
      return Refused(MaxHopsExceeded);
    }
    if cache == null {
      reply := AnswerFromTables(r, null, req, later);
      return;
    }
    var hit := cache.Get(req.id, now);
    ghost var mid := cache.Lines();
    if hit.Some? {
      reply := Found(hit.value, true);
    } else {
      reply := AnswerFromTables(r, cache, req, later);
    }
    assert AfterGet(r, mid, cache.capacity, req, hit, later, cache.Lines(), reply);
  }

  method AnswerFromTables(r: Router, cache: RoutingCache.Cache?, req: Request, later: int) returns (reply: Reply)
    requires CacheOk(cache) && ValidId(req.id)
    modifies Footprint(cache)
    ensures fresh(Footprint(cache) - old(Footprint(cache)))
    ensures CacheOk(cache) && reply == Route(r, req)
    ensures cache != null ==> AfterGet(r, old(cache.Lines()), cache.capacity, req, None, later, cache.Lines(), reply)
  {
    if r.status == Leaving {
      return Refused(NodeLeaving);
    }
    if r.status == Isolated {
      return Refused(NodeIsolated);
    }
    var looped := Visits(req.visited, r.self.id);
    if looped {
      return Refused(LoopDetected);
    }
    if AnswersLocally(r, req.id) {
      if cache != null {
        cache.Put(req.id, r.self.id, r.succ, later);
      }
      return Found(r.succ, false);
    }
    var next := ClosestPrecedingNode(r, req.id);
    if next.id == r.self.id {
      return Found(r.succ, false);
    }
    return NextHop(next);
  }

  method Visits(visited: seq<int>, self: int) returns (found: bool)
    ensures found <==> self in visited
  {
    for i := 0 to |visited|
      invariant self !in visited[..i]
    {
      if visited[i] == self {
        return true;
      }
    }
    assert visited[..|visited|] == visited;
    return false;
  }

  // ----- the caller's side -----

  /** What the lookup makes of the reply of its own node, which it asks first. */
  function Continue(net: Network, r: Router, id: int, reply: Reply): Result {
    match reply
    case Refused(code) => Failed(code)
    case Found(succ, cached) => Resolved(succ, r.self, 0, cached)
    case NextHop(next) => LookupFrom(net, id, next, 1, [r.self.id], r.maxHops)
  }

  function OwnRequest(r: Router, id: int): Request {
    Request(id, 0, r.maxHops, [])
  }

  /** The network as the lookup meets it: at hop 0 its own tables, and `hit` from its own cache. */
  function WithOwn(net: Network, r: Router, hit: Option<NodeInfo>): Network {
    Network((h: nat, n: int) => if h == 0 && n == r.self.id then Some(r) else net.router(h, n),
            (h: nat, n: int) => if h == 0 && n == r.self.id then hit else net.hit(h, n))
  }

  lemma {:induction false} SameFromHopOne(net: Network, r: Router, hit: Option<NodeInfo>, id: int, current: NodeInfo,
                                          hop: nat, visited: seq<int>)
    requires hop > 0
    ensures LookupFrom(WithOwn(net, r, hit), id, current, hop, visited, r.maxHops)
         == LookupFrom(net, id, current, hop, visited, r.maxHops)
    decreases r.maxHops - hop
  {
    if hop < r.maxHops && current.id !in visited {
      match Ask(net, hop, current.id, Request(id, hop, r.maxHops, visited))
      case NextHop(next) => SameFromHopOne(net, r, hit, id, next, hop + 1, visited + [current.id]);
      case _ =>
    }
  }

  /** Asking the own handler first is hop 0 of the iterative lookup. */
  lemma OwnHandlerIsHopZero(net: Network, r: Router, id: int, hit: Option<NodeInfo>, reply: Reply)
    requires ValidId(id) && r.maxHops > 0
    requires reply == if hit.Some? then Found(hit.value, true) else Route(r, OwnRequest(r, id))
    ensures Continue(net, r, id, reply) == LookupFrom(WithOwn(net, r, hit), id, r.self, 0, [], r.maxHops)
  {
    if reply.NextHop? {
      SameFromHopOne(net, r, hit, id, reply.next, 1, [r.self.id]);
      assert [] + [r.self.id] == [r.self.id];
    }
  }

  /** The caller's own cache, then its own handler on that same cache, then the network, then the cache again;
      `clock` are the moments of the four accesses. */
  ghost predicate LookedUp(r: Router, s: Lines, capacity: nat, ttl: int, net: Network, id: int, clock: nat -> int,
                           s': Lines, result: Result)
  {
    if !ValidId(id) then s' == s && result == Failed(InvalidRequest)
    else exists mid, hit :: CacheSpec.GetResult(s, id, clock(0), ttl, mid, hit)
                            && AfterLookup(r, mid, capacity, ttl, net, id, hit, clock, s', result)
  }

  ghost predicate AfterLookup(r: Router, mid: Lines, capacity: nat, ttl: int, net: Network, id: int,
                              hit: Option<NodeInfo>, clock: nat -> int, s': Lines, result: Result)
  {
    if hit.Some? then s' == mid && result == Resolved(hit.value, r.self, 0, true)
    else if r.maxHops == 0 then s' == mid && result == Failed(MaxHopsExceeded)
    else exists after, reply :: Handled(r, mid, capacity, ttl, OwnRequest(r, id), clock(1), clock(2), after, reply)
                                && result == Continue(net, r, id, reply)
                                && Stored(after, capacity, id, result, clock(3), s')
  }

  ghost predicate Stored(s: Lines, capacity: nat, id: int, result: Result, later: int, s': Lines) {
    if result.Resolved? && !result.cached
    then CacheSpec.PutResult(s, capacity, CacheSpec.Line(id, result.answerer.id, result.node, later), s')
    else s' == s
  }

  /** Without a cache the network decides alone. */
  function LookedUpPlain(r: Router, net: Network, id: int): Result {
    if !ValidId(id) then Failed(InvalidRequest)
    else if r.maxHops == 0 then Failed(MaxHopsExceeded)
    else Continue(net, r, id, HandledPlain(r, OwnRequest(r, id)))
  }

  method Follow(net: Network, r: Router, id: int, reply: Reply) returns (result: Result)
    requires r.maxHops > 0
    ensures result == Continue(net, r, id, reply)
  {
    match reply
    case Refused(code) => result := Failed(code);
    case Found(succ, cached) => result := Resolved(succ, r.self, 0, cached);
    case NextHop(next) => result := LookupIterative(net, id, next, 1, [r.self.id], r.maxHops);
  }

  method StoreResult(cache: RoutingCache.Cache?, id: int, result: Result, later: int)
    requires CacheOk(cache)
    modifies Footprint(cache)
    ensures CacheOk(cache)
    ensures cache != null ==> Stored(old(cache.Lines()), cache.capacity, id, result, later, cache.Lines())
  {
    if cache != null && result.Resolved? && !result.cached {
      cache.Put(id, result.answerer.id, result.node, later);
    }
  }

  /** The loop, whose first query goes to the node's own handler. */
  method LookupThroughOwn(r: Router, cache: RoutingCache.Cache?, net: Network, id: int, clock: nat -> int)
    returns (result: Result)
    requires CacheOk(cache) && ValidId(id)
    modifies Footprint(cache)
    ensures CacheOk(cache)
    ensures cache == null ==> result == LookedUpPlain(r, net, id)
    ensures cache != null ==>
              AfterLookup(r, old(cache.Lines()), cache.capacity, cache.ttl, net, id, None, clock, cache.Lines(), result)
  {
    if r.maxHops == 0 {
      return Failed(MaxHopsExceeded);
    }
    var reply := HandleFindSuccessor(r, cache, OwnRequest(r, id), clock(1), clock(2));
    result := Follow(net, r, id, reply);
    StoreResult(cache, id, result, clock(3));
  }

  method LookupSuccessor(r: Router, cache: RoutingCache.Cache?, net: Network, id: int, clock: nat -> int)
    returns (result: Result)
    requires CacheOk(cache)
    modifies Footprint(cache)
    ensures CacheOk(cache)
    ensures cache == null ==> result == LookedUpPlain(r, net, id)
    ensures cache != null ==>
              LookedUp(r, old(cache.Lines()), cache.capacity, cache.ttl, net, id, clock, cache.Lines(), result)
  {
    if !ValidId(id) {
      return Failed(InvalidRequest);
    }
    if cache == null {
      result := LookupThroughOwn(r, null, net, id, clock);
      return;
    }
    var hit := cache.Get(id, clock(0));
    ghost var mid := cache.Lines();
    if hit.Some? {
      result := Resolved(hit.value, r.self, 0, true);
    } else {
      result := LookupThroughOwn(r, cache, net, id, clock);
    }
    assert AfterLookup(r, mid, cache.capacity, cache.ttl, net, id, hit, clock, cache.Lines(), result);
  }

  // ----- joining through this node (protocol.go:9-32, 145-163) -----

  predicate JoinRefuses(r: Router, joiner: NodeInfo) {
    !ValidNodeInfo(joiner) || r.status == Leaving || r.status == Isolated || joiner.id == r.self.id
  }

  /** `state(n)` and `list(n)` are node n's answers to the two list queries. */
  method HandleJoin(r: Router, opts: Options, cache: RoutingCache.Cache?, net: Network, joiner: NodeInfo,
                    clock: nat -> int, state: int -> Option<seq<NodeInfo>>, list: int -> Option<seq<NodeInfo>>)
    returns (reply: Option<JoinReply>)
    requires CacheOk(cache)
    modifies Footprint(cache)
    ensures CacheOk(cache)
    ensures JoinRefuses(r, joiner) ==> reply == None && (cache != null ==> cache.Lines() == old(cache.Lines()))
    ensures !JoinRefuses(r, joiner) && cache == null ==>
              reply == JoinAnswer(r, opts, LookedUpPlain(r, net, joiner.id), state, list)
    ensures !JoinRefuses(r, joiner) && cache != null ==>
              exists result ::
                && LookedUp(r, old(cache.Lines()), cache.capacity, cache.ttl, net, joiner.id, clock, cache.Lines(), result)
                && reply == JoinAnswer(r, opts, result, state, list)
  {
    if !ValidNodeInfo(joiner) || r.status == Leaving || r.status == Isolated || joiner.id == r.self.id {
      return None;
    }
    var result := LookupSuccessor(r, cache, net, joiner.id, clock);
    if result.Failed? {
      return None;
    }
    var succ := result.node;
    return Some(JoinReply(succ, SuccessorListFor(r.self.id, r.list, opts, succ, state(succ.id), list(succ.id))));
  }

  function JoinAnswer(r: Router, opts: Options, result: Result, state: int -> Option<seq<NodeInfo>>,
                      list: int -> Option<seq<NodeInfo>>): Option<JoinReply>
  {
    match result
    case Failed(_) => None
    case Resolved(succ, _, _, _) =>
      Some(JoinReply(succ, SuccessorListFor(r.self.id, r.list, opts, succ, state(succ.id), list(succ.id))))
  }
}
