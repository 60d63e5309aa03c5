/** What the routing cache answers, told from the calls made on it: an answer is never older than the lifetime, and a
    stored answer that is not older is given again (routing_cache.go:45-127, lookup.go:61-73, 139-141).
 */
module CacheLaws {
  import opened Ring
  import opened Wrappers
  import opened NodeLists
  import opened NodeSpec
  import opened Lookup
  import opened CacheSpec
  import opened CacheRuns
  import opened FindSuccessor

  /** The line lies within one lifetime. */
  predicate Fresh(l: Line, now: int, ttl: int) {
    now - l.at <= ttl
  }

  predicate SpansTarget(l: Line, target: int) {
    l.pred != EMPTY && InRangeOpenClosed(target, l.pred, l.succ.id)
  }

  lemma LastStoredAt(s: seq<Line>, ops: seq<Op>, k: nat)
    requires Lru(s, ops) && k < |s|
    ensures LastStored(ops, s[k].target) == Some(s[k])
  {
  }

  /** The line a reply came from. */
  lemma UsedLine(s: seq<Line>, op: Op, s': seq<Line>, capacity: nat, ttl: int) returns (k: nat)
    requires op.Fetch? && op.used.Some? && Step(s, op, s', capacity, ttl)
    ensures k < |s| && op.used == Some(s[k].target) && op.reply == Some(s[k].succ) && Fresh(s[k], op.now, ttl)
    ensures s[k].target == op.target || SpansTarget(s[k], op.target)
  {
    if Holds(s, op.target) {
      k :| k < |s| && s[k].target == op.target && !IsExpired(s[k], op.now, ttl) && s' == Fronted(s, k) && op.reply == Some(s[k].succ);
    } else {
      k :| k < |s| && Serves(s[k], op.target, op.now, ttl) && s' == Fronted(s, k) && op.reply == Some(s[k].succ);
    }
  }

  /** Whenever a fetch replies, the line last stored for the target it used is within its lifetime, is the one whose
      owner it reports, and is for the target asked for or spans it. */
  lemma RepliesAreFresh(ops: seq<Op>, states: seq<seq<Line>>, capacity: nat, ttl: int, i: nat)
    requires IsCacheRun(ops, states, capacity, ttl) && i < |ops| && ops[i].Fetch? && ops[i].used.Some?
    ensures var last := LastStored(ops[..i], ops[i].used.value);
            && last.Some? && Fresh(last.value, ops[i].now, ttl) && ops[i].reply == Some(last.value.succ)
            && last.value.target == ops[i].used.value
            && (last.value.target == ops[i].target || SpansTarget(last.value, ops[i].target))
  {
    EveryRunIsLru(ops, states, capacity, ttl, i);
    var k := UsedLine(states[i], ops[i], states[i + 1], capacity, ttl);
    LastStoredAt(states[i], ops[..i], k);
  }

  lemma ExactReply(s: seq<Line>, op: Op, s': seq<Line>, capacity: nat, ttl: int, k: nat)
    requires op.Fetch? && Step(s, op, s', capacity, ttl) && DistinctTargets(s) && k < |s| && s[k].target == op.target
    ensures op.reply == if Fresh(s[k], op.now, ttl) then Some(s[k].succ) else None
    ensures op.reply.None? ==> !Holds(s', op.target)
    ensures op.reply.Some? ==> op.used == Some(op.target)
  {
    assert Holds(s, op.target);
    var i :| 0 <= i < |s| && s[i].target == op.target &&
             if IsExpired(s[i], op.now, ttl) then s' == Removed(s, i) && op.reply == None
             else s' == Fronted(s, i) && op.reply == Some(s[i].succ);
    assert i == k;
    if op.reply.None? {
      assert forall j :: 0 <= j < |s'| ==> s'[j] == s[if j < k then j else j + 1];
    }
  }

  /** A target that has a line is answered by it, and only by it, exactly as long as it is within its lifetime; then
      the line goes.  Any other is answered exactly if some line within its lifetime spans it. */
  lemma FreshLinesReply(ops: seq<Op>, states: seq<seq<Line>>, capacity: nat, ttl: int, i: nat)
    requires IsCacheRun(ops, states, capacity, ttl) && i < |ops| && ops[i].Fetch?
    ensures var target, last := ops[i].target, LastStored(ops[..i], ops[i].target);
            if Holds(states[i], target) then
              && last.Some? && ops[i].reply == (if Fresh(last.value, ops[i].now, ttl) then Some(last.value.succ) else None)
              && (ops[i].reply.None? ==> !Holds(states[i + 1], target))
            else
              ops[i].reply.Some?
              <==> exists k :: 0 <= k < |states[i]| && Fresh(states[i][k], ops[i].now, ttl) && SpansTarget(states[i][k], target)
  {
    EveryRunIsLru(ops, states, capacity, ttl, i);
    var s := states[i];
    assert Step(s, ops[i], states[i + 1], capacity, ttl);
    if Holds(s, ops[i].target) {
      var k :| 0 <= k < |s| && s[k].target == ops[i].target;
      LastStoredAt(s, ops[..i], k);
      ExactReply(s, ops[i], states[i + 1], capacity, ttl, k);
    } else {
      SpanningReply(s, ops[i], states[i + 1], capacity, ttl);
    }
  }

  lemma SpanningReply(s: seq<Line>, op: Op, s': seq<Line>, capacity: nat, ttl: int)
    requires op.Fetch? && Step(s, op, s', capacity, ttl) && !Holds(s, op.target)
    ensures op.reply.Some? <==> exists k :: 0 <= k < |s| && Fresh(s[k], op.now, ttl) && SpansTarget(s[k], op.target)
    ensures op.reply.None? ==> s' == s
  {
    if k :| 0 <= k < |s| && Fresh(s[k], op.now, ttl) && SpansTarget(s[k], op.target) {
      assert Serves(s[k], op.target, op.now, ttl);
    }
    if op.reply.Some? {
      var k :| 0 <= k < |s| && Serves(s[k], op.target, op.now, ttl);
      assert Fresh(s[k], op.now, ttl) && SpansTarget(s[k], op.target);
    }
  }

  /** A cleanup keeps exactly the lines within their lifetime. */
  lemma CleanKeepsFresh(ops: seq<Op>, states: seq<seq<Line>>, capacity: nat, ttl: int, i: nat)
    requires IsCacheRun(ops, states, capacity, ttl) && i < |ops| && ops[i].Clean?
    ensures forall l :: l in states[i + 1] <==> l in states[i] && Fresh(l, ops[i].now, ttl)
  {
    assert Step(states[i], ops[i], states[i + 1], capacity, ttl);
    UnexpiredMembers(states[i], ops[i].now, ttl);
  }

  // ----- answers are remembered -----

  lemma PutInFront(s: seq<Line>, capacity: nat, l: Line, s': seq<Line>)
    requires DistinctTargets(s) && PutResult(s, capacity, l, s') && l.target != EMPTY && l.succ.id != EMPTY
    ensures s' != [] && s'[0] == l && DistinctTargets(s')
  {
    if Holds(s, l.target) {
      var i :| 0 <= i < |s| && s[i].target == l.target && s' == [l] + Removed(s, i);
      assert forall j :: 0 < j < |s'| ==> s'[j] == s[if j - 1 < i then j - 1 else j];
    } else {
      assert forall j :: 0 < j < |s'| ==> s'[j] == s[j - 1];
    }
  }

  lemma HeldReplies(s: seq<Line>, id: int, now: int, ttl: int, s': seq<Line>, hit: Option<NodeInfo>, k: nat)
    requires DistinctTargets(s) && k < |s| && s[k].target == id && Fresh(s[k], now, ttl) && GetResult(s, id, now, ttl, s', hit)
    ensures hit == Some(s[k].succ)
  {
    assert Holds(s, id);
    var i :| 0 <= i < |s| && s[i].target == id &&
             if IsExpired(s[i], now, ttl) then s' == Removed(s, i) && hit == None
             else s' == Fronted(s, i) && hit == Some(s[i].succ);
    assert i == k;
  }

  /** A lookup the network has resolved is answered from the cache when it is made again within the lifetime. */
  lemma LookupIsRemembered(s: Lines, capacity: nat, ttl: int, id: int, result: Result, later: int, s': Lines,
                           now: int, s'': Lines, hit: Option<NodeInfo>)
    requires DistinctTargets(s) && Stored(s, capacity, id, result, later, s') && GetResult(s', id, now, ttl, s'', hit)
    requires result.Resolved? && !result.cached && id != EMPTY && result.node.id != EMPTY && now - later <= ttl
    ensures hit == Some(result.node)
  {
    PutInFront(s, capacity, Line(id, result.answerer.id, result.node, later), s');
    HeldReplies(s', id, now, ttl, s'', hit, 0);
  }

  /** So is a question the handler has answered from its own arc. */
  lemma LocalAnswerIsRemembered(r: Router, s: Lines, capacity: nat, ttl: int, req: Request, later: int, s': Lines,
                                now: int, s'': Lines, hit: Option<NodeInfo>)
    requires DistinctTargets(s) && Served(r, s, capacity, req, later, s') && GetResult(s', req.id, now, ttl, s'', hit)
    requires r.status == Active && r.self.id !in req.visited && req.id != EMPTY && r.succ.id != EMPTY && now - later <= ttl
    requires r.succ.id == r.self.id || InRangeOpenClosed(req.id, r.self.id, r.succ.id)
    ensures hit == Some(r.succ)
  {
    PutInFront(s, capacity, Line(req.id, r.self.id, r.succ, later), s');
    HeldReplies(s', req.id, now, ttl, s'', hit, 0);
  }

  /** A lookup whose answer the cache holds asks nobody. */
  lemma HitEndsLookup(r: Router, s: Lines, capacity: nat, ttl: int, net: Network, id: int, clock: nat -> int, s': Lines,
                      result: Result, k: nat)
    requires LookedUp(r, s, capacity, ttl, net, id, clock, s', result) && ValidId(id) && DistinctTargets(s)
    requires k < |s| && s[k].target == id && Fresh(s[k], clock(0), ttl)
    ensures result == Resolved(s[k].succ, r.self, 0, true)
  {
    var mid, hit :| GetResult(s, id, clock(0), ttl, mid, hit)
                    && AfterLookup(r, mid, capacity, ttl, net, id, hit, clock, s', result);
    HeldReplies(s, id, clock(0), ttl, mid, hit, k);
  }

  /** A query whose answer the cache holds is answered from it, even by a node that leaves, is cut off or was asked
      before. */
  lemma HitAnswersQuery(r: Router, s: Lines, capacity: nat, ttl: int, req: Request, now: int, later: int, s': Lines,
                        reply: Reply, k: nat)
    requires Handled(r, s, capacity, ttl, req, now, later, s', reply) && DistinctTargets(s)
    requires ValidId(req.id) && req.hop < (if req.maxHops <= 0 then r.maxHops else req.maxHops)
    requires k < |s| && s[k].target == req.id && Fresh(s[k], now, ttl)
    ensures reply == Found(s[k].succ, true)
  {
    var mid, hit :| GetResult(s, req.id, now, ttl, mid, hit) && AfterGet(r, mid, capacity, req, hit, later, s', reply);
    HeldReplies(s, req.id, now, ttl, mid, hit, k);
  }
}
