/** Whole runs of the routing cache: it is an exact LRU over the values last stored. */
module CacheRuns {
  import opened Ring
  import opened Wrappers
  import opened NodeLists
  import opened CacheSpec

  /** One call.  `used` is the target of the line a successful fetch answered from. */
  datatype Op =
    | Fetch(target: int, now: int, used: Option<int>, reply: Option<NodeInfo>)
    | Store(line: Line)
    | Clean(now: int)
    | Invalidate

  ghost predicate Step(s: seq<Line>, op: Op, s': seq<Line>, capacity: nat, ttl: int) {
    match op
    case Fetch(target, now, used, reply) =>
      && GetResult(s, target, now, ttl, s', reply)
      && (used.Some? <==> reply.Some?)
      && (used.Some? ==> s' != [] && used.value == s'[0].target)
    case Store(line) => PutResult(s, capacity, line, s')
    case Clean(now) => s' == Unexpired(s, now, ttl)
    case Invalidate => s' == []
  }

  ghost predicate IsCacheRun(ops: seq<Op>, states: seq<seq<Line>>, capacity: nat, ttl: int) {
    && |states| == |ops| + 1 && states[0] == [] && capacity > 0
    && forall i :: 0 <= i < |ops| ==> Step(states[i], ops[i], states[i + 1], capacity, ttl)
  }

  // ----- what a reader of the calls alone would say -----

  /** The target a call touches: the one it stores, or the one whose line answered it. */
  function Touched(op: Op): Option<int> {
    match op
    case Fetch(_, _, used, _) => used
    case Store(line) => if line.target == EMPTY || line.succ.id == EMPTY then None else Some(line.target)
    case _ => None
  }

  /** The number of the last call that touched `t`; -1 if none did. */
  function LastTouch(ops: seq<Op>, t: int): (k: int)
    ensures -1 <= k < |ops|
  {
    if ops == [] then -1
    else if Touched(ops[|ops| - 1]) == Some(t) then |ops| - 1
    else LastTouch(ops[..|ops| - 1], t)
  }

  /** The line most recently stored for `t`. */
  function LastStored(ops: seq<Op>, t: int): Option<Line> {
    if ops == [] then None
    else
      var op := ops[|ops| - 1];
      if op.Store? && Touched(op) == Some(t) then Some(op.line) else LastStored(ops[..|ops| - 1], t)
  }

  // ----- the invariant -----

  /** The list is in order of last touch, latest first, and each line is the one last stored. */
  ghost predicate Lru(s: seq<Line>, ops: seq<Op>) {
    && (forall i, j :: 0 <= i < j < |s| ==> LastTouch(ops, s[i].target) > LastTouch(ops, s[j].target))
    && (forall i :: 0 <= i < |s| ==> LastTouch(ops, s[i].target) >= 0 && LastStored(ops, s[i].target) == Some(s[i]))
  }

  lemma OneMore(ops: seq<Op>, op: Op, t: int)
    ensures LastTouch(ops + [op], t) == if Touched(op) == Some(t) then |ops| else LastTouch(ops, t)
    ensures LastStored(ops + [op], t) == if op.Store? && Touched(op) == Some(t) then Some(op.line) else LastStored(ops, t)
  {
    assert (ops + [op])[..|ops|] == ops;
  }

  /** The same with one more call that touches nothing in the list. */
  lemma UntouchedLru(s: seq<Line>, ops: seq<Op>, op: Op)
    requires Lru(s, ops) && forall i :: 0 <= i < |s| ==> Touched(op) != Some(s[i].target)
    ensures Lru(s, ops + [op])
  {
    forall i | 0 <= i < |s|
      ensures LastTouch(ops + [op], s[i].target) == LastTouch(ops, s[i].target)
      ensures LastStored(ops + [op], s[i].target) == LastStored(ops, s[i].target)
    {
      OneMore(ops, op, s[i].target);
    }
  }

  lemma RemovedLru(s: seq<Line>, ops: seq<Op>, i: nat)
    requires Lru(s, ops) && i < |s|
    ensures Lru(Removed(s, i), ops) && forall k :: 0 <= k < |s| - 1 ==> Removed(s, i)[k].target != s[i].target
  {
    assert forall k :: 0 <= k < |s| - 1 ==> Removed(s, i)[k] == s[if k < i then k else k + 1];
  }

  /** Exactly the unexpired lines are kept. */
  lemma {:induction false} UnexpiredMembers(s: seq<Line>, now: int, ttl: int)
    ensures var u := Unexpired(s, now, ttl);
            (forall l :: l in u <==> l in s && !IsExpired(l, now, ttl)) && |u| <= |s|
  {
    if s != [] {
      UnexpiredMembers(s[..|s| - 1], now, ttl);
      assert s == s[..|s| - 1] + [s[|s| - 1]];
    }
  }

  lemma AppendLru(u: seq<Line>, last: Line, ops: seq<Op>)
    requires Lru(u, ops) && LastTouch(ops, last.target) >= 0 && LastStored(ops, last.target) == Some(last)
    requires forall l :: l in u ==> LastTouch(ops, l.target) > LastTouch(ops, last.target)
    ensures Lru(u + [last], ops)
  {
    forall i | 0 <= i < |u| ensures LastTouch(ops, u[i].target) > LastTouch(ops, last.target) {
      assert u[i] in u;
    }
  }

  lemma {:induction false} UnexpiredLru(s: seq<Line>, ops: seq<Op>, now: int, ttl: int)
    requires Lru(s, ops)
    ensures Lru(Unexpired(s, now, ttl), ops)
  {
    if s != [] {
      var front, last := s[..|s| - 1], s[|s| - 1];
      UnexpiredLru(front, ops, now, ttl);
      UnexpiredMembers(front, now, ttl);
      if !IsExpired(last, now, ttl) {
        AppendLru(Unexpired(front, now, ttl), last, ops);
      }
    }
  }

  /** The touched line in front of an ordered rest. */
  lemma TouchedLru(l: Line, rest: seq<Line>, ops: seq<Op>, op: Op)
    requires Lru(rest, ops) && Touched(op) == Some(l.target)
    requires forall k :: 0 <= k < |rest| ==> rest[k].target != l.target
    requires if op.Store? then op.line == l else LastStored(ops, l.target) == Some(l)
    ensures Lru([l] + rest, ops + [op])
  {
    UntouchedLru(rest, ops, op);
    OneMore(ops, op, l.target);
    var s, more := [l] + rest, ops + [op];
    forall k | 1 <= k < |s| ensures s[k] == rest[k - 1] && LastTouch(more, s[k].target) < LastTouch(more, l.target) {
      OneMore(ops, op, rest[k - 1].target);
    }
  }

  lemma FetchLru(s: seq<Line>, op: Op, s': seq<Line>, ops: seq<Op>, ttl: int)
    requires op.Fetch? && Step(s, op, s', 1, ttl) && Lru(s, ops)
    ensures Lru(s', ops + [op]) && |s'| <= |s|
  {
    if op.used.Some? {
      var i :| 0 <= i < |s| && s' == Fronted(s, i);
      assert Fronted(s, i) == [s[i]] + Removed(s, i);
      RemovedLru(s, ops, i);
      TouchedLru(s[i], Removed(s, i), ops, op);
    } else {
      if s' != s {
        var i :| 0 <= i < |s| && s' == Removed(s, i);
        RemovedLru(s, ops, i);
      }
      UntouchedLru(s', ops, op);
    }
  }

  lemma StoreLru(s: seq<Line>, op: Op, s': seq<Line>, ops: seq<Op>, capacity: nat)
    requires op.Store? && PutResult(s, capacity, op.line, s') && Lru(s, ops) && |s| <= capacity && capacity > 0
    ensures Lru(s', ops + [op]) && |s'| <= capacity
  {
    if Touched(op) == None {
      UntouchedLru(s', ops, op);
    } else if Holds(s, op.line.target) {
      var i :| 0 <= i < |s| && s[i].target == op.line.target && s' == [op.line] + Removed(s, i);
      RemovedLru(s, ops, i);
      TouchedLru(op.line, Removed(s, i), ops, op);
    } else if |s| >= capacity {
      RemovedLru(s, ops, |s| - 1);
      assert Removed(s, |s| - 1) == s[..|s| - 1];
      TouchedLru(op.line, s[..|s| - 1], ops, op);
    } else {
      TouchedLru(op.line, s, ops, op);
    }
  }

  /** After any sequence of calls: at most `capacity` lines, in order of the last call that stored or
      answered from them, each the one last stored for its target. */
  lemma {:induction false} EveryRunIsLru(ops: seq<Op>, states: seq<seq<Line>>, capacity: nat, ttl: int, i: nat)
    requires IsCacheRun(ops, states, capacity, ttl) && i <= |ops|
    ensures Lru(states[i], ops[..i]) && |states[i]| <= capacity && DistinctTargets(states[i])
  {
    if i > 0 {
      EveryRunIsLru(ops, states, capacity, ttl, i - 1);
      var s, op, s' := states[i - 1], ops[i - 1], states[i];
      assert Step(s, op, states[i - 1 + 1], capacity, ttl);
      assert ops[..i] == ops[..i - 1] + [op];
      match op
      case Fetch(_, _, _, _) => FetchLru(s, op, s', ops[..i - 1], ttl);
      case Store(_) => StoreLru(s, op, s', ops[..i - 1], capacity);
      case Clean(now) =>
        UnexpiredLru(s, ops[..i - 1], now, ttl);
        UnexpiredMembers(s, now, ttl);
        UntouchedLru(s', ops[..i - 1], op);
      case Invalidate =>
    }
  }

  lemma LastIsLeastRecent(s: seq<Line>, ops: seq<Op>)
    requires Lru(s, ops) && s != []
    ensures var victim := s[|s| - 1];
            && (forall l :: l in s <==> l == victim || l in s[..|s| - 1])
            && (forall l :: l in s[..|s| - 1] ==> l != victim && LastTouch(ops, victim.target) < LastTouch(ops, l.target))
  {
    var front, victim := s[..|s| - 1], s[|s| - 1];
    assert s == front + [victim];
    forall l | l in front ensures l != victim && LastTouch(ops, victim.target) < LastTouch(ops, l.target) {
      var k :| 0 <= k < |s| - 1 && s[k] == l;
    }
  }

  /** When a store has to make room, the line that goes is the one touched longest ago; all others stay. */
  lemma EvictionTakesLeastRecent(ops: seq<Op>, states: seq<seq<Line>>, capacity: nat, ttl: int, i: nat) returns (victim: Line)
    requires IsCacheRun(ops, states, capacity, ttl) && i < |ops|
    requires ops[i].Store? && Touched(ops[i]).Some? && !Holds(states[i], ops[i].line.target) && |states[i]| >= capacity
    ensures victim in states[i] && victim !in states[i + 1]
    ensures forall l :: l in states[i + 1] <==> l == ops[i].line || (l in states[i] && l != victim)
    ensures forall l :: l in states[i] && l != victim ==> LastTouch(ops[..i], victim.target) < LastTouch(ops[..i], l.target)
  {
    EveryRunIsLru(ops, states, capacity, ttl, i);
    var s := states[i];
    assert Step(s, ops[i], states[i + 1], capacity, ttl);
    LastIsLeastRecent(s, ops[..i]);
    victim := s[|s| - 1];
    assert states[i + 1] == [ops[i].line] + s[..|s| - 1];
    assert victim.target != ops[i].line.target;
  }

  // ----- nothing recent is missing -----

  /** All calls fall within one lifetime of a line, and none of them clears the cache. */
  predicate WithinOneLifetime(ops: seq<Op>, start: int, ttl: int) {
    forall op :: op in ops ==>
      match op
      case Fetch(_, now, _, _) => start <= now <= start + ttl
      case Store(line) => start <= line.at <= start + ttl
      case Clean(now) => start <= now <= start + ttl
      case Invalidate => false
  }

  /** A touched target without a line was pushed out by `capacity` more recently touched ones. */
  ghost predicate MostRecent(s: seq<Line>, ops: seq<Op>, capacity: nat) {
    forall t :: LastTouch(ops, t) >= 0 && !Holds(s, t) ==>
      |s| == capacity && forall i :: 0 <= i < |s| ==> LastTouch(ops, s[i].target) > LastTouch(ops, t)
  }

  lemma NoneExpired(s: seq<Line>, ops: seq<Op>, now: int, ttl: int, start: int)
    requires Lru(s, ops) && WithinOneLifetime(ops, start, ttl) && start <= now <= start + ttl
    ensures forall i :: 0 <= i < |s| ==> !IsExpired(s[i], now, ttl)
    ensures Unexpired(s, now, ttl) == s
  {
    forall i | 0 <= i < |s| ensures !IsExpired(s[i], now, ttl) {
      StoredWithin(ops, s[i].target, start, ttl);
    }
    AllUnexpired(s, now, ttl);
  }

  lemma {:induction false} AllUnexpired(s: seq<Line>, now: int, ttl: int)
    requires forall i :: 0 <= i < |s| ==> !IsExpired(s[i], now, ttl)
    ensures Unexpired(s, now, ttl) == s
  {
    if s != [] {
      AllUnexpired(s[..|s| - 1], now, ttl);
    }
  }

  lemma {:induction false} StoredWithin(ops: seq<Op>, t: int, start: int, ttl: int)
    requires WithinOneLifetime(ops, start, ttl) && LastStored(ops, t).Some?
    ensures start <= LastStored(ops, t).value.at <= start + ttl
  {
    var op := ops[|ops| - 1];
    assert op in ops;
    if !(op.Store? && Touched(op) == Some(t)) {
      var before := ops[..|ops| - 1];
      assert forall o :: o in before ==> o in ops;
      assert WithinOneLifetime(before, start, ttl);
      assert LastStored(before, t).Some?;
      StoredWithin(ops[..|ops| - 1], t, start, ttl);
    }
  }

  /** A step that keeps every target, or that pushes out only the last of a full list, keeps this. */
  lemma MostRecentStep(s: seq<Line>, ops: seq<Op>, op: Op, s': seq<Line>, capacity: nat)
    requires MostRecent(s, ops, capacity) && Lru(s, ops) && Lru(s', ops + [op])
    requires Touched(op).Some? ==> s' != [] && s'[0].target == Touched(op).value
    requires forall i :: 0 <= i < |s'| ==> Touched(op) == Some(s'[i].target) || Holds(s, s'[i].target)
    requires |s'| >= |s|
    requires || (forall i :: 0 <= i < |s| ==> Holds(s', s[i].target))
             || (|s| == capacity == |s'| && forall i :: 0 <= i < |s| - 1 ==> Holds(s', s[i].target))
    requires |s'| <= capacity
    ensures MostRecent(s', ops + [op], capacity)
  {
    var more := ops + [op];
    if Touched(op).Some? {
      assert s'[0].target == Touched(op).value;
      assert Holds(s', Touched(op).value);
    }
    forall t | LastTouch(more, t) >= 0 && !Holds(s', t)
      ensures |s'| == capacity && forall i :: 0 <= i < |s'| ==> LastTouch(more, s'[i].target) > LastTouch(more, t)
    {
      OneMore(ops, op, t);
      if Holds(s, t) {
        var k :| 0 <= k < |s| && s[k].target == t;
        assert k == |s| - 1;
      }
      forall i | 0 <= i < |s'| ensures LastTouch(more, s'[i].target) > LastTouch(more, t) {
        OneMore(ops, op, s'[i].target);
        if Touched(op) != Some(s'[i].target) {
          var k :| 0 <= k < |s| && s[k].target == s'[i].target;
        }
      }
    }
  }

  /** Moving a line to the front, with or without a new value, keeps the targets. */
  lemma FrontHolds(s: seq<Line>, i: nat, l: Line, s': seq<Line>)
    requires i < |s| && l.target == s[i].target && s' == [l] + Removed(s, i)
    ensures forall k :: 0 <= k < |s| ==> Holds(s', s[k].target)
    ensures forall k :: 0 <= k < |s'| ==> Holds(s, s'[k].target)
  {
    forall k | 0 <= k < |s| ensures Holds(s', s[k].target) {
      assert s'[if k == i then 0 else if k < i then k + 1 else k].target == s[k].target;
    }
    forall k | 0 <= k < |s'| ensures Holds(s, s'[k].target) {
      assert s'[k].target == s[if k == 0 then i else if k <= i then k - 1 else k].target;
    }
  }

  lemma FetchKeepsRecent(s: seq<Line>, ops: seq<Op>, op: Op, s': seq<Line>, capacity: nat, ttl: int)
    requires MostRecent(s, ops, capacity) && Lru(s, ops) && Lru(s', ops + [op]) && |s'| <= capacity && |s| <= capacity
    requires op.Fetch? && Step(s, op, s', capacity, ttl) && forall i :: 0 <= i < |s| ==> !IsExpired(s[i], op.now, ttl)
    ensures MostRecent(s', ops + [op], capacity)
  {
    if op.used.Some? {
      var i :| 0 <= i < |s| && s' == Fronted(s, i);
      assert Fronted(s, i) == [s[i]] + Removed(s, i);
      FrontHolds(s, i, s[i], s');
    } else {
      assert s' == s;
    }
    MostRecentStep(s, ops, op, s', capacity);
  }

  /** Putting a new line in front keeps the targets, except perhaps the last, and adds no other. */
  lemma PushHolds(s: seq<Line>, capacity: nat, l: Line, s': seq<Line>)
    requires s' == [l] + MakeRoom(s, capacity)
    ensures forall k :: 0 <= k < |s'| - 1 ==> Holds(s', s[k].target)
    ensures forall i :: 0 <= i < |s'| ==> s'[i].target == l.target || Holds(s, s'[i].target)
  {
    forall k | 0 <= k < |s'| - 1 ensures Holds(s', s[k].target) {
      assert s'[k + 1] == s[k];
    }
    forall i | 0 < i < |s'| ensures Holds(s, s'[i].target) {
      assert s'[i] == s[i - 1];
    }
  }

  lemma PushKeepsRecent(s: seq<Line>, ops: seq<Op>, op: Op, s': seq<Line>, capacity: nat)
    requires MostRecent(s, ops, capacity) && Lru(s, ops) && Lru(s', ops + [op]) && |s'| <= capacity && |s| <= capacity
    requires op.Store? && Touched(op) == Some(op.line.target) && s' == [op.line] + MakeRoom(s, capacity)
    ensures MostRecent(s', ops + [op], capacity)
  {
    PushHolds(s, capacity, op.line, s');
    MostRecentStep(s, ops, op, s', capacity);
  }

  lemma StoreKeepsRecent(s: seq<Line>, ops: seq<Op>, op: Op, s': seq<Line>, capacity: nat)
    requires MostRecent(s, ops, capacity) && Lru(s, ops) && Lru(s', ops + [op]) && |s'| <= capacity && |s| <= capacity
    requires op.Store? && PutResult(s, capacity, op.line, s')
    ensures MostRecent(s', ops + [op], capacity)
  {
    if Touched(op) == None {
      MostRecentStep(s, ops, op, s', capacity);
    } else if Holds(s, op.line.target) {
      var i :| 0 <= i < |s| && s[i].target == op.line.target && s' == [op.line] + Removed(s, i);
      FrontHolds(s, i, op.line, s');
      MostRecentStep(s, ops, op, s', capacity);
    } else {
      PushKeepsRecent(s, ops, op, s', capacity);
    }
  }

  /** A call between two states of a run within one lifetime. */
  ghost predicate RecentCall(s: seq<Line>, ops: seq<Op>, op: Op, s': seq<Line>, capacity: nat, ttl: int, start: int) {
    && Lru(s, ops) && Lru(s', ops + [op]) && |s'| <= capacity && |s| <= capacity
    && WithinOneLifetime(ops + [op], start, ttl) && Step(s, op, s', capacity, ttl)
  }

  lemma KeepsRecent(s: seq<Line>, ops: seq<Op>, op: Op, s': seq<Line>, capacity: nat, ttl: int, start: int)
    requires MostRecent(s, ops, capacity) && RecentCall(s, ops, op, s', capacity, ttl, start)
    ensures MostRecent(s', ops + [op], capacity)
  {
    assert op in ops + [op] && forall o :: o in ops ==> o in ops + [op];
    match op
    case Fetch(_, now, _, _) =>
      NoneExpired(s, ops, now, ttl, start);
      FetchKeepsRecent(s, ops, op, s', capacity, ttl);
    case Store(line) => StoreKeepsRecent(s, ops, op, s', capacity);
    case Clean(now) =>
      NoneExpired(s, ops, now, ttl, start);
      MostRecentStep(s, ops, op, s', capacity);
    case Invalidate =>
  }

  lemma PrefixWithin(ops: seq<Op>, i: nat, start: int, ttl: int)
    requires WithinOneLifetime(ops, start, ttl) && i <= |ops|
    ensures WithinOneLifetime(ops[..i], start, ttl)
  {
    var some := ops[..i];
    assert forall op :: op in some ==> op in ops;
  }

  /** The i-th call of a run, and what precedes it. */
  lemma CallOfRun(ops: seq<Op>, states: seq<seq<Line>>, capacity: nat, ttl: int, start: int, i: nat)
    requires IsCacheRun(ops, states, capacity, ttl) && i < |ops| && WithinOneLifetime(ops, start, ttl)
    ensures ops[..i + 1] == ops[..i] + [ops[i]]
    ensures RecentCall(states[i], ops[..i], ops[i], states[i + 1], capacity, ttl, start)
  {
    EveryRunIsLru(ops, states, capacity, ttl, i);
    EveryRunIsLru(ops, states, capacity, ttl, i + 1);
    PrefixWithin(ops, i + 1, start, ttl);
    assert ops[..i + 1] == ops[..i] + [ops[i]];
  }

  /** Within one lifetime and without invalidation the cache holds exactly the `capacity` most recently
      touched targets. */
  lemma {:induction false} NothingRecentIsMissing(ops: seq<Op>, states: seq<seq<Line>>, capacity: nat, ttl: int, start: int, i: nat)
    requires IsCacheRun(ops, states, capacity, ttl) && i <= |ops| && WithinOneLifetime(ops, start, ttl)
    ensures MostRecent(states[i], ops[..i], capacity)
  {
    if i > 0 {
      var k := i - 1;
      NothingRecentIsMissing(ops, states, capacity, ttl, start, k);
      CallOfRun(ops, states, capacity, ttl, start, k);
      KeepsRecent(states[k], ops[..k], ops[k], states[k + 1], capacity, ttl, start);
    }
  }
}
