/** The routing cache as a value: its lines, most recently used first (routing_cache.go). */
module CacheSpec {
  import opened Ring
  import opened Wrappers
  import opened NodeLists

  /** One cached answer: `succ` owns the arc (pred, succ], and `target` lies in it. */
  datatype Line = Line(target: int, pred: int, succ: NodeInfo, at: int)

  function Removed<T>(s: seq<T>, i: nat): seq<T>
    requires i < |s|
  {
    s[..i] + s[i + 1..]
  }

  function Fronted<T>(s: seq<T>, i: nat): seq<T>
    requires i < |s|
  {
    [s[i]] + Removed(s, i)
  }

  predicate DistinctTargets(s: seq<Line>) {
    forall i, j :: 0 <= i < j < |s| ==> s[i].target != s[j].target
  }

  predicate IsExpired(l: Line, now: int, ttl: int) {
    now - l.at > ttl
  }

  predicate Covers(l: Line, target: int) {
    l.pred != EMPTY && InRangeOpenClosed(target, l.pred, l.succ.id)
  }

  ghost predicate Holds(s: seq<Line>, target: int) {
    exists i :: 0 <= i < |s| && s[i].target == target
  }

  /** An exact line decides by its age. */
  ghost predicate ExactResult(s: seq<Line>, target: int, now: int, ttl: int, s': seq<Line>, r: Option<NodeInfo>) {
    exists i :: 0 <= i < |s| && s[i].target == target &&
      if IsExpired(s[i], now, ttl) then s' == Removed(s, i) && r == None
      else s' == Fronted(s, i) && r == Some(s[i].succ)
  }

  predicate Serves(l: Line, target: int, now: int, ttl: int) {
    !IsExpired(l, now, ttl) && Covers(l, target)
  }

  predicate NoneServes(s: seq<Line>, target: int, now: int, ttl: int) {
    forall j :: 0 <= j < |s| ==> !Serves(s[j], target, now, ttl)
  }

  /** Without an exact line, any fresh line that covers the target may answer. */
  ghost predicate IntervalResult(s: seq<Line>, target: int, now: int, ttl: int, s': seq<Line>, r: Option<NodeInfo>) {
    if r.Some? then
      exists j :: 0 <= j < |s| && Serves(s[j], target, now, ttl) && s' == Fronted(s, j) && r == Some(s[j].succ)
    else s' == s && NoneServes(s, target, now, ttl)
  }

  /** The list after a hit on line `l`. */
  ghost predicate AnswersFrom(s: seq<Line>, l: Line, s': seq<Line>, r: Option<NodeInfo>) {
    exists j :: 0 <= j < |s| && s[j] == l && s' == Fronted(s, j) && r == Some(l.succ)
  }

  ghost predicate GetResult(s: seq<Line>, target: int, now: int, ttl: int, s': seq<Line>, r: Option<NodeInfo>) {
    if Holds(s, target) then ExactResult(s, target, now, ttl, s', r)
    else IntervalResult(s, target, now, ttl, s', r)
  }

  /** Storing replaces the line for the target if there is one; otherwise a full cache first gives up its
      last line.  Either way the new line comes first. */
  ghost predicate PutResult(s: seq<Line>, capacity: nat, l: Line, s': seq<Line>) {
    if l.target == EMPTY || l.succ.id == EMPTY then s' == s
    else if Holds(s, l.target) then Replaces(s, l, s')
    else s' == [l] + MakeRoom(s, capacity)
  }

  ghost predicate Replaces(s: seq<Line>, l: Line, s': seq<Line>) {
    exists i :: 0 <= i < |s| && s[i].target == l.target && s' == [l] + Removed(s, i)
  }

  function MakeRoom(s: seq<Line>, capacity: nat): seq<Line> {
    if |s| >= capacity > 0 then s[..|s| - 1] else s
  }

  function Unexpired(s: seq<Line>, now: int, ttl: int): seq<Line> {
    if s == [] then []
    else Unexpired(s[..|s| - 1], now, ttl) + if IsExpired(s[|s| - 1], now, ttl) then [] else [s[|s| - 1]]
  }
}
