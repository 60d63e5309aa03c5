/** Whole runs of requests and cleanups: when is a (timestamp, nonce) pair accepted at most once? */
module NonceRuns {
  import opened NonceCache
  import Sets

  datatype Config = Config(tolerance: int, ttl: int, maxSize: int)

  /** A request judged at `now`, or the background cleanup, whose tick `t` is never ahead of the clock. */
  datatype Event =
    | Request(timestamp: int, nonce: string, now: int)
    | Tidy(t: int, now: int)

  function After(c: Config, entries: map<string, int>, e: Event): Outcome {
    match e
    case Request(timestamp, nonce, now) =>
      if InWindow(now, timestamp, c.tolerance) then Added(entries, c.ttl, c.maxSize, nonce, now)
      else Outcome(false, entries)
    case Tidy(t, _) => Outcome(false, Cleaned(entries, t))
  }

  /** The clock does not run backwards. */
  ghost predicate IsRun(c: Config, events: seq<Event>, states: seq<map<string, int>>) {
    && |states| == |events| + 1 && states[0] == map[]
    && (forall i :: 0 <= i < |events| ==> states[i + 1] == After(c, states[i], events[i]).entries)
    && (forall i, j :: 0 <= i < j < |events| ==> events[i].now <= events[j].now)
    && (forall i :: 0 <= i < |events| && events[i].Tidy? ==> events[i].t <= events[i].now)
  }

  /** Timestamps are near enough for the window check to be exact. */
  ghost predicate Near(events: seq<Event>) {
    forall i :: 0 <= i < |events| && events[i].Request? ==> NonceCache.Distance(events[i].now, events[i].timestamp) <= FAR
  }

  ghost predicate Accepts(c: Config, events: seq<Event>, states: seq<map<string, int>>, i: nat, timestamp: int, nonce: string)
    requires IsRun(c, events, states)
  {
    && i < |events| && events[i].Request? && events[i].timestamp == timestamp && events[i].nonce == nonce
    && After(c, states[i], events[i]).accepted
  }

  ghost predicate AcceptsTwice(c: Config, events: seq<Event>, states: seq<map<string, int>>)
    requires IsRun(c, events, states)
  {
    exists i: nat, j: nat, timestamp, nonce ::
      i < j && Accepts(c, events, states, i, timestamp, nonce) && Accepts(c, events, states, j, timestamp, nonce)
  }

  /** No run accepts the same pair twice. */
  ghost predicate AtMostOnce(c: Config) {
    forall events, states :: IsRun(c, events, states) && Near(events) ==> !AcceptsTwice(c, events, states)
  }

  /** Whole seconds of tolerance: the check truncates the clock, so a timestamp stays acceptable for
      (2 * Seconds + 1) seconds, less one nanosecond. */
  function Seconds(c: Config): int {
    c.tolerance / SECOND
  }

  predicate LongEnough(c: Config) {
    c.ttl >= (2 * Seconds(c) + 1) * SECOND - 1
  }

  /** An accepted nonce is still remembered as long as nothing later than its expiry has been used to clean. */
  lemma {:induction false} Remembered(c: Config, events: seq<Event>, states: seq<map<string, int>>, i: nat, j: nat, nonce: string)
    requires IsRun(c, events, states) && i < j <= |events|
    requires events[i].Request? && events[i].nonce == nonce && After(c, states[i], events[i]).accepted
    requires forall k :: i < k < j ==> events[k].now <= events[i].now + c.ttl
    ensures nonce in states[j] && states[j][nonce] == events[i].now + c.ttl
    decreases j
  {
    if j > i + 1 {
      Remembered(c, events, states, i, j - 1, nonce);
      assert states[j - 1 + 1] == After(c, states[j - 1], events[j - 1]).entries;
    } else {
      assert states[i + 1] == After(c, states[i], events[i]).entries;
    }
  }

  /** Two moments at which the same timestamp passes are less than the window apart. */
  lemma WindowWidth(c: Config, timestamp: int, first: int, second: int)
    requires NonceCache.Distance(first, timestamp) <= FAR && NonceCache.Distance(second, timestamp) <= FAR
    requires InWindow(first, timestamp, c.tolerance) && InWindow(second, timestamp, c.tolerance)
    ensures second - first <= (2 * Seconds(c) + 1) * SECOND - 1
  {
    WindowIsExact(first, timestamp, c.tolerance);
    WindowIsExact(second, timestamp, c.tolerance);
    assert NonceCache.Distance(first, timestamp) <= Seconds(c) && NonceCache.Distance(second, timestamp) <= Seconds(c);
  }

  lemma LongEnoughSuffices(c: Config, events: seq<Event>, states: seq<map<string, int>>)
    requires IsRun(c, events, states) && Near(events) && LongEnough(c)
    ensures !AcceptsTwice(c, events, states)
  {
    forall i: nat, j: nat, timestamp, nonce
      | i < j && Accepts(c, events, states, i, timestamp, nonce) && j < |events|
        && events[j].Request? && events[j].timestamp == timestamp && events[j].nonce == nonce
      ensures !Accepts(c, events, states, j, timestamp, nonce)
    {
      if InWindow(events[j].now, timestamp, c.tolerance) {
        WindowWidth(c, timestamp, events[i].now, events[j].now);
        Remembered(c, events, states, i, j, nonce);
      }
    }
  }

  /** One request, a cleanup and the same request again. */
  function Twice(timestamp: int, first: int, second: int): seq<Event> {
    [Request(timestamp, "n", first), Tidy(second, second), Request(timestamp, "n", second)]
  }

  function TwiceStates(c: Config, first: int, second: int): seq<map<string, int>> {
    [map[], map["n" := first + c.ttl], map[], map["n" := second + c.ttl]]
  }

  /** Both get through once the first entry has expired. */
  lemma TwiceAccepted(c: Config, timestamp: int, first: int, second: int)
    requires c.maxSize > 0 && first <= second && second > first + c.ttl
    requires InWindow(first, timestamp, c.tolerance) && InWindow(second, timestamp, c.tolerance)
    ensures var events, states := Twice(timestamp, first, second), TwiceStates(c, first, second);
            IsRun(c, events, states) && AcceptsTwice(c, events, states)
  {
    var events, states := Twice(timestamp, first, second), TwiceStates(c, first, second);
    assert After(c, states[0], events[0]) == Outcome(true, states[1]);
    assert After(c, states[1], events[1]).entries == map[];
    assert After(c, states[2], events[2]) == Outcome(true, states[3]);
    assert IsRun(c, events, states);
    assert Accepts(c, events, states, 0, timestamp, "n") && Accepts(c, events, states, 2, timestamp, "n");
  }

  /** The pair that gets through twice when entries expire too early: first at the opening of its window,
      again at the close, with one cleanup in between. */
  lemma ShortIsNotEnough(c: Config) returns (events: seq<Event>, states: seq<map<string, int>>)
    requires 0 <= c.tolerance <= INT64_MAX && c.maxSize > 0 && !LongEnough(c)
    ensures IsRun(c, events, states) && Near(events) && AcceptsTwice(c, events, states)
  {
    var T := Seconds(c);
    var close := (2 * T + 1) * SECOND - 1;
    events, states := Twice(T, 0, close), TwiceStates(c, 0, close);
    assert Unix(0) == 0 && Unix(close) == 2 * T && T <= FAR;
    WindowIsExact(0, T, c.tolerance);
    WindowIsExact(close, T, c.tolerance);
    TwiceAccepted(c, T, 0, close);
  }

  /** Nearness cannot be dropped, whenever the run starts: a timestamp FAR + 1 seconds behind the clock makes
      the wrapped comparison admit a pair before and after its entry expires, whatever 64-bit lifetime is
      configured.  (A lifetime that carries the clock FAR + 1 seconds on needs no old timestamp at all.) */
  lemma FarTimestampsRepeat(c: Config, start: int) returns (events: seq<Event>, states: seq<map<string, int>>)
    requires 0 <= c.tolerance <= INT64_MAX && 0 <= c.ttl < INT64_MAX && c.maxSize > 0
    ensures IsRun(c, events, states) && AcceptsTwice(c, events, states) && events[0].now == start
  {
    var later := start + c.ttl + 1;
    assert 0 <= Unix(later) - Unix(start) <= FAR + 1;
    var timestamp := Unix(start);
    if Unix(later) - Unix(start) <= FAR {
      timestamp := Unix(start) - FAR - 1;
      WindowWraps(start, timestamp, c.tolerance);
      WindowWraps(later, timestamp, c.tolerance);
    } else {
      WindowIsExact(start, timestamp, c.tolerance);
      WindowWraps(later, timestamp, c.tolerance);
    }
    TwiceAccepted(c, timestamp, start, later);
    events, states := Twice(timestamp, start, later), TwiceStates(c, start, later);
  }

  /** Exactly when no run accepts a pair twice: nothing is ever accepted, or entries live at least as long
      as a timestamp can stay acceptable. */
  lemma AtMostOnceIff(c: Config)
    requires c.tolerance <= INT64_MAX
    ensures AtMostOnce(c) <==> c.tolerance < 0 || c.maxSize <= 0 || LongEnough(c)
  {
    if c.tolerance < 0 || c.maxSize <= 0 {
      forall events, states | IsRun(c, events, states) && Near(events) ensures !AcceptsTwice(c, events, states) {
        NothingAccepted(c, events, states);
      }
    } else if LongEnough(c) {
      forall events, states | IsRun(c, events, states) && Near(events) ensures !AcceptsTwice(c, events, states) {
        LongEnoughSuffices(c, events, states);
      }
    } else {
      var events, states := ShortIsNotEnough(c);
    }
  }

  lemma NothingAccepted(c: Config, events: seq<Event>, states: seq<map<string, int>>)
    requires IsRun(c, events, states) && Near(events) && (c.tolerance < 0 || c.maxSize <= 0)
    ensures !AcceptsTwice(c, events, states)
  {
    forall i: nat, timestamp, nonce | i < |events| && events[i].Request? ensures !Accepts(c, events, states, i, timestamp, nonce) {
      WindowIsExact(events[i].now, events[i].timestamp, c.tolerance);
    }
  }

  /** A lifetime of twice the tolerance plus one second is enough; the default configuration, exactly twice
      the tolerance, falls short of the exact bound by a second less one nanosecond. */
  lemma DefaultsFallShort()
    ensures forall c: Config :: 0 <= c.tolerance <= INT64_MAX && c.ttl >= 2 * c.tolerance + SECOND ==> LongEnough(c)
    ensures !AtMostOnce(Config(300 * SECOND, 600 * SECOND, 10000))
    ensures AtMostOnce(Config(300 * SECOND, 601 * SECOND - 1, 10000))
  {
    var c := Config(300 * SECOND, 600 * SECOND, 10000);
    assert Seconds(c) == 300 && Seconds(c.(ttl := 601 * SECOND - 1)) == 300;
    AtMostOnceIff(c);
    AtMostOnceIff(c.(ttl := 601 * SECOND - 1));
  }

  /** The cache never holds more than its maximum. */
  lemma {:induction false} Bounded(c: Config, events: seq<Event>, states: seq<map<string, int>>, i: nat)
    requires IsRun(c, events, states) && i <= |events| && c.maxSize >= 0
    ensures |states[i]| <= c.maxSize
  {
    if i > 0 {
      Bounded(c, events, states, i - 1);
      var e := events[i - 1];
      assert states[i - 1 + 1] == After(c, states[i - 1], e).entries;
      CleanedCard(states[i - 1], if e.Tidy? then e.t else e.now);
    }
  }

  /** It holds only nonces that were accepted. */
  lemma {:induction false} Earned(c: Config, events: seq<Event>, states: seq<map<string, int>>, i: nat, nonce: string) returns (k: nat)
    requires IsRun(c, events, states) && i <= |events| && nonce in states[i]
    ensures k < i && events[k].Request? && events[k].nonce == nonce && After(c, states[k], events[k]).accepted
  {
    k := i - 1;
    assert states[k + 1] == After(c, states[k], events[k]).entries;
    if nonce in states[k] {
      k := Earned(c, events, states, k, nonce);
    }
  }

  lemma CleanedCard(entries: map<string, int>, now: int)
    ensures |Cleaned(entries, now)| <= |entries|
  {
    Sets.SubsetCard(Cleaned(entries, now).Keys, entries.Keys);
    assert |Cleaned(entries, now).Keys| == |Cleaned(entries, now)| && |entries.Keys| == |entries|;
  }

  /** A nonce that was never accepted is turned away, inside the window, exactly when the cache is full of
      entries that have not expired. */
  lemma TurnedAwayIffFull(c: Config, events: seq<Event>, states: seq<map<string, int>>, i: nat)
    requires IsRun(c, events, states) && i < |events| && c.maxSize >= 0
    requires events[i].Request? && InWindow(events[i].now, events[i].timestamp, c.tolerance)
    requires forall k: nat :: k < i && events[k].Request? && events[k].nonce == events[i].nonce ==>
               !After(c, states[k], events[k]).accepted
    ensures !After(c, states[i], events[i]).accepted <==> |Cleaned(states[i], events[i].now)| >= c.maxSize
  {
    CleanedCard(states[i], events[i].now);
    if events[i].nonce in states[i] {
      var k := Earned(c, events, states, i, events[i].nonce);
    }
  }

  /** The cleanup keeps exactly what has not expired.  So does a request with a new nonce that finds the cache full, whether
      it then finds room or is turned away. */
  lemma FullCacheIsSwept(c: Config, events: seq<Event>, states: seq<map<string, int>>, i: nat, nonce: string)
    requires IsRun(c, events, states) && i < |events|
    ensures events[i].Tidy? ==>
              (nonce in states[i + 1] <==> nonce in states[i] && events[i].t <= states[i][nonce])
    ensures events[i].Request? && InWindow(events[i].now, events[i].timestamp, c.tolerance) && events[i].nonce !in states[i]
            && |states[i]| >= c.maxSize && nonce != events[i].nonce ==>
              (nonce in states[i + 1] <==> nonce in states[i] && events[i].now <= states[i][nonce])
  {
    assert states[i + 1] == After(c, states[i], events[i]).entries;
  }
}
