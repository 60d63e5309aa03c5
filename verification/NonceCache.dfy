/** The nonce cache and the timestamp window in front of it (auth/nonce_cache.go, auth/verifier.go:132-151).
    Times are nanoseconds since the epoch; header timestamps are whole seconds.
 */
module NonceCache {
  import opened Sets

  const SECOND: nat := 1_000_000_000

  const INT64_MAX: int := 0x7FFF_FFFF_FFFF_FFFF

  // ----- the window check -----

  function Unix(now: int): int {
    now / SECOND
  }

  function Wrap64(x: int): (r: int)
    ensures -INT64_MAX - 1 <= r <= INT64_MAX
    ensures -INT64_MAX - 1 <= x <= INT64_MAX ==> r == x
  {
    (x + INT64_MAX + 1) % 0x1_0000_0000_0000_0000 - INT64_MAX - 1
  }

  /** The check in 64-bit arithmetic: seconds are multiplied into nanoseconds before they are compared. */
  predicate InWindow(now: int, timestamp: int, tolerance: int) {
    var diff := Wrap64(Unix(now) - timestamp);
    var distance := if diff < 0 then Wrap64(-diff) else diff;
    Wrap64(distance * SECOND) <= tolerance
  }

  function Distance(now: int, timestamp: int): nat {
    if Unix(now) >= timestamp then Unix(now) - timestamp else timestamp - Unix(now)
  }

  /** The largest distance whose nanoseconds fit 64 bits; a caller can check it before the call. */
  const FAR: int := 9_223_372_036

  /** Up to there the check is what it is meant to be: whole seconds of distance against the tolerance. */
  lemma WindowIsExact(now: int, timestamp: int, tolerance: int)
    requires Distance(now, timestamp) <= FAR
    ensures InWindow(now, timestamp, tolerance) <==> Distance(now, timestamp) * SECOND <= tolerance
  {
  }

  /** From one second further on, and for as long again, the product wraps to a negative number, which every
      tolerance admits. */
  lemma WindowWraps(now: int, timestamp: int, tolerance: int)
    requires FAR < Distance(now, timestamp) <= 2 * FAR + 1 && 0 <= tolerance <= INT64_MAX
    ensures InWindow(now, timestamp, tolerance) && !(Distance(now, timestamp) * SECOND <= tolerance)
  {
    var d := Distance(now, timestamp) as int;
    assert Wrap64(d * SECOND) == d * SECOND - 0x1_0000_0000_0000_0000;
  }

  // ----- the cache -----

  function Cleaned(entries: map<string, int>, now: int): map<string, int> {
    map n | n in entries && now <= entries[n] :: entries[n]
  }

  datatype Outcome = Outcome(accepted: bool, entries: map<string, int>)

  function Added(entries: map<string, int>, ttl: int, maxSize: int, nonce: string, now: int): Outcome {
    if nonce in entries then Outcome(false, entries)
    else
      var room := if |entries| >= maxSize then Cleaned(entries, now) else entries;
      if |room| >= maxSize then Outcome(false, room) else Outcome(true, room[nonce := now + ttl])
  }

  class Cache {
    var entries: map<string, int>
    const ttl: int
    const maxSize: int

    constructor (ttl: int, maxSize: int)
      ensures entries == map[] && this.ttl == ttl && this.maxSize == maxSize
    {
      entries := map[];
      this.ttl := ttl;
      this.maxSize := maxSize;
    }

    method Add(nonce: string, now: int) returns (accepted: bool)
      modifies this
      ensures Outcome(accepted, entries) == Added(old(entries), ttl, maxSize, nonce, now)
    {
      if nonce in entries {
        return false;
      }
      if |entries| >= maxSize {
        CleanupLocked(now);
        if |entries| >= maxSize {
          return false;
        }
      }
      entries := entries[nonce := now + ttl];
      return true;
    }

    method CleanupLocked(now: int)
      modifies this
      ensures entries == Cleaned(old(entries), now)
    {
      var was := entries;
      var nonces := entries.Keys;
      while nonces != {}
        invariant nonces <= entries.Keys <= was.Keys
        invariant forall n :: n in entries ==> entries[n] == was[n] && (n in nonces || now <= was[n])
        invariant forall n :: n in was && now <= was[n] ==> n in entries
        decreases nonces
      {
        var nonce := Pick(nonces);
        nonces := nonces - {nonce};
        if now > entries[nonce] {
          entries := entries - {nonce};
        }
      }
    }
  }
}
