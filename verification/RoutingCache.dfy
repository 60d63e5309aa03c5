/** The cache object: a map from targets to entries and a list of the same entries in order of use,
    updated in place (routing_cache.go:45-148).
 */
module RoutingCache {
  import opened Ring
  import opened Sets
  import opened Wrappers
  import opened NodeLists
  import opened CacheSpec

  const DEFAULT_ROUTING_CACHE_SIZE: nat := 1000
  const DEFAULT_ROUTING_CACHE_TTL: nat := 30_000_000_000  // nanoseconds

  class Entry {
    const target: int
    var pred: int
    var succ: NodeInfo
    var at: int

    constructor (target: int, pred: int, succ: NodeInfo, at: int)
      ensures this.target == target && this.pred == pred && this.succ == succ && this.at == at
    {
      this.target, this.pred, this.succ, this.at := target, pred, succ, at;
    }

    function View(): Line
      reads this
    {
      Line(target, pred, succ, at)
    }
  }

  class Cache {
    const capacity: nat
    const ttl: int
    var items: map<int, Entry>
    var order: seq<Entry>
    var hits: nat
    var misses: nat

    /** Map and list hold the same entries, each once. */
    static ghost predicate Consistent(items: map<int, Entry>, order: seq<Entry>) {
      && (forall i, j :: 0 <= i < j < |order| ==> order[i] != order[j])
      && (forall e :: e in order ==> e.target in items && items[e.target] == e)
      && (forall k :: k in items ==> items[k] in order && items[k].target == k)
    }

    ghost predicate Valid()
      reads this
    {
      capacity > 0 && |order| <= capacity && Consistent(items, order)
    }

    static lemma RemovedMembers(order: seq<Entry>, i: nat)
      requires i < |order| && forall a, b :: 0 <= a < b < |order| ==> order[a] != order[b]
      ensures forall e :: e in Removed(order, i) <==> e in order && e != order[i]
      ensures forall e :: e in Fronted(order, i) <==> e in order
    {
      forall e ensures e in Removed(order, i) <==> e in order && e != order[i] {
        if e in order && e != order[i] {
          var m :| 0 <= m < |order| && order[m] == e;
          assert Removed(order, i)[if m < i then m else m - 1] == e;
        }
        if e in Removed(order, i) {
          var m :| 0 <= m < |Removed(order, i)| && Removed(order, i)[m] == e;
          assert order[if m < i then m else m + 1] == e;
        }
      }
    }

    static lemma RemovedConsistent(items: map<int, Entry>, order: seq<Entry>, i: nat)
      requires Consistent(items, order) && i < |order|
      ensures Consistent(items - {order[i].target}, Removed(order, i))
    {
      RemovedMembers(order, i);
      assert order[i] in order;
    }

    static lemma FrontedConsistent(items: map<int, Entry>, order: seq<Entry>, i: nat)
      requires Consistent(items, order) && i < |order|
      ensures Consistent(items, Fronted(order, i))
    {
      RemovedMembers(order, i);
      var f, r := Fronted(order, i), Removed(order, i);
      assert order[i] !in r;
      forall a, b | 0 <= a < b < |f| ensures f[a] != f[b] {
        assert f[b] == r[b - 1] && r[b - 1] in r;
        assert a > 0 ==> f[a] == r[a - 1];
      }
    }

    static lemma InsertedConsistent(items: map<int, Entry>, order: seq<Entry>, e: Entry)
      requires Consistent(items, order) && e.target !in items
      ensures Consistent(items[e.target := e], [e] + order)
    {
      var f := [e] + order;
      forall a, b | 0 <= a < b < |f| ensures f[a] != f[b] {
        assert f[b] == order[b - 1] && order[b - 1] in order;
      }
    }

    static function Views(es: seq<Entry>): (s: seq<Line>)
      reads es
      ensures |s| == |es| && forall i :: 0 <= i < |s| ==> s[i] == es[i].View()
    {
      seq(|es|, i requires 0 <= i < |es| reads es => es[i].View())
    }

    function Lines(): seq<Line>
      reads this, order
    {
      Views(order)
    }

    static lemma ViewsMoved(es: seq<Entry>, i: nat)
      requires i < |es|
      ensures Views(Removed(es, i)) == Removed(Views(es), i)
      ensures Views(Fronted(es, i)) == Fronted(Views(es), i)
    {
    }

    constructor (capacity: int, ttl: int)
      ensures Valid() && Lines() == []
      ensures this.capacity == (if capacity <= 0 then DEFAULT_ROUTING_CACHE_SIZE else capacity)
      ensures this.ttl == (if ttl <= 0 then DEFAULT_ROUTING_CACHE_TTL else ttl)
    {
      this.capacity := if capacity <= 0 then DEFAULT_ROUTING_CACHE_SIZE else capacity;
      this.ttl := if ttl <= 0 then DEFAULT_ROUTING_CACHE_TTL else ttl;
      items, order, hits, misses := map[], [], 0, 0;
    }

    /** Where an entry stands in the list. */
    method Find(e: Entry) returns (i: nat)
      requires e in order
      ensures i < |order| && order[i] == e
    {
      i := 0;
      while order[i] != e
        invariant 0 <= i < |order|
        invariant e in order[i..]
        decreases |order| - i
      {
        i := i + 1;
      }
    }

    method MoveToFront(e: Entry) returns (ghost i: nat)
      requires Valid() && e in order
      modifies this`order
      ensures Valid() && i < |old(order)| && old(order)[i] == e
      ensures order == Fronted(old(order), i) && forall x :: x in order <==> x in old(order)
      ensures Lines() == Fronted(old(Lines()), i) && old(Lines())[i] == e.View()
    {
      var k := Find(e);
      i := k;
      FrontedConsistent(items, order, k);
      RemovedMembers(order, k);
      ViewsMoved(order, k);
      order := [e] + (order[..k] + order[k + 1..]);
    }

    method Evict(e: Entry) returns (ghost i: nat)
      requires Valid() && e in order
      modifies this`order, this`items
      ensures Valid() && i < |old(order)| && old(order)[i] == e
      ensures order == Removed(old(order), i) && forall x :: x in order <==> x in old(order) && x != e
      ensures items == old(items) - {e.target}
      ensures Lines() == Removed(old(Lines()), i) && old(Lines())[i] == e.View()
    {
      var k := Find(e);
      i := k;
      RemovedConsistent(items, order, k);
      RemovedMembers(order, k);
      ViewsMoved(order, k);
      order := order[..k] + order[k + 1..];
      items := items - {e.target};
    }

    lemma LinesAre()
      requires Valid()
      ensures forall target :: Holds(Lines(), target) <==> target in items
    {
      forall target ensures Holds(Lines(), target) <==> target in items {
        if target in items {
          var i :| 0 <= i < |order| && order[i] == items[target];
          assert Lines()[i].target == target;
        }
      }
    }

    /** `now` is the time of the call. */
    method Get(target: int, now: int) returns (r: Option<NodeInfo>)
      requires Valid()
      modifies this
      ensures Valid() && (forall e :: e in order ==> e in old(order))
      ensures GetResult(old(Lines()), target, now, ttl, Lines(), r)
      ensures hits == old(hits) + (if r.Some? then 1 else 0) && misses == old(misses) + (if r.None? then 1 else 0)
    {
      LinesAre();
      if target in items {
        r := GetExact(items[target], now);
      } else {
        r := GetCovering(target, now);
      }
    }

    method GetExact(e: Entry, now: int) returns (r: Option<NodeInfo>)
      requires Valid() && e in order
      modifies this
      ensures Valid() && (forall x :: x in order ==> x in old(order))
      ensures ExactResult(old(Lines()), e.target, now, ttl, Lines(), r)
      ensures hits == old(hits) + (if r.Some? then 1 else 0) && misses == old(misses) + (if r.None? then 1 else 0)
    {
      if now - e.at > ttl {
        ghost var i := Evict(e);
        misses := misses + 1;
        return None;
      }
      r := AnswerFrom(e);
    }

    method AnswerFrom(e: Entry) returns (r: Option<NodeInfo>)
      requires Valid() && e in order
      modifies this`order, this`hits
      ensures Valid() && (forall x :: x in order ==> x in old(order)) && hits == old(hits) + 1
      ensures AnswersFrom(old(Lines()), e.View(), Lines(), r)
    {
      ghost var i := MoveToFront(e);
      hits := hits + 1;
      return Some(e.succ);
    }

    method GetCovering(target: int, now: int) returns (r: Option<NodeInfo>)
      requires Valid()
      modifies this
      ensures Valid() && (forall x :: x in order ==> x in old(order))
      ensures IntervalResult(old(Lines()), target, now, ttl, Lines(), r)
      ensures hits == old(hits) + (if r.Some? then 1 else 0) && misses == old(misses) + (if r.None? then 1 else 0)
    {
      var found := FindCovering(target, now);
      if found.Some? {
        r := AnswerFrom(found.value);
        return;
      }
      misses := misses + 1;
      return None;
    }

    /** Some fresh entry whose arc contains the target; which one is not specified. */
    method FindCovering(target: int, now: int) returns (r: Option<Entry>)
      requires Valid()
      ensures r.Some? ==> r.value in order && Serves(r.value.View(), target, now, ttl)
      ensures r.None? ==> NoneServes(Lines(), target, now, ttl)
    {
      var keys := items.Keys;
      while keys != {}
        invariant keys <= items.Keys
        invariant forall k :: k in items && k !in keys ==> !Serves(items[k].View(), target, now, ttl)
        decreases keys
      {
        var k := Pick(keys);
        keys := keys - {k};
        var e := items[k];
        if now - e.at > ttl {
          continue;
        }
        if e.pred == EMPTY {
          continue;
        }
        if InRangeOpenClosed(target, e.pred, e.succ.id) {
          return Some(e);
        }
      }
      forall j | 0 <= j < |order| ensures !Serves(order[j].View(), target, now, ttl) {
        assert order[j] in order;
      }
      return None;
    }

    method Put(target: int, pred: int, succ: NodeInfo, now: int)
      requires Valid()
      modifies this, order
      ensures Valid() && (forall e :: e in order ==> e in old(order) || fresh(e))
      ensures PutResult(old(Lines()), capacity, Line(target, pred, succ, now), Lines())
      ensures hits == old(hits) && misses == old(misses)
    {
      if target == EMPTY || succ.id == EMPTY {
        return;
      }
      LinesAre();
      if target in items {
        Update(items[target], pred, succ, now);
        return;
      }
      InsertNew(target, pred, succ, now);
    }

    method InsertNew(target: int, pred: int, succ: NodeInfo, now: int)
      requires Valid() && target !in items
      modifies this`order, this`items
      ensures Valid() && (forall e :: e in order ==> e in old(order) || fresh(e))
      ensures Lines() == [Line(target, pred, succ, now)] + MakeRoom(old(Lines()), capacity)
    {
      if |order| >= capacity {
        EvictLast();
      }
      Insert(target, pred, succ, now);
    }

    method SetEntry(e: Entry, pred: int, succ: NodeInfo, now: int)
      requires Valid() && e in order
      modifies e
      ensures e.View() == Line(e.target, pred, succ, now)
      ensures forall i :: 0 <= i < |order| && order[i] == e ==>
                Lines() == old(Lines())[i := e.View()] && old(Lines())[i].target == e.target
    {
      e.pred, e.succ, e.at := pred, succ, now;
    }

    method Update(e: Entry, pred: int, succ: NodeInfo, now: int)
      requires Valid() && e in order
      modifies this`order, e
      ensures Valid() && (forall x :: x in order ==> x in old(order))
      ensures Replaces(old(Lines()), Line(e.target, pred, succ, now), Lines())
    {
      ghost var before := Lines();
      SetEntry(e, pred, succ, now);
      ghost var i := MoveToFront(e);
      ghost var l := Line(e.target, pred, succ, now);
      assert before[i].target == e.target;
      assert Removed(before[i := l], i) == Removed(before, i);
    }

    method Insert(target: int, pred: int, succ: NodeInfo, now: int)
      requires Valid() && target !in items && |order| < capacity
      modifies this`order, this`items
      ensures Valid() && (forall x :: x in order ==> x in old(order) || fresh(x))
      ensures Lines() == [Line(target, pred, succ, now)] + old(Lines())
    {
      ghost var before := Lines();
      var e := new Entry(target, pred, succ, now);
      InsertedConsistent(items, order, e);
      order := [e] + order;
      items := items[target := e];
      assert Lines() == [Line(target, pred, succ, now)] + before;
    }

    method EvictLast()
      requires Valid()
      modifies this`order, this`items
      ensures Valid()
      ensures order == if |old(order)| == 0 then [] else old(order)[..|old(order)| - 1]
      ensures items.Keys <= old(items).Keys && Lines() == if |old(order)| == 0 then [] else old(Lines())[..|old(order)| - 1]
    {
      if |order| == 0 {
        return;
      }
      var back := order[|order| - 1];
      ghost var i := Evict(back);
      assert i == |old(order)| - 1;
    }

    method InvalidateAll()
      requires Valid()
      modifies this`order, this`items
      ensures Valid() && Lines() == []
    {
      items, order := map[], [];
    }

    method Cleanup(now: int)
      requires Valid()
      modifies this`order, this`items
      ensures Valid() && (forall e :: e in order ==> e in old(order))
      ensures Lines() == Unexpired(old(Lines()), now, ttl)
    {
      ghost var before := order;
      ghost var dropped := EvictExpired(now);
      KeepMembers(before, dropped);
      KeepIsUnexpired(before, dropped, now);
    }

    /** Where the walk over the map stands when `keys` are still to be looked at. */
    ghost predicate Swept(before: seq<Entry>, dropped: set<Entry>, keys: set<int>, now: int)
      reads this, before, dropped
    {
      && Valid() && keys <= items.Keys
      && (forall a, b :: 0 <= a < b < |before| ==> before[a] != before[b])
      && order == Keep(before, dropped)
      && (forall e :: e in dropped ==> now - e.at > ttl)
      && (forall e :: e in order ==> e in before && (e.target in keys || now - e.at <= ttl))
    }

    /** The walk over the map: an entry is dropped exactly when it has expired. */
    method EvictExpired(now: int) returns (ghost dropped: set<Entry>)
      requires Valid()
      modifies this`order, this`items
      ensures Swept(old(order), dropped, {}, now)
    {
      ghost var before := order;
      dropped := {};
      var keys := items.Keys;
      KeepAll(before);
      while keys != {}
        invariant Swept(before, dropped, keys, now)
        decreases keys
      {
        var k := Pick(keys);
        dropped := EvictIfExpired(k, now, keys, before, dropped);
        keys := keys - {k};
      }
    }

    method EvictIfExpired(k: int, now: int, ghost keys: set<int>, ghost before: seq<Entry>, ghost dropped: set<Entry>)
      returns (ghost dropped': set<Entry>)
      requires Swept(before, dropped, keys, now) && k in keys
      modifies this`order, this`items
      ensures Swept(before, dropped', keys - {k}, now)
    {
      var e := items[k];
      dropped' := dropped;
      if now - e.at > ttl {
        EvictKept(e, before, dropped);
        dropped' := dropped + {e};
      }
    }

    method EvictKept(e: Entry, ghost before: seq<Entry>, ghost dropped: set<Entry>)
      requires Valid() && e in order && order == Keep(before, dropped)
      requires forall a, b :: 0 <= a < b < |before| ==> before[a] != before[b]
      modifies this`order, this`items
      ensures Valid() && order == Keep(before, dropped + {e}) && items == old(items) - {e.target}
      ensures forall x :: x in order ==> x in old(order)
    {
      ghost var was := order;
      ghost var i := Evict(e);
      KeepDrop(before, dropped, e, was, i);
    }

    ghost function Keep(s: seq<Entry>, dropped: set<Entry>): seq<Entry> {
      if s == [] then []
      else Keep(s[..|s| - 1], dropped) + if s[|s| - 1] in dropped then [] else [s[|s| - 1]]
    }

    lemma {:induction false} KeepAll(s: seq<Entry>)
      ensures Keep(s, {}) == s
    {
      if s != [] {
        KeepAll(s[..|s| - 1]);
      }
    }

    lemma {:induction false} KeepMembers(s: seq<Entry>, dropped: set<Entry>)
      ensures forall e :: e in Keep(s, dropped) <==> e in s && e !in dropped
    {
      if s != [] {
        KeepMembers(s[..|s| - 1], dropped);
        assert s == s[..|s| - 1] + [s[|s| - 1]];
      }
    }

    /** Evicting one entry from what is kept is the same as keeping without it. */
    lemma {:induction false} KeepDrop(s: seq<Entry>, dropped: set<Entry>, e: Entry, was: seq<Entry>, i: nat)
      requires forall a, b :: 0 <= a < b < |s| ==> s[a] != s[b]
      requires was == Keep(s, dropped) && i < |was| && was[i] == e
      ensures Keep(s, dropped + {e}) == Removed(was, i)
    {
      var before, x := s[..|s| - 1], s[|s| - 1];
      KeepMembers(before, dropped);
      var kept := Keep(before, dropped);
      if i == |kept| {
        assert e == x && e !in before;
        KeepSame(before, dropped, e);
        assert Removed(was, i) == kept;
      } else {
        assert kept[i] == e && e in kept && e in before;
        KeepDrop(before, dropped, e, kept, i);
        RemovedFromFront(kept, was[|kept|..], i);
        assert was == kept + was[|kept|..];
      }
    }

    static lemma RemovedFromFront(a: seq<Entry>, b: seq<Entry>, i: nat)
      requires i < |a|
      ensures Removed(a + b, i) == Removed(a, i) + b
    {
    }

    lemma {:induction false} KeepSame(s: seq<Entry>, dropped: set<Entry>, e: Entry)
      requires e !in s
      ensures Keep(s, dropped + {e}) == Keep(s, dropped)
    {
      if s != [] {
        KeepSame(s[..|s| - 1], dropped, e);
      }
    }

    lemma {:induction false} KeepIsUnexpired(s: seq<Entry>, dropped: set<Entry>, now: int)
      requires forall e :: e in s ==> (e in dropped <==> now - e.at > ttl)
      ensures Views(Keep(s, dropped)) == Unexpired(Views(s), now, ttl)
    {
      if s != [] {
        var before, x := s[..|s| - 1], s[|s| - 1];
        KeepIsUnexpired(before, dropped, now);
        assert Views(s)[..|s| - 1] == Views(before);
        assert x in s;
        if x !in dropped {
          assert Views(Keep(before, dropped) + [x]) == Views(Keep(before, dropped)) + [x.View()];
        }
      }
    }
  }
}
