/** Going through a list once and taking what qualifies, as a property of the positions taken: in order, each
    id once, nothing passed over without a reason.  It leaves no freedom, so it says what the loops that filter
    node lists are for without repeating any of them.
 */
module Picks {
  import opened Ring
  import opened NodeLists

  /** Entry i is taken, or an earlier entry of its id is, or there was no room left. */
  ghost predicate SeenTo(source: seq<NodeInfo>, room: nat, idx: seq<nat>, i: nat)
    requires i < |source| && InRange(source, idx)
  {
    || (exists j :: 0 <= j < |idx| && idx[j] <= i && source[idx[j]].id == source[i].id)
    || (|idx| == room && forall j :: 0 <= j < |idx| ==> idx[j] < i)
  }

  ghost predicate InRange(source: seq<NodeInfo>, idx: seq<nat>) {
    forall j :: 0 <= j < |idx| ==> idx[j] < |source|
  }

  ghost predicate Allowed(source: seq<NodeInfo>, ok: nat -> bool, have: set<int>, from: nat, idx: seq<nat>) {
    forall j :: 0 <= j < |idx| ==> from <= idx[j] < |source| && ok(idx[j]) && source[idx[j]].id !in have
  }

  ghost predicate InOrder(idx: seq<nat>) {
    forall j, k :: 0 <= j < k < |idx| ==> idx[j] < idx[k]
  }

  ghost predicate OnceEach(source: seq<NodeInfo>, idx: seq<nat>)
    requires InRange(source, idx)
  {
    forall j, k :: 0 <= j < k < |idx| ==> source[idx[j]].id != source[idx[k]].id
  }

  /** From position `from` on, `idx` are the places of the entries that are `ok` and whose id is neither in `have`
      nor taken before, up to `room` of them. */
  ghost predicate Takes(source: seq<NodeInfo>, ok: nat -> bool, have: set<int>, room: nat, from: nat, idx: seq<nat>) {
    && InRange(source, idx) && |idx| <= room
    && Allowed(source, ok, have, from, idx) && InOrder(idx) && OnceEach(source, idx)
    && (forall i: nat :: from <= i < |source| && ok(i) && source[i].id !in have ==> SeenTo(source, room, idx, i))
  }

  function At(source: seq<NodeInfo>, idx: seq<nat>): seq<NodeInfo>
    requires forall j :: 0 <= j < |idx| ==> idx[j] < |source|
  {
    seq(|idx|, j requires 0 <= j < |idx| => source[idx[j]])
  }

  lemma TakesNone(source: seq<NodeInfo>, ok: nat -> bool, have: set<int>, room: nat, from: nat)
    requires from >= |source| || room == 0
    ensures Takes(source, ok, have, room, from, [])
  {
  }

  lemma Passes(source: seq<NodeInfo>, ok: nat -> bool, have: set<int>, room: nat, from: nat, idx: seq<nat>)
    requires from < |source| && Takes(source, ok, have, room, from + 1, idx)
    requires !ok(from) || source[from].id in have
    ensures Takes(source, ok, have, room, from, idx)
  {
  }

  /** One more place in front accounts for all that the rest accounts for, and for its own id. */
  lemma SeenToInFront(source: seq<NodeInfo>, room: nat, from: nat, idx: seq<nat>, i: nat)
    requires from < |source| && room > 0 && from <= i < |source| && InRange(source, idx)
    requires source[i].id == source[from].id || (from < i && SeenTo(source, room - 1, idx, i))
    ensures InRange(source, [from] + idx) && SeenTo(source, room, [from] + idx, i)
  {
    var all := [from] + idx;
    assert all[0] == from && forall j :: 0 <= j < |idx| ==> all[j + 1] == idx[j];
    assert forall k :: 0 < k < |all| ==> all[k] == idx[k - 1];
  }

  lemma InFront(source: seq<NodeInfo>, from: nat, idx: seq<nat>)
    requires from < |source| && InRange(source, idx)
    ensures InRange(source, [from] + idx) && At(source, [from] + idx) == [source[from]] + At(source, idx)
    ensures forall k :: 0 < k < |idx| + 1 ==> ([from] + idx)[k] == idx[k - 1]
  {
  }

  lemma OrderedInFront(from: nat, idx: seq<nat>)
    requires InOrder(idx) && forall j :: 0 <= j < |idx| ==> from < idx[j]
    ensures InOrder([from] + idx)
  {
  }

  lemma OnceEachInFront(source: seq<NodeInfo>, from: nat, idx: seq<nat>)
    requires from < |source| && InRange(source, idx) && OnceEach(source, idx)
    requires forall j :: 0 <= j < |idx| ==> source[idx[j]].id != source[from].id
    ensures InRange(source, [from] + idx) && OnceEach(source, [from] + idx)
  {
    InFront(source, from, idx);
  }

  lemma TakesFirst(source: seq<NodeInfo>, ok: nat -> bool, have: set<int>, room: nat, from: nat, idx: seq<nat>)
    requires from < |source| && room > 0 && ok(from) && source[from].id !in have
    requires Takes(source, ok, have + {source[from].id}, room - 1, from + 1, idx)
    ensures Takes(source, ok, have, room, from, [from] + idx)
    ensures At(source, [from] + idx) == [source[from]] + At(source, idx)
  {
    InFront(source, from, idx);
    OrderedInFront(from, idx);
    OnceEachInFront(source, from, idx);
    forall i: nat | from <= i < |source| && ok(i) && source[i].id !in have ensures SeenTo(source, room, [from] + idx, i) {
      SeenToInFront(source, room, from, idx, i);
    }
  }

  lemma Joined(out: seq<NodeInfo>, n: NodeInfo, tail: seq<NodeInfo>)
    ensures (out + [n]) + tail == out + ([n] + tail)
  {
  }

  lemma MoreIds(out: seq<NodeInfo>, n: NodeInfo)
    ensures Ids(out + [n]) == Ids(out) + {n.id}
  {
  }

  /** Taking the entry at `i` and then the rest, put behind what there was. */
  lemma TakesOne(source: seq<NodeInfo>, ok: nat -> bool, out: seq<NodeInfo>, limit: nat, i: nat, rest: seq<nat>)
    requires i < |source| && |out| < limit && ok(i) && source[i].id !in Ids(out)
    requires Takes(source, ok, Ids(out + [source[i]]), limit - |out| - 1, i + 1, rest)
    ensures Takes(source, ok, Ids(out), limit - |out|, i, [i] + rest)
    ensures (out + [source[i]]) + At(source, rest) == out + At(source, [i] + rest)
  {
    MoreIds(out, source[i]);
    TakesFirst(source, ok, Ids(out), limit - |out|, i, rest);
    Joined(out, source[i], At(source, rest));
  }

  ghost predicate SameUpTo(a: seq<nat>, b: seq<nat>, k: nat) {
    k <= |a| && k <= |b| && forall j :: 0 <= j < k ==> a[j] == b[j]
  }

  lemma SeenToByOther(source: seq<NodeInfo>, ok: nat -> bool, have: set<int>, room: nat, from: nat, a: seq<nat>, b: seq<nat>, k: nat)
    requires Takes(source, ok, have, room, from, a) && Takes(source, ok, have, room, from, b) && k < |a|
    ensures SeenTo(source, room, b, a[k])
  {
  }

  lemma EarlierOnesDiffer(source: seq<NodeInfo>, a: seq<nat>, b: seq<nat>, k: nat, j: nat)
    requires InRange(source, a) && InRange(source, b) && OnceEach(source, a) && k < |a| && SameUpTo(a, b, k)
    requires j < |b| && source[b[j]].id == source[a[k]].id
    ensures k <= j
  {
  }

  lemma NextNotLater(source: seq<NodeInfo>, room: nat, a: seq<nat>, b: seq<nat>, k: nat)
    requires InRange(source, a) && InRange(source, b) && InOrder(b) && OnceEach(source, a) && |a| <= room
    requires k < |a| && SameUpTo(a, b, k) && SeenTo(source, room, b, a[k])
    ensures k < |b| && b[k] <= a[k]
  {
    if j :| 0 <= j < |b| && b[j] <= a[k] && source[b[j]].id == source[a[k]].id {
      EarlierOnesDiffer(source, a, b, k, j);
    }
  }

  /** Where two ways of taking have agreed so far, neither takes its next entry later than the other. */
  lemma NotLater(source: seq<NodeInfo>, ok: nat -> bool, have: set<int>, room: nat, from: nat, a: seq<nat>, b: seq<nat>, k: nat)
    requires Takes(source, ok, have, room, from, a) && Takes(source, ok, have, room, from, b)
    requires k < |a| && SameUpTo(a, b, k)
    ensures k < |b| && b[k] <= a[k]
  {
    SeenToByOther(source, ok, have, room, from, a, b, k);
    NextNotLater(source, room, a, b, k);
  }

  ghost predicate NeverLater(a: seq<nat>, b: seq<nat>) {
    forall k: nat :: k < |a| && SameUpTo(a, b, k) ==> k < |b| && b[k] <= a[k]
  }

  lemma {:induction false} Agree(a: seq<nat>, b: seq<nat>, k: nat)
    requires NeverLater(a, b) && NeverLater(b, a) && k <= |a|
    ensures SameUpTo(a, b, k) && SameUpTo(b, a, k)
    decreases k
  {
    if k > 0 {
      Agree(a, b, k - 1);
    }
  }

  /** There is only one way. */
  lemma TakesOneWay(source: seq<NodeInfo>, ok: nat -> bool, have: set<int>, room: nat, from: nat, a: seq<nat>, b: seq<nat>)
    requires Takes(source, ok, have, room, from, a) && Takes(source, ok, have, room, from, b)
    ensures a == b
  {
    forall k: nat | k < |a| && SameUpTo(a, b, k) ensures k < |b| && b[k] <= a[k] {
      NotLater(source, ok, have, room, from, a, b, k);
    }
    forall k: nat | k < |b| && SameUpTo(b, a, k) ensures k < |a| && a[k] <= b[k] {
      NotLater(source, ok, have, room, from, b, a, k);
    }
    Agree(a, b, |a|);
    Agree(b, a, |b|);
  }

  // ----- duplicate removal -----

  lemma SeenToLater(s: seq<NodeInfo>, t: seq<NodeInfo>, room: nat, idx: seq<nat>, more: seq<nat>, i: nat)
    requires s <= t && idx <= more && i < |s| && InRange(s, idx) && InRange(t, more) && |idx| < room
    requires SeenTo(s, room, idx, i)
    ensures SeenTo(t, room, more, i)
  {
    var j :| 0 <= j < |idx| && idx[j] <= i && s[idx[j]].id == s[i].id;
    assert more[j] == idx[j] && t[idx[j]] == s[idx[j]];
  }

  function Admits(nodes: seq<NodeInfo>, exclude: int): nat -> bool {
    (i: nat) => i < |nodes| && nodes[i].id != EMPTY && nodes[i].id != exclude
  }

  /** Everything but the last claim of Takes. */
  ghost predicate Neat(nodes: seq<NodeInfo>, exclude: int, idx: seq<nat>) {
    InRange(nodes, idx) && Allowed(nodes, Admits(nodes, exclude), {}, 0, idx) && InOrder(idx) && OnceEach(nodes, idx)
  }

  lemma NeatLater(nodes: seq<NodeInfo>, n: nat, exclude: int, idx: seq<nat>)
    requires n <= |nodes| && Neat(nodes[..n], exclude, idx)
    ensures Neat(nodes, exclude, idx) && At(nodes, idx) == At(nodes[..n], idx)
  {
    forall j | 0 <= j < |idx| ensures Admits(nodes, exclude)(idx[j]) && nodes[idx[j]] == nodes[..n][idx[j]] {
      assert Admits(nodes[..n], exclude)(idx[j]);
    }
  }

  lemma NeatOneMore(nodes: seq<NodeInfo>, n: nat, exclude: int, idx: seq<nat>)
    requires n < |nodes| && Neat(nodes, exclude, idx) && (forall j :: 0 <= j < |idx| ==> idx[j] < n)
    requires Admits(nodes, exclude)(n) && nodes[n].id !in Ids(At(nodes, idx))
    ensures Neat(nodes, exclude, idx + [n]) && At(nodes, idx + [n]) == At(nodes, idx) + [nodes[n]]
  {
    var all := idx + [n];
    assert forall j :: 0 <= j < |idx| ==> all[j] == idx[j] && At(nodes, idx)[j] in At(nodes, idx);
  }

  lemma LastSeenTo(nodes: seq<NodeInfo>, room: nat, first: seq<nat>, n: nat)
    requires n < |nodes| && InRange(nodes, first) && nodes[n].id in Ids(At(nodes, first))
    requires forall j :: 0 <= j < |first| ==> first[j] < n
    ensures SeenTo(nodes, room, first, n)
  {
    var x :| x in At(nodes, first) && x.id == nodes[n].id;
    var j :| 0 <= j < |first| && At(nodes, first)[j] == x;
    assert nodes[first[j]].id == nodes[n].id;
  }

  /** The entries of a prefix are settled, and so they stay. */
  ghost predicate AllSeenTo(nodes: seq<NodeInfo>, exclude: int, room: nat, idx: seq<nat>, n: nat)
    requires n <= |nodes| && InRange(nodes, idx)
  {
    forall i: nat :: i < n && Admits(nodes, exclude)(i) ==> SeenTo(nodes, room, idx, i)
  }

  lemma AllSeenToLater(nodes: seq<NodeInfo>, exclude: int, room: nat, n: nat, first: seq<nat>, idx: seq<nat>)
    requires n < |nodes| && InRange(nodes[..n], first) && InRange(nodes, idx) && first <= idx && |first| < room
    requires AllSeenTo(nodes[..n], exclude, room, first, n)
    ensures AllSeenTo(nodes, exclude, room, idx, n)
  {
    forall i: nat | i < n && Admits(nodes, exclude)(i) ensures SeenTo(nodes, room, idx, i) {
      assert Admits(nodes[..n], exclude)(i);
      SeenToLater(nodes[..n], nodes, room, first, idx, i);
    }
  }

  lemma {:induction false} DedupePlaces(nodes: seq<NodeInfo>, exclude: int, room: nat) returns (idx: seq<nat>)
    requires room > |nodes|
    ensures |idx| <= |nodes| && Neat(nodes, exclude, idx) && Dedupe(nodes, exclude) == At(nodes, idx)
    ensures AllSeenTo(nodes, exclude, room, idx, |nodes|)
  {
    if nodes == [] {
      idx := [];
    } else {
      var n := |nodes| - 1;
      var first := DedupePlaces(nodes[..n], exclude, room);
      NeatLater(nodes, n, exclude, first);
      if nodes[n].id in Ids(At(nodes, first)) {
        LastSeenTo(nodes, room, first, n);
        idx := first;
      } else if !Admits(nodes, exclude)(n) {
        idx := first;
      } else {
        NeatOneMore(nodes, n, exclude, first);
        idx := first + [n];
        assert idx[|first|] == n;
      }
      AllSeenToLater(nodes, exclude, room, n, first, idx);
    }
  }

  /** What Dedupe takes: every entry whose id is neither empty nor excluded, the first of each id. */
  lemma DedupeTakes(nodes: seq<NodeInfo>, exclude: int) returns (idx: seq<nat>)
    ensures Takes(nodes, Admits(nodes, exclude), {}, |nodes| + 1, 0, idx) && Dedupe(nodes, exclude) == At(nodes, idx)
  {
    idx := DedupePlaces(nodes, exclude, |nodes| + 1);
  }
}
