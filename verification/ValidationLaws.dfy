/** What a validation leaves behind, said of the answers its calls got (maintenance.go:535-616). */
module ValidationLaws {
  import opened Ring
  import opened Wrappers
  import opened NodeLists
  import opened ListOrder
  import opened NodeSpec
  import opened Picks

  /** A node is taken for alive if it is this one, or if there is a client and it answered. */
  predicate Alive(self: int, hasClient: bool, n: NodeInfo, answer: bool) {
    n.id != EMPTY && (n.id == self || (hasClient && answer))
  }

  function Current(st: NodeState): seq<NodeInfo> {
    if st.list == [] && st.succ.id != EMPTY then [st.succ] else st.list
  }

  function AliveAt(st: NodeState, opts: Options, p: Probe): nat -> bool {
    (i: nat) => i < |Current(st)| && Alive(st.self.id, opts.hasClient, Current(st)[i], p.alive(i))
  }

  /** What may be taken from the list of the last kept entry. */
  function ExtensionAt(st: NodeState, opts: Options, p: Probe): nat -> bool {
    (i: nat) =>
      && p.lastList.Some? && i < |p.lastList.value|
      && p.lastList.value[i].id != EMPTY && p.lastList.value[i].id != st.self.id && opts.hasClient && p.extAlive(i)
  }

  lemma {:induction false} KeepLiveTakes(self: int, current: seq<NodeInfo>, hasClient: bool, alive: nat -> bool, ok: nat -> bool,
                                         i: nat, out: seq<NodeInfo>, limit: nat) returns (idx: seq<nat>)
    requires i <= |current| && |out| <= limit
    requires forall j: nat :: j < |current| ==> (ok(j) <==> PingAnswer(self, current[j], hasClient, alive(j)))
    ensures Takes(current, ok, Ids(out), limit - |out|, i, idx)
    ensures KeepLive(self, current, hasClient, alive, i, out, limit) == out + At(current, idx)
    decreases |current| - i
  {
    if i == |current| || |out| == limit {
      idx := [];
      TakesNone(current, ok, Ids(out), limit - |out|, i);
    } else if !ok(i) || current[i].id in Ids(out) {
      idx := KeepLiveTakes(self, current, hasClient, alive, ok, i + 1, out, limit);
      Passes(current, ok, Ids(out), limit - |out|, i, idx);
    } else {
      var rest := KeepLiveTakes(self, current, hasClient, alive, ok, i + 1, out + [current[i]], limit);
      TakesOne(current, ok, out, limit, i, rest);
      idx := [i] + rest;
    }
  }

  lemma {:induction false} ExtendTakes(self: int, more: seq<NodeInfo>, hasClient: bool, alive: nat -> bool, ok: nat -> bool,
                                       i: nat, out: seq<NodeInfo>, limit: nat) returns (idx: seq<nat>)
    requires i <= |more| && |out| <= limit
    requires forall j: nat :: j < |more| ==>
               (ok(j) <==> more[j].id != EMPTY && more[j].id != self && PingAnswer(self, more[j], hasClient, alive(j)))
    ensures Takes(more, ok, Ids(out), limit - |out|, i, idx)
    ensures Extend(self, more, hasClient, alive, i, out, limit) == out + At(more, idx)
    decreases |more| - i
  {
    if i == |more| || |out| == limit {
      idx := [];
      TakesNone(more, ok, Ids(out), limit - |out|, i);
    } else if !ok(i) || more[i].id in Ids(out) {
      idx := ExtendTakes(self, more, hasClient, alive, ok, i + 1, out, limit);
      Passes(more, ok, Ids(out), limit - |out|, i, idx);
    } else {
      var rest := ExtendTakes(self, more, hasClient, alive, ok, i + 1, out + [more[i]], limit);
      TakesOne(more, ok, out, limit, i, rest);
      idx := [i] + rest;
    }
  }

  /** The places of the entries kept, and of those added from the list of the last one kept. */
  datatype Choice = Choice(kept: seq<nat>, added: seq<nat>)

  ghost predicate Extends(st: NodeState, opts: Options, p: Probe, kept: seq<NodeInfo>) {
    && 0 < |kept| < EffectiveLimit(opts.listSize) && opts.hasClient && kept[|kept| - 1].id != st.self.id
    && p.lastList.Some?
  }

  /** Every entry that answered is kept, once each and in order, as far as there is room; a list not yet full goes
      on with entries of the last one's list that answered. */
  ghost predicate Chosen(st: NodeState, opts: Options, p: Probe, c: Choice) {
    && Takes(Current(st), AliveAt(st, opts, p), {}, EffectiveLimit(opts.listSize), 0, c.kept)
    && var kept := At(Current(st), c.kept);
    && (if Extends(st, opts, p, kept)
        then Takes(p.lastList.value, ExtensionAt(st, opts, p), Ids(kept), EffectiveLimit(opts.listSize) - |kept|, 0, c.added)
        else c.added == [])
  }

  function ChosenList(st: NodeState, p: Probe, c: Choice): seq<NodeInfo>
    requires InRange(Current(st), c.kept)
    requires c.added != [] ==> p.lastList.Some? && InRange(p.lastList.value, c.added)
  {
    At(Current(st), c.kept) + if c.added == [] then [] else At(p.lastList.value, c.added)
  }

  lemma ValidatedIsChosen(st: NodeState, opts: Options, p: Probe) returns (c: Choice)
    ensures Chosen(st, opts, p, c)
    ensures Validated(st.self.id, Current(st), EffectiveLimit(opts.listSize), opts.hasClient, p) == ChosenList(st, p, c)
  {
    var current, limit := Current(st), EffectiveLimit(opts.listSize);
    var kept := KeepLiveTakes(st.self.id, current, opts.hasClient, p.alive, AliveAt(st, opts, p), 0, [], limit);
    assert [] + At(current, kept) == At(current, kept);
    assert Ids([]) == {};
    if Extends(st, opts, p, At(current, kept)) {
      var added := ExtendTakes(st.self.id, p.lastList.value, opts.hasClient, p.extAlive, ExtensionAt(st, opts, p), 0,
                               At(current, kept), limit);
      c := Choice(kept, added);
      assert added == [] ==> At(p.lastList.value, added) == [];
    } else {
      c := Choice(kept, []);
    }
  }

  // ----- the whole state -----

  /** A node other than this one answered a ping of this validation. */
  ghost predicate Answering(st: NodeState, opts: Options, p: Probe, c: Choice, id: int)
    requires c.added != [] ==> p.lastList.Some? && InRange(p.lastList.value, c.added)
  {
    || (exists i: nat :: i < |Current(st)| && AliveAt(st, opts, p)(i) && Current(st)[i].id == id != st.self.id)
    || (exists j :: 0 <= j < |c.added| && p.lastList.value[c.added[j]].id == id)
  }

  lemma ReachedAnswers(st: NodeState, opts: Options, p: Probe, c: Choice, id: int)
    requires Chosen(st, opts, p, c)
    requires Validated(st.self.id, Current(st), EffectiveLimit(opts.listSize), opts.hasClient, p) == ChosenList(st, p, c)
    ensures id in ValidationReached(st.self.id, Current(st), EffectiveLimit(opts.listSize), opts.hasClient, p)
            <==> Answering(st, opts, p, c, id)
  {
    var current, limit := Current(st), EffectiveLimit(opts.listSize);
    var idx := KeepLiveTakes(st.self.id, current, opts.hasClient, p.alive, AliveAt(st, opts, p), 0, [], limit);
    assert Ids([]) == {} && [] + At(current, idx) == At(current, idx);
    TakesOneWay(current, AliveAt(st, opts, p), {}, limit, 0, idx, c.kept);
    AnsweredAre(st, opts, p, id);
    AddedAre(st, opts, p, c, id);
  }

  lemma AnsweredAre(st: NodeState, opts: Options, p: Probe, id: int)
    ensures id in Answered(st.self.id, Current(st), opts.hasClient, p.alive)
            <==> exists i: nat :: i < |Current(st)| && AliveAt(st, opts, p)(i) && Current(st)[i].id == id != st.self.id
  {
    var current := Current(st);
    if id in Answered(st.self.id, current, opts.hasClient, p.alive) {
      var i :| 0 <= i < |current| && current[i].id != st.self.id
               && PingAnswer(st.self.id, current[i], opts.hasClient, p.alive(i)) && current[i].id == id;
      assert AliveAt(st, opts, p)(i);
    }
    if i: nat :| i < |current| && AliveAt(st, opts, p)(i) && current[i].id == id != st.self.id {
      assert PingAnswer(st.self.id, current[i], opts.hasClient, p.alive(i));
    }
  }

  lemma AppendedIds(a: seq<NodeInfo>, b: seq<NodeInfo>, id: int)
    requires forall j :: 0 <= j < |b| ==> b[j].id !in Ids(a)
    ensures id in Ids(a + b) - Ids(a) <==> exists j :: 0 <= j < |b| && b[j].id == id
  {
    if j :| 0 <= j < |b| && b[j].id == id {
      assert b[j] in a + b;
    }
  }

  lemma AddedAreNew(st: NodeState, opts: Options, p: Probe, c: Choice)
    requires Chosen(st, opts, p, c) && c.added != []
    ensures p.lastList.Some? && InRange(p.lastList.value, c.added)
    ensures forall j :: 0 <= j < |c.added| ==> p.lastList.value[c.added[j]].id !in Ids(At(Current(st), c.kept))
  {
  }

  lemma AppendedAt(kept: seq<NodeInfo>, source: seq<NodeInfo>, idx: seq<nat>, id: int)
    requires InRange(source, idx) && forall j :: 0 <= j < |idx| ==> source[idx[j]].id !in Ids(kept)
    ensures id in Ids(kept + At(source, idx)) - Ids(kept) <==> exists j :: 0 <= j < |idx| && source[idx[j]].id == id
  {
    var added := At(source, idx);
    AppendedIds(kept, added, id);
    if j :| 0 <= j < |added| && added[j].id == id {
      assert source[idx[j]].id == id;
    }
    if j :| 0 <= j < |idx| && source[idx[j]].id == id {
      assert added[j].id == id;
    }
  }

  lemma NothingAppended(kept: seq<NodeInfo>)
    ensures kept + [] == kept && Ids(kept + []) - Ids(kept) == {}
  {
    assert kept + [] == kept;
  }

  lemma AddedAre(st: NodeState, opts: Options, p: Probe, c: Choice, id: int)
    requires Chosen(st, opts, p, c)
    ensures id in Ids(ChosenList(st, p, c)) - Ids(At(Current(st), c.kept))
            <==> exists j :: 0 <= j < |c.added| && p.lastList.value[c.added[j]].id == id
  {
    if c.added == [] {
      NothingAppended(At(Current(st), c.kept));
    } else {
      AddedAreNew(st, opts, p, c);
      AppendedAt(At(Current(st), c.kept), p.lastList.value, c.added, id);
    }
  }

  predicate SameFinger(before: Finger, after: Finger, answered: bool) {
    after == if answered then before.(status := Ok) else before
  }

  /** Pointers and list after a validation that made the choice `c`. */
  ghost predicate PointersLeft(st: NodeState, p: Probe, c: Choice, after: NodeState)
    requires InRange(Current(st), c.kept)
    requires c.added != [] ==> p.lastList.Some? && InRange(p.lastList.value, c.added)
  {
    && after.self == st.self && after.predList == st.predList
    && if c.kept == []
       then after.status == Isolated && after.pred == None && after.succ == st.self && after.list == [st.self] && !after.listValid
       else && after.status == st.status && after.pred == st.pred
            && after.list == ChosenList(st, p, c) && after.succ == after.list[0]
            && (after.listValid <==> Violations(st.self.id, after.succ.id, after.list) == [])
  }

  /** The count of every node that answered is gone, and its fingers are trusted again. */
  ghost predicate CountsLeft(st: NodeState, answered: int -> bool, after: NodeState) {
    && (forall id :: id in after.failures <==> id in st.failures && !answered(id))
    && (forall id :: id in after.failures ==> after.failures[id] == st.failures[id])
  }

  ghost predicate FingersLeft(st: NodeState, answered: int -> bool, isolated: bool, after: NodeState) {
    && |after.fingers| == |st.fingers|
    && forall i :: 0 <= i < |st.fingers| ==>
         if i == 0 && !isolated then after.fingers[0] == Finger(after.succ, Ok, true)
         else SameFinger(st.fingers[i], after.fingers[i], answered(st.fingers[i].node.id))
  }

  ghost predicate Left(st: NodeState, opts: Options, p: Probe, c: Choice, after: NodeState)
    requires Chosen(st, opts, p, c)
  {
    var answered := (id: int) => Answering(st, opts, p, c, id);
    && PointersLeft(st, p, c, after) && CountsLeft(st, answered, after) && FingersLeft(st, answered, c.kept == [], after)
  }

  lemma WritesLeave(st: NodeState, reached: set<int>, valid: seq<NodeInfo>)
    ensures var after := WriteValidated(MarkSuccesses(st, reached), valid);
            var answered := (id: int) => id in reached;
            && CountsLeft(st, answered, after) && FingersLeft(st, answered, valid == [], after)
  {
  }

  lemma SameAnswers(st: NodeState, reached: set<int>, answered: int -> bool, isolated: bool, after: NodeState)
    requires forall id :: id in reached <==> answered(id)
    requires var inReached := (id: int) => id in reached;
             CountsLeft(st, inReached, after) && FingersLeft(st, inReached, isolated, after)
    ensures CountsLeft(st, answered, after) && FingersLeft(st, answered, isolated, after)
  {
  }

  lemma KeptDecides(st: NodeState, opts: Options, p: Probe, c: Choice)
    requires Chosen(st, opts, p, c)
    ensures ChosenList(st, p, c) == [] <==> c.kept == []
  {
  }

  /** What a validation leaves behind, for any replies. */
  lemma ValidationLaw(st: NodeState, opts: Options, p: Probe) returns (c: Choice)
    ensures Chosen(st, opts, p, c) && Left(st, opts, p, c, Validation(st, opts, p))
  {
    c := ValidatedIsChosen(st, opts, p);
    KeptDecides(st, opts, p, c);
    var reached := ValidationReached(st.self.id, Current(st), EffectiveLimit(opts.listSize), opts.hasClient, p);
    var answered := (id: int) => Answering(st, opts, p, c, id);
    forall id ensures id in reached <==> answered(id) {
      ReachedAnswers(st, opts, p, c, id);
    }
    var valid := ChosenList(st, p, c);
    assert Validation(st, opts, p) == WriteValidated(MarkSuccesses(st, reached), valid);
    WritesLeave(st, reached, valid);
    SameAnswers(st, reached, answered, c.kept == [], Validation(st, opts, p));
  }

  ghost predicate SomeoneAlive(st: NodeState, opts: Options, p: Probe) {
    exists i: nat :: i < |Current(st)| && AliveAt(st, opts, p)(i)
  }

  lemma NobodyKept(st: NodeState, opts: Options, p: Probe, c: Choice)
    requires Chosen(st, opts, p, c)
    ensures c.kept == [] <==> !SomeoneAlive(st, opts, p)
  {
    if i: nat :| i < |Current(st)| && AliveAt(st, opts, p)(i) {
      assert SeenTo(Current(st), EffectiveLimit(opts.listSize), c.kept, i);
    }
    if c.kept != [] {
      assert AliveAt(st, opts, p)(c.kept[0]);
    }
  }

  /** Validation isolates a node if and only if none of its entries answered. */
  lemma IsolatedIffNoneAnswers(st: NodeState, opts: Options, p: Probe)
    requires st.status != Isolated
    ensures Validation(st, opts, p).status == Isolated <==> !SomeoneAlive(st, opts, p)
  {
    var c := ValidationLaw(st, opts, p);
    NobodyKept(st, opts, p, c);
  }

  lemma KeptAnswered(st: NodeState, opts: Options, p: Probe, c: Choice, m: nat)
    requires Chosen(st, opts, p, c) && m < |c.kept|
    ensures c.kept[m] < |Current(st)| && Alive(st.self.id, opts.hasClient, Current(st)[c.kept[m]], p.alive(c.kept[m]))
  {
    assert AliveAt(st, opts, p)(c.kept[m]);
  }

  lemma AddedAnswered(st: NodeState, opts: Options, p: Probe, c: Choice, m: nat)
    requires Chosen(st, opts, p, c) && m < |c.added|
    ensures p.lastList.Some? && c.added[m] < |p.lastList.value| && p.extAlive(c.added[m]) && opts.hasClient
  {
    assert ExtensionAt(st, opts, p)(c.added[m]);
  }

  lemma PlaceOf(st: NodeState, p: Probe, c: Choice, n: NodeInfo) returns (m: nat)
    requires InRange(Current(st), c.kept) && (c.added != [] ==> p.lastList.Some? && InRange(p.lastList.value, c.added))
    requires n in ChosenList(st, p, c)
    ensures if m < |c.kept| then n == Current(st)[c.kept[m]]
            else m - |c.kept| < |c.added| && n == p.lastList.value[c.added[m - |c.kept|]]
  {
    m :| 0 <= m < |ChosenList(st, p, c)| && ChosenList(st, p, c)[m] == n;
  }

  /** Whoever is in the list afterwards is this node or has answered a ping of this validation. */
  lemma EveryEntryAnswered(st: NodeState, opts: Options, p: Probe, n: NodeInfo)
    requires n in Validation(st, opts, p).list && n.id != st.self.id
    ensures opts.hasClient
    ensures || (exists i: nat :: i < |Current(st)| && Current(st)[i] == n && p.alive(i))
            || (p.lastList.Some? && exists i: nat :: i < |p.lastList.value| && p.lastList.value[i] == n && p.extAlive(i))
  {
    var c := ValidationLaw(st, opts, p);
    var m := PlaceOf(st, p, c, n);
    if m < |c.kept| {
      KeptAnswered(st, opts, p, c, m);
    } else {
      AddedAnswered(st, opts, p, c, m - |c.kept|);
    }
  }
}
