/** The stable-base predicate of corrected Chord: walking along a list of nodes never jumps over a
    base node.  It speaks of the list value only, so it survives stale copies.
 */
module NoSkip {
  import opened Ring
  import opened Sets
  import opened NodeLists
  import opened ListOrder

  /** No step of the walk `from`, list[0], list[1], ... passes over `b`. */
  predicate WalkSkipsNot(b: int, from: int, list: seq<NodeInfo>)
    decreases |list|
  {
    list == [] || (!InRangeOpenOpen(b, from, list[0].id) && WalkSkipsNot(b, list[0].id, list[1..]))
  }

  ghost predicate SkipsNone(base: set<int>, from: int, list: seq<NodeInfo>) {
    forall b :: b in base ==> WalkSkipsNot(b, from, list)
  }

  function LastId(from: int, list: seq<NodeInfo>): int {
    if list == [] then from else list[|list| - 1].id
  }

  lemma {:induction false} WalkConcat(b: int, from: int, s: seq<NodeInfo>, t: seq<NodeInfo>)
    ensures WalkSkipsNot(b, from, s + t) <==> WalkSkipsNot(b, from, s) && WalkSkipsNot(b, LastId(from, s), t)
    decreases |s|
  {
    if s == [] {
      assert s + t == t;
    } else {
      assert (s + t)[1..] == s[1..] + t;
      WalkConcat(b, s[0].id, s[1..], t);
    }
  }

  lemma WalkPrefix(base: set<int>, from: int, s: seq<NodeInfo>, t: seq<NodeInfo>)
    requires SkipsNone(base, from, s + t)
    ensures SkipsNone(base, from, s) && SkipsNone(base, LastId(from, s), t)
  {
    forall b | b in base ensures WalkSkipsNot(b, from, s) && WalkSkipsNot(b, LastId(from, s), t) {
      WalkConcat(b, from, s, t);
    }
  }

  lemma WalkJoin(base: set<int>, from: int, s: seq<NodeInfo>, t: seq<NodeInfo>)
    requires SkipsNone(base, from, s) && SkipsNone(base, LastId(from, s), t)
    ensures SkipsNone(base, from, s + t)
  {
    forall b | b in base ensures WalkSkipsNot(b, from, s + t) {
      WalkConcat(b, from, s, t);
    }
  }

  /** A walk that skips `b` at no step and does not stop at it on the way does not pass it at all. */
  lemma {:induction false} WalkCollapses(b: int, from: int, list: seq<NodeInfo>)
    requires list != [] && AllValid(list) && WalkSkipsNot(b, from, list)
    requires b !in Ids(list[..|list| - 1])
    ensures !InRangeOpenOpen(b, from, list[|list| - 1].id)
    decreases |list|
  {
    if |list| > 1 {
      var rest := list[1..];
      assert list[..|list| - 1] == [list[0]] + rest[..|rest| - 1];
      WalkCollapses(b, list[0].id, rest);
      if InRangeOpenOpen(b, from, list[|list| - 1].id) {
        ThreePoint(from, list[0].id, list[|list| - 1].id, b);
      }
    }
  }

  /** A closed walk goes all the way round: it stops at every base node. */
  lemma ClosedWalkCovers(b: int, from: int, list: seq<NodeInfo>)
    requires ValidId(b) && list != [] && AllValid(list) && WalkSkipsNot(b, from, list)
    requires LastId(from, list) == from
    ensures b in Ids(list)
  {
    if b !in Ids(list[..|list| - 1]) {
      WalkCollapses(b, from, list);
      assert list[|list| - 1] in list;
    } else {
      assert forall n :: n in list[..|list| - 1] ==> n in list;
    }
  }

  lemma {:induction false} IdsBound(s: seq<NodeInfo>)
    ensures |Ids(s)| <= |s|
  {
    if s != [] {
      IdsBound(s[..|s| - 1]);
      assert s == s[..|s| - 1] + [s[|s| - 1]];
      AnchorCountAppend(s[..|s| - 1], s[|s| - 1]);
    }
  }

  lemma TooManyToFit(base: set<int>, self: int, s: seq<NodeInfo>)
    requires base <= {self} + Ids(s)
    ensures |base| <= |s| + 1
  {
    IdsBound(s);
    SubsetCard(base, {self} + Ids(s));
  }

  /** Taking any non-base entry out of a list opens no gap. */
  lemma RemoveOther(base: set<int>, self: int, before: seq<NodeInfo>, x: NodeInfo, after: seq<NodeInfo>)
    requires AllValid(before + [x] + after) && SkipsNone(base, self, before + [x] + after) && x.id !in base
    ensures SkipsNone(base, self, before + after)
  {
    forall b | b in base ensures WalkSkipsNot(b, self, before + after) {
      assert before + [x] + after == before + ([x] + after);
      WalkConcat(b, self, before, [x] + after);
      WalkConcat(b, LastId(self, before), [x], after);
      WalkConcat(b, self, before, after);
      assert ValidId((before + [x] + after)[|before|].id);
      if after != [] {
        if InRangeOpenOpen(b, LastId(self, before), after[0].id) {
          ThreePoint(LastId(self, before), x.id, after[0].id, b);
        }
      }
    }
  }

  /** Where the size of the base matters.  A walk that comes back to a base node it has stopped at
      has stopped at all of them. */
  lemma ReturnCovers(base: set<int>, self: int, out: seq<NodeInfo>, x: NodeInfo)
    requires forall b :: b in base ==> ValidId(b)
    requires AllValid(out + [x]) && SkipsNone(base, self, out + [x])
    requires x.id in {self} + Ids(out)
    ensures base <= {self} + Ids(out)
  {
    var i: nat := 0;
    if x.id != self {
      var n :| n in out && n.id == x.id;
      i :| 0 <= i < |out| && out[i] == n;
      i := i + 1;
    }
    var loop := out[i..] + [x];
    assert out[..i] + loop == out + [x];
    WalkPrefix(base, self, out[..i], loop);
    forall k | 0 <= k < |loop| ensures ValidId(loop[k].id) {
      assert loop[k] == (out + [x])[i + k];
    }
    forall b | b in base ensures b in {self} + Ids(out) {
      ClosedWalkCovers(b, LastId(self, out[..i]), loop);
      var n :| n in loop && n.id == b;
      assert n == x || n in out;
    }
  }

  /** A list of at most r entries cannot come back to a base node it already holds, so an entry
      dropped as "self" or "already seen" is never a base node, and dropping it opens no gap. */
  lemma DropIsHarmless(base: set<int>, self: int, out: seq<NodeInfo>, x: NodeInfo, rest: seq<NodeInfo>)
    requires forall b :: b in base ==> ValidId(b)
    requires AllValid(out + [x] + rest) && SkipsNone(base, self, out + [x] + rest)
    requires |base| > |out| + 1
    requires x.id in base ==> x.id == self || x.id in Ids(out)
    ensures x.id !in base
    ensures SkipsNone(base, self, out + rest)
  {
    if x.id in base {
      WalkPrefix(base, self, out + [x], rest);
      assert forall k :: 0 <= k < |out + [x]| ==> (out + [x])[k] == (out + [x] + rest)[k];
      ReturnCovers(base, self, out, x);
      TooManyToFit(base, self, out);
    }
    RemoveOther(base, self, out, x, rest);
  }

  /** Entries an honest node passes on: well-formed, and never a base node disguised as a vnode. */
  predicate Honest(base: set<int>, n: NodeInfo) {
    ValidId(n.id) && (n.id in base ==> n.anchor == EMPTY)
  }

  predicate AllHonest(base: set<int>, s: seq<NodeInfo>) {
    forall i :: 0 <= i < |s| ==> Honest(base, s[i])
  }

  ghost predicate BaseFor(base: set<int>, limit: nat) {
    && (forall b :: b in base ==> ValidId(b))
    && |base| > limit
  }

  lemma {:induction false} MergeFromSkipsNone(base: set<int>, self: int, out: seq<NodeInfo>, rest: seq<NodeInfo>,
                                              limit: nat, maxFromAnchor: nat)
    requires BaseFor(base, limit) && |out| <= limit
    requires AllHonest(base, out + rest) && SkipsNone(base, self, out + rest)
    ensures SkipsNone(base, self, MergeFrom(self, out, rest, limit, maxFromAnchor))
    ensures AllHonest(base, MergeFrom(self, out, rest, limit, maxFromAnchor))
    decreases |rest|
  {
    if |out| >= limit || rest == [] {
      WalkPrefix(base, self, out, rest);
      assert forall k :: 0 <= k < |out| ==> out[k] == (out + rest)[k];
    } else {
      var x, tail := rest[0], rest[1..];
      assert out + rest == out + [x] + tail;
      assert Honest(base, (out + rest)[|out|]);
      if Rejected(self, out, x, maxFromAnchor) {
        DropIsHarmless(base, self, out, x, tail);
        assert forall k :: 0 <= k < |out + tail| ==> (out + tail)[k] == (out + rest)[if k < |out| then k else k + 1];
        MergeFromSkipsNone(base, self, out, tail, limit, maxFromAnchor);
      } else {
        MergeFromSkipsNone(base, self, out + [x], tail, limit, maxFromAnchor);
      }
    }
  }

  /** The merge skips no base node if its input does not and the base has more than r members; the
      result is then headed by the successor. */
  lemma MergeSkipsNone(base: set<int>, self: NodeInfo, size: int, cap: real, successor: NodeInfo, remote: seq<NodeInfo>)
    requires BaseFor(base, EffectiveLimit(size)) && ValidId(self.id)
    requires AllHonest(base, [successor] + remote)
    requires SkipsNone(base, self.id, [successor]) && SkipsNone(base, successor.id, remote)
    ensures var r := Merge(self, size, cap, successor, remote);
            && successor.id != self.id
            && r[0] == successor && SkipsNone(base, self.id, r) && AllHonest(base, r)
            && self.id !in Ids(r)
  {
    var limit := EffectiveLimit(size);
    WalkJoin(base, self.id, [successor], remote);
    assert Honest(base, ([successor] + remote)[0]);
    if successor.id == self.id {
      forall b | b in base ensures b in {self.id} + Ids([]) {
        ClosedWalkCovers(b, self.id, [successor]);
      }
      TooManyToFit(base, self.id, []);
    }
    assert [] + ([successor] + remote) == [successor] + remote;
    MergeFromSkipsNone(base, self.id, [], [successor] + remote, limit, MaxFromAnchor(limit, cap));
    MergeMeaning(self, size, cap, successor, remote);
    var r := Merge(self, size, cap, successor, remote);
    assert r[0].id in Ids(r);
  }

  // ----- the base size r + 1 orders the lists -----

  lemma AscendingCons(self: int, list: seq<NodeInfo>)
    requires ValidId(self) && list != [] && AllValid(list) && list[0].id != self
    requires Ascending(self, list[1..]) && (|list| == 1 || Offset(self, list[0].id) < Offset(self, list[1].id))
    ensures Ascending(self, list)
  {
    var rest := list[1..];
    forall i, j | 0 <= i < j < |list| ensures Offset(self, list[i].id) < Offset(self, list[j].id) {
      if i > 0 {
        assert Offset(self, rest[i - 1].id) < Offset(self, rest[j - 1].id);
      } else if j > 1 {
        assert Offset(self, rest[0].id) < Offset(self, rest[j - 1].id);
      }
    }
    forall i | 0 < i < |list| ensures list[i].id != self {
      assert rest[i - 1].id != self;
    }
  }

  /** If the offsets from `self` stop rising somewhere after offset `reached`, the walk has come past
      every base node beyond `reached`, all of them before its last entry. */
  lemma {:induction false} DescentCovers(b: int, self: int, from: int, list: seq<NodeInfo>)
    requires ValidId(self) && ValidId(from) && ValidId(b) && AllValid(list)
    requires WalkSkipsNot(b, from, list)
    requires !Ascending(self, list) || (list != [] && Offset(self, list[0].id) <= Offset(self, from))
    ensures list != [] && (Offset(self, b) <= Offset(self, from) || b in Ids(list[..|list| - 1]))
    decreases |list|
  {
    if Offset(self, list[0].id) <= Offset(self, from) {
    } else {
      var rest := list[1..];
      if Ascending(self, rest) && (|list| == 1 || Offset(self, list[0].id) < Offset(self, list[1].id)) {
        AscendingCons(self, list);
      }
      DescentCovers(b, self, list[0].id, rest);
      assert list[..|list| - 1] == [list[0]] + rest[..|rest| - 1];
    }
  }

  /** With more than r base nodes, every list of at most r entries that skips none is in ring order,
      so the order check has nothing to report. */
  lemma BaseSizeOrdersLists(base: set<int>, self: int, limit: nat, list: seq<NodeInfo>)
    requires BaseFor(base, limit) && ValidId(self) && AllValid(list)
    requires |list| <= limit && SkipsNone(base, self, list)
    ensures Ascending(self, list)
    ensures ListShape(self, limit, list)
    ensures list != [] ==> Violations(self, list[0].id, list) == []
  {
    if !Ascending(self, list) {
      forall b | b in base ensures b in {self} + Ids(list[..|list| - 1]) {
        DescentCovers(b, self, self, list);
      }
      assert list != [];
      TooManyToFit(base, self, list[..|list| - 1]);
    }
    assert Distinct(list) by {
      assert forall i, j :: 0 <= i < j < |list| ==> Offset(self, list[i].id) < Offset(self, list[j].id);
    }
    assert self !in Ids(list) && EMPTY !in Ids(list);
    NoViolationsIff(self, if list == [] then EMPTY else list[0].id, limit, list);
  }

  function Plain(x: int): NodeInfo {
    NodeInfo(x, x, EMPTY, EMPTY)
  }

  lemma FiveMerged(tail: seq<NodeInfo>)
    requires tail == [Plain(0), Plain(5)]
    ensures Merge(Plain(0), 5, 0.5, Plain(10), [Plain(20), Plain(30), Plain(40)] + tail)
         == [Plain(10), Plain(20), Plain(30), Plain(40), Plain(5)]
  {
    var most := MaxFromAnchor(5, 0.5);
    var four := [Plain(10), Plain(20), Plain(30), Plain(40)];
    var input := [Plain(10)] + ([Plain(20), Plain(30), Plain(40)] + tail);
    assert input == four + tail;
    for i := 0 to 4
      invariant MergeFrom(0, [], input, 5, most) == MergeFrom(0, four[..i], input[i..], 5, most)
    {
      assert input[i..][0] == four[i] && input[i..][1..] == input[i + 1..];
      assert four[..i] + [four[i]] == four[..i + 1];
      assert !Rejected(0, four[..i], four[i], most);
    }
    assert four[..4] == four && input[4..] == tail && tail[1..] == [Plain(5)];
    assert MergeFrom(0, four, tail, 5, most) == MergeFrom(0, four, [Plain(5)], 5, most);
    assert !Rejected(0, four, Plain(5), most) && [Plain(5)][1..] == [];
    assert MergeFrom(0, four, [Plain(5)], 5, most) == MergeFrom(0, four + [Plain(5)], [], 5, most);
    assert four + [Plain(5)] == [Plain(10), Plain(20), Plain(30), Plain(40), Plain(5)];
  }

  function FiveRemote(): seq<NodeInfo> {
    [Plain(20), Plain(30), Plain(40), Plain(0), Plain(5)]
  }

  lemma FiveInputs()
    ensures var base := {0, 10, 20, 30, 40};
            SkipsNone(base, 0, [Plain(10)]) && SkipsNone(base, 10, FiveRemote())
  {
    var base, remote := {0, 10, 20, 30, 40}, FiveRemote();
    forall b | b in base ensures WalkSkipsNot(b, 0, [Plain(10)]) && WalkSkipsNot(b, 10, remote) {
      assert WalkSkipsNot(b, 0, remote[4..]);
      assert remote[3..][1..] == remote[4..] && WalkSkipsNot(b, 40, remote[3..]);
      assert remote[2..][1..] == remote[3..] && WalkSkipsNot(b, 30, remote[2..]);
      assert remote[1..][1..] == remote[2..] && WalkSkipsNot(b, 20, remote[1..]);
    }
  }

  lemma FiveHonest()
    ensures var base := {0, 10, 20, 30, 40}; |base| == 5 && AllHonest(base, [Plain(10)] + FiveRemote())
  {
    var input := [Plain(10)] + FiveRemote();
    forall i | 0 <= i < |input| ensures input[i].anchor == EMPTY && ValidId(input[i].id) {
      assert i == 0 || input[i] == FiveRemote()[i - 1];
    }
    assert {0, 10, 20, 30, 40} == {0, 10, 20, 30} + {40};
  }

  lemma FiveOutput(r: seq<NodeInfo>)
    requires r == [Plain(10), Plain(20), Plain(30), Plain(40), Plain(5)]
    ensures !WalkSkipsNot(0, 0, r) && OutOfOrderAt(3) in Violations(0, 10, r)
  {
    assert r == [Plain(10), Plain(20), Plain(30), Plain(40)] + [Plain(5)];
    WalkConcat(0, 0, [Plain(10), Plain(20), Plain(30), Plain(40)], [Plain(5)]);
    assert !PairInOrder(0, r, 3);
    assert OrderViolations(0, r, 4) == OrderViolations(0, r, 3) + [OutOfOrderAt(3)];
  }

  /** With only r base nodes the merge itself breaks the property: here r = 5, nothing in the input
      skips a base node, yet the merged list jumps over this node's own id and is reported. */
  lemma FiveAreNotEnough()
    ensures var base := {0, 10, 20, 30, 40};
            var r := Merge(Plain(0), 5, 0.5, Plain(10), FiveRemote());
            && |base| == 5 && AllHonest(base, [Plain(10)] + FiveRemote())
            && SkipsNone(base, 0, [Plain(10)]) && SkipsNone(base, 10, FiveRemote())
            && !SkipsNone(base, 0, r)
            && OutOfOrderAt(3) in Violations(0, 10, r)
  {
    assert FiveRemote() == [Plain(20), Plain(30), Plain(40)] + [Plain(0), Plain(5)];
    FiveMerged([Plain(0), Plain(5)]);
    FiveInputs();
    FiveHonest();
    FiveOutput(Merge(Plain(0), 5, 0.5, Plain(10), FiveRemote()));
    assert 0 in {0, 10, 20, 30, 40};
  }
}
