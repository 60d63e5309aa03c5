/** Order of a successor list around the ring and the diagnostic that checks it
    (maintenance.go:622-650, node.go:415-429).
 */
module ListOrder {
  import opened Ring
  import opened NodeLists

  datatype Violation = EmptyList | HeadMismatch | EmptyIdAt(at: nat) | DuplicateAt(at: nat) | OutOfOrderAt(at: nat)

  function IdViolations(list: seq<NodeInfo>, upTo: nat): seq<Violation>
    requires upTo <= |list|
  {
    if upTo == 0 then []
    else
      var i := upTo - 1;
      IdViolations(list, i)
      + if list[i].id == EMPTY then [EmptyIdAt(i)]
        else if list[i].id in Ids(list[..i]) then [DuplicateAt(i)]
        else []
  }

  predicate PairInOrder(self: int, list: seq<NodeInfo>, i: nat)
    requires i + 1 < |list|
  {
    || list[i].id == self
    || list[i + 1].id == self
    || InRangeOpenOpen(list[i + 1].id, list[i].id, self)
  }

  function OrderViolations(self: int, list: seq<NodeInfo>, upTo: nat): seq<Violation>
    requires upTo < |list|
  {
    if upTo == 0 then []
    else OrderViolations(self, list, upTo - 1) + if PairInOrder(self, list, upTo - 1) then [] else [OutOfOrderAt(upTo - 1)]
  }

  function Violations(self: int, successor: int, list: seq<NodeInfo>): seq<Violation> {
    if list == [] then [EmptyList]
    else
      (if successor != EMPTY && list[0].id != successor then [HeadMismatch] else [])
      + IdViolations(list, |list|)
      + OrderViolations(self, list, |list| - 1)
  }

  method SuccessorListViolations(self: int, successor: int, list: seq<NodeInfo>) returns (violations: seq<Violation>)
    ensures violations == Violations(self, successor, list)
  {
    violations := [];
    if |list| == 0 {
      return [EmptyList];
    }
    if successor != EMPTY && list[0].id != successor {
      violations := violations + [HeadMismatch];
    }
    var ids := CheckIds(list);
    var order := CheckOrder(self, list);
    violations := violations + ids + order;
  }

  method CheckIds(list: seq<NodeInfo>) returns (violations: seq<Violation>)
    ensures violations == IdViolations(list, |list|)
  {
    violations := [];
    var seen: set<int> := {};
    for i := 0 to |list|
      invariant violations == IdViolations(list, i)
      invariant seen == Ids(list[..i]) - {EMPTY}
    {
      var n := list[i];
      assert list[..i + 1] == list[..i] + [n];
      AnchorCountAppend(list[..i], n);
      if n.id == EMPTY {
        violations := violations + [EmptyIdAt(i)];
        continue;
      }
      if n.id in seen {
        violations := violations + [DuplicateAt(i)];
      }
      seen := seen + {n.id};
    }
  }

  method CheckOrder(self: int, list: seq<NodeInfo>) returns (violations: seq<Violation>)
    requires list != []
    ensures violations == OrderViolations(self, list, |list| - 1)
  {
    violations := [];
    for i := 0 to |list| - 1
      invariant violations == OrderViolations(self, list, i)
    {
      if list[i].id == self || list[i + 1].id == self {
        continue;
      }
      if !InRangeOpenOpen(list[i + 1].id, list[i].id, self) {
        violations := violations + [OutOfOrderAt(i)];
      }
    }
  }

  /** Every entry lies farther round the ring, seen from `self`, than all entries before it. */
  ghost predicate Ascending(self: int, list: seq<NodeInfo>)
    requires ValidId(self)
  {
    && AllValid(list)
    && (forall i :: 0 <= i < |list| ==> list[i].id != self)
    && (forall i, j :: 0 <= i < j < |list| ==> Offset(self, list[i].id) < Offset(self, list[j].id))
  }

  lemma DistinctSnoc(front: seq<NodeInfo>, last: NodeInfo)
    ensures Distinct(front + [last]) <==> Distinct(front) && last.id !in Ids(front)
  {
    var all := front + [last];
    if Distinct(all) {
      assert forall i :: 0 <= i < |front| ==> all[i] == front[i] && all[|front|] == last;
    } else {
      assert forall i :: 0 <= i < |front| ==> front[i] in front;
    }
  }

  lemma {:induction false} IdViolationsMeaning(list: seq<NodeInfo>, upTo: nat)
    requires upTo <= |list|
    ensures IdViolations(list, upTo) == [] <==> Distinct(list[..upTo]) && EMPTY !in Ids(list[..upTo])
  {
    if upTo > 0 {
      var i := upTo - 1;
      IdViolationsMeaning(list, i);
      assert list[..upTo] == list[..i] + [list[i]];
      AnchorCountAppend(list[..i], list[i]);
      DistinctSnoc(list[..i], list[i]);
    }
  }

  lemma {:induction false} OrderViolationsMeaning(self: int, list: seq<NodeInfo>, upTo: nat)
    requires upTo < |list|
    ensures OrderViolations(self, list, upTo) == [] <==> forall i :: 0 <= i < upTo ==> PairInOrder(self, list, i)
  {
    if upTo > 0 {
      OrderViolationsMeaning(self, list, upTo - 1);
    }
  }

  lemma {:induction false} PairsChain(self: int, list: seq<NodeInfo>, i: nat, j: nat)
    requires ValidId(self) && AllValid(list) && i < j < |list|
    requires forall k :: 0 <= k < |list| ==> list[k].id != self
    requires forall k :: 0 <= k < |list| - 1 ==> PairInOrder(self, list, k)
    ensures Offset(self, list[i].id) < Offset(self, list[j].id)
    decreases j
  {
    assert PairInOrder(self, list, j - 1);
    if i < j - 1 {
      PairsChain(self, list, i, j - 1);
    }
  }

  /** An id in order with its neighbour is a valid one. */
  lemma PairsAreValid(self: int, list: seq<NodeInfo>)
    requires |list| > 1 && forall k :: 0 <= k < |list| ==> list[k].id != self
    requires forall k :: 0 <= k < |list| - 1 ==> PairInOrder(self, list, k)
    ensures AllValid(list)
  {
    forall k | 0 <= k < |list| ensures ValidId(list[k].id) {
      assert PairInOrder(self, list, if k == 0 then 0 else k - 1);
    }
  }

  /** Checking neighbours is enough for the order of all pairs, and for the validity of all ids. */
  lemma NeighboursOrderAll(self: int, list: seq<NodeInfo>)
    requires ValidId(self)
    requires forall k :: 0 <= k < |list| ==> list[k].id != self
    ensures |list| == 1 || Ascending(self, list) <==> forall k :: 0 <= k < |list| - 1 ==> PairInOrder(self, list, k)
  {
    if |list| > 1 && forall k :: 0 <= k < |list| - 1 ==> PairInOrder(self, list, k) {
      PairsAreValid(self, list);
      forall i, j | 0 <= i < j < |list| ensures Offset(self, list[i].id) < Offset(self, list[j].id) {
        PairsChain(self, list, i, j);
      }
    }
    if Ascending(self, list) {
      forall k | 0 <= k < |list| - 1 ensures PairInOrder(self, list, k) {
        assert Offset(self, list[k].id) < Offset(self, list[k + 1].id);
      }
    }
  }

  /** What an empty report means.  For a list of the shape every reachable list has, malformed ids included,
      the report is empty exactly if the list starts with the successor and either has one entry or is in ring
      order, all ids valid, between all pairs of entries. */
  lemma NoViolationsIff(self: int, successor: int, limit: nat, list: seq<NodeInfo>)
    requires ValidId(self) && ListShape(self, limit, list)
    ensures Violations(self, successor, list) == [] <==>
            && list != []
            && (successor == EMPTY || list[0].id == successor)
            && (|list| == 1 || Ascending(self, list))
  {
    if list != [] {
      assert list[..|list|] == list;
      IdViolationsMeaning(list, |list|);
      OrderViolationsMeaning(self, list, |list| - 1);
      if |list| > 1 {
        forall k | 0 <= k < |list| ensures list[k].id != self {
          assert list[k] in list;
        }
        NeighboursOrderAll(self, list);
      }
    }
  }

  lemma {:induction false} SubsequenceMember(s: seq<NodeInfo>, t: seq<NodeInfo>, x: NodeInfo)
    requires Subsequence(s, t) && x in s
    ensures x in t
  {
    if s[0] == t[0] && Subsequence(s[1..], t[1..]) {
      if x != s[0] {
        SubsequenceMember(s[1..], t[1..], x);
      }
    } else {
      SubsequenceMember(s, t[1..], x);
    }
  }

  lemma {:induction false} SubsequenceAscending(self: int, s: seq<NodeInfo>, t: seq<NodeInfo>)
    requires ValidId(self) && Subsequence(s, t) && Ascending(self, t)
    ensures Ascending(self, s)
  {
    if s == [] {
    } else if s[0] == t[0] && Subsequence(s[1..], t[1..]) {
      SubsequenceAscending(self, s[1..], t[1..]);
      forall j | 0 < j < |s| ensures Offset(self, s[0].id) < Offset(self, s[j].id) {
        SubsequenceMember(s[1..], t[1..], s[j]);
        var k :| 0 <= k < |t[1..]| && t[1..][k] == s[j];
        assert Offset(self, t[0].id) < Offset(self, t[k + 1].id);
      }
      assert forall i, j :: 0 < i < j < |s| ==> s[i] == s[1..][i - 1] && s[j] == s[1..][j - 1];
      assert forall i :: 0 < i < |s| ==> s[i] == s[1..][i - 1];
    } else {
      SubsequenceAscending(self, s, t[1..]);
    }
  }

  /** The merge keeps ring order: an input in order gives a list with nothing to report. */
  lemma MergeKeepsOrder(self: NodeInfo, size: int, cap: real, successor: NodeInfo, remote: seq<NodeInfo>)
    requires ValidId(self.id) && Ascending(self.id, [successor] + remote)
    ensures var r := Merge(self, size, cap, successor, remote);
            && Ascending(self.id, r)
            && r[0] == successor
            && Violations(self.id, successor.id, r) == []
  {
    MergeMeaning(self, size, cap, successor, remote);
    var r := Merge(self, size, cap, successor, remote);
    assert ([successor] + remote)[0] == successor;
    SubsequenceAscending(self.id, r, [successor] + remote);
    NoViolationsIff(self.id, successor.id, EffectiveLimit(size), r);
  }
}
