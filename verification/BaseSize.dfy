/** Why the stable base needs one node more than a list has entries: the number is exact. */
module BaseSize {
  import opened Ring
  import opened Sets
  import opened NodeLists
  import opened ListOrder
  import opened NoSkip
  import IdealRing

  lemma AscendingSnoc(self: int, front: seq<NodeInfo>, last: NodeInfo)
    requires ValidId(self) && Ascending(self, front) && ValidId(last.id) && last.id != self
    requires forall x :: x in Ids(front) ==> ValidId(x) && Offset(self, x) < Offset(self, last.id)
    ensures Ascending(self, front + [last])
    ensures Ids(front + [last]) == Ids(front) + {last.id}
  {
    AnchorCountAppend(front, last);
    forall i | 0 <= i < |front| ensures Offset(self, front[i].id) < Offset(self, last.id) {
      assert front[i].id in Ids(front);
    }
  }

  /** The given ids, in the order one meets them walking clockwise from `self`. */
  lemma {:induction false} Tour(s: set<int>, self: int) returns (list: seq<NodeInfo>)
    requires ValidId(self) && self !in s && forall x :: x in s ==> ValidId(x)
    ensures Ascending(self, list) && Ids(list) == s && |list| == |s|
    decreases s
  {
    list := [];
    if s != {} {
      var p := IdealRing.ClosestBehind(s, self);
      var front := Tour(s - {p}, self);
      list := front + [Plain(p)];
      forall x | x in Ids(front) ensures ValidId(x) && Offset(self, x) < Offset(self, p) {
        assert Gap(p, self) <= Gap(x, self);
      }
      AscendingSnoc(self, front, Plain(p));
    }
  }

  /** A walk in id order jumps over no id it stops at, nor over its start when it returns there. */
  lemma {:induction false} OrderedWalkSkipsNone(b: int, self: int, from: int, list: seq<NodeInfo>)
    requires ValidId(self) && ValidId(from) && ValidId(b) && Ascending(self, list)
    requires list != [] ==> Offset(self, from) < Offset(self, list[0].id)
    requires Offset(self, b) <= Offset(self, from) || b in Ids(list)
    ensures WalkSkipsNot(b, from, list + [Plain(self)])
    decreases |list|
  {
    var walk := list + [Plain(self)];
    if list == [] {
      assert walk == [Plain(self)];
    } else {
      var rest := list[1..];
      assert walk[1..] == rest + [Plain(self)];
      assert forall i :: 0 <= i < |rest| ==> rest[i] == list[i + 1];
      if b in Ids(list) {
        var n :| n in list && n.id == b;
        var k :| 0 <= k < |list| && list[k] == n;
        assert k > 0 ==> rest[k - 1] == n && Offset(self, list[0].id) < Offset(self, list[k].id);
      }
      OrderedWalkSkipsNone(b, self, list[0].id, rest);
    }
  }

  /** A node that walks through the whole base and comes back has skipped nobody, yet its list is not in
      order: it ends with the node itself. */
  lemma SmallBaseFails(base: set<int>, self: int) returns (list: seq<NodeInfo>)
    requires ValidId(self) && forall b :: b in base ==> ValidId(b)
    ensures AllValid(list) && |list| == |base + {self}| && SkipsNone(base, self, list) && !Ascending(self, list)
  {
    var others := Tour(base - {self}, self);
    list := others + [Plain(self)];
    forall b | b in base ensures WalkSkipsNot(b, self, list) {
      if others != [] {
        assert others[0].id != self;
      }
      OrderedWalkSkipsNone(b, self, self, others);
    }
    assert list[|list| - 1].id == self;
    assert base + {self} == (base - {self}) + {self};
  }

  lemma LargeBaseOrders(base: set<int>, self: int, limit: nat, list: seq<NodeInfo>)
    requires ValidId(self) && (forall b :: b in base ==> ValidId(b)) && |base + {self}| > limit
    requires AllValid(list) && |list| <= limit && SkipsNone(base, self, list)
    ensures Ascending(self, list)
  {
    if !Ascending(self, list) {
      var front := list[..|list| - 1];
      forall b | b in base ensures b in {self} + Ids(front) {
        DescentCovers(b, self, self, list);
      }
      IdsBound(front);
      assert |{self} + Ids(front)| <= |front| + 1;
      SubsetCard(base + {self}, {self} + Ids(front));
    }
  }

  /** Every list of at most `limit` entries that skips no base node is in ring order if and only if the base
      and the node itself are more than `limit` nodes.  A node that is no base member itself gets by with a base of
      `limit` nodes; for a base to serve its own members too it takes one more. */
  lemma BaseSizeIsExact(base: set<int>, self: int, limit: nat)
    requires ValidId(self) && forall b :: b in base ==> ValidId(b)
    ensures (forall list: seq<NodeInfo> :: AllValid(list) && |list| <= limit && SkipsNone(base, self, list) ==> Ascending(self, list))
            <==> |base + {self}| > limit
  {
    if |base + {self}| > limit {
      forall list: seq<NodeInfo> | AllValid(list) && |list| <= limit && SkipsNone(base, self, list) ensures Ascending(self, list) {
        LargeBaseOrders(base, self, limit, list);
      }
    } else {
      var list := SmallBaseFails(base, self);
    }
  }
}
