/** The merge and the diagnostic, entry by entry (protocol.go:165-203, maintenance.go:622-650). */
module ListLaws {
  import opened Ring
  import opened NodeLists
  import opened ListOrder

  /** The limit of the list, with its default. */
  lemma LimitIs(size: int)
    ensures EffectiveLimit(size) == if size <= 0 then 5 else size
  {
  }

  /** The cap on siblings is the whole part of the product, with its default, but never less than one. */
  lemma CapIs(limit: nat, cap: real, product: real)
    requires product == limit as real * (if cap <= 0.0 then 0.5 else cap)
    ensures var most := MaxFromAnchor(limit, cap);
            if product < 1.0 then most == 1 else most as real <= product < most as real + 1.0
  {
    assert product.Floor as real <= product < product.Floor as real + 1.0;
  }

  // ----- the merge -----

  /** The entry may not be taken: it has no id, is the node itself or taken already, or its anchor has all its places. */
  predicate Barred(self: int, out: seq<NodeInfo>, c: NodeInfo, most: nat) {
    c.id == EMPTY || c.id == self || c.id in Ids(out) || (c.anchor != EMPTY && AnchorCount(out, c.anchor) >= most)
  }

  function WithNext(self: int, out: seq<NodeInfo>, c: NodeInfo, limit: nat, most: nat): seq<NodeInfo> {
    if |out| >= limit || Barred(self, out, c, most) then out else out + [c]
  }

  lemma {:induction false} MergeFromOneMore(self: int, out: seq<NodeInfo>, rest: seq<NodeInfo>, c: NodeInfo, limit: nat, most: nat)
    ensures MergeFrom(self, out, rest + [c], limit, most) == WithNext(self, MergeFrom(self, out, rest, limit, most), c, limit, most)
    decreases |rest|
  {
    var all := rest + [c];
    if |out| >= limit {
    } else if rest == [] {
      assert all[1..] == [];
    } else {
      assert all[0] == rest[0] && all[1..] == rest[1..] + [c];
      MergeFromOneMore(self, if Rejected(self, out, rest[0], most) then out else out + [rest[0]], rest[1..], c, limit, most);
    }
  }

  /** What the merge takes, before it falls back on the node itself. */
  function Merged(self: int, size: int, cap: real, successor: NodeInfo, remote: seq<NodeInfo>): seq<NodeInfo> {
    MergeFrom(self, [], [successor] + remote, EffectiveLimit(size), MaxFromAnchor(EffectiveLimit(size), cap))
  }

  /** The merge is greedy, and this determines it: the successor is taken unless it is barred; one more remote entry is
      put behind what the others gave unless that is full or bars it; only if nothing at all is taken, the node
      itself is. */
  lemma MergeIsGreedy(self: NodeInfo, size: int, cap: real, successor: NodeInfo, remote: seq<NodeInfo>, c: NodeInfo)
    ensures var most := MaxFromAnchor(EffectiveLimit(size), cap);
            && Merged(self.id, size, cap, successor, []) == WithNext(self.id, [], successor, EffectiveLimit(size), most)
            && Merged(self.id, size, cap, successor, remote + [c])
               == WithNext(self.id, Merged(self.id, size, cap, successor, remote), c, EffectiveLimit(size), most)
    ensures var taken := Merged(self.id, size, cap, successor, remote);
            Merge(self, size, cap, successor, remote) == if taken == [] then [self] else taken
  {
    var limit, most := EffectiveLimit(size), MaxFromAnchor(EffectiveLimit(size), cap);
    assert [] + [successor] == [successor] + [];
    MergeFromOneMore(self.id, [], [], successor, limit, most);
    assert [successor] + (remote + [c]) == ([successor] + remote) + [c];
    MergeFromOneMore(self.id, [], [successor] + remote, c, limit, most);
  }

  // ----- the diagnostic -----

  ghost predicate Repeats(list: seq<NodeInfo>, i: nat)
    requires i < |list|
  {
    exists j :: 0 <= j < i && list[j].id == list[i].id
  }

  lemma RepeatsIff(list: seq<NodeInfo>, i: nat)
    requires i < |list|
    ensures list[i].id in Ids(list[..i]) <==> Repeats(list, i)
  {
    if j :| 0 <= j < i && list[j].id == list[i].id {
      assert list[..i][j] in list[..i];
    }
  }

  lemma {:induction false} IdViolationsAre(list: seq<NodeInfo>, upTo: nat, v: Violation)
    requires upTo <= |list|
    ensures v in IdViolations(list, upTo) <==>
              match v
              case EmptyIdAt(i) => i < upTo && list[i].id == EMPTY
              case DuplicateAt(i) => i < upTo && list[i].id != EMPTY && Repeats(list, i)
              case _ => false
  {
    if upTo > 0 {
      IdViolationsAre(list, upTo - 1, v);
      RepeatsIff(list, upTo - 1);
    }
  }

  /** Seen from the node, the next entry does not lie farther round. */
  predicate Unordered(self: int, list: seq<NodeInfo>, i: nat)
    requires i + 1 < |list|
  {
    list[i].id != self && list[i + 1].id != self && !InRangeOpenOpen(list[i + 1].id, list[i].id, self)
  }

  lemma {:induction false} OrderViolationsAre(self: int, list: seq<NodeInfo>, upTo: nat, v: Violation)
    requires upTo < |list|
    ensures v in OrderViolations(self, list, upTo) <==> v.OutOfOrderAt? && v.at < upTo && Unordered(self, list, v.at)
  {
    if upTo > 0 {
      OrderViolationsAre(self, list, upTo - 1, v);
    }
  }

  /** The report names exactly the places where something is wrong, and what. */
  lemma ReportIsExact(self: int, successor: int, list: seq<NodeInfo>, v: Violation)
    ensures v in Violations(self, successor, list) <==>
              match v
              case EmptyList => list == []
              case HeadMismatch => list != [] && successor != EMPTY && list[0].id != successor
              case EmptyIdAt(i) => i < |list| && list[i].id == EMPTY
              case DuplicateAt(i) => i < |list| && list[i].id != EMPTY && Repeats(list, i)
              case OutOfOrderAt(i) => i + 1 < |list| && Unordered(self, list, i)
  {
    if list != [] {
      IdViolationsAre(list, |list|, v);
      OrderViolationsAre(self, list, |list| - 1, v);
    }
  }
}
