/** Node descriptors and the list operations of the protocol: duplicate removal (node.go:767-778),
    the successor-list merge (protocol.go:165-203) and the order check (maintenance.go:622-650).
 */
module NodeLists {
  import opened Ring
  import opened Sets

  const DEFAULT_SUCCESSOR_LIST_SIZE: nat := 5
  const DEFAULT_SIBLING_CAP: real := 0.5

  /** The fields of NodeInfo that Core() keeps.  `uriHash` is the SHA-1 id of the URI, or EMPTY when
      the URI is not a normalized https URI; `anchor` is EMPTY for a physical node. */
  datatype NodeInfo = NodeInfo(id: int, uriHash: int, anchor: int, region: int)

  predicate ValidNodeInfo(n: NodeInfo) {
    ValidId(n.id) && n.uriHash != EMPTY && (n.anchor != EMPTY || n.uriHash == n.id)
  }

  function Ids(s: seq<NodeInfo>): set<int> {
    set n | n in s :: n.id
  }

  predicate Distinct(s: seq<NodeInfo>) {
    forall i, j :: 0 <= i < j < |s| ==> s[i].id != s[j].id
  }

  predicate AllValid(s: seq<NodeInfo>) {
    forall i :: 0 <= i < |s| ==> ValidId(s[i].id)
  }

  /** `s` can be obtained from `t` by deleting elements. */
  ghost predicate Subsequence(s: seq<NodeInfo>, t: seq<NodeInfo>) {
    if s == [] then true
    else if t == [] then false
    else (s[0] == t[0] && Subsequence(s[1..], t[1..])) || Subsequence(s, t[1..])
  }

  function EffectiveLimit(size: int): (limit: nat)
    ensures limit > 0
  {
    if size <= 0 then DEFAULT_SUCCESSOR_LIST_SIZE else size
  }

  function MaxFromAnchor(limit: nat, cap: real): (m: nat)
    ensures m >= 1
  {
    var c := if cap <= 0.0 then DEFAULT_SIBLING_CAP else cap;
    var m := (limit as real * c).Floor;
    if m < 1 then 1 else m
  }

  function AnchorCount(s: seq<NodeInfo>, anchor: int): nat {
    if s == [] then 0
    else AnchorCount(s[..|s| - 1], anchor) + if s[|s| - 1].anchor == anchor then 1 else 0
  }

  lemma AnchorCountAppend(s: seq<NodeInfo>, c: NodeInfo)
    ensures forall a :: AnchorCount(s + [c], a) == AnchorCount(s, a) + if c.anchor == a then 1 else 0
    ensures Ids(s + [c]) == Ids(s) + {c.id}
  {
    assert (s + [c])[..|s|] == s;
  }

  lemma {:induction false} DistinctCard(s: seq<NodeInfo>)
    requires Distinct(s)
    ensures |Ids(s)| == |s|
  {
    if s != [] {
      var before, n := s[..|s| - 1], s[|s| - 1];
      DistinctCard(before);
      assert s == before + [n];
      AnchorCountAppend(before, n);
      assert n.id !in Ids(before);
    }
  }

  // ----- duplicate removal -----

  function Dedupe(nodes: seq<NodeInfo>, exclude: int): (out: seq<NodeInfo>) {
    if nodes == [] then []
    else
      var before, n := Dedupe(nodes[..|nodes| - 1], exclude), nodes[|nodes| - 1];
      if n.id == EMPTY || n.id == exclude || n.id in Ids(before) then before else before + [n]
  }

  method DedupeNodes(nodes: seq<NodeInfo>, exclude: int) returns (out: seq<NodeInfo>)
    ensures out == Dedupe(nodes, exclude)
  {
    var seen: set<int> := {};
    out := [];
    for i := 0 to |nodes|
      invariant out == Dedupe(nodes[..i], exclude) && seen == Ids(out)
    {
      assert nodes[..i + 1][..i] == nodes[..i];
      var n := nodes[i];
      if n.id == EMPTY || n.id == exclude || n.id in seen {
        continue;
      }
      seen := seen + {n.id};
      out := out + [n];
    }
    assert nodes[..|nodes|] == nodes;
  }

  /** Dedupe keeps the first occurrence of every id except EMPTY and the excluded one. */
  lemma {:induction false} DedupeMeaning(nodes: seq<NodeInfo>, exclude: int)
    ensures var out := Dedupe(nodes, exclude);
            && Distinct(out)
            && Ids(out) == Ids(nodes) - {EMPTY, exclude}
            && (forall n :: n in out ==> n in nodes)
  {
    if nodes != [] {
      var before := nodes[..|nodes| - 1];
      DedupeMeaning(before, exclude);
      assert nodes == before + [nodes[|nodes| - 1]];
      var d, n := Dedupe(before, exclude), nodes[|nodes| - 1];
      assert Ids(nodes) == Ids(before) + {n.id};
      if !(n.id == EMPTY || n.id == exclude || n.id in Ids(d)) {
        assert Ids(d + [n]) == Ids(d) + {n.id};
      }
    }
  }

  // ----- the successor-list merge -----

  /** An entry the merge passes over: no id, this node, already taken, or one sibling too many. */
  predicate Rejected(self: int, out: seq<NodeInfo>, c: NodeInfo, maxFromAnchor: nat) {
    || c.id == EMPTY
    || c.id == self
    || c.id in Ids(out)
    || (c.anchor != EMPTY && AnchorCount(out, c.anchor) >= maxFromAnchor)
  }

  function MergeFrom(self: int, out: seq<NodeInfo>, rest: seq<NodeInfo>, limit: nat, maxFromAnchor: nat): seq<NodeInfo>
    decreases |rest|
  {
    if |out| >= limit || rest == [] then out
    else if Rejected(self, out, rest[0], maxFromAnchor) then MergeFrom(self, out, rest[1..], limit, maxFromAnchor)
    else MergeFrom(self, out + [rest[0]], rest[1..], limit, maxFromAnchor)
  }

  function Merge(self: NodeInfo, size: int, cap: real, successor: NodeInfo, remote: seq<NodeInfo>): seq<NodeInfo> {
    var limit := EffectiveLimit(size);
    var out := MergeFrom(self.id, [], [successor] + remote, limit, MaxFromAnchor(limit, cap));
    if out == [] then [self] else out
  }

  method MergeSuccessorList(self: NodeInfo, size: int, cap: real, successor: NodeInfo, remote: seq<NodeInfo>)
    returns (out: seq<NodeInfo>)
    ensures out == Merge(self, size, cap, successor, remote)
  {
    var limit := EffectiveLimit(size);
    var maxFromAnchor := MaxFromAnchor(limit, cap);
    var seen := {self.id};
    var anchorCount: map<int, int> := map[];
    out := [];
    var input := [successor] + remote;
    var i := 0;
    while i < |input|
      invariant 0 <= i <= |input|
      invariant |out| < limit
      invariant seen == {self.id} + Ids(out)
      invariant forall a :: a != EMPTY ==> AnchorCount(out, a) == if a in anchorCount then anchorCount[a] else 0
      invariant MergeFrom(self.id, [], input, limit, maxFromAnchor)
             == MergeFrom(self.id, out, input[i..], limit, maxFromAnchor)
    {
      var c := input[i];
      assert input[i..][0] == c && input[i..][1..] == input[i + 1..];
      i := i + 1;
      if c.id == EMPTY || c.id in seen {
        continue;
      }
      var count := if c.anchor in anchorCount then anchorCount[c.anchor] else 0;
      if c.anchor != EMPTY && count >= maxFromAnchor {
        continue;
      }
      if c.anchor != EMPTY {
        anchorCount := anchorCount[c.anchor := count + 1];
      }
      seen := seen + {c.id};
      AnchorCountAppend(out, c);
      out := out + [c];
      if |out| == limit {
        break;
      }
    }
    if |out| == 0 {
      out := out + [self];
    }
  }

  /** What the loop has built so far: the facts every later lemma about the merge rests on. */
  ghost predicate Built(self: int, out: seq<NodeInfo>, limit: nat, maxFromAnchor: nat) {
    && |out| <= limit
    && Distinct(out)
    && self !in Ids(out) && EMPTY !in Ids(out)
    && (forall a :: a != EMPTY ==> AnchorCount(out, a) <= maxFromAnchor)
  }

  lemma BuiltStep(self: int, out: seq<NodeInfo>, c: NodeInfo, limit: nat, maxFromAnchor: nat)
    requires Built(self, out, limit, maxFromAnchor) && |out| < limit && !Rejected(self, out, c, maxFromAnchor)
    ensures Built(self, out + [c], limit, maxFromAnchor)
    ensures Ids(out + [c]) == Ids(out) + {c.id}
    ensures forall a :: AnchorCount(out, a) <= AnchorCount(out + [c], a)
  {
    AnchorCountAppend(out, c);
  }

  lemma {:induction false} MergeFromShape(self: int, out: seq<NodeInfo>, rest: seq<NodeInfo>, limit: nat, maxFromAnchor: nat)
    requires Built(self, out, limit, maxFromAnchor)
    ensures var r := MergeFrom(self, out, rest, limit, maxFromAnchor);
            && Built(self, r, limit, maxFromAnchor)
            && out <= r
            && Subsequence(r[|out|..], rest)
            && (|r| < limit ==> forall x :: x in rest ==> Rejected(self, r, x, maxFromAnchor))
    decreases |rest|
  {
    var r := MergeFrom(self, out, rest, limit, maxFromAnchor);
    if |out| >= limit || rest == [] {
      assert r[|out|..] == [];
    } else if Rejected(self, out, rest[0], maxFromAnchor) {
      MergeFromShape(self, out, rest[1..], limit, maxFromAnchor);
      RejectedLater(self, out, r, rest[0], maxFromAnchor);
    } else {
      BuiltStep(self, out, rest[0], limit, maxFromAnchor);
      MergeFromShape(self, out + [rest[0]], rest[1..], limit, maxFromAnchor);
      assert rest[0] == r[|out|] && rest[0] in r;
      assert r[|out|..][1..] == r[|out| + 1..];
    }
  }

  lemma {:induction false} AnchorCountMonotone(s: seq<NodeInfo>, t: seq<NodeInfo>, anchor: int)
    requires s <= t
    ensures AnchorCount(s, anchor) <= AnchorCount(t, anchor)
    decreases |t|
  {
    if |s| < |t| {
      AnchorCountMonotone(s, t[..|t| - 1], anchor);
    } else {
      assert s == t;
    }
  }

  lemma RejectedLater(self: int, out: seq<NodeInfo>, r: seq<NodeInfo>, c: NodeInfo, maxFromAnchor: nat)
    requires out <= r && Rejected(self, out, c, maxFromAnchor)
    ensures Rejected(self, r, c, maxFromAnchor)
  {
    AnchorCountMonotone(out, r, c.anchor);
    assert forall n :: n in out ==> n in r;
  }

  /** The shape a successor list keeps. */
  ghost predicate ListShape(self: int, limit: nat, list: seq<NodeInfo>) {
    && |list| <= limit
    && Distinct(list)
    && EMPTY !in Ids(list)
    && (self in Ids(list) ==> |list| == 1)
  }

  /** The merge, whatever the peer sent: an order-preserving selection from successor and remote list
      that has the list shape, respects the sibling cap, starts with the successor, and leaves out
      only what the rules tell it to leave out. */
  lemma MergeMeaning(self: NodeInfo, size: int, cap: real, successor: NodeInfo, remote: seq<NodeInfo>)
    requires self.id != EMPTY
    ensures var r := Merge(self, size, cap, successor, remote);
            var limit := EffectiveLimit(size);
            var most := MaxFromAnchor(limit, cap);
            && r != [] && ListShape(self.id, limit, r)
            && (r == [self] || (self.id !in Ids(r) && Subsequence(r, [successor] + remote)))
            && (successor.id != EMPTY && successor.id != self.id ==> r[0] == successor)
            && (forall a :: a != EMPTY ==> AnchorCount(r, a) <= most)
            && (|r| < limit && r != [self] ==>
                  forall x :: x in [successor] + remote ==> Rejected(self.id, r, x, most))
            && (r == [self] && self !in [successor] + remote ==>
                  forall x :: x in [successor] + remote ==> x.id == EMPTY || x.id == self.id)
  {
    var limit := EffectiveLimit(size);
    var most := MaxFromAnchor(limit, cap);
    var input := [successor] + remote;
    MergeFromShape(self.id, [], input, limit, most);
    var out := MergeFrom(self.id, [], input, limit, most);
    assert out[0..] == out;
    var r := Merge(self, size, cap, successor, remote);
    if successor.id != EMPTY && successor.id != self.id {
      assert input[0] == successor && AnchorCount([], successor.anchor) == 0;
      assert !Rejected(self.id, [], successor, most);
      BuiltStep(self.id, [], successor, limit, most);
      MergeFromShape(self.id, [successor], input[1..], limit, most);
      assert [] + [successor] == [successor];
    }
    if out == [] {
      assert AnchorCount([self][..0], self.anchor) == 0;
      assert forall a :: AnchorCount([self], a) <= 1 by {
        forall a ensures AnchorCount([self], a) <= 1 {
          assert [self][..0] == [];
        }
      }
      forall x | x in input ensures x.id == EMPTY || x.id == self.id {
        assert Rejected(self.id, [], x, most) && AnchorCount([], x.anchor) == 0;
      }
    } else {
      assert out[0].id in Ids(out);
    }
  }
}
