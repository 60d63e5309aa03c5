/** Which fingers are repaired when: the jump order and the cursor that walks through it
    (maintenance.go:657-664, 703-782).
 */
module FingerSchedule {
  import opened Ring
  import opened Sets
  import opened Wrappers
  import opened NodeLists
  import opened NodeSpec
  import opened Lookup
  import opened IdealRing
  import opened LookupTheorems

  // ----- the jump order -----

  const PRIORITIES: nat := 12

  /** The finger at each of the first twelve positions. */
  function Priority(p: nat): int
    requires p < PRIORITIES
  {
    if p == 0 then 159 else if p == 1 then 140 else if p == 2 then 120 else if p == 3 then 100
    else if p == 4 then 80 else if p == 5 then 60 else if p == 6 then 40 else if p == 7 then 20
    else if p == 8 then 10 else if p == 9 then 5 else if p == 10 then 2 else 1
  }

  predicate HasPriority(i: int) {
    i == 159 || i == 140 || i == 120 || i == 100 || i == 80 || i == 60 || i == 40 || i == 20
    || i == 10 || i == 5 || i == 2 || i == 1
  }

  /** How many of them are smaller than `n`. */
  function Below(n: int): nat {
    if n <= 1 then 0 else if n <= 2 then 1 else if n <= 5 then 2 else if n <= 10 then 3 else if n <= 20 then 4
    else if n <= 40 then 5 else if n <= 60 then 6 else if n <= 80 then 7 else if n <= 100 then 8
    else if n <= 120 then 9 else if n <= 140 then 10 else if n <= 159 then 11 else 12
  }

  /** The k-th finger without priority, in ascending order. */
  function Other(k: nat): int {
    k + if k < 1 then 0 else if k < 3 then 2 else if k < 7 then 3 else if k < 16 then 4 else if k < 35 then 5
        else if k < 54 then 6 else if k < 73 then 7 else if k < 92 then 8 else if k < 111 then 9
        else if k < 130 then 10 else 11
  }

  function JumpIndex(position: nat): (index: int)
    ensures 0 <= index < BITS
  {
    var p := position % BITS;
    if p < PRIORITIES then Priority(p) else Other(p - PRIORITIES)
  }

  /** The list the source writes out. */
  lemma PriorityList(listed: seq<int>)
    requires listed == [159, 140, 120, 100, 80, 60, 40, 20, 10, 5, 2, 1]
    ensures |listed| == PRIORITIES && forall p :: 0 <= p < PRIORITIES ==> listed[p] == Priority(p)
    ensures forall i :: i in listed <==> HasPriority(i)
  {
    forall i | HasPriority(i) ensures i in listed {
      assert i == listed[if i == 159 then 0 else if i == 140 then 1 else if i == 120 then 2 else if i == 100 then 3
                         else if i == 80 then 4 else if i == 60 then 5 else if i == 40 then 6 else if i == 20 then 7
                         else if i == 10 then 8 else if i == 5 then 9 else if i == 2 then 10 else 11];
    }
  }

  method ExponentialJumpIndex(position: nat) returns (index: int)
    ensures index == JumpIndex(position)
  {
    var pos := position;
    if pos >= BITS {
      pos := pos % BITS;
    }
    var prioritized := [159, 140, 120, 100, 80, 60, 40, 20, 10, 5, 2, 1];
    PriorityList(prioritized);
    if pos < |prioritized| {
      return prioritized[pos];
    }
    var used := UsedIndices(prioritized);
    var remaining := UnusedIndices(used);
    var idx := pos - |prioritized|;
    index := pos % BITS;
    if idx < |remaining| {
      index := remaining[idx];
    }
  }

  method UsedIndices(prioritized: seq<int>) returns (used: set<int>)
    ensures forall x :: x in used <==> x in prioritized
  {
    used := {};
    for v := 0 to |prioritized|
      invariant forall x :: x in used <==> x in prioritized[..v]
    {
      used := used + {prioritized[v]};
    }
    assert prioritized[..|prioritized|] == prioritized;
  }

  /** Collecting what is left over yields the closed form. */
  method UnusedIndices(used: set<int>) returns (remaining: seq<int>)
    requires forall x :: x in used <==> HasPriority(x)
    ensures |remaining| == BITS - PRIORITIES && forall k :: 0 <= k < |remaining| ==> remaining[k] == Other(k)
  {
    remaining := [];
    for i := 0 to BITS
      invariant |remaining| == i - Below(i)
      invariant forall k :: 0 <= k < |remaining| ==> remaining[k] == Other(k)
    {
      if i !in used {
        remaining := remaining + [i];
      }
    }
  }

  /** The position at which a finger comes up. */
  function PositionOf(finger: int): int {
    if finger == 159 then 0 else if finger == 140 then 1 else if finger == 120 then 2 else if finger == 100 then 3
    else if finger == 80 then 4 else if finger == 60 then 5 else if finger == 40 then 6 else if finger == 20 then 7
    else if finger == 10 then 8 else if finger == 5 then 9 else if finger == 2 then 10 else if finger == 1 then 11
    else PRIORITIES + finger - Below(finger)
  }

  /** The jump order is a permutation of the 160 fingers. */
  lemma JumpIsPermutation(position: nat, finger: int)
    requires 0 <= finger < BITS
    ensures 0 <= JumpIndex(position) < BITS && PositionOf(JumpIndex(position)) == position % BITS
    ensures 0 <= PositionOf(finger) < BITS && JumpIndex(PositionOf(finger)) == finger
  {
  }

  /** Twelve fingers come first, most of them from the far end inwards; then the others from the near end outwards. */
  lemma FarFingersFirst(p: nat, q: nat)
    requires p < q < BITS
    ensures p < 12 ==> JumpIndex(p) == [159, 140, 120, 100, 80, 60, 40, 20, 10, 5, 2, 1][p]
    ensures p >= 12 ==> JumpIndex(p) < JumpIndex(q)
  {
  }

  // ----- the cursor -----

  /** The fingers scheduled for `k` positions from `start`. */
  function Scheduled(start: nat, k: int): (s: seq<int>)
    ensures |s| == if k <= 0 then 0 else k
    ensures forall i :: 0 <= i < |s| ==> s[i] == JumpIndex(start + i) && 0 <= s[i] < BITS
  {
    if k <= 0 then [] else seq(k, i requires 0 <= i < k => JumpIndex(start + i))
  }

  function CursorAfter(start: nat, k: int): nat {
    if k <= 0 then start else (start + k) % BITS
  }

  /** Everything scheduled by batches of the given sizes, one after the other, and the cursor afterwards. */
  function Batches(start: nat, sizes: seq<int>): (s: seq<int>)
    ensures forall i :: 0 <= i < |s| ==> 0 <= s[i] < BITS
    decreases sizes
  {
    if sizes == [] then []
    else Scheduled(start, sizes[0]) + Batches(CursorAfter(start, sizes[0]), sizes[1..])
  }

  function CursorAfterAll(start: nat, sizes: seq<int>): nat
    decreases sizes
  {
    if sizes == [] then start else CursorAfterAll(CursorAfter(start, sizes[0]), sizes[1..])
  }

  lemma {:induction false} OneMoreBatch(start: nat, sizes: seq<int>, k: int)
    ensures Batches(start, sizes + [k]) == Batches(start, sizes) + Scheduled(CursorAfterAll(start, sizes), k)
    ensures CursorAfterAll(start, sizes + [k]) == CursorAfter(CursorAfterAll(start, sizes), k)
    decreases sizes
  {
    if sizes == [] {
      assert (sizes + [k])[1..] == [];
    } else {
      assert (sizes + [k])[1..] == sizes[1..] + [k];
      OneMoreBatch(CursorAfter(start, sizes[0]), sizes[1..], k);
    }
  }

  /** The i-th repair of a batch found `found(i)` as the owner of the finger's start, or nothing. */
  function Repaired(fingers: seq<Finger>, indices: seq<int>, found: nat -> Option<NodeInfo>): (r: seq<Finger>)
    requires |fingers| == BITS && forall i :: 0 <= i < |indices| ==> 0 <= indices[i] < BITS
    ensures |r| == BITS
  {
    if indices == [] then fingers
    else
      var k := |indices| - 1;
      var before := Repaired(fingers, indices[..k], found);
      var f := before[indices[k]];
      before[indices[k] := match found(k)
                           case Some(n) => Finger(n, Ok, true)
                           case None => Finger(f.node, if f.status == Ok then Suspicious else f.status, false)]
  }

  /** The lookups after the first `done`. */
  function From(found: nat -> Option<NodeInfo>, done: nat): nat -> Option<NodeInfo> {
    (j: nat) => found(done + j)
  }

  /** Repairing in two batches is repairing in one. */
  lemma {:induction false} RepairedInBatches(fingers: seq<Finger>, a: seq<int>, b: seq<int>, found: nat -> Option<NodeInfo>)
    requires |fingers| == BITS && (forall i :: 0 <= i < |a| ==> 0 <= a[i] < BITS) && (forall i :: 0 <= i < |b| ==> 0 <= b[i] < BITS)
    ensures Repaired(fingers, a + b, found) == Repaired(Repaired(fingers, a, found), b, From(found, |a|))
    decreases |b|
  {
    if b == [] {
      assert a + b == a;
    } else {
      var k := |b| - 1;
      assert (a + b)[..|a| + k] == a + b[..k];
      RepairedInBatches(fingers, a, b[..k], found);
    }
  }

  lemma OneMoreRepair(fingers: seq<Finger>, start: nat, sizes: seq<int>, k: int, found: nat -> Option<NodeInfo>)
    requires |fingers| == BITS
    ensures var more := sizes + [k];
            && CursorAfterAll(start, more) == CursorAfter(CursorAfterAll(start, sizes), k)
            && |Batches(start, more)| == |Batches(start, sizes)| + (if k <= 0 then 0 else k)
            && Repaired(fingers, Batches(start, more), found)
               == Repaired(Repaired(fingers, Batches(start, sizes), found), Scheduled(CursorAfterAll(start, sizes), k),
                           From(found, |Batches(start, sizes)|))
  {
    OneMoreBatch(start, sizes, k);
    RepairedInBatches(fingers, Batches(start, sizes), Scheduled(CursorAfterAll(start, sizes), k), found);
  }

  /** The part of the node that finger repair writes. */
  class FingerTable {
    var fingers: seq<Finger>
    var next: nat

    predicate Valid()
      reads this
    {
      |fingers| == BITS && next < BITS
    }

    constructor (self: NodeInfo)
      ensures Valid() && next == 0 && fingers == NewNode(self).fingers
    {
      fingers := seq(BITS, _ => Finger(self, Unknown, false));
      next := 0;
    }

    method NextKFingerIndices(k: int) returns (out: seq<int>)
      requires Valid()
      modifies this`next
      ensures Valid() && next == CursorAfter(old(next), k)
      ensures out == Scheduled(old(next), k)
    {
      if k <= 0 {
        return [];
      }
      var start := next;
      next := (start + k) % BITS;
      out := [];
      for i := 0 to k
        invariant Valid() && next == CursorAfter(start, k)
        invariant |out| == i && forall j :: 0 <= j < i ==> out[j] == JumpIndex(start + j)
      {
        var pos := (start + i) % BITS;
        var idx := ExponentialJumpIndex(pos);
        out := out + [idx];
      }
    }

    /** One batch.  The repairs run concurrently in the source; `found` is what each lookup returned. */
    method FixFingersBatch(k: int, found: nat -> Option<NodeInfo>)
      requires Valid()
      modifies this
      ensures Valid() && next == CursorAfter(old(next), k)
      ensures fingers == Repaired(old(fingers), Scheduled(old(next), k), found)
    {
      var was := fingers;
      ghost var start := next;
      var indices := NextKFingerIndices(k);
      for i := 0 to |indices|
        invariant Valid() && next == CursorAfter(start, k)
        invariant fingers == Repaired(was, indices[..i], found)
      {
        var idx := indices[i];
        assert indices[..i + 1][..i] == indices[..i] && indices[..i + 1][i] == idx;
        match found(i)
        case Some(n) => fingers := fingers[idx := Finger(n, Ok, true)];
        case None =>
          var f := fingers[idx];
          fingers := fingers[idx := Finger(f.node, if f.status == Ok then Suspicious else f.status, false)];
      }
      assert indices[..|indices|] == indices;
    }

    /** The loop that repairs one batch after another, of whatever sizes the modes ask for; `found` numbers the
        lookups through. */
    method RunFixFingersLoop(sizes: seq<int>, found: nat -> Option<NodeInfo>)
      requires Valid()
      modifies this
      ensures Valid() && next == CursorAfterAll(old(next), sizes)
      ensures fingers == Repaired(old(fingers), Batches(old(next), sizes), found)
    {
      ghost var was, start := fingers, next;
      var done := 0;
      for i := 0 to |sizes|
        invariant Valid() && next == CursorAfterAll(start, sizes[..i]) && done == |Batches(start, sizes[..i])|
        invariant fingers == Repaired(was, Batches(start, sizes[..i]), found)
      {
        assert sizes[..i + 1] == sizes[..i] + [sizes[i]];
        OneMoreRepair(was, start, sizes[..i], sizes[i], found);
        FixFingersBatch(sizes[i], From(found, done));
        done := done + if sizes[i] <= 0 then 0 else sizes[i];
      }
      assert sizes[..|sizes|] == sizes;
    }
  }

  // ----- fairness -----

  lemma JumpIsPeriodic(a: nat, b: nat)
    requires a % BITS == b % BITS
    ensures JumpIndex(a) == JumpIndex(b)
  {
  }

  lemma SamePhase(start: nat, k: nat, i: nat)
    ensures ((start + k) % BITS + i) % BITS == (start + k + i) % BITS
  {
  }

  /** However the batches are cut, the schedule is the jump order read off without a gap. */
  lemma {:induction false} BatchesFollowOrder(start: nat, sizes: seq<int>)
    ensures forall j :: 0 <= j < |Batches(start, sizes)| ==> Batches(start, sizes)[j] == JumpIndex(start + j)
    decreases sizes
  {
    if sizes != [] {
      var k := sizes[0];
      var next := CursorAfter(start, k);
      BatchesFollowOrder(next, sizes[1..]);
      var first := Scheduled(start, k);
      forall j | 0 <= j < |Batches(start, sizes)| ensures Batches(start, sizes)[j] == JumpIndex(start + j) {
        if j >= |first| && k > 0 {
          SamePhase(start, k, j - k);
          JumpIsPeriodic(next + (j - k), start + j);
        }
      }
    }
  }

  /** Two positions of the window in the same phase are the same position. */
  lemma PhaseIsUnique(start: nat, a: nat, i: nat, j: nat)
    requires a <= i < a + BITS && a <= j < a + BITS && (start + i) % BITS == (start + j) % BITS
    ensures i == j
  {
  }

  lemma PhaseOccurs(start: nat, a: nat, p: nat) returns (j: nat)
    requires p < BITS
    ensures a <= j < a + BITS && (start + j) % BITS == p
  {
    var at := (start + a) % BITS;
    j := a + if p >= at then p - at else p - at + BITS;
  }

  /** From any cursor, over any sequence of batch sizes, any 160 consecutive positions schedule each of
      the 160 fingers exactly once. */
  lemma RepairIsFair(start: nat, sizes: seq<int>, a: nat, finger: int) returns (at: nat)
    requires a + BITS <= |Batches(start, sizes)| && 0 <= finger < BITS
    ensures a <= at < a + BITS && Batches(start, sizes)[at] == finger
    ensures forall j :: a <= j < a + BITS && Batches(start, sizes)[j] == finger ==> j == at
  {
    BatchesFollowOrder(start, sizes);
    JumpIsPermutation(0, finger);
    at := PhaseOccurs(start, a, PositionOf(finger));
    JumpIsPeriodic(start + at, PositionOf(finger));
    forall j | a <= j < a + BITS && Batches(start, sizes)[j] == finger ensures j == at {
      JumpIsPermutation(start + j, finger);
      PhaseIsUnique(start, a, j, at);
    }
  }

  // ----- repair completes -----

  /** A finger's value is what its last repair left. */
  lemma {:induction false} LastRepairDecides(fingers: seq<Finger>, indices: seq<int>, found: nat -> Option<NodeInfo>,
                                             finger: int, p: Finger -> bool)
    requires |fingers| == BITS && forall i :: 0 <= i < |indices| ==> 0 <= indices[i] < BITS
    requires finger in indices
    requires forall i: nat :: i < |indices| && indices[i] == finger ==> found(i).Some? && p(Finger(found(i).value, Ok, true))
    ensures p(Repaired(fingers, indices, found)[finger])
  {
    var k := |indices| - 1;
    if indices[k] != finger {
      var before := indices[..k];
      assert indices == before + [indices[k]];
      LastRepairDecides(fingers, before, found, finger, p);
    }
  }

  /** The owner a lookup reports, if it succeeds. */
  function OwnerFound(r: Result): Option<NodeInfo> {
    if r.Resolved? then Some(r.node) else None
  }

  /** On an ideal ring, once 160 positions have been worked through the finger table is exact, whatever it
      held before and whatever tables and caches answered the repair lookups. */
  lemma OneRoundMakesFingersExact(s: set<int>, self: NodeInfo, fingers: seq<Finger>, start: nat, sizes: seq<int>,
                                  nets: nat -> Network, maxHops: nat, found: nat -> Option<NodeInfo>, r: Router)
    requires Members(s) && self.id in s && maxHops >= |s| && |fingers| == BITS
    requires |Batches(start, sizes)| >= BITS
    requires forall i: nat :: i < |Batches(start, sizes)| ==>
               var id := StartOf(self.id, Batches(start, sizes)[i]);
               && IdealNetwork(s, nets(i)) && HitsRight(s, nets(i), id)
               && found(i) == OwnerFound(LookupFrom(nets(i), id, self, 0, [], maxHops))
    requires r.self == self && r.fingers == Repaired(fingers, Batches(start, sizes), found)
    ensures ExactFingers(s, r)
  {
    var indices := Batches(start, sizes);
    forall i | 0 <= i < BITS
      ensures r.fingers[i].valid && r.fingers[i].status != Suspicious
      ensures IsFirstAt(s, StartOf(self.id, i), r.fingers[i].node.id)
    {
      var at := RepairIsFair(start, sizes, 0, i);
      var p := (f: Finger) => f.valid && f.status == Ok && IsFirstAt(s, StartOf(self.id, i), f.node.id);
      forall k: nat | k < |indices| && indices[k] == i ensures found(k).Some? && p(Finger(found(k).value, Ok, true)) {
        assert Visited([]) == {};
        LookupCorrect(s, nets(k), StartOf(self.id, i), self, 0, [], maxHops);
      }
      LastRepairDecides(fingers, indices, found, i, p);
    }
  }
}
