/** The ideal ring over a set of members, and what a correct lookup answer is. */
module IdealRing {
  import opened Ring
  import opened Sets
  import opened NodeLists
  import opened NodeSpec
  import opened Lookup

  ghost predicate Members(s: set<int>) {
    s != {} && forall x :: x in s ==> ValidId(x)
  }

  /** `x` follows `n` on the ring of `s`: no member lies strictly between them. */
  ghost predicate IsNext(s: set<int>, n: int, x: int) {
    n in s && x in s && forall y :: y in s ==> !InRangeOpenOpen(y, n, x)
  }

  /** `x` is the first member met when walking clockwise from `t`, `t` itself included. */
  ghost predicate IsFirstAt(s: set<int>, t: int, x: int)
    requires Members(s) && ValidId(t)
  {
    x in s && forall y :: y in s ==> Offset(t, x) <= Offset(t, y)
  }

  lemma FirstIsUnique(s: set<int>, t: int, x: int, y: int)
    requires Members(s) && ValidId(t) && IsFirstAt(s, t, x) && IsFirstAt(s, t, y)
    ensures x == y
  {
  }

  /** The owner of an id is the member whose successor arc contains it. */
  lemma ArcOwnerAnswers(s: set<int>, n: int, x: int, t: int)
    requires Members(s) && ValidId(t) && IsNext(s, n, x) && InRangeOpenClosed(t, n, x)
    ensures IsFirstAt(s, t, x)
  {
    forall y | y in s ensures Offset(t, x) <= Offset(t, y) {
      assert !InRangeOpenOpen(y, n, x);
    }
  }

  lemma {:induction false} ClosestBehind(s: set<int>, t: int) returns (p: int)
    requires Members(s) && ValidId(t)
    ensures p in s && forall y :: y in s ==> Gap(p, t) <= Gap(y, t)
    decreases s
  {
    p := AnyMember(s);
    var rest := s - {p};
    if rest != {} {
      var q := ClosestBehind(rest, t);
      assert s == rest + {p};
      if Gap(q, t) < Gap(p, t) {
        p := q;
      }
    }
  }

  /** Every id lies in the arc of some member. */
  lemma ArcOwnerExists(s: set<int>, t: int) returns (p: int)
    requires Members(s) && ValidId(t)
    ensures p in s && forall x :: IsNext(s, p, x) ==> InRangeOpenClosed(t, p, x)
    ensures forall y :: y in s && InRangeOpenOpen(y, p, t) ==> false
  {
    p := ClosestBehind(s, t);
    forall y | y in s ensures !InRangeOpenOpen(y, p, t) {
      assert Gap(p, t) <= Gap(y, t);
    }
    forall x | IsNext(s, p, x) ensures InRangeOpenClosed(t, p, x) {
      assert !InRangeOpenOpen(x, p, t) && Gap(p, t) <= Gap(x, t);
    }
  }

  /** The tables of a node on an ideal ring.  Fingers and list entries may be stale, suspicious or
      invalid, as long as they name members; the list contains the successor. */
  ghost predicate IdealRouter(s: set<int>, r: Router) {
    && r.status == Active
    && IsNext(s, r.self.id, r.succ.id)
    && r.succ.id in Ids(r.list)
    && (forall n :: n in r.list ==> n.id in s)
    && (forall i :: 0 <= i < |r.fingers| ==> r.fingers[i].node.id in s)
  }

  ghost predicate IdealNetwork(s: set<int>, net: Network) {
    forall h: nat, n :: n in s ==>
      net.router(h, n).Some? && net.router(h, n).value.self.id == n && IdealRouter(s, net.router(h, n).value)
  }
}
