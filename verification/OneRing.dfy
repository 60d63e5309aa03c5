/** Successor pointers that skip no base node form at most one ring, in id order.  One base node is enough. */
module OneRing {
  import opened Ring
  import opened Sets
  import opened NodeLists
  import opened NodeSpec
  import opened StableBase
  import opened StableBaseRuns
  import NoSkip

  predicate Points(next: map<int, int>, x: int, y: int) {
    x in next && next[x] == y
  }

  /** A path along successor pointers. */
  ghost predicate Follows(next: map<int, int>, w: seq<int>) {
    && |w| > 0
    && (forall i :: 0 <= i < |w| ==> ValidId(w[i]))
    && (forall i, j :: 0 <= i && j == i + 1 && j < |w| ==> Points(next, w[i], w[j]))
  }

  /** A path that returns to its start and repeats nothing before that. */
  ghost predicate RingOf(next: map<int, int>, w: seq<int>) {
    && Follows(next, w) && |w| > 1 && w[|w| - 1] == w[0]
    && forall i, j :: 0 < i < j < |w| ==> w[i] != w[j]
  }

  ghost predicate NoPointerSkips(b: int, next: map<int, int>) {
    ValidId(b) && forall n :: n in next ==> !InRangeOpenOpen(b, n, next[n])
  }

  /** Clockwise distance travelled along a path. */
  function Travelled(w: seq<int>): nat
    requires |w| > 0 && forall i :: 0 <= i < |w| ==> ValidId(w[i])
  {
    if |w| == 1 then 0 else Travelled(w[..|w| - 1]) + Gap(w[|w| - 2], w[|w| - 1])
  }

  /** How often a path arrives at `b`. */
  function Arrivals(w: seq<int>, b: int): nat
    requires |w| > 0
  {
    if |w| == 1 then 0 else Arrivals(w[..|w| - 1], b) + if w[|w| - 1] == b then 1 else 0
  }

  /** Distance is accounted for by full turns past `b`, and there is one turn for every arrival at `b`. */
  lemma {:induction false} TurnsAreArrivals(b: int, next: map<int, int>, w: seq<int>)
    requires NoPointerSkips(b, next) && Follows(next, w)
    ensures Travelled(w) == M * Arrivals(w, b) + Offset(b, w[|w| - 1]) - Offset(b, w[0])
  {
    if |w| > 1 {
      var x, y := w[|w| - 2], w[|w| - 1];
      TurnsAreArrivals(b, next, w[..|w| - 1]);
      assert Points(next, x, y) && !InRangeOpenOpen(b, x, y);
    }
  }

  lemma {:induction false} ArrivalsMean(w: seq<int>, b: int)
    requires |w| > 0
    ensures Arrivals(w, b) > 0 <==> b in w[1..]
    ensures (forall i, j :: 0 < i < j < |w| ==> w[i] != w[j]) ==> Arrivals(w, b) <= 1
  {
    if |w| > 1 {
      var before := w[..|w| - 1];
      ArrivalsMean(before, b);
      assert w[1..] == before[1..] + [w[|w| - 1]];
      if w[|w| - 1] == b && b in before[1..] {
        var i :| 0 <= i < |before[1..]| && before[1..][i] == b;
        assert w[i + 1] == w[|w| - 1];
      }
    }
  }

  /** Every ring passes every base node exactly once and goes round the circle exactly once. */
  lemma RingTurnsOnce(b: int, next: map<int, int>, w: seq<int>)
    requires NoPointerSkips(b, next) && RingOf(next, w)
    ensures Travelled(w) == M && Arrivals(w, b) == 1 && b in w
  {
    TurnsAreArrivals(b, next, w);
    ArrivalsMean(w, b);
    TravelledPositive(w);
  }

  lemma TravelledPositive(w: seq<int>)
    requires |w| > 1 && forall i :: 0 <= i < |w| ==> ValidId(w[i])
    ensures Travelled(w) > 0
  {
  }

  /** Following a ring from `b`, ids appear in clockwise order. */
  lemma {:induction false} RingInIdOrder(b: int, next: map<int, int>, w: seq<int>, i: nat, j: nat)
    requires NoPointerSkips(b, next) && RingOf(next, w) && w[0] == b && i < j < |w| - 1
    ensures Offset(b, w[i]) < Offset(b, w[j])
    decreases j
  {
    assert Points(next, w[j - 1], w[j]) && w[j] != w[|w| - 1];
    assert !InRangeOpenOpen(b, w[j - 1], w[j]);
    if i < j - 1 {
      RingInIdOrder(b, next, w, i, j - 1);
    }
  }

  lemma RingIsClosed(next: map<int, int>, w: seq<int>, x: int)
    requires RingOf(next, w) && x in w
    ensures x in next && next[x] in w
  {
    var i :| 0 <= i < |w| && w[i] == x;
    var k := if i == |w| - 1 then 0 else i;
    assert Points(next, w[k], w[k + 1]);
  }

  lemma {:induction false} RingStays(next: map<int, int>, w: seq<int>, v: seq<int>, i: nat, j: nat)
    requires RingOf(next, w) && Follows(next, v) && i <= j < |v| && v[i] in w
    ensures v[j] in w
    decreases j
  {
    if i < j {
      RingStays(next, w, v, i, j - 1);
      RingIsClosed(next, w, v[j - 1]);
      assert Points(next, v[j - 1], v[j]);
    }
  }

  /** There is at most one ring: any two have the same nodes. */
  lemma AtMostOneRing(b: int, next: map<int, int>, w: seq<int>, v: seq<int>, x: int)
    requires NoPointerSkips(b, next) && RingOf(next, w) && RingOf(next, v) && x in v
    ensures x in w
  {
    RingTurnsOnce(b, next, w);
    RingTurnsOnce(b, next, v);
    var i :| 0 <= i < |v| && v[i] == b;
    RingStays(next, w, v, i, |v| - 1);
    var j :| 0 <= j < |v| && v[j] == x;
    RingStays(next, w, v, 0, j);
  }

  /** In every reachable state of the network the successor pointers of the active nodes form at most one
      ring, which holds all base nodes, turns once, and has the same nodes however it is traced. */
  lemma OneRingInEveryRun(c: Config, nets: seq<Net>, events: seq<Event>, i: nat, w: seq<int>, v: seq<int>)
    requires GoodConfig(c) && IsNetRun(c, nets, events) && Safe(c, nets[0]) && i < |nets|
    requires var next := map n | n in nets[i].nodes && nets[i].nodes[n].status == Active :: nets[i].nodes[n].succ.id;
             RingOf(next, w) && RingOf(next, v)
    ensures Travelled(w) == M
    ensures forall b :: b in c.base ==> b in w && Arrivals(w, b) == 1
    ensures forall x :: x in v <==> x in w
  {
    var next := map n | n in nets[i].nodes && nets[i].nodes[n].status == Active :: nets[i].nodes[n].succ.id;
    forall b | b in c.base ensures NoPointerSkips(b, next) {
      forall n | n in next ensures !InRangeOpenOpen(b, n, next[n]) {
        ListsStayOrdered(c, nets, events, i, n);
      }
      assert NoSkip.BaseFor(c.base, LimitOf(c, 0));
    }
    BaseHasTwo(c, 0, 0);
    var b := AnyMember(c.base);
    RingTurnsOnce(b, next, w);
    forall b | b in c.base ensures b in w && Arrivals(w, b) == 1 {
      RingTurnsOnce(b, next, w);
    }
    forall x ensures x in v <==> x in w {
      if x in v {
        AtMostOneRing(b, next, w, v, x);
      }
      if x in w {
        AtMostOneRing(b, next, v, w, x);
      }
    }
  }
}
