/** What the score of a next hop weighs (lookup.go:246-285). */
module ScoreLaws {
  import opened Ring
  import opened Powers
  import opened Wrappers
  import opened NodeLists
  import opened Lookup

  predicate SameRegion(r: Router, c: NodeInfo) {
    c.region != EMPTY && c.region == r.region
  }

  /** A weight of zero for the id means: nothing but the id counts. */
  lemma IdAlone(r: Router, target: int, c: NodeInfo)
    requires ValidId(target) && ValidId(c.id) && r.weights.id == 0.0
    ensures Score(r, target, c) == 1.0 - BitLen(Offset(c.id, target)) as real / 161.0
  {
  }

  /** Every bit nearer to the target is worth one part in 161 of the id weight: `x` and `y` are the bit lengths of the two
      distances. */
  lemma BitsDecide(r: Router, target: int, c: NodeInfo, d: NodeInfo, x: nat, y: nat)
    requires ValidId(target) && ValidId(c.id) && ValidId(d.id) && r.weights.id != 0.0
    requires x == BitLen(Offset(c.id, target)) && y == BitLen(Offset(d.id, target))
    requires r.rtt(c.id) == r.rtt(d.id) && (SameRegion(r, c) <==> SameRegion(r, d))
    ensures Score(r, target, c) - Score(r, target, d) == r.weights.id * ((y - x) as real / 161.0)
  {
    BitStep(r.weights.id, x, y);
    OnlyBits(r, target, c, d, x, y, r.weights.id * ((y - x) as real / 161.0));
  }

  lemma OnlyBits(r: Router, target: int, c: NodeInfo, d: NodeInfo, x: nat, y: nat, step: real)
    requires ValidId(target) && ValidId(c.id) && ValidId(d.id) && r.weights.id != 0.0
    requires x == BitLen(Offset(c.id, target)) && y == BitLen(Offset(d.id, target))
    requires r.rtt(c.id) == r.rtt(d.id) && (SameRegion(r, c) <==> SameRegion(r, d))
    requires IdScore(r.weights.id, x) - IdScore(r.weights.id, y) == step
    ensures Score(r, target, c) - Score(r, target, d) == step
  {
  }

  lemma BitStep(w: real, x: nat, y: nat)
    ensures IdScore(w, x) - IdScore(w, y) == w * ((y - x) as real / 161.0)
  {
    var a, b := 1.0 - x as real / 161.0, 1.0 - y as real / 161.0;
    assert a - b == (y - x) as real / 161.0;
    ProductOfDifference(w, a, b);
  }

  lemma ProductOfDifference(w: real, a: real, b: real)
    ensures w * a - w * b == w * (a - b)
  {
  }

  /** Candidates of one bit length and region are told apart by latency: a measured one beats an unmeasured one, and a
      shorter a longer. */
  lemma LatencyDecides(r: Router, target: int, c: NodeInfo, d: NodeInfo)
    requires ValidId(target) && ValidId(c.id) && ValidId(d.id) && r.weights.id != 0.0 && r.weights.rtt > 0.0
    requires BitLen(Offset(c.id, target)) == BitLen(Offset(d.id, target)) && (SameRegion(r, c) <==> SameRegion(r, d))
    ensures Score(r, target, c) > Score(r, target, d)
            <==> r.rtt(c.id).Some? && (r.rtt(d.id).None? || r.rtt(c.id).value < r.rtt(d.id).value)
  {
    var w := r.weights.rtt;
    if r.rtt(c.id).Some? {
      LatencyTerm(w, r.rtt(c.id).value);
    }
    if r.rtt(d.id).Some? {
      LatencyTerm(w, r.rtt(d.id).value);
    }
    if r.rtt(c.id).Some? && r.rtt(d.id).Some? {
      LatencyOrder(w, r.rtt(c.id).value, r.rtt(d.id).value);
    }
  }

  /** A node that answers at once gets the whole weight, one that takes 100 ms half of it. */
  lemma LatencyScale(w: real)
    requires w > 0.0
    ensures RttScore(w, Some(0)) == w && RttScore(w, Some(100)) == w / 2.0 && RttScore(w, None) == 0.0
  {
  }

  lemma LatencyTerm(w: real, t: nat)
    requires w > 0.0
    ensures RttScore(w, Some(t)) > 0.0 && RttScore(w, Some(t)) * (100.0 + t as real) == 100.0 * w
  {
    var q := 1.0 + t as real / 100.0;
    assert 100.0 * q == 100.0 + t as real && (1.0 / q) * q == 1.0;
    Inverse(w, 1.0 / q, q);
  }

  lemma Inverse(w: real, i: real, q: real)
    requires w > 0.0 && q > 0.0 && i * q == 1.0
    ensures w * i > 0.0 && (w * i) * (100.0 * q) == 100.0 * w
  {
    assert i > 0.0;
    assert (w * i) * (100.0 * q) == 100.0 * (w * (i * q));
  }

  lemma LatencyOrder(w: real, s: nat, t: nat)
    requires w > 0.0
    ensures RttScore(w, Some(s)) > RttScore(w, Some(t)) <==> s < t
  {
    LatencyTerm(w, s);
    LatencyTerm(w, t);
    Antitone(RttScore(w, Some(s)), 100.0 + s as real, RttScore(w, Some(t)), 100.0 + t as real, 100.0 * w);
  }

  lemma SmallerFactor(x: real, a: real, y: real, b: real)
    requires x > 0.0 && y > 0.0 && 0.0 < a < b && x * a == y * b
    ensures x > y
  {
    assert y * b > y * a;
    assert (x - y) * a > 0.0;
  }

  lemma Antitone(x: real, a: real, y: real, b: real, p: real)
    requires x > 0.0 && y > 0.0 && a > 0.0 && b > 0.0 && x * a == p && y * b == p
    ensures x > y <==> a < b
  {
    if a < b {
      SmallerFactor(x, a, y, b);
    } else if b < a {
      SmallerFactor(y, b, x, a);
    } else {
      assert (x - y) * a == 0.0;
    }
  }

  /** Being in the node's own region is worth the region weight. */
  lemma RegionDecides(r: Router, target: int, c: NodeInfo, d: NodeInfo)
    requires ValidId(target) && ValidId(c.id) && ValidId(d.id) && r.weights.id != 0.0 && r.weights.region > 0.0
    requires BitLen(Offset(c.id, target)) == BitLen(Offset(d.id, target)) && r.rtt(c.id) == r.rtt(d.id)
    ensures SameRegion(r, c) && !SameRegion(r, d) ==> Score(r, target, c) == Score(r, target, d) + r.weights.region
    ensures (SameRegion(r, c) <==> SameRegion(r, d)) ==> Score(r, target, c) == Score(r, target, d)
  {
  }
}
