/** The identifier circle: 160-bit ids, clockwise offsets and the two interval tests of id.go.

    An id is an `int`.  The integers 0 <= x < M are the well-formed ids (40 lower-case hex digits;
    module HexId proves the correspondence), EMPTY stands for the empty string, and every other
    integer stands for some malformed string a peer may send.
 */
module Ring {

  const BITS: nat := 160
  const M: nat := 0x1_0000000000_0000000000_0000000000_0000000000
  const EMPTY: int := -1

  predicate ValidId(x: int) {
    0 <= x < M
  }

  /** Clockwise distance from `a` to `x`. */
  function Offset(a: int, x: int): (d: nat)
    requires ValidId(a) && ValidId(x)
    ensures d < M
  {
    if a <= x then x - a else x - a + M
  }

  /** The id at clockwise distance `d` from `a`. */
  function Advance(a: int, d: nat): (x: int)
    requires ValidId(a) && d < M
    ensures ValidId(x) && Offset(a, x) == d
  {
    if a + d < M then a + d else a + d - M
  }

  /** Offset and Advance are subtraction and addition modulo 2^160. */
  lemma OffsetIsModular(a: int, x: int, d: nat)
    requires ValidId(a) && ValidId(x) && d < M
    ensures Offset(a, x) == (x - a) % M
    ensures Advance(a, d) == (a + d) % M
    ensures Advance(a, d) == x <==> d == Offset(a, x)
  {
  }

  /** Length of the arc one travels from `a` to reach `b`: a full turn when they coincide. */
  function Gap(a: int, b: int): (d: nat)
    requires ValidId(a) && ValidId(b)
    ensures 0 < d <= M
  {
    if a == b then M else Offset(a, b)
  }

  predicate InRangeOpenClosed(x: int, a: int, b: int) {
    if !ValidId(x) || !ValidId(a) || !ValidId(b) then false
    else if a < b then a < x && x <= b
    else if a > b then a < x || x <= b
    else true
  }

  predicate InRangeOpenOpen(x: int, a: int, b: int) {
    if !ValidId(x) || !ValidId(a) || !ValidId(b) then false
    else if a < b then a < x && x < b
    else if a > b then a < x || x < b
    else x != a
  }

  /** Both tests are the modular intervals, wrap-around and coinciding ends included. */
  lemma IntervalsAreModular(x: int, a: int, b: int)
    requires ValidId(x) && ValidId(a) && ValidId(b)
    ensures InRangeOpenOpen(x, a, b) <==> 0 < Offset(a, x) < Gap(a, b)
    ensures InRangeOpenClosed(x, a, b) <==> a == b || 0 < Offset(a, x) <= Offset(a, b)
    ensures InRangeOpenClosed(x, a, b) <==> InRangeOpenOpen(x, a, b) || x == b || (a == b && x == a)
  {
  }

  /** A point inside an arc splits it into two arcs. */
  lemma IntervalSplit(a: int, x: int, b: int, y: int)
    requires ValidId(y) && InRangeOpenOpen(x, a, b)
    ensures InRangeOpenOpen(y, a, b) <==> InRangeOpenOpen(y, a, x) || y == x || InRangeOpenOpen(y, x, b)
    ensures !(InRangeOpenOpen(y, a, x) && InRangeOpenOpen(y, x, b))
  {
  }

  /** Going from `a` to `c` by way of any `b` passes at least everything on the direct arc. */
  lemma ThreePoint(a: int, b: int, c: int, x: int)
    requires ValidId(b) && InRangeOpenOpen(x, a, c)
    ensures InRangeOpenOpen(x, a, b) || x == b || InRangeOpenOpen(x, b, c)
  {
  }

  /** Offsets add up to the direct offset, or overshoot it by exactly one turn. */
  lemma OffsetsAdd(a: int, b: int, c: int)
    requires ValidId(a) && ValidId(b) && ValidId(c)
    ensures Offset(a, b) + Offset(b, c) == Offset(a, c) + (if Offset(a, b) <= Offset(a, c) then 0 else M)
  {
  }
}
