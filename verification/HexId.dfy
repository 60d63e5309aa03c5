/** The textual form of ids: 40 lower-case hexadecimal digits (id.go:60-129). */
module HexId {
  import opened Ring
  import opened Powers
  import opened Wrappers

  predicate IsDigit(c: char) {
    '0' <= c <= '9' || 'a' <= c <= 'f'
  }

  function DigitValue(c: char): (v: nat)
    requires IsDigit(c)
    ensures v < 16
  {
    if c <= '9' then (c as int) - ('0' as int) else (c as int) - ('a' as int) + 10
  }

  function Digit(v: nat): (c: char)
    requires v < 16
    ensures IsDigit(c) && DigitValue(c) == v
  {
    if v < 10 then ('0' as int + v) as char else ('a' as int + v - 10) as char
  }

  predicate AllDigits(s: string) {
    forall i :: 0 <= i < |s| ==> IsDigit(s[i])
  }

  predicate ValidateID(id: string) {
    |id| == 40 && AllDigits(id)
  }

  /** The number a digit string denotes, most significant digit first. */
  function Parse(s: string): nat
    requires AllDigits(s)
  {
    if s == [] then 0 else 16 * Parse(s[..|s| - 1]) + DigitValue(s[|s| - 1])
  }

  /** Base-16 text of a number, without leading zeros. */
  function Text(n: nat): (s: string)
    ensures |s| > 0 && AllDigits(s)
  {
    if n < 16 then [Digit(n)] else Text(n / 16) + [Digit(n % 16)]
  }

  function Zeros(k: nat): (s: string)
    ensures |s| == k && AllDigits(s)
  {
    seq(k, _ => '0')
  }

  function IdToBig(id: string): Option<nat> {
    if ValidateID(id) then Some(Parse(id)) else None
  }

  function BigToId(n: nat): string
    requires |Text(n)| <= 40
  {
    Zeros(40 - |Text(n)|) + Text(n)
  }

  lemma {:induction false} ParseBound(s: string)
    requires AllDigits(s)
    ensures Parse(s) < Pow(16, |s|)
  {
    if s != [] {
      ParseBound(s[..|s| - 1]);
    }
  }

  lemma {:induction false} TextLength(n: nat, k: nat)
    requires k > 0 && n < Pow(16, k)
    ensures |Text(n)| <= k
  {
    if n >= 16 {
      assert Pow(16, 1) == 16;
      TextLength(n / 16, k - 1);
    }
  }

  lemma {:induction false} ParseText(n: nat)
    ensures Parse(Text(n)) == n
  {
    if n >= 16 {
      ParseText(n / 16);
      assert Text(n)[..|Text(n)| - 1] == Text(n / 16);
    }
  }

  lemma {:induction false} ParsePadded(k: nat, s: string)
    requires AllDigits(s)
    ensures Parse(Zeros(k) + s) == Parse(s)
  {
    if s != [] {
      assert (Zeros(k) + s)[..|Zeros(k) + s| - 1] == Zeros(k) + s[..|s| - 1];
      ParsePadded(k, s[..|s| - 1]);
    } else if k > 0 {
      assert Zeros(k) + s == Zeros(k) && Zeros(k)[..k - 1] == Zeros(k - 1) + s;
      ParsePadded(k - 1, s);
    } else {
      assert Zeros(0) + s == s;
    }
  }

  lemma {:induction false} ParseInjective(s: string, t: string)
    requires AllDigits(s) && AllDigits(t) && |s| == |t| && Parse(s) == Parse(t)
    ensures s == t
  {
    if s != [] {
      ParseInjective(s[..|s| - 1], t[..|t| - 1]);
      assert s == s[..|s| - 1] + [s[|s| - 1]];
      assert t == t[..|t| - 1] + [t[|t| - 1]];
    }
  }

  lemma IdFits(n: nat)
    requires ValidId(n)
    ensures |Text(n)| <= 40
  {
    RingSize();
    TextLength(n, 40);
  }

  /** Number to text and back. */
  lemma NumberRoundTrip(n: nat)
    requires ValidId(n)
    ensures |Text(n)| <= 40
    ensures ValidateID(BigToId(n)) && IdToBig(BigToId(n)) == Some(n)
  {
    IdFits(n);
    ParseText(n);
    ParsePadded(40 - |Text(n)|, Text(n));
  }

  /** Text to number and back: exactly the valid texts are images, and nothing is lost. */
  lemma TextRoundTrip(id: string)
    ensures IdToBig(id).Some? <==> ValidateID(id)
    ensures ValidateID(id) ==> ValidId(Parse(id)) && |Text(Parse(id))| <= 40 && BigToId(Parse(id)) == id
  {
    if ValidateID(id) {
      ParseBound(id);
      RingSize();
      NumberRoundTrip(Parse(id));
      ParseInjective(BigToId(Parse(id)), id);
    }
  }

  /** The code this model uses for a text: its number, EMPTY, or some value no valid id has. */
  function Code(id: string): int {
    if ValidateID(id) then Parse(id) else if id == "" then EMPTY else EMPTY - 1
  }

  function FingerStart(selfId: string, index: int): (start: Option<string>) {
    if index < 0 || index >= BITS then None
    else
      match IdToBig(selfId)
      case None => None
      case Some(self) =>
        var n := (self + Pow(2, index)) % M;
        IdFits(n);
        Some(BigToId(n))
  }

  function TextInRangeOpenOpen(xId: string, aId: string, bId: string): bool {
    match (IdToBig(xId), IdToBig(aId), IdToBig(bId))
    case (Some(x), Some(a), Some(b)) =>
      if a < b then x > a && x < b
      else if a > b then x > a || x < b
      else x != a
    case _ => false
  }

  function TextInRangeOpenClosed(xId: string, aId: string, bId: string): bool {
    match (IdToBig(xId), IdToBig(aId), IdToBig(bId))
    case (Some(x), Some(a), Some(b)) =>
      if a < b then x > a && x <= b
      else if a > b then x > a || x <= b
      else true
    case _ => false
  }

  /** The tests on text and the tests on codes agree for every text, malformed ones included. */
  lemma TextIntervals(x: string, a: string, b: string)
    ensures TextInRangeOpenOpen(x, a, b) == InRangeOpenOpen(Code(x), Code(a), Code(b))
    ensures TextInRangeOpenClosed(x, a, b) == InRangeOpenClosed(Code(x), Code(a), Code(b))
  {
    TextRoundTrip(x);
    TextRoundTrip(a);
    TextRoundTrip(b);
  }

  /** Finger i starts exactly 2^i clockwise from the node; every other request is refused. */
  lemma FingerStartExact(selfId: string, index: int)
    ensures FingerStart(selfId, index).Some? <==> 0 <= index < BITS && ValidateID(selfId)
    ensures FingerStart(selfId, index).Some? ==>
              var s := FingerStart(selfId, index).value;
              ValidateID(s) && ValidId(Parse(s)) && ValidId(Parse(selfId))
              && Offset(Parse(selfId), Parse(s)) == Pow(2, index)
  {
    if 0 <= index < BITS && ValidateID(selfId) {
      TextRoundTrip(selfId);
      var n := (Parse(selfId) + Pow(2, index)) % M;
      NumberRoundTrip(n);
      WithinRing(0, index);
      OffsetIsModular(Parse(selfId), n, Pow(2, index));
    }
  }
}
