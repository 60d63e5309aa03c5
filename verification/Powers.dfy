/** Powers and bit lengths. */
module Powers {
  import opened Ring

  function Pow(b: nat, e: nat): nat {
    if e == 0 then 1 else b * Pow(b, e - 1)
  }

  lemma {:induction false} PowAdd(b: nat, x: nat, y: nat)
    ensures Pow(b, x + y) == Pow(b, x) * Pow(b, y)
  {
    if x == 0 {
    } else {
      PowAdd(b, x - 1, y);
      assert b * (Pow(b, x - 1) * Pow(b, y)) == (b * Pow(b, x - 1)) * Pow(b, y);
    }
  }

  /** The ring size is 2^160, which is also the number of 40-digit strings. */
  lemma RingSize()
    ensures Pow(2, BITS) == M == Pow(16, 40)
  {
    assert Pow(2, 10) == 1024;
    PowAdd(2, 10, 10);
    PowAdd(2, 20, 20);
    PowAdd(2, 40, 40);
    PowAdd(2, 80, 80);
    assert Pow(16, 5) == 0x10_0000;
    PowAdd(16, 5, 5);
    PowAdd(16, 10, 10);
    PowAdd(16, 20, 20);
  }

  lemma {:induction false} PowBound(i: nat, j: nat)
    requires i <= j
    ensures 0 < Pow(2, i) <= Pow(2, j)
    decreases j
  {
    if i < j {
      PowBound(i, j - 1);
    } else if i > 0 {
      PowBound(i - 1, j - 1);
    }
  }

  /** Number of bits of `n`, as big.Int.BitLen counts them. */
  function BitLen(n: nat): nat {
    if n == 0 then 0 else 1 + BitLen(n / 2)
  }

  lemma {:induction false} BitLenBound(n: nat, k: nat)
    ensures BitLen(n) <= k <==> n < Pow(2, k)
  {
    if n == 0 {
      PowBound(0, k);
    } else if k > 0 {
      BitLenBound(n / 2, k - 1);
    }
  }

  lemma BitLenMonotone(m: nat, n: nat)
    requires m <= n
    ensures BitLen(m) <= BitLen(n)
  {
    BitLenBound(n, BitLen(n));
    BitLenBound(m, BitLen(n));
  }

  /** Ids have at most 160 bits, and every finger distance is a proper part of the circle. */
  lemma WithinRing(n: nat, k: nat)
    requires n < M && k < BITS
    ensures BitLen(n) <= BITS
    ensures 0 < Pow(2, k) < M
  {
    RingSize();
    BitLenBound(n, BITS);
    PowBound(k, BITS - 1);
  }
}
