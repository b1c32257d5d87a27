/** Unsigned machine words as numbers: their limits, bitwise conjunction and powers of two. */
module Bits {
  const DWORD_LIMIT: nat := 0x1_0000_0000            // one more than the largest DWORD
  const SIZE_LIMIT: nat := 0x1_0000_0000_0000_0000   // and than the largest SIZE_T of 64 bits
  const ADDRESS_SPACE: nat := 0x8000_0000_0000       // bytes a 64-bit process can have

  function And(a: nat, b: nat): nat {
    if a == 0 || b == 0 then 0 else 2 * And(a / 2, b / 2) + (a % 2) * (b % 2)
  }

  function Pow2(k: nat): (r: nat)
    ensures r > 0
  {
    if k == 0 then 1 else 2 * Pow2(k - 1)
  }

  ghost predicate IsPowerOfTwo(k: nat) {
    exists e: nat :: k == Pow2(e)
  }

  /** The index of the highest bit set, as the _BitScanReverse intrinsic gives it. */
  function BitScanReverse(n: nat): (k: nat)
    requires n > 0
    ensures Pow2(k) <= n < 2 * Pow2(k)
  {
    if n == 1 then 0 else 1 + BitScanReverse(n / 2)
  }

  lemma {:induction false} PowMono(j: nat, k: nat, n: nat)
    requires Pow2(j) <= n < 2 * Pow2(k)
    ensures j <= k
    decreases k
  {
    if j > k {
      PowSplit(k + 1, j);
    }
  }

  lemma {:induction false} PowSplit(j: nat, k: nat)
    requires j <= k
    ensures Pow2(j) <= Pow2(k)
  {
    if j < k {
      PowSplit(j, k - 1);
    }
  }

  /** n & (n-1) is zero for the powers of two and for nothing else. */
  lemma {:induction false} AndTest(n: nat)
    requires n > 0
    ensures And(n, n - 1) == 0 <==> n == Pow2(BitScanReverse(n))
  {
    if n == 1 {
    } else if n % 2 == 1 {
      assert (n - 1) / 2 == n / 2;
      AndSelf(n / 2);
      assert Pow2(BitScanReverse(n)) == 2 * Pow2(BitScanReverse(n / 2));
    } else {
      assert (n - 1) / 2 == n / 2 - 1;
      AndTest(n / 2);
    }
  }

  lemma BitTimesItself(b: nat)
    requires b < 2
    ensures b * b == b
  {
    assert b == 0 || b == 1;
  }

  lemma {:induction false} AndSelf(n: nat)
    ensures And(n, n) == n
  {
    if n > 0 {
      AndSelf(n / 2);
      BitTimesItself(n % 2);
    }
  }

  /** In w bits, ~k + 1 is Pow2(w) - k: k & (~k + 1) is k for the powers of two and for nothing
      else. */
  lemma {:induction false} LowestBitTest(k: nat, w: nat)
    requires 0 < k < Pow2(w)
    ensures And(k, Pow2(w) - k) == k <==> k == Pow2(BitScanReverse(k))
  {
    hide And, BitScanReverse;
    AndHalves(k, Pow2(w) - k);
    ComplementHalves(k, Pow2(w - 1));
    PowerHalves(k);
    if k % 2 == 0 {
      LowestBitTest(k / 2, w - 1);
    } else {
      AndComplement(k / 2, w - 1);
    }
  }

  lemma AndHalves(a: nat, b: nat)
    ensures And(a, b) == 2 * And(a / 2, b / 2) + if a % 2 == 1 && b % 2 == 1 then 1 else 0
  {
    BitProduct(a % 2, b % 2);
  }

  lemma BitProduct(a: nat, b: nat)
    requires a < 2 && b < 2
    ensures a * b == if a == 1 && b == 1 then 1 else 0
  {
  }

  lemma ComplementHalves(k: nat, m: nat)
    requires 0 < k < 2 * m
    ensures (2 * m - k) % 2 == k % 2
    ensures (2 * m - k) / 2 == if k % 2 == 0 then m - k / 2 else m - 1 - k / 2
  {
  }

  lemma PowerHalves(k: nat)
    requires k > 0
    ensures k == Pow2(BitScanReverse(k)) <==> k == 1 || (k % 2 == 0 && k / 2 == Pow2(BitScanReverse(k / 2)))
  {
  }

  lemma {:induction false} AndComplement(h: nat, w: nat)
    requires h < Pow2(w)
    ensures And(h, Pow2(w) - 1 - h) == 0
  {
    if h > 0 {
      AndComplement(h / 2, w - 1);
      assert (Pow2(w) - 1 - h) / 2 == Pow2(w - 1) - 1 - h / 2;
      assert h % 2 + (Pow2(w) - 1 - h) % 2 == 1;
    }
  }
}
