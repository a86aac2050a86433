/** Powers of two and the rounded-up logarithm that the page allocator sizes its blocks with. */
module Powers {

  function Pow2(k: nat): (p: nat)
    ensures p >= 1
  {
    if k == 0 then 1 else 2 * Pow2(k - 1)
  }

  /** Number of significant bits: on a 64-bit word n this is 64 minus the count of leading zeros. */
  function BitLength(n: nat): nat {
    if n == 0 then 0 else 1 + BitLength(n / 2)
  }

  /** The 64-bit compiler path of `llog2`: 0 up to one, else 64 - clz(x - 1). */
  function LLog2(x: nat): nat {
    if x <= 1 then 0 else BitLength(x - 1)
  }

  lemma {:induction false} BitLengthBounds(n: nat, k: nat)
    ensures n < Pow2(k) <==> BitLength(n) <= k
  {
    if n == 0 {
    } else if k == 0 {
      assert Pow2(0) == 1;
    } else {
      BitLengthBounds(n / 2, k - 1);
    }
  }

  /** `llog2` is the ceiling of the logarithm: the least order whose block holds x units. */
  lemma LLog2IsCeiling(x: nat, k: nat)
    ensures x <= Pow2(k) <==> LLog2(x) <= k
  {
    if x > 1 {
      BitLengthBounds(x - 1, k);
    }
  }

  lemma {:induction false} LLog2OfPow2(k: nat)
    ensures LLog2(Pow2(k)) == k
  {
    LLog2IsCeiling(Pow2(k), k);
    if k > 0 {
      LLog2IsCeiling(Pow2(k), k - 1);
    }
  }

  lemma {:induction false} Pow2Monotone(j: nat, k: nat)
    requires j <= k
    ensures Pow2(j) <= Pow2(k)
    decreases k - j
  {
    if j < k {
      Pow2Monotone(j + 1, k);
    }
  }

  lemma {:induction false} Pow2Sum(j: nat, k: nat)
    ensures Pow2(j + k) == Pow2(j) * Pow2(k)
  {
    if j > 0 {
      Pow2Sum(j - 1, k);
      assert Pow2(j + k) == 2 * Pow2(j - 1 + k);
      assert 2 * (Pow2(j - 1) * Pow2(k)) == (2 * Pow2(j - 1)) * Pow2(k);
    }
  }
}
