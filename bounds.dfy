/**
  The combinatorial bound of a batch, n·(n−1)·…·(n−k+1), and the rejection
  threshold 2^64 mod bound that the bias check compares the leftover word with.
 */
module Bounds {
  import opened Uint64

  /**
    The falling product of k factors starting at n, built up in the order the
    source multiplies (`bound = n; bound *= n - j` for j = 1 .. k−1).
   */
  function FallingProduct(n: int, k: nat): (p: int)
    ensures 0 <= n ==> 0 <= p
    ensures k <= n ==> 1 <= p
    ensures 0 <= n < k ==> p == 0
    decreases k
  {
    if k == 0 then 1
    else
      var p, f := FallingProduct(n, k - 1), n - (k - 1);
      ProductSigns(p, f);
      p * f
  }

  /** Signs of a product of a partial product and one more factor. */
  lemma ProductSigns(p: int, f: int)
    ensures 0 <= p && 0 <= f ==> 0 <= p * f
    ensures 1 <= p && 1 <= f ==> 1 <= p * f
    ensures f == 0 ==> p * f == 0
  {
    if 0 <= p && 0 <= f {
      MulMonotone(0, p, f);
    }
    if 1 <= p && 1 <= f {
      MulAtLeast(p, f);
    }
  }

  /** One factor more never makes the product smaller while the factors stay positive. */
  lemma {:induction false} FallingGrowsWithK(n: int, j: nat, k: nat)
    requires j <= k <= n
    ensures FallingProduct(n, j) <= FallingProduct(n, k)
    decreases k - j
  {
    if j < k {
      FallingGrowsWithK(n, j, k - 1);
      MulAtLeast(FallingProduct(n, k - 1), n - (k - 1));
    }
  }

  /** A smaller count never has a larger falling product of the same length. */
  lemma {:induction false} FallingMonotone(m: int, n: int, k: nat)
    requires 0 <= m <= n
    ensures FallingProduct(m, k) <= FallingProduct(n, k)
    decreases k
  {
    if k > 0 {
      FallingMonotone(m, n, k - 1);
      var pm, pn := FallingProduct(m, k - 1), FallingProduct(n, k - 1);
      ProductMonotone(pm, pn, m - (k - 1), n - (k - 1));
    }
  }

  /** The step of `FallingMonotone`: a larger product times a larger factor, where a product is zero whenever its factor is negative. */
  lemma ProductMonotone(pm: int, pn: int, fm: int, fn: int)
    requires 0 <= pm <= pn && fm <= fn && (fm < 0 ==> pm == 0) && (fn < 0 ==> pn == 0)
    ensures pm * fm <= pn * fn
  {
    if fm >= 0 {
      MulMonotone(pm, pn, fm);
      MulMonotone(fm, fn, pn);
    } else if fn >= 0 {
      ProductSigns(pn, fn);
    }
  }

  /** `x % b` is fixed by any decomposition `x == q * b + r` with `0 <= r < b`. */
  lemma ModOfDecomposition(x: int, b: int, q: int, r: int)
    requires 0 < b && 0 <= r < b && x == q * b + r
    ensures x % b == r
  {
    var q', r' := x / b, x % b;
    if q > q' {
      MulAtLeast(b, q - q');
    } else if q < q' {
      MulAtLeast(b, q' - q);
    }
  }

  /**
    The threshold `-bound % bound` of the bias check. Unsigned negation turns it
    into 2^64 mod bound, which is always below the bound.
   */
  function Threshold(bound: u64): (t: u64)
    requires 1 <= bound
    ensures t == TWO64 % bound
    ensures t < bound
  {
    ModOfDecomposition(TWO64 - bound, bound, TWO64 / bound - 1, TWO64 % bound);
    Neg(bound) % bound
  }
}
