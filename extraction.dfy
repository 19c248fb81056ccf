/**
  Index extraction: one 64-bit word yields k bounded indices by repeated
  multiply-shift, index j drawn from [0, n−j).
 */
module Extraction {
  import opened Uint64
  import opened Bounds

  /** The indices drawn from one word and the word left over after the last draw. */
  datatype Extracted = Extracted(indexes: seq<u64>, leftover: u64)

  /**
    The first k multiply-shift draws from word r: draw j multiplies the current
    word by n − j, keeps the high half as `indexes[j]` and carries the low half
    on as the word for draw j + 1.
   */
  function Extract(n: u64, k: nat, r: u64): (e: Extracted)
    requires k <= n
    ensures |e.indexes| == k
    ensures forall j :: 0 <= j < k ==> e.indexes[j] < n - j
    decreases k
  {
    if k == 0 then Extracted([], r)
    else
      var prev := Extract(n, k - 1, r);
      Extracted(prev.indexes + [MulHi(n - (k - 1), prev.leftover)], MulLo(n - (k - 1), prev.leftover))
  }

  /**
    The number whose digits are `idx` in the mixed radix n, n−1, n−2, …, most
    significant digit first.
   */
  function MixedRadix(n: int, idx: seq<u64>): (v: int)
    ensures (forall j :: 0 <= j < |idx| ==> idx[j] < n - j) ==> 0 <= v < FallingProduct(n, |idx|)
  {
    if idx == [] then 0
    else
      var prefix := idx[..|idx| - 1];
      assert forall j :: 0 <= j < |prefix| ==> prefix[j] == idx[j];
      var m := n - (|idx| - 1);
      DigitBound(MixedRadix(n, prefix), FallingProduct(n, |prefix|), m, idx[|idx| - 1]);
      MixedRadix(n, prefix) * m + idx[|idx| - 1]
  }

  /** Appending a digit below m to a number below p gives a number below p·m. */
  lemma DigitBound(d: int, p: int, m: int, h: int)
    ensures 0 <= d < p && 0 <= h < m ==> 0 <= d * m + h < p * m
  {
    if 0 <= d < p && 0 <= h < m {
      MulMonotone(d, p - 1, m);
      MulMonotone(0, d, m);
    }
  }

  /**
    The k indices and the leftover word together are exactly the 128-bit product
    of the falling product n·…·(n−k+1) and the word r: the indices are the
    mixed-radix digits of its high half, which lies below the falling product,
    and the leftover is its low half. So one batch is one multiply-shift draw
    from [0, n·…·(n−k+1)).
   */
  lemma {:induction false} ExtractIsOneDraw(n: u64, k: nat, r: u64)
    requires k <= n
    ensures var e := Extract(n, k, r);
      && FallingProduct(n, k) * r == MixedRadix(n, e.indexes) * TWO64 + e.leftover
      && 0 <= MixedRadix(n, e.indexes) < FallingProduct(n, k)
    decreases k
  {
    if k > 0 {
      ExtractIsOneDraw(n, k - 1, r);
      ExtractStep(n, k, r);
    }
  }

  /** The inductive step of `ExtractIsOneDraw`: one more draw keeps the product equation. */
  lemma ExtractStep(n: u64, k: nat, r: u64)
    requires 0 < k <= n
    requires var prev := Extract(n, k - 1, r);
      FallingProduct(n, k - 1) * r == MixedRadix(n, prev.indexes) * TWO64 + prev.leftover
    ensures var e := Extract(n, k, r);
      FallingProduct(n, k) * r == MixedRadix(n, e.indexes) * TWO64 + e.leftover
  {
    var prev := Extract(n, k - 1, r);
    var e := Extract(n, k, r);
    var m := n - (k - 1);
    var hi, lo := MulHi(m, prev.leftover), MulLo(m, prev.leftover);
    assert e.indexes == prev.indexes + [hi] && e.leftover == lo;
    MixedRadixSnoc(n, prev.indexes, hi);
    DigitStep(FallingProduct(n, k - 1), m, r, MixedRadix(n, prev.indexes), prev.leftover, hi, lo,
              FallingProduct(n, k), MixedRadix(n, e.indexes));
  }

  /** Appending a digit h after the digits `idx` multiplies by the next radix and adds h. */
  lemma MixedRadixSnoc(n: int, idx: seq<u64>, h: u64)
    ensures MixedRadix(n, idx + [h]) == MixedRadix(n, idx) * (n - |idx|) + h
  {
    assert (idx + [h])[..|idx|] == idx;
  }

  /** One more multiply-shift step appends one mixed-radix digit. */
  lemma DigitStep(p: int, m: int, r: int, digits: int, left: int, hi: int, lo: int, pm: int, next: int)
    requires p * r == digits * TWO64 + left
    requires m * left == hi * TWO64 + lo
    requires pm == p * m && next == digits * m + hi
    ensures pm * r == next * TWO64 + lo
  {
    calc {
      (p * m) * r;
      m * (p * r);
      m * (digits * TWO64 + left);
      (m * digits) * TWO64 + m * left;
      (digits * m + hi) * TWO64 + lo;
    }
  }

  /**
    The extraction loop `for (j = 0; j < k; j++)` of the source, writing the
    indices into the caller's fixed buffer and returning the leftover word.
   */
  method FillIndexes(indexes: array<u64>, n: u64, k: u64, r0: u64) returns (r: u64)
    requires k <= n && k <= indexes.Length
    modifies indexes
    ensures indexes[..k] == Extract(n, k, r0).indexes
    ensures r == Extract(n, k, r0).leftover
    ensures forall j :: 0 <= j < k ==> indexes[j] < n - j
    ensures indexes[k..] == old(indexes[k..])
  {
    r := r0;
    var j: u64 := 0;
    while j < k
      invariant j <= k
      invariant indexes[k..] == old(indexes[k..])
      invariant indexes[..j] == Extract(n, j, r0).indexes
      invariant r == Extract(n, j, r0).leftover
    {
      indexes[j], r := MulHi(n - j, r), MulLo(n - j, r);
      assert indexes[..j + 1] == indexes[..j] + [indexes[j]];
      j := j + 1;
    }
    assert forall j :: 0 <= j < k ==> indexes[j] == indexes[..k][j];
  }
}
