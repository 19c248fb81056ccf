/**
  One batch of the shuffle (`partial_shuffle::shuffle`): draw k indices from
  one word, reject a biased draw, and apply k Fisher–Yates exchanges.
 */
module BatchDraws {
  import opened Uint64
  import opened Maybe
  import opened Bounds
  import opened Extraction
  import opened Transpositions
  import opened Generator

  /**
    What one batch did at remaining count n with batch size k: the accepted
    word, the indices drawn from it, its leftover, the bound it hands back and
    how many words the rejection loop drew after the first.
   */
  datatype Batch = Batch(n: u64, k: nat, word: u64, indexes: seq<u64>, leftover: u64, bound: u64, redraws: nat)

  /** The word left over after k draws from w: what the rejection loop compares with t. */
  function Leftover(n: u64, k: nat, w: u64): u64
    requires k <= n
  {
    Extract(n, k, w).leftover
  }

  /**
    The rejection loop `while (r < t)`: starting from word `word` and its
    extraction `e`, keep drawing the next script word at cursor c until the
    leftover reaches t. Gives the accepted word, its extraction and the cursor
    after it, or None when the script runs out first.
   */
  function Redraw(n: u64, k: nat, t: u64, word: u64, e: Extracted, words: seq<u64>, c: nat): (r: Option<(u64, Extracted, nat)>)
    requires k <= n && e == Extract(n, k, word)
    requires 0 < c <= |words| && word == words[c - 1]
    ensures r.Some? ==> r.value.1 == Extract(n, k, r.value.0) && t <= r.value.1.leftover
    ensures r.Some? ==> c <= r.value.2 <= |words| && r.value.0 == words[r.value.2 - 1]
    ensures r.Some? ==> forall m :: c - 1 <= m < r.value.2 - 1 ==> Leftover(n, k, words[m]) < t
    decreases |words| - c
  {
    if e.leftover >= t then Some((word, e, c))
    else if c >= |words| then None
    else Redraw(n, k, t, words[c], Extract(n, k, words[c]), words, c + 1)
  }

  /**
    The draw of one batch with the caller's bound, reading the script from
    cursor c: the first word's extraction is kept when its leftover is at least
    the bound; otherwise the bound becomes the exact falling product and the
    rejection loop runs against 2^64 mod that product. None when the script
    runs out.
   */
  function BatchDraw(n: u64, k: nat, bound: u64, words: seq<u64>, c: nat): (r: Option<Batch>)
    requires 1 <= k <= n && FallingProduct(n, k) < TWO64
    ensures r.Some? ==> r.value.n == n && r.value.k == k
    ensures r.Some? ==> Extracted(r.value.indexes, r.value.leftover) == Extract(n, k, r.value.word)
    ensures r.Some? ==> r.value.leftover >= bound || r.value.leftover >= TWO64 % FallingProduct(n, k)
  {
    if c >= |words| then None
    else
      var e := Extract(n, k, words[c]);
      if e.leftover >= bound then Some(Batch(n, k, words[c], e.indexes, e.leftover, bound, 0))
      else
        var exact := FallingProduct(n, k);
        match Redraw(n, k, Threshold(exact), words[c], e, words, c + 1)
        case None => None
        case Some((w, e', next)) => Some(Batch(n, k, w, e'.indexes, e'.leftover, exact, next - (c + 1)))
  }

  /** A batch is an exact draw: its indices come from its word as one multiply-shift draw, in range. */
  ghost predicate WellDrawn(b: Batch)
  {
    && 1 <= b.k <= b.n
    && |b.indexes| == b.k
    && (forall j :: 0 <= j < b.k ==> b.indexes[j] < b.n - j)
    && FallingProduct(b.n, b.k) * b.word == MixedRadix(b.n, b.indexes) * TWO64 + b.leftover
    && 0 <= MixedRadix(b.n, b.indexes) < FallingProduct(b.n, b.k)
  }

  /**
    What a batch promises. Its indices are a multiply-shift draw in range.
    The bound handed back is the caller's when the first leftover already
    reached it, and the exact falling product otherwise. On exit either that
    fast-path test held or the leftover reached 2^64 mod the exact product, so
    when the caller's bound is at least the exact product the accepted draw
    always passes the exact rejection test. One word is read, plus one per
    redraw.
   */
  lemma BatchDrawSound(n: u64, k: nat, bound: u64, words: seq<u64>, c: nat)
    requires 1 <= k <= n && FallingProduct(n, k) < TWO64
    requires BatchDraw(n, k, bound, words, c).Some?
    ensures var b := BatchDraw(n, k, bound, words, c).value;
      && b.n == n && b.k == k && WellDrawn(b)
      && c + 1 + b.redraws <= |words| && b.word == words[c + b.redraws]
      && b.bound == (if Extract(n, k, words[c]).leftover >= bound then bound else FallingProduct(n, k))
      && (b.leftover >= bound || b.leftover >= TWO64 % FallingProduct(n, k))
      && (bound >= FallingProduct(n, k) ==> b.leftover >= TWO64 % FallingProduct(n, k))
      && (Extract(n, k, words[c]).leftover >= bound ==> b.redraws == 0)
      && (Extract(n, k, words[c]).leftover < bound ==>
            forall m :: c <= m < c + b.redraws ==> Leftover(n, k, words[m]) < TWO64 % FallingProduct(n, k))
  {
    var b := BatchDraw(n, k, bound, words, c).value;
    var e := Extract(n, k, words[c]);
    if e.leftover >= bound {
      assert b == Batch(n, k, words[c], e.indexes, e.leftover, bound, 0);
    } else {
      var t := Threshold(FallingProduct(n, k));
      var res := Redraw(n, k, t, words[c], e, words, c + 1).value;
      assert b == Batch(n, k, res.0, res.1.indexes, res.1.leftover, FallingProduct(n, k), res.2 - (c + 1));
      assert c + 1 <= res.2 <= |words| && res.0 == words[res.2 - 1];
      assert forall m :: c <= m < res.2 - 1 ==> Leftover(n, k, words[m]) < t;
    }
    assert WellDrawn(b) by {
      ExtractIsOneDraw(n, k, b.word);
    }
  }

  /** The two scripts hold the same words at every position in [lo, hi). */
  ghost predicate Agree(w1: seq<u64>, w2: seq<u64>, lo: int, hi: int)
  {
    0 <= lo && hi <= |w1| && hi <= |w2| && forall j :: lo <= j < hi ==> w1[j] == w2[j]
  }

  /** Agreement on a window gives agreement on every window inside it. */
  lemma AgreeWithin(w1: seq<u64>, w2: seq<u64>, lo: int, lo': int, hi: int)
    requires Agree(w1, w2, lo, hi) && lo <= lo'
    ensures Agree(w1, w2, lo', hi)
  {
  }

  /** The rejection loop reads only the words up to the one it accepts: a script that agrees on them gives the same outcome. */
  lemma {:induction false} RedrawAgree(n: u64, k: nat, t: u64, word: u64, e: Extracted, w1: seq<u64>, w2: seq<u64>, c: nat)
    requires k <= n && e == Extract(n, k, word)
    requires 0 < c <= |w1| && word == w1[c - 1]
    requires Redraw(n, k, t, word, e, w1, c).Some?
    requires Agree(w1, w2, c - 1, Redraw(n, k, t, word, e, w1, c).value.2)
    ensures 0 < c <= |w2| && word == w2[c - 1]
    ensures Redraw(n, k, t, word, e, w2, c) == Redraw(n, k, t, word, e, w1, c)
    decreases |w1| - c
  {
    if e.leftover < t {
      RedrawAgree(n, k, t, w1[c], Extract(n, k, w1[c]), w1, w2, c + 1);
    }
  }

  /** One batch reads only the words it consumes: a script that agrees on them draws the same batch. */
  lemma BatchDrawAgree(n: u64, k: nat, bound: u64, w1: seq<u64>, w2: seq<u64>, c: nat)
    requires 1 <= k <= n && FallingProduct(n, k) < TWO64
    requires BatchDraw(n, k, bound, w1, c).Some?
    requires Agree(w1, w2, c, c + 1 + BatchDraw(n, k, bound, w1, c).value.redraws)
    ensures BatchDraw(n, k, bound, w2, c) == BatchDraw(n, k, bound, w1, c)
  {
    BatchDrawSound(n, k, bound, w1, c);
    var e := Extract(n, k, w1[c]);
    if e.leftover < bound {
      RedrawAgree(n, k, Threshold(FallingProduct(n, k)), w1[c], e, w1, w2, c + 1);
    }
  }

  /** The exchanges of one batch: position n−1−j with `indexes[j]`, for j = 0, 1, …. */
  function BatchOps(n: int, indexes: seq<u64>): (ops: seq<Transposition>)
    ensures |ops| == |indexes|
    ensures forall j :: 0 <= j < |ops| ==> ops[j] == Transposition(n - 1 - j, indexes[j])
  {
    seq(|indexes|, j requires 0 <= j < |indexes| => Transposition(n - 1 - j, indexes[j]))
  }

  /**
    A batch drawn at count n with in-range indices is a run of Fisher–Yates
    exchanges: exchange j moves position n−1−j to a position at or below it.
    It exchanges positions below n only, so the positions from n on keep
    their elements.
   */
  lemma BatchFrame<T>(s: seq<T>, n: int, indexes: seq<u64>)
    requires |indexes| <= n <= |s|
    requires forall j :: 0 <= j < |indexes| ==> indexes[j] < n - j
    ensures forall j :: 0 <= j < |indexes| ==>
      var op := BatchOps(n, indexes)[j]; op.top == n - 1 - j && 0 <= op.pick <= op.top
    ensures InRange(BatchOps(n, indexes), n)
    ensures forall p :: n <= p < |s| ==> ApplySwaps(s, BatchOps(n, indexes))[p] == s[p]
  {
    forall p | n <= p < |s|
      ensures ApplySwaps(s, BatchOps(n, indexes))[p] == s[p]
    {
      ApplySwapsFrame(s, BatchOps(n, indexes), n, p);
    }
  }

  /**
    The loop `bound = n; for (j = 1; j < k; j++) bound *= n - j;`: the exact
    falling product, which never wraps around while it fits in 64 bits.
   */
  method ExactBound(n: u64, k: u64) returns (bound: u64)
    requires 1 <= k <= n && FallingProduct(n, k) < TWO64
    ensures bound == FallingProduct(n, k)
  {
    bound := n;
    var j: u64 := 1;
    while j < k
      invariant 1 <= j <= k
      invariant bound == FallingProduct(n, j)
    {
      FallingGrowsWithK(n, j + 1, k);
      bound := bound * (n - j);
      j := j + 1;
    }
  }

  /**
    The loop `while (r < t) { r = gen(); … }`: redraws a word and repeats the
    extraction into `indexes` until the leftover reaches t, as `Redraw` says.
   */
  method Rejection(indexes: array<u64>, n: u64, k: u64, t: u64, r0: u64, g: ScriptedGenerator, ghost word: u64)
    returns (r: u64)
    requires k <= n && k <= indexes.Length
    requires 0 < g.calls <= |g.script| && word == g.script[g.calls - 1]
    requires Extracted(indexes[..k], r0) == Extract(n, k, word)
    requires Redraw(n, k, t, word, Extract(n, k, word), g.script, g.calls).Some?
    modifies indexes, g
    ensures var res := Redraw(n, k, t, word, Extract(n, k, word), g.script, old(g.calls)).value;
      && indexes[..k] == res.1.indexes && r == res.1.leftover && g.calls == res.2
    ensures forall j :: 0 <= j < k ==> indexes[j] < n - j
    ensures indexes[k..] == old(indexes[k..])
  {
    r := r0;
    ghost var w := word;
    ghost var c0 := g.calls;
    while r < t
      invariant 0 < g.calls <= |g.script| && w == g.script[g.calls - 1]
      invariant Extracted(indexes[..k], r) == Extract(n, k, w)
      invariant indexes[k..] == old(indexes[k..])
      invariant Redraw(n, k, t, w, Extract(n, k, w), g.script, g.calls)
             == Redraw(n, k, t, word, Extract(n, k, word), g.script, c0)
      decreases |g.script| - g.calls
    {
      r := g.Next();
      w := r;
      r := FillIndexes(indexes, n, k, r);
    }
    assert forall j :: 0 <= j < k ==> indexes[j] == indexes[..k][j];
  }

  /**
    The swap loop `std::iter_swap(storage + n - j - 1, storage + indexes[j])`
    for j = 0 … k−1, which applies the batch's exchanges in order.
   */
  method ApplyBatch<T>(a: array<T>, n: u64, indexes: array<u64>, k: u64)
    requires k <= n <= a.Length && k <= indexes.Length && a as object != indexes
    requires forall j :: 0 <= j < k ==> indexes[j] < n - j
    modifies a
    ensures InRange(BatchOps(n, indexes[..k]), a.Length)
    ensures a[..] == ApplySwaps(old(a[..]), BatchOps(n, indexes[..k]))
  {
    var j: u64 := 0;
    while j < k
      invariant j <= k
      invariant InRange(BatchOps(n, indexes[..j]), a.Length)
      invariant a[..] == ApplySwaps(old(a[..]), BatchOps(n, indexes[..j]))
    {
      var top, pick := n - j - 1, indexes[j];
      ghost var before := a[..];
      var tmp := a[top];
      a[top] := a[pick];
      a[pick] := tmp;
      assert a[..] == Swap(before, top, pick);
      ghost var ops := BatchOps(n, indexes[..j + 1]);
      assert ops[..j] == BatchOps(n, indexes[..j]) && ops[j] == Transposition(top, pick);
      j := j + 1;
    }
  }

  /**
    The drawing half of `partial_shuffle::shuffle`: one word, its extraction
    into a fresh `indexes` buffer and, when the leftover falls below the
    bound, the exact product and the rejection loop, as `BatchDraw` says.
   */
  method DrawBatch(n: u64, k: u64, bound: u64, g: ScriptedGenerator) returns (indexes: array<u64>, newBound: u64)
    requires 1 <= k <= 7 && k <= n && FallingProduct(n, k) < TWO64
    requires BatchDraw(n, k, bound, g.script, g.calls).Some?
    modifies g
    ensures fresh(indexes) && indexes.Length == 7
    ensures forall j :: 0 <= j < k ==> indexes[j] < n - j
    ensures var b := BatchDraw(n, k, bound, g.script, old(g.calls)).value;
      && indexes[..k] == b.indexes
      && newBound == b.bound
      && g.calls == old(g.calls) + 1 + b.redraws
  {
    ghost var c0 := g.calls;
    ghost var b := BatchDraw(n, k, bound, g.script, c0).value;
    indexes := new u64[7];
    var r := g.Next();
    ghost var word := r;
    ghost var e := Extract(n, k, word);
    r := FillIndexes(indexes, n, k, r);
    newBound := bound;
    if r < bound {
      newBound := ExactBound(n, k);
      var t := Neg(newBound) % newBound;
      assert t == Threshold(newBound);
      ghost var res := Redraw(n, k, t, word, e, g.script, c0 + 1).value;
      assert b == Batch(n, k, res.0, res.1.indexes, res.1.leftover, newBound, res.2 - (c0 + 1));
      r := Rejection(indexes, n, k, t, r, g, word);
    } else {
      assert b == Batch(n, k, word, e.indexes, e.leftover, bound, 0);
    }
  }

  /**
    `partial_shuffle::shuffle(storage, n, k, bound, gen)`: draws the batch that
    `BatchDraw` describes from the generator, applies its exchanges to the
    array in place and returns the bound for the next batch.
   */
  method PartialShuffle<T>(a: array<T>, n: u64, k: u64, bound: u64, g: ScriptedGenerator) returns (newBound: u64)
    requires 1 <= k <= 7 && k <= n <= a.Length && FallingProduct(n, k) < TWO64
    requires BatchDraw(n, k, bound, g.script, g.calls).Some?
    modifies a, g
    ensures var b := BatchDraw(n, k, bound, g.script, old(g.calls)).value;
      && InRange(BatchOps(n, b.indexes), a.Length)
      && a[..] == ApplySwaps(old(a[..]), BatchOps(n, b.indexes))
      && newBound == b.bound
      && g.calls == old(g.calls) + 1 + b.redraws
    ensures forall p :: n <= p < a.Length ==> a[p] == old(a[p])
    ensures multiset(a[..]) == multiset(old(a[..]))
  {
    ghost var s := a[..];
    var indexes;
    indexes, newBound := DrawBatch(n, k, bound, g);
    ApplyBatch(a, n, indexes, k);
    BatchFrame(s, n, indexes[..k]);
  }
}
