/**
  The driver `batched_random::shuffle`: a forward-only loop over the shrinking
  count i whose batch size depends on the regime i is in, ending in one batch
  of i − 1 for the last two to six elements.
 */
module BatchedShuffle {
  import opened Uint64
  import opened Maybe
  import opened Bounds
  import opened Extraction
  import opened Transpositions
  import opened Generator
  import opened BatchDraws

  const P9: u64 := 0x200
  const P11: u64 := 0x800
  const P14: u64 := 0x4000
  const P19: u64 := 0x8_0000
  const P30: u64 := 0x4000_0000
  const P54: u64 := 0x40_0000_0000_0000
  const P55: u64 := 0x80_0000_0000_0000
  const P56: u64 := 0x100_0000_0000_0000
  const P57: u64 := 0x200_0000_0000_0000
  const P60: u64 := 0x1000_0000_0000_0000

  /** The batch size the driver uses while i elements remain (0 once i ≤ 1). */
  function BatchSize(i: nat): (k: nat)
    ensures 2 <= i ==> 1 <= k < i && k <= 6
    ensures i <= 1 ==> k == 0
  {
    if i > P30 then 1
    else if i > P19 then 2
    else if i > P14 then 3
    else if i > P11 then 4
    else if i > P9 then 5
    else if i > 6 then 6
    else if i > 1 then i - 1
    else 0
  }

  /** The largest count at which batches of k (2 ≤ k ≤ 6) are drawn. */
  function RegimeTop(k: nat): nat
  {
    if k == 2 then P30 else if k == 3 then P19 else if k == 4 then P14 else if k == 5 then P11 else P9
  }

  /** The count at which the regime of batches of k (2 ≤ k ≤ 6) hands over to the next. */
  function RegimeLimit(k: nat): nat
  {
    if k == 2 then P19 else if k == 3 then P14 else if k == 4 then P11 else if k == 5 then P9 else 6
  }

  /** The regime of batches of k covers exactly the counts the batch-size table assigns to k. */
  lemma RegimeTable(k: nat)
    requires 2 <= k <= 6
    ensures forall m: nat :: RegimeLimit(k) < m <= RegimeTop(k) ==> BatchSize(m) == k
  {
  }

  /** The bound each regime of batches of k (2 ≤ k ≤ 6) starts from. */
  function RegimeStartBound(k: nat): u64
  {
    if k == 2 then P60 else if k == 3 then P57 else if k == 4 then P56 else if k == 5 then P55 else P54
  }

  /**
    Each regime's starting constant is at least the falling product of every
    count in the regime, so it is a safe bound to skip the exact check with.
   */
  lemma RegimeStartDominates(k: nat, i: nat)
    requires 2 <= k <= 6 && i <= RegimeTop(k)
    ensures FallingProduct(i, k) <= RegimeStartBound(k)
  {
    FallingMonotone(i, RegimeTop(k), k);
    assert FallingProduct(RegimeTop(k), k) <= RegimeStartBound(k) by {
      if k == 2 {
        assert FallingProduct(P30, 2) == P30 * (P30 - 1);
      } else if k == 3 {
        assert FallingProduct(P19, 3) == P19 * (P19 - 1) * (P19 - 2);
      } else if k == 4 {
        assert FallingProduct(P14, 4) == P14 * (P14 - 1) * (P14 - 2) * (P14 - 3);
      } else if k == 5 {
        assert FallingProduct(P11, 5) == P11 * (P11 - 1) * (P11 - 2) * (P11 - 3) * (P11 - 4);
      } else {
        assert FallingProduct(P9, 6) == P9 * (P9 - 1) * (P9 - 2) * (P9 - 3) * (P9 - 4) * (P9 - 5);
      }
    }
  }

  /** The final batch's constant 720 = 6! is at least i·(i−1)·…·2 for every i ≤ 6. */
  lemma FinalBoundDominates(i: nat)
    requires 2 <= i <= 6
    ensures FallingProduct(i, i - 1) <= 720
  {
    FallingMonotone(i, 6, i - 1);
    FallingGrowsWithK(6, i - 1, 5);
    assert FallingProduct(6, 5) == 720;
  }

  /** The driver's state between batches: count i, current bound, calls made, batches done. */
  datatype Run = Run(i: u64, bound: u64, calls: nat, log: seq<Batch>)

  /** All exchanges of the batches in `log`, in the order they were applied. */
  function Ops(log: seq<Batch>): seq<Transposition>
  {
    if log == [] then []
    else Ops(log[..|log| - 1]) + BatchOps(log[|log| - 1].n, log[|log| - 1].indexes)
  }

  /** The rejection redraws over all batches of `log`. */
  function Redraws(log: seq<Batch>): nat
  {
    if log == [] then 0 else Redraws(log[..|log| - 1]) + log[|log| - 1].redraws
  }

  /** One call of the helper at count i with batch size k and the given bound; i drops by k. */
  function Step(st: Run, k: nat, bound: u64, words: seq<u64>, c: nat): (r: Option<Run>)
    requires 1 <= k <= st.i && FallingProduct(st.i, k) < TWO64
    ensures r.Some? ==> r.value.i == st.i - k
  {
    match BatchDraw(st.i, k, bound, words, c + st.calls)
    case None => None
    case Some(b) => Some(Run(st.i - k, b.bound, st.calls + 1 + b.redraws, st.log + [b]))
  }

  /** The loop `for (; i > 1 << 30; i--)`: single draws with the bound i itself. */
  function Singles(st: Run, words: seq<u64>, c: nat): (r: Option<Run>)
    ensures r.Some? ==> r.value.i <= st.i && r.value.i <= P30
    decreases st.i
  {
    if st.i <= P30 then Some(st)
    else
      assert FallingProduct(st.i, 1) == st.i;
      var next :- Step(st, 1, st.i, words, c);
      Singles(next, words, c)
  }

  /** A loop `for (; i > limit; i -= k) bound = partial_shuffle::shuffle(first, i, k, bound, g);`. */
  function Regime(k: nat, limit: nat, st: Run, words: seq<u64>, c: nat): (r: Option<Run>)
    requires 1 <= k <= limit && FallingProduct(st.i, k) < TWO64
    ensures r.Some? ==> r.value.i <= st.i && r.value.i <= limit
    decreases st.i
  {
    if st.i <= limit then Some(st)
    else
      var next :- Step(st, k, st.bound, words, c);
      FallingMonotone(next.i, st.i, k);
      Regime(k, limit, next, words, c)
  }

  /** The last batch `if (i > 1) partial_shuffle::shuffle(first, i, i - 1, 720, g);`. */
  function Final(st: Run, words: seq<u64>, c: nat): (r: Option<Run>)
    requires st.i <= 6
    ensures r.Some? ==> r.value.i == (if st.i > 1 then 1 else st.i)
  {
    if st.i > 1 then
      FinalBoundDominates(st.i);
      Step(st, st.i - 1, 720, words, c)
    else Some(st)
  }

  /**
    The regimes of batches of k, k + 1, …, 6 in turn, each starting from its
    constant bound, then the last batch.
   */
  function Regimes(k: nat, st: Run, words: seq<u64>, c: nat): (r: Option<Run>)
    requires 2 <= k <= 7 && st.i <= if k == 7 then 6 else RegimeTop(k)
    ensures r.Some? ==> r.value.i <= 1
    decreases 7 - k
  {
    if k == 7 then Final(st, words, c)
    else
      RegimeStartDominates(k, st.i);
      var next :- Regime(k, RegimeLimit(k), st.(bound := RegimeStartBound(k)), words, c);
      Regimes(k + 1, next, words, c)
  }

  /**
    The whole shuffle of n elements reading the script from cursor c: the
    batches it draws, the calls it makes, or None when the script runs out.
   */
  function ShuffleRun(n: u64, words: seq<u64>, c: nat): (r: Option<Run>)
    ensures r.Some? ==> r.value.i <= 1
  {
    var s1 :- Singles(Run(n, 0, 0, []), words, c);
    Regimes(2, s1, words, c)
  }

  /** The batch's leftover passed the exact rejection test against 2^64 mod n·…·(n−k+1). */
  predicate Unbiased(b: Batch)
  {
    1 <= b.k <= b.n && b.leftover >= TWO64 % FallingProduct(b.n, b.k)
  }

  /**
    What holds of the driver after any number of batches from n elements: the
    exchanges so far begin a Fisher–Yates swap sequence and account for the
    n − i placed positions, every batch is an unbiased draw of the size the
    regime table gives, and the generator was called once per batch plus once
    per redraw.
   */
  ghost predicate Consistent(n: nat, st: Run)
  {
    && st.i <= n
    && |Ops(st.log)| == n - st.i
    && FisherYatesPrefix(n, Ops(st.log))
    && st.calls == |st.log| + Redraws(st.log)
    && forall m {:trigger GoodBatch(st.log[m])} :: 0 <= m < |st.log| ==> GoodBatch(st.log[m])
  }

  /** A batch of the size the regime table gives at its count, drawn exactly and without bias. */
  ghost predicate GoodBatch(b: Batch)
  {
    WellDrawn(b) && Unbiased(b) && b.k == BatchSize(b.n)
  }

  /** Appending a batch appends its exchanges and its redraws. */
  lemma LogSnoc(log: seq<Batch>, b: Batch)
    ensures Ops(log + [b]) == Ops(log) + BatchOps(b.n, b.indexes)
    ensures Redraws(log + [b]) == Redraws(log) + b.redraws
  {
    assert (log + [b])[..|log|] == log;
  }

  /** The exchanges of a batch drawn at count i continue a Fisher–Yates prefix that placed n − i positions. */
  lemma FisherYatesExtend(n: nat, ops: seq<Transposition>, i: nat, indexes: seq<u64>)
    requires FisherYatesPrefix(n, ops) && |ops| == n - i && i <= n
    requires forall j :: 0 <= j < |indexes| ==> indexes[j] < i - j
    ensures FisherYatesPrefix(n, ops + BatchOps(i, indexes))
  {
    var extra := BatchOps(i, indexes);
    var all: seq<Transposition> := ops + extra;
    forall m | 0 <= m < |all|
      ensures all[m].top == n - 1 - m && 0 <= all[m].pick <= all[m].top
    {
      if m >= |ops| {
        assert all[m] == extra[m - |ops|];
      }
    }
  }

  /** The batch one step draws: with a bound at least the exact falling product it is good, and so is the bound it hands back. */
  lemma StepDraws(st: Run, k: nat, bound: u64, words: seq<u64>, c: nat) returns (b: Batch)
    requires 1 <= k <= st.i && FallingProduct(st.i, k) < TWO64
    requires bound >= FallingProduct(st.i, k) && k == BatchSize(st.i)
    requires Step(st, k, bound, words, c).Some?
    ensures Step(st, k, bound, words, c) == Some(Run(st.i - k, b.bound, st.calls + 1 + b.redraws, st.log + [b]))
    ensures b.n == st.i && GoodBatch(b) && b.bound >= FallingProduct(st.i, k)
    ensures forall j :: 0 <= j < |b.indexes| ==> b.indexes[j] < st.i - j
  {
    b := BatchDraw(st.i, k, bound, words, c + st.calls).value;
    assert Step(st, k, bound, words, c) == Some(Run(st.i - k, b.bound, st.calls + 1 + b.redraws, st.log + [b]));
    BatchDrawSound(st.i, k, bound, words, c + st.calls);
  }

  /** One batch with a bound at least the exact falling product keeps the driver consistent. */
  lemma StepConsistent(n: nat, st: Run, k: nat, bound: u64, words: seq<u64>, c: nat)
    requires 1 <= k <= st.i && FallingProduct(st.i, k) < TWO64
    requires Consistent(n, st) && bound >= FallingProduct(st.i, k) && k == BatchSize(st.i)
    requires Step(st, k, bound, words, c).Some?
    ensures var next := Step(st, k, bound, words, c).value;
      Consistent(n, next) && next.bound >= FallingProduct(st.i, k)
  {
    var b := StepDraws(st, k, bound, words, c);
    var next := Run(st.i - k, b.bound, st.calls + 1 + b.redraws, st.log + [b]);
    LogSnoc(st.log, b);
    FisherYatesExtend(n, Ops(st.log), st.i, b.indexes);
    GoodLogSnoc(st.log, b);
  }

  /** Appending a good batch to a log of good batches gives a log of good batches. */
  lemma GoodLogSnoc(log: seq<Batch>, b: Batch)
    requires forall m :: 0 <= m < |log| ==> GoodBatch(log[m])
    requires GoodBatch(b)
    ensures forall m :: 0 <= m < |log + [b]| ==> GoodBatch((log + [b])[m])
  {
    forall m | 0 <= m < |log + [b]|
      ensures GoodBatch((log + [b])[m])
    {
      if m < |log| {
        assert (log + [b])[m] == log[m];
      }
    }
  }

  /** The loop of single draws keeps the driver consistent and leaves at least one element when it began with one. */
  lemma {:induction false} SinglesConsistent(n: nat, st: Run, words: seq<u64>, c: nat)
    requires Consistent(n, st) && Singles(st, words, c).Some?
    ensures var r := Singles(st, words, c).value;
      Consistent(n, r) && (1 <= st.i ==> 1 <= r.i)
    decreases st.i
  {
    if st.i > P30 {
      assert FallingProduct(st.i, 1) == st.i;
      StepConsistent(n, st, 1, st.i, words, c);
      SinglesConsistent(n, Step(st, 1, st.i, words, c).value, words, c);
    }
  }

  /**
    A loop of batches of k, entered with a bound at least the exact falling
    product and with counts that the regime table assigns to k, keeps the
    driver consistent; it stops at a count in (limit − k, limit] or does
    nothing.
   */
  lemma {:induction false} RegimeConsistent(n: nat, k: nat, limit: nat, st: Run, words: seq<u64>, c: nat)
    requires 1 <= k <= limit && FallingProduct(st.i, k) < TWO64
    requires Consistent(n, st) && st.bound >= FallingProduct(st.i, k)
    requires forall m: nat :: limit < m <= st.i ==> BatchSize(m) == k
    requires Regime(k, limit, st, words, c).Some?
    ensures var r := Regime(k, limit, st, words, c).value;
      && Consistent(n, r)
      && (st.i <= limit ==> r == st)
      && (limit < st.i ==> limit - k < r.i)
    decreases st.i
  {
    if st.i > limit {
      StepConsistent(n, st, k, st.bound, words, c);
      var next := Step(st, k, st.bound, words, c).value;
      FallingMonotone(next.i, st.i, k);
      RegimeConsistent(n, k, limit, next, words, c);
    }
  }

  /** The last batch keeps the driver consistent and leaves exactly one element. */
  lemma FinalConsistent(n: nat, st: Run, words: seq<u64>, c: nat)
    requires st.i <= 6 && Consistent(n, st) && (1 <= n ==> 1 <= st.i)
    requires Final(st, words, c).Some?
    ensures var r := Final(st, words, c).value;
      Consistent(n, r) && r.i <= 1 && (1 <= n ==> r.i == 1)
  {
    if st.i > 1 {
      FinalAdvances(st, words, c);
      assert BatchSize(st.i) == st.i - 1;
      StepConsistent(n, st, st.i - 1, 720, words, c);
    }
  }

  /** One regime of the chain, entered from its constant bound, keeps the driver consistent and hands over to the next. */
  lemma RegimeStage(n: nat, k: nat, st: Run, words: seq<u64>, c: nat) returns (next: Run)
    requires 2 <= k <= 6 && st.i <= RegimeTop(k)
    requires Consistent(n, st) && (1 <= n ==> 1 <= st.i)
    requires Regimes(k, st, words, c).Some?
    ensures Consistent(n, next) && (1 <= n ==> 1 <= next.i)
    ensures next.i <= (if k + 1 == 7 then 6 else RegimeTop(k + 1))
    ensures Regimes(k + 1, next, words, c) == Regimes(k, st, words, c)
  {
    RegimesStep(k, st, words, c);
    RegimeTable(k);
    var entry := st.(bound := RegimeStartBound(k));
    RegimeConsistent(n, k, RegimeLimit(k), entry, words, c);
    next := Regime(k, RegimeLimit(k), entry, words, c).value;
  }

  /**
    The regimes of batches of 2, 3, …, 6 and the last batch, entered with at
    most 2^30 elements after the single draws, keep the driver consistent and
    end with at most one element left, and exactly one when the shuffle began
    with at least one.
   */
  lemma RegimesConsistent(n: nat, st: Run, words: seq<u64>, c: nat)
    requires st.i <= RegimeTop(2)
    requires Consistent(n, st) && (1 <= n ==> 1 <= st.i)
    requires Regimes(2, st, words, c).Some?
    ensures var r := Regimes(2, st, words, c).value;
      Consistent(n, r) && r.i <= 1 && (1 <= n ==> r.i == 1)
  {
    var s3 := RegimeStage(n, 2, st, words, c);
    var s4 := RegimeStage(n, 3, s3, words, c);
    var s5 := RegimeStage(n, 4, s4, words, c);
    var s6 := RegimeStage(n, 5, s5, words, c);
    var s7 := RegimeStage(n, 6, s6, words, c);
    FinalConsistent(n, s7, words, c);
  }

  /**
    The driver's whole run from n elements is the classic Fisher–Yates swap
    sequence: positions n−1 down to 1 each exchanged once with a position at or
    below them. Every batch has the size the regime table gives and is an
    unbiased multiply-shift draw, and the generator was called once per batch
    plus once per rejection redraw.
   */
  lemma ShuffleIsFisherYates(n: u64, words: seq<u64>, c: nat)
    requires ShuffleRun(n, words, c).Some?
    ensures var run := ShuffleRun(n, words, c).value;
      && FisherYatesTrace(n, Ops(run.log))
      && run.calls == |run.log| + Redraws(run.log)
      && forall m :: 0 <= m < |run.log| ==>
           WellDrawn(run.log[m]) && Unbiased(run.log[m]) && run.log[m].k == BatchSize(run.log[m].n)
  {
    var s0 := Run(n, 0, 0, []);
    SinglesConsistent(n, s0, words, c);
    var s1 := Singles(s0, words, c).value;
    RegimesConsistent(n, s1, words, c);
    var run := Regimes(2, s1, words, c).value;
    assert ShuffleRun(n, words, c) == Some(run);
    RunComplete(n, run);
  }

  /** A consistent run from n elements that stopped with one element left, or none, is a whole Fisher–Yates trace. */
  lemma RunComplete(n: nat, run: Run)
    requires Consistent(n, run) && run.i <= 1 && (1 <= n ==> run.i == 1)
    ensures FisherYatesTrace(n, Ops(run.log))
    ensures run.calls == |run.log| + Redraws(run.log)
    ensures forall m :: 0 <= m < |run.log| ==>
      WellDrawn(run.log[m]) && Unbiased(run.log[m]) && run.log[m].k == BatchSize(run.log[m].n)
  {
    forall m | 0 <= m < |run.log|
      ensures WellDrawn(run.log[m]) && Unbiased(run.log[m]) && run.log[m].k == BatchSize(run.log[m].n)
    {
      assert GoodBatch(run.log[m]);
    }
  }

  /** With at most one element no batch is drawn and the generator is never called. */
  lemma SmallInputUntouched(n: u64, words: seq<u64>, c: nat)
    requires n <= 1
    ensures ShuffleRun(n, words, c).Some?
    ensures ShuffleRun(n, words, c).value.log == [] && ShuffleRun(n, words, c).value.calls == 0
  {
    var st := Run(n, 0, 0, []);
    assert Singles(st, words, c) == Some(st);
    assert Regimes(7, st.(bound := P54), words, c) == Some(st.(bound := P54));
    assert Regimes(6, st.(bound := P55), words, c) == Some(st.(bound := P54));
    assert Regimes(5, st.(bound := P56), words, c) == Some(st.(bound := P54));
    assert Regimes(4, st.(bound := P57), words, c) == Some(st.(bound := P54));
    assert Regimes(3, st.(bound := P60), words, c) == Some(st.(bound := P54));
    assert Regimes(2, st, words, c) == Some(st.(bound := P54));
  }

  /** One unfolding of `Regimes` below the last batch: the regime of k from its constant, then the rest. */
  lemma RegimesUnfold(k: nat, st: Run, words: seq<u64>, c: nat)
    requires 2 <= k <= 6 && st.i <= RegimeTop(k)
    ensures FallingProduct(st.i, k) <= RegimeStartBound(k)
    ensures var r := Regime(k, RegimeLimit(k), st.(bound := RegimeStartBound(k)), words, c);
      && (r.Some? ==> r.value.i <= (if k == 6 then 6 else RegimeTop(k + 1)))
      && Regimes(k, st, words, c) == if r.None? then None else Regimes(k + 1, r.value, words, c)
  {
    RegimeStartDominates(k, st.i);
  }

  /** A step makes at least one call. */
  lemma StepCalls(st: Run, k: nat, bound: u64, words: seq<u64>, c: nat)
    requires 1 <= k <= st.i && FallingProduct(st.i, k) < TWO64
    requires Step(st, k, bound, words, c).Some?
    ensures st.calls < Step(st, k, bound, words, c).value.calls
  {
  }

  /** One step reads only the words it consumes. */
  lemma StepAgree(st: Run, k: nat, bound: u64, w1: seq<u64>, w2: seq<u64>, c: nat)
    requires 1 <= k <= st.i && FallingProduct(st.i, k) < TWO64
    requires Step(st, k, bound, w1, c).Some?
    requires Agree(w1, w2, c + st.calls, c + Step(st, k, bound, w1, c).value.calls)
    ensures Step(st, k, bound, w2, c) == Step(st, k, bound, w1, c)
  {
    BatchDrawAgree(st.i, k, bound, w1, w2, c + st.calls);
  }

  /** The loop of single draws reads only the words it consumes, which lie in [c + st.calls, hi). */
  lemma {:induction false} SinglesAgree(st: Run, w1: seq<u64>, w2: seq<u64>, c: nat, hi: int)
    requires Singles(st, w1, c).Some? && c + Singles(st, w1, c).value.calls <= hi
    requires Agree(w1, w2, c + st.calls, hi)
    ensures Singles(st, w2, c) == Singles(st, w1, c)
    ensures st.calls <= Singles(st, w1, c).value.calls
    decreases st.i
  {
    if st.i > P30 {
      assert FallingProduct(st.i, 1) == st.i;
      var next := Step(st, 1, st.i, w1, c).value;
      StepCalls(st, 1, st.i, w1, c);
      AgreeWithin(w1, w2, c + st.calls, c + next.calls, hi);
      SinglesAgree(next, w1, w2, c, hi);
      StepAgree(st, 1, st.i, w1, w2, c);
    }
  }

  /** A regime loop only ever adds calls. */
  lemma {:induction false} RegimeCalls(k: nat, limit: nat, st: Run, words: seq<u64>, c: nat)
    requires 1 <= k <= limit && FallingProduct(st.i, k) < TWO64
    requires Regime(k, limit, st, words, c).Some?
    ensures st.calls <= Regime(k, limit, st, words, c).value.calls
    decreases st.i
  {
    if st.i > limit {
      RegimeAdvances(k, limit, st, words, c);
      StepCalls(st, k, st.bound, words, c);
      RegimeCalls(k, limit, Step(st, k, st.bound, words, c).value, words, c);
    }
  }

  /** A regime loop reads only the words it consumes, which lie in [c + st.calls, hi). */
  lemma {:induction false} RegimeAgree(k: nat, limit: nat, st: Run, w1: seq<u64>, w2: seq<u64>, c: nat, hi: int)
    requires 1 <= k <= limit && FallingProduct(st.i, k) < TWO64
    requires Regime(k, limit, st, w1, c).Some? && c + Regime(k, limit, st, w1, c).value.calls <= hi
    requires Agree(w1, w2, c + st.calls, hi)
    ensures Regime(k, limit, st, w2, c) == Regime(k, limit, st, w1, c)
    ensures st.calls <= Regime(k, limit, st, w1, c).value.calls
    decreases st.i
  {
    if st.i > limit {
      RegimeAdvances(k, limit, st, w1, c);
      var next := Step(st, k, st.bound, w1, c).value;
      StepCalls(st, k, st.bound, w1, c);
      AgreeWithin(w1, w2, c + st.calls, c + next.calls, hi);
      RegimeAgree(k, limit, next, w1, w2, c, hi);
      StepAgree(st, k, st.bound, w1, w2, c);
    }
  }

  /** The last batch reads only the words it consumes, which lie in [c + st.calls, hi). */
  lemma FinalAgree(st: Run, w1: seq<u64>, w2: seq<u64>, c: nat, hi: int)
    requires st.i <= 6 && Final(st, w1, c).Some? && c + Final(st, w1, c).value.calls <= hi
    requires Agree(w1, w2, c + st.calls, hi)
    ensures Final(st, w2, c) == Final(st, w1, c)
    ensures st.calls <= Final(st, w1, c).value.calls
  {
    if st.i > 1 {
      FinalAdvances(st, w1, c);
      FinalAdvances(st, w2, c);
      StepCalls(st, st.i - 1, 720, w1, c);
      StepAgree(st, st.i - 1, 720, w1, w2, c);
    }
  }

  /** The regimes from batches of k on, and the last batch, read only the words they consume, which lie in [c + st.calls, hi). */
  lemma {:induction false} RegimesAgree(k: nat, st: Run, w1: seq<u64>, w2: seq<u64>, c: nat, hi: int)
    requires 2 <= k <= 7 && st.i <= (if k == 7 then 6 else RegimeTop(k))
    requires Regimes(k, st, w1, c).Some? && c + Regimes(k, st, w1, c).value.calls <= hi
    requires Agree(w1, w2, c + st.calls, hi)
    ensures Regimes(k, st, w2, c) == Regimes(k, st, w1, c)
    ensures st.calls <= Regimes(k, st, w1, c).value.calls
    decreases 7 - k
  {
    if k == 7 {
      FinalAgree(st, w1, w2, c, hi);
    } else {
      RegimesStep(k, st, w1, c);
      var entry := st.(bound := RegimeStartBound(k));
      var next := Regime(k, RegimeLimit(k), entry, w1, c).value;
      RegimeCalls(k, RegimeLimit(k), entry, w1, c);
      AgreeWithin(w1, w2, c + st.calls, c + next.calls, hi);
      RegimesAgree(k + 1, next, w1, w2, c, hi);
      RegimeStageAgree(k, st, next, w1, w2, c, hi);
      RegimesUnfold(k, st, w2, c);
    }
  }

  /** One regime of batches of k reads only the words it consumes. */
  lemma RegimeStageAgree(k: nat, st: Run, next: Run, w1: seq<u64>, w2: seq<u64>, c: nat, hi: int)
    requires 2 <= k <= 6 && FallingProduct(st.i, k) <= RegimeStartBound(k)
    requires Regime(k, RegimeLimit(k), st.(bound := RegimeStartBound(k)), w1, c) == Some(next)
    requires c + next.calls <= hi && Agree(w1, w2, c + st.calls, hi)
    ensures Regime(k, RegimeLimit(k), st.(bound := RegimeStartBound(k)), w2, c) == Some(next)
  {
    RegimeAgree(k, RegimeLimit(k), st.(bound := RegimeStartBound(k)), w1, w2, c, hi);
  }

  /**
    The shuffle's outcome is fixed by the words it consumes: any script that
    holds the same words from the cursor for as many calls as the run makes
    yields the same run, hence the same exchanges and the same array.
   */
  lemma ShuffleDependsOnConsumedWords(n: u64, w1: seq<u64>, w2: seq<u64>, c: nat)
    requires ShuffleRun(n, w1, c).Some?
    requires Agree(w1, w2, c, c + ShuffleRun(n, w1, c).value.calls)
    ensures ShuffleRun(n, w2, c) == ShuffleRun(n, w1, c)
  {
    var st := Run(n, 0, 0, []);
    var hi := c + ShuffleRun(n, w1, c).value.calls;
    var s1 := Singles(st, w1, c).value;
    RegimesAgree(2, s1, w1, w2, c, hi);
    SinglesAgree(st, w1, w2, c, hi);
  }

  /** Appending a batch's exchanges to the run so far, as the array sees them. */
  lemma AppendBatch<T>(s0: seq<T>, log: seq<Batch>, b: Batch)
    requires InRange(Ops(log), |s0|) && InRange(BatchOps(b.n, b.indexes), |s0|)
    ensures InRange(Ops(log + [b]), |s0|)
    ensures ApplySwaps(s0, Ops(log + [b])) == ApplySwaps(ApplySwaps(s0, Ops(log)), BatchOps(b.n, b.indexes))
  {
    LogSnoc(log, b);
    ApplySwapsAppend(s0, Ops(log), BatchOps(b.n, b.indexes));
  }

  /**
    The loop `for (; i > 1 << 30; i--) partial_shuffle::shuffle(first, i, 1, i, g);`
    run on the array, as `Singles` describes it.
   */
  method RunSingles<T>(a: array<T>, g: ScriptedGenerator, i0: u64, ghost st0: Run, ghost s0: seq<T>, ghost c: nat)
    returns (i: u64, ghost st: Run)
    requires st0.i == i0 && i0 <= a.Length == |s0| && g.calls == c + st0.calls
    requires InRange(Ops(st0.log), |s0|) && a[..] == ApplySwaps(s0, Ops(st0.log))
    requires Singles(st0, g.script, c).Some?
    modifies a, g
    ensures st == Singles(st0, g.script, c).value && i == st.i && g.calls == c + st.calls
    ensures InRange(Ops(st.log), |s0|) && a[..] == ApplySwaps(s0, Ops(st.log))
  {
    i, st := i0, st0;
    while i > P30
      invariant st.i == i && i <= a.Length && g.calls == c + st.calls
      invariant InRange(Ops(st.log), |s0|) && a[..] == ApplySwaps(s0, Ops(st.log))
      invariant Singles(st, g.script, c) == Singles(st0, g.script, c)
      decreases i
    {
      assert FallingProduct(i, 1) == i;
      var ignored;
      ignored, st := StepBatch(a, g, i, 1, i, st, s0, c);
      i := i - 1;
    }
  }

  /** One pass of a regime loop: a step is taken, and the state it leads to finishes the regime the same way. */
  lemma RegimeAdvances(k: nat, limit: nat, st: Run, words: seq<u64>, c: nat)
    requires 1 <= k <= limit < st.i && FallingProduct(st.i, k) < TWO64
    requires Regime(k, limit, st, words, c).Some?
    ensures Step(st, k, st.bound, words, c).Some?
    ensures var next := Step(st, k, st.bound, words, c).value;
      && FallingProduct(next.i, k) < TWO64
      && Regime(k, limit, next, words, c) == Regime(k, limit, st, words, c)
  {
    FallingMonotone(st.i - k, st.i, k);
  }

  /** Entering the regime of batches of k from a count at most its top: the regime runs from its constant and the rest follows. */
  lemma RegimesStep(k: nat, st: Run, words: seq<u64>, c: nat)
    requires 2 <= k <= 6 && st.i <= RegimeTop(k) && Regimes(k, st, words, c).Some?
    ensures FallingProduct(st.i, k) <= RegimeStartBound(k)
    ensures Regime(k, RegimeLimit(k), st.(bound := RegimeStartBound(k)), words, c).Some?
    ensures var next := Regime(k, RegimeLimit(k), st.(bound := RegimeStartBound(k)), words, c).value;
      && next.i <= (if k == 6 then 6 else RegimeTop(k + 1))
      && Regimes(k + 1, next, words, c) == Regimes(k, st, words, c)
  {
    RegimeStartDominates(k, st.i);
  }

  /** The last batch is one step with the bound 720, which dominates the exact product. */
  lemma FinalAdvances(st: Run, words: seq<u64>, c: nat)
    requires 1 < st.i <= 6
    ensures FallingProduct(st.i, st.i - 1) <= 720
    ensures Final(st, words, c) == Step(st, st.i - 1, 720, words, c)
  {
    FinalBoundDominates(st.i);
  }

  /**
    A loop `for (; i > limit; i -= k) bound = partial_shuffle::shuffle(first, i, k, bound, g);`
    run on the array, as `Regime` describes it.
   */
  method RunRegime<T>(a: array<T>, g: ScriptedGenerator, i0: u64, k: u64, limit: u64, bound0: u64,
                      ghost st0: Run, ghost s0: seq<T>, ghost c: nat)
    returns (i: u64, ghost st: Run)
    requires 1 <= k <= 7 && k <= limit && FallingProduct(i0, k) < TWO64
    requires st0.i == i0 && st0.bound == bound0 && i0 <= a.Length == |s0| && g.calls == c + st0.calls
    requires InRange(Ops(st0.log), |s0|) && a[..] == ApplySwaps(s0, Ops(st0.log))
    requires Regime(k, limit, st0, g.script, c).Some?
    modifies a, g
    ensures st == Regime(k, limit, st0, g.script, c).value && i == st.i && g.calls == c + st.calls
    ensures InRange(Ops(st.log), |s0|) && a[..] == ApplySwaps(s0, Ops(st.log))
  {
    i, st := i0, st0;
    var bound := bound0;
    while i > limit
      invariant st.i == i && st.bound == bound && i <= a.Length && FallingProduct(i, k) < TWO64
      invariant g.calls == c + st.calls
      invariant InRange(Ops(st.log), |s0|) && a[..] == ApplySwaps(s0, Ops(st.log))
      invariant Regime(k, limit, st, g.script, c) == Regime(k, limit, st0, g.script, c)
      decreases i
    {
      bound, st := RegimeBatch(a, g, i, k, limit, bound, st, s0, c);
      i := i - k;
    }
  }

  /** One pass of a regime loop on the array: one batch at count i with the current bound. */
  method RegimeBatch<T>(a: array<T>, g: ScriptedGenerator, i: u64, k: u64, limit: u64, bound0: u64,
                        ghost st: Run, ghost s0: seq<T>, ghost c: nat)
    returns (bound: u64, ghost next: Run)
    requires st.i == i && st.bound == bound0
    requires 1 <= k <= 7 && k <= limit < i <= a.Length == |s0| && FallingProduct(i, k) < TWO64
    requires g.calls == c + st.calls && Regime(k, limit, st, g.script, c).Some?
    requires InRange(Ops(st.log), |s0|) && a[..] == ApplySwaps(s0, Ops(st.log))
    modifies a, g
    ensures next.i == st.i - k && next.bound == bound && g.calls == c + next.calls
    ensures InRange(Ops(next.log), |s0|) && a[..] == ApplySwaps(s0, Ops(next.log))
    ensures FallingProduct(next.i, k) < TWO64
    ensures Regime(k, limit, next, g.script, c) == Regime(k, limit, st, g.script, c)
  {
    RegimeAdvances(k, limit, st, g.script, c);
    bound, next := StepBatch(a, g, i, k, bound0, st, s0, c);
  }

  /** One call of the helper on the array, as `Step` describes it. */
  method StepBatch<T>(a: array<T>, g: ScriptedGenerator, i: u64, k: u64, bound: u64,
                      ghost st: Run, ghost s0: seq<T>, ghost c: nat)
    returns (newBound: u64, ghost next: Run)
    requires st.i == i && 1 <= k <= 7 && k <= i <= a.Length == |s0| && FallingProduct(i, k) < TWO64
    requires g.calls == c + st.calls && Step(st, k, bound, g.script, c).Some?
    requires InRange(Ops(st.log), |s0|) && a[..] == ApplySwaps(s0, Ops(st.log))
    modifies a, g
    ensures Step(st, k, bound, g.script, c) == Some(next)
    ensures next.bound == newBound && g.calls == c + next.calls
    ensures InRange(Ops(next.log), |s0|) && a[..] == ApplySwaps(s0, Ops(next.log))
  {
    ghost var b := BatchDraw(i, k, bound, g.script, g.calls).value;
    next := Step(st, k, bound, g.script, c).value;
    newBound := PartialShuffle(a, i, k, bound, g);
    AppendBatch(s0, st.log, b);
  }

  /** The closing `if (i > 1) partial_shuffle::shuffle(first, i, i - 1, 720, g);` run on the array, as `Final` describes it. */
  method RunFinal<T>(a: array<T>, g: ScriptedGenerator, i: u64, ghost st0: Run, ghost s0: seq<T>, ghost c: nat)
    returns (ghost st: Run)
    requires st0.i == i <= 6 && i <= a.Length == |s0| && g.calls == c + st0.calls
    requires InRange(Ops(st0.log), |s0|) && a[..] == ApplySwaps(s0, Ops(st0.log))
    requires Final(st0, g.script, c).Some?
    modifies a, g
    ensures Final(st0, g.script, c) == Some(st) && g.calls == c + st.calls
    ensures InRange(Ops(st.log), |s0|) && a[..] == ApplySwaps(s0, Ops(st.log))
  {
    st := st0;
    if i > 1 {
      FinalAdvances(st, g.script, c);
      var ignored;
      ignored, st := StepBatch(a, g, i, i - 1, 720, st, s0, c);
    }
  }

  /**
    `batched_random::shuffle(first, last, g)` on the whole array with a
    scripted generator: the array ends up as the exchanges of `ShuffleRun`
    applied to its old contents, which is a permutation of them, and the
    generator has been called exactly as often as that run says.
   */
  method Shuffle<T>(a: array<T>, g: ScriptedGenerator)
    requires a.Length < TWO64
    requires ShuffleRun(a.Length, g.script, g.calls).Some?
    modifies a, g
    ensures var run := ShuffleRun(a.Length, g.script, old(g.calls)).value;
      && InRange(Ops(run.log), a.Length)
      && a[..] == ApplySwaps(old(a[..]), Ops(run.log))
      && g.calls == old(g.calls) + run.calls
    ensures multiset(a[..]) == multiset(old(a[..]))
    ensures a.Length <= 1 ==> a[..] == old(a[..]) && g.calls == old(g.calls)
  {
    ghost var s0, c, w := a[..], g.calls, g.script;
    ghost var n: u64 := a.Length;
    var i: u64 := a.Length;
    ghost var st := Run(i, 0, 0, []);
    i, st := RunSingles(a, g, i, st, s0, c);
    assert ShuffleRun(n, w, c) == Regimes(2, st, w, c);
    RegimesStep(2, st, w, c);
    i, st := RunRegime(a, g, i, 2, P19, P60, st.(bound := P60), s0, c);
    RegimesStep(3, st, w, c);
    i, st := RunRegime(a, g, i, 3, P14, P57, st.(bound := P57), s0, c);
    RegimesStep(4, st, w, c);
    i, st := RunRegime(a, g, i, 4, P11, P56, st.(bound := P56), s0, c);
    RegimesStep(5, st, w, c);
    i, st := RunRegime(a, g, i, 5, P9, P55, st.(bound := P55), s0, c);
    RegimesStep(6, st, w, c);
    i, st := RunRegime(a, g, i, 6, 6, P54, st.(bound := P54), s0, c);
    assert ShuffleRun(n, w, c) == Final(st, w, c);
    st := RunFinal(a, g, i, st, s0, c);
    if n <= 1 {
      SmallInputUntouched(n, w, c);
    }
  }
}
