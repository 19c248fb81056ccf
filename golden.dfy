/**
  A worked example of the whole shuffle: six elements are handled by the one
  final batch of five exchanges, drawn from a single word that passes the
  bias check straight away.
 */
module ShuffleExamples {
  import opened Uint64
  import opened Maybe
  import opened Extraction
  import opened Transpositions
  import opened BatchDraws
  import opened BatchedShuffle

  const Word: u64 := 0x9E37_79B9_7F4A_7C15

  /** The five multiply-shift draws from `Word` at n = 6 give the indices 3, 3, 2, 0, 0. */
  lemma SixElementDraw()
    ensures Extract(6, 5, Word) == Extracted([3, 3, 2, 0, 0], 18160301185661991696)
  {
    assert Extract(6, 1, Word) == Extracted([3], 13064056694810536062);
    assert Extract(6, 2, Word) == Extracted([3, 3], 9980051252924025462);
    assert Extract(6, 3, Word) == Extracted([3, 3, 2], 3026716864276998616);
    assert Extract(6, 4, Word) == Extracted([3, 3, 2, 0], 9080150592830995848);
  }

  /** The one batch the shuffle of six elements draws from `Word`. */
  const SixBatch := Batch(6, 5, Word, [3, 3, 2, 0, 0], 18160301185661991696, 720, 0)

  /** With six elements only the final batch runs; it reads one word and passes the bias check. */
  lemma SixElementRun()
    ensures ShuffleRun(6, [Word], 0) == Some(Run(1, 720, 1, [SixBatch]))
  {
    var w := [Word];
    SixElementDraw();
    assert BatchDraw(6, 5, 720, w, 0) == Some(SixBatch);
    var st := Run(6, 0, 0, []);
    var done := Run(1, 720, 1, [SixBatch]);
    assert st.log + [SixBatch] == [SixBatch];
    FinalAdvances(st.(bound := P54), w, 0);
    assert Step(st.(bound := P54), 5, 720, w, 0) == Some(done);
    assert Singles(st, w, 0) == Some(st);
    assert Regimes(6, st.(bound := P55), w, 0) == Some(done);
    assert Regimes(5, st.(bound := P56), w, 0) == Some(done);
    assert Regimes(4, st.(bound := P57), w, 0) == Some(done);
    assert Regimes(3, st.(bound := P60), w, 0) == Some(done);
    assert Regimes(2, st, w, 0) == Some(done);
  }

  /** The batch's exchanges in order: (5 3) (4 3) (3 2) (2 0) (1 0). */
  const SixOps := [Transposition(5, 3), Transposition(4, 3), Transposition(3, 2), Transposition(2, 0), Transposition(1, 0)]

  /**
    Shuffling six elements with a generator whose first word is `Word` calls
    it once and applies exactly the exchanges (5 3) (4 3) (3 2) (2 0) (1 0).
   */
  lemma SixElementGoldenVector()
    ensures ShuffleRun(6, [Word], 0).Some?
    ensures var run := ShuffleRun(6, [Word], 0).value;
      && run.calls == 1
      && Ops(run.log) == SixOps
  {
    SixElementRun();
    LogSnoc([], SixBatch);
    assert [] + [SixBatch] == [SixBatch];
    SixBatchOps();
  }

  /** The batch's indices 3, 3, 2, 0, 0 at count 6 are the exchanges `SixOps`. */
  lemma SixBatchOps()
    ensures BatchOps(6, [3, 3, 2, 0, 0]) == SixOps
  {
    var ops := BatchOps(6, [3, 3, 2, 0, 0]);
    assert ops[0] == SixOps[0] && ops[1] == SixOps[1] && ops[2] == SixOps[2];
    assert ops[3] == SixOps[3] && ops[4] == SixOps[4];
  }
}
