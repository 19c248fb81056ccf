# Batched Fisher–Yates shuffle, modelled in Dafny

This project models `batched_random::shuffle` from `include/batched_random.h`.
It shuffles a range in place with a 64-bit random generator. The range is cut
into batches: one random word yields up to six swap indices at once by
repeated multiply-shift. A rejection test, run once per batch, removes the
bias that multiply-shift would otherwise carry.

The model has three layers.

- **Arithmetic.**
  - `Uint64` models `uint64_t` as the integers below 2^64. `MulHi` and
    `MulLo` split the 128-bit product, and `Neg` is unsigned negation.
  - `Bounds` holds the falling product n·(n−1)·…·(n−k+1), which is the
    helper's `bound`, and the rejection threshold 2^64 mod bound.
- **One call of the helper `partial_shuffle::shuffle`.**
  - `Extraction` holds the multiply-shift draws.
  - `BatchDraws` holds the rejection loop, the swaps, and the pure
    description `BatchDraw` of what one call draws.
  - The methods `FillIndexes`, `ExactBound`, `Rejection`, `ApplyBatch`,
    `DrawBatch` and `PartialShuffle` follow the source's loops. They work on
    an `array<T>` and on the fixed index buffer `indexes[7]`.
- **The driver.**
  - `BatchedShuffle` describes the six loops and the last batch as pure
    functions (`Singles`, `Regime`, `Final`, `Regimes`, `ShuffleRun`).
  - Lemmas prove that the run is the classic Fisher–Yates swap sequence,
    that every batch is unbiased and of the size the regime table gives,
    and that the run depends only on the words it consumes.
  - The method `Shuffle` runs the same loops on the array. It is proved to
    leave the array exactly as `ShuffleRun` says.

The generator is modelled by a `ScriptedGenerator`. This class holds a fixed
sequence of words and counts the calls made to it, so the generator's
randomness becomes a parameter. `ShuffleExamples` works one complete
six-element shuffle through by hand.

## Model

| member | source | states |
|---|---|---|
| `Uint64.MulHi` | include/batched_random.h:49-51 | The high word of (n−j)·r is at most n−j, and strictly below it when n−j > 0. This is why every extracted index lies in [0, n−j). |
| `Uint64.MulLo` | include/batched_random.h:49-50 | The high word times 2^64 plus the low word is exactly the 128-bit product, so no bits are lost when the low word is carried to the next draw. |
| `Uint64.Neg` | include/batched_random.h:61 | x plus its unsigned negation is 0 modulo 2^64. |
| `Bounds.FallingProduct` | include/batched_random.h:55-59 | n·(n−1)·…·(n−k+1) is non-negative, at least 1 when k ≤ n, and 0 when n < k. |
| `Bounds.FallingGrowsWithK` | include/batched_random.h:56-59 | Taking more factors never shrinks the product. So every intermediate `bound *= n - j` stays below the final product, and nothing wraps around when the final product fits in 64 bits. |
| `Bounds.FallingMonotone` | include/batched_random.h:84-111 | A smaller count never has a larger product of the same length. So an exact bound handed back only shrinks as i decreases, and a regime constant that covers the regime's largest count covers all of them. |
| `Bounds.Threshold` | include/batched_random.h:61 | `-bound % bound` equals 2^64 mod bound and is strictly below bound. |
| `Extraction.Extract` | include/batched_random.h:47-52 | k draws from one word give k indices with indexes[j] < n−j. |
| `Extraction.ExtractIsOneDraw` | include/batched_random.h:47-52 | The k draws are one multiply-shift draw in [0, n·…·(n−k+1)). The product times the word equals the indices read as a mixed-radix number, times 2^64, plus the leftover word. |
| `Extraction.MixedRadix` | include/batched_random.h:47-52 | Indices with indexes[j] < n−j, read as mixed-radix digits, form a number in [0, n·…·(n−k+1)). Every batch therefore names one point of that range. `ExtractIsOneDraw` ties the number to the word. |
| `Extraction.FillIndexes` | include/batched_random.h:47-52 | The extraction loop writes exactly `Extract`'s indices into the buffer and returns its leftover word, and every written index is below n−j. Buffer slots from k on keep their values. The redraw loop at lines 65-69 reuses it. |
| `BatchDraws.Redraw` | include/batched_random.h:63-70 | The rejection loop stops at the first word that passes. The accepted word's extraction has leftover ≥ t, and every word read before it had leftover < t. The accepted word is the script word just before the returned cursor, and the cursor only advances. |
| `BatchDraws.BatchDraw` | include/batched_random.h:43-70 | What one call of the helper draws. The batch is at the given count and size. Its indices and leftover are the extraction of the accepted word. The leftover passed the fast test against the caller's bound or the exact test against 2^64 mod the product. `BatchDrawSound` gives the rest. |
| `BatchDraws.BatchDrawSound` | include/batched_random.h:54-76 | Facts about one call of the helper. (1) Its indices are an exact multiply-shift draw, in range. (2) It hands back the caller's bound when the first leftover is ≥ bound, and the exact falling product otherwise. (3) On exit, either r ≥ bound held or r ≥ 2^64 mod the product, and the latter always holds when bound ≥ the product. (4) It reads one word plus one per redraw. (5) On the fast path there are no redraws; otherwise every word rejected before the accepted one had leftover below 2^64 mod the product. |
| `BatchDraws.RedrawAgree` | include/batched_random.h:63-70 | Two scripts that agree on the words the rejection loop reads give the same outcome. |
| `BatchDraws.BatchDrawAgree` | include/batched_random.h:43-70 | Two scripts that agree on the words one call reads draw the same batch. |
| `BatchDraws.BatchFrame` | include/batched_random.h:73-75 | A batch drawn at count n with in-range indices is a run of Fisher–Yates exchanges: exchange j moves position n−1−j to a position at or below it. It touches only positions below n, and every position from n on keeps its element. |
| `BatchDraws.ExactBound` | include/batched_random.h:55-59 | The loop that multiplies `bound` up returns exactly n·(n−1)·…·(n−k+1). |
| `BatchDraws.Rejection` | include/batched_random.h:63-70 | The `while (r < t)` loop leaves the indices, the leftover and the generator's call count that `Redraw` gives. Every index is in range, and buffer slots from k on keep their values. |
| `BatchDraws.ApplyBatch` | include/batched_random.h:73-75 | The swap loop leaves the array equal to the batch's exchanges applied in order to its old contents. |
| `BatchDraws.DrawBatch` | include/batched_random.h:41-71 | The drawing half of the helper fills a fresh buffer with `BatchDraw`'s indices, all in range. It returns `BatchDraw`'s bound and consumes one word plus one per redraw. |
| `BatchDraws.PartialShuffle` | include/batched_random.h:39-77 | One call of the helper. It applies the exchanges of the batch `BatchDraw` describes and returns that batch's bound. It consumes the words that batch reads, leaves positions ≥ n untouched, and permutes the array. |
| `Transpositions.Swap` | include/batched_random.h:74 | `std::iter_swap` exchanges the two positions, leaves every other position alone, and keeps the multiset of elements. |
| `Transpositions.ApplySwaps` | include/batched_random.h:73-75 | Applying a run of exchanges keeps the length and the multiset of elements. |
| `Transpositions.ApplySwapsAppend` | include/batched_random.h:81-111 | Applying two runs of exchanges in turn equals applying their concatenation, which is how consecutive batches compose. |
| `Transpositions.ApplySwapsFrame` | include/batched_random.h:73-75 | Exchanges that stay below a limit leave every position at or above it unchanged. |
| `Generator.ScriptedGenerator.Next` | include/batched_random.h:43 | `gen()` returns the next word of the script and counts one call. |
| `BatchedShuffle.BatchSize` | include/batched_random.h:81-111 | The driver's batch size at count i. With at least two elements left it is between 1 and 6 and below i, so a batch never exhausts the range. With one element or none it is 0. `RegimeTable` ties it to each loop. |
| `BatchedShuffle.RegimeTable` | include/batched_random.h:84-108 | Between each regime's loop limit and its top count, the batch size is the regime's k. |
| `BatchedShuffle.RegimeStartDominates` | include/batched_random.h:84-108 | Each regime constant (2^60, 2^57, 2^56, 2^55, 2^54) is at least the falling product of every count in its regime. |
| `BatchedShuffle.FinalBoundDominates` | include/batched_random.h:109-112 | 720 is at least i·(i−1)·…·2 for every final count i from 2 to 6. |
| `BatchedShuffle.Step` | include/batched_random.h:86-88 | One call of the helper lowers the count by the batch size. |
| `BatchedShuffle.Singles` | include/batched_random.h:80-83 | The single-draw loop stops at a count ≤ 2^30 and never raises the count. |
| `BatchedShuffle.Regime` | include/batched_random.h:86-108 | A regime loop stops at a count ≤ its limit and never raises the count. |
| `BatchedShuffle.Final` | include/batched_random.h:109-112 | The last batch leaves exactly one element when two to six remained, and nothing changes otherwise. `FinalConsistent` proves it keeps the invariant. |
| `BatchedShuffle.Regimes` | include/batched_random.h:84-112 | The regimes and the last batch end with at most one element left. `RegimesConsistent` proves they keep the invariant. |
| `BatchedShuffle.ShuffleRun` | include/batched_random.h:80-112 | The whole run ends with at most one element left. `ShuffleIsFisherYates` proves it is the Fisher–Yates swap sequence. |
| `BatchedShuffle.StepDraws` | include/batched_random.h:86-88 | A step called with a bound ≥ the exact product draws an unbiased batch of the table's size and hands back a bound that is still ≥ the product. |
| `BatchedShuffle.StepConsistent` | include/batched_random.h:86-88 | Such a step keeps the driver's invariant, and so does every step that follows. |
| `BatchedShuffle.SinglesConsistent` | include/batched_random.h:80-83 | The single-draw loop keeps the invariant and leaves at least one element. |
| `BatchedShuffle.RegimeConsistent` | include/batched_random.h:84-108 | A regime loop entered with a dominating bound keeps the invariant. It either does nothing or stops within one batch of its limit. |
| `BatchedShuffle.FinalConsistent` | include/batched_random.h:109-112 | The last batch keeps the invariant and leaves exactly one element when the input was not empty. |
| `BatchedShuffle.RegimeStage` | include/batched_random.h:84-108 | Each regime, entered from its constant, keeps the invariant and hands the next regime a count within that regime's range. |
| `BatchedShuffle.RegimesConsistent` | include/batched_random.h:84-112 | Entered after the single draws with at most 2^30 elements, the regimes of batches of 2 to 6 and the last batch keep the invariant. They end with one element left, or with none when the input was empty. |
| `BatchedShuffle.ShuffleIsFisherYates` | include/batched_random.h:80-112 | The whole run is the classic Fisher–Yates swap sequence: positions n−1 down to 1 are each exchanged once with a position at or below them. Every batch is an unbiased draw of the table's size, and the generator is called once per batch plus once per redraw. |
| `BatchedShuffle.SmallInputUntouched` | include/batched_random.h:80-112 | With n ≤ 1 no batch is drawn and the generator is never called. |
| `BatchedShuffle.RegimesUnfold` | include/batched_random.h:84-108 | Each regime's constant dominates its counts, and after the regime the count lies within the next regime's range. |
| `BatchedShuffle.StepAgree` | include/batched_random.h:86-88 | One step reads only the words it consumes. |
| `BatchedShuffle.SinglesAgree` | include/batched_random.h:80-83 | The single-draw loop reads only the words it consumes. |
| `BatchedShuffle.RegimeCalls` | include/batched_random.h:86-108 | A regime loop never reduces the call count. |
| `BatchedShuffle.RegimeAgree` | include/batched_random.h:86-108 | A regime loop reads only the words it consumes. |
| `BatchedShuffle.FinalAgree` | include/batched_random.h:109-112 | The last batch reads only the words it consumes. |
| `BatchedShuffle.RegimesAgree` | include/batched_random.h:84-112 | The regimes and the last batch read only the words they consume. |
| `BatchedShuffle.ShuffleDependsOnConsumedWords` | include/batched_random.h:80-112 | Any script holding the same words from the cursor, for as many calls as the run makes, yields the same run: the same exchanges, the same array and the same call count. |
| `BatchedShuffle.RunSingles` | include/batched_random.h:80-83 | The loop of single draws on the array ends where `Singles` says. The array holds all exchanges so far, applied to the original. |
| `BatchedShuffle.RunRegime` | include/batched_random.h:84-108 | A regime loop on the array ends where `Regime` says, with the array and call count to match. |
| `BatchedShuffle.RegimeBatch` | include/batched_random.h:86-107 | One pass of a regime loop takes one step, and the rest of the regime finishes as before. |
| `BatchedShuffle.StepBatch` | include/batched_random.h:82-111 | One call of the helper on the array, at any of its call sites, performs exactly the step that `Step` describes. |
| `BatchedShuffle.RunFinal` | include/batched_random.h:109-112 | The closing batch on the array performs exactly what `Final` describes. |
| `BatchedShuffle.Shuffle` | include/batched_random.h:23-113 | The array ends as `ShuffleRun`'s exchanges applied to its old contents, which is a permutation of them. The generator is called exactly as often as the run says. With n ≤ 1 nothing changes. |
| `ShuffleExamples.SixElementDraw` | include/batched_random.h:47-52 | The five draws from the word 0x9E3779B97F4A7C15 at n = 6 give the indices 3, 3, 2, 0, 0. |
| `ShuffleExamples.SixElementRun` | include/batched_random.h:109-112 | With six elements only the final batch of five runs. It reads one word and passes the bias check. |
| `ShuffleExamples.SixElementGoldenVector` | include/batched_random.h:23-113 | Six elements shuffled with that word cost one generator call and apply the exchanges (5 3) (4 3) (3 2) (2 0) (1 0). |

In its description, the rejection test compares the leftover with
t = 2^64 mod bound. The code compares the leftover with `bound` first
(line 54) and computes t only when that fast test fails. The model follows
the code. `BatchDrawSound` proves that the fast path is safe whenever the
caller's bound is at least the exact product, because t < bound.

## Left out

- The `static_assert`s on the generator type (lines 26-28) are compile-time
  checks. They are captured by the type `u64`: every scripted word is a
  full-range 64-bit value.
- The choice of 128-bit type for MSVC or GCC and `always_inline`
  (lines 15-17, 32-36, 39) are toolchain details. They are replaced by the
  exact functions `MulHi` and `MulLo`.
- Iterator genericity (`random_it`, `std::distance`, `std::iter_swap`) is
  not modelled. The range is an `array<T>` indexed by position, and its
  length must be below 2^64 because `std::distance` is stored in a
  `uint64_t`.
- The generator is a finite script, not a random source. The rejection loop
  terminates only almost surely. `Shuffle` therefore requires that
  `ShuffleRun` succeeds, that is, that the script holds enough words for
  the run. The loop's termination is proved by the shrinking number of
  unread words.
- Uniformity of the output distribution over all n! permutations is a
  probabilistic claim and is not stated. The model proves what uniformity
  rests on. Each batch is one multiply-shift draw from [0, n·…·(n−k+1)).
  A draw is accepted exactly when it passes: the accepted leftover passes
  the exact rejection test, and every rejected word failed it. The
  exchanges form the classic Fisher–Yates sequence.
- `tests/basic.cpp` and `benchmarks/benchmark.cpp` are not part of this
  model. They are statistical and timing harnesses with console output.
- `BatchDraws.ApplyBatch` requires the array and the index buffer to be
  different objects. In the source the buffer is a local array, so they
  cannot alias.
- `ShuffleExamples.SixElementGoldenVector` gives the six-element example as
  its exchanges and its single generator call. It does not state the
  resulting arrangement of a concrete array.
