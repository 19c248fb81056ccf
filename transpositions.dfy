/**
  Exchanges of two positions of a sequence (`std::iter_swap`), sequences of
  them, and the shape of the classic Fisher–Yates swap sequence.
 */
module Transpositions {

  /** Exchange the element at position `top` with the element at position `pick`. */
  datatype Transposition = Transposition(top: int, pick: int)

  /** `s` with the elements at positions i and j exchanged. */
  function Swap<T>(s: seq<T>, i: int, j: int): (r: seq<T>)
    requires 0 <= i < |s| && 0 <= j < |s|
    ensures |r| == |s| && r[i] == s[j] && r[j] == s[i]
    ensures forall p :: 0 <= p < |s| && p != i && p != j ==> r[p] == s[p]
    ensures multiset(r) == multiset(s)
  {
    s[i := s[j]][j := s[i]]
  }

  /** Every exchange in `ops` touches only positions below `len`. */
  predicate InRange(ops: seq<Transposition>, len: int)
  {
    forall m :: 0 <= m < |ops| ==> 0 <= ops[m].top < len && 0 <= ops[m].pick < len
  }

  /** The exchanges of `ops` applied to `s` one after another, first to last. */
  function ApplySwaps<T>(s: seq<T>, ops: seq<Transposition>): (r: seq<T>)
    requires InRange(ops, |s|)
    ensures |r| == |s|
    ensures multiset(r) == multiset(s)
  {
    if ops == [] then s
    else
      var last := ops[|ops| - 1];
      Swap(ApplySwaps(s, ops[..|ops| - 1]), last.top, last.pick)
  }

  /** Applying two runs of exchanges one after the other is applying their concatenation. */
  lemma {:induction false} ApplySwapsAppend<T>(s: seq<T>, ops1: seq<Transposition>, ops2: seq<Transposition>)
    requires InRange(ops1, |s|) && InRange(ops2, |s|)
    ensures InRange(ops1 + ops2, |s|)
    ensures ApplySwaps(s, ops1 + ops2) == ApplySwaps(ApplySwaps(s, ops1), ops2)
    decreases |ops2|
  {
    if ops2 != [] {
      var ops2' := ops2[..|ops2| - 1];
      assert (ops1 + ops2)[..|ops1 + ops2| - 1] == ops1 + ops2';
      ApplySwapsAppend(s, ops1, ops2');
    } else {
      assert ops1 + ops2 == ops1;
    }
  }

  /** Positions at or above `lim` are left alone by exchanges below `lim`. */
  lemma {:induction false} ApplySwapsFrame<T>(s: seq<T>, ops: seq<Transposition>, lim: int, p: int)
    requires InRange(ops, lim) && 0 <= lim <= p < |s|
    ensures InRange(ops, |s|) && ApplySwaps(s, ops)[p] == s[p]
    decreases |ops|
  {
    if ops != [] {
      ApplySwapsFrame(s, ops[..|ops| - 1], lim, p);
    }
  }

  /**
    `ops` begins the swap sequence of the classic Fisher–Yates shuffle of n
    elements: its m-th exchange targets position n−1−m and picks a position at
    or below that one.
   */
  predicate FisherYatesPrefix(n: int, ops: seq<Transposition>)
  {
    forall m :: 0 <= m < |ops| ==> ops[m].top == n - 1 - m && 0 <= ops[m].pick <= ops[m].top
  }

  /**
    `ops` is the whole swap sequence of the classic Fisher–Yates shuffle of n
    elements: positions n−1, n−2, …, 1 are each the target of exactly one
    exchange, in that order.
   */
  predicate FisherYatesTrace(n: nat, ops: seq<Transposition>)
  {
    |ops| == (if n == 0 then 0 else n - 1) && FisherYatesPrefix(n, ops)
  }

  /** A Fisher–Yates swap sequence of n elements stays inside the first n positions. */
  lemma FisherYatesInRange(n: int, ops: seq<Transposition>)
    requires |ops| <= n && FisherYatesPrefix(n, ops)
    ensures InRange(ops, n)
  {
  }
}
