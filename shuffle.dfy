/**
 * `shuffle` (src/app/quiz/page.tsx): Fisher–Yates on a copy of its argument.
 *
 * `Math.random` is replaced by a stream of draws. At step `i` the draw `d`
 * gives the swap partner `j = d % (i + 1)`, the value that
 * `Math.floor(Math.random() * (i + 1))` can take. An exhausted stream yields
 * `j = 0`, which is also a possible outcome of `Math.random`. So every run of
 * the model is a possible run of the source, and every choice of swap
 * partners can be reached by some stream.
 */
module Shuffling {

  /** The swap partner chosen at step `i`. */
  function Pick(draws: seq<nat>, i: nat): (j: nat)
    ensures j <= i
  {
    if draws == [] then 0 else draws[0] % (i + 1)
  }

  /** The draws left after one step. */
  function Rest(draws: seq<nat>): seq<nat> {
    if draws == [] then [] else draws[1..]
  }

  /** `[a[i], a[j]] = [a[j], a[i]]` on a value. */
  function Swap<T>(a: seq<T>, i: nat, j: nat): (r: seq<T>)
    requires i < |a| && j < |a|
    ensures |r| == |a|
  {
    a[i := a[j]][j := a[i]]
  }

  /** A swap exchanges two entries and keeps the rest. */
  lemma SwapPermutes<T>(a: seq<T>, i: nat, j: nat)
    requires i < |a| && j < |a|
    ensures multiset(Swap(a, i, j)) == multiset(a)
    ensures Swap(a, i, j)[i] == a[j] && Swap(a, i, j)[j] == a[i]
    ensures forall k :: 0 <= k < |a| && k != i && k != j ==> Swap(a, i, j)[k] == a[k]
  {
  }

  /** The loop of `shuffle` from index `i` down to 1, with the draws it leaves. */
  function FisherYatesFrom<T>(a: seq<T>, i: int, draws: seq<nat>): (r: (seq<T>, seq<nat>))
    requires i < |a|
    ensures |r.0| == |a|
    decreases i
  {
    if i <= 0 then (a, draws)
    else FisherYatesFrom(Swap(a, i, Pick(draws, i)), i - 1, Rest(draws))
  }

  /** `shuffle(s)`, and the draws it leaves unused. */
  function Shuffle<T>(s: seq<T>, draws: seq<nat>): (r: (seq<T>, seq<nat>)) {
    FisherYatesFrom(s, |s| - 1, draws)
  }

  /**
   * The result is a permutation of the input, and a shuffle of n > 1
   * elements consumes exactly n - 1 draws.
   */
  lemma ShufflePermutes<T>(s: seq<T>, draws: seq<nat>)
    ensures |Shuffle(s, draws).0| == |s|
    ensures multiset(Shuffle(s, draws).0) == multiset(s)
    ensures |s| > 1 && |draws| >= |s| - 1 ==> Shuffle(s, draws).1 == draws[|s| - 1..]
    ensures |s| <= 1 ==> Shuffle(s, draws) == (s, draws)
  {
    FisherYatesPermutes(s, |s| - 1, draws);
    FisherYatesDraws(s, |s| - 1, draws);
  }

  /** The loop from index `i` consumes one draw per step. */
  lemma {:induction false} FisherYatesDraws<T>(a: seq<T>, i: int, draws: seq<nat>)
    requires i < |a|
    ensures i <= 0 ==> FisherYatesFrom(a, i, draws).1 == draws
    ensures i > 0 && |draws| >= i ==> FisherYatesFrom(a, i, draws).1 == draws[i..]
    decreases i
  {
    if i > 0 {
      FisherYatesDraws(Swap(a, i, Pick(draws, i)), i - 1, Rest(draws));
      if |draws| >= i {
        assert Rest(draws)[i - 1..] == draws[i..];
      }
    }
  }

  /** Every run of the loop permutes its array. */
  lemma {:induction false} FisherYatesPermutes<T>(a: seq<T>, i: int, draws: seq<nat>)
    requires i < |a|
    ensures multiset(FisherYatesFrom(a, i, draws).0) == multiset(a)
    decreases i
  {
    if i > 0 {
      var j := Pick(draws, i);
      SwapPermutes(a, i, j);
      FisherYatesPermutes(Swap(a, i, j), i - 1, Rest(draws));
    }
  }

  /** One iteration of the loop of `shuffle`. */
  lemma FisherYatesStep<T>(a: seq<T>, i: int, draws: seq<nat>)
    requires 0 < i < |a|
    ensures FisherYatesFrom(a, i, draws) == FisherYatesFrom(Swap(a, i, Pick(draws, i)), i - 1, Rest(draws))
  {
  }

  /**
   * `shuffle` as the source runs it: copy the array (`[...arr]`), then
   * permute the copy in place. The argument is not modified.
   */
  method ShuffleCopy<T>(arr: array<T>, draws: seq<nat>) returns (a: array<T>, rest: seq<nat>)
    ensures fresh(a)
    ensures (a[..], rest) == Shuffle(arr[..], draws)
  {
    var s := arr[..];
    a := new T[|s|](k requires 0 <= k < |s| => s[k]);
    assert a[..] == s;
    rest := FisherYatesInPlace(a, draws);
  }

  /** The loop of `shuffle`: swap from the last index down to 1. */
  method FisherYatesInPlace<T>(a: array<T>, draws: seq<nat>) returns (rest: seq<nat>)
    modifies a
    ensures (a[..], rest) == Shuffle(old(a[..]), draws)
  {
    ghost var s := a[..];
    ghost var cur := s;
    rest := draws;
    var i := a.Length - 1;
    while i > 0
      invariant -1 <= i < a.Length == |cur|
      invariant a.Length == 0 ==> i == -1
      invariant a[..] == cur
      invariant FisherYatesFrom(cur, i, rest) == Shuffle(s, draws)
    {
      var j := Pick(rest, i);
      FisherYatesStep(cur, i, rest);
      var ai, aj := a[i], a[j];
      a[i] := aj;
      cur := cur[i := aj];
      assert a[..] == cur;
      a[j] := ai;
      cur := cur[j := ai];
      rest := Rest(rest);
      i := i - 1;
    }
  }
}
