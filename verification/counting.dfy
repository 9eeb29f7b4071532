/**
 Sums, repetitions and occurrence counts over sequences of integers: the
 arithmetic that the KNORA-U vote list is built from.
 */
module Counting {

  /** Every entry of `w` is non-negative. */
  predicate NonNegative(w: seq<int>)
  {
    forall i :: 0 <= i < |w| ==> w[i] >= 0
  }

  /** The sum of the first `k` entries of `w`. */
  function SumUpTo(w: seq<int>, k: nat): int
    requires k <= |w|
  {
    if k == 0 then 0 else SumUpTo(w, k - 1) + w[k - 1]
  }

  /** The number of occurrences of `x` in `s`, as `collections.Counter(s)[x]`. */
  function Count(s: seq<int>, x: int): nat
  {
    multiset(s)[x]
  }

  /** `n` copies of `x`, as `np.ones(n, dtype=int) * x`. */
  function Repeat(x: int, n: nat): (r: seq<int>)
    ensures |r| == n
    ensures forall i :: 0 <= i < |r| ==> r[i] == x
  {
    if n == 0 then [] else Repeat(x, n - 1) + [x]
  }

  /** `n` copies of `x` hold `x` exactly `n` times and nothing else. */
  lemma {:induction false} RepeatCount(x: int, n: nat, y: int)
    ensures Count(Repeat(x, n), y) == if y == x then n else 0
  {
    if n > 0 {
      RepeatCount(x, n - 1, y);
      assert multiset(Repeat(x, n)) == multiset(Repeat(x, n - 1)) + multiset{x};
    }
  }

  lemma {:induction false} SumNonNegative(w: seq<int>, k: nat)
    requires NonNegative(w) && k <= |w|
    ensures SumUpTo(w, k) >= 0
  {
    if k > 0 {
      SumNonNegative(w, k - 1);
    }
  }

  /** With non-negative entries, a longer prefix never has a smaller sum. */
  lemma {:induction false} SumMonotone(w: seq<int>, i: nat, k: nat)
    requires NonNegative(w) && i <= k <= |w|
    ensures 0 <= SumUpTo(w, i) <= SumUpTo(w, k)
  {
    if i < k {
      SumMonotone(w, i, k - 1);
    } else {
      SumNonNegative(w, i);
    }
  }

  /** With non-negative entries, each entry of a prefix is at most the prefix's sum. */
  lemma {:induction false} SumAtLeastEach(w: seq<int>, i: nat, k: nat)
    requires NonNegative(w) && i < k <= |w|
    ensures w[i] <= SumUpTo(w, k)
  {
    if i == k - 1 {
      SumNonNegative(w, k - 1);
    } else {
      SumAtLeastEach(w, i, k - 1);
    }
  }
}
