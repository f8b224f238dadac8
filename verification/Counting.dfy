/** Sums of a weight over a sequence, used to count the processes that stand at
  * given points of a concurrent program. */
module Counting {

  ghost function Sum<T>(s: seq<T>, w: T -> int): int {
    SumTo(s, |s|, w)
  }

  ghost function SumTo<T>(s: seq<T>, n: nat, w: T -> int): int
    requires n <= |s|
  {
    if n == 0 then 0 else SumTo(s, n - 1, w) + w(s[n - 1])
  }

  lemma {:induction false} SumToUpdate<T>(s: seq<T>, n: nat, i: nat, x: T, w: T -> int)
    requires i < |s| && n <= |s|
    ensures SumTo(s[i := x], n, w) == SumTo(s, n, w) + if i < n then w(x) - w(s[i]) else 0
  {
    if n > 0 {
      SumToUpdate(s, n - 1, i, x, w);
    }
  }

  lemma SumUpdate<T>(s: seq<T>, i: nat, x: T, w: T -> int)
    requires i < |s|
    ensures Sum(s[i := x], w) == Sum(s, w) - w(s[i]) + w(x)
  {
    SumToUpdate(s, |s|, i, x, w);
  }

  lemma {:induction false} SumToNonNegative<T>(s: seq<T>, n: nat, w: T -> int)
    requires n <= |s|
    requires forall k | 0 <= k < |s| :: w(s[k]) >= 0
    ensures SumTo(s, n, w) >= 0
    ensures forall i | 0 <= i < n :: SumTo(s, n, w) >= w(s[i])
    ensures forall i, j | 0 <= i < j < n :: SumTo(s, n, w) >= w(s[i]) + w(s[j])
  {
    if n > 0 {
      SumToNonNegative(s, n - 1, w);
    }
  }

  lemma SumNonNegative<T>(s: seq<T>, w: T -> int)
    requires forall k | 0 <= k < |s| :: w(s[k]) >= 0
    ensures Sum(s, w) >= 0
  {
    SumToNonNegative(s, |s|, w);
  }

  lemma SumAtLeast<T>(s: seq<T>, i: nat, w: T -> int)
    requires forall k | 0 <= k < |s| :: w(s[k]) >= 0
    requires i < |s|
    ensures Sum(s, w) >= w(s[i])
  {
    SumToNonNegative(s, |s|, w);
  }

  /** Two different positions both contribute to the sum. */
  lemma SumAtLeastTwo<T>(s: seq<T>, i: nat, j: nat, w: T -> int)
    requires forall k | 0 <= k < |s| :: w(s[k]) >= 0
    requires i < j < |s|
    ensures Sum(s, w) >= w(s[i]) + w(s[j])
  {
    SumToNonNegative(s, |s|, w);
  }

  /** A positive sum has a positive term. */
  lemma {:induction false} SumToWitness<T>(s: seq<T>, n: nat, w: T -> int) returns (i: nat)
    requires n <= |s| && SumTo(s, n, w) > 0
    ensures i < n && w(s[i]) > 0
  {
    if w(s[n - 1]) > 0 {
      i := n - 1;
    } else {
      i := SumToWitness(s, n - 1, w);
    }
  }

  /** A sum of equal terms is a product. */
  lemma {:induction false} SumToConstant<T>(s: seq<T>, n: nat, w: T -> int, c: int)
    requires n <= |s|
    requires forall k | 0 <= k < |s| :: w(s[k]) == c
    ensures SumTo(s, n, w) == n * c
  {
    if n > 0 {
      SumToConstant(s, n - 1, w, c);
    }
  }

  lemma SumConstant<T>(s: seq<T>, w: T -> int, c: int)
    requires forall k | 0 <= k < |s| :: w(s[k]) == c
    ensures Sum(s, w) == |s| * c
  {
    SumToConstant(s, |s|, w, c);
  }

  /** A larger weight has the larger sum. */
  lemma {:induction false} SumToMonotone<T>(s: seq<T>, n: nat, v: T -> int, w: T -> int)
    requires n <= |s|
    requires forall k | 0 <= k < |s| :: v(s[k]) <= w(s[k])
    ensures SumTo(s, n, v) <= SumTo(s, n, w)
  {
    if n > 0 {
      SumToMonotone(s, n - 1, v, w);
    }
  }
}
