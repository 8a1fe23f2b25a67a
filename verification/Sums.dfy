/** Sums over a list of threads, and how they change when one thread takes a step. */
module Sums {

  ghost function Sum<T>(s: seq<T>, f: T -> int): int {
    if s == [] then 0 else f(s[0]) + Sum(s[1..], f)
  }

  lemma {:induction false} SumUpdate<T>(s: seq<T>, i: nat, x: T, f: T -> int)
    requires i < |s|
    ensures Sum(s[i := x], f) == Sum(s, f) - f(s[i]) + f(x)
  {
    if i > 0 {
      assert s[i := x][1..] == s[1..][i - 1 := x];
      SumUpdate(s[1..], i - 1, x, f);
    } else {
      assert s[0 := x][1..] == s[1..];
    }
  }

  lemma {:induction false} SumBounds<T>(s: seq<T>, f: T -> int, low: int, high: int)
    requires forall i | 0 <= i < |s| :: low <= f(s[i]) <= high
    ensures low * |s| <= Sum(s, f) <= high * |s|
  {
    if s != [] {
      SumBounds(s[1..], f, low, high);
      assert low * |s| == low + low * (|s| - 1) && high * |s| == high + high * (|s| - 1);
    }
  }

  /** No term is larger than a sum whose other terms are not negative. */
  lemma {:induction false} SumAtLeast<T>(s: seq<T>, i: nat, f: T -> int)
    requires i < |s| && forall k | 0 <= k < |s| && k != i :: f(s[k]) >= 0
    ensures Sum(s, f) >= f(s[i])
  {
    if i > 0 {
      SumAtLeast(s[1..], i - 1, f);
    } else {
      SumNonNegative(s[1..], f);
    }
  }

  lemma {:induction false} SumNonNegative<T>(s: seq<T>, f: T -> int)
    requires forall k | 0 <= k < |s| :: f(s[k]) >= 0
    ensures Sum(s, f) >= 0
  {
    if s != [] {
      SumNonNegative(s[1..], f);
    }
  }
}
