/** Finite sums `f(0) + ... + f(n - 1)` over exact reals, with the algebra the
    matrix product needs: congruence, linearity and exchange of a double sum.
 */
module Summation {

  /** The sum of `f(k)` for `0 <= k < n`, accumulated from `k = 0` upwards. */
  function Sigma(n: nat, f: int -> real): real
  {
    if n == 0 then 0.0 else Sigma(n - 1, f) + f(n - 1)
  }

  /** Sums of functions that agree on `[0, n)` are equal. */
  lemma {:induction false} SigmaCongruent(n: nat, f: int -> real, g: int -> real)
    requires forall k :: 0 <= k < n ==> f(k) == g(k)
    ensures Sigma(n, f) == Sigma(n, g)
  {
    if n > 0 {
      SigmaCongruent(n - 1, f, g);
    }
  }

  /** A sum of zeros is zero. */
  lemma {:induction false} SigmaZero(n: nat, f: int -> real)
    requires forall k :: 0 <= k < n ==> f(k) == 0.0
    ensures Sigma(n, f) == 0.0
  {
    if n > 0 {
      SigmaZero(n - 1, f);
    }
  }

  /** The sum of a pointwise sum is the sum of the sums. */
  lemma {:induction false} SigmaAdd(n: nat, f: int -> real, g: int -> real, h: int -> real)
    requires forall k :: 0 <= k < n ==> h(k) == f(k) + g(k)
    ensures Sigma(n, h) == Sigma(n, f) + Sigma(n, g)
  {
    if n > 0 {
      SigmaAdd(n - 1, f, g, h);
    }
  }

  /** A constant factor on the left moves out of the sum. */
  lemma {:induction false} SigmaScaleLeft(n: nat, c: real, f: int -> real, h: int -> real)
    requires forall k :: 0 <= k < n ==> h(k) == c * f(k)
    ensures Sigma(n, h) == c * Sigma(n, f)
  {
    if n > 0 {
      SigmaScaleLeft(n - 1, c, f, h);
    }
  }

  /** A constant factor on the right moves out of the sum. */
  lemma {:induction false} SigmaScaleRight(n: nat, c: real, f: int -> real, h: int -> real)
    requires forall k :: 0 <= k < n ==> h(k) == f(k) * c
    ensures Sigma(n, h) == Sigma(n, f) * c
  {
    if n > 0 {
      SigmaScaleRight(n - 1, c, f, h);
    }
  }

  /** The order of summation of a finite double sum does not matter. */
  lemma {:induction false} SigmaSwap(n: nat, m: nat, g: (int, int) -> real)
    ensures Sigma(n, k => Sigma(m, l => g(k, l))) == Sigma(m, l => Sigma(n, k => g(k, l)))
  {
    var outer := k => Sigma(m, l => g(k, l));
    var swapped := l => Sigma(n, k => g(k, l));
    if n == 0 {
      SigmaZero(m, swapped);
    } else {
      var shorter := l => Sigma(n - 1, k => g(k, l));
      var last := l => g(n - 1, l);
      SigmaSwap(n - 1, m, g);
      assert Sigma(n - 1, outer) == Sigma(m, shorter);
      SigmaAdd(m, shorter, last, swapped);
      assert Sigma(n, outer) == Sigma(n - 1, outer) + Sigma(m, last);
    }
  }
}
