/** Finite sums over call indices: the bookkeeping shared by the drain measure, the HP bounds and the score ledger. */
module Sums {
  /** f(0) + ... + f(n-1) */
  function Sum(f: nat -> int, n: nat): int {
    if n == 0 then 0 else Sum(f, n - 1) + f(n - 1)
  }

  lemma {:induction false} SumAgrees(f: nat -> int, g: nat -> int, n: nat)
    requires forall i: nat | i < n :: f(i) == g(i)
    ensures Sum(f, n) == Sum(g, n)
  {
    if n > 0 { SumAgrees(f, g, n - 1); }
  }

  /** Changing one term changes the sum by exactly that much. */
  lemma {:induction false} SumChanges(f: nat -> int, g: nat -> int, n: nat, k: nat)
    requires k < n
    requires forall i: nat | i < n && i != k :: f(i) == g(i)
    ensures Sum(g, n) == Sum(f, n) - f(k) + g(k)
  {
    if k == n - 1 {
      SumAgrees(f, g, n - 1);
    } else {
      SumChanges(f, g, n - 1, k);
    }
  }

  lemma {:induction false} SumMonotone(f: nat -> int, g: nat -> int, n: nat)
    requires forall i: nat | i < n :: f(i) <= g(i)
    ensures Sum(f, n) <= Sum(g, n)
  {
    if n > 0 { SumMonotone(f, g, n - 1); }
  }

  /** A sum of non-negative terms is at least each of them. */
  lemma {:induction false} SumAtLeastTerm(f: nat -> int, n: nat, k: nat)
    requires k < n
    requires forall i: nat | i < n :: 0 <= f(i)
    ensures 0 <= f(k) <= Sum(f, n)
  {
    if k == n - 1 {
      SumMonotone(_ => 0, f, n - 1);
      SumOfZeros(n - 1);
    } else {
      SumAtLeastTerm(f, n - 1, k);
    }
  }

  lemma {:induction false} SumOfZeros(n: nat)
    ensures Sum(_ => 0, n) == 0
  {
    if n > 0 { SumOfZeros(n - 1); SumAgrees(_ => 0, _ => 0, n - 1); }
  }
}
