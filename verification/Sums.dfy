/** Finite sums over the ids of a table. */
module Sums {

  ghost function Sum(f: nat -> int, n: nat): int {
    if n == 0 then 0 else Sum(f, n - 1) + f(n - 1)
  }

  lemma {:induction false} SumSame(f: nat -> int, g: nat -> int, n: nat)
    requires forall i: nat :: i < n ==> f(i) == g(i)
    ensures Sum(f, n) == Sum(g, n)
  {
    if n > 0 { SumSame(f, g, n - 1); }
  }

  /** Changing one term changes the sum by as much. */
  lemma {:induction false} SumPoint(f: nat -> int, g: nat -> int, k: nat, d: int, n: nat)
    requires forall i: nat :: i < n ==> g(i) == f(i) + (if i == k then d else 0)
    ensures Sum(g, n) == Sum(f, n) + (if k < n then d else 0)
  {
    if n > 0 { SumPoint(f, g, k, d, n - 1); }
  }

  lemma {:induction false} SumZero(f: nat -> int, n: nat)
    requires forall i: nat :: i < n ==> f(i) == 0
    ensures Sum(f, n) == 0
  {
    if n > 0 { SumZero(f, n - 1); }
  }

  /** No term of a sum of non-negative terms exceeds it. */
  lemma {:induction false} TermAtMostSum(f: nat -> int, k: nat, n: nat)
    requires forall i: nat :: i < n ==> f(i) >= 0
    ensures Sum(f, n) >= 0
    ensures k < n ==> f(k) <= Sum(f, n)
  {
    if n > 0 { TermAtMostSum(f, k, n - 1); }
  }
}
