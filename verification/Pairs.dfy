/**
 * The triangular numbering of pairs of copies. A node shared by `n` domains gets one row for
 * each pair `a < b` of them; the pairs are numbered lexicographically.
 */
module Pairs {

  /** Number of pairs of `n` copies. */
  function Triangle(n: nat): nat {
    if n == 0 then 0 else Triangle(n - 1) + (n - 1)
  }

  lemma {:induction false} TriangleClosedForm(n: nat)
    ensures Triangle(n) == n * (n - 1) / 2
  {
    if n > 0 {
      TriangleClosedForm(n - 1);
      assert n * (n - 1) == (n - 1) * (n - 2) + 2 * (n - 1);
    }
  }

  /** Number of the first pair whose lower copy is `a`. */
  function PairStart(n: nat, a: nat): nat
    requires a <= n
  {
    if a == 0 then 0 else PairStart(n, a - 1) + (n - a)
  }

  /** What is left after the pairs of the first `a` copies are the pairs of the other copies. */
  lemma {:induction false} PairStartComplement(n: nat, a: nat)
    requires a <= n
    ensures PairStart(n, a) + Triangle(n - a) == Triangle(n)
  {
    if a > 0 {
      PairStartComplement(n, a - 1);
    }
  }

  lemma {:induction false} PairStartMonotone(n: nat, a: nat, c: nat)
    requires a <= c <= n
    ensures PairStart(n, a) <= PairStart(n, c)
    decreases c
  {
    if a < c {
      PairStartMonotone(n, a, c - 1);
    }
  }

  function PairIndex(n: nat, a: nat, b: nat): nat
    requires a < b < n
  {
    PairStart(n, a) + (b - a - 1)
  }

  lemma PairIndexInRange(n: nat, a: nat, b: nat)
    requires a < b < n
    ensures PairStart(n, a) <= PairIndex(n, a, b) < PairStart(n, a + 1) <= Triangle(n)
  {
    PairStartComplement(n, a + 1);
  }

  lemma PairIndexInjective(n: nat, a: nat, b: nat, c: nat, d: nat)
    requires a < b < n && c < d < n && PairIndex(n, a, b) == PairIndex(n, c, d)
    ensures a == c && b == d
  {
    PairIndexInRange(n, a, b);
    PairIndexInRange(n, c, d);
    if a < c {
      PairStartMonotone(n, a + 1, c);
    } else if c < a {
      PairStartMonotone(n, c + 1, a);
    }
  }

  /** Every number below `Triangle(n)` is the number of a pair. */
  lemma {:induction false} PairOfIndex(n: nat, x: nat, top: nat) returns (a: nat, b: nat)
    requires top <= n && x < PairStart(n, top)
    ensures a < b < n && PairIndex(n, a, b) == x
  {
    if x < PairStart(n, top - 1) {
      a, b := PairOfIndex(n, x, top - 1);
    } else {
      a, b := top - 1, top + (x - PairStart(n, top - 1));
    }
  }
}
