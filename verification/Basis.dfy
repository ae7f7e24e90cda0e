/** Sequence vocabulary shared by the models: prefix sums, flattening, ordered search. */
module Basis {

  /** Sum of the first `k` sizes: what a running offset holds before position `k`. */
  function Prefix(s: seq<nat>, k: nat): (r: nat)
    requires k <= |s|
  {
    if k == 0 then 0 else Prefix(s, k - 1) + s[k - 1]
  }

  lemma {:induction false} PrefixMonotone(s: seq<nat>, j: nat, k: nat)
    requires j <= k <= |s|
    ensures Prefix(s, j) <= Prefix(s, k)
    decreases k
  {
    if j < k {
      PrefixMonotone(s, j, k - 1);
    }
  }

  /** Pieces of a prefix-summed distribution do not overlap. */
  lemma {:induction false} PrefixDisjoint(s: seq<nat>, j: nat, k: nat)
    requires j < |s| && k < |s| && j != k
    ensures Prefix(s, j) + s[j] <= Prefix(s, k) || Prefix(s, k) + s[k] <= Prefix(s, j)
  {
    if j < k {
      PrefixMonotone(s, j + 1, k);
    } else {
      PrefixMonotone(s, k + 1, j);
    }
  }

  /** Prefix sums cut [0, total) into consecutive pieces: every value lies in one of them. */
  lemma {:induction false} PrefixCovers(s: seq<nat>, x: nat, n: nat) returns (k: nat)
    requires n <= |s| && x < Prefix(s, n)
    ensures k < n && Prefix(s, k) <= x < Prefix(s, k) + s[k]
  {
    if x < Prefix(s, n - 1) {
      k := PrefixCovers(s, x, n - 1);
    } else {
      k := n - 1;
    }
  }

  /** `count * step`, the start of block number `count`. */
  function Multiple(step: nat, count: nat): nat {
    if count == 0 then 0 else Multiple(step, count - 1) + step
  }

  lemma {:induction false} MultipleIsProduct(step: nat, count: nat)
    ensures Multiple(step, count) == count * step
  {
    if count > 0 {
      MultipleIsProduct(step, count - 1);
      assert count * step == (count - 1) * step + step;
    }
  }

  lemma {:induction false} MultipleMonotone(step: nat, c: nat, d: nat)
    requires c <= d
    ensures Multiple(step, c) <= Multiple(step, d)
    decreases d
  {
    if c < d {
      MultipleMonotone(step, c, d - 1);
    }
  }

  /** Blocks of equal length: the block holding `x`. */
  lemma {:induction false} MultipleCovers(step: nat, x: nat, n: nat) returns (c: nat)
    requires x < Multiple(step, n)
    ensures c < n && Multiple(step, c) <= x < Multiple(step, c + 1)
  {
    if x < Multiple(step, n - 1) {
      c := MultipleCovers(step, x, n - 1);
    } else {
      c := n - 1;
    }
  }

  /** The concatenation of per-thread (or per-process) vectors. */
  function Flatten<T>(ss: seq<seq<T>>): seq<T> {
    if ss == [] then [] else Flatten(ss[..|ss| - 1]) + ss[|ss| - 1]
  }

  lemma FlattenNext<T>(ss: seq<seq<T>>, k: nat)
    requires k < |ss|
    ensures Flatten(ss[..k + 1]) == Flatten(ss[..k]) + ss[k]
  {
    assert ss[..k + 1][..k] == ss[..k] && ss[..k + 1] != [];
  }

  lemma FlattenNothing<T>()
    ensures Flatten<T>([]) == []
  {
  }

  lemma ConcatAssociative<T>(a: seq<T>, b: seq<T>, c: seq<T>)
    ensures (a + b) + c == a + (b + c)
  {
  }

  lemma ConcatExtend<T>(a: seq<T>, b: seq<T>, c: seq<T>, d: seq<T>)
    requires b == c + d
    ensures a + b == (a + c) + d
  {
  }

  lemma SliceJoin<T>(s: seq<T>, a: nat, b: nat, c: nat)
    requires a <= b <= c <= |s|
    ensures s[a..b] + s[b..c] == s[a..c]
  {
  }

  lemma DropLastAppend<T>(a: seq<T>, b: seq<T>)
    requires b != []
    ensures (a + b)[..|a + b| - 1] == a + b[..|b| - 1]
    ensures (a + b)[|a + b| - 1] == b[|b| - 1]
  {
  }

  ghost predicate Increasing(s: seq<int>) {
    forall i, j :: 0 <= i < j < |s| ==> s[i] < s[j]
  }

  ghost predicate Sorted(s: seq<int>) {
    forall i, j :: 0 <= i < j < |s| ==> s[i] <= s[j]
  }

  ghost predicate Distinct<T>(s: seq<T>) {
    forall i, j :: 0 <= i < j < |s| ==> s[i] != s[j]
  }

  predicate IsLowerBound(s: seq<int>, x: int, r: nat) {
    && r <= |s|
    && (forall j :: 0 <= j < r ==> s[j] < x)
    && (r < |s| ==> x <= s[r])
  }

  lemma {:induction false} LowerBoundExists(s: seq<int>, x: int, from: nat) returns (r: nat)
    requires from <= |s| && forall j :: 0 <= j < from ==> s[j] < x
    ensures IsLowerBound(s, x, r)
    decreases |s| - from
  {
    if from == |s| || x <= s[from] {
      r := from;
    } else {
      r := LowerBoundExists(s, x, from + 1);
    }
  }

  /** `std::lower_bound`: the first position holding a value not below `x`. */
  function LowerBound(s: seq<int>, x: int): (r: nat)
    ensures IsLowerBound(s, x, r)
  {
    assert exists r: nat :: IsLowerBound(s, x, r) by { var r := LowerBoundExists(s, x, 0); }
    var r: nat :| IsLowerBound(s, x, r); r
  }

  lemma OneLowerBound(s: seq<int>, x: int, a: nat, b: nat)
    requires IsLowerBound(s, x, a) && IsLowerBound(s, x, b)
    ensures a == b
  {
  }

  lemma BoundsInOrder(s: seq<int>, lo: int, hi: int)
    requires lo <= hi
    ensures LowerBound(s, lo) <= LowerBound(s, hi)
  {
  }

  lemma LowerBoundOfZero(s: seq<nat>)
    ensures LowerBound(s, 0) == 0
  {
    OneLowerBound(s, 0, 0, LowerBound(s, 0));
  }

  /** A walk from one lower bound to the first value not below `x`. */
  lemma CutFound(s: seq<int>, lo: int, x: int, begin: nat, n: nat)
    requires lo <= x && begin == LowerBound(s, lo) && begin <= n <= |s| && (n < |s| ==> s[n] >= x)
    requires forall i :: begin <= i < n ==> s[i] < x
    ensures n == LowerBound(s, x)
  {
    OneLowerBound(s, x, n, LowerBound(s, x));
  }

  /** In a sorted distribution, `lower_bound(x + 1) - 1` is the piece holding `x`. */
  lemma LowerBoundBetween(s: seq<int>, x: int, p: nat)
    requires Sorted(s) && p + 1 < |s| && s[p] <= x < s[p + 1]
    ensures LowerBound(s, x + 1) == p + 1
  {
  }

  /** Where `x` stands in `s`. */
  ghost function IndexOf<T>(s: seq<T>, x: T): (r: nat)
    requires x in s
    ensures r < |s| && s[r] == x
  {
    var r: nat :| r < |s| && s[r] == x; r
  }
}
