/**
 * Non-redundant multipliers: neighbouring copies are linked in a chain. The source advances the
 * rows by one for each node although a node of `n` copies needs `n - 1` of them, and steps the
 * Dirichlet rows by all copies although rows are allocated for one. Both are sound on some
 * inputs only; the lemmas say on which.
 */
module NonRedundant {
  import opened Basis
  import opened Glue

  /** The row of the link between the copies `k` and `k + 1` of node `lm`, as `nonredundantglue` computes it. */
  function LinkRow(offset: int, n: nat, isize: nat, dof: nat, lm: nat, k: nat): int
    requires n > 0
  {
    offset + Multiple(n - 1, Multiple(isize, dof)) + lm + k + 1
  }

  /** The terms of copy `dindex` for the first `m` nodes of a degree of freedom. */
  function LinkTerms(index: int, n: nat, dindex: nat, cols: seq<int>, m: nat): seq<Term>
    requires dindex < n && m <= |cols|
  {
    if m == 0 then [] else
      LinkTerms(index, n, dindex, cols, m - 1) +
      (if dindex > 0 then [Term(index + dindex + (m - 1), cols[m - 1], -1.0, 1.0 / n as real)] else []) +
      (if dindex + 1 < n then [Term(index + dindex + 1 + (m - 1), cols[m - 1], 1.0, 1.0 / n as real)] else [])
  }

  /** `nonredundantglue` on one degree of freedom; `counter` is `dof * isize`. */
  method NonRedundantGlue(offset: int, n: nat, dindex: nat, cols: seq<int>, counter: nat) returns (ts: seq<Term>, next: nat)
    requires dindex < n
    ensures ts == LinkTerms(offset + Multiple(n - 1, counter), n, dindex, cols, |cols|)
    ensures next == counter + |cols|
  {
    ts, next := [], counter;
    var index := offset + Multiple(n - 1, counter);
    for lm := 0 to |cols|
      invariant ts == LinkTerms(index, n, dindex, cols, lm) && next == counter + lm
    {
      if dindex > 0 {
        ts := ts + [Term(index + dindex + lm, cols[lm], -1.0, 1.0 / n as real)];
      }
      if dindex + 1 < n {
        ts := ts + [Term(index + dindex + 1 + lm, cols[lm], 1.0, 1.0 / n as real)];
      }
      next := next + 1;
    }
  }

  /** The two copies of a link meet in its row: +1 for the lower one, -1 for the higher one. */
  lemma {:induction false} LinkMeets(offset: int, n: nat, isize: nat, dof: nat, cols: seq<int>, k: nat, lm: nat, m: nat)
    requires k + 1 < n && lm < m <= |cols| == isize
    ensures var index, row := offset + Multiple(n - 1, Multiple(isize, dof)), LinkRow(offset, n, isize, dof, lm, k);
      Term(row, cols[lm], 1.0, 1.0 / n as real) in LinkTerms(index, n, k, cols, m) &&
      Term(row, cols[lm], -1.0, 1.0 / n as real) in LinkTerms(index, n, k + 1, cols, m)
    decreases m
  {
    if lm < m - 1 {
      LinkMeets(offset, n, isize, dof, cols, k, lm, m - 1);
    }
  }

  /** What copy `dindex` has in a list of its terms: nothing but the two links it belongs to. */
  ghost predicate OnlyLinks(ts: seq<Term>, offset: int, n: nat, isize: nat, dof: nat, dindex: nat, cols: seq<int>) {
    forall t :: t in ts ==> exists lm: nat :: lm < isize == |cols| && LinkTermOf(t, offset, n, isize, dof, dindex, cols, lm)
  }

  ghost predicate LinkTermOf(t: Term, offset: int, n: nat, isize: nat, dof: nat, dindex: nat, cols: seq<int>, lm: nat)
    requires lm < |cols|
  {
    || (dindex > 0 && n > 0 && t == Term(LinkRow(offset, n, isize, dof, lm, dindex - 1), cols[lm], -1.0, 1.0 / n as real))
    || (dindex + 1 < n && t == Term(LinkRow(offset, n, isize, dof, lm, dindex), cols[lm], 1.0, 1.0 / n as real))
  }

  /** Every term of a copy belongs to the link with its left or with its right neighbour. */
  lemma {:induction false} LinkTermsOnly(offset: int, n: nat, isize: nat, dof: nat, dindex: nat, cols: seq<int>, m: nat)
    requires dindex < n && m <= |cols| == isize
    ensures OnlyLinks(LinkTerms(offset + Multiple(n - 1, Multiple(isize, dof)), n, dindex, cols, m), offset, n, isize, dof, dindex, cols)
  {
    if m > 0 {
      var index := offset + Multiple(n - 1, Multiple(isize, dof));
      LinkTermsOnly(offset, n, isize, dof, dindex, cols, m - 1);
      forall t | t in LinkTerms(index, n, dindex, cols, m) && t !in LinkTerms(index, n, dindex, cols, m - 1)
        ensures LinkTermOf(t, offset, n, isize, dof, dindex, cols, m - 1)
      {
      }
    }
  }

  /**
   * With rows of its own, a link has exactly its two entries: a term of any copy in its row is the
   * +1 of its lower or the -1 of its higher copy, on its own node.
   */
  lemma LinkHasTwoEntries(offset: int, n: nat, isize: nat, dofs: nat, dof: nat, lm: nat, k: nat, e: nat, dindex: nat, cols: seq<int>, t: Term)
    requires (n <= 2 || isize <= 1) && IsLink(n, isize, dofs, dof, lm, k) && e < dofs && dindex < n && |cols| == isize
    requires t in LinkTerms(offset + Multiple(n - 1, Multiple(isize, e)), n, dindex, cols, isize)
    requires t.row == LinkRow(offset, n, isize, dof, lm, k)
    ensures e == dof && ((t == Term(t.row, cols[lm], 1.0, 1.0 / n as real) && dindex == k) ||
      (t == Term(t.row, cols[lm], -1.0, 1.0 / n as real) && dindex == k + 1))
  {
    LinkTermsOnly(offset, n, isize, e, dindex, cols, isize);
    var m: nat :| m < isize && LinkTermOf(t, offset, n, isize, e, dindex, cols, m);
    DistinctLinksIff(offset, n, isize, dofs);
    if dindex > 0 && t.row == LinkRow(offset, n, isize, e, m, dindex - 1) && t.value == -1.0 {
      assert IsLink(n, isize, dofs, e, m, dindex - 1);
    } else {
      assert IsLink(n, isize, dofs, e, m, dindex);
    }
  }

  /** No two links of an interval share a row. */
  ghost predicate DistinctLinks(offset: int, n: nat, isize: nat, dofs: nat) {
    forall d, l, k, e, m, j :: IsLink(n, isize, dofs, d, l, k) && IsLink(n, isize, dofs, e, m, j) ==>
      LinkRow(offset, n, isize, d, l, k) == LinkRow(offset, n, isize, e, m, j) ==> d == e && l == m && k == j
  }

  predicate IsLink(n: nat, isize: nat, dofs: nat, dof: nat, lm: nat, k: nat) {
    dof < dofs && lm < isize && k + 1 < n
  }

  /** The rows of the links of one node overlap those of the next as soon as there are two of both. */
  lemma LinkClash(offset: int, n: nat, isize: nat, dof: nat)
    requires n > 2 && isize > 1
    ensures LinkRow(offset, n, isize, dof, 0, 1) == LinkRow(offset, n, isize, dof, 1, 0)
  {
  }

  /** Three copies of two nodes: the link of copies 1 and 2 of node 0 and the link of copies 0 and 1 of node 1. */
  lemma LinkCounterexample()
    ensures LinkRow(0, 3, 2, 0, 0, 1) == 2 == LinkRow(0, 3, 2, 0, 1, 0)
    ensures !DistinctLinks(0, 3, 2, 1)
  {
    assert IsLink(3, 2, 1, 0, 0, 1) && IsLink(3, 2, 1, 0, 1, 0);
    LinkClash(0, 3, 2, 0);
  }

  /** Rows used by one degree of freedom stay inside its share. */
  lemma LinkInShare(offset: int, n: nat, isize: nat, dof: nat, lm: nat, k: nat)
    requires lm < isize && k + 1 < n && (n <= 2 || isize <= 1)
    ensures offset + Multiple(n - 1, Multiple(isize, dof)) < LinkRow(offset, n, isize, dof, lm, k)
    ensures LinkRow(offset, n, isize, dof, lm, k) <= offset + Multiple(n - 1, Multiple(isize, dof + 1))
  {
    MultipleIsProduct(n - 1, Multiple(isize, dof));
    MultipleIsProduct(n - 1, Multiple(isize, dof + 1));
    assert Multiple(isize, dof + 1) * (n - 1) == Multiple(isize, dof) * (n - 1) + isize * (n - 1);
    if n <= 2 {
      assert isize * (n - 1) == isize;
    } else {
      assert isize * (n - 1) == n - 1;
    }
  }

  lemma LinksApart(offset: int, n: nat, isize: nat, d: nat, l: nat, k: nat, e: nat, m: nat, j: nat)
    requires l < isize && k + 1 < n && m < isize && j + 1 < n && (n <= 2 || isize <= 1) && d < e
    ensures LinkRow(offset, n, isize, d, l, k) < LinkRow(offset, n, isize, e, m, j)
  {
    LinkInShare(offset, n, isize, d, l, k);
    LinkInShare(offset, n, isize, e, m, j);
    MultipleMonotone(isize, d + 1, e);
    MultipleMonotone(n - 1, Multiple(isize, d + 1), Multiple(isize, e));
  }

  /** Exactly when the numbering of the source gives every link a row of its own. */
  lemma DistinctLinksIff(offset: int, n: nat, isize: nat, dofs: nat)
    requires dofs > 0
    ensures DistinctLinks(offset, n, isize, dofs) <==> n <= 2 || isize <= 1
  {
    if n <= 2 || isize <= 1 {
      forall d: nat, l: nat, k: nat, e: nat, m: nat, j: nat | IsLink(n, isize, dofs, d, l, k) && IsLink(n, isize, dofs, e, m, j) &&
        LinkRow(offset, n, isize, d, l, k) == LinkRow(offset, n, isize, e, m, j)
        ensures d == e && l == m && k == j
      {
        if d < e {
          LinksApart(offset, n, isize, d, l, k, e, m, j);
        } else if e < d {
          LinksApart(offset, n, isize, e, m, j, d, l, k);
        }
      }
    } else {
      assert IsLink(n, isize, dofs, 0, 0, 1) && IsLink(n, isize, dofs, 0, 1, 0);
      LinkClash(offset, n, isize, 0);
    }
  }

  /** Conditions below `dof`: the rows allocated for them, one for each node whatever the copies. */
  function Allocated(counts: seq<nat>, dof: nat): nat
    requires dof <= |counts|
  {
    Prefix(counts, dof)
  }

  /** Where `B1DirichletInsert` puts the j-th condition on `dof`, relative to the interval's offset (one-based). */
  function InsertedRow(n: nat, counts: seq<nat>, dof: nat, j: nat): nat
    requires dof < |counts|
  {
    Multiple(n, Prefix(counts, dof)) + j + 1
  }

  /** The offset `LMoffset` really is that multiple: it grows by `ndomains * size` per degree of freedom. */
  method DirichletOffsets(n: nat, counts: seq<nat>) returns (offsets: seq<nat>)
    ensures |offsets| == |counts|
    ensures forall dof, j :: 0 <= dof < |counts| && 0 <= j < counts[dof] ==> offsets[dof] + j + 1 == InsertedRow(n, counts, dof, j)
  {
    offsets := [];
    var LMoffset := 0;
    for dof := 0 to |counts|
      invariant |offsets| == dof && LMoffset == Multiple(n, Prefix(counts, dof))
      invariant forall d :: 0 <= d < dof ==> offsets[d] == Multiple(n, Prefix(counts, d))
    {
      offsets := offsets + [LMoffset];
      MultipleSum(n, Prefix(counts, dof), counts[dof]);
      LMoffset := LMoffset + Multiple(n, counts[dof]);
    }
  }

  lemma {:induction false} MultipleSum(step: nat, a: nat, b: nat)
    ensures Multiple(step, a + b) == Multiple(step, a) + Multiple(step, b)
  {
    if b > 0 {
      MultipleSum(step, a, b - 1);
    }
  }

  ghost predicate InsertedAsAllocated(n: nat, counts: seq<nat>) {
    forall dof, j :: 0 <= dof < |counts| && 0 <= j < counts[dof] ==> InsertedRow(n, counts, dof, j) == Allocated(counts, dof) + j + 1
  }

  ghost predicate InsertedInRange(n: nat, counts: seq<nat>) {
    forall dof, j :: 0 <= dof < |counts| && 0 <= j < counts[dof] ==> InsertedRow(n, counts, dof, j) <= Prefix(counts, |counts|)
  }

  /** At most one degree of freedom has conditions. */
  predicate OneDof(counts: seq<nat>) {
    forall d, e :: 0 <= d < e < |counts| ==> counts[d] == 0 || counts[e] == 0
  }

  lemma {:induction false} PrefixPositive(counts: seq<nat>, dof: nat) returns (d: nat)
    requires dof <= |counts| && Prefix(counts, dof) > 0
    ensures d < dof && counts[d] > 0
  {
    if counts[dof - 1] > 0 {
      d := dof - 1;
    } else {
      d := PrefixPositive(counts, dof - 1);
    }
  }

  lemma {:induction false} PrefixOfZeros(counts: seq<nat>, from: nat, dof: nat)
    requires from <= dof <= |counts| && forall d :: from <= d < dof ==> counts[d] == 0
    ensures Prefix(counts, dof) == Prefix(counts, from)
    decreases dof
  {
    if from < dof {
      PrefixOfZeros(counts, from, dof - 1);
    }
  }

  lemma LastWithConditions(counts: seq<nat>, e: nat) returns (l: nat)
    requires e < |counts| && counts[e] > 0
    ensures e <= l < |counts| && counts[l] > 0 && forall d :: l < d < |counts| ==> counts[d] == 0
    decreases |counts| - e
  {
    if d :| e < d < |counts| && counts[d] > 0 {
      l := LastWithConditions(counts, d);
    } else {
      l := e;
    }
  }

  lemma MultipleExceeds(n: nat, x: nat)
    requires n > 1 && x > 0
    ensures Multiple(n, x) > x
  {
    MultipleIsProduct(n, x);
    assert x * n >= x * 2;
  }

  /** With conditions on two degrees of freedom and several copies, the last row is beyond the allocated ones. */
  lemma InsertedBeyond(n: nat, counts: seq<nat>, d: nat, e: nat)
    requires n > 1 && d < e < |counts| && counts[d] > 0 && counts[e] > 0
    ensures !InsertedInRange(n, counts)
  {
    var l := LastWithConditions(counts, e);
    PrefixMonotone(counts, d + 1, l);
    MultipleExceeds(n, Prefix(counts, l));
    PrefixOfZeros(counts, l + 1, |counts|);
    assert InsertedRow(n, counts, l, counts[l] - 1) > Prefix(counts, |counts|);
  }

  /**
   * Exactly when the Dirichlet rows the domains insert are the rows allocated for them (and
   * listed in the clusters map), and exactly when they stay in the interval's range at all.
   */
  lemma InsertedIff(n: nat, counts: seq<nat>)
    requires n > 0
    ensures InsertedInRange(n, counts) <==> n == 1 || OneDof(counts)
    ensures InsertedAsAllocated(n, counts) <==> n == 1 || OneDof(counts)
  {
    if n == 1 || OneDof(counts) {
      forall dof, j | 0 <= dof < |counts| && 0 <= j < counts[dof]
        ensures InsertedRow(n, counts, dof, j) == Allocated(counts, dof) + j + 1 <= Prefix(counts, |counts|)
      {
        MultipleIsProduct(n, Prefix(counts, dof));
        if Prefix(counts, dof) > 0 {
          var d := PrefixPositive(counts, dof);
        }
        PrefixMonotone(counts, dof + 1, |counts|);
      }
    } else {
      var d, e :| 0 <= d < e < |counts| && counts[d] != 0 && counts[e] != 0;
      InsertedBeyond(n, counts, d, e);
      PrefixMonotone(counts, d + 1, e);
      MultipleExceeds(n, Prefix(counts, e));
      assert InsertedRow(n, counts, e, 0) != Allocated(counts, e) + 1;
    }
  }

  /** Two copies, one condition on each of two degrees of freedom: two rows allocated, row 3 inserted. */
  lemma InsertedCounterexample()
    ensures Prefix([1, 1], 2) == 2 && InsertedRow(2, [1, 1], 1, 0) == 3
    ensures !InsertedInRange(2, [1, 1]) && !InsertedAsAllocated(2, [1, 1])
  {
    assert Prefix([1, 1], 1) == 1 && Multiple(2, 1) == 2;
    assert InsertedRow(2, [1, 1], 1, 0) != Allocated([1, 1], 1) + 0 + 1;
  }
}
