/**
 * The rows of the gluing matrix as data: what one node, one interval and one domain contribute,
 * and which of these terms meet in a row and in a column.
 */
module Glue {
  import opened Basis
  import opened Pairs

  /** One nonzero of `B1` together with its scaling weight in `B1duplicity`. */
  datatype Term = Term(row: int, col: int, value: real, weight: real)

  /**
   * The e-th term of copy `k` of `n` copies of one degree of freedom: -1 for the pairs with the
   * lower copies, +1 for those with the higher ones. The pairs get the rows `base + 1 ..`.
   */
  function SlotTerm(n: nat, k: nat, base: int, col: int, w: seq<real>, e: nat): Term
    requires k < n == |w| && e < n - 1
  {
    if e < k then Term(base + PairIndex(n, e, k) + 1, col, -1.0, w[e])
    else Term(base + PairIndex(n, k, e + 1) + 1, col, 1.0, w[e + 1])
  }

  /** The first `m` terms of copy `k`. */
  function SlotTerms(n: nat, k: nat, base: int, col: int, w: seq<real>, m: nat): (r: seq<Term>)
    requires k < n == |w| && m < n
    ensures |r| == m
  {
    if m == 0 then [] else SlotTerms(n, k, base, col, w, m - 1) + [SlotTerm(n, k, base, col, w, m - 1)]
  }

  lemma {:induction false} SlotTermsAt(n: nat, k: nat, base: int, col: int, w: seq<real>, m: nat)
    requires k < n == |w| && m < n
    ensures forall e :: 0 <= e < m ==> SlotTerms(n, k, base, col, w, m)[e] == SlotTerm(n, k, base, col, w, e)
  {
    if m > 0 {
      SlotTermsAt(n, k, base, col, w, m - 1);
    }
  }

  /** The terms of copy `k` for all degrees of freedom of an interval, one after another. */
  function IntervalTerms(n: nat, k: nat, base: int, cols: seq<int>, ws: seq<seq<real>>): seq<Term>
    requires k < n && |cols| <= |ws| && forall c :: 0 <= c < |cols| ==> |ws[c]| == n
  {
    if cols == [] then [] else
      var c := |cols| - 1;
      IntervalTerms(n, k, base, cols[..c], ws) + SlotTerms(n, k, base + Multiple(Triangle(n), c), cols[c], ws[c], n - 1)
  }

  /** Of the terms `ts`, exactly number `e` lies in the row (none if there is no such number). */
  ghost predicate HitsOnly(ts: seq<Term>, row: int, e: int) {
    forall f :: 0 <= f < |ts| ==> (ts[f].row == row <==> f == e)
  }

  /** What a list of terms has in one row. */
  datatype Entry = Nothing | One(term: Term) | Many

  ghost function InRow(ts: seq<Term>, row: int): Entry {
    if HitsOnly(ts, row, -1) then Nothing
    else if e: nat :| e < |ts| && HitsOnly(ts, row, e) then One(ts[e])
    else Many
  }

  lemma InRowHit(ts: seq<Term>, row: int, e: int)
    requires HitsOnly(ts, row, e)
    ensures InRow(ts, row) == if 0 <= e < |ts| then One(ts[e]) else Nothing
  {
    if 0 <= e < |ts| {
      assert ts[e].row == row;
    } else {
      assert HitsOnly(ts, row, -1);
    }
  }

  ghost predicate RowsWithin(ts: seq<Term>, lo: int, hi: int) {
    forall e :: 0 <= e < |ts| ==> lo < ts[e].row <= hi
  }

  lemma InRowOutside(ts: seq<Term>, lo: int, hi: int, row: int)
    requires RowsWithin(ts, lo, hi) && (row <= lo || hi < row)
    ensures InRow(ts, row) == Nothing
  {
    InRowHit(ts, row, -1);
  }

  /** Appending terms outside the row changes nothing in the row. */
  lemma InRowExtend(a: seq<Term>, b: seq<Term>, row: int)
    requires HitsOnly(b, row, -1)
    ensures InRow(a + b, row) == InRow(a, row) == InRow(b + a, row)
  {
    assert forall f {:trigger a[f]} :: 0 <= f < |a| ==> a[f] == (a + b)[f] == (b + a)[|b| + f];
    if e: int :| -1 <= e < |a| && HitsOnly(a, row, e) {
      assert HitsOnly(a + b, row, e);
      assert HitsOnly(b + a, row, if e == -1 then -1 else |b| + e);
      InRowHit(a, row, e);
      InRowHit(a + b, row, e);
      InRowHit(b + a, row, if e == -1 then -1 else |b| + e);
    } else {
      forall e: int | -1 <= e < |a + b|
        ensures !HitsOnly(a + b, row, e) && !HitsOnly(b + a, row, e)
      {
        assert HitsOnly(a + b, row, e) ==> HitsOnly(a, row, if e < |a| then e else -1);
        assert HitsOnly(b + a, row, e) ==> HitsOnly(a, row, if e < |b| then -1 else e - |b|);
      }
    }
  }

  /** Of two lists with consecutive row ranges, a row lies in one only. */
  lemma InRowOfParts(a: seq<Term>, b: seq<Term>, lo: int, mid: int, hi: int, row: int)
    requires RowsWithin(a, lo, mid) && RowsWithin(b, mid, hi)
    ensures row <= mid ==> InRow(a + b, row) == InRow(a, row)
    ensures mid < row ==> InRow(a + b, row) == InRow(b, row)
  {
    if row <= mid {
      InRowExtend(a, b, row);
    } else {
      InRowExtend(b, a, row);
    }
  }

  lemma {:induction false} FlattenMisses(pieces: seq<seq<Term>>, row: int)
    requires forall k :: 0 <= k < |pieces| ==> HitsOnly(pieces[k], row, -1)
    ensures HitsOnly(Flatten(pieces), row, -1)
  {
    if pieces != [] {
      FlattenMisses(pieces[..|pieces| - 1], row);
    }
  }

  /** Of concatenated pieces, a row met by one of them only is the row of that piece. */
  lemma {:induction false} FlattenInRow(pieces: seq<seq<Term>>, l: nat, row: int)
    requires l < |pieces| && forall k :: 0 <= k < |pieces| && k != l ==> HitsOnly(pieces[k], row, -1)
    ensures InRow(Flatten(pieces), row) == InRow(pieces[l], row)
    decreases |pieces|
  {
    var before, last := pieces[..|pieces| - 1], pieces[|pieces| - 1];
    if l == |pieces| - 1 {
      FlattenMisses(before, row);
      InRowExtend(last, Flatten(before), row);
    } else {
      FlattenInRow(before, l, row);
      InRowExtend(Flatten(before), last, row);
    }
  }

  /** What copy `k` has in the row of the pair `a < b`: +1 as the lower copy, -1 as the higher. */
  function PairTerm(k: nat, a: nat, b: nat, row: int, col: int, w: seq<real>): Entry
    requires a < b < |w|
  {
    if k == a then One(Term(row, col, 1.0, w[b])) else if k == b then One(Term(row, col, -1.0, w[a])) else Nothing
  }

  /** The position of the pair `a < b` among the terms of copy `k`. */
  function PairPosition(k: nat, a: nat, b: nat): int {
    if k == a then b - 1 else if k == b then a else -1
  }

  lemma SlotHits(n: nat, k: nat, base: int, col: int, w: seq<real>, a: nat, b: nat)
    requires k < n == |w| && a < b < n
    ensures HitsOnly(SlotTerms(n, k, base, col, w, n - 1), base + PairIndex(n, a, b) + 1, PairPosition(k, a, b))
  {
    SlotTermsAt(n, k, base, col, w, n - 1);
    forall e {:trigger SlotTerm(n, k, base, col, w, e)} | 0 <= e < n - 1
      ensures SlotTerm(n, k, base, col, w, e).row == base + PairIndex(n, a, b) + 1 <==> e == PairPosition(k, a, b)
    {
      SlotTermMatches(n, k, base, col, w, e, a, b);
    }
  }

  /** In the rows of one degree of freedom, copy `k` appears exactly for the pairs containing it. */
  lemma SlotInRow(n: nat, k: nat, base: int, col: int, w: seq<real>, a: nat, b: nat)
    requires k < n == |w| && a < b < n
    ensures var row := base + PairIndex(n, a, b) + 1;
      InRow(SlotTerms(n, k, base, col, w, n - 1), row) == PairTerm(k, a, b, row, col, w)
  {
    SlotHits(n, k, base, col, w, a, b);
    InRowHit(SlotTerms(n, k, base, col, w, n - 1), base + PairIndex(n, a, b) + 1, PairPosition(k, a, b));
    SlotTermsAt(n, k, base, col, w, n - 1);
  }

  lemma SlotTermMatches(n: nat, k: nat, base: int, col: int, w: seq<real>, e: nat, a: nat, b: nat)
    requires k < n == |w| && e < n - 1 && a < b < n
    ensures SlotTerm(n, k, base, col, w, e).row == base + PairIndex(n, a, b) + 1 <==> e == PairPosition(k, a, b)
  {
    if SlotTerm(n, k, base, col, w, e).row == base + PairIndex(n, a, b) + 1 {
      if e < k {
        PairIndexInjective(n, e, k, a, b);
      } else {
        PairIndexInjective(n, k, e + 1, a, b);
      }
    }
  }

  lemma SlotRows(n: nat, k: nat, base: int, col: int, w: seq<real>)
    requires k < n == |w|
    ensures RowsWithin(SlotTerms(n, k, base, col, w, n - 1), base, base + Triangle(n))
  {
    SlotTermsAt(n, k, base, col, w, n - 1);
    forall e {:trigger SlotTerm(n, k, base, col, w, e)} | 0 <= e < n - 1
      ensures base < SlotTerm(n, k, base, col, w, e).row <= base + Triangle(n)
    {
      if e < k {
        PairIndexInRange(n, e, k);
      } else {
        PairIndexInRange(n, k, e + 1);
      }
    }
  }

  lemma {:induction false} IntervalRows(n: nat, k: nat, base: int, cols: seq<int>, ws: seq<seq<real>>)
    requires k < n && |cols| <= |ws| && forall c :: 0 <= c < |cols| ==> |ws[c]| == n
    ensures RowsWithin(IntervalTerms(n, k, base, cols, ws), base, base + Multiple(Triangle(n), |cols|))
    decreases |cols|
  {
    if cols != [] {
      var c := |cols| - 1;
      IntervalRows(n, k, base, cols[..c], ws);
      SlotRows(n, k, base + Multiple(Triangle(n), c), cols[c], ws[c]);
    }
  }

  /** In the rows of degree of freedom `c` there are only the terms of `c`. */
  lemma {:induction false} IntervalInRow(n: nat, k: nat, base: int, cols: seq<int>, ws: seq<seq<real>>, c: nat, row: int)
    requires k < n && |cols| <= |ws| && forall x :: 0 <= x < |cols| ==> |ws[x]| == n
    requires c < |cols| && base + Multiple(Triangle(n), c) < row <= base + Multiple(Triangle(n), c + 1)
    ensures InRow(IntervalTerms(n, k, base, cols, ws), row) ==
      InRow(SlotTerms(n, k, base + Multiple(Triangle(n), c), cols[c], ws[c], n - 1), row)
    decreases |cols|
  {
    var l := |cols| - 1;
    var last := base + Multiple(Triangle(n), l);
    var before, slot := IntervalTerms(n, k, base, cols[..l], ws), SlotTerms(n, k, last, cols[l], ws[l], n - 1);
    IntervalRows(n, k, base, cols[..l], ws);
    SlotRows(n, k, last, cols[l], ws[l]);
    assert IntervalTerms(n, k, base, cols, ws) == before + slot;
    if c < l {
      MultipleMonotone(Triangle(n), c + 1, l);
      assert row <= last;
      IntervalInRow(n, k, base, cols[..l], ws, c, row);
    }
    InRowOfParts(before, slot, base, last, last + Triangle(n), row);
  }

  /** Rows of the Dirichlet conditions on the degrees of freedom before `dof`, for all `n` copies. */
  function FixedBefore(n: nat, cols: seq<seq<int>>, dof: nat): nat
    requires dof <= |cols|
  {
    if dof == 0 then 0 else FixedBefore(n, cols, dof - 1) + Multiple(|cols[dof - 1]|, n)
  }

  lemma {:induction false} FixedBeforeMonotone(n: nat, cols: seq<seq<int>>, d: nat, e: nat)
    requires d <= e <= |cols|
    ensures FixedBefore(n, cols, d) <= FixedBefore(n, cols, e)
    decreases e
  {
    if d < e {
      FixedBeforeMonotone(n, cols, d, e - 1);
    }
  }

  lemma {:induction false} FixedBeforeCovers(n: nat, cols: seq<seq<int>>, x: nat, top: nat) returns (dof: nat)
    requires top <= |cols| && x < FixedBefore(n, cols, top)
    ensures dof < top && FixedBefore(n, cols, dof) <= x < FixedBefore(n, cols, dof + 1)
  {
    if x < FixedBefore(n, cols, top - 1) {
      dof := FixedBeforeCovers(n, cols, x, top - 1);
    } else {
      dof := top - 1;
    }
  }

  lemma {:induction false} FixedBeforeLengths(n: nat, a: seq<seq<int>>, b: seq<seq<int>>, dof: nat)
    requires dof <= |a| == |b| && forall d :: 0 <= d < |a| ==> |a[d]| == |b[d]|
    ensures FixedBefore(n, a, dof) == FixedBefore(n, b, dof)
  {
    if dof > 0 {
      FixedBeforeLengths(n, a, b, dof - 1);
    }
  }

  /** Copy `k` of the first `m` conditions on one degree of freedom: one unit entry in each row. */
  function ConditionTerms(k: nat, base: int, cols: seq<int>, m: nat): (r: seq<Term>)
    requires m <= |cols|
    ensures |r| == m
  {
    if m == 0 then [] else
      ConditionTerms(k, base, cols, m - 1) + [Term(base + Multiple(|cols|, k) + m, cols[m - 1], 1.0, 1.0)]
  }

  lemma {:induction false} ConditionTermsAt(k: nat, base: int, cols: seq<int>, m: nat)
    requires m <= |cols|
    ensures forall j :: 0 <= j < m ==>
      ConditionTerms(k, base, cols, m)[j] == Term(base + Multiple(|cols|, k) + j + 1, cols[j], 1.0, 1.0)
  {
    if m > 0 {
      ConditionTermsAt(k, base, cols, m - 1);
    }
  }

  /** The Dirichlet terms of copy `k` on the degrees of freedom below `dof`. */
  function DirichletTerms(n: nat, k: nat, base: int, cols: seq<seq<int>>, dof: nat): seq<Term>
    requires dof <= |cols|
  {
    if dof == 0 then [] else
      DirichletTerms(n, k, base, cols, dof - 1) +
      ConditionTerms(k, base + FixedBefore(n, cols, dof - 1), cols[dof - 1], |cols[dof - 1]|)
  }

  lemma ConditionRows(n: nat, k: nat, base: int, cols: seq<int>)
    requires k < n
    ensures RowsWithin(ConditionTerms(k, base, cols, |cols|), base + Multiple(|cols|, k), base + Multiple(|cols|, k + 1))
    ensures RowsWithin(ConditionTerms(k, base, cols, |cols|), base, base + Multiple(|cols|, n))
  {
    ConditionTermsAt(k, base, cols, |cols|);
    MultipleMonotone(|cols|, k + 1, n);
  }

  lemma {:induction false} DirichletRows(n: nat, k: nat, base: int, cols: seq<seq<int>>, dof: nat)
    requires k < n && dof <= |cols|
    ensures RowsWithin(DirichletTerms(n, k, base, cols, dof), base, base + FixedBefore(n, cols, dof))
  {
    if dof > 0 {
      DirichletRows(n, k, base, cols, dof - 1);
      ConditionRows(n, k, base + FixedBefore(n, cols, dof - 1), cols[dof - 1]);
    }
  }

  /** In the rows of the conditions on `dof` there are only the terms of `dof`. */
  lemma {:induction false} DirichletInRow(n: nat, k: nat, base: int, cols: seq<seq<int>>, top: nat, dof: nat, row: int)
    requires k < n && dof < top <= |cols|
    requires base + FixedBefore(n, cols, dof) < row <= base + FixedBefore(n, cols, dof + 1)
    ensures InRow(DirichletTerms(n, k, base, cols, top), row) ==
      InRow(ConditionTerms(k, base + FixedBefore(n, cols, dof), cols[dof], |cols[dof]|), row)
    decreases top
  {
    var l := top - 1;
    var last := base + FixedBefore(n, cols, l);
    var before, condition := DirichletTerms(n, k, base, cols, l), ConditionTerms(k, last, cols[l], |cols[l]|);
    DirichletRows(n, k, base, cols, l);
    ConditionRows(n, k, last, cols[l]);
    assert DirichletTerms(n, k, base, cols, top) == before + condition;
    if dof < l {
      FixedBeforeMonotone(n, cols, dof + 1, l);
      assert row <= last;
      DirichletInRow(n, k, base, cols, l, dof, row);
    }
    InRowOfParts(before, condition, base, last, last + Multiple(|cols[l]|, n), row);
  }

  /** The row of the j-th condition for copy `a` holds one unit entry, that of copy `a`. */
  lemma ConditionInRow(n: nat, k: nat, base: int, cols: seq<int>, a: nat, j: nat, row: int)
    requires k < n && a < n && j < |cols| && row == base + Multiple(|cols|, a) + j + 1
    ensures InRow(ConditionTerms(k, base, cols, |cols|), row) == if k == a then One(Term(row, cols[j], 1.0, 1.0)) else Nothing
  {
    var ts := ConditionTerms(k, base, cols, |cols|);
    ConditionTermsAt(k, base, cols, |cols|);
    if k == a {
      assert HitsOnly(ts, row, j);
      InRowHit(ts, row, j);
    } else {
      ConditionRows(n, k, base, cols);
      MultipleMonotone(|cols|, if k < a then k + 1 else a + 1, if k < a then a else k);
      InRowOutside(ts, base + Multiple(|cols|, k), base + Multiple(|cols|, k + 1), row);
    }
  }

  /** The row of the j-th condition on `dof` for copy `a`, over all Dirichlet terms of copy `k`. */
  lemma DirichletEntry(n: nat, k: nat, base: int, cols: seq<seq<int>>, dof: nat, a: nat, j: nat, row: int)
    requires k < n && a < n && dof < |cols| && j < |cols[dof]|
    requires row == base + FixedBefore(n, cols, dof) + Multiple(|cols[dof]|, a) + j + 1
    ensures InRow(DirichletTerms(n, k, base, cols, |cols|), row) ==
      if k == a then One(Term(row, cols[dof][j], 1.0, 1.0)) else Nothing
  {
    MultipleMonotone(|cols[dof]|, a + 1, n);
    DirichletInRow(n, k, base, cols, |cols|, dof, row);
    ConditionInRow(n, k, base + FixedBefore(n, cols, dof), cols[dof], a, j, row);
  }
}
