/**
 * `B1` as an operator: rows applied to the values of all copies, and its weighted transpose.
 */
module Operators {
  import opened Basis
  import opened Pairs
  import opened Glue

  /** A value for every column of every domain. */
  type Field = (nat, int) -> real

  ghost function TotalOf(ts: seq<Term>, f: Term -> real): real {
    if ts == [] then 0.0 else TotalOf(ts[..|ts| - 1], f) + f(ts[|ts| - 1])
  }

  lemma {:induction false} TotalOfAppend(a: seq<Term>, b: seq<Term>, f: Term -> real)
    ensures TotalOf(a + b, f) == TotalOf(a, f) + TotalOf(b, f)
    decreases |b|
  {
    if b == [] {
      assert a + b == a;
    } else {
      DropLastAppend(a, b);
      TotalOfAppend(a, b[..|b| - 1], f);
    }
  }

  lemma {:induction false} TotalOfValues(ts: seq<Term>, f: Term -> real, x: seq<real>)
    requires |x| == |ts| && forall e :: 0 <= e < |ts| ==> f(ts[e]) == x[e]
    ensures TotalOf(ts, f) == SumAll(x)
  {
    if ts != [] {
      TotalOfValues(ts[..|ts| - 1], f, x[..|x| - 1]);
      SumOfPrefix(x, |x| - 1, |x| - 1);
    }
  }

  lemma {:induction false} TotalOfZeros(ts: seq<Term>, f: Term -> real)
    requires forall e :: 0 <= e < |ts| ==> f(ts[e]) == 0.0
    ensures TotalOf(ts, f) == 0.0
  {
    if ts != [] {
      TotalOfZeros(ts[..|ts| - 1], f);
    }
  }

  lemma {:induction false} TotalOfOne(ts: seq<Term>, f: Term -> real, e: nat)
    requires e < |ts| && forall g :: 0 <= g < |ts| && g != e ==> f(ts[g]) == 0.0
    ensures TotalOf(ts, f) == f(ts[e])
    decreases |ts|
  {
    if e == |ts| - 1 {
      TotalOfZeros(ts[..e], f);
    } else {
      TotalOfOne(ts[..|ts| - 1], f, e);
    }
  }

  /** Of concatenated pieces, only piece `l` (if any) contributes. */
  lemma {:induction false} TotalOfPieces(pieces: seq<seq<Term>>, l: int, f: Term -> real)
    requires forall k :: 0 <= k < |pieces| && k != l ==> TotalOf(pieces[k], f) == 0.0
    ensures TotalOf(Flatten(pieces), f) == if 0 <= l < |pieces| then TotalOf(pieces[l], f) else 0.0
  {
    if pieces != [] {
      TotalOfPieces(pieces[..|pieces| - 1], l, f);
      TotalOfAppend(Flatten(pieces[..|pieces| - 1]), pieces[|pieces| - 1], f);
    }
  }

  /** The part of a term in the row of `B * u`, on domain `d`. */
  ghost function RowPart(row: int, u: Field, d: nat): Term -> real {
    (t: Term) => if t.row == row then t.value * u(d, t.col) else 0.0
  }

  function EntryValue(e: Entry, u: Field, d: nat): real {
    match e
    case One(t) => t.value * u(d, t.col)
    case _ => 0.0
  }

  /** A row with at most one entry is that entry. */
  lemma RowOfEntry(ts: seq<Term>, row: int, u: Field, d: nat)
    requires !InRow(ts, row).Many?
    ensures TotalOf(ts, RowPart(row, u, d)) == EntryValue(InRow(ts, row), u, d)
  {
    if HitsOnly(ts, row, -1) {
      TotalOfZeros(ts, RowPart(row, u, d));
    } else {
      var e: nat :| e < |ts| && HitsOnly(ts, row, e);
      InRowHit(ts, row, e);
      TotalOfOne(ts, RowPart(row, u, d), e);
      assert ts[e].row == row;
    }
  }

  /** The part of a term in one column of the weighted transpose applied to `lambda`. */
  ghost function ColumnPart(col: int, lambda: int -> real): Term -> real {
    (t: Term) => if t.col == col then t.value * t.weight * lambda(t.row) else 0.0
  }

  ghost predicate Avoids(ts: seq<Term>, col: int) {
    forall e :: 0 <= e < |ts| ==> ts[e].col != col
  }

  lemma ColumnMiss(ts: seq<Term>, col: int, lambda: int -> real)
    requires Avoids(ts, col)
    ensures TotalOf(ts, ColumnPart(col, lambda)) == 0.0
  {
    TotalOfZeros(ts, ColumnPart(col, lambda));
  }

  lemma {:induction false} SlotAvoids(n: nat, k: nat, base: int, col: int, w: seq<real>, m: nat, other: int)
    requires k < n == |w| && m < n && other != col
    ensures Avoids(SlotTerms(n, k, base, col, w, m), other)
  {
    if m > 0 {
      SlotAvoids(n, k, base, col, w, m - 1, other);
    }
  }

  lemma {:induction false} IntervalAvoids(n: nat, k: nat, base: int, cols: seq<int>, ws: seq<seq<real>>, other: int)
    requires k < n && |cols| <= |ws| && forall c :: 0 <= c < |cols| ==> |ws[c]| == n
    requires other !in cols
    ensures Avoids(IntervalTerms(n, k, base, cols, ws), other)
  {
    if cols != [] {
      var c := |cols| - 1;
      IntervalAvoids(n, k, base, cols[..c], ws, other);
      SlotAvoids(n, k, base + Multiple(Triangle(n), c), cols[c], ws[c], n - 1, other);
    }
  }

  lemma {:induction false} ConditionAvoids(k: nat, base: int, cols: seq<int>, m: nat, other: int)
    requires m <= |cols| && other !in cols
    ensures Avoids(ConditionTerms(k, base, cols, m), other)
  {
    if m > 0 {
      ConditionAvoids(k, base, cols, m - 1, other);
    }
  }

  lemma {:induction false} DirichletAvoids(n: nat, k: nat, base: int, cols: seq<seq<int>>, top: nat, other: int)
    requires top <= |cols| && forall dof :: 0 <= dof < top ==> other !in cols[dof]
    ensures Avoids(DirichletTerms(n, k, base, cols, top), other)
  {
    if top > 0 {
      DirichletAvoids(n, k, base, cols, top - 1, other);
      ConditionAvoids(k, base + FixedBefore(n, cols, top - 1), cols[top - 1], |cols[top - 1]|, other);
    }
  }

  /** With distinct columns, a column of the conditions holds one of them. */
  lemma ConditionColumn(k: nat, base: int, cols: seq<int>, j: nat, lambda: int -> real, row: int)
    requires Distinct(cols) && j < |cols| && row == base + Multiple(|cols|, k) + j + 1
    ensures TotalOf(ConditionTerms(k, base, cols, |cols|), ColumnPart(cols[j], lambda)) == lambda(row)
  {
    ConditionTermsAt(k, base, cols, |cols|);
    TotalOfOne(ConditionTerms(k, base, cols, |cols|), ColumnPart(cols[j], lambda), j);
  }

  lemma {:induction false} DirichletColumn(n: nat, k: nat, base: int, cols: seq<seq<int>>, top: nat, dof: nat, col: int, lambda: int -> real)
    requires dof < top <= |cols| && forall e :: 0 <= e < top && e != dof ==> col !in cols[e]
    ensures TotalOf(DirichletTerms(n, k, base, cols, top), ColumnPart(col, lambda)) ==
      TotalOf(ConditionTerms(k, base + FixedBefore(n, cols, dof), cols[dof], |cols[dof]|), ColumnPart(col, lambda))
    decreases top
  {
    var l := top - 1;
    var last := base + FixedBefore(n, cols, l);
    var before, condition := DirichletTerms(n, k, base, cols, l), ConditionTerms(k, last, cols[l], |cols[l]|);
    assert DirichletTerms(n, k, base, cols, top) == before + condition;
    TotalOfAppend(before, condition, ColumnPart(col, lambda));
    if dof < l {
      DirichletColumn(n, k, base, cols, l, dof, col, lambda);
      ConditionAvoids(k, last, cols[l], |cols[l]|, col);
      ColumnMiss(condition, col, lambda);
    } else {
      DirichletAvoids(n, k, base, cols, l, col);
      ColumnMiss(before, col, lambda);
    }
  }

  /** Of all columns, `col` is only the j-th one of `dof`. */
  ghost predicate OnlyIn(cols: seq<seq<int>>, dof: nat, j: nat, col: int) {
    dof < |cols| && j < |cols[dof]| && cols[dof][j] == col && Distinct(cols[dof]) &&
    forall e :: 0 <= e < |cols| && e != dof ==> col !in cols[e]
  }

  lemma ColumnOfCondition(n: nat, k: nat, base: int, cols: seq<seq<int>>, dof: nat, j: nat, col: int, lambda: int -> real, row: int)
    requires OnlyIn(cols, dof, j, col) && row == base + FixedBefore(n, cols, dof) + Multiple(|cols[dof]|, k) + j + 1
    ensures TotalOf(DirichletTerms(n, k, base, cols, |cols|), ColumnPart(col, lambda)) == lambda(row)
  {
    DirichletColumn(n, k, base, cols, |cols|, dof, col, lambda);
    ConditionColumn(k, base + FixedBefore(n, cols, dof), cols[dof], j, lambda, row);
  }

  /** With distinct columns, a column of an interval collects the terms of one slot. */
  lemma {:induction false} IntervalColumn(n: nat, k: nat, base: int, cols: seq<int>, ws: seq<seq<real>>, c: nat, lambda: int -> real)
    requires k < n && |cols| <= |ws| && forall x :: 0 <= x < |cols| ==> |ws[x]| == n
    requires c < |cols| && Distinct(cols)
    ensures TotalOf(IntervalTerms(n, k, base, cols, ws), ColumnPart(cols[c], lambda)) ==
      TotalOf(SlotTerms(n, k, base + Multiple(Triangle(n), c), cols[c], ws[c], n - 1), ColumnPart(cols[c], lambda))
    decreases |cols|
  {
    var l := |cols| - 1;
    var last := base + Multiple(Triangle(n), l);
    var before, slot := IntervalTerms(n, k, base, cols[..l], ws), SlotTerms(n, k, last, cols[l], ws[l], n - 1);
    assert IntervalTerms(n, k, base, cols, ws) == before + slot;
    TotalOfAppend(before, slot, ColumnPart(cols[c], lambda));
    if c < l {
      IntervalColumn(n, k, base, cols[..l], ws, c, lambda);
      SlotAvoids(n, k, last, cols[l], ws[l], n - 1, cols[c]);
      ColumnMiss(slot, cols[c], lambda);
    } else {
      IntervalAvoids(n, k, base, cols[..l], ws, cols[c]);
      ColumnMiss(before, cols[c], lambda);
    }
  }

  function Sum(x: seq<real>, j: nat): real
    requires j <= |x|
  {
    if j == 0 then 0.0 else Sum(x, j - 1) + x[j - 1]
  }

  function SumAll(x: seq<real>): real {
    Sum(x, |x|)
  }

  lemma {:induction false} SumOfPrefix(x: seq<real>, l: nat, j: nat)
    requires j <= l <= |x|
    ensures Sum(x[..l], j) == Sum(x, j)
  {
    if j > 0 {
      SumOfPrefix(x, l, j - 1);
    }
  }

  /** Leaving out a zero does not change the sum. */
  lemma {:induction false} SumWithoutZero(x: seq<real>, k: nat, j: nat)
    requires k <= j < |x| && x[k] == 0.0
    ensures Sum(x[..k] + x[k + 1..], j) == Sum(x, j + 1)
    decreases j
  {
    var y := x[..k] + x[k + 1..];
    if j == k {
      assert y[..k] == x[..k];
      SumOfPrefix(x, k, k);
      SumOfPrefix(y, k, k);
    } else {
      SumWithoutZero(x, k, j - 1);
    }
  }

  function Products(w: seq<real>, v: seq<real>): (r: seq<real>)
    requires |w| == |v|
    ensures |r| == |w| && forall j :: 0 <= j < |w| ==> r[j] == w[j] * v[j]
  {
    seq(|w|, j requires 0 <= j < |w| => w[j] * v[j])
  }

  /** Weighted mean of the copies, for weights with sum one. */
  function Mean(w: seq<real>, v: seq<real>): real
    requires |w| == |v|
  {
    Sum(Products(w, v), |w|)
  }

  /** `lambda` holds the signed jumps between the copies `v` of one degree of freedom. */
  ghost predicate JumpsOf(n: nat, base: int, v: seq<real>, lambda: int -> real)
    requires |v| == n
  {
    forall a, b :: 0 <= a < b < n ==> JumpAt(base + PairIndex(n, a, b) + 1, v[a], v[b], lambda)
  }

  ghost predicate JumpAt(row: int, x: real, y: real, lambda: int -> real) {
    lambda(row) == x - y
  }

  /** Weighted distances of copy `k` from all copies. */
  function Gaps(w: seq<real>, v: seq<real>, k: nat): (r: seq<real>)
    requires k < |w| == |v|
    ensures |r| == |w| && forall j :: 0 <= j < |w| ==> r[j] == Gap(w[j], v[k], v[j])
  {
    seq(|w|, j requires 0 <= j < |w| => Gap(w[j], v[k], v[j]))
  }

  function Gap(w: real, x: real, y: real): real {
    w * (x - y)
  }

  lemma SignedJump(w: real, x: real, y: real)
    ensures 1.0 * w * (x - y) == Gap(w, x, y) && -1.0 * w * (y - x) == Gap(w, x, y) && Gap(w, x, x) == 0.0
  {
  }

  lemma JumpOfTerm(n: nat, k: nat, base: int, col: int, w: seq<real>, v: seq<real>, lambda: int -> real, e: nat)
    requires k < n == |w| == |v| && e < n - 1 && JumpsOf(n, base, v, lambda)
    ensures ColumnPart(col, lambda)(SlotTerm(n, k, base, col, w, e)) ==
      Gap(w[if e < k then e else e + 1], v[k], v[if e < k then e else e + 1])
  {
    if e < k {
      assert JumpAt(base + PairIndex(n, e, k) + 1, v[e], v[k], lambda);
      SignedJump(w[e], v[k], v[e]);
    } else {
      assert JumpAt(base + PairIndex(n, k, e + 1) + 1, v[k], v[e + 1], lambda);
      SignedJump(w[e + 1], v[k], v[e + 1]);
    }
  }

  lemma {:induction false} GapsFromMean(w: seq<real>, v: seq<real>, k: nat, j: nat)
    requires k < |w| == |v| && j <= |w|
    ensures Sum(Gaps(w, v, k), j) == Sum(w, j) * v[k] - Sum(Products(w, v), j)
  {
    if j > 0 {
      GapsFromMean(w, v, k, j - 1);
      assert Sum(w, j) * v[k] == Sum(w, j - 1) * v[k] + w[j - 1] * v[k];
    }
  }

  /** The gaps of copy `k` to the other copies. */
  function OtherGaps(w: seq<real>, v: seq<real>, k: nat): (r: seq<real>)
    requires k < |w| == |v|
    ensures |r| == |w| - 1
    ensures forall e :: 0 <= e < |r| ==> r[e] == Gaps(w, v, k)[if e < k then e else e + 1]
  {
    Gaps(w, v, k)[..k] + Gaps(w, v, k)[k + 1..]
  }

  lemma OwnGap(w: seq<real>, v: seq<real>, k: nat)
    requires k < |w| == |v|
    ensures Gaps(w, v, k)[k] == 0.0
  {
    SignedJump(w[k], v[k], v[k]);
  }

  lemma GapsSum(w: seq<real>, v: seq<real>, k: nat)
    requires k < |w| == |v| && SumAll(w) == 1.0
    ensures SumAll(Gaps(w, v, k)) == v[k] - Mean(w, v)
  {
    GapsFromMean(w, v, k, |w|);
    assert SumAll(w) * v[k] == v[k];
  }

  lemma OtherGapsSum(w: seq<real>, v: seq<real>, k: nat)
    requires k < |w| == |v| && SumAll(w) == 1.0
    ensures SumAll(OtherGaps(w, v, k)) == v[k] - Mean(w, v)
  {
    OwnGap(w, v, k);
    GapsSum(w, v, k);
    var gaps := Gaps(w, v, k);
    SumWithoutZero(gaps, k, |w| - 1);
    assert OtherGaps(w, v, k) == gaps[..k] + gaps[k + 1..];
  }

  /** Scaled by weights with sum one, the jumps give the distance of copy `k` from the mean. */
  lemma SlotCorrection(n: nat, k: nat, base: int, col: int, w: seq<real>, v: seq<real>, lambda: int -> real)
    requires k < n == |w| == |v| && JumpsOf(n, base, v, lambda) && SumAll(w) == 1.0
    ensures TotalOf(SlotTerms(n, k, base, col, w, n - 1), ColumnPart(col, lambda)) == v[k] - Mean(w, v)
  {
    var ts := SlotTerms(n, k, base, col, w, n - 1);
    SlotTermsAt(n, k, base, col, w, n - 1);
    forall e | 0 <= e < n - 1
      ensures ColumnPart(col, lambda)(ts[e]) == OtherGaps(w, v, k)[e]
    {
      assert ts[e] == SlotTerm(n, k, base, col, w, e);
      JumpOfTerm(n, k, base, col, w, v, lambda, e);
    }
    TotalOfValues(ts, ColumnPart(col, lambda), OtherGaps(w, v, k));
    OtherGapsSum(w, v, k);
  }
}
