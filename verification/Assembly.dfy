/** Element matrices added to the sparse matrices of a domain, and what the compressed matrix then holds. */
module Assembly {
  import opened Basis
  import opened SparseMatrices

  datatype DenseMatrix = DenseMatrix(rows: nat, columns: nat, at: seq<seq<real>>) {
    ghost predicate Valid() {
      |at| == rows && forall r :: 0 <= r < rows ==> |at[r]| == columns
    }
  }

  function Scaled(k: real, value: real): real {
    k * value
  }

  /** A square matrix whose row and column `r` belong to the degree of freedom `dofs[r]`. */
  ghost predicate Fits(dofs: seq<nat>, e: DenseMatrix) {
    e.Valid() && e.rows == e.columns == |dofs|
  }

  /** The rows after `c` values of row `r` of an element matrix are pushed. */
  ghost function RowInserted(rows: seq<seq<Entry>>, dofs: seq<nat>, e: DenseMatrix, k: real, r: nat, c: nat): seq<seq<Entry>>
    requires Fits(dofs, e) && r < e.rows && c <= e.columns
  {
    if c == 0 then rows else Added(RowInserted(rows, dofs, e, k, r, c - 1), dofs[r], Entry(dofs[c - 1], Scaled(k, e.at[r][c - 1])))
  }

  /** The rows after the first `r` rows of an element matrix are pushed. */
  ghost function Inserted(rows: seq<seq<Entry>>, dofs: seq<nat>, e: DenseMatrix, k: real, r: nat): seq<seq<Entry>>
    requires Fits(dofs, e) && r <= e.rows
  {
    if r == 0 then rows else RowInserted(Inserted(rows, dofs, e, k, r - 1), dofs, e, k, r - 1, e.columns)
  }

  /** What row `r` and column `c` of the element matrix contribute to `(i, j)`. */
  function Cell(dofs: seq<nat>, e: DenseMatrix, k: real, i: nat, j: nat, r: nat, c: nat): real
    requires r < |dofs| && c < |dofs| && r < |e.at| && c < |e.at[r]|
  {
    if dofs[r] == i && dofs[c] == j then Scaled(k, e.at[r][c]) else 0.0
  }

  ghost function RowTotal(dofs: seq<nat>, e: DenseMatrix, k: real, i: nat, j: nat, r: nat, c: nat): real
    requires Fits(dofs, e) && r < e.rows && c <= e.columns
  {
    if c == 0 then 0.0 else RowTotal(dofs, e, k, i, j, r, c - 1) + Cell(dofs, e, k, i, j, r, c - 1)
  }

  /** What the first `r` rows and `c` columns contribute to `(i, j)`. */
  ghost function Contribution(dofs: seq<nat>, e: DenseMatrix, k: real, i: nat, j: nat, r: nat, c: nat): real
    requires Fits(dofs, e) && r <= e.rows && c <= e.columns
  {
    if r == 0 then 0.0 else Contribution(dofs, e, k, i, j, r - 1, c) + RowTotal(dofs, e, k, i, j, r - 1, c)
  }

  lemma {:induction false} RowInsertedMeans(rows: seq<seq<Entry>>, dofs: seq<nat>, e: DenseMatrix, k: real, r: nat, c: nat, i: nat, j: nat)
    requires Fits(dofs, e) && r < e.rows && c <= e.columns
    ensures Meaning(RowInserted(rows, dofs, e, k, r, c), i, j) == Meaning(rows, i, j) + RowTotal(dofs, e, k, i, j, r, c)
  {
    hide Meaning, Added;
    if c > 0 {
      RowInsertedMeans(rows, dofs, e, k, r, c - 1, i, j);
      var before, entry := RowInserted(rows, dofs, e, k, r, c - 1), Entry(dofs[c - 1], Scaled(k, e.at[r][c - 1]));
      AddedMeans(before, dofs[r], entry, i, j);
    }
  }

  lemma {:induction false} InsertedMeans(rows: seq<seq<Entry>>, dofs: seq<nat>, e: DenseMatrix, k: real, r: nat, i: nat, j: nat)
    requires Fits(dofs, e) && r <= e.rows
    ensures Meaning(Inserted(rows, dofs, e, k, r), i, j) == Meaning(rows, i, j) + Contribution(dofs, e, k, i, j, r, e.columns)
  {
    hide Meaning, RowInserted, RowTotal;
    if r > 0 {
      InsertedMeans(rows, dofs, e, k, r - 1, i, j);
      RowInsertedMeans(Inserted(rows, dofs, e, k, r - 1), dofs, e, k, r - 1, e.columns, i, j);
    }
  }

  ghost predicate Symmetric(e: DenseMatrix) {
    e.Valid() && e.rows == e.columns && forall r, c :: 0 <= r < e.rows && 0 <= c < e.rows ==> e.at[r][c] == e.at[c][r]
  }

  /** One more column of the transposed place is one more row of the place. */
  lemma {:induction false} ColumnSplit(dofs: seq<nat>, e: DenseMatrix, k: real, i: nat, j: nat, r: nat, c: nat)
    requires Fits(dofs, e) && Symmetric(e) && r <= e.rows && c < e.columns
    ensures Contribution(dofs, e, k, j, i, r, c + 1) == Contribution(dofs, e, k, j, i, r, c) + RowTotal(dofs, e, k, i, j, c, r)
  {
    if r > 0 {
      ColumnSplit(dofs, e, k, i, j, r - 1, c);
      assert e.at[r - 1][c] == e.at[c][r - 1];
    }
  }

  lemma {:induction false} ContributionTransposed(dofs: seq<nat>, e: DenseMatrix, k: real, i: nat, j: nat, r: nat, c: nat)
    requires Fits(dofs, e) && Symmetric(e) && r <= e.rows && c <= e.columns
    ensures Contribution(dofs, e, k, i, j, r, c) == Contribution(dofs, e, k, j, i, c, r)
  {
    if r > 0 {
      ContributionTransposed(dofs, e, k, i, j, r - 1, c);
      ColumnSplit(dofs, e, k, i, j, c, r - 1);
    } else {
      NoColumns(dofs, e, k, j, i, c);
    }
  }

  lemma {:induction false} NoColumns(dofs: seq<nat>, e: DenseMatrix, k: real, i: nat, j: nat, r: nat)
    requires Fits(dofs, e) && r <= e.rows
    ensures Contribution(dofs, e, k, i, j, r, 0) == 0.0
  {
    if r > 0 {
      NoColumns(dofs, e, k, i, j, r - 1);
    }
  }

  /** The degrees of freedom `m`, `m + multiplicity`, ... */
  function Strided(dofs: seq<nat>, multiplicity: nat, m: nat, n: nat): (r: seq<nat>)
    requires m < multiplicity && n * multiplicity == |dofs|
    ensures |r| == n
  {
    seq(n, r requires 0 <= r < n => StrideInside(dofs, multiplicity, m, n, r); dofs[r * multiplicity + m])
  }

  lemma StrideInside(dofs: seq<nat>, multiplicity: nat, m: nat, n: nat, r: nat)
    requires m < multiplicity && n * multiplicity == |dofs| && r < n
    ensures 0 <= r * multiplicity + m < |dofs|
  {
    RowsFit(multiplicity, r, n);
  }

  lemma RowsFit(multiplicity: nat, r: nat, n: nat)
    requires r < n
    ensures 0 <= r * multiplicity <= n * multiplicity - multiplicity
  {
    MultipleMonotone(multiplicity, r + 1, n);
    MultipleIsProduct(multiplicity, r);
    MultipleIsProduct(multiplicity, r + 1);
    MultipleIsProduct(multiplicity, n);
  }

  /** The rows after the first `m` copies of a mass matrix are pushed. */
  ghost function MassInserted(rows: seq<seq<Entry>>, dofs: seq<nat>, e: DenseMatrix, multiplicity: nat, m: nat): seq<seq<Entry>>
    requires e.Valid() && e.rows == e.columns && e.rows * multiplicity == |dofs| && m <= multiplicity
  {
    if m == 0 then rows else
      Inserted(MassInserted(rows, dofs, e, multiplicity, m - 1), Strided(dofs, multiplicity, m - 1, e.rows), e, 1.0, e.rows)
  }

  /** Pushes a stiffness matrix scaled by `k`; `false` when its size does not match. */
  method InsertStiffness(matrix: SparseVVPMatrix, dofs: seq<nat>, e: DenseMatrix, k: real) returns (ok: bool)
    requires e.Valid()
    modifies matrix
    ensures ok <==> (e.rows == e.columns == |dofs| || e.rows == e.columns == 0)
    ensures matrix.values == if Fits(dofs, e) then Inserted(old(matrix.values), dofs, e, k, e.rows) else old(matrix.values)
  {
    if e.rows == |dofs| && e.columns == |dofs| {
      assert Fits(dofs, e) && Inserted(matrix.values, dofs, e, k, 0) == matrix.values;
      for r := 0 to |dofs|
        invariant matrix.values == Inserted(old(matrix.values), dofs, e, k, r)
      {
        ghost var before := matrix.values;
        for c := 0 to |dofs|
          invariant matrix.values == RowInserted(before, dofs, e, k, r, c)
        {
          matrix.Add(dofs[r], dofs[c], Scaled(k, e.at[r][c]));
        }
        assert matrix.values == RowInserted(before, dofs, e, k, r, e.columns);
      }
      ok := true;
    } else {
      ok := !(e.rows != 0 || e.columns != 0);
    }
  }

  /**
   * Pushes a mass matrix once for each of its copies: copy `m` takes the indices `m`,
   * `m + multiplicity` and so on (which kinds these are, `MassCopies` says).
   */
  method InsertMass(matrix: SparseVVPMatrix, dofs: seq<nat>, e: DenseMatrix) returns (ok: bool)
    requires e.Valid() && e.rows == e.columns
    modifies matrix
    ensures ok <==> (e.rows == 0 || |dofs| % e.rows == 0)
    ensures e.rows == 0 || !ok ==> matrix.values == old(matrix.values)
    ensures ok && e.rows != 0 ==>
      && e.rows * (|dofs| / e.rows) == |dofs|
      && matrix.values == MassInserted(old(matrix.values), dofs, e, |dofs| / e.rows, |dofs| / e.rows)
  {
    if e.rows != 0 && e.columns != 0 && |dofs| % e.rows == 0 && |dofs| % e.columns == 0 {
      var multiplicity := |dofs| / e.rows;
      for m := 0 to multiplicity
        invariant matrix.values == MassInserted(old(matrix.values), dofs, e, multiplicity, m)
      {
        ghost var all, copy := matrix.values, Strided(dofs, multiplicity, m, e.rows);
        for r := 0 to e.rows
          invariant matrix.values == Inserted(all, copy, e, 1.0, r)
        {
          ghost var before := matrix.values;
          StrideInside(dofs, multiplicity, m, e.rows, r);
          for c := 0 to e.columns
            invariant matrix.values == RowInserted(before, copy, e, 1.0, r, c)
          {
            StrideInside(dofs, multiplicity, m, e.rows, c);
            matrix.Add(dofs[r * multiplicity + m], dofs[c * multiplicity + m], e.at[r][c]);
          }
        }
      }
      ok := true;
    } else {
      ok := !(e.rows != 0 || e.columns != 0);
    }
  }

  /** What the first `m` copies of a mass matrix contribute to `(i, j)`. */
  ghost function MassContribution(dofs: seq<nat>, e: DenseMatrix, multiplicity: nat, i: nat, j: nat, m: nat): real
    requires e.Valid() && e.rows == e.columns && e.rows * multiplicity == |dofs| && m <= multiplicity
  {
    if m == 0 then 0.0 else
      MassContribution(dofs, e, multiplicity, i, j, m - 1)
      + Contribution(Strided(dofs, multiplicity, m - 1, e.rows), e, 1.0, i, j, e.rows, e.columns)
  }

  lemma {:induction false} MassInsertedMeans(rows: seq<seq<Entry>>, dofs: seq<nat>, e: DenseMatrix, multiplicity: nat, m: nat, i: nat, j: nat)
    requires e.Valid() && e.rows == e.columns && e.rows * multiplicity == |dofs| && m <= multiplicity
    ensures Meaning(MassInserted(rows, dofs, e, multiplicity, m), i, j)
         == Meaning(rows, i, j) + MassContribution(dofs, e, multiplicity, i, j, m)
  {
    hide Meaning, Inserted, Contribution;
    if m > 0 {
      MassInsertedMeans(rows, dofs, e, multiplicity, m - 1, i, j);
      InsertedMeans(MassInserted(rows, dofs, e, multiplicity, m - 1), Strided(dofs, multiplicity, m - 1, e.rows), e, 1.0, e.rows, i, j);
    }
  }

  /** An element with its degrees of freedom; boundary elements are scaled. */
  datatype Element = Element(dofs: seq<nat>, stiffness: DenseMatrix, scale: real)

  ghost predicate ValidElements(elements: seq<Element>) {
    forall x :: 0 <= x < |elements| ==> elements[x].stiffness.Valid()
  }

  /** The size of the stiffness matrix is that of the element, or it has none. */
  ghost predicate Matches(x: Element) {
    x.stiffness.rows == x.stiffness.columns && (x.stiffness.rows == |x.dofs| || x.stiffness.rows == 0)
  }

  /** The rows after the first `n` elements. */
  ghost function Pushed(rows: seq<seq<Entry>>, elements: seq<Element>, n: nat): seq<seq<Entry>>
    requires n <= |elements| && ValidElements(elements)
  {
    if n == 0 then rows else
      var x, before := elements[n - 1], Pushed(rows, elements, n - 1);
      if Fits(x.dofs, x.stiffness) then Inserted(before, x.dofs, x.stiffness, x.scale, x.stiffness.rows) else before
  }

  /** The plain sum of everything the first `n` elements have for `(i, j)`. */
  ghost function Total(elements: seq<Element>, n: nat, i: nat, j: nat): real
    requires n <= |elements| && ValidElements(elements)
  {
    if n == 0 then 0.0 else
      var x := elements[n - 1];
      Total(elements, n - 1, i, j) +
      if Fits(x.dofs, x.stiffness) then Contribution(x.dofs, x.stiffness, x.scale, i, j, x.stiffness.rows, x.stiffness.columns) else 0.0
  }

  lemma {:induction false} PushedMeans(rows: seq<seq<Entry>>, elements: seq<Element>, n: nat, i: nat, j: nat)
    requires n <= |elements| && ValidElements(elements)
    ensures Meaning(Pushed(rows, elements, n), i, j) == Meaning(rows, i, j) + Total(elements, n, i, j)
  {
    hide Meaning, Inserted, Contribution, Fits;
    if n > 0 {
      PushedMeans(rows, elements, n - 1, i, j);
      var x := elements[n - 1];
      if Fits(x.dofs, x.stiffness) {
        FitsSizes(x.dofs, x.stiffness);
        InsertedMeans(Pushed(rows, elements, n - 1), x.dofs, x.stiffness, x.scale, x.stiffness.rows, i, j);
      }
    }
  }

  lemma FitsSizes(dofs: seq<nat>, e: DenseMatrix)
    requires Fits(dofs, e)
    ensures e.Valid() && e.rows == e.columns == |dofs|
  {
  }

  /** Symmetric element matrices make a symmetric matrix. */
  lemma {:induction false} TotalSymmetric(elements: seq<Element>, n: nat, i: nat, j: nat)
    requires n <= |elements| && ValidElements(elements)
    requires forall x :: 0 <= x < n && Fits(elements[x].dofs, elements[x].stiffness) ==> Symmetric(elements[x].stiffness)
    ensures Total(elements, n, i, j) == Total(elements, n, j, i)
  {
    hide Contribution, Symmetric, Fits;
    if n > 0 {
      TotalSymmetric(elements, n - 1, i, j);
      var x := elements[n - 1];
      if Fits(x.dofs, x.stiffness) {
        FitsSizes(x.dofs, x.stiffness);
        ContributionTransposed(x.dofs, x.stiffness, x.scale, i, j, x.stiffness.rows, x.stiffness.columns);
      }
    }
  }

  /** The compressed matrix holds, entry by entry, the plain sum of all contributions. */
  ghost predicate HoldsTotal(csr: SparseCSRMatrix, rows: seq<seq<Entry>>, elements: seq<Element>)
    requires ValidElements(elements)
    reads csr
  {
    && Compresses(csr.rowPtrs, csr.columnIndices, csr.values, rows)
    && (forall r :: 0 <= r < |rows| ==> StrictlyByColumn(rows[r]))
    && forall i, j :: 0 <= i < |rows| ==> Meaning(rows, i, j) == Total(elements, |elements|, i, j)
  }

  lemma RowsKept(rows: seq<seq<Entry>>, x: Element)
    requires x.stiffness.Valid()
    ensures Fits(x.dofs, x.stiffness) ==> |Inserted(rows, x.dofs, x.stiffness, x.scale, x.stiffness.rows)| >= |rows|
  {
    if Fits(x.dofs, x.stiffness) {
      InsertedGrows(rows, x.dofs, x.stiffness, x.scale, x.stiffness.rows);
    }
  }

  lemma {:induction false} InsertedGrows(rows: seq<seq<Entry>>, dofs: seq<nat>, e: DenseMatrix, k: real, r: nat)
    requires Fits(dofs, e) && r <= e.rows
    ensures |Inserted(rows, dofs, e, k, r)| >= |rows|
  {
    if r > 0 {
      InsertedGrows(rows, dofs, e, k, r - 1);
      RowInsertedGrows(Inserted(rows, dofs, e, k, r - 1), dofs, e, k, r - 1, e.columns);
    }
  }

  lemma {:induction false} RowInsertedGrows(rows: seq<seq<Entry>>, dofs: seq<nat>, e: DenseMatrix, k: real, r: nat, c: nat)
    requires Fits(dofs, e) && r < e.rows && c <= e.columns
    ensures |RowInserted(rows, dofs, e, k, r, c)| >= |rows|
  {
    if c > 0 {
      RowInsertedGrows(rows, dofs, e, k, r, c - 1);
    }
  }

  lemma ShrunkHoldsTotal(empty: seq<seq<Entry>>, pushed: seq<seq<Entry>>, rows: seq<seq<Entry>>, elements: seq<Element>)
    requires ValidElements(elements) && pushed == Pushed(empty, elements, |elements|)
    requires forall r :: 0 <= r < |empty| ==> empty[r] == []
    requires |rows| == |pushed| && forall r :: 0 <= r < |rows| ==> Shrunk(pushed[r], rows[r])
    ensures forall r :: 0 <= r < |rows| ==> StrictlyByColumn(rows[r])
    ensures forall i, j :: 0 <= i < |rows| ==> Meaning(rows, i, j) == Total(elements, |elements|, i, j)
  {
    hide Pushed, Total;
    forall i, j: nat | 0 <= i < |rows|
      ensures Meaning(rows, i, j) == Total(elements, |elements|, i, j)
    {
      assert Shrunk(pushed[i], rows[i]);
      PushedMeans(empty, elements, |elements|, i, j);
      assert i < |empty| ==> RowSum(empty[i], j) == 0.0;
    }
  }
}
