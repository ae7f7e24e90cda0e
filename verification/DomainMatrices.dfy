/**
 * All matrices and vectors of a domain: every element is inserted into the stiffness and the mass
 * matrix, the residual and the load, and both matrices are compressed.
 */
module DomainMatrices {
  import opened SparseMatrices
  import opened Assembly

  /** What `processElement` computes for an element. */
  datatype ElementParts = ElementParts(element: Element, mass: DenseMatrix, residual: DenseMatrix, load: DenseMatrix)

  ghost predicate ValidPart(x: ElementParts, count: nat) {
    && x.element.stiffness.Valid() && x.mass.Valid() && x.mass.rows == x.mass.columns && x.residual.Valid() && x.load.Valid()
    && forall r :: 0 <= r < |x.element.dofs| ==> x.element.dofs[r] < count
  }

  ghost predicate ValidParts(xs: seq<ElementParts>, count: nat) {
    forall n :: 0 <= n < |xs| ==> ValidPart(xs[n], count)
  }

  function ElementsOf(xs: seq<ElementParts>): (r: seq<Element>)
    ensures |r| == |xs| && forall n :: 0 <= n < |xs| ==> r[n] == xs[n].element
  {
    seq(|xs|, n requires 0 <= n < |xs| => xs[n].element)
  }

  /** A column with a value for each degree of freedom of the element. */
  predicate FitsVector(dofs: seq<nat>, e: DenseMatrix) {
    e.rows == |dofs| && e.columns == 1
  }

  predicate NoMatrix(e: DenseMatrix) {
    e.rows == 0 && e.columns == 0
  }

  /** What the first `r` values of the column, `k` times, have for degree of freedom `i`. */
  ghost function VectorTotal(dofs: seq<nat>, e: DenseMatrix, k: real, i: nat, r: nat): real
    requires e.Valid() && FitsVector(dofs, e) && r <= e.rows
  {
    if r == 0 then 0.0 else VectorTotal(dofs, e, k, i, r - 1) + if dofs[r - 1] == i then Scaled(k, e.at[r - 1][0]) else 0.0
  }

  ghost function VectorPart(dofs: seq<nat>, e: DenseMatrix, k: real, i: nat): real
    requires e.Valid()
  {
    if FitsVector(dofs, e) then VectorTotal(dofs, e, k, i, e.rows) else 0.0
  }

  /** Adds a column to the vector of the domain; `false` when its size does not match. */
  method InsertVector(v: seq<real>, dofs: seq<nat>, e: DenseMatrix, k: real) returns (ok: bool, w: seq<real>)
    requires e.Valid() && forall r :: 0 <= r < |dofs| ==> dofs[r] < |v|
    ensures ok <==> FitsVector(dofs, e) || NoMatrix(e)
    ensures |w| == |v| && forall i :: 0 <= i < |v| ==> w[i] == v[i] + VectorPart(dofs, e, k, i)
  {
    w := v;
    if e.rows == |dofs| && e.columns == 1 {
      for r := 0 to |dofs|
        invariant |w| == |v| && forall i :: 0 <= i < |v| ==> w[i] == v[i] + VectorTotal(dofs, e, k, i, r)
      {
        w := w[dofs[r] := w[dofs[r]] + Scaled(k, e.at[r][0])];
      }
      ok := true;
    } else {
      ok := !(e.rows != 0 || e.columns != 0);
    }
  }

  /** The plain sum of the residuals of the first `n` elements. */
  ghost function ResidualTotal(xs: seq<ElementParts>, count: nat, n: nat, i: nat): real
    requires n <= |xs| && ValidParts(xs, count)
  {
    if n == 0 then 0.0 else
      ResidualTotal(xs, count, n - 1, i) + VectorPart(xs[n - 1].element.dofs, xs[n - 1].residual, 1.0, i)
  }

  /** The plain sum of the loads of the first `n` elements, reduced. */
  ghost function LoadTotal(xs: seq<ElementParts>, count: nat, reduction: real, n: nat, i: nat): real
    requires n <= |xs| && ValidParts(xs, count)
  {
    if n == 0 then 0.0 else
      LoadTotal(xs, count, reduction, n - 1, i) + VectorPart(xs[n - 1].element.dofs, xs[n - 1].load, reduction, i)
  }

  /** The mass matrix divides the degrees of freedom of the element into copies, or there is none. */
  ghost predicate MassMatches(x: ElementParts) {
    x.mass.rows == 0 || |x.element.dofs| % x.mass.rows == 0
  }

  lemma CopiesFit(dofs: seq<nat>, e: DenseMatrix)
    requires e.rows > 0 && |dofs| % e.rows == 0
    ensures e.rows * (|dofs| / e.rows) == |dofs|
  {
  }

  /** The rows of the mass matrix after one more element. */
  ghost function MassNext(rows: seq<seq<Entry>>, x: ElementParts): seq<seq<Entry>>
    requires x.mass.Valid() && x.mass.rows == x.mass.columns
  {
    if x.mass.rows > 0 && |x.element.dofs| % x.mass.rows == 0 then
      CopiesFit(x.element.dofs, x.mass);
      MassInserted(rows, x.element.dofs, x.mass, |x.element.dofs| / x.mass.rows, |x.element.dofs| / x.mass.rows)
    else rows
  }

  /** What all copies of the mass matrix of an element have for `(i, j)`. */
  ghost function MassPart(x: ElementParts, i: nat, j: nat): real
    requires x.mass.Valid() && x.mass.rows == x.mass.columns
  {
    if x.mass.rows > 0 && |x.element.dofs| % x.mass.rows == 0 then
      CopiesFit(x.element.dofs, x.mass);
      MassContribution(x.element.dofs, x.mass, |x.element.dofs| / x.mass.rows, i, j, |x.element.dofs| / x.mass.rows)
    else 0.0
  }

  lemma MassNextMeans(rows: seq<seq<Entry>>, x: ElementParts, i: nat, j: nat)
    requires x.mass.Valid() && x.mass.rows == x.mass.columns
    ensures Meaning(MassNext(rows, x), i, j) == Meaning(rows, i, j) + MassPart(x, i, j)
  {
    hide Meaning, MassInserted, MassContribution;
    if x.mass.rows > 0 && |x.element.dofs| % x.mass.rows == 0 {
      CopiesFit(x.element.dofs, x.mass);
      MassInsertedMeans(rows, x.element.dofs, x.mass, |x.element.dofs| / x.mass.rows, |x.element.dofs| / x.mass.rows, i, j);
    }
  }

  lemma MassNextGrows(rows: seq<seq<Entry>>, x: ElementParts)
    requires x.mass.Valid() && x.mass.rows == x.mass.columns
    ensures |MassNext(rows, x)| >= |rows|
  {
    if x.mass.rows > 0 && |x.element.dofs| % x.mass.rows == 0 {
      CopiesFit(x.element.dofs, x.mass);
      MassInsertedGrows(rows, x.element.dofs, x.mass, |x.element.dofs| / x.mass.rows, |x.element.dofs| / x.mass.rows);
    }
  }

  lemma {:induction false} MassInsertedGrows(rows: seq<seq<Entry>>, dofs: seq<nat>, e: DenseMatrix, multiplicity: nat, m: nat)
    requires e.Valid() && e.rows == e.columns && e.rows * multiplicity == |dofs| && m <= multiplicity
    ensures |MassInserted(rows, dofs, e, multiplicity, m)| >= |rows|
  {
    hide Inserted;
    if m > 0 {
      MassInsertedGrows(rows, dofs, e, multiplicity, m - 1);
      InsertedGrows(MassInserted(rows, dofs, e, multiplicity, m - 1), Strided(dofs, multiplicity, m - 1, e.rows), e, 1.0, e.rows);
    }
  }

  ghost function MassPushed(rows: seq<seq<Entry>>, xs: seq<ElementParts>, count: nat, n: nat): seq<seq<Entry>>
    requires n <= |xs| && ValidParts(xs, count)
  {
    if n == 0 then rows else MassNext(MassPushed(rows, xs, count, n - 1), xs[n - 1])
  }

  /** The plain sum of all copies of the mass matrices of the first `n` elements. */
  ghost function MassTotal(xs: seq<ElementParts>, count: nat, n: nat, i: nat, j: nat): real
    requires n <= |xs| && ValidParts(xs, count)
  {
    if n == 0 then 0.0 else MassTotal(xs, count, n - 1, i, j) + MassPart(xs[n - 1], i, j)
  }

  lemma {:induction false} MassPushedMeans(rows: seq<seq<Entry>>, xs: seq<ElementParts>, count: nat, n: nat, i: nat, j: nat)
    requires n <= |xs| && ValidParts(xs, count)
    ensures Meaning(MassPushed(rows, xs, count, n), i, j) == Meaning(rows, i, j) + MassTotal(xs, count, n, i, j)
  {
    hide Meaning, MassNext, MassPart;
    if n > 0 {
      MassPushedMeans(rows, xs, count, n - 1, i, j);
      MassNextMeans(MassPushed(rows, xs, count, n - 1), xs[n - 1], i, j);
    }
  }

  /** The compressed mass matrix holds, entry by entry, the plain sum of all copies. */
  ghost predicate HoldsMass(csr: SparseCSRMatrix, rows: seq<seq<Entry>>, xs: seq<ElementParts>, count: nat)
    requires ValidParts(xs, count)
    reads csr
  {
    && Compresses(csr.rowPtrs, csr.columnIndices, csr.values, rows)
    && (forall r :: 0 <= r < |rows| ==> StrictlyByColumn(rows[r]))
    && forall i, j :: 0 <= i < |rows| ==> Meaning(rows, i, j) == MassTotal(xs, count, |xs|, i, j)
  }

  lemma ShrunkHoldsMass(empty: seq<seq<Entry>>, pushed: seq<seq<Entry>>, rows: seq<seq<Entry>>, xs: seq<ElementParts>, count: nat)
    requires ValidParts(xs, count) && pushed == MassPushed(empty, xs, count, |xs|)
    requires forall r :: 0 <= r < |empty| ==> empty[r] == []
    requires |rows| == |pushed| && forall r :: 0 <= r < |rows| ==> Shrunk(pushed[r], rows[r])
    ensures forall r :: 0 <= r < |rows| ==> StrictlyByColumn(rows[r])
    ensures forall i, j :: 0 <= i < |rows| ==> Meaning(rows, i, j) == MassTotal(xs, count, |xs|, i, j)
  {
    hide MassPushed, MassTotal, ValidParts;
    forall i, j: nat | 0 <= i < |rows|
      ensures Meaning(rows, i, j) == MassTotal(xs, count, |xs|, i, j)
    {
      assert Shrunk(pushed[i], rows[i]);
      MassPushedMeans(empty, xs, count, |xs|, i, j);
      assert i < |empty| ==> RowSum(empty[i], j) == 0.0;
    }
  }

  /** Every part of the element has a size that fits. */
  ghost predicate AllMatch(x: ElementParts) {
    && Matches(x.element) && MassMatches(x)
    && (FitsVector(x.element.dofs, x.residual) || NoMatrix(x.residual)) && (FitsVector(x.element.dofs, x.load) || NoMatrix(x.load))
  }

  /** `insertElementToDomain`: all four parts of an element, until one does not match. */
  method InsertElement(K: SparseVVPMatrix, M: SparseVVPMatrix, R: seq<real>, f: seq<real>, x: ElementParts, reduction: real)
    returns (ok: bool, R': seq<real>, f': seq<real>)
    requires K != M && |R| == |f| && ValidPart(x, |R|)
    modifies K, M
    ensures ok <==> AllMatch(x)
    ensures ok ==> K.values == if Fits(x.element.dofs, x.element.stiffness)
      then Inserted(old(K.values), x.element.dofs, x.element.stiffness, x.element.scale, x.element.stiffness.rows) else old(K.values)
    ensures ok ==> M.values == MassNext(old(M.values), x)
    ensures |R'| == |f'| == |R|
    ensures ok ==> forall i :: 0 <= i < |R| ==> R'[i] == R[i] + VectorPart(x.element.dofs, x.residual, 1.0, i)
    ensures ok ==> forall i :: 0 <= i < |R| ==> f'[i] == f[i] + VectorPart(x.element.dofs, x.load, reduction, i)
  {
    hide Inserted, MassInserted, VectorPart;
    R', f' := R, f;
    ok := InsertStiffness(K, x.element.dofs, x.element.stiffness, x.element.scale);
    if ok {
      ok := InsertMass(M, x.element.dofs, x.mass);
    }
    if ok {
      ok, R' := InsertVector(R, x.element.dofs, x.residual, 1.0);
    }
    if ok {
      ok, f' := InsertVector(f, x.element.dofs, x.load, reduction);
    }
  }

  /** What the matrices and vectors hold after `n` elements. */
  ghost predicate InsertedUpTo(K: seq<seq<Entry>>, M: seq<seq<Entry>>, R: seq<real>, f: seq<real>, empty: seq<seq<Entry>>,
      xs: seq<ElementParts>, reduction: real, count: nat, n: nat)
    requires n <= |xs| && ValidParts(xs, count)
  {
    && ValidElements(ElementsOf(xs)) && |K| >= count && |M| >= count && |R| == |f| == count
    && K == Pushed(empty, ElementsOf(xs), n) && M == MassPushed(empty, xs, count, n)
    && (forall i :: 0 <= i < count ==> R[i] == ResidualTotal(xs, count, n, i))
    && (forall i :: 0 <= i < count ==> f[i] == LoadTotal(xs, count, reduction, n, i))
    && forall x :: 0 <= x < n ==> AllMatch(xs[x])
  }

  lemma InsertedNext(K: seq<seq<Entry>>, M: seq<seq<Entry>>, R: seq<real>, f: seq<real>, empty: seq<seq<Entry>>,
      xs: seq<ElementParts>, reduction: real, count: nat, n: nat, K': seq<seq<Entry>>, M': seq<seq<Entry>>, R': seq<real>, f': seq<real>)
    requires n < |xs| && ValidParts(xs, count) && InsertedUpTo(K, M, R, f, empty, xs, reduction, count, n) && AllMatch(xs[n])
    requires ValidPart(xs[n], count)
    requires K' == if Fits(xs[n].element.dofs, xs[n].element.stiffness)
      then Inserted(K, xs[n].element.dofs, xs[n].element.stiffness, xs[n].element.scale, xs[n].element.stiffness.rows) else K
    requires M' == MassNext(M, xs[n]) && |R'| == |f'| == count
    requires forall i :: 0 <= i < count ==> R'[i] == R[i] + VectorPart(xs[n].element.dofs, xs[n].residual, 1.0, i)
    requires forall i :: 0 <= i < count ==> f'[i] == f[i] + VectorPart(xs[n].element.dofs, xs[n].load, reduction, i)
    ensures InsertedUpTo(K', M', R', f', empty, xs, reduction, count, n + 1)
  {
    RowsKept(K, xs[n].element);
    MassNextGrows(M, xs[n]);
    hide Inserted, MassNext, VectorPart, AllMatch, Fits;
  }

  lemma InsertedNothing(empty: seq<seq<Entry>>, zeros: seq<real>, xs: seq<ElementParts>, reduction: real, count: nat)
    requires ValidParts(xs, count) && |empty| == |zeros| == count && forall i :: 0 <= i < count ==> zeros[i] == 0.0
    ensures InsertedUpTo(empty, empty, zeros, zeros, empty, xs, reduction, count, 0)
  {
    forall n | 0 <= n < |xs|
      ensures ElementsOf(xs)[n].stiffness.Valid()
    {
      assert ValidPart(xs[n], count);
    }
  }

  /** The matrices and vectors of a domain; `K` and `M` are `null` when a part of an element does not match. */
  method AssembleDomain(count: nat, xs: seq<ElementParts>, reduction: real)
    returns (K: SparseCSRMatrix?, M: SparseCSRMatrix?, R: seq<real>, f: seq<real>, ghost rowsK: seq<seq<Entry>>, ghost rowsM: seq<seq<Entry>>)
    requires ValidParts(xs, count)
    ensures (K != null <==> M != null) && (K != null <==> forall n :: 0 <= n < |xs| ==> AllMatch(xs[n]))
    ensures K != null ==> ValidElements(ElementsOf(xs)) && |rowsK| >= count && HoldsTotal(K, rowsK, ElementsOf(xs))
    ensures M != null ==> |rowsM| >= count && HoldsMass(M, rowsM, xs, count)
    ensures K != null ==> |R| == |f| == count && forall i :: 0 <= i < count ==> R[i] == ResidualTotal(xs, count, |xs|, i)
    ensures K != null ==> forall i :: 0 <= i < count ==> f[i] == LoadTotal(xs, count, reduction, |xs|, i)
  {
    hide AllMatch, Inserted, MassNext, Fits, VectorPart;
    var vvpK := new SparseVVPMatrix();
    var vvpM := new SparseVVPMatrix();
    vvpK.Resize(count, count);
    vvpM.Resize(count, count);
    R, f := seq(count, _ => 0.0), seq(count, _ => 0.0);
    rowsK, rowsM := [], [];
    ghost var empty := vvpK.values;
    assert vvpM.values == empty;
    InsertedNothing(empty, R, xs, reduction, count);
    for n := 0 to |xs|
      invariant fresh(vvpK) && fresh(vvpM) && vvpK != vvpM
      invariant InsertedUpTo(vvpK.values, vvpM.values, R, f, empty, xs, reduction, count, n)
    {
      assert ValidPart(xs[n], count);
      ghost var K0, M0, R0, f0 := vvpK.values, vvpM.values, R, f;
      var ok;
      ok, R, f := InsertElement(vvpK, vvpM, R, f, xs[n], reduction);
      if !ok {
        return null, null, R, f, rowsK, rowsM;
      }
      InsertedNext(K0, M0, R0, f0, empty, xs, reduction, count, n, vvpK.values, vvpM.values, R, f);
    }
    ghost var pushedK, pushedM := vvpK.values, vvpM.values;
    K := new SparseCSRMatrix(vvpK);
    rowsK := vvpK.values;
    ShrunkHoldsTotal(empty, pushedK, rowsK, ElementsOf(xs));
    M := new SparseCSRMatrix(vvpM);
    rowsM := vvpM.values;
    ShrunkHoldsMass(empty, pushedM, rowsM, xs, count);
  }
}
