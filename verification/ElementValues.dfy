/** The values a single element adds to the matrices and vectors of a domain, degree of freedom by degree of freedom. */
module ElementValues {
  import opened Basis
  import opened Assembly
  import opened DomainMatrices
  import opened SparseMatrices

  /** Row `r` of the element adds nothing outside its degrees of freedom. */
  lemma {:induction false} RowOutside(dofs: seq<nat>, e: DenseMatrix, k: real, i: nat, j: nat, r: nat, c: nat)
    requires Fits(dofs, e) && r < e.rows && c <= e.columns && (dofs[r] != i || forall x :: 0 <= x < c ==> dofs[x] != j)
    ensures RowTotal(dofs, e, k, i, j, r, c) == 0.0
  {
    if c > 0 {
      RowOutside(dofs, e, k, i, j, r, c - 1);
    }
  }

  lemma {:induction false} RowAt(dofs: seq<nat>, e: DenseMatrix, k: real, r: nat, c: nat, top: nat)
    requires Fits(dofs, e) && Distinct(dofs) && r < e.rows && c < top <= e.columns
    ensures RowTotal(dofs, e, k, dofs[r], dofs[c], r, top) == k * e.at[r][c]
  {
    if c < top - 1 {
      RowAt(dofs, e, k, r, c, top - 1);
    } else {
      RowOutside(dofs, e, k, dofs[r], dofs[c], r, c);
    }
  }

  /** The element adds nothing to pairs that are not both among its degrees of freedom. */
  lemma {:induction false} NothingOutside(dofs: seq<nat>, e: DenseMatrix, k: real, i: nat, j: nat, r: nat)
    requires Fits(dofs, e) && r <= e.rows && ((forall x :: 0 <= x < r ==> dofs[x] != i) || j !in dofs)
    ensures Contribution(dofs, e, k, i, j, r, e.columns) == 0.0
  {
    hide RowTotal;
    if r > 0 {
      NothingOutside(dofs, e, k, i, j, r - 1);
      RowOutside(dofs, e, k, i, j, r - 1, e.columns);
    }
  }

  lemma {:induction false} RowsAt(dofs: seq<nat>, e: DenseMatrix, k: real, r: nat, c: nat, top: nat)
    requires Fits(dofs, e) && Distinct(dofs) && r < top <= e.rows && c < e.columns
    ensures Contribution(dofs, e, k, dofs[r], dofs[c], top, e.columns) == k * e.at[r][c]
  {
    hide RowTotal;
    if r < top - 1 {
      RowsAt(dofs, e, k, r, c, top - 1);
      RowOutside(dofs, e, k, dofs[r], dofs[c], top - 1, e.columns);
    } else {
      NothingOutside(dofs, e, k, dofs[r], dofs[c], r);
      RowAt(dofs, e, k, r, c, e.columns);
    }
  }

  /** At its degrees of freedom an element adds its matrix times the scale, and nothing anywhere else. */
  lemma ElementAt(dofs: seq<nat>, e: DenseMatrix, k: real)
    requires Fits(dofs, e) && Distinct(dofs)
    ensures forall r, c :: 0 <= r < e.rows && 0 <= c < e.columns ==>
      Contribution(dofs, e, k, dofs[r], dofs[c], e.rows, e.columns) == k * e.at[r][c]
    ensures forall i, j :: i !in dofs || j !in dofs ==> Contribution(dofs, e, k, i, j, e.rows, e.columns) == 0.0
  {
    forall r, c | 0 <= r < e.rows && 0 <= c < e.columns
      ensures Contribution(dofs, e, k, dofs[r], dofs[c], e.rows, e.columns) == k * e.at[r][c]
    {
      RowsAt(dofs, e, k, r, c, e.rows);
    }
    forall i, j | i !in dofs || j !in dofs
      ensures Contribution(dofs, e, k, i, j, e.rows, e.columns) == 0.0
    {
      NothingOutside(dofs, e, k, i, j, e.rows);
    }
  }

  lemma {:induction false} RowLinear(dofs: seq<nat>, e: DenseMatrix, k: real, i: nat, j: nat, r: nat, c: nat)
    requires Fits(dofs, e) && r < e.rows && c <= e.columns
    ensures RowTotal(dofs, e, k, i, j, r, c) == k * RowTotal(dofs, e, 1.0, i, j, r, c)
  {
    if c > 0 {
      RowLinear(dofs, e, k, i, j, r, c - 1);
      Distributed(k, RowTotal(dofs, e, 1.0, i, j, r, c - 1), Cell(dofs, e, 1.0, i, j, r, c - 1));
    }
  }

  lemma Distributed(k: real, x: real, y: real)
    ensures k * (x + y) == k * x + k * y
  {
  }

  /** Also when degrees of freedom repeat, scaling an element scales what it adds. */
  lemma {:induction false} ElementLinear(dofs: seq<nat>, e: DenseMatrix, k: real, i: nat, j: nat, r: nat, c: nat)
    requires Fits(dofs, e) && r <= e.rows && c <= e.columns
    ensures Contribution(dofs, e, k, i, j, r, c) == k * Contribution(dofs, e, 1.0, i, j, r, c)
  {
    hide RowTotal;
    if r > 0 {
      ElementLinear(dofs, e, k, i, j, r - 1, c);
      RowLinear(dofs, e, k, i, j, r - 1, c);
      Distributed(k, Contribution(dofs, e, 1.0, i, j, r - 1, c), RowTotal(dofs, e, 1.0, i, j, r - 1, c));
    }
  }

  lemma {:induction false} VectorOutside(dofs: seq<nat>, e: DenseMatrix, k: real, i: nat, r: nat)
    requires e.Valid() && FitsVector(dofs, e) && r <= e.rows && forall x :: 0 <= x < r ==> dofs[x] != i
    ensures VectorTotal(dofs, e, k, i, r) == 0.0
  {
    if r > 0 {
      VectorOutside(dofs, e, k, i, r - 1);
    }
  }

  lemma {:induction false} VectorRowsAt(dofs: seq<nat>, e: DenseMatrix, k: real, r: nat, top: nat)
    requires e.Valid() && FitsVector(dofs, e) && Distinct(dofs) && r < top <= e.rows
    ensures VectorTotal(dofs, e, k, dofs[r], top) == k * e.at[r][0]
  {
    if r < top - 1 {
      VectorRowsAt(dofs, e, k, r, top - 1);
    } else {
      VectorOutside(dofs, e, k, dofs[r], r);
    }
  }

  /** At its degrees of freedom a column adds its values times the factor, and nothing anywhere else. */
  lemma VectorAt(dofs: seq<nat>, e: DenseMatrix, k: real)
    requires e.Valid() && FitsVector(dofs, e) && Distinct(dofs)
    ensures forall r :: 0 <= r < e.rows ==> VectorPart(dofs, e, k, dofs[r]) == k * e.at[r][0]
    ensures forall i :: i !in dofs ==> VectorPart(dofs, e, k, i) == 0.0
  {
    forall r | 0 <= r < e.rows
      ensures VectorPart(dofs, e, k, dofs[r]) == k * e.at[r][0]
    {
      VectorRowsAt(dofs, e, k, r, e.rows);
    }
    forall i | i !in dofs
      ensures VectorPart(dofs, e, k, i) == 0.0
    {
      VectorOutside(dofs, e, k, i, e.rows);
    }
  }

  lemma {:induction false} VectorLinear(dofs: seq<nat>, e: DenseMatrix, k: real, i: nat, r: nat)
    requires e.Valid() && FitsVector(dofs, e) && r <= e.rows
    ensures VectorTotal(dofs, e, k, i, r) == k * VectorTotal(dofs, e, 1.0, i, r)
  {
    if r > 0 {
      VectorLinear(dofs, e, k, i, r - 1);
      Distributed(k, VectorTotal(dofs, e, 1.0, i, r - 1), if dofs[r - 1] == i then Scaled(1.0, e.at[r - 1][0]) else 0.0);
    }
  }

  /** An element of a boundary condition, scaled by a half, on the degrees of freedom 1 and 0. */
  function BoundaryElement(): ElementParts {
    ElementParts(Element([1, 0], DenseMatrix(2, 2, [[4.0, 2.0], [6.0, 8.0]]), 0.5), DenseMatrix(0, 0, []),
      DenseMatrix(2, 1, [[3.0], [1.0]]), DenseMatrix(2, 1, [[2.0], [6.0]]))
  }

  /** An element inside, on the degree of freedom 1 alone. */
  function InnerElement(): ElementParts {
    ElementParts(Element([1], DenseMatrix(1, 1, [[3.0]]), 1.0), DenseMatrix(1, 1, [[7.0]]),
      DenseMatrix(1, 1, [[5.0]]), DenseMatrix(1, 1, [[4.0]]))
  }

  lemma BoundaryValues()
    ensures var x := BoundaryElement();
      && Fits(x.element.dofs, x.element.stiffness)
      && Contribution(x.element.dofs, x.element.stiffness, 0.5, 0, 0, 2, 2) == 4.0
      && Contribution(x.element.dofs, x.element.stiffness, 0.5, 0, 1, 2, 2) == 3.0
      && Contribution(x.element.dofs, x.element.stiffness, 0.5, 1, 0, 2, 2) == 1.0
      && Contribution(x.element.dofs, x.element.stiffness, 0.5, 1, 1, 2, 2) == 2.0
      && x.residual.Valid() && x.load.Valid()
      && VectorPart(x.element.dofs, x.residual, 1.0, 0) == 1.0 && VectorPart(x.element.dofs, x.residual, 1.0, 1) == 3.0
      && VectorPart(x.element.dofs, x.load, 0.5, 0) == 3.0 && VectorPart(x.element.dofs, x.load, 0.5, 1) == 1.0
  {
    var x := BoundaryElement();
    hide Contribution, VectorPart;
    ElementAt(x.element.dofs, x.element.stiffness, 0.5);
    VectorAt(x.element.dofs, x.residual, 1.0);
    VectorAt(x.element.dofs, x.load, 0.5);
    assert x.element.dofs[0] == 1 && x.element.dofs[1] == 0;
  }

  lemma InnerValues()
    ensures var x := InnerElement();
      && Fits(x.element.dofs, x.element.stiffness)
      && Contribution(x.element.dofs, x.element.stiffness, 1.0, 0, 0, 1, 1) == 0.0
      && Contribution(x.element.dofs, x.element.stiffness, 1.0, 0, 1, 1, 1) == 0.0
      && Contribution(x.element.dofs, x.element.stiffness, 1.0, 1, 0, 1, 1) == 0.0
      && Contribution(x.element.dofs, x.element.stiffness, 1.0, 1, 1, 1, 1) == 3.0
      && x.residual.Valid() && x.load.Valid()
      && VectorPart(x.element.dofs, x.residual, 1.0, 0) == 0.0 && VectorPart(x.element.dofs, x.residual, 1.0, 1) == 5.0
      && VectorPart(x.element.dofs, x.load, 0.5, 0) == 0.0 && VectorPart(x.element.dofs, x.load, 0.5, 1) == 2.0
  {
    var x := InnerElement();
    hide Contribution, VectorPart;
    ElementAt(x.element.dofs, x.element.stiffness, 1.0);
    VectorAt(x.element.dofs, x.residual, 1.0);
    VectorAt(x.element.dofs, x.load, 0.5);
    assert x.element.dofs[0] == 1;
  }

  lemma TwoElements(i: nat, j: nat)
    requires i < 2 && j < 2
    ensures var xs := [BoundaryElement(), InnerElement()];
      && ValidParts(xs, 2) && ValidElements(ElementsOf(xs)) && AllMatch(xs[0]) && AllMatch(xs[1])
      && Total(ElementsOf(xs), 2, i, j) == [[4.0, 3.0], [1.0, 5.0]][i][j]
      && ResidualTotal(xs, 2, 2, i) == [1.0, 8.0][i] && LoadTotal(xs, 2, 0.5, 2, i) == [3.0, 3.0][i]
  {
    BoundaryValues();
    InnerValues();
    hide Contribution, VectorPart;
    var xs := [BoundaryElement(), InnerElement()];
    assert Total(ElementsOf(xs), 1, i, j) == 0.0 + Contribution(xs[0].element.dofs, xs[0].element.stiffness, 0.5, i, j, 2, 2);
    assert ResidualTotal(xs, 2, 1, i) == 0.0 + VectorPart(xs[0].element.dofs, xs[0].residual, 1.0, i);
    assert LoadTotal(xs, 2, 0.5, 1, i) == 0.0 + VectorPart(xs[0].element.dofs, xs[0].load, 0.5, i);
  }

  /** Two elements assembled with the loads reduced to a half: the values that come out. */
  method AssembleTwoElements() returns (K: seq<real>, R: seq<real>, f: seq<real>)
    ensures K == [4.0, 3.0, 1.0, 5.0] && R == [1.0, 8.0] && f == [3.0, 3.0]
  {
    hide AllMatch, Total, ResidualTotal, LoadTotal, Meaning, Compresses, StrictlyByColumn;
    var xs := [BoundaryElement(), InnerElement()];
    forall i: nat, j: nat | i < 2 && j < 2
      ensures ValidParts(xs, 2) && ValidElements(ElementsOf(xs)) && AllMatch(xs[0]) && AllMatch(xs[1])
      ensures Total(ElementsOf(xs), 2, i, j) == [[4.0, 3.0], [1.0, 5.0]][i][j]
      ensures ResidualTotal(xs, 2, 2, i) == [1.0, 8.0][i] && LoadTotal(xs, 2, 0.5, 2, i) == [3.0, 3.0][i]
    {
      TwoElements(i, j);
    }
    TwoElements(0, 0);
    var k, m;
    ghost var rowsK, rowsM;
    k, m, R, f, rowsK, rowsM := AssembleDomain(2, xs, 0.5);
    var a := k.Get(0, 0, rowsK);
    var b := k.Get(0, 1, rowsK);
    var c := k.Get(1, 0, rowsK);
    var d := k.Get(1, 1, rowsK);
    K := [a, b, c, d];
  }
}
