/**
 * What the rows of `B1` mean for the values of the copies, and why the weights of `B1duplicity`
 * make `B1 * B_D^T * B1 == B1`.
 */
module Scaling {
  import opened Basis
  import opened Decomposition
  import opened Pairs
  import opened Glue
  import opened Gluing
  import opened Numbering
  import opened Operators
  import opened SlotNumbering

  ghost function SumBelow(f: nat -> real, top: nat): real {
    if top == 0 then 0.0 else SumBelow(f, top - 1) + f(top - 1)
  }

  lemma {:induction false} SumOfTwo(f: nat -> real, a: nat, b: nat, top: nat)
    requires a < b && forall d: nat :: d < top && d != a && d != b ==> f(d) == 0.0
    ensures SumBelow(f, top) == (if a < top then f(a) else 0.0) + if b < top then f(b) else 0.0
  {
    if top > 0 {
      SumOfTwo(f, a, b, top - 1);
    }
  }

  /** What domain `d` contributes to one row of `B1 * u`. */
  ghost function DomainPart(m: Mesh, y: Layout, ws: seq<seq<seq<real>>>, u: Field, row: int): nat -> real
    requires Valid(m) && SizedLayout(m, y) && ValidWeights(m, ws)
  {
    (d: nat) => if d < Domains(m) then TotalOf(B1(m, y, ws, d), RowPart(row, u, d)) else 0.0
  }

  /** One row of `B1 * u`, summed over the domains of all processes. */
  ghost function Apply(m: Mesh, y: Layout, ws: seq<seq<seq<real>>>, u: Field, row: int): real
    requires Valid(m) && SizedLayout(m, y) && ValidWeights(m, ws)
  {
    SumBelow(DomainPart(m, y, ws, u, row), Domains(m))
  }

  /** The multipliers `lambda` are the rows of `B1 * u`. */
  ghost predicate IsImage(m: Mesh, y: Layout, ws: seq<seq<seq<real>>>, u: Field, lambda: int -> real)
    requires Valid(m) && SizedLayout(m, y) && ValidWeights(m, ws)
  {
    forall row {:trigger Apply(m, y, ws, u, row)} :: lambda(row) == Apply(m, y, ws, u, row)
  }

  /** `B_D^T * lambda`: the transpose of `B1` with every entry scaled by its `B1duplicity`. */
  ghost function WeightedTranspose(m: Mesh, y: Layout, ws: seq<seq<seq<real>>>, lambda: int -> real): Field
    requires Valid(m) && SizedLayout(m, y) && ValidWeights(m, ws)
  {
    (d: nat, col: int) => if d < Domains(m) then TotalOf(B1(m, y, ws, d), ColumnPart(col, lambda)) else 0.0
  }

  /** The value of copy `k` of slot `c` of interval `i`. */
  ghost function CopyValue(m: Mesh, u: Field, i: nat, s: Slot, k: nat): real
    requires Valid(m) && i < |m.intervals| && k < Copies(m, i)
  {
    var d := m.intervals[i].domains[k];
    u(d, ColumnOf(m, i, d, s))
  }

  /** What domain `d` contributes to a glue row. */
  lemma {:induction false} GlueRowPart(m: Mesh, y: Layout, ws: seq<seq<seq<real>>>, u: Field, i: nat, c: nat, a: nat, b: nat, d: nat, row: int)
    requires Valid(m) && ValidLayout(m, y) && ValidWeights(m, ws) && i < |m.intervals| && c < |Slots(m, i)| && a < b < Copies(m, i)
    requires d < Domains(m) && row == GlueRow(m, y, i, c, a, b)
    ensures var domains, s := m.intervals[i].domains, Slots(m, i)[c];
      DomainPart(m, y, ws, u, row)(d) ==
        if d == domains[a] then CopyValue(m, u, i, s, a) else if d == domains[b] then -CopyValue(m, u, i, s, b) else 0.0
  {
    hide Valid, Slots, B1, GlueRow, ColumnOf, WithinRows;
    GlueRowEntries(m, y, ws, i, c, a, b, d);
    RowOfEntry(B1(m, y, ws, d), row, u, d);
  }

  /** A glue row computes the jump between its two copies. */
  lemma GlueRowValue(m: Mesh, y: Layout, ws: seq<seq<seq<real>>>, u: Field, i: nat, c: nat, a: nat, b: nat, row: int)
    requires Valid(m) && ValidLayout(m, y) && ValidWeights(m, ws) && i < |m.intervals| && c < |Slots(m, i)| && a < b < Copies(m, i)
    requires row == GlueRow(m, y, i, c, a, b)
    ensures Apply(m, y, ws, u, row) == CopyValue(m, u, i, Slots(m, i)[c], a) - CopyValue(m, u, i, Slots(m, i)[c], b)
  {
    var domains := m.intervals[i].domains;
    assert ValidInterval(m, i);
    assert domains[a] in domains && domains[b] in domains;
    forall d: nat | d < Domains(m) && d != domains[a] && d != domains[b]
      ensures DomainPart(m, y, ws, u, row)(d) == 0.0
    {
      GlueRowPart(m, y, ws, u, i, c, a, b, d, row);
    }
    GlueRowPart(m, y, ws, u, i, c, a, b, domains[a], row);
    GlueRowPart(m, y, ws, u, i, c, a, b, domains[b], row);
    SumOfTwo(DomainPart(m, y, ws, u, row), domains[a], domains[b], Domains(m));
  }

  ghost predicate CopiesAgree(m: Mesh, u: Field, i: nat, c: nat)
    requires Valid(m) && i < |m.intervals| && c < |Slots(m, i)|
  {
    forall a, b :: 0 <= a < b < Copies(m, i) ==>
      CopyValue(m, u, i, Slots(m, i)[c], a) == CopyValue(m, u, i, Slots(m, i)[c], b)
  }

  ghost predicate GlueRowsVanish(m: Mesh, y: Layout, ws: seq<seq<seq<real>>>, u: Field)
    requires Valid(m) && SizedLayout(m, y) && ValidWeights(m, ws)
  {
    forall row :: y.dirichlet < row <= y.dirichlet + y.gluing ==> Apply(m, y, ws, u, row) == 0.0
  }

  /** The gluing condition: all glue rows vanish exactly if all copies of all glued DOFs agree. */
  lemma GluedIffCopiesAgree(m: Mesh, y: Layout, ws: seq<seq<seq<real>>>, u: Field)
    requires Valid(m) && ValidLayout(m, y) && ValidWeights(m, ws)
    ensures GlueRowsVanish(m, y, ws, u) <==>
      forall i, c :: 0 <= i < |m.intervals| && 0 <= c < |Slots(m, i)| ==> CopiesAgree(m, u, i, c)
  {
    if GlueRowsVanish(m, y, ws, u) {
      forall i, c | 0 <= i < |m.intervals| && 0 <= c < |Slots(m, i)|
        ensures CopiesAgree(m, u, i, c)
      {
        forall a, b | 0 <= a < b < Copies(m, i)
          ensures CopyValue(m, u, i, Slots(m, i)[c], a) == CopyValue(m, u, i, Slots(m, i)[c], b)
        {
          GlueRowInRange(m, y, i, c, a, b);
          GlueRowValue(m, y, ws, u, i, c, a, b, GlueRow(m, y, i, c, a, b));
          assert Apply(m, y, ws, u, GlueRow(m, y, i, c, a, b)) == 0.0;
        }
      }
    }
    if forall i, c :: 0 <= i < |m.intervals| && 0 <= c < |Slots(m, i)| ==> CopiesAgree(m, u, i, c) {
      forall row | y.dirichlet < row <= y.dirichlet + y.gluing
        ensures Apply(m, y, ws, u, row) == 0.0
      {
        var i, c, a, b := GlueRowOf(m, y, row);
        GlueRowValue(m, y, ws, u, i, c, a, b, row);
        assert CopiesAgree(m, u, i, c);
      }
    }
  }

  lemma ForeignGluePiece(m: Mesh, starts: seq<int>, ws: seq<seq<seq<real>>>, p: nat, d: nat, k: nat, l: nat, s: Slot)
    requires Valid(m) && ValidWeights(m, ws) && p < Processes(m) && |starts| == |m.intervals|
    requires k < |m.order[p]| && l < |m.order[p]|
    requires IsSlot(m, m.order[p][l], s) && d in m.intervals[m.order[p][l]].domains
    requires k == l ==> s !in Slots(m, m.order[p][l])
    ensures Avoids(GlueOfInterval(m, starts, ws, p, d, k), Column(m, p, d, l, s))
  {
    var i := m.order[p][k];
    if i < |m.intervals| && d in m.intervals[i].domains {
      assert WeightsFit(m, i, ws[i]);
      var cols := Columns(m, p, d, k, Slots(m, i));
      ColumnsAt(m, p, d, k, Slots(m, i));
      forall c | 0 <= c < |cols|
        ensures cols[c] != Column(m, p, d, l, s)
      {
        GluedSlot(m, i, c);
        if cols[c] == Column(m, p, d, l, s) {
          ColumnInjective(m, p, d, k, Slots(m, i)[c], l, s);
        }
      }
      IntervalAvoids(Copies(m, i), IndexOf(m.intervals[i].domains, d), starts[i], cols, ws[i], Column(m, p, d, l, s));
    }
  }

  /** The Dirichlet terms of an interval avoid the column of a slot they do not fix. */
  lemma ForeignFixedPiece(m: Mesh, starts: seq<int>, p: nat, d: nat, k: nat, l: nat, s: Slot)
    requires Valid(m) && p < Processes(m) && |starts| == |m.intervals|
    requires k < |m.order[p]| && l < |m.order[p]|
    requires IsSlot(m, m.order[p][l], s) && d in m.intervals[m.order[p][l]].domains
    requires k == l ==> s.dof < |m.intervals[m.order[p][l]].fixed| && s.node !in m.intervals[m.order[p][l]].fixed[s.dof]
    ensures Avoids(FixedOfInterval(m, starts, p, d, k), Column(m, p, d, l, s))
  {
    var i := m.order[p][k];
    if i < |m.intervals| && d in m.intervals[i].domains {
      var listed := m.intervals[i].listed;
      var cols := FixedColumns(m, p, d, k, listed);
      forall dof, j | 0 <= dof < |listed| && 0 <= j < |listed[dof]|
        ensures cols[dof][j] != Column(m, p, d, l, s)
      {
        FixedColumnAt(m, p, d, k, listed, dof, j);
        ConditionSlot(m, i, dof, j);
        assert cols[dof][j] == Column(m, p, d, k, FixedSlot(m, i, dof, j));
        if cols[dof][j] == Column(m, p, d, l, s) {
          ColumnInjective(m, p, d, k, FixedSlot(m, i, dof, j), l, s);
        }
      }
      DirichletAvoids(Copies(m, i), IndexOf(m.intervals[i].domains, d), starts[i], cols, |cols|, Column(m, p, d, l, s));
    }
  }

  lemma ColumnsDistinct(m: Mesh, p: nat, d: nat, l: nat)
    requires Valid(m) && p < Processes(m) && l < |m.order[p]| && m.order[p][l] < |m.intervals|
    requires d in m.intervals[m.order[p][l]].domains
    ensures Distinct(Columns(m, p, d, l, Slots(m, m.order[p][l])))
  {
    var i := m.order[p][l];
    ColumnsAt(m, p, d, l, Slots(m, i));
    forall x, y | 0 <= x < y < |Slots(m, i)|
      ensures Column(m, p, d, l, Slots(m, i)[x]) != Column(m, p, d, l, Slots(m, i)[y])
    {
      GluedSlot(m, i, x);
      GluedSlot(m, i, y);
      if Column(m, p, d, l, Slots(m, i)[x]) == Column(m, p, d, l, Slots(m, i)[y]) {
        ColumnInjective(m, p, d, l, Slots(m, i)[x], l, Slots(m, i)[y]);
      }
    }
  }

  /** First row (zero-based) of the pairs of a glued slot. */
  ghost function SlotStart(m: Mesh, starts: seq<int>, i: nat, c: nat): int
    requires |starts| == |m.intervals| && i < |m.intervals|
  {
    starts[i] + Multiple(Triangle(Copies(m, i)), c)
  }

  /** The terms of copy `k` of one glued slot. */
  ghost function TermsOfSlot(m: Mesh, starts: seq<int>, ws: seq<seq<seq<real>>>, i: nat, c: nat, k: nat, col: int): seq<Term>
    requires ValidWeights(m, ws) && i < |m.intervals| == |starts| && c < |Slots(m, i)| && k < Copies(m, i)
  {
    assert WeightsFit(m, i, ws[i]);
    SlotTerms(Copies(m, i), k, SlotStart(m, starts, i, c), col, ws[i][c], Copies(m, i) - 1)
  }

  lemma GlueColumnOfInterval(m: Mesh, starts: seq<int>, ws: seq<seq<seq<real>>>, lambda: int -> real, p: nat, d: nat, l: nat, c: nat, col: int)
    requires ValidWeights(m, ws) && p < Processes(m) && l < |m.order[p]| && |starts| == |m.intervals|
    requires var i := m.order[p][l];
      i < |m.intervals| && d in m.intervals[i].domains && c < |Slots(m, i)| &&
      Distinct(Columns(m, p, d, l, Slots(m, i))) && col == Columns(m, p, d, l, Slots(m, i))[c]
    ensures var i := m.order[p][l];
      TotalOf(GlueOfInterval(m, starts, ws, p, d, l), ColumnPart(col, lambda)) ==
        TotalOf(TermsOfSlot(m, starts, ws, i, c, IndexOf(m.intervals[i].domains, d), col), ColumnPart(col, lambda))
  {
    hide IntervalTerms, SlotTerms, TotalOf, Columns, Slots;
    var i := m.order[p][l];
    assert WeightsFit(m, i, ws[i]);
    var n, k, cols := Copies(m, i), IndexOf(m.intervals[i].domains, d), Columns(m, p, d, l, Slots(m, i));
    IntervalColumn(n, k, starts[i], cols, ws[i], c, lambda);
    assert GlueOfInterval(m, starts, ws, p, d, l) == IntervalTerms(n, k, starts[i], cols, ws[i]);
  }

  lemma GluedColumnOfDirichlet(m: Mesh, y: Layout, lambda: int -> real, i: nat, c: nat, d: nat)
    requires Valid(m) && ValidLayout(m, y) && i < |m.intervals| && c < |Slots(m, i)| && d in m.intervals[i].domains
    ensures d < Domains(m) && TotalOf(DirichletPart(m, y, d), ColumnPart(ColumnOf(m, i, d, Slots(m, i)[c]), lambda)) == 0.0
  {
    ListedPosition(m, i, d);
    GluedSlot(m, i, c);
    var p := ProcessOf(m, d);
    var l := IndexOf(m.order[p], i);
    var pieces, col := FixedPieces(m, y.fixed, p, d), Column(m, p, d, l, Slots(m, i)[c]);
    forall k | 0 <= k < |pieces|
      ensures TotalOf(pieces[k], ColumnPart(col, lambda)) == 0.0
    {
      ForeignFixedPiece(m, y.fixed, p, d, k, l, Slots(m, i)[c]);
      ColumnMiss(pieces[k], col, lambda);
    }
    TotalOfPieces(pieces, -1, ColumnPart(col, lambda));
  }

  lemma ColumnOfGluePart(m: Mesh, y: Layout, ws: seq<seq<seq<real>>>, lambda: int -> real, i: nat, s: Slot, d: nat)
    requires Valid(m) && ValidLayout(m, y) && ValidWeights(m, ws) && i < |m.intervals| && IsSlot(m, i, s) && d in m.intervals[i].domains
    ensures d < Domains(m) && 0 <= ProcessOf(m, d) < Processes(m) && i in m.order[ProcessOf(m, d)]
    ensures var p, col := ProcessOf(m, d), ColumnOf(m, i, d, s);
      TotalOf(GluePart(m, y, ws, d), ColumnPart(col, lambda)) ==
        TotalOf(GlueOfInterval(m, y.glue, ws, p, d, IndexOf(m.order[p], i)), ColumnPart(col, lambda))
  {
    ListedPosition(m, i, d);
    var p := ProcessOf(m, d);
    var l := IndexOf(m.order[p], i);
    var pieces, col := GluePieces(m, y.glue, ws, p, d), Column(m, p, d, l, s);
    forall k | 0 <= k < |pieces| && k != l
      ensures TotalOf(pieces[k], ColumnPart(col, lambda)) == 0.0
    {
      ForeignGluePiece(m, y.glue, ws, p, d, k, l, s);
      ColumnMiss(pieces[k], col, lambda);
    }
    TotalOfPieces(pieces, l, ColumnPart(col, lambda));
  }

  /** The column of a glued slot in domain `d` holds the terms of that slot and nothing else. */
  lemma GlueColumn(m: Mesh, y: Layout, ws: seq<seq<seq<real>>>, lambda: int -> real, i: nat, c: nat, d: nat)
    requires Valid(m) && ValidLayout(m, y) && ValidWeights(m, ws) && i < |m.intervals| && c < |Slots(m, i)| && d in m.intervals[i].domains
    ensures d < Domains(m)
    ensures var col := ColumnOf(m, i, d, Slots(m, i)[c]);
      TotalOf(B1(m, y, ws, d), ColumnPart(col, lambda)) ==
        TotalOf(TermsOfSlot(m, y.glue, ws, i, c, IndexOf(m.intervals[i].domains, d), col), ColumnPart(col, lambda))
  {
    ListedPosition(m, i, d);
    GluedSlot(m, i, c);
    var p := ProcessOf(m, d);
    var col := ColumnOf(m, i, d, Slots(m, i)[c]);
    GluedColumnOfDirichlet(m, y, lambda, i, c, d);
    ColumnOfGluePart(m, y, ws, lambda, i, Slots(m, i)[c], d);
    TotalOfAppend(DirichletPart(m, y, d), GluePart(m, y, ws, d), ColumnPart(col, lambda));
    ColumnsDistinct(m, p, d, IndexOf(m.order[p], i));
    ColumnsAt(m, p, d, IndexOf(m.order[p], i), Slots(m, i));
    GlueColumnOfInterval(m, y.glue, ws, lambda, p, d, IndexOf(m.order[p], i), c, col);
  }

  /** The weights of the copies of every glued degree of freedom sum up to one. */
  ghost predicate UnitWeights(m: Mesh, ws: seq<seq<seq<real>>>)
    requires ValidWeights(m, ws)
  {
    forall i, c :: 0 <= i < |ws| && 0 <= c < |ws[i]| ==> SumAll(ws[i][c]) == 1.0
  }

  /** The values of the first `n` copies. */
  ghost function CopyValues(m: Mesh, u: Field, i: nat, s: Slot, n: nat): (r: seq<real>)
    requires Valid(m) && i < |m.intervals| && n <= Copies(m, i)
    ensures |r| == n
  {
    if n == 0 then [] else CopyValues(m, u, i, s, n - 1) + [CopyValue(m, u, i, s, n - 1)]
  }

  lemma {:induction false} CopyValuesAt(m: Mesh, u: Field, i: nat, s: Slot, n: nat, k: nat)
    requires Valid(m) && i < |m.intervals| && k < n <= Copies(m, i)
    ensures CopyValues(m, u, i, s, n)[k] == CopyValue(m, u, i, s, k)
    decreases n
  {
    if k < n - 1 {
      CopyValuesAt(m, u, i, s, n - 1, k);
    }
  }

  lemma JumpOfSlot(m: Mesh, y: Layout, ws: seq<seq<seq<real>>>, u: Field, i: nat, c: nat, a: nat, b: nat, row: int,
        v: seq<real>, lambda: int -> real)
    requires Valid(m) && ValidLayout(m, y) && ValidWeights(m, ws) && i < |m.intervals| && c < |Slots(m, i)|
    requires a < b < Copies(m, i) && row == SlotStart(m, y.glue, i, c) + PairIndex(Copies(m, i), a, b) + 1
    requires v == CopyValues(m, u, i, Slots(m, i)[c], Copies(m, i)) && IsImage(m, y, ws, u, lambda)
    ensures JumpAt(row, v[a], v[b], lambda)
  {
    GlueRowValue(m, y, ws, u, i, c, a, b, row);
    CopyValuesAt(m, u, i, Slots(m, i)[c], Copies(m, i), a);
    CopyValuesAt(m, u, i, Slots(m, i)[c], Copies(m, i), b);
  }

  lemma {:induction false} JumpsOfSlot(m: Mesh, y: Layout, ws: seq<seq<seq<real>>>, u: Field, i: nat, c: nat, v: seq<real>, lambda: int -> real)
    requires Valid(m) && ValidLayout(m, y) && ValidWeights(m, ws) && i < |m.intervals| && c < |Slots(m, i)|
    requires v == CopyValues(m, u, i, Slots(m, i)[c], Copies(m, i)) && IsImage(m, y, ws, u, lambda)
    ensures JumpsOf(Copies(m, i), SlotStart(m, y.glue, i, c), v, lambda)
  {
    hide Valid, Slots, IsImage, CopyValues, CopyValue, JumpAt, PairIndex, SlotStart;
    var n, base := Copies(m, i), SlotStart(m, y.glue, i, c);
    forall a, b | 0 <= a < b < n
      ensures JumpAt(base + PairIndex(n, a, b) + 1, v[a], v[b], lambda)
    {
      JumpOfSlot(m, y, ws, u, i, c, a, b, base + PairIndex(n, a, b) + 1, v, lambda);
    }
  }

  /** The weighted transpose at a copy collects the terms of the copy's slot. */
  lemma TransposeAtCopy(m: Mesh, y: Layout, ws: seq<seq<seq<real>>>, lambda: int -> real, i: nat, c: nat, k: nat, col: int)
    requires Valid(m) && ValidLayout(m, y) && ValidWeights(m, ws) && i < |m.intervals| && c < |Slots(m, i)| && k < Copies(m, i)
    requires m.intervals[i].domains[k] in m.intervals[i].domains
    requires col == ColumnOf(m, i, m.intervals[i].domains[k], Slots(m, i)[c])
    ensures CopyValue(m, WeightedTranspose(m, y, ws, lambda), i, Slots(m, i)[c], k) ==
      TotalOf(TermsOfSlot(m, y.glue, ws, i, c, k, col), ColumnPart(col, lambda))
  {
    assert ValidInterval(m, i);
    var d := m.intervals[i].domains[k];
    GlueColumn(m, y, ws, lambda, i, c, d);
    assert IndexOf(m.intervals[i].domains, d) == k;
  }

  lemma CorrectionOfTerms(m: Mesh, y: Layout, ws: seq<seq<seq<real>>>, v: seq<real>, lambda: int -> real, i: nat, c: nat, k: nat, col: int)
    requires SizedLayout(m, y) && ValidWeights(m, ws) && i < |m.intervals| && c < |Slots(m, i)| && k < Copies(m, i) == |v|
    requires WeightsFit(m, i, ws[i]) && SumAll(ws[i][c]) == 1.0
    requires JumpsOf(Copies(m, i), SlotStart(m, y.glue, i, c), v, lambda)
    ensures TotalOf(TermsOfSlot(m, y.glue, ws, i, c, k, col), ColumnPart(col, lambda)) == v[k] - Mean(ws[i][c], v)
  {
    SlotCorrection(Copies(m, i), k, SlotStart(m, y.glue, i, c), col, ws[i][c], v, lambda);
  }

  /** Going through `B_D^T * B1` every copy loses the weighted mean of the copies. */
  lemma CorrectedCopy(m: Mesh, y: Layout, ws: seq<seq<seq<real>>>, u: Field, i: nat, c: nat, k: nat, lambda: int -> real)
    requires Valid(m) && ValidLayout(m, y) && ValidWeights(m, ws) && UnitWeights(m, ws) && IsImage(m, y, ws, u, lambda)
    requires i < |m.intervals| && c < |Slots(m, i)| && k < Copies(m, i)
    ensures WeightsFit(m, i, ws[i])
    ensures CopyValue(m, WeightedTranspose(m, y, ws, lambda), i, Slots(m, i)[c], k) ==
      CopyValue(m, u, i, Slots(m, i)[c], k) - Mean(ws[i][c], CopyValues(m, u, i, Slots(m, i)[c], Copies(m, i)))
  {
    assert WeightsFit(m, i, ws[i]);
    var s := Slots(m, i)[c];
    var v, col := CopyValues(m, u, i, s, Copies(m, i)), ColumnOf(m, i, m.intervals[i].domains[k], s);
    TransposeAtCopy(m, y, ws, lambda, i, c, k, col);
    JumpsOfSlot(m, y, ws, u, i, c, v, lambda);
    assert SumAll(ws[i][c]) == 1.0;
    CopyValuesAt(m, u, i, s, Copies(m, i), k);
    CorrectionOfTerms(m, y, ws, v, lambda, i, c, k, col);
  }

  lemma ScalingKeepsGlueRow(m: Mesh, y: Layout, ws: seq<seq<seq<real>>>, u: Field, i: nat, c: nat, a: nat, b: nat, row: int, lambda: int -> real)
    requires Valid(m) && ValidLayout(m, y) && ValidWeights(m, ws) && UnitWeights(m, ws) && IsImage(m, y, ws, u, lambda)
    requires i < |m.intervals| && c < |Slots(m, i)| && a < b < Copies(m, i) && row == GlueRow(m, y, i, c, a, b)
    ensures Apply(m, y, ws, WeightedTranspose(m, y, ws, lambda), row) == Apply(m, y, ws, u, row)
  {
    GlueRowValue(m, y, ws, u, i, c, a, b, row);
    GlueRowValue(m, y, ws, WeightedTranspose(m, y, ws, lambda), i, c, a, b, row);
    CorrectedCopy(m, y, ws, u, i, c, a, lambda);
    CorrectedCopy(m, y, ws, u, i, c, b, lambda);
  }

  /** A Dirichlet row picks the value of one copy. */
  lemma FixedRowValue(m: Mesh, y: Layout, ws: seq<seq<seq<real>>>, u: Field, i: nat, dof: nat, a: nat, j: nat)
    requires Valid(m) && ValidLayout(m, y) && ValidWeights(m, ws) && i < |m.intervals| && dof < |m.intervals[i].listed|
    requires a < Copies(m, i) && j < |m.intervals[i].listed[dof]|
    ensures Apply(m, y, ws, u, FixedRow(m, y, i, dof, a, j)) == CopyValue(m, u, i, FixedSlot(m, i, dof, j), a)
  {
    var d, row := m.intervals[i].domains[a], FixedRow(m, y, i, dof, a, j);
    assert ValidInterval(m, i);
    assert d in m.intervals[i].domains;
    var x := CopyValue(m, u, i, FixedSlot(m, i, dof, j), a);
    forall e: nat | e < Domains(m)
      ensures DomainPart(m, y, ws, u, row)(e) == if e == d then x else 0.0
    {
      FixedRowEntries(m, y, ws, i, dof, a, j, e);
      RowOfEntry(B1(m, y, ws, e), row, u, e);
    }
    SumOfTwo(DomainPart(m, y, ws, u, row), d, Domains(m), Domains(m));
  }

  lemma FixedSlotNotGlued(m: Mesh, i: nat, dof: nat, j: nat)
    requires Valid(m) && i < |m.intervals| && dof < |m.intervals[i].listed| && j < |m.intervals[i].listed[dof]|
    ensures FixedSlot(m, i, dof, j) !in Slots(m, i)
  {
    ConditionSlot(m, i, dof, j);
    if FixedSlot(m, i, dof, j) in Slots(m, i) {
      GluedSlot(m, i, IndexOf(Slots(m, i), FixedSlot(m, i, dof, j)));
    }
  }

  /** The glue terms of a domain avoid its Dirichlet columns. */
  lemma FixedColumnOfGluePart(m: Mesh, y: Layout, ws: seq<seq<seq<real>>>, lambda: int -> real, i: nat, dof: nat, j: nat, d: nat)
    requires Valid(m) && SizedLayout(m, y) && ValidWeights(m, ws) && i < |m.intervals| && d in m.intervals[i].domains
    requires dof < |m.intervals[i].listed| && j < |m.intervals[i].listed[dof]|
    ensures d < Domains(m)
    ensures TotalOf(GluePart(m, y, ws, d), ColumnPart(ColumnOf(m, i, d, FixedSlot(m, i, dof, j)), lambda)) == 0.0
  {
    ListedPosition(m, i, d);
    ConditionSlot(m, i, dof, j);
    FixedSlotNotGlued(m, i, dof, j);
    var p, s := ProcessOf(m, d), FixedSlot(m, i, dof, j);
    var l := IndexOf(m.order[p], i);
    var pieces, col := GluePieces(m, y.glue, ws, p, d), Column(m, p, d, l, s);
    forall k | 0 <= k < |pieces|
      ensures TotalOf(pieces[k], ColumnPart(col, lambda)) == 0.0
    {
      ForeignGluePiece(m, y.glue, ws, p, d, k, l, s);
      ColumnMiss(pieces[k], col, lambda);
    }
    TotalOfPieces(pieces, -1, ColumnPart(col, lambda));
  }

  lemma ConditionColumnsDistinct(m: Mesh, p: nat, d: nat, l: nat, dof: nat, j: nat, col: int)
    requires Valid(m) && p < Processes(m) && l < |m.order[p]| && m.order[p][l] < |m.intervals|
    requires var i := m.order[p][l];
      d in m.intervals[i].domains && dof < |m.intervals[i].listed| && j < |m.intervals[i].listed[dof]| &&
      col == Column(m, p, d, l, FixedSlot(m, i, dof, j))
    ensures OnlyIn(FixedColumns(m, p, d, l, m.intervals[m.order[p][l]].listed), dof, j, col)
  {
    var i := m.order[p][l];
    var listed := m.intervals[i].listed;
    var cols := FixedColumns(m, p, d, l, listed);
    forall e, x | 0 <= e < |listed| && 0 <= x < |listed[e]|
      ensures cols[e][x] == Column(m, p, d, l, FixedSlot(m, i, e, x)) && IsSlot(m, i, FixedSlot(m, i, e, x))
    {
      FixedColumnAt(m, p, d, l, listed, e, x);
      ConditionSlot(m, i, e, x);
    }
    forall e, x, x' | 0 <= e < |listed| && 0 <= x < |listed[e]| && 0 <= x' < |listed[dof]| && cols[e][x] == cols[dof][x']
      ensures e == dof && x == x'
    {
      ColumnInjective(m, p, d, l, FixedSlot(m, i, e, x), l, FixedSlot(m, i, dof, x'));
      ConditionUnique(m, i, e, x, dof, x');
    }
  }

  /** The Dirichlet terms of the own interval in the column of one of its conditions. */
  lemma OwnCondition(m: Mesh, starts: seq<int>, lambda: int -> real, p: nat, d: nat, l: nat, dof: nat, j: nat, col: int, row: int)
    requires p < Processes(m) && l < |m.order[p]| && m.order[p][l] < |m.intervals| == |starts|
    requires var i := m.order[p][l]; var listed := m.intervals[i].listed;
      d in m.intervals[i].domains && dof < |listed| && OnlyIn(FixedColumns(m, p, d, l, listed), dof, j, col) &&
      row == starts[i] + FixedBefore(Copies(m, i), listed, dof)
        + Multiple(|listed[dof]|, IndexOf(m.intervals[i].domains, d)) + j + 1
    ensures TotalOf(FixedOfInterval(m, starts, p, d, l), ColumnPart(col, lambda)) == lambda(row)
  {
    var i := m.order[p][l];
    var n, k, listed := Copies(m, i), IndexOf(m.intervals[i].domains, d), m.intervals[i].listed;
    var cols := FixedColumns(m, p, d, l, listed);
    FixedBeforeLengths(n, cols, listed, dof);
    ColumnOfCondition(n, k, starts[i], cols, dof, j, col, lambda, row);
    assert FixedOfInterval(m, starts, p, d, l) == DirichletTerms(n, k, starts[i], cols, |cols|);
  }

  lemma FixedColumnOfDirichletPart(m: Mesh, y: Layout, lambda: int -> real, i: nat, dof: nat, a: nat, j: nat, d: nat, row: int)
    requires Valid(m) && SizedLayout(m, y) && i < |m.intervals| && a < Copies(m, i) && d == m.intervals[i].domains[a]
    requires dof < |m.intervals[i].listed| && j < |m.intervals[i].listed[dof]| && d in m.intervals[i].domains
    requires row == FixedRow(m, y, i, dof, a, j)
    ensures d < Domains(m)
    ensures TotalOf(DirichletPart(m, y, d), ColumnPart(ColumnOf(m, i, d, FixedSlot(m, i, dof, j)), lambda)) == lambda(row)
  {
    assert ValidInterval(m, i);
    assert IndexOf(m.intervals[i].domains, d) == a;
    ListedPosition(m, i, d);
    ConditionSlot(m, i, dof, j);
    var p, s := ProcessOf(m, d), FixedSlot(m, i, dof, j);
    var l := IndexOf(m.order[p], i);
    var pieces, col := FixedPieces(m, y.fixed, p, d), Column(m, p, d, l, s);
    forall k | 0 <= k < |pieces| && k != l
      ensures TotalOf(pieces[k], ColumnPart(col, lambda)) == 0.0
    {
      ForeignFixedPiece(m, y.fixed, p, d, k, l, s);
      ColumnMiss(pieces[k], col, lambda);
    }
    TotalOfPieces(pieces, l, ColumnPart(col, lambda));
    ConditionColumnsDistinct(m, p, d, l, dof, j, col);
    OwnCondition(m, y.fixed, lambda, p, d, l, dof, j, col, row);
  }

  /** The weighted transpose at a fixed copy is the multiplier of its Dirichlet row. */
  lemma FixedColumn(m: Mesh, y: Layout, ws: seq<seq<seq<real>>>, lambda: int -> real, i: nat, dof: nat, a: nat, j: nat, row: int)
    requires Valid(m) && ValidLayout(m, y) && ValidWeights(m, ws) && i < |m.intervals| && a < Copies(m, i)
    requires dof < |m.intervals[i].listed| && j < |m.intervals[i].listed[dof]|
    requires m.intervals[i].domains[a] in m.intervals[i].domains && row == FixedRow(m, y, i, dof, a, j)
    ensures CopyValue(m, WeightedTranspose(m, y, ws, lambda), i, FixedSlot(m, i, dof, j), a) == lambda(row)
  {
    var d, s := m.intervals[i].domains[a], FixedSlot(m, i, dof, j);
    FixedColumnOfDirichletPart(m, y, lambda, i, dof, a, j, d, row);
    FixedColumnOfGluePart(m, y, ws, lambda, i, dof, j, d);
    TotalOfAppend(DirichletPart(m, y, d), GluePart(m, y, ws, d), ColumnPart(ColumnOf(m, i, d, s), lambda));
  }

  lemma ScalingKeepsFixedRow(m: Mesh, y: Layout, ws: seq<seq<seq<real>>>, u: Field, i: nat, dof: nat, a: nat, j: nat, row: int, lambda: int -> real)
    requires Valid(m) && ValidLayout(m, y) && ValidWeights(m, ws) && IsImage(m, y, ws, u, lambda)
    requires i < |m.intervals| && a < Copies(m, i) && dof < |m.intervals[i].listed| && j < |m.intervals[i].listed[dof]|
    requires row == FixedRow(m, y, i, dof, a, j)
    ensures Apply(m, y, ws, WeightedTranspose(m, y, ws, lambda), row) == Apply(m, y, ws, u, row)
  {
    FixedColumn(m, y, ws, lambda, i, dof, a, j, row);
    FixedRowValue(m, y, ws, WeightedTranspose(m, y, ws, lambda), i, dof, a, j);
    assert lambda(row) == Apply(m, y, ws, u, row);
  }

  /**
   * `B1 * B_D^T * B1 == B1`: for any number of copies and any weights with sum one, the scaled
   * transpose undoes what `B1` measures, on every row.
   */
  lemma ScalingIdentity(m: Mesh, y: Layout, ws: seq<seq<seq<real>>>, u: Field, lambda: int -> real, row: int)
    requires Valid(m) && ValidLayout(m, y) && ValidWeights(m, ws) && UnitWeights(m, ws)
    requires IsImage(m, y, ws, u, lambda) && 0 < row <= y.dirichlet + y.gluing
    ensures Apply(m, y, ws, WeightedTranspose(m, y, ws, lambda), row) == Apply(m, y, ws, u, row)
  {
    if row <= y.dirichlet {
      var i, dof, a, j := FixedRowOf(m, y, row);
      ScalingKeepsFixedRow(m, y, ws, u, i, dof, a, j, row, lambda);
    } else {
      var i, c, a, b := GlueRowOf(m, y, row);
      ScalingKeepsGlueRow(m, y, ws, u, i, c, a, b, row, lambda);
    }
  }
}
