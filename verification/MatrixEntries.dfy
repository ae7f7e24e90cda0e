/**
 * Every entry of `B1` and where it stands: which pair of copies or which condition its row belongs
 * to, and which degree of freedom of the domain's own matrices its column is.
 */
module MatrixEntries {
  import opened Basis
  import opened Decomposition
  import opened Glue
  import opened SlotNumbering
  import opened Gluing
  import opened Numbering
  import opened DomainNodes

  /** The local node numbers of the process of domain `d` follow each other. */
  ghost predicate NumberedFor(m: Mesh, d: nat, begins: seq<nat>) {
    0 <= ProcessOf(m, d) < Processes(m) && NumberedInOrder(m, ProcessOf(m, d), begins)
  }

  /** `col` is the degree of freedom `dof` of node `node` of interval `i` in domain `d`. */
  ghost predicate IsDofColumn(m: Mesh, begins: seq<nat>, d: nat, i: nat, node: nat, dof: nat, col: int)
    requires Valid(m) && i < |m.intervals| && d in m.intervals[i].domains
  {
    ListedPosition(m, i, d);
    var p := ProcessOf(m, d);
    var k := IndexOf(m.order[p], i);
    |m.order[p]| <= |begins| && IsDofOf(m, p, d, begins, begins[k] + node, dof, col)
  }

  lemma SlotColumnIsDof(m: Mesh, begins: seq<nat>, i: nat, d: nat, s: Slot)
    requires Valid(m) && i < |m.intervals| && d in m.intervals[i].domains && NumberedFor(m, d, begins) && IsSlot(m, i, s)
    ensures IsDofColumn(m, begins, d, i, s.node, s.dof, ColumnOf(m, i, d, s))
  {
    ListedPosition(m, i, d);
    var p := ProcessOf(m, d);
    var k := IndexOf(m.order[p], i);
    hide Valid, NumberedInOrder, IsDofOf, DomainIntervals, Column;
    ColumnIsDof(m, p, d, begins, k, s);
  }

  /** The term belongs to copy `k` in the row of the pair `a < b` of copies of glued slot `c`. */
  ghost predicate IsGlueTerm(m: Mesh, y: Layout, ws: seq<seq<seq<real>>>, begins: seq<nat>, d: nat, i: nat, c: nat, a: nat, b: nat, t: Term)
    requires Valid(m) && SizedLayout(m, y) && ValidWeights(m, ws)
  {
    && i < |m.intervals| && c < |Slots(m, i)| && a < b < Copies(m, i) && d in m.intervals[i].domains
    && WeightsFit(m, i, ws[i])
    && t.row == GlueRow(m, y, i, c, a, b)
    && (if d == m.intervals[i].domains[a] then t.value == 1.0 && t.weight == ws[i][c][b]
        else d == m.intervals[i].domains[b] && t.value == -1.0 && t.weight == ws[i][c][a])
    && IsDofColumn(m, begins, d, i, Slots(m, i)[c].node, Slots(m, i)[c].dof, t.col)
  }

  /** The term belongs to the j-th condition on `dof`, in the row of copy `a`. */
  ghost predicate IsFixedTerm(m: Mesh, y: Layout, begins: seq<nat>, d: nat, i: nat, dof: nat, a: nat, j: nat, t: Term)
    requires Valid(m) && SizedLayout(m, y)
  {
    && i < |m.intervals| && dof < |m.intervals[i].listed| && a < Copies(m, i) && j < |m.intervals[i].listed[dof]|
    && t.row == FixedRow(m, y, i, dof, a, j) && d == m.intervals[i].domains[a] && t.value == t.weight == 1.0
    && IsDofColumn(m, begins, d, i, m.intervals[i].listed[dof][j], dof, t.col)
  }

  ghost predicate IsEntry(m: Mesh, y: Layout, ws: seq<seq<seq<real>>>, begins: seq<nat>, d: nat, t: Term)
    requires Valid(m) && SizedLayout(m, y) && ValidWeights(m, ws)
  {
    || (exists i: nat, c: nat, a: nat, b: nat :: IsGlueTerm(m, y, ws, begins, d, i, c, a, b, t))
    || (exists i: nat, dof: nat, a: nat, j: nat :: IsFixedTerm(m, y, begins, d, i, dof, a, j, t))
  }

  /** A term of a row is the only one found there. */
  lemma TermInRow(ts: seq<Term>, e: nat, x: Entry)
    requires e < |ts| && InRow(ts, ts[e].row) == x && x != Many
    ensures x == One(ts[e])
  {
  }

  lemma GlueTermFound(m: Mesh, y: Layout, ws: seq<seq<seq<real>>>, begins: seq<nat>, d: nat, e: nat)
    requires Valid(m) && ValidLayout(m, y) && ValidWeights(m, ws) && d < Domains(m) && NumberedFor(m, d, begins)
    requires e < |B1(m, y, ws, d)| && y.dirichlet < B1(m, y, ws, d)[e].row <= y.dirichlet + y.gluing
    ensures IsEntry(m, y, ws, begins, d, B1(m, y, ws, d)[e])
  {
    var t := B1(m, y, ws, d)[e];
    var i, c, a, b := GlueRowOf(m, y, t.row);
    GlueRowEntries(m, y, ws, i, c, a, b, d);
    hide InRow, B1, GlueRow, IsDofColumn, NumberedFor, ValidLayout, ColumnOf, Slots;
    var domains := m.intervals[i].domains;
    TermInRow(B1(m, y, ws, d), e, InRow(B1(m, y, ws, d), t.row));
    GluedSlot(m, i, c);
    SlotColumnIsDof(m, begins, i, d, Slots(m, i)[c]);
    assert IsGlueTerm(m, y, ws, begins, d, i, c, a, b, t);
  }

  lemma FixedTermFound(m: Mesh, y: Layout, ws: seq<seq<seq<real>>>, begins: seq<nat>, d: nat, e: nat)
    requires Valid(m) && ValidLayout(m, y) && ValidWeights(m, ws) && d < Domains(m) && NumberedFor(m, d, begins)
    requires e < |B1(m, y, ws, d)| && 0 < B1(m, y, ws, d)[e].row <= y.dirichlet
    ensures IsEntry(m, y, ws, begins, d, B1(m, y, ws, d)[e])
  {
    var t := B1(m, y, ws, d)[e];
    var i, dof, a, j := FixedRowOf(m, y, t.row);
    FixedRowEntries(m, y, ws, i, dof, a, j, d);
    hide InRow, B1, FixedRow, IsDofColumn, NumberedFor, ValidLayout, ColumnOf;
    TermInRow(B1(m, y, ws, d), e, InRow(B1(m, y, ws, d), t.row));
    assert d in m.intervals[i].domains;
    ConditionSlot(m, i, dof, j);
    SlotColumnIsDof(m, begins, i, d, FixedSlot(m, i, dof, j));
    assert IsFixedTerm(m, y, begins, d, i, dof, a, j, t);
  }

  /** Rows of a domain are Dirichlet rows or glue rows. */
  lemma TermRow(m: Mesh, y: Layout, ws: seq<seq<seq<real>>>, d: nat, e: nat)
    requires Valid(m) && ValidLayout(m, y) && ValidWeights(m, ws) && d < Domains(m) && e < |B1(m, y, ws, d)|
    ensures 0 < B1(m, y, ws, d)[e].row <= y.dirichlet || y.dirichlet < B1(m, y, ws, d)[e].row <= y.dirichlet + y.gluing
  {
    hide Valid, ValidLayout, ValidWeights, DirichletPart, GluePart;
    DirichletPartRows(m, y, d);
    GluePartRows(m, y, ws, d);
  }

  /** Every term of a domain is a glue or a Dirichlet entry on the degree of freedom it constrains. */
  lemma EveryTermIsEntry(m: Mesh, y: Layout, ws: seq<seq<seq<real>>>, begins: seq<nat>, d: nat, e: nat)
    requires Valid(m) && ValidLayout(m, y) && ValidWeights(m, ws) && d < Domains(m) && NumberedFor(m, d, begins)
    requires e < |B1(m, y, ws, d)|
    ensures IsEntry(m, y, ws, begins, d, B1(m, y, ws, d)[e])
  {
    hide IsEntry, Valid, ValidWeights, B1, NumberedFor;
    TermRow(m, y, ws, d, e);
    if B1(m, y, ws, d)[e].row <= y.dirichlet {
      FixedTermFound(m, y, ws, begins, d, e);
    } else {
      GlueTermFound(m, y, ws, begins, d, e);
    }
  }

  /** Every pair of copies has its entry in the domains of both, on the degree of freedom glued. */
  lemma EveryPairHasEntries(m: Mesh, y: Layout, ws: seq<seq<seq<real>>>, begins: seq<nat>, d: nat, i: nat, c: nat, a: nat, b: nat)
      returns (t: Term)
    requires Valid(m) && ValidLayout(m, y) && ValidWeights(m, ws) && d < Domains(m) && NumberedFor(m, d, begins)
    requires i < |m.intervals| && c < |Slots(m, i)| && a < b < Copies(m, i)
    requires d == m.intervals[i].domains[a] || d == m.intervals[i].domains[b]
    ensures InRow(B1(m, y, ws, d), GlueRow(m, y, i, c, a, b)) == One(t) && IsGlueTerm(m, y, ws, begins, d, i, c, a, b, t)
  {
    GlueRowEntries(m, y, ws, i, c, a, b, d);
    hide InRow, B1, GlueRow, IsDofColumn, NumberedFor, ValidLayout, ColumnOf, Slots;
    t := InRow(B1(m, y, ws, d), GlueRow(m, y, i, c, a, b)).term;
    GluedSlot(m, i, c);
    SlotColumnIsDof(m, begins, i, d, Slots(m, i)[c]);
  }

  /** Every condition of every copy has its entry, on the degree of freedom it fixes. */
  lemma EveryConditionHasEntry(m: Mesh, y: Layout, ws: seq<seq<seq<real>>>, begins: seq<nat>, d: nat, i: nat, dof: nat, a: nat, j: nat)
      returns (t: Term)
    requires Valid(m) && ValidLayout(m, y) && ValidWeights(m, ws) && d < Domains(m) && NumberedFor(m, d, begins)
    requires i < |m.intervals| && dof < |m.intervals[i].listed| && a < Copies(m, i) && j < |m.intervals[i].listed[dof]|
    requires d == m.intervals[i].domains[a]
    ensures InRow(B1(m, y, ws, d), FixedRow(m, y, i, dof, a, j)) == One(t) && IsFixedTerm(m, y, begins, d, i, dof, a, j, t)
  {
    FixedRowEntries(m, y, ws, i, dof, a, j, d);
    hide InRow, B1, FixedRow, IsDofColumn, NumberedFor, ValidLayout, ColumnOf;
    t := InRow(B1(m, y, ws, d), FixedRow(m, y, i, dof, a, j)).term;
    assert d in m.intervals[i].domains;
    ConditionSlot(m, i, dof, j);
    SlotColumnIsDof(m, begins, i, d, FixedSlot(m, i, dof, j));
  }
}
