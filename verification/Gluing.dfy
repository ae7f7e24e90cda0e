/**
 * The constraint matrix `B1` of the whole mesh: rows computed independently by every domain of
 * every process, from interval offsets alone, meet as intended.
 */
module Gluing {
  import opened Basis
  import opened Decomposition
  import opened Pairs
  import opened Glue
  import opened Offsets
  import opened SlotNumbering

  function Slots(m: Mesh, i: nat): seq<Slot>
    requires i < |m.intervals|
  {
    var interval := m.intervals[i];
    if m.dofs <= |interval.fixed| then FreeSlots(interval, m.dofs) else []
  }

  /** Number of copies of the nodes of interval `i`. */
  function Copies(m: Mesh, i: nat): nat
    requires i < |m.intervals|
  {
    |m.intervals[i].domains|
  }

  /** Rows of the interval in the gluing part and in the Dirichlet part (redundant multipliers). */
  function GlueSize(m: Mesh, i: nat): nat
    requires i < |m.intervals|
  {
    Multiple(Triangle(Copies(m, i)), |Slots(m, i)|)
  }

  function FixedSize(m: Mesh, i: nat): nat
    requires i < |m.intervals|
  {
    FixedBefore(Copies(m, i), m.intervals[i].listed, |m.intervals[i].listed|)
  }

  function GlueSizes(m: Mesh): seq<nat> {
    seq(|m.intervals|, i requires 0 <= i < |m.intervals| => GlueSize(m, i))
  }

  function FixedSizes(m: Mesh): seq<nat> {
    seq(|m.intervals|, i requires 0 <= i < |m.intervals| => FixedSize(m, i))
  }

  /** Sizes of the listed intervals containing domain `d`: what `DOFOffset` sums up. */
  function SizesOfDomain(m: Mesh, p: nat, d: nat): (r: seq<nat>)
    requires p < Processes(m)
    ensures |r| == |m.order[p]|
  {
    seq(|m.order[p]|, k requires 0 <= k < |m.order[p]| =>
      var i := m.order[p][k];
      if i < |m.intervals| && d in m.intervals[i].domains then m.intervals[i].size else 0)
  }

  /** The column of a slot of the k-th listed interval, in domain `d`. */
  function Column(m: Mesh, p: nat, d: nat, k: nat, s: Slot): int
    requires p < Processes(m) && k < |m.order[p]|
  {
    SlotColumn(m.dofs, Prefix(SizesOfDomain(m, p, d), k), s)
  }

  function Columns(m: Mesh, p: nat, d: nat, k: nat, slots: seq<Slot>): (r: seq<int>)
    requires p < Processes(m) && k < |m.order[p]|
    ensures |r| == |slots|
  {
    SlotColumns(m.dofs, Prefix(SizesOfDomain(m, p, d), k), slots)
  }

  lemma ColumnsAt(m: Mesh, p: nat, d: nat, k: nat, slots: seq<Slot>)
    requires p < Processes(m) && k < |m.order[p]|
    ensures forall c :: 0 <= c < |slots| ==> Columns(m, p, d, k, slots)[c] == Column(m, p, d, k, slots[c])
  {
    SlotColumnsAt(m.dofs, Prefix(SizesOfDomain(m, p, d), k), slots);
  }

  function FixedColumns(m: Mesh, p: nat, d: nat, k: nat, listed: seq<seq<nat>>): (r: seq<seq<int>>)
    requires p < Processes(m) && k < |m.order[p]|
    ensures |r| == |listed|
  {
    seq(|listed|, dof requires 0 <= dof < |listed| => Columns(m, p, d, k, OnDof(listed[dof], dof)))
  }

  /** One weight for each copy of each glued degree of freedom. */
  ghost predicate ValidWeights(m: Mesh, ws: seq<seq<seq<real>>>) {
    |ws| == |m.intervals| && forall i :: 0 <= i < |ws| ==> WeightsFit(m, i, ws[i])
  }

  ghost predicate WeightsFit(m: Mesh, i: nat, w: seq<seq<real>>)
    requires i < |m.intervals|
  {
    |w| == |Slots(m, i)| && forall c :: 0 <= c < |w| ==> |w[c]| == Copies(m, i)
  }

  /** What the k-th listed interval adds to the gluing part of domain `d`. */
  ghost function GlueOfInterval(m: Mesh, starts: seq<int>, ws: seq<seq<seq<real>>>, p: nat, d: nat, k: nat): seq<Term>
    requires p < Processes(m) && k < |m.order[p]| && |starts| == |m.intervals| && ValidWeights(m, ws)
  {
    var i := m.order[p][k];
    if i < |m.intervals| && d in m.intervals[i].domains then
      assert WeightsFit(m, i, ws[i]);
      IntervalTerms(Copies(m, i), IndexOf(m.intervals[i].domains, d), starts[i], Columns(m, p, d, k, Slots(m, i)), ws[i])
    else []
  }

  /** What the k-th listed interval adds to the Dirichlet part of domain `d`. */
  ghost function FixedOfInterval(m: Mesh, starts: seq<int>, p: nat, d: nat, k: nat): seq<Term>
    requires p < Processes(m) && k < |m.order[p]| && |starts| == |m.intervals|
  {
    var i := m.order[p][k];
    if i < |m.intervals| && d in m.intervals[i].domains then
      var listed := m.intervals[i].listed;
      DirichletTerms(Copies(m, i), IndexOf(m.intervals[i].domains, d), starts[i],
        FixedColumns(m, p, d, k, listed), |listed|)
    else []
  }

  /** The gluing part of domain `d`, one piece for each listed interval. */
  ghost function GluePieces(m: Mesh, starts: seq<int>, ws: seq<seq<seq<real>>>, p: nat, d: nat): (r: seq<seq<Term>>)
    requires p < Processes(m) && |starts| == |m.intervals| && ValidWeights(m, ws)
    ensures |r| == |m.order[p]|
  {
    seq(|m.order[p]|, k requires 0 <= k < |m.order[p]| => GlueOfInterval(m, starts, ws, p, d, k))
  }

  ghost function FixedPieces(m: Mesh, starts: seq<int>, p: nat, d: nat): (r: seq<seq<Term>>)
    requires p < Processes(m) && |starts| == |m.intervals|
    ensures |r| == |m.order[p]|
  {
    seq(|m.order[p]|, k requires 0 <= k < |m.order[p]| => FixedOfInterval(m, starts, p, d, k))
  }

  /** Distinct intervals got disjoint row ranges. */
  ghost predicate DisjointRows(starts: seq<int>, sizes: seq<nat>) {
    |starts| == |sizes| && forall i, j :: 0 <= i < |starts| && 0 <= j < |starts| && i != j ==> ApartRows(starts, sizes, i, j)
  }

  ghost predicate ApartRows(starts: seq<int>, sizes: seq<nat>, i: nat, j: nat)
    requires i < |starts| == |sizes| && j < |starts|
  {
    starts[i] + sizes[i] <= starts[j] || starts[j] + sizes[j] <= starts[i]
  }

  lemma GlueOfIntervalRows(m: Mesh, starts: seq<int>, ws: seq<seq<seq<real>>>, p: nat, d: nat, k: nat)
    requires p < Processes(m) && k < |m.order[p]| && |starts| == |m.intervals| && ValidWeights(m, ws)
    ensures var i := m.order[p][k]; var ts := GlueOfInterval(m, starts, ws, p, d, k);
      if i < |m.intervals| then RowsWithin(ts, starts[i], starts[i] + GlueSize(m, i)) else ts == []
  {
    var i := m.order[p][k];
    if i < |m.intervals| && d in m.intervals[i].domains {
      assert WeightsFit(m, i, ws[i]);
      IntervalRows(Copies(m, i), IndexOf(m.intervals[i].domains, d), starts[i], Columns(m, p, d, k, Slots(m, i)), ws[i]);
    }
  }

  lemma FixedOfIntervalRows(m: Mesh, starts: seq<int>, p: nat, d: nat, k: nat)
    requires p < Processes(m) && k < |m.order[p]| && |starts| == |m.intervals|
    ensures var i := m.order[p][k]; var ts := FixedOfInterval(m, starts, p, d, k);
      if i < |m.intervals| then RowsWithin(ts, starts[i], starts[i] + FixedSize(m, i)) else ts == []
  {
    var i := m.order[p][k];
    if i < |m.intervals| && d in m.intervals[i].domains {
      var listed := m.intervals[i].listed;
      var cols := FixedColumns(m, p, d, k, listed);
      DirichletRows(Copies(m, i), IndexOf(m.intervals[i].domains, d), starts[i], cols, |listed|);
      FixedBeforeLengths(Copies(m, i), cols, listed, |listed|);
    }
  }

  /** In a row of its l-th listed interval, domain `d` has what that interval contributes. */
  lemma GluePartInRow(m: Mesh, starts: seq<int>, ws: seq<seq<seq<real>>>, p: nat, d: nat, l: nat, row: int)
    requires p < Processes(m) && l < |m.order[p]| && |starts| == |m.intervals| && ValidWeights(m, ws)
    requires DisjointRows(starts, GlueSizes(m)) && Distinct(m.order[p]) && m.order[p][l] < |m.intervals|
    requires starts[m.order[p][l]] < row <= starts[m.order[p][l]] + GlueSize(m, m.order[p][l])
    ensures InRow(Flatten(GluePieces(m, starts, ws, p, d)), row) == InRow(GlueOfInterval(m, starts, ws, p, d, l), row)
  {
    forall k | 0 <= k < |m.order[p]| && k != l
      ensures HitsOnly(GluePieces(m, starts, ws, p, d)[k], row, -1)
    {
      GlueOfIntervalRows(m, starts, ws, p, d, k);
      if m.order[p][k] < |m.intervals| {
        assert ApartRows(starts, GlueSizes(m), m.order[p][l], m.order[p][k]);
      }
    }
    FlattenInRow(GluePieces(m, starts, ws, p, d), l, row);
  }

  lemma FixedPartInRow(m: Mesh, starts: seq<int>, p: nat, d: nat, l: nat, row: int)
    requires p < Processes(m) && l < |m.order[p]| && |starts| == |m.intervals|
    requires DisjointRows(starts, FixedSizes(m)) && Distinct(m.order[p]) && m.order[p][l] < |m.intervals|
    requires starts[m.order[p][l]] < row <= starts[m.order[p][l]] + FixedSize(m, m.order[p][l])
    ensures InRow(Flatten(FixedPieces(m, starts, p, d)), row) == InRow(FixedOfInterval(m, starts, p, d, l), row)
  {
    forall k | 0 <= k < |m.order[p]| && k != l
      ensures HitsOnly(FixedPieces(m, starts, p, d)[k], row, -1)
    {
      FixedOfIntervalRows(m, starts, p, d, k);
      if m.order[p][k] < |m.intervals| {
        assert ApartRows(starts, FixedSizes(m), m.order[p][l], m.order[p][k]);
      }
    }
    FlattenInRow(FixedPieces(m, starts, p, d), l, row);
  }

  /** The row ranges of all intervals: Dirichlet rows first, glue rows behind them (zero-based). */
  datatype Layout = Layout(fixed: seq<int>, glue: seq<int>, dirichlet: nat, gluing: nat)

  ghost predicate InRange(starts: seq<int>, sizes: seq<nat>, i: nat, x: int)
    requires |starts| == |sizes|
  {
    i < |starts| && starts[i] <= x < starts[i] + sizes[i]
  }

  ghost predicate Covered(starts: seq<int>, sizes: seq<nat>, x: int)
    requires |starts| == |sizes|
  {
    exists i: nat :: InRange(starts, sizes, i, x)
  }

  /** Disjoint ranges that together are exactly `lo .. hi`. */
  ghost predicate Tiles(starts: seq<int>, sizes: seq<nat>, lo: int, hi: int) {
    && DisjointRows(starts, sizes)
    && (forall i :: 0 <= i < |starts| ==> WithinRows(starts, sizes, i, lo, hi))
    && (forall x :: lo <= x < hi ==> Covered(starts, sizes, x))
  }

  ghost predicate WithinRows(starts: seq<int>, sizes: seq<nat>, i: nat, lo: int, hi: int)
    requires i < |starts| == |sizes|
  {
    lo <= starts[i] && starts[i] + sizes[i] <= hi
  }

  ghost predicate SizedLayout(m: Mesh, y: Layout) {
    |y.fixed| == |y.glue| == |m.intervals|
  }

  lemma ApartAt(starts: seq<int>, sizes: seq<nat>, i: nat, j: nat)
    requires DisjointRows(starts, sizes) && i < |starts| && j < |starts| && i != j
    ensures starts[i] + sizes[i] <= starts[j] || starts[j] + sizes[j] <= starts[i]
  {
    assert ApartRows(starts, sizes, i, j);
  }

  ghost predicate ValidLayout(m: Mesh, y: Layout) {
    && Tiles(y.fixed, FixedSizes(m), 0, y.dirichlet)
    && Tiles(y.glue, GlueSizes(m), y.dirichlet, y.dirichlet + y.gluing)
  }

  /** The complete matrix of domain `d`: Dirichlet rows first, then glue rows. */
  ghost function DirichletPart(m: Mesh, y: Layout, d: nat): seq<Term>
    requires Valid(m) && SizedLayout(m, y) && d < Domains(m)
  {
    ProcessOfDomain(m, d);
    Flatten(FixedPieces(m, y.fixed, ProcessOf(m, d), d))
  }

  ghost function GluePart(m: Mesh, y: Layout, ws: seq<seq<seq<real>>>, d: nat): seq<Term>
    requires Valid(m) && SizedLayout(m, y) && ValidWeights(m, ws) && d < Domains(m)
  {
    ProcessOfDomain(m, d);
    Flatten(GluePieces(m, y.glue, ws, ProcessOf(m, d), d))
  }

  ghost function B1(m: Mesh, y: Layout, ws: seq<seq<seq<real>>>, d: nat): seq<Term>
    requires Valid(m) && SizedLayout(m, y) && ValidWeights(m, ws) && d < Domains(m)
  {
    DirichletPart(m, y, d) + GluePart(m, y, ws, d)
  }

  lemma {:induction false} FlattenRows(pieces: seq<seq<Term>>, lo: int, hi: int)
    requires forall k :: 0 <= k < |pieces| ==> RowsWithin(pieces[k], lo, hi)
    ensures RowsWithin(Flatten(pieces), lo, hi)
  {
    if pieces != [] {
      FlattenRows(pieces[..|pieces| - 1], lo, hi);
    }
  }

  lemma DirichletPartRows(m: Mesh, y: Layout, d: nat)
    requires Valid(m) && ValidLayout(m, y) && d < Domains(m)
    ensures RowsWithin(DirichletPart(m, y, d), 0, y.dirichlet)
  {
    ProcessOfDomain(m, d);
    var p := ProcessOf(m, d);
    forall k | 0 <= k < |m.order[p]|
      ensures RowsWithin(FixedPieces(m, y.fixed, p, d)[k], 0, y.dirichlet)
    {
      FixedOfIntervalRows(m, y.fixed, p, d, k);
      ListedIsSeen(m, p, k);
      assert WithinRows(y.fixed, FixedSizes(m), m.order[p][k], 0, y.dirichlet);
    }
    FlattenRows(FixedPieces(m, y.fixed, p, d), 0, y.dirichlet);
  }

  lemma GluePartRows(m: Mesh, y: Layout, ws: seq<seq<seq<real>>>, d: nat)
    requires Valid(m) && ValidLayout(m, y) && ValidWeights(m, ws) && d < Domains(m)
    ensures RowsWithin(GluePart(m, y, ws, d), y.dirichlet, y.dirichlet + y.gluing)
  {
    ProcessOfDomain(m, d);
    var p := ProcessOf(m, d);
    forall k | 0 <= k < |m.order[p]|
      ensures RowsWithin(GluePieces(m, y.glue, ws, p, d)[k], y.dirichlet, y.dirichlet + y.gluing)
    {
      GlueOfIntervalRows(m, y.glue, ws, p, d, k);
      ListedIsSeen(m, p, k);
      assert WithinRows(y.glue, GlueSizes(m), m.order[p][k], y.dirichlet, y.dirichlet + y.gluing);
    }
    FlattenRows(GluePieces(m, y.glue, ws, p, d), y.dirichlet, y.dirichlet + y.gluing);
  }

  /** The row of the pair `a < b` of copies of glued degree of freedom `c` of interval `i`. */
  ghost function GlueRow(m: Mesh, y: Layout, i: nat, c: nat, a: nat, b: nat): int
    requires Valid(m) && SizedLayout(m, y) && i < |m.intervals| && a < b < Copies(m, i)
  {
    y.glue[i] + Multiple(Triangle(Copies(m, i)), c) + PairIndex(Copies(m, i), a, b) + 1
  }

  /** The row of the j-th condition on degree of freedom `dof` of interval `i`, for copy `a`. */
  ghost function FixedRow(m: Mesh, y: Layout, i: nat, dof: nat, a: nat, j: nat): int
    requires Valid(m) && SizedLayout(m, y) && i < |m.intervals| && dof < |m.intervals[i].listed| && a < Copies(m, i)
  {
    var listed := m.intervals[i].listed;
    y.fixed[i] + FixedBefore(Copies(m, i), listed, dof) + Multiple(|listed[dof]|, a) + j + 1
  }

  /** Position of interval `i` in the list of the process of domain `d`. */
  lemma ListedPosition(m: Mesh, i: nat, d: nat)
    requires Valid(m) && i < |m.intervals| && d in m.intervals[i].domains
    ensures d < Domains(m) && 0 <= ProcessOf(m, d) < Processes(m)
    ensures i in m.order[ProcessOf(m, d)] && Distinct(m.order[ProcessOf(m, d)])
  {
    assert ValidInterval(m, i);
    ProcessOfDomain(m, d);
    assert Holds(m, ProcessOf(m, d), d);
    assert Sees(m, ProcessOf(m, d), i);
    assert ListsItsIntervals(m, ProcessOf(m, d));
  }

  /** The column of slot `s` of interval `i` in domain `d`. */
  ghost function ColumnOf(m: Mesh, i: nat, d: nat, s: Slot): int
    requires Valid(m) && i < |m.intervals| && d in m.intervals[i].domains
  {
    ListedPosition(m, i, d);
    Column(m, ProcessOf(m, d), d, IndexOf(m.order[ProcessOf(m, d)], i), s)
  }

  lemma GlueRowInRange(m: Mesh, y: Layout, i: nat, c: nat, a: nat, b: nat)
    requires Valid(m) && ValidLayout(m, y) && i < |m.intervals| && c < |Slots(m, i)| && a < b < Copies(m, i)
    ensures y.glue[i] + Multiple(Triangle(Copies(m, i)), c) < GlueRow(m, y, i, c, a, b)
    ensures GlueRow(m, y, i, c, a, b) <= y.glue[i] + Multiple(Triangle(Copies(m, i)), c + 1)
    ensures y.glue[i] < GlueRow(m, y, i, c, a, b) <= y.glue[i] + GlueSize(m, i)
    ensures y.dirichlet < GlueRow(m, y, i, c, a, b) <= y.dirichlet + y.gluing
  {
    PairIndexInRange(Copies(m, i), a, b);
    MultipleMonotone(Triangle(Copies(m, i)), c + 1, |Slots(m, i)|);
    assert WithinRows(y.glue, GlueSizes(m), i, y.dirichlet, y.dirichlet + y.gluing);
  }

  /** A domain without the interval has nothing in the interval's rows. */
  lemma ForeignDomain(m: Mesh, y: Layout, ws: seq<seq<seq<real>>>, i: nat, row: int, d: nat)
    requires Valid(m) && ValidLayout(m, y) && ValidWeights(m, ws) && i < |m.intervals| && d < Domains(m)
    requires d !in m.intervals[i].domains && y.glue[i] < row <= y.glue[i] + GlueSize(m, i)
    ensures InRow(GluePart(m, y, ws, d), row) == Nothing
  {
    ProcessOfDomain(m, d);
    var p := ProcessOf(m, d);
    var pieces := GluePieces(m, y.glue, ws, p, d);
    forall k | 0 <= k < |pieces|
      ensures HitsOnly(pieces[k], row, -1)
    {
      GlueOfIntervalRows(m, y.glue, ws, p, d, k);
      if m.order[p][k] < |m.intervals| && m.order[p][k] != i {
        assert ApartRows(y.glue, GlueSizes(m), i, m.order[p][k]);
      }
    }
    FlattenMisses(pieces, row);
    InRowHit(Flatten(pieces), row, -1);
  }

  lemma {:induction false} OwnInterval(m: Mesh, starts: seq<int>, ws: seq<seq<seq<real>>>, p: nat, d: nat, l: nat, c: nat, a: nat, b: nat, row: int)
    requires p < Processes(m) && l < |m.order[p]| && |starts| == |m.intervals| && ValidWeights(m, ws)
    requires var i := m.order[p][l];
      i < |m.intervals| && d in m.intervals[i].domains && c < |Slots(m, i)| && a < b < Copies(m, i) &&
      row == starts[i] + Multiple(Triangle(Copies(m, i)), c) + PairIndex(Copies(m, i), a, b) + 1
    ensures var i := m.order[p][l];
      WeightsFit(m, i, ws[i]) &&
      InRow(GlueOfInterval(m, starts, ws, p, d, l), row) ==
        PairTerm(IndexOf(m.intervals[i].domains, d), a, b, row, Column(m, p, d, l, Slots(m, i)[c]), ws[i][c])
  {
    hide IntervalTerms, SlotTerms, InRow, Triangle, PairStart, Prefix;
    var i := m.order[p][l];
    var n, k, cols := Copies(m, i), IndexOf(m.intervals[i].domains, d), Columns(m, p, d, l, Slots(m, i));
    assert WeightsFit(m, i, ws[i]);
    PairIndexInRange(n, a, b);
    IntervalInRow(n, k, starts[i], cols, ws[i], c, row);
    SlotInRow(n, k, starts[i] + Multiple(Triangle(n), c), cols[c], ws[i][c], a, b);
    ColumnsAt(m, p, d, l, Slots(m, i));
  }

  lemma OwnDomain(m: Mesh, y: Layout, ws: seq<seq<seq<real>>>, i: nat, c: nat, a: nat, b: nat, d: nat)
    requires Valid(m) && ValidLayout(m, y) && ValidWeights(m, ws) && i < |m.intervals| && c < |Slots(m, i)| && a < b < Copies(m, i)
    requires d in m.intervals[i].domains
    ensures d < Domains(m) && WeightsFit(m, i, ws[i])
    ensures InRow(GluePart(m, y, ws, d), GlueRow(m, y, i, c, a, b)) ==
      PairTerm(IndexOf(m.intervals[i].domains, d), a, b, GlueRow(m, y, i, c, a, b),
        ColumnOf(m, i, d, Slots(m, i)[c]), ws[i][c])
  {
    ListedPosition(m, i, d);
    GlueRowInRange(m, y, i, c, a, b);
    var p := ProcessOf(m, d);
    var l := IndexOf(m.order[p], i);
    var row, starts := GlueRow(m, y, i, c, a, b), y.glue;
    GluePartInRow(m, starts, ws, p, d, l, row);
    OwnInterval(m, starts, ws, p, d, l, c, a, b, row);
    assert ColumnOf(m, i, d, Slots(m, i)[c]) == Column(m, p, d, l, Slots(m, i)[c]);
  }

  /**
   * Every glue row, over all domains of all processes: the domain of the lower copy has +1, the
   * domain of the higher copy -1, both on the same degree of freedom, and no other domain has
   * anything.
   */
  lemma GlueRowEntries(m: Mesh, y: Layout, ws: seq<seq<seq<real>>>, i: nat, c: nat, a: nat, b: nat, d: nat)
    requires Valid(m) && ValidLayout(m, y) && ValidWeights(m, ws) && i < |m.intervals| && c < |Slots(m, i)| && a < b < Copies(m, i)
    requires d < Domains(m)
    ensures WeightsFit(m, i, ws[i])
    ensures var domains, row, s, w := m.intervals[i].domains, GlueRow(m, y, i, c, a, b), Slots(m, i)[c], ws[i][c];
      InRow(B1(m, y, ws, d), row) ==
        if d == domains[a] then One(Term(row, ColumnOf(m, i, d, s), 1.0, w[b]))
        else if d == domains[b] then One(Term(row, ColumnOf(m, i, d, s), -1.0, w[a]))
        else Nothing
  {
    var domains, row := m.intervals[i].domains, GlueRow(m, y, i, c, a, b);
    assert WeightsFit(m, i, ws[i]);
    assert ValidInterval(m, i);
    GlueRowInRange(m, y, i, c, a, b);
    DirichletPartRows(m, y, d);
    InRowExtend(GluePart(m, y, ws, d), DirichletPart(m, y, d), row);
    if d in domains {
      OwnDomain(m, y, ws, i, c, a, b, d);
    } else {
      ForeignDomain(m, y, ws, i, row, d);
    }
  }

  /** The glue rows tile `DirichletSize + 1 .. DirichletSize + GluingSize`: each has its pair. */
  lemma GlueRowOf(m: Mesh, y: Layout, row: int) returns (i: nat, c: nat, a: nat, b: nat)
    requires Valid(m) && ValidLayout(m, y) && y.dirichlet < row <= y.dirichlet + y.gluing
    ensures i < |m.intervals| && c < |Slots(m, i)| && a < b < Copies(m, i) && GlueRow(m, y, i, c, a, b) == row
  {
    assert Covered(y.glue, GlueSizes(m), row - 1);
    i :| InRange(y.glue, GlueSizes(m), i, row - 1);
    var n := Copies(m, i);
    var x := row - y.glue[i] - 1;
    c := MultipleCovers(Triangle(n), x, |Slots(m, i)|);
    PairStartComplement(n, n);
    a, b := PairOfIndex(n, x - Multiple(Triangle(n), c), n);
  }

  /** No row serves two pairs. */
  lemma {:induction false} GlueRowUnique(m: Mesh, y: Layout, i: nat, c: nat, a: nat, b: nat, i': nat, c': nat, a': nat, b': nat)
    requires Valid(m) && ValidLayout(m, y) && i < |m.intervals| && c < |Slots(m, i)| && a < b < Copies(m, i)
    requires i' < |m.intervals| && c' < |Slots(m, i')| && a' < b' < Copies(m, i')
    requires GlueRow(m, y, i, c, a, b) == GlueRow(m, y, i', c', a', b')
    ensures i == i' && c == c' && a == a' && b == b'
  {
    GlueRowInRange(m, y, i, c, a, b);
    GlueRowInRange(m, y, i', c', a', b');
    if i != i' {
      ApartAt(y.glue, GlueSizes(m), i, i');
    } else if c < c' {
      MultipleMonotone(Triangle(Copies(m, i)), c + 1, c');
    } else if c' < c {
      MultipleMonotone(Triangle(Copies(m, i)), c' + 1, c);
    } else {
      PairIndexInjective(Copies(m, i), a, b, a', b');
    }
  }

  /** The slots of the Dirichlet conditions on `dof`, in region order. */
  function FixedSlot(m: Mesh, i: nat, dof: nat, j: nat): Slot
    requires i < |m.intervals| && dof < |m.intervals[i].listed| && j < |m.intervals[i].listed[dof]|
  {
    Slot(m.intervals[i].listed[dof][j], dof)
  }

  lemma FixedRowInRange(m: Mesh, y: Layout, i: nat, dof: nat, a: nat, j: nat)
    requires Valid(m) && ValidLayout(m, y) && i < |m.intervals| && dof < |m.intervals[i].listed| && a < Copies(m, i)
    requires j < |m.intervals[i].listed[dof]|
    ensures var listed := m.intervals[i].listed; var row := FixedRow(m, y, i, dof, a, j);
      y.fixed[i] + FixedBefore(Copies(m, i), listed, dof) < row
        <= y.fixed[i] + FixedBefore(Copies(m, i), listed, dof + 1) &&
      y.fixed[i] < row <= y.fixed[i] + FixedSize(m, i) && 0 < row <= y.dirichlet
  {
    var listed := m.intervals[i].listed;
    MultipleMonotone(|listed[dof]|, a + 1, Copies(m, i));
    FixedBeforeMonotone(Copies(m, i), listed, dof + 1, |listed|);
    assert WithinRows(y.fixed, FixedSizes(m), i, 0, y.dirichlet);
  }

  lemma ForeignFixed(m: Mesh, y: Layout, i: nat, row: int, d: nat)
    requires Valid(m) && ValidLayout(m, y) && i < |m.intervals| && d < Domains(m)
    requires d !in m.intervals[i].domains && y.fixed[i] < row <= y.fixed[i] + FixedSize(m, i)
    ensures InRow(DirichletPart(m, y, d), row) == Nothing
  {
    ProcessOfDomain(m, d);
    var p := ProcessOf(m, d);
    var pieces := FixedPieces(m, y.fixed, p, d);
    forall k | 0 <= k < |pieces|
      ensures HitsOnly(pieces[k], row, -1)
    {
      FixedOfIntervalRows(m, y.fixed, p, d, k);
      if m.order[p][k] < |m.intervals| && m.order[p][k] != i {
        assert ApartRows(y.fixed, FixedSizes(m), i, m.order[p][k]);
      }
    }
    FlattenMisses(pieces, row);
    InRowHit(Flatten(pieces), row, -1);
  }

  lemma FixedInterval(m: Mesh, starts: seq<int>, p: nat, d: nat, l: nat, dof: nat, a: nat, j: nat, row: int)
    requires p < Processes(m) && l < |m.order[p]| && |starts| == |m.intervals|
    requires var i := m.order[p][l];
      i < |m.intervals| && d in m.intervals[i].domains && a < Copies(m, i) &&
      dof < |m.intervals[i].listed| && j < |m.intervals[i].listed[dof]| &&
      row == starts[i] + FixedBefore(Copies(m, i), m.intervals[i].listed, dof) + Multiple(|m.intervals[i].listed[dof]|, a) + j + 1
    ensures var i := m.order[p][l];
      InRow(FixedOfInterval(m, starts, p, d, l), row) ==
        if IndexOf(m.intervals[i].domains, d) == a
        then One(Term(row, Column(m, p, d, l, FixedSlot(m, i, dof, j)), 1.0, 1.0)) else Nothing
  {
    var i := m.order[p][l];
    var n, k, listed := Copies(m, i), IndexOf(m.intervals[i].domains, d), m.intervals[i].listed;
    var cols := FixedColumns(m, p, d, l, listed);
    FixedBeforeLengths(n, cols, listed, dof);
    FixedColumnAt(m, p, d, l, listed, dof, j);
    DirichletEntry(n, k, starts[i], cols, dof, a, j, row);
    assert FixedOfInterval(m, starts, p, d, l) == DirichletTerms(n, k, starts[i], cols, |cols|);
  }

  lemma FixedColumnAt(m: Mesh, p: nat, d: nat, l: nat, listed: seq<seq<nat>>, dof: nat, j: nat)
    requires p < Processes(m) && l < |m.order[p]| && dof < |listed| && j < |listed[dof]|
    ensures FixedColumns(m, p, d, l, listed)[dof][j] == Column(m, p, d, l, Slot(listed[dof][j], dof))
  {
    OnDofAt(listed[dof], dof);
    ColumnsAt(m, p, d, l, OnDof(listed[dof], dof));
  }

  lemma OwnFixed(m: Mesh, y: Layout, i: nat, dof: nat, a: nat, j: nat, d: nat)
    requires Valid(m) && ValidLayout(m, y) && i < |m.intervals| && dof < |m.intervals[i].listed| && a < Copies(m, i)
    requires j < |m.intervals[i].listed[dof]| && d in m.intervals[i].domains
    ensures d < Domains(m)
    ensures InRow(DirichletPart(m, y, d), FixedRow(m, y, i, dof, a, j)) ==
      if IndexOf(m.intervals[i].domains, d) == a
      then One(Term(FixedRow(m, y, i, dof, a, j), ColumnOf(m, i, d, FixedSlot(m, i, dof, j)), 1.0, 1.0)) else Nothing
  {
    ListedPosition(m, i, d);
    FixedRowInRange(m, y, i, dof, a, j);
    var p := ProcessOf(m, d);
    var l := IndexOf(m.order[p], i);
    var row, starts := FixedRow(m, y, i, dof, a, j), y.fixed;
    FixedPartInRow(m, starts, p, d, l, row);
    FixedInterval(m, starts, p, d, l, dof, a, j, row);
    assert ColumnOf(m, i, d, FixedSlot(m, i, dof, j)) == Column(m, p, d, l, FixedSlot(m, i, dof, j));
  }

  /** Every Dirichlet row has a unit entry in one domain and nothing in all the others. */
  lemma FixedRowEntries(m: Mesh, y: Layout, ws: seq<seq<seq<real>>>, i: nat, dof: nat, a: nat, j: nat, d: nat)
    requires Valid(m) && ValidLayout(m, y) && ValidWeights(m, ws) && i < |m.intervals| && dof < |m.intervals[i].listed| && a < Copies(m, i)
    requires j < |m.intervals[i].listed[dof]| && d < Domains(m)
    ensures var row := FixedRow(m, y, i, dof, a, j);
      InRow(B1(m, y, ws, d), row) ==
        if d == m.intervals[i].domains[a] then One(Term(row, ColumnOf(m, i, d, FixedSlot(m, i, dof, j)), 1.0, 1.0))
        else Nothing
  {
    var domains, row := m.intervals[i].domains, FixedRow(m, y, i, dof, a, j);
    assert ValidInterval(m, i);
    FixedRowInRange(m, y, i, dof, a, j);
    GluePartRows(m, y, ws, d);
    InRowExtend(DirichletPart(m, y, d), GluePart(m, y, ws, d), row);
    if d in domains {
      OwnFixed(m, y, i, dof, a, j, d);
    } else {
      ForeignFixed(m, y, i, row, d);
    }
  }

  /** The Dirichlet rows tile `1 .. DirichletSize`: each belongs to a condition of a copy. */
  lemma FixedRowOf(m: Mesh, y: Layout, row: int) returns (i: nat, dof: nat, a: nat, j: nat)
    requires Valid(m) && ValidLayout(m, y) && 0 < row <= y.dirichlet
    ensures i < |m.intervals| && dof < |m.intervals[i].listed| && a < Copies(m, i)
    ensures j < |m.intervals[i].listed[dof]| && FixedRow(m, y, i, dof, a, j) == row
  {
    assert Covered(y.fixed, FixedSizes(m), row - 1);
    i :| InRange(y.fixed, FixedSizes(m), i, row - 1);
    var n, listed := Copies(m, i), m.intervals[i].listed;
    var x := row - y.fixed[i] - 1;
    dof := FixedBeforeCovers(n, listed, x, |listed|);
    var y := x - FixedBefore(n, listed, dof);
    a := MultipleCovers(|listed[dof]|, y, n);
    j := y - Multiple(|listed[dof]|, a);
  }
}
