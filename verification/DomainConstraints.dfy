/**
 * The vectors of `B1` of one domain and the loops that fill them: the Dirichlet insertion,
 * `redundantglue` of `B1GlueElements`, and the rewriting of `B1duplicity`.
 */
module DomainConstraints {
  import opened Basis
  import opened Pairs
  import opened Glue
  import opened Decomposition
  import opened SlotNumbering
  import opened DomainVectors
  import opened GluingWalk
  import opened Gluing
  import opened ScalingWalk
  import opened Operators

  /** Unscaled weights: every copy of a degree of freedom weighs the same. */
  ghost predicate UniformWeights(ws: seq<seq<real>>, n: nat, x: real) {
    forall c :: 0 <= c < |ws| ==> ws[c] == Repeat(x, n)
  }

  /**
   * The vectors of one domain. `terms` is what they hold, entry by entry; `Valid` says that the
   * four vectors are aligned.
   */
  class Domain {
    ghost var terms: seq<Term>
    var rows: seq<int>
    var cols: seq<int>
    var values: seq<real>
    var duplicity: seq<real>
    var dirichletSize: nat

    ghost predicate Valid()
      reads this
    {
      Aligned(duplicity)
    }

    /** Aligned once the weights `weights` are in `B1duplicity`. */
    ghost predicate Aligned(weights: seq<real>)
      reads this`terms, this`rows, this`cols, this`values
    {
      Holding(terms, rows, cols, values, weights)
    }

    constructor ()
      ensures Valid() && terms == [] && dirichletSize == 0
    {
      terms, rows, cols, values, duplicity, dirichletSize := [], [], [], [], [], 0;
    }

    /** The pairs of copy `dindex` with the lower copies. */
    method GlueLower(g: GluingInterval, start: int, col: int, ghost w: seq<real>) returns (index: int)
      requires ValidGluing(g) && |w| == g.ndomains
      requires rows == RowsOf(terms) && cols == ColsOf(terms)
      modifies this`rows, this`cols
      ensures rows == RowsOf(terms + SlotTerms(g.ndomains, g.dindex, start, col, w, g.dindex))
      ensures cols == ColsOf(terms + SlotTerms(g.ndomains, g.dindex, start, col, w, g.dindex))
      ensures index == start + PairStart(g.ndomains, g.dindex)
    {
      index := start;
      assert terms + SlotTerms(g.ndomains, g.dindex, start, col, w, 0) == terms;
      var lm := 0;
      while lm < g.dindex
        invariant 0 <= lm <= g.dindex && index == start + PairStart(g.ndomains, lm)
        invariant rows == RowsOf(terms + SlotTerms(g.ndomains, g.dindex, start, col, w, lm))
        invariant cols == ColsOf(terms + SlotTerms(g.ndomains, g.dindex, start, col, w, lm))
      {
        PushSlotTerm(terms, g.ndomains, g.dindex, start, col, w, lm);
        cols := cols + [col];
        rows := rows + [index + g.dindex - lm];
        lm := lm + 1;
        index := index + g.ndomains - lm;
      }
    }

    /** The pairs of copy `dindex` with the higher copies. */
    method GlueUpper(g: GluingInterval, start: int, col: int, ghost w: seq<real>, from: int) returns (index: int)
      requires ValidGluing(g) && |w| == g.ndomains && from == start + PairStart(g.ndomains, g.dindex)
      requires rows == RowsOf(terms + SlotTerms(g.ndomains, g.dindex, start, col, w, g.dindex))
      requires cols == ColsOf(terms + SlotTerms(g.ndomains, g.dindex, start, col, w, g.dindex))
      modifies this`rows, this`cols
      ensures rows == RowsOf(terms + SlotTerms(g.ndomains, g.dindex, start, col, w, g.ndomains - 1))
      ensures cols == ColsOf(terms + SlotTerms(g.ndomains, g.dindex, start, col, w, g.ndomains - 1))
      ensures index == from + (g.ndomains - g.dindex - 1)
    {
      index := from;
      var lm := g.dindex + 1;
      while lm < g.ndomains
        invariant g.dindex + 1 <= lm <= g.ndomains && index == from + lm - g.dindex - 1
        invariant rows == RowsOf(terms + SlotTerms(g.ndomains, g.dindex, start, col, w, lm - 1))
        invariant cols == ColsOf(terms + SlotTerms(g.ndomains, g.dindex, start, col, w, lm - 1))
      {
        PushSlotTerm(terms, g.ndomains, g.dindex, start, col, w, lm - 1);
        cols := cols + [col];
        rows := rows + [index + 1];
        index := index + 1;
        lm := lm + 1;
      }
    }

    /**
     * One node in `redundantglue`: copy `dindex` enters the rows of all its pairs. The index ends
     * behind the pairs of the node. The weights `todo` of the run are inserted behind its last node.
     */
    method GlueNode(g: GluingInterval, start: int, col: int, ghost w: seq<real>, ghost x: real, ghost todo: nat) returns (index: int)
      requires ValidGluing(g) && w == Repeat(x, g.ndomains)
      requires Aligned(duplicity + Repeat(x, todo))
      modifies this`terms, this`rows, this`cols, this`values
      ensures Aligned(duplicity + Repeat(x, todo + (g.ndomains - 1)))
      ensures terms == old(terms) + SlotTerms(g.ndomains, g.dindex, start, col, w, g.ndomains - 1)
      ensures index == start + Triangle(g.ndomains)
    {
      hide SlotTerms, Triangle, RowsOf, ColsOf, ValuesOf, Repeat;
      index := GlueLower(g, start, col, w);
      index := GlueUpper(g, start, col, w, index);
      index := index + (g.ndomains - g.dindex - 1) * (g.ndomains - g.dindex - 2) / 2;
      TriangleClosedForm(g.ndomains - g.dindex - 1);
      PairsOfCopy(g.ndomains, g.dindex);
      NodeHeld(terms, g.ndomains, g.dindex, start, col, x, rows, cols, values, duplicity, todo);
      values := values + Repeat(-1.0, g.dindex) + Repeat(1.0, g.ndomains - g.dindex - 1);
      terms := terms + SlotTerms(g.ndomains, g.dindex, start, col, w, g.ndomains - 1);
    }

    /** The node of slot number `|all|`, in `redundantglue`. */
    method GlueSlot(dofs: nat, g: GluingInterval, index: int, n: nat, dof: nat, weight: real,
        ghost ws: seq<seq<real>>, ghost all: seq<Slot>, ghost before: seq<Term>, ghost todo: nat) returns (next: int)
      requires ValidGluing(g) && g.begin <= n && UniformWeights(ws, g.ndomains, weight)
      requires WeightsFor(g, ws, all) && |all| < |ws| && index == g.LMOffset + Multiple(Triangle(g.ndomains), |all|)
      requires Aligned(duplicity + Repeat(weight, todo)) && terms == before + CopyTerms(dofs, g, all, ws)
      modifies this`terms, this`rows, this`cols, this`values
      ensures WeightsFor(g, ws, all + [Slot(n - g.begin, dof)])
      ensures terms == before + CopyTerms(dofs, g, all + [Slot(n - g.begin, dof)], ws)
      ensures Aligned(duplicity + Repeat(weight, todo + (g.ndomains - 1)))
      ensures next == index + Triangle(g.ndomains)
    {
      var col := Multiple(dofs, g.DOFOffset + (n - g.begin)) + dof + 1;
      TermsNext(before, dofs, g, all, Slot(n - g.begin, dof), ws, index, col);
      next := GlueNode(g, index, col, ws[|all|], weight, todo);
    }

    /** The row behind those of the first `counter` nodes. */
    method FirstRow(g: GluingInterval, counter: nat) returns (index: int)
      ensures index == g.LMOffset + Multiple(Triangle(g.ndomains), counter)
    {
      TriangleClosedForm(g.ndomains);
      MultipleIsProduct(Triangle(g.ndomains), counter);
      index := g.LMOffset + counter * (g.ndomains * (g.ndomains - 1) / 2);
    }

    /** `redundantglue` on the nodes `begin .. end` of one degree of freedom. */
    method RedundantGlue(dofs: nat, g: GluingInterval, begin: nat, end: nat, counter: nat, dof: nat, weight: real,
        ghost ws: seq<seq<real>>, ghost done: seq<Slot>, ghost before: seq<Term>) returns (next: nat)
      requires ValidGluing(g) && g.begin <= begin <= end && counter == |done|
      requires UniformWeights(ws, g.ndomains, weight)
      requires WeightsFor(g, ws, done) && |done| + (end - begin) <= |ws|
      requires Valid() && terms == before + CopyTerms(dofs, g, done, ws)
      modifies this`terms, this`rows, this`cols, this`values, this`duplicity
      ensures next == counter + (end - begin)
      ensures WeightsFor(g, ws, done + RunSlots(begin - g.begin, end - g.begin, dof))
      ensures Valid() && terms == before + CopyTerms(dofs, g, done + RunSlots(begin - g.begin, end - g.begin, dof), ws)
    {
      hide CopyTerms, Holding, SlotTerms;
      next := counter;
      var index := FirstRow(g, next);
      var n := begin;
      ghost var all := done;
      assert done + RunSlots(begin - g.begin, begin - g.begin, dof) == done;
      assert duplicity + Repeat(weight, Multiple(g.ndomains - 1, begin - begin)) == duplicity;
      while n < end
        invariant begin <= n <= end && next == |all| && next == counter + (n - begin)
        invariant index == g.LMOffset + Multiple(Triangle(g.ndomains), next)
        invariant WeightsFor(g, ws, all) && all == done + RunSlots(begin - g.begin, n - g.begin, dof)
        invariant terms == before + CopyTerms(dofs, g, all, ws)
        invariant Aligned(duplicity + Repeat(weight, Multiple(g.ndomains - 1, n - begin)))
      {
        index := GlueSlot(dofs, g, index, n, dof, weight, ws, all, before, Multiple(g.ndomains - 1, n - begin));
        RunNext(done, begin - g.begin, n - g.begin, dof);
        all := all + [Slot(n - g.begin, dof)];
        n, next := n + 1, next + 1;
      }
      duplicity := duplicity + Repeat(weight, Multiple(g.ndomains - 1, end - begin));
    }

    /** The runs up to the Dirichlet nodes of one degree of freedom. */
    method GlueRuns(dofs: nat, g: GluingInterval, fixed: seq<nat>, counter: nat, dof: nat, weight: real,
        ghost i: Interval, ghost ws: seq<seq<real>>, ghost before: seq<Term>) returns (next: nat, current: nat, ghost done: seq<Slot>)
      requires ValidGluing(g) && FitsInterval(g, i, fixed, dof, dofs)
      requires UniformWeights(ws, g.ndomains, weight) && WeightsFor(g, ws, FreeSlots(i, dofs))
      requires counter == |FreeSlots(i, dof)| && WeightsFor(g, ws, FreeSlots(i, dof))
      requires Valid() && terms == before + CopyTerms(dofs, g, FreeSlots(i, dof), ws)
      modifies this`terms, this`rows, this`cols, this`values, this`duplicity
      ensures current == if fixed == [] then g.begin else fixed[|fixed| - 1] + 1
      ensures g.begin <= current && done == SlotsBefore(i, dof, current - g.begin)
      ensures next == |done| && WeightsFor(g, ws, done)
      ensures Valid() && terms == before + CopyTerms(dofs, g, done, ws)
    {
      hide CopyTerms, SlotsBefore, FreeSlots, RunSlots, Holding;
      next, current, done := counter, g.begin, FreeSlots(i, dof);
      SlotsBeforeFirst(i, dof);
      for e := 0 to |fixed|
        invariant current == if e == 0 then g.begin else fixed[e - 1] + 1
        invariant g.begin <= current && done == SlotsBefore(i, dof, current - g.begin)
        invariant next == |done| && WeightsFor(g, ws, done)
        invariant Valid() && terms == before + CopyTerms(dofs, g, done, ws)
      {
        LocalRun(g, i, fixed, dof, dofs, e, current, done);
        next := RedundantGlue(dofs, g, current, fixed[e], next, dof, weight, ws, done, before);
        done := done + RunSlots(current - g.begin, fixed[e] - g.begin, dof);
        current := fixed[e] + 1;
      }
    }

    /** One degree of freedom of an interval: the runs between its Dirichlet nodes. */
    method GlueDof(dofs: nat, g: GluingInterval, fixed: seq<nat>, counter: nat, dof: nat, weight: real,
        ghost i: Interval, ghost ws: seq<seq<real>>, ghost before: seq<Term>) returns (next: nat)
      requires ValidGluing(g) && FitsInterval(g, i, fixed, dof, dofs)
      requires UniformWeights(ws, g.ndomains, weight) && WeightsFor(g, ws, FreeSlots(i, dofs))
      requires counter == |FreeSlots(i, dof)| && WeightsFor(g, ws, FreeSlots(i, dof))
      requires Valid() && terms == before + CopyTerms(dofs, g, FreeSlots(i, dof), ws)
      modifies this`terms, this`rows, this`cols, this`values, this`duplicity
      ensures next == |FreeSlots(i, dof + 1)| && WeightsFor(g, ws, FreeSlots(i, dof + 1))
      ensures Valid() && terms == before + CopyTerms(dofs, g, FreeSlots(i, dof + 1), ws)
    {
      var current;
      ghost var done;
      next, current, done := GlueRuns(dofs, g, fixed, counter, dof, weight, i, ws, before);
      LocalLastRun(g, i, fixed, dof, dofs, current, done);
      next := RedundantGlue(dofs, g, current, g.end, next, dof, weight, ws, done, before);
    }

    /** One interval: all degrees of freedom. */
    method GlueInterval(dofs: nat, g: GluingInterval, fixed: seq<seq<seq<nat>>>, weight: real,
        ghost i: Interval, ghost ws: seq<seq<real>>)
      requires ValidGluing(g) && dofs == |i.fixed| == |fixed|
      requires forall dof :: 0 <= dof < dofs ==>
        g.pindex < |fixed[dof]| && FitsInterval(g, i, fixed[dof][g.pindex], dof, dofs)
      requires UniformWeights(ws, g.ndomains, weight) && WeightsFor(g, ws, FreeSlots(i, dofs))
      requires Valid()
      modifies this`terms, this`rows, this`cols, this`values, this`duplicity
      ensures Valid() && terms == old(terms) + CopyTerms(dofs, g, FreeSlots(i, dofs), ws)
    {
      var counter := 0;
      ghost var before := terms;
      assert before + CopyTerms(dofs, g, [], ws) == before;
      for dof := 0 to dofs
        invariant counter == |FreeSlots(i, dof)| && WeightsFor(g, ws, FreeSlots(i, dof))
        invariant Valid() && terms == before + CopyTerms(dofs, g, FreeSlots(i, dof), ws)
      {
        counter := GlueDof(dofs, g, fixed[dof][g.pindex], counter, dof, weight, i, ws, before);
      }
    }

    /**
     * `B1GlueElements` for the domain: afterwards the vectors hold, behind what they held, the
     * glue rows of every interval of the domain, in the order of the process.
     */
    method GlueElements(dofs: nat, gintervals: seq<GluingInterval>, fixed: seq<seq<seq<nat>>>,
        ghost m: Mesh, ghost starts: seq<int>, ghost ws: seq<seq<seq<real>>>, ghost p: nat, ghost d: nat,
        ghost begins: seq<nat>, ghost listed: seq<seq<seq<nat>>>)
      requires Decomposition.Valid(m) && dofs == m.dofs && p < Processes(m) && |m.order[p]| <= |begins|
      requires |starts| == |m.intervals| && ValidWeights(m, ws) && EvenWeights(m, ws)
      requires gintervals == LocalIntervals(m, starts, p, d, begins, |m.order[p]|)
      requires StoresFixed(m, p, begins, fixed, listed) && Valid()
      modifies this`terms, this`rows, this`cols, this`values, this`duplicity
      ensures Valid() && terms == old(terms) + Flatten(GluePieces(m, starts, ws, p, d))
    {
      ghost var before, pieces := terms, GluePieces(m, starts, ws, p, d);
      assert before + PiecesAt(pieces, []) == before;
      LocalIntervalsAre(m, starts, p, d, begins, |m.order[p]|);
      for e := 0 to |gintervals|
        invariant Valid() && terms == before + PiecesAt(pieces, gintervals[..e])
      {
        var g := gintervals[e];
        assert IsLocal(m, starts, p, d, begins, g);
        ghost var i := m.order[p][g.pindex];
        StoredFits(m, starts, p, d, begins, g, fixed, listed);
        LocalGluePiece(m, starts, ws, p, d, begins, g);
        assert UniformWeights(ws[i], Copies(m, i), 1.0 / Copies(m, i) as real);
        GlueInterval(dofs, g, fixed, 1.0 / g.ndomains as real, m.intervals[i], ws[i]);
        PieceNext(before, pieces, gintervals, e);
      }
      assert gintervals[..|gintervals|] == gintervals && pieces[..|pieces|] == pieces;
      WalkIsFlat(m, starts, p, d, begins, |m.order[p]|, pieces);
    }

    /** The columns of the Dirichlet nodes, region by region. */
    method InsertColumns(dofs: nat, g: GluingInterval, listed: seq<nat>, dof: nat, ghost at: seq<nat>)
      requires Shifted(listed, at, g.begin)
      modifies this`cols
      ensures cols == old(cols) + SlotColumns(dofs, g.DOFOffset, OnDof(at, dof))
    {
      ghost var before, columns := cols, SlotColumns(dofs, g.DOFOffset, OnDof(at, dof));
      for n := 0 to |listed|
        invariant cols == before + columns[..n]
      {
        assert columns[..n + 1] == columns[..n] + [columns[n]];
        cols := cols + [Multiple(dofs, g.DOFOffset + listed[n] - g.begin) + dof + 1];
      }
      assert columns[..|listed|] == columns;
    }

    /** The conditions of one degree of freedom of an interval. */
    method InsertDof(dofs: nat, g: GluingInterval, offset: int, listed: seq<nat>, count: nat, LMoffset: nat, dof: nat,
        ghost at: seq<nat>, ghost columns: seq<int>)
      requires ValidGluing(g) && Shifted(listed, at, g.begin) && count == |listed| && Valid()
      requires columns == SlotColumns(dofs, g.DOFOffset, OnDof(at, dof))
      modifies this
      ensures Valid() && dirichletSize == |rows|
      ensures terms == old(terms) + ConditionTerms(g.dindex, offset + LMoffset, columns, |columns|)
    {
      ConditionHeld(terms, rows, cols, values, duplicity, g.dindex, offset + LMoffset, columns);
      rows := rows + Iota(offset + Multiple(count, g.dindex) + LMoffset + 1, count);
      InsertColumns(dofs, g, listed, dof, at);
      values := values + Repeat(1.0, count);
      duplicity := duplicity + Repeat(1.0, count);
      terms := terms + ConditionTerms(g.dindex, offset + LMoffset, columns, |columns|);
      dirichletSize := |rows|;
    }

    /** The conditions of one interval. */
    method InsertInterval(dofs: nat, g: GluingInterval, offset: int, fixed: seq<seq<seq<nat>>>, listed: seq<seq<seq<nat>>>, ghost i: Interval)
      requires ValidGluing(g) && dofs == |i.listed| == |fixed| == |listed| && Valid() && dirichletSize == |rows|
      requires forall dof :: 0 <= dof < dofs ==> (g.pindex < |fixed[dof]| && g.pindex < |listed[dof]| &&
        Shifted(listed[dof][g.pindex], i.listed[dof], g.begin) && |fixed[dof][g.pindex]| == |listed[dof][g.pindex]|)
      modifies this
      ensures Valid() && dirichletSize == |rows|
      ensures terms == old(terms) +
        DirichletTerms(g.ndomains, g.dindex, offset, ConditionColumns(dofs, g.DOFOffset, i.listed), dofs)
    {
      hide Holding, OnDof, SlotColumns;
      var LMoffset := 0;
      ghost var before, columns := terms, ConditionColumns(dofs, g.DOFOffset, i.listed);
      assert before + DirichletTerms(g.ndomains, g.dindex, offset, columns, 0) == before;
      for dof := 0 to dofs
        invariant LMoffset == FixedBefore(g.ndomains, columns, dof)
        invariant Valid() && dirichletSize == |rows|
        invariant terms == before + DirichletTerms(g.ndomains, g.dindex, offset, columns, dof)
      {
        ConditionsNext(before, g, offset, columns, dof);
        InsertDof(dofs, g, offset, listed[dof][g.pindex], |fixed[dof][g.pindex]|, LMoffset, dof, i.listed[dof], columns[dof]);
        LMoffset := LMoffset + Multiple(|fixed[dof][g.pindex]|, g.ndomains);
      }
    }

    /**
     * `B1DirichletInsert` for the domain: afterwards the vectors hold, behind what they held, the
     * Dirichlet rows of every interval of the domain. Nothing happens without conditions anywhere.
     */
    method InsertDirichlet(dofs: nat, total: nat, gintervals: seq<GluingInterval>, offsets: seq<int>, fixed: seq<seq<seq<nat>>>,
        listed: seq<seq<seq<nat>>>, ghost m: Mesh, ghost conditions: seq<int>, ghost starts: seq<int>, ghost p: nat, ghost d: nat,
        ghost begins: seq<nat>)
      requires Decomposition.Valid(m) && dofs == m.dofs && p < Processes(m) && |m.order[p]| <= |begins|
      requires |conditions| == |starts| == |m.intervals| && Offsets.HoldsOffsets(m, conditions, p, offsets)
      requires gintervals == LocalIntervals(m, starts, p, d, begins, |m.order[p]|)
      requires StoresFixed(m, p, begins, fixed, listed) && Valid() && dirichletSize == |rows|
      requires total == 0 ==> Flatten(FixedPieces(m, conditions, p, d)) == []
      modifies this
      ensures Valid() && terms == old(terms) + Flatten(FixedPieces(m, conditions, p, d)) && dirichletSize == |rows|
    {
      ghost var before, pieces := terms, FixedPieces(m, conditions, p, d);
      if total == 0 {
        assert before + [] == before;
        return;
      }
      assert before + PiecesAt(pieces, []) == before;
      LocalIntervalsAre(m, starts, p, d, begins, |m.order[p]|);
      for e := 0 to |gintervals|
        invariant Valid() && dirichletSize == |rows| && terms == before + PiecesAt(pieces, gintervals[..e])
      {
        var g := gintervals[e];
        assert IsLocal(m, starts, p, d, begins, g);
        StoredFits(m, starts, p, d, begins, g, fixed, listed);
        LocalFixedPiece(m, conditions, starts, p, d, begins, g);
        InsertInterval(dofs, g, offsets[g.pindex], fixed, listed, m.intervals[m.order[p][g.pindex]]);
        PieceNext(before, pieces, gintervals, e);
      }
      assert gintervals[..|gintervals|] == gintervals && pieces[..|pieces|] == pieces;
      WalkIsFlat(m, starts, p, d, begins, |m.order[p]|, pieces);
    }
  
    /** Writes the weights of the copies `from .. to` of one node over the old ones. */
    method WriteWeights(values: seq<real>, base: nat, from: nat, to: nat, sum: real, at: nat,
        ghost v: seq<real>, ghost done: seq<real>, ghost original: seq<real>) returns (next: nat)
      requires IsSlice(v, values, base) && from <= to <= |v| && sum == SumAll(v) != 0.0
      requires at == |done| && |done| + (to - from) <= |original| && duplicity == done + original[|done|..]
      modifies this`duplicity
      ensures next == at + (to - from) && duplicity == (done + Scaled(v)[from..to]) + original[next..]
    {
      next := at;
      var i := from;
      assert done + Scaled(v)[from..from] == done;
      while i < to
        invariant from <= i <= to && next == at + (i - from)
        invariant duplicity == (done + Scaled(v)[from..i]) + original[next..]
      {
        WriteNext(done, Scaled(v), from, i, original);
        duplicity := duplicity[next := values[base + i] / sum];
        next, i := next + 1, i + 1;
      }
    }

    /** The weights of slot `s`, for the partners of copy `dindex`: all others, lower ones first. */
    method ScaleSlot(dofs: nat, g: GluingInterval, diagonal: seq<real>, n: nat, dof: nat, at: nat,
        ghost w: seq<real>, ghost start: int, ghost col: int, ghost done: seq<Term>, ghost original: seq<real>) returns (next: nat)
      requires ValidGluing(g) && g.begin <= n && PositiveAt(diagonal, g.ndomains, dofs, Slot(n - g.begin, dof))
      requires w == Scaled(Diagonal(diagonal, g.ndomains, dofs, Slot(n - g.begin, dof)))
      requires Rewritten(duplicity, original, done) && at == |done| && |done| + (g.ndomains - 1) <= |original|
      modifies this`duplicity
      ensures next == at + (g.ndomains - 1)
      ensures Rewritten(duplicity, original, done + SlotTerms(g.ndomains, g.dindex, start, col, w, g.ndomains - 1))
    {
      var base := Multiple(g.ndomains, Multiple(dofs, n - g.begin) + dof);
      ghost var v := Diagonal(diagonal, g.ndomains, dofs, Slot(n - g.begin, dof));
      var sum := SumOfSlice(diagonal, base, g.ndomains, v);
      PositiveSum(v, |v|);
      next := WriteWeights(diagonal, base, 0, g.dindex, sum, at, v, WeightsOf(done), original);
      next := WriteWeights(diagonal, base, g.dindex + 1, g.ndomains, sum, next, v, WeightsOf(done) + w[0..g.dindex], original);
      SlotRewritten(duplicity, original, done, g.ndomains, g.dindex, start, col, w, next);
    }

    /** The nodes `begin .. end` of one degree of freedom. */
    method ScaleRun(dofs: nat, g: GluingInterval, diagonal: seq<real>, begin: nat, end: nat, dof: nat, at: nat,
        ghost slots: seq<Slot>, ghost ws: seq<seq<real>>, ghost done: seq<Slot>, ghost before: seq<Term>, ghost original: seq<real>)
        returns (next: nat)
      requires ValidGluing(g) && g.begin <= begin <= end
      requires ScaledFor(dofs, g, diagonal, slots, ws) && HasRoom(g, slots, before, original)
      requires done + RunSlots(begin - g.begin, end - g.begin, dof) <= slots
      requires Reached(duplicity, original, at, before, dofs, g, done, ws)
      modifies this`duplicity
      ensures Reached(duplicity, original, next, before, dofs, g, done + RunSlots(begin - g.begin, end - g.begin, dof), ws)
    {
      hide CopyTerms, SlotTerms, ScaledFor, HasRoom, Multiple, Triangle;
      next := at;
      ghost var all := done;
      assert done + RunSlots(begin - g.begin, begin - g.begin, dof) == done;
      for n := begin to end
        invariant all == done + RunSlots(begin - g.begin, n - g.begin, dof)
        invariant Reached(duplicity, original, next, before, dofs, g, all, ws)
      {
        ghost var s := Slot(n - g.begin, dof);
        RunInside(done, begin - g.begin, n - g.begin, end - g.begin, dof, slots, all);
        ghost var start, col := SlotStep(dofs, g, diagonal, slots, ws, all, s, before, original);
        next := ScaleSlot(dofs, g, diagonal, n, dof, next, ws[|all|], start, col, before + CopyTerms(dofs, g, all, ws), original);
        all := all + [s];
      }
    }
  
    /** The runs up to the Dirichlet nodes. */
    method ScaleRuns(dofs: nat, g: GluingInterval, diagonal: seq<real>, fixed: seq<nat>, dof: nat, at: nat,
        ghost i: Interval, ghost ws: seq<seq<real>>, ghost before: seq<Term>, ghost original: seq<real>)
        returns (next: nat, current: nat, ghost done: seq<Slot>)
      requires ValidGluing(g) && FitsInterval(g, i, fixed, dof, dofs)
      requires ScaledFor(dofs, g, diagonal, FreeSlots(i, dofs), ws) && HasRoom(g, FreeSlots(i, dofs), before, original)
      requires Reached(duplicity, original, at, before, dofs, g, FreeSlots(i, dof), ws)
      modifies this`duplicity
      ensures current == if fixed == [] then g.begin else fixed[|fixed| - 1] + 1
      ensures g.begin <= current && done == SlotsBefore(i, dof, current - g.begin)
      ensures Reached(duplicity, original, next, before, dofs, g, done, ws)
    {
      hide SlotsBefore, CopyTerms, RunSlots, FreeSlots, Rewritten, HasRoom;
      next, current, done := at, g.begin, FreeSlots(i, dof);
      SlotsBeforeFirst(i, dof);
      for e := 0 to |fixed|
        invariant current == if e == 0 then g.begin else fixed[e - 1] + 1
        invariant g.begin <= current && done == SlotsBefore(i, dof, current - g.begin)
        invariant Reached(duplicity, original, next, before, dofs, g, done, ws)
      {
        LocalRun(g, i, fixed, dof, dofs, e, current, done);
        ghost var more := done + RunSlots(current - g.begin, fixed[e] - g.begin, dof);
        next := ScaleRun(dofs, g, diagonal, current, fixed[e], dof, next, FreeSlots(i, dofs), ws, done, before, original);
        current, done := fixed[e] + 1, more;
      }
    }

    method ScaleDof(dofs: nat, g: GluingInterval, diagonal: seq<real>, fixed: seq<nat>, dof: nat, at: nat,
        ghost i: Interval, ghost ws: seq<seq<real>>, ghost before: seq<Term>, ghost original: seq<real>)
        returns (next: nat, ghost done: seq<Slot>)
      requires ValidGluing(g) && FitsInterval(g, i, fixed, dof, dofs)
      requires ScaledFor(dofs, g, diagonal, FreeSlots(i, dofs), ws) && HasRoom(g, FreeSlots(i, dofs), before, original)
      requires Reached(duplicity, original, at, before, dofs, g, FreeSlots(i, dof), ws)
      modifies this`duplicity
      ensures done == FreeSlots(i, dof + 1) && Reached(duplicity, original, next, before, dofs, g, done, ws)
    {
      hide CopyTerms, SlotsBefore, Rewritten, HasRoom;
      var current;
      next, current, done := ScaleRuns(dofs, g, diagonal, fixed, dof, at, i, ws, before, original);
      LocalLastRun(g, i, fixed, dof, dofs, current, done);
      next := ScaleRun(dofs, g, diagonal, current, g.end, dof, next, FreeSlots(i, dofs), ws, done, before, original);
      done := done + RunSlots(current - g.begin, g.end - g.begin, dof);
    }

    method ScaleInterval(dofs: nat, g: GluingInterval, diagonal: seq<real>, fixed: seq<seq<seq<nat>>>, at: nat,
        ghost i: Interval, ghost ws: seq<seq<real>>, ghost before: seq<Term>, ghost original: seq<real>) returns (next: nat)
      requires ValidGluing(g) && dofs == |i.fixed| == |fixed|
      requires forall dof :: 0 <= dof < dofs ==>
        g.pindex < |fixed[dof]| && FitsInterval(g, i, fixed[dof][g.pindex], dof, dofs)
      requires ScaledFor(dofs, g, diagonal, FreeSlots(i, dofs), ws) && HasRoom(g, FreeSlots(i, dofs), before, original)
      requires at == |before| && Rewritten(duplicity, original, before)
      modifies this`duplicity
      ensures next == |before + CopyTerms(dofs, g, FreeSlots(i, dofs), ws)|
      ensures Rewritten(duplicity, original, before + CopyTerms(dofs, g, FreeSlots(i, dofs), ws))
    {
      next := at;
      ghost var done := [];
      assert before + CopyTerms(dofs, g, [], ws) == before;
      for dof := 0 to dofs
        invariant done == FreeSlots(i, dof) && Reached(duplicity, original, next, before, dofs, g, done, ws)
      {
        next, done := ScaleDof(dofs, g, diagonal, fixed[dof][g.pindex], dof, next, i, ws, before, original);
      }
    }

    /** One interval of the domain; those of the domain alone have no multipliers. */
    method ScaleLocal(dofs: nat, g: GluingInterval, fixed: seq<seq<seq<nat>>>, diagonals: seq<seq<real>>, at: nat,
        ghost m: Mesh, ghost starts: seq<int>, ghost global: seq<seq<real>>, ghost ws: seq<seq<seq<real>>>,
        ghost p: nat, ghost d: nat, ghost begins: seq<nat>, ghost listed: seq<seq<seq<nat>>>, ghost done: seq<Term>,
        ghost original: seq<real>) returns (next: nat)
      requires Decomposition.Valid(m) && dofs == m.dofs && p < Processes(m) && |m.order[p]| <= |begins|
      requires |starts| == |m.intervals| && ValidWeights(m, ws) && ScaledWeights(m, global, ws) && IsLocal(m, starts, p, d, begins, g)
      requires StoresFixed(m, p, begins, fixed, listed) && StoresDiagonals(m, p, global, diagonals)
      requires |done + GluePieces(m, starts, ws, p, d)[g.pindex]| <= |original|
      requires at == |done| && Rewritten(duplicity, original, done)
      modifies this`duplicity
      ensures next == |done + GluePieces(m, starts, ws, p, d)[g.pindex]|
      ensures Rewritten(duplicity, original, done + GluePieces(m, starts, ws, p, d)[g.pindex])
    {
      ghost var i := m.order[p][g.pindex];
      StoredFits(m, starts, p, d, begins, g, fixed, listed);
      LocalGluePiece(m, starts, ws, p, d, begins, g);
      TermsLength(g.ndomains, g.dindex, g.LMOffset, SlotColumns(dofs, g.DOFOffset, Slots(m, i)), ws[i]);
      next := at;
      if g.ndomains > 1 {
        LocalScaled(m, p, d, begins, starts, global, ws, g);
        next := ScaleInterval(dofs, g, diagonals[g.pindex], fixed, at, m.intervals[i], ws[i], done, original);
      } else {
        MultipleIsProduct(0, |Slots(m, i)|);
        assert done + [] == done;
      }
    }

    /** The third walk: rewrites the weights interval by interval, from behind the Dirichlet entries. */
    method ScaleElements(dofs: nat, gintervals: seq<GluingInterval>, fixed: seq<seq<seq<nat>>>, diagonals: seq<seq<real>>,
        ghost m: Mesh, ghost starts: seq<int>, ghost global: seq<seq<real>>, ghost ws: seq<seq<seq<real>>>,
        ghost p: nat, ghost d: nat, ghost begins: seq<nat>, ghost listed: seq<seq<seq<nat>>>, ghost before: seq<Term>)
      requires Decomposition.Valid(m) && dofs == m.dofs && p < Processes(m) && |m.order[p]| <= |begins|
      requires |starts| == |m.intervals| && ValidWeights(m, ws) && ScaledWeights(m, global, ws)
      requires gintervals == LocalIntervals(m, starts, p, d, begins, |m.order[p]|)
      requires StoresFixed(m, p, begins, fixed, listed) && StoresDiagonals(m, p, global, diagonals)
      requires dirichletSize == |before| && Rewritten(duplicity, duplicity, before)
      requires |duplicity| == |before + Flatten(GluePieces(m, starts, ws, p, d))|
      modifies this`duplicity
      ensures duplicity == DomainVectors.WeightsOf(before + Flatten(GluePieces(m, starts, ws, p, d)))
    {
      ghost var pieces, original := GluePieces(m, starts, ws, p, d), duplicity;
      assert before + PiecesAt(pieces, []) == before;
      LocalIntervalsAre(m, starts, p, d, begins, |m.order[p]|);
      assert gintervals[..|gintervals|] == gintervals && pieces[..|pieces|] == pieces;
      WalkIsFlat(m, starts, p, d, begins, |m.order[p]|, pieces);
      var at := dirichletSize;
      for e := 0 to |gintervals|
        invariant at == |before + PiecesAt(pieces, gintervals[..e])|
        invariant Rewritten(duplicity, original, before + PiecesAt(pieces, gintervals[..e]))
      {
        var g := gintervals[e];
        assert IsLocal(m, starts, p, d, begins, g);
        PiecesFit(pieces, gintervals, e + 1);
        PieceNext(before, pieces, gintervals, e);
        at := ScaleLocal(dofs, g, fixed, diagonals, at, m, starts, global, ws, p, d, begins, listed,
          before + PiecesAt(pieces, gintervals[..e]), original);
      }
    }
  }

  /** Weights scaled by the diagonals of the copies, wherever there is more than one copy. */
  ghost predicate ScaledWeights(m: Mesh, global: seq<seq<real>>, ws: seq<seq<seq<real>>>)
    requires ValidWeights(m, ws)
  {
    |global| == |m.intervals| && forall i :: 0 <= i < |ws| ==> ScaledInterval(m, global[i], ws[i], i)
  }

  ghost predicate ScaledInterval(m: Mesh, diagonal: seq<real>, w: seq<seq<real>>, i: nat)
    requires i < |m.intervals| && WeightsFit(m, i, w)
  {
    forall c :: 0 <= c < |w| ==> ScaledSlot(m, diagonal, w, i, c)
  }

  ghost predicate ScaledSlot(m: Mesh, diagonal: seq<real>, w: seq<seq<real>>, i: nat, c: nat)
    requires i < |m.intervals| && WeightsFit(m, i, w) && c < |w|
  {
    if Copies(m, i) > 1 then
      PositiveAt(diagonal, Copies(m, i), m.dofs, Slots(m, i)[c]) &&
      w[c] == Scaled(Diagonal(diagonal, Copies(m, i), m.dofs, Slots(m, i)[c]))
    else w[c] == Repeat(1.0, Copies(m, i))
  }

  /** The gathered diagonals of process `p` are those of the intervals it lists. */
  ghost predicate StoresDiagonals(m: Mesh, p: nat, global: seq<seq<real>>, diagonals: seq<seq<real>>)
    requires p < Processes(m)
  {
    && |global| == |m.intervals| && |diagonals| == |m.order[p]|
    && forall k :: 0 <= k < |m.order[p]| && m.order[p][k] < |m.intervals| ==> diagonals[k] == global[m.order[p][k]]
  }

  lemma LocalScaled(m: Mesh, p: nat, d: nat, begins: seq<nat>, starts: seq<int>, global: seq<seq<real>>, ws: seq<seq<seq<real>>>,
      g: GluingInterval)
    requires Decomposition.Valid(m) && p < Processes(m) && |m.order[p]| <= |begins| && |starts| == |m.intervals|
    requires ValidWeights(m, ws) && ScaledWeights(m, global, ws) && IsLocal(m, starts, p, d, begins, g) && g.ndomains > 1
    ensures var i := m.order[p][g.pindex];
      m.dofs <= |m.intervals[i].fixed| && ScaledFor(m.dofs, g, global[i], FreeSlots(m.intervals[i], m.dofs), ws[i])
  {
    LocalGluePiece(m, starts, ws, p, d, begins, g);
    var i := m.order[p][g.pindex];
    assert ScaledInterval(m, global[i], ws[i], i);
    forall c | 0 <= c < |Slots(m, i)|
      ensures ScaledAt(m.dofs, g, global[i], Slots(m, i)[c], ws[i][c])
    {
      assert ScaledSlot(m, global[i], ws[i], i, c);
    }
  }

  lemma {:induction false} PiecesFit(pieces: seq<seq<Term>>, gs: seq<GluingInterval>, e: nat)
    requires e <= |gs|
    ensures |PiecesAt(pieces, gs[..e])| <= |PiecesAt(pieces, gs)|
    decreases |gs|
  {
    if e < |gs| {
      assert gs[..|gs| - 1][..e] == gs[..e];
      PiecesFit(pieces, gs[..|gs| - 1], e);
    } else {
      assert gs[..e] == gs;
    }
  }

  lemma ConditionsNext(before: seq<Term>, g: GluingInterval, offset: int, columns: seq<seq<int>>, dof: nat)
    requires dof < |columns|
    ensures before + DirichletTerms(g.ndomains, g.dindex, offset, columns, dof + 1) ==
      (before + DirichletTerms(g.ndomains, g.dindex, offset, columns, dof)) +
      ConditionTerms(g.dindex, offset + FixedBefore(g.ndomains, columns, dof), columns[dof], |columns[dof]|)
  {
  }

  /** Unscaled weights everywhere: one over the number of copies. */
  ghost predicate EvenWeights(m: Mesh, ws: seq<seq<seq<real>>>)
    requires |ws| == |m.intervals|
  {
    forall i :: 0 <= i < |ws| && Copies(m, i) > 0 ==> UniformWeights(ws[i], Copies(m, i), 1.0 / Copies(m, i) as real)
  }

  lemma PieceNext(before: seq<Term>, pieces: seq<seq<Term>>, gs: seq<GluingInterval>, e: nat)
    requires e < |gs| && gs[e].pindex < |pieces|
    ensures before + PiecesAt(pieces, gs[..e + 1]) == (before + PiecesAt(pieces, gs[..e])) + pieces[gs[e].pindex]
  {
    assert gs[..e + 1][..e] == gs[..e];
  }
}
