/**
 * `Constraints::update` and the assembly of one domain: interval sizes, row offsets on every
 * process, and the vectors of `B1` they lead to.
 */
module ConstraintUpdate {
  import opened Basis
  import opened Pairs
  import opened Glue
  import opened Decomposition
  import opened SlotNumbering
  import opened Offsets
  import opened Gluing
  import opened Operators
  import opened Scaling
  import opened DomainVectors
  import opened ScalingWalk
  import opened DomainConstraints

  /** Number of Dirichlet conditions on the nodes of an interval: `dsize`. */
  function ConditionCount(fixed: seq<seq<nat>>, dofs: nat): nat
    requires dofs <= |fixed|
  {
    if dofs == 0 then 0 else ConditionCount(fixed, dofs - 1) + |fixed[dofs - 1]|
  }

  /** `getDirichletSize` and `getGluingSize` with redundant multipliers. */
  function DirichletSize(m: Mesh, i: nat): nat
    requires i < |m.intervals| && m.dofs <= |m.intervals[i].fixed|
  {
    Copies(m, i) * ConditionCount(m.intervals[i].fixed, m.dofs)
  }

  function GluingSize(m: Mesh, i: nat): int
    requires i < |m.intervals| && m.dofs <= |m.intervals[i].fixed|
  {
    var n := Copies(m, i);
    if n == 1 then 0
    else (m.dofs * m.intervals[i].size - ConditionCount(m.intervals[i].fixed, m.dofs)) * (n * (n - 1) / 2)
  }

  /** Nodes below `x` are free or one of the `e` fixed ones below `x`. */
  lemma {:induction false} FreeCount(fixed: seq<nat>, x: nat, e: nat)
    requires Increasing(fixed) && e <= |fixed|
    requires forall j :: 0 <= j < |fixed| ==> (fixed[j] < x <==> j < e)
    ensures |FreeBelow(fixed, x)| + e == x
  {
    if x > 0 {
      if x - 1 in fixed {
        assert e > 0 && fixed[e - 1] == x - 1;
        FreeCount(fixed, x - 1, e - 1);
      } else {
        FreeCount(fixed, x - 1, e);
      }
    }
  }

  lemma {:induction false} SlotCount(m: Mesh, i: nat, dofs: nat)
    requires i < |m.intervals| && ValidInterval(m, i) && dofs <= m.dofs
    ensures |FreeSlots(m.intervals[i], dofs)| + ConditionCount(m.intervals[i].fixed, dofs) == dofs * m.intervals[i].size
  {
    if dofs > 0 {
      var interval := m.intervals[i];
      SlotCount(m, i, dofs - 1);
      assert ValidFixed(interval.fixed[dofs - 1], interval.listed[dofs - 1], interval.size);
      var fixed := interval.fixed[dofs - 1];
      forall j | 0 <= j < |fixed|
        ensures fixed[j] < interval.size
      {
        assert fixed[j] in fixed;
      }
      FreeCount(fixed, interval.size, |fixed|);
      assert dofs * interval.size == (dofs - 1) * interval.size + interval.size;
    }
  }

  /** The size the source computes is the number of rows the copies of the interval use. */
  lemma GluingSizeIsExact(m: Mesh, i: nat)
    requires Valid(m) && i < |m.intervals|
    ensures |m.intervals[i].fixed| == m.dofs && GluingSize(m, i) == GlueSize(m, i)
  {
    assert ValidInterval(m, i);
    SlotCount(m, i, m.dofs);
    TriangleClosedForm(Copies(m, i));
    MultipleIsProduct(Triangle(Copies(m, i)), |Slots(m, i)|);
    if Copies(m, i) == 1 {
      assert Triangle(1) == 0;
    }
  }

  lemma Distribute(n: nat, a: nat, b: nat)
    ensures n * (a + b) == n * a + n * b && n * b == b * n
  {
  }

  lemma {:induction false} FixedBeforeCount(n: nat, fixed: seq<seq<nat>>, listed: seq<seq<nat>>, dofs: nat)
    requires dofs <= |fixed| == |listed| && forall dof :: 0 <= dof < |fixed| ==> |fixed[dof]| == |listed[dof]|
    ensures FixedBefore(n, listed, dofs) == n * ConditionCount(fixed, dofs)
  {
    if dofs > 0 {
      FixedBeforeCount(n, fixed, listed, dofs - 1);
      MultipleIsProduct(|listed[dofs - 1]|, n);
      Distribute(n, ConditionCount(fixed, dofs - 1), |fixed[dofs - 1]|);
    }
  }

  lemma DirichletSizeIsExact(m: Mesh, i: nat)
    requires Valid(m) && i < |m.intervals|
    ensures |m.intervals[i].fixed| == m.dofs && DirichletSize(m, i) == FixedSize(m, i)
  {
    assert ValidInterval(m, i);
    var interval := m.intervals[i];
    forall dof | 0 <= dof < m.dofs
      ensures |interval.fixed[dof]| == |interval.listed[dof]|
    {
      assert ValidFixed(interval.fixed[dof], interval.listed[dof], interval.size);
    }
    FixedBeforeCount(Copies(m, i), interval.fixed, interval.listed, m.dofs);
  }

  /** Rows in `update`: the Dirichlet rows of all intervals, then the glue rows of all intervals. */
  ghost function UpdatedLayout(m: Mesh): Layout
    requires Valid(m)
  {
    Layout(OffsetTable(m, FixedSizes(m)),
      seq(|m.intervals|, i requires 0 <= i < |m.intervals| => Total(m, FixedSizes(m)) + GlobalOffset(m, GlueSizes(m), i)),
      Total(m, FixedSizes(m)), Total(m, GlueSizes(m)))
  }

  /** Offsets computed by the processes tile the rows behind `shift`. */
  lemma OffsetsTile(m: Mesh, sizes: seq<nat>, shift: nat, starts: seq<int>)
    requires Valid(m) && |sizes| == |m.intervals| == |starts|
    requires forall i :: 0 <= i < |starts| ==> starts[i] == shift + GlobalOffset(m, sizes, i)
    ensures Tiles(starts, sizes, shift, shift + Total(m, sizes))
  {
    var end := shift + Total(m, sizes);
    forall i, j | 0 <= i < |starts| && 0 <= j < |starts| && i != j
      ensures ApartRows(starts, sizes, i, j)
    {
      RangesDisjoint(m, sizes, i, j);
    }
    forall i | 0 <= i < |starts|
      ensures WithinRows(starts, sizes, i, shift, end)
    {
      RangeOfInterval(m, sizes, i);
    }
    forall x | shift <= x < end
      ensures Covered(starts, sizes, x)
    {
      var i := RangesCover(m, sizes, x - shift);
      assert InRange(starts, sizes, i, x);
    }
  }

  /** The layout every process works with is sound: all results on `B1` apply to it. */
  lemma UpdatedLayoutIsValid(m: Mesh)
    requires Valid(m)
    ensures ValidLayout(m, UpdatedLayout(m))
  {
    hide Valid, Tiles, GlobalOffset, Total;
    var y := UpdatedLayout(m);
    OffsetsTile(m, FixedSizes(m), 0, y.fixed);
    OffsetsTile(m, GlueSizes(m), y.dirichlet, y.glue);
  }

  /**
   * `update`: two rounds of offsets. Every process stores, for the intervals it lists, the rows
   * of the one layout, and knows the common sizes.
   */
  method Update(m: Mesh) returns (dirichlet: seq<seq<int>>, gluing: seq<seq<int>>, dirichletSize: seq<int>, gluingSize: seq<int>)
    requires Valid(m)
    ensures |dirichlet| == |gluing| == |dirichletSize| == |gluingSize| == Processes(m)
    ensures forall p :: 0 <= p < Processes(m) ==>
      HoldsOffsets(m, UpdatedLayout(m).fixed, p, dirichlet[p]) && HoldsOffsets(m, UpdatedLayout(m).glue, p, gluing[p])
    ensures forall p :: 0 <= p < Processes(m) ==>
      dirichletSize[p] == UpdatedLayout(m).dirichlet && gluingSize[p] == UpdatedLayout(m).gluing
  {
    forall i | 0 <= i < |m.intervals|
      ensures |m.intervals[i].fixed| == m.dofs && DirichletSize(m, i) == FixedSize(m, i) && GluingSize(m, i) == GlueSize(m, i)
    {
      DirichletSizeIsExact(m, i);
      GluingSizeIsExact(m, i);
    }
    var fixedSizes: seq<nat> := seq(|m.intervals|, i requires 0 <= i < |m.intervals| && m.dofs <= |m.intervals[i].fixed| => DirichletSize(m, i));
    var glueSizes: seq<nat> := seq(|m.intervals|, i requires 0 <= i < |m.intervals| && m.dofs <= |m.intervals[i].fixed| => GluingSize(m, i));
    assert fixedSizes == FixedSizes(m) && glueSizes == GlueSizes(m);
    dirichlet, dirichletSize := ComputeIntervalsOffsets(m, fixedSizes);
    var offsets;
    offsets, gluingSize := ComputeIntervalsOffsets(m, glueSizes);
    gluing := [];
    for p := 0 to Processes(m)
      invariant |gluing| == p
      invariant forall q :: 0 <= q < p ==> HoldsOffsets(m, UpdatedLayout(m).glue, q, gluing[q])
    {
      var shifted := seq(|offsets[p]|, k requires 0 <= k < |offsets[p]| => dirichletSize[p] + offsets[p][k]);
      assert HoldsOffsets(m, OffsetTable(m, glueSizes), p, offsets[p]);
      assert HoldsOffsets(m, UpdatedLayout(m).glue, p, shifted);
      gluing := gluing + [shifted];
    }
  }

  lemma OneMore(x: real, n: nat)
    requires n > 0
    ensures n as real * x == (n - 1) as real * x + x
  {
  }

  lemma {:induction false} RepeatSum(x: real, n: nat)
    ensures SumAll(Repeat(x, n)) == n as real * x
  {
    if n > 0 {
      var before := Repeat(x, n - 1);
      RepeatSum(x, n - 1);
      OneMore(x, n);
      assert Repeat(x, n) == before + [x] && (before + [x])[..n - 1] == before;
      hide Repeat;
      SumOfPrefix(before + [x], n - 1, n - 1);
    }
  }

  /** One over the number of copies for each copy: sum one. */
  lemma {:induction false} EvenIsUnit(m: Mesh, ws: seq<seq<seq<real>>>)
    requires Valid(m) && ValidWeights(m, ws) && EvenWeights(m, ws)
    ensures UnitWeights(m, ws)
  {
    hide Sum, FreeSlots, Repeat;
    forall i, c | 0 <= i < |ws| && 0 <= c < |ws[i]|
      ensures SumAll(ws[i][c]) == 1.0
    {
      assert WeightsFit(m, i, ws[i]) && ValidInterval(m, i);
      assert UniformWeights(ws[i], Copies(m, i), 1.0 / Copies(m, i) as real);
      SharesSum(Copies(m, i));
    }
  }

  lemma SharesSum(n: nat)
    requires n > 0
    ensures SumAll(Repeat(1.0 / n as real, n)) == 1.0
  {
    RepeatSum(1.0 / n as real, n);
  }

  /** Weights proportional to positive diagonals: sum one. */
  lemma {:induction false} ScaledIsUnit(m: Mesh, global: seq<seq<real>>, ws: seq<seq<seq<real>>>)
    requires Valid(m) && ValidWeights(m, ws) && ScaledWeights(m, global, ws)
    ensures UnitWeights(m, ws)
  {
    hide Sum, FreeSlots;
    forall i, c | 0 <= i < |ws| && 0 <= c < |ws[i]|
      ensures SumAll(ws[i][c]) == 1.0
    {
      assert WeightsFit(m, i, ws[i]) && ValidInterval(m, i);
      assert ScaledInterval(m, global[i], ws[i], i);
      assert ScaledSlot(m, global[i], ws[i], i, c);
      if Copies(m, i) > 1 {
        var v := Diagonal(global[i], Copies(m, i), m.dofs, Slots(m, i)[c]);
        ScaledSum(v, |v|);
        assert SumAll(v) / SumAll(v) == 1.0;
      } else {
        assert Copies(m, i) == 1;
        RepeatSum(1.0, 1);
      }
    }
  }

  /** Different weights on the same entries. */
  ghost predicate SameEntries(a: seq<Term>, b: seq<Term>) {
    RowsOf(a) == RowsOf(b) && ColsOf(a) == ColsOf(b) && ValuesOf(a) == ValuesOf(b)
  }

  lemma NoEntries()
    ensures SameEntries([], [])
  {
  }

  lemma SameAppend(a: seq<Term>, b: seq<Term>, c: seq<Term>, d: seq<Term>)
    requires SameEntries(a, b) && SameEntries(c, d)
    ensures SameEntries(a + c, b + d)
  {
    RowsOfAppend(a, c);
    RowsOfAppend(b, d);
    ValuesOfAppend(a, c);
    ValuesOfAppend(b, d);
  }

  lemma SameSlot(n: nat, k: nat, base: int, col: int, w: seq<real>, v: seq<real>)
    requires k < n == |w| == |v|
    ensures SameEntries(SlotTerms(n, k, base, col, w, n - 1), SlotTerms(n, k, base, col, v, n - 1))
  {
    var a, b := SlotTerms(n, k, base, col, w, n - 1), SlotTerms(n, k, base, col, v, n - 1);
    SlotTermsAt(n, k, base, col, w, n - 1);
    SlotTermsAt(n, k, base, col, v, n - 1);
    assert forall e :: 0 <= e < n - 1 ==> a[e].row == b[e].row && a[e].col == b[e].col && a[e].value == b[e].value;
  }

  lemma {:induction false} SameInterval(n: nat, k: nat, base: int, cols: seq<int>, w: seq<seq<real>>, v: seq<seq<real>>)
    requires k < n && |cols| <= |w| == |v| && forall c :: 0 <= c < |w| ==> |w[c]| == |v[c]| == n
    ensures SameEntries(IntervalTerms(n, k, base, cols, w), IntervalTerms(n, k, base, cols, v))
    decreases |cols|
  {
    hide SlotTerms, Triangle, Multiple, SameEntries;
    if cols != [] {
      var c := |cols| - 1;
      var start := base + Multiple(Triangle(n), c);
      SameInterval(n, k, base, cols[..c], w, v);
      SameSlot(n, k, start, cols[c], w[c], v[c]);
      SameAppend(IntervalTerms(n, k, base, cols[..c], w), IntervalTerms(n, k, base, cols[..c], v),
        SlotTerms(n, k, start, cols[c], w[c], n - 1), SlotTerms(n, k, start, cols[c], v[c], n - 1));
    } else {
      NoEntries();
    }
  }

  lemma {:induction false} SameFlatten(a: seq<seq<Term>>, b: seq<seq<Term>>)
    requires |a| == |b| && forall k :: 0 <= k < |a| ==> SameEntries(a[k], b[k])
    ensures SameEntries(Flatten(a), Flatten(b))
  {
    hide SameEntries;
    if a == [] {
      NoEntries();
    } else {
      var l := |a| - 1;
      SameFlatten(a[..l], b[..l]);
      SameAppend(Flatten(a[..l]), Flatten(b[..l]), a[l], b[l]);
    }
  }

  /** The weights do not touch the entries of a domain. */
  lemma SameGlue(m: Mesh, starts: seq<int>, ws: seq<seq<seq<real>>>, vs: seq<seq<seq<real>>>, p: nat, d: nat)
    requires p < Processes(m) && |starts| == |m.intervals| && ValidWeights(m, ws) && ValidWeights(m, vs)
    ensures SameEntries(Flatten(GluePieces(m, starts, ws, p, d)), Flatten(GluePieces(m, starts, vs, p, d)))
  {
    var a, b := GluePieces(m, starts, ws, p, d), GluePieces(m, starts, vs, p, d);
    forall k | 0 <= k < |a|
      ensures SameEntries(a[k], b[k])
    {
      var i := m.order[p][k];
      if i < |m.intervals| && d in m.intervals[i].domains {
        assert WeightsFit(m, i, ws[i]) && WeightsFit(m, i, vs[i]);
        SameInterval(Copies(m, i), IndexOf(m.intervals[i].domains, d), starts[i], Columns(m, p, d, k, Slots(m, i)), ws[i], vs[i]);
      }
    }
    SameFlatten(a, b);
  }
}
