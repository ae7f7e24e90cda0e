/** The intervals of one domain as its loops see them, and the terms the walk over them yields. */
module GluingWalk {
  import opened Basis
  import opened Pairs
  import opened Glue
  import opened Decomposition
  import opened SlotNumbering
  import opened Gluing

  /** The part of a domain's interval the loops use. */
  datatype GluingInterval = GluingInterval(begin: nat, end: nat, pindex: nat, DOFOffset: nat, dindex: nat, ndomains: nat, LMOffset: int)

  ghost predicate ValidGluing(g: GluingInterval) {
    g.begin <= g.end && g.dindex < g.ndomains
  }

  /** `nodes` are the positions `at` of interval nodes as local node numbers. */
  ghost predicate Shifted(nodes: seq<nat>, at: seq<nat>, begin: nat) {
    |nodes| == |at| && forall e :: 0 <= e < |nodes| ==> nodes[e] == at[e] + begin
  }

  /** `fixed` are the Dirichlet nodes of the interval on `dof`, sorted. */
  ghost predicate FitsInterval(g: GluingInterval, i: Interval, fixed: seq<nat>, dof: nat, dofs: nat) {
    && dof < dofs == |i.fixed| && g.end == g.begin + i.size && Shifted(fixed, i.fixed[dof], g.begin)
    && Increasing(i.fixed[dof]) && forall x :: x in i.fixed[dof] ==> x < i.size
  }

  /** The run from `current` to the next Dirichlet node continues the glued slots. */
  lemma LocalRun(g: GluingInterval, i: Interval, fixed: seq<nat>, dof: nat, dofs: nat, e: nat, current: nat, done: seq<Slot>)
    requires FitsInterval(g, i, fixed, dof, dofs) && e < |fixed|
    requires current == if e == 0 then g.begin else fixed[e - 1] + 1
    requires g.begin <= current && done == SlotsBefore(i, dof, current - g.begin)
    ensures g.begin <= current <= fixed[e] < g.end
    ensures done + RunSlots(current - g.begin, fixed[e] - g.begin, dof) == SlotsBefore(i, dof, fixed[e] + 1 - g.begin)
    ensures done + RunSlots(current - g.begin, fixed[e] - g.begin, dof) <= FreeSlots(i, dofs)
  {
    NoFixedBetween(i.fixed[dof], e);
    RunToFixed(i, dof, current - g.begin, fixed[e] - g.begin, dofs);
  }

  /** The run behind the last Dirichlet node completes the degree of freedom. */
  lemma LocalLastRun(g: GluingInterval, i: Interval, fixed: seq<nat>, dof: nat, dofs: nat, current: nat, done: seq<Slot>)
    requires FitsInterval(g, i, fixed, dof, dofs)
    requires current == if fixed == [] then g.begin else fixed[|fixed| - 1] + 1
    requires g.begin <= current && done == SlotsBefore(i, dof, current - g.begin)
    ensures g.begin <= current <= g.end
    ensures done + RunSlots(current - g.begin, g.end - g.begin, dof) == FreeSlots(i, dof + 1)
    ensures FreeSlots(i, dof + 1) <= FreeSlots(i, dofs)
  {
    NoFixedBetween(i.fixed[dof], |fixed|);
    assert fixed != [] ==> i.fixed[dof][|fixed| - 1] in i.fixed[dof];
    LastRun(i, dof, current - g.begin, dofs);
  }

  ghost predicate WeightsFor(g: GluingInterval, ws: seq<seq<real>>, slots: seq<Slot>) {
    |slots| <= |ws| && forall c :: 0 <= c < |ws| ==> |ws[c]| == g.ndomains
  }

  /** The terms of the domain's copy for the glued slots `slots`. */
  ghost function CopyTerms(dofs: nat, g: GluingInterval, slots: seq<Slot>, ws: seq<seq<real>>): seq<Term>
    requires ValidGluing(g) && WeightsFor(g, ws, slots)
  {
    IntervalTerms(g.ndomains, g.dindex, g.LMOffset, SlotColumns(dofs, g.DOFOffset, slots), ws)
  }

  /** The terms of one slot more. */
  lemma TermsNext(before: seq<Term>, dofs: nat, g: GluingInterval, slots: seq<Slot>, s: Slot, ws: seq<seq<real>>,
      start: int, col: int)
    requires ValidGluing(g) && WeightsFor(g, ws, slots + [s])
    requires start == g.LMOffset + Multiple(Triangle(g.ndomains), |slots|) && col == SlotColumn(dofs, g.DOFOffset, s)
    ensures before + CopyTerms(dofs, g, slots + [s], ws) ==
      (before + CopyTerms(dofs, g, slots, ws)) + SlotTerms(g.ndomains, g.dindex, start, col, ws[|slots|], g.ndomains - 1)
  {
    var cols := SlotColumns(dofs, g.DOFOffset, slots);
    SlotColumnsNext(dofs, g.DOFOffset, slots, s);
    assert (cols + [col])[..|cols|] == cols;
    ConcatExtend(before, CopyTerms(dofs, g, slots + [s], ws), CopyTerms(dofs, g, slots, ws),
      SlotTerms(g.ndomains, g.dindex, start, col, ws[|slots|], g.ndomains - 1));
  }

  lemma RunNext(done: seq<Slot>, first: nat, last: nat, dof: nat)
    requires first <= last
    ensures done + RunSlots(first, last + 1, dof) == (done + RunSlots(first, last, dof)) + [Slot(last, dof)]
  {
  }

  /** Domain `d` has a copy of the nodes of the k-th interval process `p` lists. */
  ghost predicate HasInterval(m: Mesh, p: nat, d: nat, k: nat)
    requires p < Processes(m) && k < |m.order[p]|
  {
    m.order[p][k] < |m.intervals| && d in m.intervals[m.order[p][k]].domains
  }

  /** The k-th interval of process `p` as domain `d` stores it; `begins` are the local node numbers. */
  ghost function LocalInterval(m: Mesh, starts: seq<int>, p: nat, d: nat, begins: seq<nat>, k: nat): (g: GluingInterval)
    requires p < Processes(m) && k < |m.order[p]| <= |begins| && |starts| == |m.intervals| && HasInterval(m, p, d, k)
    ensures ValidGluing(g)
  {
    var interval := m.intervals[m.order[p][k]];
    GluingInterval(begins[k], begins[k] + interval.size, k, Prefix(SizesOfDomain(m, p, d), k),
      IndexOf(interval.domains, d), |interval.domains|, starts[m.order[p][k]])
  }

  /** The `gintervals` of domain `d` among the first `k` listed intervals. */
  ghost function LocalIntervals(m: Mesh, starts: seq<int>, p: nat, d: nat, begins: seq<nat>, k: nat): seq<GluingInterval>
    requires p < Processes(m) && k <= |m.order[p]| <= |begins| && |starts| == |m.intervals|
  {
    if k == 0 then [] else
      LocalIntervals(m, starts, p, d, begins, k - 1) +
      if HasInterval(m, p, d, k - 1) then [LocalInterval(m, starts, p, d, begins, k - 1)] else []
  }

  /** Every stored interval is one of the process, with the domain in it. */
  ghost predicate IsLocal(m: Mesh, starts: seq<int>, p: nat, d: nat, begins: seq<nat>, g: GluingInterval)
    requires p < Processes(m) && |m.order[p]| <= |begins| && |starts| == |m.intervals|
  {
    g.pindex < |m.order[p]| && HasInterval(m, p, d, g.pindex) && g == LocalInterval(m, starts, p, d, begins, g.pindex)
  }

  lemma {:induction false} LocalIntervalsAre(m: Mesh, starts: seq<int>, p: nat, d: nat, begins: seq<nat>, k: nat)
    requires p < Processes(m) && k <= |m.order[p]| <= |begins| && |starts| == |m.intervals|
    ensures forall e :: 0 <= e < |LocalIntervals(m, starts, p, d, begins, k)| ==>
      IsLocal(m, starts, p, d, begins, LocalIntervals(m, starts, p, d, begins, k)[e])
  {
    if k > 0 {
      LocalIntervalsAre(m, starts, p, d, begins, k - 1);
    }
  }

  /** One list of pieces, by the interval number of each stored interval. */
  ghost function PiecesAt(pieces: seq<seq<Term>>, gs: seq<GluingInterval>): seq<Term> {
    if gs == [] then [] else
      var g := gs[|gs| - 1];
      PiecesAt(pieces, gs[..|gs| - 1]) + if g.pindex < |pieces| then pieces[g.pindex] else []
  }

  /** The walk over the stored intervals meets every nonempty piece once, in order. */
  lemma {:induction false} WalkIsFlat(m: Mesh, starts: seq<int>, p: nat, d: nat, begins: seq<nat>, k: nat, pieces: seq<seq<Term>>)
    requires p < Processes(m) && k <= |m.order[p]| <= |begins| && |starts| == |m.intervals| && |pieces| == |m.order[p]|
    requires forall l :: 0 <= l < |pieces| && !HasInterval(m, p, d, l) ==> pieces[l] == []
    ensures PiecesAt(pieces, LocalIntervals(m, starts, p, d, begins, k)) == Flatten(pieces[..k])
  {
    if k > 0 {
      WalkIsFlat(m, starts, p, d, begins, k - 1, pieces);
      var before := LocalIntervals(m, starts, p, d, begins, k - 1);
      hide PiecesAt, Flatten;
      FlattenNext(pieces, k - 1);
      if HasInterval(m, p, d, k - 1) {
        PiecesNext(pieces, before, LocalInterval(m, starts, p, d, begins, k - 1));
      } else {
        assert before + [] == before;
        assert Flatten(pieces[..k]) == Flatten(pieces[..k - 1]) + [];
      }
    }
  }

  lemma PiecesNext(pieces: seq<seq<Term>>, gs: seq<GluingInterval>, g: GluingInterval)
    requires g.pindex < |pieces|
    ensures PiecesAt(pieces, gs + [g]) == PiecesAt(pieces, gs) + pieces[g.pindex]
  {
    assert (gs + [g])[..|gs|] == gs;
  }

  /**
   * What process `p` stores about the Dirichlet nodes: `fixed[dof][k]` the sorted nodes of its
   * k-th interval, `listed[dof][k]` the same nodes in region order.
   */
  ghost predicate StoresFixed(m: Mesh, p: nat, begins: seq<nat>, fixed: seq<seq<seq<nat>>>, listed: seq<seq<seq<nat>>>)
    requires p < Processes(m) && |m.order[p]| <= |begins|
  {
    && |fixed| == |listed| == m.dofs
    && (forall dof :: 0 <= dof < m.dofs ==> |fixed[dof]| == |listed[dof]| == |m.order[p]|)
    && (forall dof, k :: 0 <= dof < m.dofs && 0 <= k < |m.order[p]| ==>
      StoresNodes(m, p, begins[k], fixed[dof][k], listed[dof][k], dof, k))
  }

  ghost predicate StoresNodes(m: Mesh, p: nat, begin: nat, fixed: seq<nat>, listed: seq<nat>, dof: nat, k: nat)
    requires p < Processes(m) && k < |m.order[p]|
  {
    if m.order[p][k] < |m.intervals| then
      var i := m.intervals[m.order[p][k]];
      dof < |i.fixed| && dof < |i.listed| && Shifted(fixed, i.fixed[dof], begin) && Shifted(listed, i.listed[dof], begin)
    else true
  }

  /** What a stored interval and the stored nodes say about the global interval. */
  lemma StoredFits(m: Mesh, starts: seq<int>, p: nat, d: nat, begins: seq<nat>, g: GluingInterval,
      fixed: seq<seq<seq<nat>>>, listed: seq<seq<seq<nat>>>)
    requires Decomposition.Valid(m) && p < Processes(m) && |m.order[p]| <= |begins| && |starts| == |m.intervals|
    requires IsLocal(m, starts, p, d, begins, g) && StoresFixed(m, p, begins, fixed, listed)
    ensures var i := m.intervals[m.order[p][g.pindex]];
      && m.dofs == |i.fixed| == |i.listed|
      && (forall dof :: 0 <= dof < m.dofs ==> g.pindex < |fixed[dof]| && FitsInterval(g, i, fixed[dof][g.pindex], dof, m.dofs))
      && (forall dof :: 0 <= dof < m.dofs ==> (g.pindex < |listed[dof]| && Shifted(listed[dof][g.pindex], i.listed[dof], g.begin) &&
           |fixed[dof][g.pindex]| == |listed[dof][g.pindex]|))
  {
    var i := m.intervals[m.order[p][g.pindex]];
    assert ValidInterval(m, m.order[p][g.pindex]);
    forall dof | 0 <= dof < m.dofs
      ensures g.pindex < |fixed[dof]| && FitsInterval(g, i, fixed[dof][g.pindex], dof, m.dofs)
      ensures g.pindex < |listed[dof]| && Shifted(listed[dof][g.pindex], i.listed[dof], g.begin)
      ensures |fixed[dof][g.pindex]| == |listed[dof][g.pindex]|
    {
      assert StoresNodes(m, p, begins[g.pindex], fixed[dof][g.pindex], listed[dof][g.pindex], dof, g.pindex);
      assert ValidFixed(i.fixed[dof], i.listed[dof], i.size);
    }
  }

  /** The columns of the Dirichlet nodes of a stored interval. */
  function ConditionColumns(dofs: nat, offset: nat, listed: seq<seq<nat>>): (r: seq<seq<int>>)
    ensures |r| == |listed|
  {
    seq(|listed|, dof requires 0 <= dof < |listed| => SlotColumns(dofs, offset, OnDof(listed[dof], dof)))
  }

  /** The glue piece of a stored interval. */
  lemma LocalGluePiece(m: Mesh, starts: seq<int>, ws: seq<seq<seq<real>>>, p: nat, d: nat, begins: seq<nat>, g: GluingInterval)
    requires Decomposition.Valid(m) && p < Processes(m) && |m.order[p]| <= |begins| && |starts| == |m.intervals|
    requires ValidWeights(m, ws) && IsLocal(m, starts, p, d, begins, g)
    ensures var i := m.order[p][g.pindex];
      && ValidGluing(g) && |ws| == |m.intervals| && |ws[i]| == |Slots(m, i)|
      && m.dofs <= |m.intervals[i].fixed| && Slots(m, i) == FreeSlots(m.intervals[i], m.dofs)
      && WeightsFor(g, ws[i], Slots(m, i)) && g.ndomains == Copies(m, i)
      && GluePieces(m, starts, ws, p, d)[g.pindex] == CopyTerms(m.dofs, g, Slots(m, i), ws[i])
  {
    var i := m.order[p][g.pindex];
    assert ValidInterval(m, i);
    assert WeightsFit(m, i, ws[i]);
  }

  /** The Dirichlet piece of a stored interval. */
  lemma LocalFixedPiece(m: Mesh, conditions: seq<int>, starts: seq<int>, p: nat, d: nat, begins: seq<nat>, g: GluingInterval)
    requires Decomposition.Valid(m) && p < Processes(m) && |m.order[p]| <= |begins|
    requires |conditions| == |starts| == |m.intervals| && IsLocal(m, starts, p, d, begins, g)
    ensures var listed := m.intervals[m.order[p][g.pindex]].listed;
      ValidGluing(g) && FixedPieces(m, conditions, p, d)[g.pindex] ==
        DirichletTerms(g.ndomains, g.dindex, conditions[m.order[p][g.pindex]], ConditionColumns(m.dofs, g.DOFOffset, listed), |listed|)
  {
    var listed := m.intervals[m.order[p][g.pindex]].listed;
    assert ConditionColumns(m.dofs, g.DOFOffset, listed) == FixedColumns(m, p, d, g.pindex, listed);
  }
}
