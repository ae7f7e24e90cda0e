/** One domain from the stored intervals to the finished vectors of `B1` and `B1duplicity`. */
module DomainAssembly {
  import opened Basis
  import opened Glue
  import opened Decomposition
  import opened Offsets
  import opened Gluing
  import opened DomainVectors
  import opened GluingWalk
  import opened ScalingWalk
  import opened DomainConstraints
  import opened ConstraintUpdate

  lemma LowerBoundIsIndex(domains: seq<nat>, d: nat)
    requires Increasing(domains)
    ensures d in domains <==> LowerBound(domains, d) < |domains| && domains[LowerBound(domains, d)] == d
    ensures d in domains ==> LowerBound(domains, d) == IndexOf(domains, d)
  {
  }

  /**
   * The `gintervals` of domain `d`: the intervals of the process with the domain among theirs,
   * with the position of the domain, the first node in the domain, and the stored row offset.
   */
  method BuildIntervals(m: Mesh, p: nat, d: nat, begins: seq<nat>, offsets: seq<int>, ghost starts: seq<int>)
    returns (gs: seq<GluingInterval>)
    requires Valid(m) && p < Processes(m) && |m.order[p]| <= |begins| && |starts| == |m.intervals|
    requires HoldsOffsets(m, starts, p, offsets)
    ensures gs == LocalIntervals(m, starts, p, d, begins, |m.order[p]|)
  {
    gs := [];
    var doffset := 0;
    for k := 0 to |m.order[p]|
      invariant doffset == Prefix(SizesOfDomain(m, p, d), k)
      invariant gs == LocalIntervals(m, starts, p, d, begins, k)
    {
      ListedIsSeen(m, p, k);
      var interval := m.intervals[m.order[p][k]];
      assert ValidInterval(m, m.order[p][k]);
      LowerBoundIsIndex(interval.domains, d);
      var iit := LowerBound(interval.domains, d);
      if iit != |interval.domains| && interval.domains[iit] == d {
        gs := gs + [GluingInterval(begins[k], begins[k] + interval.size, k, doffset, iit, |interval.domains|, offsets[k])];
        doffset := doffset + interval.size;
      }
    }
  }

  lemma RowsNeedRange(ts: seq<Term>, lo: int, hi: int)
    requires RowsWithin(ts, lo, hi) && ts != []
    ensures lo < hi
  {
    assert lo < ts[0].row <= hi;
  }

  /** Without conditions anywhere there are no Dirichlet terms. */
  lemma NoConditions(m: Mesh, y: Layout, d: nat)
    requires Valid(m) && ValidLayout(m, y) && d < Domains(m) && y.dirichlet == 0
    ensures DirichletPart(m, y, d) == []
  {
    DirichletPartRows(m, y, d);
    if DirichletPart(m, y, d) != [] {
      RowsNeedRange(DirichletPart(m, y, d), 0, 0);
    }
  }

  /** The Dirichlet entries keep their weights when the others are rewritten. */
  lemma BehindDirichlet(before: seq<Term>, glue: seq<Term>, duplicity: seq<real>)
    requires duplicity == WeightsOf(before + glue)
    ensures Rewritten(duplicity, duplicity, before)
  {
    ValuesOfAppend(before, glue);
  }

  /**
   * All three walks over one domain. Its vectors end up holding the domain's part of the global
   * matrix with the weights `even`, or `scaled` when scaling is on.
   */
  method AssembleDomain(m: Mesh, d: nat, scaling: bool, dirichletSize: nat, gintervals: seq<GluingInterval>, offsets: seq<int>,
      fixed: seq<seq<seq<nat>>>, listed: seq<seq<seq<nat>>>, diagonals: seq<seq<real>>, ghost p: nat, ghost begins: seq<nat>,
      ghost even: seq<seq<seq<real>>>, ghost global: seq<seq<real>>, ghost scaled: seq<seq<seq<real>>>) returns (domain: Domain)
    requires Valid(m) && d < Domains(m) && p == ProcessOf(m, d) && p < Processes(m) && |m.order[p]| <= |begins|
    requires dirichletSize == UpdatedLayout(m).dirichlet && HoldsOffsets(m, UpdatedLayout(m).fixed, p, offsets)
    requires gintervals == LocalIntervals(m, UpdatedLayout(m).glue, p, d, begins, |m.order[p]|)
    requires StoresFixed(m, p, begins, fixed, listed) && ValidWeights(m, even) && EvenWeights(m, even)
    requires ValidWeights(m, scaled) && (scaling ==> ScaledWeights(m, global, scaled) && StoresDiagonals(m, p, global, diagonals))
    ensures fresh(domain) && domain.Valid() && domain.terms == B1(m, UpdatedLayout(m), if scaling then scaled else even, d)
  {
    hide LocalIntervals, StoresFixed, StoresDiagonals, EvenWeights, ScaledWeights, ValidWeights, Valid, HoldsOffsets;
    ghost var y := UpdatedLayout(m);
    UpdatedLayoutIsValid(m);
    if dirichletSize == 0 {
      NoConditions(m, y, d);
    }
    ghost var conditions, glue := DirichletPart(m, y, d), GluePart(m, y, even, d);
    domain := new Domain();
    domain.InsertDirichlet(m.dofs, dirichletSize, gintervals, offsets, fixed, listed, m, y.fixed, y.glue, p, d, begins);
    assert [] + conditions == conditions;
    domain.GlueElements(m.dofs, gintervals, fixed, m, y.glue, even, p, d, begins, listed);
    assert domain.terms == conditions + glue;
    if scaling {
      SameGlue(m, y.glue, even, scaled, p, d);
      BehindDirichlet(conditions, glue, domain.duplicity);
      domain.ScaleElements(m.dofs, gintervals, fixed, diagonals, m, y.glue, global, scaled, p, d, begins, listed, conditions);
      Reweighted(conditions, glue, GluePart(m, y, scaled, d), domain.rows, domain.cols, domain.values);
      domain.terms := conditions + GluePart(m, y, scaled, d);
    }
  }

  lemma Reweighted(before: seq<Term>, a: seq<Term>, b: seq<Term>, rows: seq<int>, cols: seq<int>, values: seq<real>)
    requires SameEntries(a, b) && rows == RowsOf(before + a) && cols == ColsOf(before + a) && values == ValuesOf(before + a)
    ensures rows == RowsOf(before + b) && cols == ColsOf(before + b) && values == ValuesOf(before + b)
  {
    SameAppend(before, before, a, b);
  }
}
