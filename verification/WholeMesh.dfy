/**
 * The constraints of the whole mesh as all processes build them together, and what the result
 * means: its glue rows vanish exactly when the copies agree, and the weights in `B1duplicity`
 * make `B1 * B_D^T * B1 == B1`.
 */
module WholeMesh {
  import opened Basis
  import opened Glue
  import opened Decomposition
  import opened SlotNumbering
  import opened Offsets
  import opened Gluing
  import opened Operators
  import opened Scaling
  import opened Numbering
  import opened DomainVectors
  import opened GluingWalk
  import opened ScalingWalk
  import opened DomainConstraints
  import opened ConstraintUpdate
  import opened DomainAssembly
  import opened ClustersMap
  import opened ProcessMap
  import opened MatrixEntries
  import opened MapRanks

  /** What one process stores: first nodes of its intervals, Dirichlet nodes, gathered diagonals. */
  datatype Stored = Stored(begins: seq<nat>, fixed: seq<seq<seq<nat>>>, listed: seq<seq<seq<nat>>>, diagonals: seq<seq<real>>)

  ghost predicate StoresMesh(m: Mesh, global: seq<seq<real>>, scaling: bool, s: seq<Stored>) {
    |s| == Processes(m) && forall p :: 0 <= p < |s| ==> StoresPart(m, global, scaling, p, s[p])
  }

  ghost predicate StoresPart(m: Mesh, global: seq<seq<real>>, scaling: bool, p: nat, s: Stored)
    requires p < Processes(m)
  {
    |m.order[p]| <= |s.begins| && StoresFixed(m, p, s.begins, s.fixed, s.listed) &&
    (scaling ==> StoresDiagonals(m, p, global, s.diagonals))
  }

  /** Positive diagonal entries for every degree of freedom of every node with several copies. */
  ghost predicate PositiveDiagonals(m: Mesh, global: seq<seq<real>>) {
    |global| == |m.intervals| && forall i :: 0 <= i < |global| && Copies(m, i) > 1 ==> PositiveInterval(m, global[i], i)
  }

  ghost predicate PositiveInterval(m: Mesh, diagonal: seq<real>, i: nat)
    requires i < |m.intervals|
  {
    && |diagonal| == Multiple(Copies(m, i), Multiple(m.dofs, m.intervals[i].size))
    && forall k :: 0 <= k < |diagonal| ==> diagonal[k] > 0.0
  }

  /** Diagonals are asked for with scaling only. */
  ghost predicate DiagonalsFor(m: Mesh, global: seq<seq<real>>, scaling: bool) {
    scaling ==> PositiveDiagonals(m, global)
  }

  /** The diagonal entries of a slot lie inside those of its interval. */
  lemma SlotIsPositive(m: Mesh, diagonal: seq<real>, i: nat, s: Slot)
    requires i < |m.intervals| && PositiveInterval(m, diagonal, i) && s.node < m.intervals[i].size && s.dof < m.dofs
    ensures PositiveAt(diagonal, Copies(m, i), m.dofs, s)
  {
    var n, x := Copies(m, i), Multiple(m.dofs, s.node) + s.dof;
    MultipleMonotone(m.dofs, s.node + 1, m.intervals[i].size);
    MultipleMonotone(n, x + 1, Multiple(m.dofs, m.intervals[i].size));
  }

  lemma SlotInInterval(m: Mesh, i: nat, c: nat)
    requires i < |m.intervals| && ValidInterval(m, i) && c < |Slots(m, i)|
    ensures Slots(m, i)[c].node < m.intervals[i].size && Slots(m, i)[c].dof < m.dofs
  {
    FreeSlotsSpec(m.intervals[i], m.dofs);
  }

  ghost predicate ReadyInterval(m: Mesh, global: seq<seq<real>>, scaling: bool, i: nat) {
    && i < |m.intervals| && ValidInterval(m, i)
    && (scaling ==> |global| == |m.intervals| && (Copies(m, i) > 1 ==> PositiveInterval(m, global[i], i)))
  }

  /** The weights of one glued slot: one over the number of copies, or proportional to the diagonals. */
  ghost function SlotWeights(m: Mesh, global: seq<seq<real>>, scaling: bool, i: nat, c: nat): (w: seq<real>)
    requires ReadyInterval(m, global, scaling, i) && c < |Slots(m, i)|
    ensures |w| == Copies(m, i)
  {
    SlotInInterval(m, i, c);
    if scaling && Copies(m, i) > 1 then
      SlotIsPositive(m, global[i], i, Slots(m, i)[c]);
      Scaled(Diagonal(global[i], Copies(m, i), m.dofs, Slots(m, i)[c]))
    else Repeat(1.0 / Copies(m, i) as real, Copies(m, i))
  }

  ghost function IntervalWeights(m: Mesh, global: seq<seq<real>>, scaling: bool, i: nat): (w: seq<seq<real>>)
    requires ReadyInterval(m, global, scaling, i)
    ensures WeightsFit(m, i, w)
  {
    seq(|Slots(m, i)|, c requires 0 <= c < |Slots(m, i)| => SlotWeights(m, global, scaling, i, c))
  }

  lemma IntervalWeightsSpec(m: Mesh, global: seq<seq<real>>, scaling: bool, i: nat)
    requires ReadyInterval(m, global, scaling, i)
    ensures Copies(m, i) > 0
    ensures if scaling then ScaledInterval(m, global[i], IntervalWeights(m, global, scaling, i), i)
      else UniformWeights(IntervalWeights(m, global, scaling, i), Copies(m, i), 1.0 / Copies(m, i) as real)
  {
    var w := IntervalWeights(m, global, scaling, i);
    if scaling {
      forall c | 0 <= c < |w|
        ensures ScaledSlot(m, global[i], w, i, c)
      {
        SlotInInterval(m, i, c);
        if Copies(m, i) > 1 {
          SlotIsPositive(m, global[i], i, Slots(m, i)[c]);
        }
      }
    }
  }

  lemma AllReady(m: Mesh, global: seq<seq<real>>, scaling: bool)
    requires Valid(m) && DiagonalsFor(m, global, scaling)
    ensures forall i :: 0 <= i < |m.intervals| ==> ReadyInterval(m, global, scaling, i)
  {
  }

  /** The weights of the whole mesh: even, or scaled by the diagonals. */
  ghost function Weights(m: Mesh, global: seq<seq<real>>, scaling: bool): (ws: seq<seq<seq<real>>>)
    requires Valid(m) && DiagonalsFor(m, global, scaling)
    ensures ValidWeights(m, ws)
  {
    seq(|m.intervals|, i requires 0 <= i < |m.intervals| && ReadyInterval(m, global, scaling, i) => IntervalWeights(m, global, scaling, i))
  }

  lemma WeightsSpec(m: Mesh, global: seq<seq<real>>, scaling: bool)
    requires Valid(m) && DiagonalsFor(m, global, scaling)
    ensures var ws := Weights(m, global, scaling);
      (if scaling then ScaledWeights(m, global, ws) else EvenWeights(m, ws)) && UnitWeights(m, ws)
  {
    AllReady(m, global, scaling);
    var ws := Weights(m, global, scaling);
    hide Valid, ReadyInterval, DiagonalsFor;
    if scaling {
      ScaledSpec(m, global);
      ScaledIsUnit(m, global, ws);
    } else {
      EvenSpec(m, global);
      EvenIsUnit(m, ws);
    }
  }

  lemma ScaledSpec(m: Mesh, global: seq<seq<real>>)
    requires Valid(m) && DiagonalsFor(m, global, true)
    ensures ScaledWeights(m, global, Weights(m, global, true))
  {
    AllReady(m, global, true);
    hide Valid, ScaledInterval;
    forall i | 0 <= i < |m.intervals|
      ensures ReadyInterval(m, global, true, i) && ScaledInterval(m, global[i], IntervalWeights(m, global, true, i), i)
    {
      IntervalWeightsSpec(m, global, true, i);
    }
  }

  lemma EvenSpec(m: Mesh, global: seq<seq<real>>)
    requires Valid(m)
    ensures EvenWeights(m, Weights(m, global, false))
  {
    AllReady(m, global, false);
    hide Valid, UniformWeights;
    forall i | 0 <= i < |m.intervals| && Copies(m, i) > 0
      ensures UniformWeights(Weights(m, global, false)[i], Copies(m, i), 1.0 / Copies(m, i) as real)
    {
      IntervalWeightsSpec(m, global, false, i);
    }
  }

  /** The parts of all domains are those of the one global matrix. */
  ghost predicate Assembled(m: Mesh, global: seq<seq<real>>, scaling: bool, parts: seq<seq<Term>>)
    requires Valid(m) && DiagonalsFor(m, global, scaling)
  {
    |parts| == Domains(m) && forall d :: 0 <= d < |parts| ==> parts[d] == B1(m, UpdatedLayout(m), Weights(m, global, scaling), d)
  }

  /** One row of `B1 * u`: the sum over the domains. */
  ghost function RowValue(parts: seq<seq<Term>>, u: Field, row: int): real {
    if parts == [] then 0.0 else
      RowValue(parts[..|parts| - 1], u, row) + TotalOf(parts[|parts| - 1], RowPart(row, u, |parts| - 1))
  }

  /** `B_D^T * lambda`, domain by domain. */
  ghost function Transposed(parts: seq<seq<Term>>, lambda: int -> real): Field {
    (d: nat, col: int) => if d < |parts| then TotalOf(parts[d], ColumnPart(col, lambda)) else 0.0
  }

  lemma {:induction false} RowValueIsSum(parts: seq<seq<Term>>, u: Field, row: int, f: nat -> real)
    requires forall d: nat :: d < |parts| ==> f(d) == TotalOf(parts[d], RowPart(row, u, d))
    ensures RowValue(parts, u, row) == SumBelow(f, |parts|)
  {
    if parts != [] {
      RowValueIsSum(parts[..|parts| - 1], u, row, f);
    }
  }

  lemma AssembledRow(m: Mesh, global: seq<seq<real>>, scaling: bool, parts: seq<seq<Term>>, u: Field, row: int)
    requires Valid(m) && DiagonalsFor(m, global, scaling) && Assembled(m, global, scaling, parts)
    ensures RowValue(parts, u, row) == Apply(m, UpdatedLayout(m), Weights(m, global, scaling), u, row)
  {
    RowValueIsSum(parts, u, row, DomainPart(m, UpdatedLayout(m), Weights(m, global, scaling), u, row));
  }

  lemma {:induction false} TotalPointwise(ts: seq<Term>, row: int, u: Field, v: Field, d: nat)
    requires forall col: int :: u(d, col) == v(d, col)
    ensures TotalOf(ts, RowPart(row, u, d)) == TotalOf(ts, RowPart(row, v, d))
  {
    if ts != [] {
      TotalPointwise(ts[..|ts| - 1], row, u, v, d);
    }
  }

  lemma {:induction false} RowPointwise(parts: seq<seq<Term>>, u: Field, v: Field, row: int)
    requires forall d: nat, col: int :: d < |parts| ==> u(d, col) == v(d, col)
    ensures RowValue(parts, u, row) == RowValue(parts, v, row)
  {
    if parts != [] {
      RowPointwise(parts[..|parts| - 1], u, v, row);
      TotalPointwise(parts[|parts| - 1], row, u, v, |parts| - 1);
    }
  }

  /**
   * What all processes built together, even or scaled: for multipliers `lambda` that are the rows
   * of `B1 * u`, applying `B_D^T` and `B1` again gives `lambda` back, on every row.
   */
  lemma AssembledIdentity(m: Mesh, global: seq<seq<real>>, scaling: bool, parts: seq<seq<Term>>, u: Field, lambda: int -> real, row: int)
    requires Valid(m) && DiagonalsFor(m, global, scaling) && Assembled(m, global, scaling, parts)
    requires forall r: int :: lambda(r) == RowValue(parts, u, r)
    requires 0 < row <= UpdatedLayout(m).dirichlet + UpdatedLayout(m).gluing
    ensures RowValue(parts, Transposed(parts, lambda), row) == lambda(row)
  {
    var y, ws := UpdatedLayout(m), Weights(m, global, scaling);
    UpdatedLayoutIsValid(m);
    WeightsSpec(m, global, scaling);
    forall r: int {:trigger Apply(m, y, ws, u, r)}
      ensures lambda(r) == Apply(m, y, ws, u, r)
    {
      AssembledRow(m, global, scaling, parts, u, r);
    }
    hide Valid, ValidLayout, UnitWeights, RowValue, Apply, ScaledWeights, EvenWeights, UpdatedLayout, Weights;
    ScalingIdentity(m, y, ws, u, lambda, row);
    AssembledRow(m, global, scaling, parts, WeightedTranspose(m, y, ws, lambda), row);
    RowPointwise(parts, Transposed(parts, lambda), WeightedTranspose(m, y, ws, lambda), row);
  }

  /** All copies of all glued degrees of freedom have the same value. */
  ghost predicate AllCopiesAgree(m: Mesh, u: Field)
    requires Valid(m)
  {
    forall i, c :: 0 <= i < |m.intervals| && 0 <= c < |Slots(m, i)| ==> CopiesAgree(m, u, i, c)
  }

  /** All glue rows of the assembled parts vanish on `u`. */
  ghost predicate PartsVanish(m: Mesh, parts: seq<seq<Term>>, u: Field)
    requires Valid(m)
  {
    var y := UpdatedLayout(m);
    forall row :: y.dirichlet < row <= y.dirichlet + y.gluing ==> RowValue(parts, u, row) == 0.0
  }

  lemma VanishSame(m: Mesh, global: seq<seq<real>>, scaling: bool, parts: seq<seq<Term>>, u: Field)
    requires Valid(m) && DiagonalsFor(m, global, scaling) && Assembled(m, global, scaling, parts)
    ensures PartsVanish(m, parts, u) <==> GlueRowsVanish(m, UpdatedLayout(m), Weights(m, global, scaling), u)
  {
    assert SizedLayout(m, UpdatedLayout(m));
    hide Valid, DiagonalsFor, Assembled, RowValue, Apply, UpdatedLayout, Weights;
    var y, ws := UpdatedLayout(m), Weights(m, global, scaling);
    forall row
      ensures RowValue(parts, u, row) == Apply(m, y, ws, u, row)
    {
      AssembledRow(m, global, scaling, parts, u, row);
    }
  }

  /** What all processes built together: its glue rows vanish exactly when all copies agree. */
  lemma AssembledGluing(m: Mesh, global: seq<seq<real>>, scaling: bool, parts: seq<seq<Term>>, u: Field)
    requires Valid(m) && DiagonalsFor(m, global, scaling) && Assembled(m, global, scaling, parts)
    ensures PartsVanish(m, parts, u) <==> AllCopiesAgree(m, u)
  {
    VanishSame(m, global, scaling, parts, u);
    UpdatedLayoutIsValid(m);
    hide Valid, DiagonalsFor, Assembled, PartsVanish, GlueRowsVanish, UpdatedLayout, Weights, CopiesAgree;
    GluedIffCopiesAgree(m, UpdatedLayout(m), Weights(m, global, scaling), u);
  }

  ghost function PartsOf(domains: seq<Domain>): (parts: seq<seq<Term>>)
    reads domains
    ensures |parts| == |domains| && forall d :: 0 <= d < |domains| ==> parts[d] == domains[d].terms
  {
    seq(|domains|, d requires 0 <= d < |domains| reads domains => domains[d].terms)
  }

  /** The domain's vectors are aligned and hold its part of the global matrix. */
  ghost predicate HoldsPart(m: Mesh, global: seq<seq<real>>, scaling: bool, domain: Domain, d: nat)
    requires Valid(m) && DiagonalsFor(m, global, scaling) && d < Domains(m)
    reads domain
  {
    domain.Valid() && domain.terms == B1(m, UpdatedLayout(m), Weights(m, global, scaling), d)
  }

  /** The four vectors hold, position by position, glue and Dirichlet entries on the right degrees of freedom. */
  ghost predicate HoldsEntries(m: Mesh, global: seq<seq<real>>, scaling: bool, begins: seq<nat>, domain: Domain, d: nat)
    requires Valid(m) && DiagonalsFor(m, global, scaling)
    reads domain
  {
    && |domain.rows| == |domain.cols| == |domain.values| == |domain.duplicity|
    && forall e :: 0 <= e < |domain.rows| ==> IsEntry(m, UpdatedLayout(m), Weights(m, global, scaling), begins, d,
      Term(domain.rows[e], domain.cols[e], domain.values[e], domain.duplicity[e]))
  }

  lemma PartEntries(m: Mesh, global: seq<seq<real>>, scaling: bool, begins: seq<nat>, domain: Domain, d: nat)
    requires Valid(m) && DiagonalsFor(m, global, scaling) && d < Domains(m) && NumberedFor(m, d, begins)
    requires HoldsPart(m, global, scaling, domain, d)
    ensures HoldsEntries(m, global, scaling, begins, domain, d)
  {
    UpdatedLayoutIsValid(m);
    var y, ws := UpdatedLayout(m), Weights(m, global, scaling);
    hide Valid, DiagonalsFor, UpdatedLayout, Weights, B1, IsEntry, NumberedFor;
    forall e | 0 <= e < |domain.terms|
      ensures IsEntry(m, y, ws, begins, d, Term(domain.rows[e], domain.cols[e], domain.values[e], domain.duplicity[e]))
    {
      EveryTermIsEntry(m, y, ws, begins, d, e);
    }
  }

  /** The sum of `n` diagonal entries from number `base` on. */
  ghost function DiagonalSum(diagonal: seq<real>, base: nat, n: nat): real
    requires base + n <= |diagonal|
  {
    if n == 0 then 0.0 else DiagonalSum(diagonal, base, n - 1) + diagonal[base + n - 1]
  }

  lemma {:induction false} SliceSum(v: seq<real>, diagonal: seq<real>, base: nat, n: nat)
    requires n <= |v| && IsSlice(v, diagonal, base)
    ensures Sum(v, n) == DiagonalSum(diagonal, base, n)
  {
    if n > 0 {
      SliceSum(v, diagonal, base, n - 1);
    }
  }

  lemma ShareOf(x: real, total: real)
    requires total != 0.0
    ensures x / total * total == x
  {
  }

  /**
   * The weight of copy `k`: the same share for every copy, or with scaling the diagonal entry of
   * its degree of freedom over the sum of those of all copies.
   */
  lemma WeightIsShare(m: Mesh, global: seq<seq<real>>, scaling: bool, i: nat, c: nat, k: nat)
    requires Valid(m) && DiagonalsFor(m, global, scaling) && i < |m.intervals| && c < |Slots(m, i)| && k < Copies(m, i)
    ensures WeightsFit(m, i, Weights(m, global, scaling)[i])
    ensures var w, s, n := Weights(m, global, scaling)[i][c][k], Slots(m, i)[c], Copies(m, i);
      if scaling && n > 1 then i < |global| && IsShare(w, global[i], n, Multiple(n, Multiple(m.dofs, s.node) + s.dof), k)
      else w * n as real == 1.0
  {
    AllReady(m, global, scaling);
    var n, s := Copies(m, i), Slots(m, i)[c];
    assert ReadyInterval(m, global, scaling, i);
    SlotInInterval(m, i, c);
    WeightOfCopy(m, global, scaling, i, c);
    hide Valid, ReadyInterval, Weights, Slots, DiagonalsFor;
    if scaling && n > 1 {
      ScaledShare(m, global[i], i, s, k);
    } else {
      EvenShare(n, k);
    }
  }

  /** `w` times the sum of the `n` entries from number `base` on is entry `base + k`. */
  ghost predicate IsShare(w: real, diagonal: seq<real>, n: nat, base: nat, k: nat) {
    k < n && base + n <= |diagonal| && DiagonalSum(diagonal, base, n) > 0.0 && w * DiagonalSum(diagonal, base, n) == diagonal[base + k]
  }

  lemma WeightOfCopy(m: Mesh, global: seq<seq<real>>, scaling: bool, i: nat, c: nat)
    requires Valid(m) && DiagonalsFor(m, global, scaling) && i < |m.intervals| && c < |Slots(m, i)|
    ensures ReadyInterval(m, global, scaling, i)
    ensures Weights(m, global, scaling)[i][c] == SlotWeights(m, global, scaling, i, c)
  {
    AllReady(m, global, scaling);
  }

  lemma EvenShare(n: nat, k: nat)
    requires k < n
    ensures Repeat(1.0 / n as real, n)[k] * n as real == 1.0
  {
    RepeatAt(1.0 / n as real, n);
    ShareOf(1.0, n as real);
  }

  lemma ScaledShare(m: Mesh, diagonal: seq<real>, i: nat, s: Slot, k: nat)
    requires i < |m.intervals| && PositiveInterval(m, diagonal, i) && s.node < m.intervals[i].size && s.dof < m.dofs && k < Copies(m, i)
    ensures PositiveAt(diagonal, Copies(m, i), m.dofs, s)
    ensures IsShare(Scaled(Diagonal(diagonal, Copies(m, i), m.dofs, s))[k], diagonal, Copies(m, i),
      Multiple(Copies(m, i), Multiple(m.dofs, s.node) + s.dof), k)
  {
    hide PositiveInterval, PositiveAt, Multiple, Sum, DiagonalSum, Scaled, Diagonal, IsShare;
    SlotIsPositive(m, diagonal, i, s);
    var v := Diagonal(diagonal, Copies(m, i), m.dofs, s);
    SliceShare(v, diagonal, Multiple(Copies(m, i), Multiple(m.dofs, s.node) + s.dof), k);
  }

  lemma SliceShare(v: seq<real>, diagonal: seq<real>, base: nat, k: nat)
    requires SumAll(v) > 0.0 && IsSlice(v, diagonal, base) && k < |v|
    ensures IsShare(Scaled(v)[k], diagonal, |v|, base, k)
  {
    hide Sum, DiagonalSum;
    SliceSum(v, diagonal, base, |v|);
    ShareOf(v[k], SumAll(v));
  }

  /** All domains of all processes. */
  method AssembleDomains(m: Mesh, scaling: bool, stored: seq<Stored>, dirichlet: seq<seq<int>>, gluing: seq<seq<int>>,
      dirichletSize: seq<int>, ghost global: seq<seq<real>>) returns (domains: seq<Domain>)
    requires Valid(m) && StoresMesh(m, global, scaling, stored) && DiagonalsFor(m, global, scaling)
    requires |dirichlet| == |gluing| == |dirichletSize| == Processes(m)
    requires forall p :: 0 <= p < Processes(m) ==> KnowsRows(m, p, dirichlet[p], gluing[p], dirichletSize[p])
    ensures |domains| == Domains(m) && forall d :: 0 <= d < |domains| ==> HoldsPart(m, global, scaling, domains[d], d)
  {
    hide Valid, DiagonalsFor, UpdatedLayout, B1, Weights;
    domains := [];
    for d := 0 to Domains(m)
      invariant |domains| == d && forall e :: 0 <= e < d ==> HoldsPart(m, global, scaling, domains[e], e)
    {
      ProcessOfDomain(m, d);
      var p := ProcessOf(m, d);
      assert KnowsRows(m, p, dirichlet[p], gluing[p], dirichletSize[p]) && StoresPart(m, global, scaling, p, stored[p]);
      var domain := AssembleOne(m, p, d, scaling, stored[p], dirichletSize[p], dirichlet[p], gluing[p], global);
      domains := domains + [domain];
    }
  }

  /** What process `p` knows after `update`. */
  ghost predicate KnowsRows(m: Mesh, p: nat, dirichlet: seq<int>, gluing: seq<int>, dirichletSize: int)
    requires Valid(m) && p < Processes(m)
  {
    && dirichletSize == UpdatedLayout(m).dirichlet
    && HoldsOffsets(m, UpdatedLayout(m).fixed, p, dirichlet) && HoldsOffsets(m, UpdatedLayout(m).glue, p, gluing)
  }

  method KnownMap(m: Mesh, p: nat, dirichlet: seq<int>, gluing: seq<int>, ghost size: int) returns (entries: seq<MapEntry>)
    requires Valid(m) && p < Processes(m) && KnowsRows(m, p, dirichlet, gluing, size)
    ensures entries == MapOf(m, UpdatedLayout(m), p)
  {
    entries := ClustersMapOf(m, p, dirichlet, gluing);
  }

  method AssembleMaps(m: Mesh, dirichlet: seq<seq<int>>, gluing: seq<seq<int>>, ghost sizes: seq<int>) returns (maps: seq<seq<MapEntry>>)
    requires Valid(m) && |dirichlet| == |gluing| == |sizes| == Processes(m)
    requires forall p :: 0 <= p < Processes(m) ==> KnowsRows(m, p, dirichlet[p], gluing[p], sizes[p])
    ensures |maps| == Processes(m) && forall p :: 0 <= p < |maps| ==> maps[p] == MapOf(m, UpdatedLayout(m), p)
  {
    hide Valid, MapOf, KnowsRows;
    assert SizedLayout(m, UpdatedLayout(m));
    hide UpdatedLayout;
    maps := [];
    for p := 0 to Processes(m)
      invariant |maps| == p && forall q :: 0 <= q < p ==> maps[q] == MapOf(m, UpdatedLayout(m), q)
    {
      var entries := KnownMap(m, p, dirichlet[p], gluing[p], sizes[p]);
      maps := maps + [entries];
    }
  }

  /**
   * The whole run: `update`, then every domain on its process, then the map of every process.
   * Nothing but the own lists, the own gathered diagonals and the two rounds of offsets is used.
   */
  method AssembleMesh(m: Mesh, scaling: bool, stored: seq<Stored>, ghost global: seq<seq<real>>)
    returns (domains: seq<Domain>, maps: seq<seq<MapEntry>>)
    requires Valid(m) && StoresMesh(m, global, scaling, stored) && DiagonalsFor(m, global, scaling)
    ensures forall d :: 0 <= d < |domains| ==> domains[d].Valid()
    ensures Assembled(m, global, scaling, PartsOf(domains))
    ensures forall d :: 0 <= d < |domains| && NumberedFor(m, d, stored[ProcessOf(m, d)].begins) ==>
      HoldsEntries(m, global, scaling, stored[ProcessOf(m, d)].begins, domains[d], d)
    ensures |maps| == Processes(m)
    ensures forall p :: 0 <= p < |maps| ==> maps[p] == MapOf(m, UpdatedLayout(m), p) && MapNamesWorkers(m, global, scaling, p, maps[p])
  {
    var dirichlet, gluing, dirichletSize, gluingSize := Update(m);
    maps := AssembleMaps(m, dirichlet, gluing, dirichletSize);
    MapsNameWorkers(m, global, scaling, maps);
    domains := AssembleDomains(m, scaling, stored, dirichlet, gluing, dirichletSize, global);
    hide Valid, DiagonalsFor, UpdatedLayout, B1, Weights, MapOf, StoresMesh, MapNamesWorkers, HoldsEntries, NumberedFor;
    forall d | 0 <= d < |domains|
      ensures domains[d].Valid() && PartsOf(domains)[d] == B1(m, UpdatedLayout(m), Weights(m, global, scaling), d)
      ensures NumberedFor(m, d, stored[ProcessOf(m, d)].begins) ==>
        HoldsEntries(m, global, scaling, stored[ProcessOf(m, d)].begins, domains[d], d)
    {
      assert HoldsPart(m, global, scaling, domains[d], d);
      if NumberedFor(m, d, stored[ProcessOf(m, d)].begins) {
        PartEntries(m, global, scaling, stored[ProcessOf(m, d)].begins, domains[d], d);
      }
    }
  }

  /** Every entry names the processes that work on its multiplier, and every multiplier of the process has one entry. */
  ghost predicate MapNamesWorkers(m: Mesh, global: seq<seq<real>>, scaling: bool, p: nat, entries: seq<MapEntry>)
    requires Valid(m) && DiagonalsFor(m, global, scaling)
  {
    var y, ws := UpdatedLayout(m), Weights(m, global, scaling);
    && (forall e :: 0 <= e < |entries| ==> NamesWorkers(m, y, ws, p, entries[e]))
    && (forall e, f :: 0 <= e < f < |entries| ==> entries[e].row != entries[f].row)
    && (forall row :: 0 < row <= y.dirichlet + y.gluing && WorksOn(m, y, ws, p, row) ==>
      exists e :: 0 <= e < |entries| && entries[e].row == row - 1)
  }

  lemma MapsNameWorkers(m: Mesh, global: seq<seq<real>>, scaling: bool, maps: seq<seq<MapEntry>>)
    requires Valid(m) && DiagonalsFor(m, global, scaling) && |maps| == Processes(m)
    requires forall p :: 0 <= p < |maps| ==> maps[p] == MapOf(m, UpdatedLayout(m), p)
    ensures forall p :: 0 <= p < |maps| ==> MapNamesWorkers(m, global, scaling, p, maps[p])
  {
    UpdatedLayoutIsValid(m);
    var y, ws := UpdatedLayout(m), Weights(m, global, scaling);
    hide Valid, DiagonalsFor, UpdatedLayout, Weights, MapOf, NamesWorkers, WorksOn, ValidLayout;
    forall p | 0 <= p < |maps|
      ensures MapNamesWorkers(m, global, scaling, p, maps[p])
    {
      forall e | 0 <= e < |maps[p]|
        ensures NamesWorkers(m, y, ws, p, maps[p][e])
      {
        EntryNamesWorkers(m, y, ws, p, e);
      }
      ListsItsMultipliers(m, y, ws, p);
    }
  }

  /** One domain: its intervals, then the walks. */
  method AssembleOne(m: Mesh, p: nat, d: nat, scaling: bool, s: Stored, dirichletSize: int, dirichlet: seq<int>, gluing: seq<int>,
      ghost global: seq<seq<real>>) returns (domain: Domain)
    requires Valid(m) && DiagonalsFor(m, global, scaling) && d < Domains(m) && p == ProcessOf(m, d) && p < Processes(m)
    requires StoresPart(m, global, scaling, p, s) && dirichletSize == UpdatedLayout(m).dirichlet
    requires HoldsOffsets(m, UpdatedLayout(m).fixed, p, dirichlet) && HoldsOffsets(m, UpdatedLayout(m).glue, p, gluing)
    ensures fresh(domain) && domain.Valid() && domain.terms == B1(m, UpdatedLayout(m), Weights(m, global, scaling), d)
  {
    WeightsSpec(m, global, false);
    WeightsSpec(m, global, scaling);
    var gintervals := BuildIntervals(m, p, d, s.begins, gluing, UpdatedLayout(m).glue);
    domain := AssembleDomain(m, d, scaling, dirichletSize, gintervals, dirichlet, s.fixed, s.listed, s.diagonals, p, s.begins,
      Weights(m, global, false), global, Weights(m, global, scaling));
  }
}
