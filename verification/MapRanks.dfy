/** What a map entry says: the processes it names are those that work on its multiplier, the own one first. */
module MapRanks {
  import opened Basis
  import opened Decomposition
  import opened Gluing
  import opened ClustersMap
  import opened ProcessMap

  /** The entry is noted by process `p` and names exactly the processes with a nonzero in the row, each once. */
  ghost predicate NamesWorkers(m: Mesh, y: Layout, ws: seq<seq<seq<real>>>, p: nat, t: MapEntry)
    requires Valid(m) && SizedLayout(m, y) && ValidWeights(m, ws)
  {
    && 0 <= t.row < y.dirichlet + y.gluing && t.ranks != [] && t.ranks[0] == p && Distinct(t.ranks)
    && (forall q :: q in t.ranks ==> 0 <= q < Processes(m))
    && forall q: nat :: q < Processes(m) ==> (q in t.ranks <==> WorksOn(m, y, ws, q, t.row + 1))
  }

  lemma {:induction false} LookupEntry(es: seq<MapEntry>, e: nat)
    requires e < |es|
    ensures Lookup(es, es[e].row) == Single(es[e].ranks) || Lookup(es, es[e].row) == Several
  {
    if e < |es| - 1 {
      LookupEntry(es[..|es| - 1], e);
    }
  }

  lemma {:induction false} LookupTwice(es: seq<MapEntry>, e: nat, f: nat)
    requires e < f < |es| && es[e].row == es[f].row
    ensures Lookup(es, es[e].row) == Several
  {
    if f < |es| - 1 {
      LookupTwice(es[..|es| - 1], e, f);
    } else {
      LookupEntry(es[..|es| - 1], e);
    }
  }

  lemma {:induction false} LookupFound(es: seq<MapEntry>, row: int) returns (e: nat)
    requires Lookup(es, row) != Missing
    ensures e < |es| && es[e].row == row
  {
    if es[|es| - 1].row == row {
      e := |es| - 1;
    } else {
      e := LookupFound(es[..|es| - 1], row);
    }
  }

  /** The ranks found for a row of the matrix. */
  lemma RanksAreWorkers(m: Mesh, y: Layout, ws: seq<seq<seq<real>>>, p: nat, row: int, ranks: seq<int>)
    requires Valid(m) && ValidLayout(m, y) && ValidWeights(m, ws) && p < Processes(m)
    requires 0 < row <= y.dirichlet + y.gluing && Lookup(MapOf(m, y, p), row - 1) == Single(ranks)
    ensures NamesWorkers(m, y, ws, p, MapEntry(row - 1, ranks))
  {
    hide Lookup, MapOf, WorksOn, Valid, ProcessOf;
    if row <= y.dirichlet {
      var i, dof, a, j := FixedRowOf(m, y, row);
      CopyOwner(m, i, a);
      FixedRowInMap(m, y, p, i, dof, a, j);
      forall q: nat | q < Processes(m)
        ensures q in ranks <==> WorksOn(m, y, ws, q, row)
      {
        FixedRowInMap(m, y, q, i, dof, a, j);
        MapMatchesMatrix(m, y, ws, q, row);
      }
    } else {
      var i, c, a, b := GlueRowOf(m, y, row);
      CopyOwner(m, i, a);
      CopyOwner(m, i, b);
      GlueRowInMap(m, y, p, i, c, a, b);
      forall q: nat | q < Processes(m)
        ensures q in ranks <==> WorksOn(m, y, ws, q, row)
      {
        GlueRowInMap(m, y, q, i, c, a, b);
        MapMatchesMatrix(m, y, ws, q, row);
      }
    }
  }

  lemma CopyOwner(m: Mesh, i: nat, a: nat)
    requires Valid(m) && i < |m.intervals| && a < Copies(m, i)
    ensures 0 <= ProcessOf(m, m.intervals[i].domains[a]) < Processes(m)
  {
    assert ValidInterval(m, i) && m.intervals[i].domains[a] in m.intervals[i].domains;
    ProcessOfDomain(m, m.intervals[i].domains[a]);
  }

  /** Every entry of the map of a process names the processes that work on its multiplier. */
  lemma EntryNamesWorkers(m: Mesh, y: Layout, ws: seq<seq<seq<real>>>, p: nat, e: nat)
    requires Valid(m) && ValidLayout(m, y) && ValidWeights(m, ws) && p < Processes(m) && e < |MapOf(m, y, p)|
    ensures NamesWorkers(m, y, ws, p, MapOf(m, y, p)[e])
  {
    hide Lookup, MapOf, WorksOn, Valid, NamesWorkers;
    var t := MapOf(m, y, p)[e];
    LookupEntry(MapOf(m, y, p), e);
    MapMatchesMatrix(m, y, ws, p, t.row + 1);
    RanksAreWorkers(m, y, ws, p, t.row + 1, t.ranks);
  }

  /** No multiplier is listed twice, and each a domain of the process works on is listed. */
  lemma ListsItsMultipliers(m: Mesh, y: Layout, ws: seq<seq<seq<real>>>, p: nat)
    requires Valid(m) && ValidLayout(m, y) && ValidWeights(m, ws) && p < Processes(m)
    ensures forall e, f :: 0 <= e < f < |MapOf(m, y, p)| ==> MapOf(m, y, p)[e].row != MapOf(m, y, p)[f].row
    ensures forall row :: 0 < row <= y.dirichlet + y.gluing && WorksOn(m, y, ws, p, row) ==>
      exists e :: 0 <= e < |MapOf(m, y, p)| && MapOf(m, y, p)[e].row == row - 1
  {
    hide Lookup, MapOf, WorksOn, Valid;
    var es := MapOf(m, y, p);
    forall e, f | 0 <= e < f < |es|
      ensures es[e].row != es[f].row
    {
      MapMatchesMatrix(m, y, ws, p, es[e].row + 1);
      if es[e].row == es[f].row {
        LookupTwice(es, e, f);
      }
    }
    forall row | 0 < row <= y.dirichlet + y.gluing && WorksOn(m, y, ws, p, row)
      ensures exists e :: 0 <= e < |es| && es[e].row == row - 1
    {
      MapMatchesMatrix(m, y, ws, p, row);
      var e := LookupFound(es, row - 1);
    }
  }
}
