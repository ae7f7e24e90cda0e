/** The whole `B1clustersMap` of one process against the global matrix. */
module ProcessMap {
  import opened Basis
  import opened Pairs
  import opened Glue
  import opened Decomposition
  import opened SlotNumbering
  import opened Offsets
  import opened Gluing
  import opened ClustersMap
  import opened ConstraintUpdate

  /** `iranks`: the owners of the copies. */
  function RanksOf(m: Mesh, i: nat): (r: seq<int>)
    requires i < |m.intervals|
    ensures |r| == Copies(m, i)
  {
    seq(Copies(m, i), a requires 0 <= a < Copies(m, i) => ProcessOf(m, m.intervals[i].domains[a]))
  }

  ghost function GlueMapOf(m: Mesh, y: Layout, p: nat, i: nat): seq<MapEntry>
    requires SizedLayout(m, y) && i < |m.intervals|
  {
    IntervalMap(PairsBelow(RanksOf(m, i), p, Copies(m, i)), Triangle(Copies(m, i)), y.glue[i] as int, |Slots(m, i)|)
  }

  ghost function FixedMapOf(m: Mesh, y: Layout, p: nat, i: nat): seq<MapEntry>
    requires SizedLayout(m, y) && i < |m.intervals|
  {
    ConditionMap(RanksOf(m, i), p, y.fixed[i], m.intervals[i].listed, |m.intervals[i].listed|)
  }

  ghost function GlueMaps(m: Mesh, y: Layout, p: nat): (r: seq<seq<MapEntry>>)
    requires SizedLayout(m, y) && p < Processes(m)
    ensures |r| == |m.order[p]|
  {
    seq(|m.order[p]|, k requires 0 <= k < |m.order[p]| =>
      if m.order[p][k] < |m.intervals| then GlueMapOf(m, y, p, m.order[p][k]) else [])
  }

  ghost function FixedMaps(m: Mesh, y: Layout, p: nat): (r: seq<seq<MapEntry>>)
    requires SizedLayout(m, y) && p < Processes(m)
    ensures |r| == |m.order[p]|
  {
    seq(|m.order[p]|, k requires 0 <= k < |m.order[p]| =>
      if m.order[p][k] < |m.intervals| then FixedMapOf(m, y, p, m.order[p][k]) else [])
  }

  /** What process `p` ends up with: the Dirichlet entries, then the glue entries. */
  ghost function MapOf(m: Mesh, y: Layout, p: nat): seq<MapEntry>
    requires SizedLayout(m, y) && p < Processes(m)
  {
    Flatten(FixedMaps(m, y, p)) + Flatten(GlueMaps(m, y, p))
  }

  lemma GlueMapWithin(m: Mesh, y: Layout, p: nat, i: nat)
    requires SizedLayout(m, y) && i < |m.intervals|
    ensures EntriesWithin(GlueMapOf(m, y, p, i), y.glue[i], y.glue[i] + GlueSize(m, i))
  {
    PairsBelowWithin(RanksOf(m, i), p, Copies(m, i));
    IntervalMapWithin(PairsBelow(RanksOf(m, i), p, Copies(m, i)), Triangle(Copies(m, i)), y.glue[i], |Slots(m, i)|);
  }

  lemma FixedMapWithin(m: Mesh, y: Layout, p: nat, i: nat)
    requires SizedLayout(m, y) && i < |m.intervals|
    ensures EntriesWithin(FixedMapOf(m, y, p, i), y.fixed[i], y.fixed[i] + FixedSize(m, i))
  {
    ConditionWithin(RanksOf(m, i), p, y.fixed[i], m.intervals[i].listed, |m.intervals[i].listed|);
  }

  /** A glue row occurs in the entries of its own interval only. */
  lemma {:induction false} GlueMapsLookup(m: Mesh, y: Layout, p: nat, i: nat, row: int, l: int)
    requires Valid(m) && ValidLayout(m, y) && p < Processes(m) && i < |m.intervals|
    requires y.glue[i] <= row < y.glue[i] + GlueSize(m, i)
    requires if i in m.order[p] then 0 <= l < |m.order[p]| && m.order[p][l] == i else l == -1
    ensures Lookup(Flatten(GlueMaps(m, y, p)), row) == if i in m.order[p] then Lookup(GlueMapOf(m, y, p, i), row) else Missing
  {
    var pieces := GlueMaps(m, y, p);
    forall k | 0 <= k < |pieces| && k != l
      ensures Lookup(pieces[k], row) == Missing
    {
      ListedIsSeen(m, p, k);
      var j := m.order[p][k];
      assert ListsItsIntervals(m, p);
      GlueMapWithin(m, y, p, j);
      ApartAt(y.glue, GlueSizes(m), i, j);
      LookupOutside(pieces[k], y.glue[j], y.glue[j] + GlueSize(m, j), row);
    }
    FlattenLookup(pieces, l, row);
  }

  lemma {:induction false} FixedMapsLookup(m: Mesh, y: Layout, p: nat, i: nat, row: int, l: int)
    requires Valid(m) && ValidLayout(m, y) && p < Processes(m) && i < |m.intervals|
    requires y.fixed[i] <= row < y.fixed[i] + FixedSize(m, i)
    requires if i in m.order[p] then 0 <= l < |m.order[p]| && m.order[p][l] == i else l == -1
    ensures Lookup(Flatten(FixedMaps(m, y, p)), row) == if i in m.order[p] then Lookup(FixedMapOf(m, y, p, i), row) else Missing
  {
    var pieces := FixedMaps(m, y, p);
    forall k | 0 <= k < |pieces| && k != l
      ensures Lookup(pieces[k], row) == Missing
    {
      ListedIsSeen(m, p, k);
      var j := m.order[p][k];
      assert ListsItsIntervals(m, p);
      FixedMapWithin(m, y, p, j);
      ApartAt(y.fixed, FixedSizes(m), i, j);
      LookupOutside(pieces[k], y.fixed[j], y.fixed[j] + FixedSize(m, j), row);
    }
    FlattenLookup(pieces, l, row);
  }

  lemma {:induction false} FlattenWithin(pieces: seq<seq<MapEntry>>, lo: int, hi: int)
    requires forall k :: 0 <= k < |pieces| ==> EntriesWithin(pieces[k], lo, hi)
    ensures EntriesWithin(Flatten(pieces), lo, hi)
  {
    if pieces != [] {
      FlattenWithin(pieces[..|pieces| - 1], lo, hi);
    }
  }

  lemma MapsWithin(m: Mesh, y: Layout, p: nat)
    requires Valid(m) && ValidLayout(m, y) && p < Processes(m)
    ensures EntriesWithin(Flatten(FixedMaps(m, y, p)), 0, y.dirichlet)
    ensures EntriesWithin(Flatten(GlueMaps(m, y, p)), y.dirichlet, y.dirichlet + y.gluing)
  {
    forall k | 0 <= k < |m.order[p]|
      ensures EntriesWithin(FixedMaps(m, y, p)[k], 0, y.dirichlet)
      ensures EntriesWithin(GlueMaps(m, y, p)[k], y.dirichlet, y.dirichlet + y.gluing)
    {
      ListedIsSeen(m, p, k);
      var j := m.order[p][k];
      GlueMapWithin(m, y, p, j);
      FixedMapWithin(m, y, p, j);
      assert WithinRows(y.glue, GlueSizes(m), j, y.dirichlet, y.dirichlet + y.gluing);
      assert WithinRows(y.fixed, FixedSizes(m), j, 0, y.dirichlet);
    }
    FlattenWithin(FixedMaps(m, y, p), 0, y.dirichlet);
    FlattenWithin(GlueMaps(m, y, p), y.dirichlet, y.dirichlet + y.gluing);
  }

  /** A process without the interval has none of its copies. */
  lemma UnlistedHasNoCopy(m: Mesh, p: nat, i: nat, a: nat)
    requires Valid(m) && p < Processes(m) && i < |m.intervals| && i !in m.order[p] && a < Copies(m, i)
    ensures ProcessOf(m, m.intervals[i].domains[a]) != p
  {
    assert ListsItsIntervals(m, p);
    assert ValidInterval(m, i);
    assert m.intervals[i].domains[a] in m.intervals[i].domains;
    ProcessOfDomain(m, m.intervals[i].domains[a]);
  }

  ghost function PositionIn(s: seq<nat>, x: nat): (l: int)
    ensures if x in s then 0 <= l < |s| && s[l] == x else l == -1
  {
    if x in s then IndexOf(s, x) else -1
  }

  /** The own interval's entries have the pair's row as the domains computed it. */
  lemma GlueRowOfInterval(m: Mesh, y: Layout, p: nat, i: nat, c: nat, a: nat, b: nat, row: int)
    requires SizedLayout(m, y) && i < |m.intervals| && c < |Slots(m, i)| && a < b < Copies(m, i)
    requires row == y.glue[i] + Multiple(Triangle(Copies(m, i)), c) + PairIndex(Copies(m, i), a, b)
    ensures Lookup(GlueMapOf(m, y, p, i), row) ==
      RanksOfPair(ProcessOf(m, m.intervals[i].domains[a]), ProcessOf(m, m.intervals[i].domains[b]), p)
  {
    var ranks, n := RanksOf(m, i), Copies(m, i);
    PairIndexInRange(n, a, b);
    PairsBelowWithin(ranks, p, n);
    IntervalLookup(PairsBelow(ranks, p, n), Triangle(n), y.glue[i], |Slots(m, i)|, c, PairIndex(n, a, b), row);
    PairsBelowLookup(ranks, p, n, a, b);
  }

  lemma InGlueMaps(m: Mesh, y: Layout, p: nat, row: int)
    requires Valid(m) && ValidLayout(m, y) && p < Processes(m) && y.dirichlet <= row
    ensures Lookup(MapOf(m, y, p), row) == Lookup(Flatten(GlueMaps(m, y, p)), row)
  {
    MapsWithin(m, y, p);
    hide Lookup, Valid, ValidLayout, Flatten, GlueMaps, FixedMaps;
    LookupOutside(Flatten(FixedMaps(m, y, p)), 0, y.dirichlet, row);
    LookupAppend(Flatten(FixedMaps(m, y, p)), Flatten(GlueMaps(m, y, p)), row);
  }

  lemma InFixedMaps(m: Mesh, y: Layout, p: nat, row: int)
    requires Valid(m) && ValidLayout(m, y) && p < Processes(m) && row < y.dirichlet
    ensures Lookup(MapOf(m, y, p), row) == Lookup(Flatten(FixedMaps(m, y, p)), row)
  {
    MapsWithin(m, y, p);
    hide Lookup, Valid, ValidLayout, Flatten, GlueMaps, FixedMaps;
    LookupOutside(Flatten(GlueMaps(m, y, p)), y.dirichlet, y.dirichlet + y.gluing, row);
    LookupAppend(Flatten(FixedMaps(m, y, p)), Flatten(GlueMaps(m, y, p)), row);
  }

  /** Listed or not: the entries of the interval on process `p`. */
  lemma GlueRowWhereListed(m: Mesh, y: Layout, p: nat, i: nat, c: nat, a: nat, b: nat, row: int)
    requires Valid(m) && p < Processes(m)
    requires SizedLayout(m, y) && i < |m.intervals| && c < |Slots(m, i)| && a < b < Copies(m, i)
    requires row == y.glue[i] + Multiple(Triangle(Copies(m, i)), c) + PairIndex(Copies(m, i), a, b)
    ensures (if i in m.order[p] then Lookup(GlueMapOf(m, y, p, i), row) else Missing) ==
      RanksOfPair(ProcessOf(m, m.intervals[i].domains[a]), ProcessOf(m, m.intervals[i].domains[b]), p)
  {
    GlueRowOfInterval(m, y, p, i, c, a, b, row);
    if i !in m.order[p] {
      UnlistedHasNoCopy(m, p, i, a);
      UnlistedHasNoCopy(m, p, i, b);
    }
  }

  /**
   * The multiplier of a pair of copies is in the map of process `p` exactly when `p` owns one of
   * the two, in one entry, with exactly the rank of the other one.
   */
  lemma GlueRowInMap(m: Mesh, y: Layout, p: nat, i: nat, c: nat, a: nat, b: nat)
    requires Valid(m) && ValidLayout(m, y) && p < Processes(m)
    requires i < |m.intervals| && c < |Slots(m, i)| && a < b < Copies(m, i)
    ensures Lookup(MapOf(m, y, p), GlueRow(m, y, i, c, a, b) - 1) ==
      RanksOfPair(ProcessOf(m, m.intervals[i].domains[a]), ProcessOf(m, m.intervals[i].domains[b]), p)
  {
    hide Lookup, Valid, Flatten, GlueMaps, MapOf, GlueMapOf, ProcessOf, Multiple, Triangle, PairIndex, GlueSize, PositionIn;
    var row := GlueRow(m, y, i, c, a, b) - 1;
    GlueRowInRange(m, y, i, c, a, b);
    GlueRowWhereListed(m, y, p, i, c, a, b, row);
    InGlueMaps(m, y, p, row);
    GlueMapsLookup(m, y, p, i, row, PositionIn(m.order[p], i));
  }

  lemma FixedRowOfInterval(m: Mesh, y: Layout, p: nat, i: nat, dof: nat, a: nat, j: nat, row: int)
    requires SizedLayout(m, y) && i < |m.intervals| && dof < |m.intervals[i].listed| && a < Copies(m, i)
    requires j < |m.intervals[i].listed[dof]|
    requires row == y.fixed[i] + FixedBefore(Copies(m, i), m.intervals[i].listed, dof) + Multiple(|m.intervals[i].listed[dof]|, a) + j
    ensures Lookup(FixedMapOf(m, y, p, i), row) == if ProcessOf(m, m.intervals[i].domains[a]) == p then Single([p]) else Missing
  {
    ConditionLookup(RanksOf(m, i), p, y.fixed[i], m.intervals[i].listed, |m.intervals[i].listed|, dof, a, j, row);
  }

  lemma FixedRowWhereListed(m: Mesh, y: Layout, p: nat, i: nat, dof: nat, a: nat, j: nat, row: int)
    requires Valid(m) && p < Processes(m)
    requires SizedLayout(m, y) && i < |m.intervals| && dof < |m.intervals[i].listed| && a < Copies(m, i)
    requires j < |m.intervals[i].listed[dof]|
    requires row == y.fixed[i] + FixedBefore(Copies(m, i), m.intervals[i].listed, dof) + Multiple(|m.intervals[i].listed[dof]|, a) + j
    ensures (if i in m.order[p] then Lookup(FixedMapOf(m, y, p, i), row) else Missing) ==
      if ProcessOf(m, m.intervals[i].domains[a]) == p then Single([p]) else Missing
  {
    FixedRowOfInterval(m, y, p, i, dof, a, j, row);
    if i !in m.order[p] {
      UnlistedHasNoCopy(m, p, i, a);
    }
  }

  /** The multiplier of a condition is in the map of the process owning the copy only. */
  lemma FixedRowInMap(m: Mesh, y: Layout, p: nat, i: nat, dof: nat, a: nat, j: nat)
    requires Valid(m) && ValidLayout(m, y) && p < Processes(m) && i < |m.intervals|
    requires dof < |m.intervals[i].listed| && a < Copies(m, i) && j < |m.intervals[i].listed[dof]|
    ensures Lookup(MapOf(m, y, p), FixedRow(m, y, i, dof, a, j) - 1) ==
      if ProcessOf(m, m.intervals[i].domains[a]) == p then Single([p]) else Missing
  {
    hide Lookup, Valid, Flatten, FixedMaps, MapOf, FixedMapOf, ProcessOf, Multiple, FixedBefore, FixedSize, PositionIn;
    var row := FixedRow(m, y, i, dof, a, j) - 1;
    FixedRowInRange(m, y, i, dof, a, j);
    FixedRowWhereListed(m, y, p, i, dof, a, j, row);
    InFixedMaps(m, y, p, row);
    FixedMapsLookup(m, y, p, i, row, PositionIn(m.order[p], i));
  }

  /** One `nmap` for each glued node of a degree of freedom, its rows moved on by `noffset`. */
  method NodeEntries(nmap: seq<MapEntry>, noffset: nat, start: int, isize: nat, ghost first: int, ghost done: nat, before: seq<MapEntry>,
      ghost head: seq<MapEntry>) returns (entries: seq<MapEntry>, LMoffset: int)
    requires start == first + Multiple(noffset, done) && before == head + IntervalMap(nmap, noffset, first, done)
    ensures LMoffset == first + Multiple(noffset, done + isize)
    ensures entries == head + IntervalMap(nmap, noffset, first, done + isize)
  {
    hide Shift;
    entries, LMoffset := before, start;
    for n := 0 to isize
      invariant LMoffset == first + Multiple(noffset, done + n)
      invariant entries == head + IntervalMap(nmap, noffset, first, done + n)
    {
      entries := entries + Shift(nmap, LMoffset);
      LMoffset := LMoffset + noffset;
    }
  }

  /** The entries of an interval, degree of freedom by degree of freedom. */
  method IntervalEntries(m: Mesh, i: nat, nmap: seq<MapEntry>, noffset: nat, start: int, before: seq<MapEntry>)
    returns (entries: seq<MapEntry>)
    requires Valid(m) && i < |m.intervals|
    ensures entries == before + IntervalMap(nmap, noffset, start, |Slots(m, i)|)
  {
    assert ValidInterval(m, i);
    entries := before;
    var LMoffset := start;
    assert before + IntervalMap(nmap, noffset, start, 0) == before;
    hide IntervalMap, Multiple, Valid;
    for dof := 0 to m.dofs
      invariant LMoffset == start + Multiple(noffset, |FreeSlots(m.intervals[i], dof)|)
      invariant entries == before + IntervalMap(nmap, noffset, start, |FreeSlots(m.intervals[i], dof)|)
    {
      FreeOfDof(m, i, dof);
      var isize := m.intervals[i].size - |m.intervals[i].fixed[dof]|;
      entries, LMoffset := NodeEntries(nmap, noffset, LMoffset, isize, start, |FreeSlots(m.intervals[i], dof)|, entries, before);
    }
  }

  lemma FreeOfDof(m: Mesh, i: nat, dof: nat)
    requires Valid(m) && i < |m.intervals| && dof < m.dofs
    ensures |m.intervals[i].fixed| == m.dofs && |m.intervals[i].fixed[dof]| <= m.intervals[i].size
    ensures |FreeSlots(m.intervals[i], dof + 1)| == |FreeSlots(m.intervals[i], dof)| + (m.intervals[i].size - |m.intervals[i].fixed[dof]|)
  {
    assert ValidInterval(m, i);
    SlotCount(m, i, dof);
    SlotCount(m, i, dof + 1);
    assert (dof + 1) * m.intervals[i].size == dof * m.intervals[i].size + m.intervals[i].size;
    assert |FreeSlots(m.intervals[i], dof)| <= |FreeSlots(m.intervals[i], dof + 1)|;
  }

  /** The entries of one listed interval, all pairs of copies of one node first. */
  method AppendGlueMap(m: Mesh, p: nat, k: nat, offsets: seq<int>, ghost y: Layout, before: seq<MapEntry>) returns (entries: seq<MapEntry>)
    requires Valid(m) && p < Processes(m) && SizedLayout(m, y) && HoldsOffsets(m, y.glue, p, offsets) && k < |m.order[p]|
    ensures entries == before + GlueMaps(m, y, p)[k]
  {
    ListedIsSeen(m, p, k);
    var i := m.order[p][k];
    var ranks := RanksOf(m, i);
    var nmap := NodeMap(ranks, p);
    TriangleClosedForm(|ranks|);
    entries := IntervalEntries(m, i, nmap, |ranks| * (|ranks| - 1) / 2, offsets[k], before);
  }

  /** The glue part of `B1clustersMap`, behind what is there already. */
  method GlueEntries(m: Mesh, p: nat, offsets: seq<int>, ghost y: Layout, before: seq<MapEntry>) returns (entries: seq<MapEntry>)
    requires Valid(m) && p < Processes(m) && SizedLayout(m, y) && HoldsOffsets(m, y.glue, p, offsets)
    ensures entries == before + Flatten(GlueMaps(m, y, p))
  {
    entries := before;
    ghost var pieces := GlueMaps(m, y, p);
    assert before + Flatten(pieces[..0]) == before;
    hide Valid, SizedLayout, HoldsOffsets, Flatten, GlueMaps;
    for k := 0 to |m.order[p]|
      invariant entries == before + Flatten(pieces[..k])
    {
      entries := AppendGlueMap(m, p, k, offsets, y, entries);
      PieceAdded(before, pieces, k);
    }
    assert pieces[..|pieces|] == pieces;
  }

  lemma PieceAdded(before: seq<MapEntry>, pieces: seq<seq<MapEntry>>, k: nat)
    requires k < |pieces|
    ensures Flatten(pieces[..k + 1]) == Flatten(pieces[..k]) + pieces[k]
    ensures before + Flatten(pieces[..k + 1]) == (before + Flatten(pieces[..k])) + pieces[k]
  {
    assert pieces[..k + 1][..k] == pieces[..k];
  }

  /** The Dirichlet entries of one interval: the copies of the process, degree of freedom by degree of freedom. */
  method ConditionEntries(m: Mesh, p: nat, i: nat, offset: int, before: seq<MapEntry>) returns (entries: seq<MapEntry>)
    requires Valid(m) && i < |m.intervals|
    ensures entries == before + ConditionMap(RanksOf(m, i), p, offset, m.intervals[i].listed, |m.intervals[i].listed|)
  {
    assert ValidInterval(m, i);
    var ranks := RanksOf(m, i);
    ghost var listed := m.intervals[i].listed;
    entries := before;
    var LMoffset := offset;
    assert before + ConditionMap(ranks, p, offset, listed, 0) == before;
    for dof := 0 to m.dofs
      invariant LMoffset == offset + RowsBefore(|ranks|, listed, dof)
      invariant entries == before + ConditionMap(ranks, p, offset, listed, dof)
    {
      assert ValidFixed(m.intervals[i].fixed[dof], listed[dof], m.intervals[i].size);
      entries, LMoffset := CopiesOfDof(ranks, p, LMoffset, |m.intervals[i].fixed[dof]|, entries);
    }
  }

  method CopiesOfDof(ranks: seq<int>, p: nat, start: int, count: nat, before: seq<MapEntry>)
    returns (entries: seq<MapEntry>, LMoffset: int)
    ensures entries == before + CopyEntries(ranks, p, start, count, |ranks|)
    ensures LMoffset == start + Multiple(count, |ranks|)
  {
    entries, LMoffset := before, start;
    assert before + CopyEntries(ranks, p, start, count, 0) == before;
    for r := 0 to |ranks|
      invariant entries == before + CopyEntries(ranks, p, start, count, r)
      invariant LMoffset == start + Multiple(count, r)
    {
      if ranks[r] == p {
        for n := 0 to count
          invariant entries == (before + CopyEntries(ranks, p, start, count, r)) + RunEntries(LMoffset, n, p)
        {
          entries := entries + [MapEntry(LMoffset + n, [p])];
        }
      }
      LMoffset := LMoffset + count;
    }
  }

  /** The Dirichlet part of `B1clustersMap`. */
  method FixedEntries(m: Mesh, p: nat, offsets: seq<int>, ghost y: Layout) returns (entries: seq<MapEntry>)
    requires Valid(m) && p < Processes(m) && SizedLayout(m, y) && HoldsOffsets(m, y.fixed, p, offsets)
    ensures entries == Flatten(FixedMaps(m, y, p))
  {
    entries := [];
    ghost var pieces := FixedMaps(m, y, p);
    assert pieces[..0] == [];
    hide Valid, ProcessOf, ConditionMap, Flatten;
    FlattenNothing<MapEntry>();
    for k := 0 to |m.order[p]|
      invariant entries == Flatten(pieces[..k])
    {
      ListedIsSeen(m, p, k);
      PieceAdded([], pieces, k);
      entries := ConditionEntries(m, p, m.order[p][k], offsets[k], entries);
    }
    assert pieces[..|pieces|] == pieces;
  }

  /** `B1clustersMap` of process `p`, from its own lists and offsets. */
  method ClustersMapOf(m: Mesh, p: nat, dirichlet: seq<int>, gluing: seq<int>) returns (entries: seq<MapEntry>)
    requires Valid(m) && p < Processes(m)
    requires HoldsOffsets(m, UpdatedLayout(m).fixed, p, dirichlet) && HoldsOffsets(m, UpdatedLayout(m).glue, p, gluing)
    ensures entries == MapOf(m, UpdatedLayout(m), p)
  {
    entries := FixedEntries(m, p, dirichlet, UpdatedLayout(m));
    entries := GlueEntries(m, p, gluing, UpdatedLayout(m), entries);
  }

  /** Some domain of process `p` has a nonzero in the row. */
  ghost predicate WorksOn(m: Mesh, y: Layout, ws: seq<seq<seq<real>>>, p: nat, row: int)
    requires Valid(m) && SizedLayout(m, y) && ValidWeights(m, ws)
  {
    exists d: nat :: d < Domains(m) && ProcessOf(m, d) == p && InRow(B1(m, y, ws, d), row) != Nothing
  }

  /**
   * The map of a process and its part of the matrix agree: a multiplier is listed, once, exactly
   * when one of the domains of the process has a nonzero in its row, and nothing else is listed.
   */
  lemma MapMatchesMatrix(m: Mesh, y: Layout, ws: seq<seq<seq<real>>>, p: nat, row: int)
    requires Valid(m) && ValidLayout(m, y) && ValidWeights(m, ws) && p < Processes(m)
    ensures Lookup(MapOf(m, y, p), row - 1) != Several
    ensures Lookup(MapOf(m, y, p), row - 1) != Missing <==> 0 < row <= y.dirichlet + y.gluing && WorksOn(m, y, ws, p, row)
  {
    hide Lookup, MapOf, WorksOn, Valid, B1, InRow;
    if 0 < row <= y.dirichlet {
      MatchFixed(m, y, ws, p, row);
    } else if y.dirichlet < row <= y.dirichlet + y.gluing {
      MatchGlue(m, y, ws, p, row);
    } else {
      NotInMap(m, y, p, row - 1);
    }
  }

  lemma NotInMap(m: Mesh, y: Layout, p: nat, row: int)
    requires Valid(m) && ValidLayout(m, y) && p < Processes(m) && !(0 <= row < y.dirichlet + y.gluing)
    ensures Lookup(MapOf(m, y, p), row) == Missing
  {
    MapsWithin(m, y, p);
    hide Lookup, Valid, ValidLayout, Flatten, GlueMaps, FixedMaps;
    LookupOutside(Flatten(FixedMaps(m, y, p)), 0, y.dirichlet, row);
    LookupOutside(Flatten(GlueMaps(m, y, p)), y.dirichlet, y.dirichlet + y.gluing, row);
    LookupAppend(Flatten(FixedMaps(m, y, p)), Flatten(GlueMaps(m, y, p)), row);
  }

  lemma MatchGlue(m: Mesh, y: Layout, ws: seq<seq<seq<real>>>, p: nat, row: int)
    requires Valid(m) && ValidLayout(m, y) && ValidWeights(m, ws) && p < Processes(m) && y.dirichlet < row <= y.dirichlet + y.gluing
    ensures Lookup(MapOf(m, y, p), row - 1) != Several
    ensures Lookup(MapOf(m, y, p), row - 1) != Missing <==> WorksOn(m, y, ws, p, row)
  {
    hide Lookup, MapOf, WorksOn, Valid, B1, InRow, ProcessOf;
    var i, c, a, b := GlueRowOf(m, y, row);
    GlueRowInMap(m, y, p, i, c, a, b);
    GlueWorkers(m, y, ws, p, i, c, a, b, row);
  }

  lemma GlueWorkers(m: Mesh, y: Layout, ws: seq<seq<seq<real>>>, p: nat, i: nat, c: nat, a: nat, b: nat, row: int)
    requires Valid(m) && ValidLayout(m, y) && ValidWeights(m, ws) && i < |m.intervals| && c < |Slots(m, i)| && a < b < Copies(m, i)
    requires row == GlueRow(m, y, i, c, a, b)
    ensures WorksOn(m, y, ws, p, row) <==> ProcessOf(m, m.intervals[i].domains[a]) == p || ProcessOf(m, m.intervals[i].domains[b]) == p
  {
    var x, z := m.intervals[i].domains[a], m.intervals[i].domains[b];
    CopyIsDomain(m, i, a);
    CopyIsDomain(m, i, b);
    GlueRowEntries(m, y, ws, i, c, a, b, x);
    GlueRowEntries(m, y, ws, i, c, a, b, z);
    forall d: nat | d < Domains(m) && d != x && d != z
      ensures InRow(B1(m, y, ws, d), row) == Nothing
    {
      GlueRowEntries(m, y, ws, i, c, a, b, d);
    }
  }

  lemma CopyIsDomain(m: Mesh, i: nat, a: nat)
    requires Valid(m) && i < |m.intervals| && a < Copies(m, i)
    ensures m.intervals[i].domains[a] < Domains(m)
  {
    assert ValidInterval(m, i);
    assert m.intervals[i].domains[a] in m.intervals[i].domains;
  }

  lemma MatchFixed(m: Mesh, y: Layout, ws: seq<seq<seq<real>>>, p: nat, row: int)
    requires Valid(m) && ValidLayout(m, y) && ValidWeights(m, ws) && p < Processes(m) && 0 < row <= y.dirichlet
    ensures Lookup(MapOf(m, y, p), row - 1) != Several
    ensures Lookup(MapOf(m, y, p), row - 1) != Missing <==> WorksOn(m, y, ws, p, row)
  {
    hide Lookup, MapOf, WorksOn, Valid, B1, InRow, ProcessOf;
    var i, dof, a, j := FixedRowOf(m, y, row);
    FixedRowInMap(m, y, p, i, dof, a, j);
    FixedWorkers(m, y, ws, p, i, dof, a, j, row);
  }

  lemma FixedWorkers(m: Mesh, y: Layout, ws: seq<seq<seq<real>>>, p: nat, i: nat, dof: nat, a: nat, j: nat, row: int)
    requires Valid(m) && ValidLayout(m, y) && ValidWeights(m, ws) && i < |m.intervals| && dof < |m.intervals[i].listed| && a < Copies(m, i)
    requires j < |m.intervals[i].listed[dof]| && row == FixedRow(m, y, i, dof, a, j)
    ensures WorksOn(m, y, ws, p, row) <==> ProcessOf(m, m.intervals[i].domains[a]) == p
  {
    var x := m.intervals[i].domains[a];
    CopyIsDomain(m, i, a);
    FixedRowEntries(m, y, ws, i, dof, a, j, x);
    forall d: nat | d < Domains(m) && d != x
      ensures InRow(B1(m, y, ws, d), row) == Nothing
    {
      FixedRowEntries(m, y, ws, i, dof, a, j, d);
    }
  }
}
