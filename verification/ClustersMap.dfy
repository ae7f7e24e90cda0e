/**
 * `B1clustersMap`: the processes enumerate their multipliers once more, by a double loop over
 * the ranks of the copies, and must arrive at the rows the domains used.
 */
module ClustersMap {
  import opened Basis
  import opened Pairs
  import opened Glue

  /** A multiplier (zero-based row) and the ranks working with it, the own rank first. */
  datatype MapEntry = MapEntry(row: int, ranks: seq<int>)

  /** The ranks noted for one multiplier: none, one entry, or several. */
  datatype Found = Missing | Single(ranks: seq<int>) | Several

  function Join(a: Found, b: Found): Found {
    if a == Missing then b else if b == Missing then a else Several
  }

  function Lookup(es: seq<MapEntry>, row: int): Found {
    if es == [] then Missing else
      var last := es[|es| - 1];
      Join(Lookup(es[..|es| - 1], row), if last.row == row then Single(last.ranks) else Missing)
  }

  lemma LookupNothing(row: int)
    ensures Lookup([], row) == Missing
  {
  }

  lemma {:induction false} LookupAppend(a: seq<MapEntry>, b: seq<MapEntry>, row: int)
    ensures Lookup(a + b, row) == Join(Lookup(a, row), Lookup(b, row))
    decreases |b|
  {
    if b == [] {
      assert a + b == a;
    } else {
      DropLastAppend(a, b);
      LookupAppend(a, b[..|b| - 1], row);
    }
  }

  ghost predicate EntriesWithin(es: seq<MapEntry>, lo: int, hi: int) {
    forall e :: 0 <= e < |es| ==> lo <= es[e].row < hi
  }

  lemma {:induction false} LookupOutside(es: seq<MapEntry>, lo: int, hi: int, row: int)
    requires EntriesWithin(es, lo, hi) && !(lo <= row < hi)
    ensures Lookup(es, row) == Missing
  {
    if es != [] {
      LookupOutside(es[..|es| - 1], lo, hi, row);
    }
  }

  /** Of concatenated pieces, only number `l` can have the row. */
  lemma {:induction false} FlattenLookup(pieces: seq<seq<MapEntry>>, l: int, row: int)
    requires forall k :: 0 <= k < |pieces| && k != l ==> Lookup(pieces[k], row) == Missing
    ensures Lookup(Flatten(pieces), row) == if 0 <= l < |pieces| then Lookup(pieces[l], row) else Missing
    decreases |pieces|
  {
    if pieces != [] {
      var last := |pieces| - 1;
      FlattenLookup(pieces[..last], l, row);
      LookupAppend(Flatten(pieces[..last]), pieces[last], row);
    }
  }

  /** What process `me` notes about the pair `a < b` of copies with these ranks. */
  function PairEntry(ranks: seq<int>, me: int, a: nat, b: nat): seq<MapEntry>
    requires a < b < |ranks|
  {
    if ranks[a] == me then [MapEntry(PairIndex(|ranks|, a, b), if ranks[b] != me then [me, ranks[b]] else [me])]
    else if ranks[b] == me then [MapEntry(PairIndex(|ranks|, a, b), [me, ranks[a]])]
    else []
  }

  /** The pairs `(a, a + 1) .. (a, b - 1)`. */
  function PairsOf(ranks: seq<int>, me: int, a: nat, b: nat): seq<MapEntry>
    requires a < b <= |ranks|
  {
    if b == a + 1 then [] else PairsOf(ranks, me, a, b - 1) + PairEntry(ranks, me, a, b - 1)
  }

  /** The pairs with a lower copy below `a`. */
  function PairsBelow(ranks: seq<int>, me: int, a: nat): seq<MapEntry>
    requires a <= |ranks|
  {
    if a == 0 then [] else PairsBelow(ranks, me, a - 1) + PairsOf(ranks, me, a - 1, |ranks|)
  }

  lemma PairNext(before: seq<MapEntry>, ranks: seq<int>, me: int, a: nat, b: nat)
    requires a < b < |ranks|
    ensures before + PairsOf(ranks, me, a, b + 1) == (before + PairsOf(ranks, me, a, b)) + PairEntry(ranks, me, a, b)
  {
  }

  /** The inner loop: all pairs with the lower copy `r1`. */
  method PairRow(ranks: seq<int>, me: int, r1: nat, start: nat, before: seq<MapEntry>) returns (nmap: seq<MapEntry>, LMindex: nat)
    requires r1 < |ranks| && start == PairStart(|ranks|, r1)
    ensures nmap == before + PairsOf(ranks, me, r1, |ranks|)
    ensures LMindex == PairStart(|ranks|, r1 + 1)
  {
    nmap, LMindex := before, start;
    assert before + PairsOf(ranks, me, r1, r1 + 1) == before;
    for r2 := r1 + 1 to |ranks|
      invariant nmap == before + PairsOf(ranks, me, r1, r2)
      invariant LMindex == start + (r2 - r1 - 1)
    {
      PairNext(before, ranks, me, r1, r2);
      if ranks[r1] == me {
        nmap := nmap + [MapEntry(LMindex, if ranks[r2] != me then [me, ranks[r2]] else [me])];
      } else if ranks[r2] == me {
        nmap := nmap + [MapEntry(LMindex, [me, ranks[r1]])];
      }
      LMindex := LMindex + 1;
    }
  }

  /** The `nmap` of an interval: the double loop over its ranks, counting pairs. */
  method NodeMap(ranks: seq<int>, me: int) returns (nmap: seq<MapEntry>)
    ensures nmap == PairsBelow(ranks, me, |ranks|)
  {
    nmap := [];
    var LMindex := 0;
    for r1 := 0 to |ranks|
      invariant nmap == PairsBelow(ranks, me, r1) && LMindex == PairStart(|ranks|, r1)
    {
      nmap, LMindex := PairRow(ranks, me, r1, LMindex, nmap);
    }
  }

  /** The entries of one node, its rows starting at `start`. */
  function Shift(es: seq<MapEntry>, start: int): (r: seq<MapEntry>)
    ensures |r| == |es|
  {
    seq(|es|, e requires 0 <= e < |es| => MapEntry(es[e].row + start, es[e].ranks))
  }

  lemma {:induction false} LookupShift(es: seq<MapEntry>, start: int, row: int)
    ensures Lookup(Shift(es, start), row) == Lookup(es, row - start)
  {
    if es != [] {
      var l := |es| - 1;
      LookupShift(es[..l], start, row);
      assert Shift(es, start)[..l] == Shift(es[..l], start);
    }
  }

  /** The entries of the first `count` glued degrees of freedom of an interval. */
  function IntervalMap(nmap: seq<MapEntry>, noffset: nat, start: int, count: nat): seq<MapEntry> {
    if count == 0 then [] else
      IntervalMap(nmap, noffset, start, count - 1) + Shift(nmap, start + Multiple(noffset, count - 1))
  }

  /** The ranks process `me` notes for the pair of copies on the ranks `x` and `y`. */
  function RanksOfPair(x: int, y: int, me: int): Found {
    if x == me then Single(if y != me then [me, y] else [me])
    else if y == me then Single([me, x])
    else Missing
  }

  lemma PairEntryLookup(ranks: seq<int>, me: int, x: nat, y: nat, a: nat, b: nat)
    requires x < y < |ranks| && a < b < |ranks|
    ensures Lookup(PairEntry(ranks, me, x, y), PairIndex(|ranks|, a, b)) ==
      if x == a && y == b then RanksOfPair(ranks[a], ranks[b], me) else Missing
  {
    if PairIndex(|ranks|, x, y) == PairIndex(|ranks|, a, b) {
      PairIndexInjective(|ranks|, x, y, a, b);
    }
    assert PairEntry(ranks, me, x, y) == [] || PairEntry(ranks, me, x, y)[..0] == [];
  }

  lemma {:induction false} PairsOfLookup(ranks: seq<int>, me: int, x: nat, y: nat, a: nat, b: nat)
    requires x < y <= |ranks| && a < b < |ranks|
    ensures Lookup(PairsOf(ranks, me, x, y), PairIndex(|ranks|, a, b)) ==
      if x == a && b < y then RanksOfPair(ranks[a], ranks[b], me) else Missing
    decreases y
  {
    hide PairEntry, PairIndex, RanksOfPair;
    if y > x + 1 {
      PairsOfLookup(ranks, me, x, y - 1, a, b);
      LookupAppend(PairsOf(ranks, me, x, y - 1), PairEntry(ranks, me, x, y - 1), PairIndex(|ranks|, a, b));
      PairEntryLookup(ranks, me, x, y - 1, a, b);
    }
  }

  /** The pair counter of the double loop is the closed row index of the pair. */
  lemma {:induction false} PairsBelowLookup(ranks: seq<int>, me: int, x: nat, a: nat, b: nat)
    requires x <= |ranks| && a < b < |ranks|
    ensures Lookup(PairsBelow(ranks, me, x), PairIndex(|ranks|, a, b)) ==
      if a < x then RanksOfPair(ranks[a], ranks[b], me) else Missing
  {
    hide PairsOf, PairIndex, RanksOfPair;
    if x > 0 {
      PairsBelowLookup(ranks, me, x - 1, a, b);
      PairsOfLookup(ranks, me, x - 1, |ranks|, a, b);
      LookupAppend(PairsBelow(ranks, me, x - 1), PairsOf(ranks, me, x - 1, |ranks|), PairIndex(|ranks|, a, b));
    }
  }

  lemma {:induction false} PairsOfWithin(ranks: seq<int>, me: int, x: nat, y: nat)
    requires x < y <= |ranks|
    ensures EntriesWithin(PairsOf(ranks, me, x, y), 0, Triangle(|ranks|))
  {
    if y > x + 1 {
      PairsOfWithin(ranks, me, x, y - 1);
      PairIndexInRange(|ranks|, x, y - 1);
    }
  }

  lemma {:induction false} PairsBelowWithin(ranks: seq<int>, me: int, x: nat)
    requires x <= |ranks|
    ensures EntriesWithin(PairsBelow(ranks, me, x), 0, Triangle(|ranks|))
  {
    if x > 0 {
      PairsBelowWithin(ranks, me, x - 1);
      PairsOfWithin(ranks, me, x - 1, |ranks|);
    }
  }

  lemma {:induction false} IntervalMapWithin(nmap: seq<MapEntry>, noffset: nat, start: int, count: nat)
    requires EntriesWithin(nmap, 0, noffset)
    ensures EntriesWithin(IntervalMap(nmap, noffset, start, count), start, start + Multiple(noffset, count))
  {
    if count > 0 {
      IntervalMapWithin(nmap, noffset, start, count - 1);
    }
  }

  /** A row of node number `c` occurs in the entries of that node only. */
  lemma {:induction false} IntervalLookup(nmap: seq<MapEntry>, noffset: nat, start: int, count: nat, c: nat, x: nat, row: int)
    requires EntriesWithin(nmap, 0, noffset) && x < noffset && row == start + Multiple(noffset, c) + x
    ensures Lookup(IntervalMap(nmap, noffset, start, count), row) == if c < count then Lookup(nmap, x) else Missing
    decreases count
  {
    LookupNothing(row);
    hide Lookup, Shift;
    if count > 0 {
      var l := count - 1;
      IntervalLookup(nmap, noffset, start, l, c, x, row);
      LookupAppend(IntervalMap(nmap, noffset, start, l), Shift(nmap, start + Multiple(noffset, l)), row);
      LookupShift(nmap, start + Multiple(noffset, l), row);
      if c != l {
        MultipleMonotone(noffset, if c < l then c + 1 else l + 1, if c < l then l else c);
        LookupOutside(nmap, 0, noffset, row - (start + Multiple(noffset, l)));
      }
    }
  }

  /** The rows of one copy of the conditions on one degree of freedom. */
  function RunEntries(start: int, count: nat, me: int): (r: seq<MapEntry>)
    ensures |r| == count
  {
    seq(count, n requires 0 <= n < count => MapEntry(start + n, [me]))
  }

  lemma {:induction false} RunLookup(start: int, count: nat, me: int, row: int)
    ensures Lookup(RunEntries(start, count, me), row) == if start <= row < start + count then Single([me]) else Missing
  {
    if count > 0 {
      RunLookup(start, count - 1, me, row);
      assert RunEntries(start, count, me)[..count - 1] == RunEntries(start, count - 1, me);
    }
  }

  /** The conditions on one degree of freedom: the rows of the own ones among the first `r` copies. */
  function CopyEntries(ranks: seq<int>, me: int, base: int, count: nat, r: nat): seq<MapEntry>
    requires r <= |ranks|
  {
    if r == 0 then [] else
      CopyEntries(ranks, me, base, count, r - 1) +
      if ranks[r - 1] == me then RunEntries(base + Multiple(count, r - 1), count, me) else []
  }

  lemma {:induction false} CopyWithin(ranks: seq<int>, me: int, base: int, count: nat, r: nat)
    requires r <= |ranks|
    ensures EntriesWithin(CopyEntries(ranks, me, base, count, r), base, base + Multiple(count, r))
  {
    if r > 0 {
      CopyWithin(ranks, me, base, count, r - 1);
    }
  }

  lemma {:induction false} CopyLookup(ranks: seq<int>, me: int, base: int, count: nat, r: nat, a: nat, j: nat, row: int)
    requires r <= |ranks| && a < |ranks| && j < count && row == base + Multiple(count, a) + j
    ensures Lookup(CopyEntries(ranks, me, base, count, r), row) == if a < r && ranks[a] == me then Single([me]) else Missing
    decreases r
  {
    LookupNothing(row);
    hide Lookup, RunEntries;
    if r > 0 {
      var last := if ranks[r - 1] == me then RunEntries(base + Multiple(count, r - 1), count, me) else [];
      CopyLookup(ranks, me, base, count, r - 1, a, j, row);
      LookupAppend(CopyEntries(ranks, me, base, count, r - 1), last, row);
      RunLookup(base + Multiple(count, r - 1), count, me, row);
      if a != r - 1 {
        MultipleMonotone(count, if a < r - 1 then a + 1 else r, if a < r - 1 then r - 1 else a);
      }
    }
  }

  /** The Dirichlet entries of an interval on the degrees of freedom below `dof`. */
  function ConditionMap(ranks: seq<int>, me: int, base: int, listed: seq<seq<nat>>, dof: nat): seq<MapEntry>
    requires dof <= |listed|
  {
    if dof == 0 then [] else
      ConditionMap(ranks, me, base, listed, dof - 1) +
      CopyEntries(ranks, me, base + RowsBefore(|ranks|, listed, dof - 1), |listed[dof - 1]|, |ranks|)
  }

  /** Rows of the conditions below `dof`: `FixedBefore` for lists of nodes. */
  function RowsBefore(n: nat, listed: seq<seq<nat>>, dof: nat): nat
    requires dof <= |listed|
  {
    FixedBefore(n, listed, dof)
  }

  lemma {:induction false} ConditionWithin(ranks: seq<int>, me: int, base: int, listed: seq<seq<nat>>, dof: nat)
    requires dof <= |listed|
    ensures EntriesWithin(ConditionMap(ranks, me, base, listed, dof), base, base + RowsBefore(|ranks|, listed, dof))
  {
    if dof > 0 {
      ConditionWithin(ranks, me, base, listed, dof - 1);
      CopyWithin(ranks, me, base + RowsBefore(|ranks|, listed, dof - 1), |listed[dof - 1]|, |ranks|);
    }
  }

  lemma {:induction false} ConditionLookup(ranks: seq<int>, me: int, base: int, listed: seq<seq<nat>>, top: nat, dof: nat,
      a: nat, j: nat, row: int)
    requires top <= |listed| && dof < |listed| && a < |ranks| && j < |listed[dof]|
    requires row == base + RowsBefore(|ranks|, listed, dof) + Multiple(|listed[dof]|, a) + j
    ensures Lookup(ConditionMap(ranks, me, base, listed, top), row) == if dof < top && ranks[a] == me then Single([me]) else Missing
    decreases top
  {
    LookupNothing(row);
    hide Lookup, CopyEntries;
    if top > 0 {
      var l := top - 1;
      var start := base + RowsBefore(|ranks|, listed, l);
      MultipleMonotone(|listed[dof]|, a + 1, |ranks|);
      ConditionLookup(ranks, me, base, listed, l, dof, a, j, row);
      LookupAppend(ConditionMap(ranks, me, base, listed, l), CopyEntries(ranks, me, start, |listed[l]|, |ranks|), row);
      if dof == l {
        CopyLookup(ranks, me, start, |listed[l]|, |ranks|, a, j, row);
      } else {
        FixedBeforeMonotone(|ranks|, listed, if dof < l then dof + 1 else top, if dof < l then l else dof);
        CopyWithin(ranks, me, start, |listed[l]|, |ranks|);
        LookupOutside(CopyEntries(ranks, me, start, |listed[l]|, |ranks|), start, start + Multiple(|listed[l]|, |ranks|), row);
      }
    }
  }
}
