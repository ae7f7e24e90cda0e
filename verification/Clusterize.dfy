/**
 * `RandomInput::clusterize`: the borders of the processes on the space-filling curve, refined
 * level by level until every process gets its share of the elements up to the tolerance.
 */
module Clusterize {
  import opened Basis
  import opened Esutils
  import opened BorderRefinement
  import opened BucketCounts
  import opened LevelCounts
  import opened ClusterLevels
  import opened ClusterRun
  import opened ProcessCounts
  import opened TArray

  /** The state of `RandomInput` the loops change: the borders and the list of the next level. */
  class RandomInput {
    var bucketsBorders: seq<nat>
    var recursed: seq<nat>
    var refinedindices: seq<nat>

    constructor (processes: nat, buckets: nat)
      ensures |bucketsBorders| == processes + 1 && bucketsBorders[0] == 0 && recursed == [] == refinedindices
      ensures forall r :: 0 < r <= processes ==> bucketsBorders[r] == buckets
    {
      bucketsBorders := seq(processes + 1, r => if r == 0 then 0 else buckets);
      recursed, refinedindices := [], [];
    }

    /** The cut for one target: the first one with enough elements before it, from `from` on. */
    method FindCut(rc: seq<nat>, t: nat, tolerance: nat, from: nat) returns (i: nat)
      requires 0 < |rc| && t < rc[|rc| - 1] && from < |rc| && Passed(rc, t, tolerance, from)
      ensures Chosen(rc, t, tolerance, i) && from <= i < |rc|
    {
      i := from;
      while i < |rc| && rc[i] < t && t - rc[i] >= tolerance
        invariant from <= i <= |rc| && Passed(rc, t, tolerance, i)
      {
        i := i + 1;
      }
    }

    /**
     * One refined bucket: all borders whose target lies in it. The position `i` in the counts is
     * not reset between them.
     */
    method RefineBucket(targets: seq<nat>, tolerance: nat, c: nat, first: nat, boffset: nat, rc: seq<nat>)
      returns (ghost rbegin: nat, ghost at: seq<nat>)
      requires Sorted(targets) && |bucketsBorders| == |targets| && |rc| > 1 && rc[0] <= rc[|rc| - 1]
      modifies this
      ensures rbegin == LowerBound(targets, rc[0]) && rbegin + |at| == LowerBound(targets, rc[|rc| - 1])
      ensures AllChosen(rc, targets, tolerance, rbegin, at)
      ensures Moved(old(bucketsBorders), bucketsBorders, c, first, rbegin, at)
      ensures recursed == old(recursed) + Pushed(first, rc, targets, tolerance, rbegin, at)
      ensures refinedindices == old(refinedindices) + Pushed(boffset, rc, targets, tolerance, rbegin, at)
    {
      hide Moved, Pushed, AllChosen, Chosen, Passed, Sorted;
      rbegin := LowerBound(targets, rc[0]);
      var r, rend, i := LowerBound(targets, rc[0]), LowerBound(targets, rc[|rc| - 1]), 0;
      at := [];
      ghost var before, list, indices := bucketsBorders, recursed, refinedindices;
      CutsBegin(before, list, c, first, rc, targets, tolerance, rbegin);
      CutsBegin(before, indices, c, boffset, rc, targets, tolerance, rbegin);
      while r < rend
        invariant r == rbegin + |at| <= rend
        invariant |bucketsBorders| == |targets|
        invariant i < |rc| && (at == [] ==> i == 0) && (at != [] ==> i == at[|at| - 1])
        invariant AllChosen(rc, targets, tolerance, rbegin, at)
        invariant Moved(before, bucketsBorders, c, first, rbegin, at)
        invariant recursed == list + Pushed(first, rc, targets, tolerance, rbegin, at)
        invariant refinedindices == indices + Pushed(boffset, rc, targets, tolerance, rbegin, at)
      {
        ghost var old_borders := bucketsBorders;
        StillPassed(rc, targets, tolerance, rbegin, at, i);
        i := FindCut(rc, targets[r], tolerance, i);
        bucketsBorders := bucketsBorders[r := Multiple(c, first + i)];
        if rc[i] > targets[r] && rc[i] - targets[r] > tolerance {
          OvershootPositive(targets, tolerance, rc, r, i);
          recursed := recursed + [first + i - 1];
          refinedindices := refinedindices + [boffset + i - 1];
        }
        CutsNext(rc, targets, tolerance, rbegin, at, i);
        MovedNext(before, old_borders, c, first, rbegin, at, i);
        PushedNext(list, first, rc, targets, tolerance, rbegin, at, i);
        PushedNext(indices, boffset, rc, targets, tolerance, rbegin, at, i);
        at, r := at + [i], r + 1;
      }
    }

    /** Bucket number `b` of the level's list. */
    method RefineListed(targets: seq<nat>, tolerance: nat, c: nat, bsize: nat, list: seq<nat>, b: nat, rc: seq<nat>,
        ghost N: nat -> nat, ghost before: seq<nat>)
      requires LevelInput(N, targets, tolerance, c, bsize, list, rc) && b < |list|
      requires LevelDone(N, targets, before, bucketsBorders, tolerance, c, bsize, list, b, recursed, refinedindices)
      modifies this
      ensures LevelDone(N, targets, before, bucketsBorders, tolerance, c, bsize, list, b + 1, recursed, refinedindices)
    {
      hide LevelInput, LevelDone, BucketMoved, Pushed, AllChosen, Moved, Row, Multiple, LowerBound;
      ghost var borders, next, indices := bucketsBorders, recursed, refinedindices;
      RowReady(N, targets, before, borders, tolerance, c, bsize, list, b, rc, next, indices);
      ghost var rbegin, at;
      rbegin, at := RefineBucket(targets, tolerance, c, Multiple(bsize, list[b]), Multiple(bsize + 1, b), Row(rc, bsize, b));
      ghost var pushed := Pushed(Multiple(bsize, list[b]), Row(rc, bsize, b), targets, tolerance, rbegin, at);
      ghost var positions := Pushed(Multiple(bsize + 1, b), Row(rc, bsize, b), targets, tolerance, rbegin, at);
      LevelStep(N, targets, before, borders, bucketsBorders, tolerance, c, bsize, list, b, rc, rbegin, at, next, indices, pushed, positions);
    }

    /** All refined buckets of one level. */
    method RefineLevel(targets: seq<nat>, tolerance: nat, c: nat, bsize: nat, list: seq<nat>, rc: seq<nat>, ghost N: nat -> nat)
      requires LevelInput(N, targets, tolerance, c, bsize, list, rc)
      requires LevelInvariant(N, targets, bucketsBorders, tolerance, Multiple(c, bsize), list)
      requires recursed == [] == refinedindices
      modifies this
      ensures LevelDone(N, targets, old(bucketsBorders), bucketsBorders, tolerance, c, bsize, list, |list|, recursed, refinedindices)
    {
      ghost var before := bucketsBorders;
      LevelStart(N, targets, before, tolerance, c, bsize, list);
      hide LevelInput, LevelInvariant, LevelDone;
      for b := 0 to |list|
        invariant LevelDone(N, targets, before, bucketsBorders, tolerance, c, bsize, list, b, recursed, refinedindices)
      {
        RefineListed(targets, tolerance, c, bsize, list, b, rc, N, before);
      }
    }

    /** `finishLevel`: the list of the next level, sorted and without duplicates. */
    method FinishLevel(ghost N: nat -> nat, targets: seq<nat>, tolerance: nat, bsize: nat, depth: nat, level: nat,
        ghost before: seq<nat>, ghost list: seq<nat>) returns (next: seq<nat>, refined: seq<nat>)
      requires AtLevel(N, targets, tolerance, bsize, depth, level, before, list) && level < depth
      requires LevelDone(N, targets, before, bucketsBorders, tolerance, Power(bsize, depth - level - 1), bsize, list, |list|,
        recursed, refinedindices)
      modifies this`recursed, this`refinedindices
      ensures AtLevel(N, targets, tolerance, bsize, depth, level + 1, bucketsBorders, next)
      ensures next == Unique(old(recursed)) && refined == Unique(old(refinedindices))
      ensures recursed == [] == refinedindices
    {
      hide *;
      NextState(N, targets, tolerance, bsize, depth, level, before, bucketsBorders, list, recursed, refinedindices, Unique(recursed));
      ListsSorted(N, targets, before, bucketsBorders, tolerance, Power(bsize, depth - level - 1), bsize, list, recursed, refinedindices);
      SortIsIdentity(recursed);
      SortIsIdentity(refinedindices);
      next := RemoveDuplicity(SortOf(recursed));
      refined := RemoveDuplicity(SortOf(refinedindices));
      recursed, refinedindices := [], [];
    }

    /** One level: refine all buckets of the list with the global counts `rc`. */
    method ClusterLevel(targets: seq<nat>, tolerance: nat, bsize: nat, depth: nat, level: nat, list: seq<nat>, rc: seq<nat>,
        ghost N: nat -> nat) returns (next: seq<nat>, refined: seq<nat>, ghost pushed: seq<nat>, ghost positions: seq<nat>)
      requires AtLevel(N, targets, tolerance, bsize, depth, level, bucketsBorders, list) && level < depth
      requires FlatCounts(N, Power(bsize, depth - level - 1), bsize, list, rc) && recursed == [] == refinedindices
      modifies this
      ensures AtLevel(N, targets, tolerance, bsize, depth, level + 1, bucketsBorders, next) && recursed == [] == refinedindices
      ensures PairedLists(bsize, list, |list|, pushed, positions) && next == Unique(pushed) && refined == Unique(positions)
    {
      ghost var c, before := Power(bsize, depth - level - 1), bucketsBorders;
      LevelReady(N, targets, before, tolerance, bsize, depth, level, list, rc);
      RefineLevel(targets, tolerance, Power(bsize, depth - level - 1), bsize, list, rc, N);
      pushed, positions := recursed, refinedindices;
      next, refined := FinishLevel(N, targets, tolerance, bsize, depth, level, before, list);
    }

    /**
     * `clusterize`: the preprocessed levels take their counts from the histogram, the deeper ones
     * from scans that start at the counts carried along. `all[p]` are the buckets of the elements
     * of process `p`.
     */
    method Clusterize(all: seq<seq<nat>>, targets: seq<nat>, tolerance: nat, bsize: nat, depth: nat, DEPTH: nat)
      requires bsize > 0 && 0 < DEPTH <= depth && BelowLimit(all, Power(bsize, depth)) && GlobalSize(all) > 0
      requires IsDistribution(targets, GlobalSize(all)) && |bucketsBorders| == |targets|
      requires InitialBorders(bucketsBorders, Power(bsize, depth)) && recursed == [] == refinedindices
      modifies this
      ensures Clustered(CountsOfAll(all), targets, tolerance, bsize, depth, bucketsBorders)
    {
      ghost var N := CountsOfAll(all);
      CurveCounts(all, targets, Power(bsize, depth));
      StartState(N, targets, tolerance, bsize, depth, bucketsBorders);
      var sorted := SortAll(all);
      var sums := AllBucketSums(all, bsize, depth, DEPTH);
      hide AtLevel, AllSums, WholeCurve, Clustered, InitialBorders, SortedCopies, InGrid, AllStarts;
      var level, list := PreprocessedLevels(all, sums, targets, tolerance, bsize, depth, DEPTH, [0], N);
      GridOf(N, targets, tolerance, bsize, depth, level, bucketsBorders, list);
      var starts := FirstStarts(all, sums, bsize, depth, DEPTH, level, list);
      level, list := AdhocLevels(all, sorted, targets, tolerance, bsize, depth, level, list, starts, N);
      FinalState(N, targets, tolerance, bsize, depth, level, bucketsBorders, list);
    }

    /** The levels with a histogram; the coarsest one is always refined. */
    method PreprocessedLevels(all: seq<seq<nat>>, sums: seq<seq<seq<nat>>>, targets: seq<nat>, tolerance: nat, bsize: nat, depth: nat,
        DEPTH: nat, root: seq<nat>, ghost N: nat -> nat) returns (level: nat, list: seq<nat>)
      requires 0 < DEPTH <= depth && recursed == [] == refinedindices && N == CountsOfAll(all)
      requires AllSums(all, bsize, depth, DEPTH, sums)
      requires AtLevel(N, targets, tolerance, bsize, depth, 0, bucketsBorders, root)
      modifies this
      ensures 0 < level <= DEPTH && recursed == [] == refinedindices
      ensures AtLevel(N, targets, tolerance, bsize, depth, level, bucketsBorders, list)
    {
      hide AtLevel, AllSums;
      level, list := 0, root;
      while level == 0 || (level < DEPTH && list != [])
        invariant level <= DEPTH && recursed == [] == refinedindices
        invariant AtLevel(N, targets, tolerance, bsize, depth, level, bucketsBorders, list)
        decreases DEPTH - level
      {
        list := HistogramLevel(all, sums, targets, tolerance, bsize, depth, DEPTH, level, list, N);
        level := level + 1;
      }
    }

    method HistogramLevel(all: seq<seq<nat>>, sums: seq<seq<seq<nat>>>, targets: seq<nat>, tolerance: nat, bsize: nat, depth: nat,
        DEPTH: nat, level: nat, list: seq<nat>, ghost N: nat -> nat) returns (next: seq<nat>)
      requires level < DEPTH <= depth && recursed == [] == refinedindices && N == CountsOfAll(all)
      requires AllSums(all, bsize, depth, DEPTH, sums)
      requires AtLevel(N, targets, tolerance, bsize, depth, level, bucketsBorders, list)
      modifies this
      ensures AtLevel(N, targets, tolerance, bsize, depth, level + 1, bucketsBorders, next) && recursed == [] == refinedindices
    {
      GridOf(N, targets, tolerance, bsize, depth, level, bucketsBorders, list);
      hide AtLevel, AllSums, AllFlat, FlatCounts, InGrid, Unique, PairedLists;
      var flats := AllLocalCounts(all, sums, bsize, depth, DEPTH, level, list);
      var rc := GlobalCounts(all, flats, Power(bsize, depth - level - 1), bsize, list);
      var refined;
      ghost var pushed, positions;
      next, refined, pushed, positions := ClusterLevel(targets, tolerance, bsize, depth, level, list, rc, N);
    }

    /** The levels beyond the preprocessed ones. */
    method AdhocLevels(all: seq<seq<nat>>, sorted: seq<seq<nat>>, targets: seq<nat>, tolerance: nat, bsize: nat, depth: nat,
        first: nat, list: seq<nat>, starts: seq<seq<nat>>, ghost N: nat -> nat) returns (level: nat, last: seq<nat>)
      requires 0 < first <= depth && recursed == [] == refinedindices && N == CountsOfAll(all)
      requires AtLevel(N, targets, tolerance, bsize, depth, first, bucketsBorders, list)
      requires SortedCopies(all, sorted) && AllStarts(all, Power(bsize, depth - first), list, starts)
      modifies this
      ensures 0 < level <= depth && (level == depth || last == [])
      ensures AtLevel(N, targets, tolerance, bsize, depth, level, bucketsBorders, last)
    {
      hide AtLevel, SortedCopies, AllStarts, AllFlat, FlatCounts, Unique, PairedLists;
      level, last := first, list;
      var counts := starts;
      while level < depth && last != []
        invariant 0 < level <= depth && recursed == [] == refinedindices
        invariant AtLevel(N, targets, tolerance, bsize, depth, level, bucketsBorders, last)
        invariant AllStarts(all, Power(bsize, depth - level), last, counts)
      {
        ghost var c := Power(bsize, depth - level - 1);
        assert Power(bsize, depth - level) == Multiple(c, bsize);
        var flats := AllScanCounts(all, sorted, Power(bsize, depth - level - 1), bsize, last, counts);
        var rc := GlobalCounts(all, flats, c, bsize, last);
        ghost var cut := last;
        var refined;
        ghost var pushed, positions;
        last, refined, pushed, positions := ClusterLevel(targets, tolerance, bsize, depth, level, last, rc, N);
        counts := CarryStarts(all, flats, c, bsize, cut, pushed, positions, refined);
        level := level + 1;
      }
    }
  }

  /** Of elements on the curve, the counts go from zero to the total. */
  lemma CurveCounts(all: seq<seq<nat>>, targets: seq<nat>, size: nat)
    requires BelowLimit(all, size) && GlobalSize(all) > 0 && IsDistribution(targets, GlobalSize(all))
    ensures WholeCurve(CountsOfAll(all), targets, size)
  {
    CountsAreMonotone(all);
    GlobalEnds(all, size);
    forall x: nat
      ensures CountsOfAll(all)(x) <= GlobalSize(all)
    {
      GlobalBounded(all, x);
    }
  }

  lemma GridOf(N: nat -> nat, targets: seq<nat>, tolerance: nat, bsize: nat, depth: nat, level: nat, borders: seq<nat>, list: seq<nat>)
    requires AtLevel(N, targets, tolerance, bsize, depth, level, borders, list)
    ensures InGrid(list, Power(bsize, level))
  {
  }

  lemma ListsSorted(N: nat -> nat, targets: seq<nat>, before: seq<nat>, borders: seq<nat>, tolerance: nat, c: nat, bsize: nat,
      list: seq<nat>, next: seq<nat>, indices: seq<nat>)
    requires LevelDone(N, targets, before, borders, tolerance, c, bsize, list, |list|, next, indices)
    ensures Sorted(next) && Sorted(indices)
  {
    IndicesSorted(bsize, list, next, indices);
  }

  lemma LevelReady(N: nat -> nat, targets: seq<nat>, borders: seq<nat>, tolerance: nat, bsize: nat, depth: nat, level: nat,
      list: seq<nat>, rc: seq<nat>)
    requires AtLevel(N, targets, tolerance, bsize, depth, level, borders, list) && level < depth
    requires FlatCounts(N, Power(bsize, depth - level - 1), bsize, list, rc)
    ensures LevelInput(N, targets, tolerance, Power(bsize, depth - level - 1), bsize, list, rc)
    ensures LevelInvariant(N, targets, borders, tolerance, Multiple(Power(bsize, depth - level - 1), bsize), list)
  {
    PowerPositive(bsize, depth - level - 1);
  }

  /** Two processes with five elements each, all of them in bucket `v`. */
  function ElementsIn(v: nat): seq<seq<nat>> {
    [[v, v, v, v, v], [v, v, v, v, v]]
  }

  lemma {:induction false} CountSame(s: seq<nat>, v: nat, x: nat)
    requires forall e :: 0 <= e < |s| ==> s[e] == v
    ensures CountBelow(s, x) == if v < x then |s| else 0
  {
    if s != [] {
      CountSame(s[..|s| - 1], v, x);
    }
  }

  lemma CountsOfElements(v: nat)
    ensures AllLate(CountsOfAll(ElementsIn(v)), v + 1) && GlobalSize(ElementsIn(v)) == 10
  {
    var all: seq<seq<nat>>, one: seq<seq<nat>> := ElementsIn(v), [[v, v, v, v, v]];
    hide CountBelow;
    assert all[..1] == one && all[1] == one[0] && one[..0] == all[..0];
    assert GlobalSize(one) == |one[0]| && GlobalSize(all) == GlobalSize(one) + |one[0]|;
    forall x: nat
      ensures GlobalBelow(all, x) == if x < v + 1 then 0 else 10
    {
      CountSame(one[0], v, x);
      assert GlobalBelow(one, x) == CountBelow(one[0], x);
      assert GlobalBelow(all, x) == GlobalBelow(one, x) + CountBelow(one[0], x);
    }
  }

  lemma ElementsBelow(v: nat)
    ensures BelowLimit(ElementsIn(v), v + 1) && IsDistribution(LateTargets(), 10) && |LateTargets()| == 3
  {
  }

  lemma FirstBorders(borders: seq<nat>, size: nat)
    requires |borders| > 1 && borders[0] == 0 && forall r :: 0 < r < |borders| ==> borders[r] == size
    ensures InitialBorders(borders, size)
  {
  }

  /** With all elements in the last bucket, the first border leaves 0 and the second one misses its target. */
  method ClusterLateElements(bsize: nat, depth: nat, DEPTH: nat) returns (borders: seq<nat>)
    requires bsize > 1 && depth > 1 && 0 < DEPTH <= depth
    ensures |borders| == 3 && borders[0] > 0
    ensures Power(bsize, depth) > 0 && !Near(CountsOfAll(ElementsIn(Power(bsize, depth) - 1)), 5, borders[1], 2)
  {
    hide *;
    PowerPositive(bsize, depth);
    var size := Power(bsize, depth);
    CountsOfElements(size - 1);
    ElementsBelow(size - 1);
    var input := new RandomInput(2, size);
    FirstBorders(input.bucketsBorders, size);
    var all, targets := ElementsIn(size - 1), LateTargets();
    input.Clusterize(all, targets, 2, bsize, depth, DEPTH);
    borders := input.bucketsBorders;
    LateBorders(CountsOfAll(all), bsize, depth, borders);
  }
}
