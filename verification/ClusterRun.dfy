/** The state of `clusterize` between two levels, from the initial borders to the final ones. */
module ClusterRun {
  import opened Basis
  import opened Esutils
  import opened BorderRefinement
  import opened RefinementLists
  import opened LevelCounts
  import opened ClusterLevels
  import opened BorderPlaces

  /** Every border meets its target or has it strictly inside a bucket of the list. */
  ghost predicate MetOrInside(N: nat -> nat, targets: seq<nat>, borders: seq<nat>, tolerance: nat, w: nat, list: seq<nat>)
    requires |borders| == |targets|
  {
    forall r :: 0 <= r < |targets| ==>
      Near(N, targets[r], borders[r], tolerance) || Pending(N, targets[r], tolerance, w, list, 0)
  }

  /** Every border whose target lies strictly inside a bucket of width `w` lies at the end of that bucket. */
  ghost predicate InsideAtEnd(N: nat -> nat, targets: seq<nat>, borders: seq<nat>, tolerance: nat, w: nat)
    requires |borders| == |targets|
  {
    forall v: nat :: AllAtEnd(N, targets, borders, tolerance, w, v)
  }

  ghost predicate InGrid(list: seq<nat>, n: nat) {
    forall e :: 0 <= e < |list| ==> list[e] < n
  }

  /** An overfull bucket with nothing before it, but not at the begin of the curve. */
  ghost predicate LeadingGap(N: nat -> nat, targets: seq<nat>, tolerance: nat, w: nat, v: nat) {
    v > 0 && HasInside(N, targets, tolerance, w, v) && N(Multiple(w, v)) == 0
  }

  /** There is such a bucket on one of the first `upto` levels. */
  ghost predicate LeadingGapBefore(N: nat -> nat, targets: seq<nat>, tolerance: nat, bsize: nat, depth: nat, upto: nat)
    requires upto <= depth
  {
    upto > 0 && (GapAt(N, targets, tolerance, Power(bsize, depth - (upto - 1))) ||
      LeadingGapBefore(N, targets, tolerance, bsize, depth, upto - 1))
  }

  ghost predicate GapAt(N: nat -> nat, targets: seq<nat>, tolerance: nat, w: nat) {
    exists v: nat :: LeadingGap(N, targets, tolerance, w, v)
  }

  /** The state before level `level`, whose refined buckets are `list`. */
  ghost predicate AtLevel(N: nat -> nat, targets: seq<nat>, tolerance: nat, bsize: nat, depth: nat, level: nat,
      borders: seq<nat>, list: seq<nat>) {
    && level <= depth && bsize > 0 && Targets(N, targets) && LevelInvariant(N, targets, borders, tolerance, Power(bsize, depth - level), list)
    && Complete(N, targets, tolerance, Power(bsize, depth - level), list) && InGrid(list, Power(bsize, level))
    && (level > 0 ==> Sound(N, targets, tolerance, Power(bsize, depth - level), list))
    && (level > 0 ==> MetOrInside(N, targets, borders, tolerance, Power(bsize, depth - level), list))
    && (level > 0 ==> InsideAtEnd(N, targets, borders, tolerance, Power(bsize, depth - level)))
    && (level == 0 ==> list == [0])
    && (borders[0] == 0 <==> !LeadingGapBefore(N, targets, tolerance, bsize, depth, level))
    && borders[|borders| - 1] == Power(bsize, depth) && AllBordersAre(N, targets, tolerance, bsize, depth, level, borders)
  }

  /** Counts of the whole curve, with at least one element. */
  ghost predicate WholeCurve(N: nat -> nat, targets: seq<nat>, size: nat) {
    Targets(N, targets) && N(0) == 0 < N(size) == targets[|targets| - 1]
  }

  ghost predicate InitialBorders(borders: seq<nat>, size: nat) {
    |borders| > 1 && borders[0] == 0 && forall r :: 0 < r < |borders| ==> borders[r] == size
  }

  lemma StartState(N: nat -> nat, targets: seq<nat>, tolerance: nat, bsize: nat, depth: nat, borders: seq<nat>)
    requires bsize > 0 && WholeCurve(N, targets, Power(bsize, depth)) && |borders| == |targets|
    requires InitialBorders(borders, Power(bsize, depth))
    ensures AtLevel(N, targets, tolerance, bsize, depth, 0, borders, [0])
  {
    var size := Power(bsize, depth);
    assert Multiple(size, 0) == 0 && Multiple(size, 1) == Multiple(size, 0) + size;
    forall r | 0 <= r < |targets|
      ensures OnItsSide(N, targets[r], borders[r], 0, size)
      ensures Near(N, targets[r], borders[r], tolerance) || Held(N, targets[r], size, [0], 0)
    {
      assert targets[r] <= targets[|targets| - 1];
      assert [0][0] == 0;
      if targets[r] < N(size) {
        assert HeldBy(N, targets[r], Multiple(size, [0][0]), Multiple(size, [0][0] + 1));
      }
    }
    RootIsComplete(N, targets, tolerance, size);
    assert Power(bsize, 0) == 1;
  }

  lemma RootIsComplete(N: nat -> nat, targets: seq<nat>, tolerance: nat, size: nat)
    requires WholeCurve(N, targets, size)
    ensures Complete(N, targets, tolerance, size, [0])
  {
    assert forall r :: 0 <= r < |targets| ==> targets[r] <= targets[|targets| - 1];
    assert Multiple(size, 1) == Multiple(size, 0) + size;
    forall v: nat | v > 0
      ensures !HasInside(N, targets, tolerance, size, v)
    {
      MultipleMonotone(size, 1, v);
      assert N(size) <= N(Multiple(size, v));
    }
  }

  /** Sorting and removing duplicates keeps the set of listed buckets. */
  lemma SameMembers(N: nat -> nat, targets: seq<nat>, borders: seq<nat>, tolerance: nat, c: nat, next: seq<nat>, list: seq<nat>)
    requires |borders| == |targets| && forall x :: x in list <==> x in next
    requires SeparatesAll(N, targets, borders, c, next) && Sound(N, targets, tolerance, c, next) && Complete(N, targets, tolerance, c, next)
    ensures SeparatesAll(N, targets, borders, c, list) && Sound(N, targets, tolerance, c, list) && Complete(N, targets, tolerance, c, list)
  {
    forall j | 0 <= j < |list|
      ensures Separates(N, targets, borders, Multiple(c, list[j]), Multiple(c, list[j] + 1))
      ensures HasInside(N, targets, tolerance, c, list[j])
    {
      assert list[j] in next;
      var k :| 0 <= k < |next| && next[k] == list[j];
      assert Separates(N, targets, borders, Multiple(c, next[k]), Multiple(c, next[k] + 1));
    }
  }

  lemma PendingSame(N: nat -> nat, t: nat, tolerance: nat, c: nat, next: seq<nat>, list: seq<nat>)
    requires Pending(N, t, tolerance, c, next, 0) && forall x :: x in list <==> x in next
    ensures Pending(N, t, tolerance, c, list, 0) && Held(N, t, c, list, 0)
  {
    var j :| 0 <= j < |next| && Inside(N, t, tolerance, Multiple(c, next[j]), Multiple(c, next[j] + 1));
    assert next[j] in list;
    var k :| 0 <= k < |list| && list[k] == next[j];
    assert HeldBy(N, t, Multiple(c, list[k]), Multiple(c, list[k] + 1));
  }

  /** After the last bucket of the list, every border is met or waits on the next list. */
  lemma AllWaitOnNext(N: nat -> nat, targets: seq<nat>, borders: seq<nat>, tolerance: nat, c: nat, bsize: nat, list: seq<nat>,
      next: seq<nat>, sorted: seq<nat>)
    requires Progress(N, targets, borders, tolerance, c, bsize, list, |list|, next) && forall x :: x in sorted <==> x in next
    ensures |borders| == |targets| && MetOrInside(N, targets, borders, tolerance, c, sorted)
    ensures MetOrPending(N, targets, borders, tolerance, c, sorted)
  {
    forall r | 0 <= r < |targets|
      ensures Near(N, targets[r], borders[r], tolerance) ||
        (Pending(N, targets[r], tolerance, c, sorted, 0) && Held(N, targets[r], c, sorted, 0))
    {
      assert Waiting(N, targets[r], borders[r], tolerance, c, bsize, list, |list|, next);
      if Pending(N, targets[r], tolerance, c, next, 0) {
        PendingSame(N, targets[r], tolerance, c, next, sorted);
      }
    }
  }

  lemma NextInGrid(bsize: nat, list: seq<nat>, next: seq<nat>, indices: seq<nat>, n: nat, sorted: seq<nat>)
    requires InGrid(list, n) && PairedLists(bsize, list, |list|, next, indices) && forall x :: x in sorted <==> x in next
    ensures InGrid(sorted, Multiple(n, bsize))
  {
    hide SameSteps;
    forall e | 0 <= e < |sorted|
      ensures sorted[e] < Multiple(n, bsize)
    {
      assert sorted[e] in next;
      var k :| 0 <= k < |next| && next[k] == sorted[e];
      assert IsPartIndex(bsize, list, |list|, next[k], indices[k]);
      var j, i :| 0 <= j < |list| && 0 <= i < bsize && PartIndexAt(bsize, list, j, i, next[k], indices[k]);
      MultipleMonotone(bsize, list[j] + 1, n);
      MultipleCommutes(n, bsize);
    }
  }

  /** Wider buckets reach further. */
  lemma {:induction false} PowerMonotone(bsize: nat, d: nat, e: nat)
    requires bsize > 0 && d <= e
    ensures Power(bsize, d) <= Power(bsize, e)
    decreases e
  {
    if d < e {
      PowerMonotone(bsize, d, e - 1);
      MultipleMonotone(Power(bsize, e - 1), 1, bsize);
      assert Multiple(Power(bsize, e - 1), 1) == Multiple(Power(bsize, e - 1), 0) + Power(bsize, e - 1);
    }
  }

  /** When the bucket at the begin of the curve has elements, no bucket as wide has a gap before it. */
  lemma NoGapAtWidth(N: nat -> nat, targets: seq<nat>, tolerance: nat, x: nat, w: nat)
    requires Monotone(N) && x <= w && N(x) > 0
    ensures !GapAt(N, targets, tolerance, w)
  {
    forall v: nat | v > 0
      ensures N(Multiple(w, v)) > 0
    {
      MultipleMonotone(w, 1, v);
      assert Multiple(w, 1) == Multiple(w, 0) + w;
      assert N(x) <= N(Multiple(w, v));
    }
  }

  lemma {:induction false} NoGapBefore(N: nat -> nat, targets: seq<nat>, tolerance: nat, bsize: nat, depth: nat, x: nat, upto: nat)
    requires Monotone(N) && bsize > 0 && upto <= depth && N(x) > 0 && (upto > 0 ==> x <= Power(bsize, depth - (upto - 1)))
    ensures !LeadingGapBefore(N, targets, tolerance, bsize, depth, upto)
  {
    if upto > 0 {
      NoGapAtWidth(N, targets, tolerance, x, Power(bsize, depth - (upto - 1)));
      if upto > 1 {
        PowerMonotone(bsize, depth - (upto - 1), depth - (upto - 2));
      }
      NoGapBefore(N, targets, tolerance, bsize, depth, x, upto - 1);
    }
  }

  /** The first border after one more level. */
  lemma FirstBorderNext(N: nat -> nat, targets: seq<nat>, tolerance: nat, bsize: nat, depth: nat, level: nat, list: seq<nat>,
      before: nat, now: nat)
    requires Monotone(N) && bsize > 0 && level < depth && Complete(N, targets, tolerance, Power(bsize, depth - level), list)
    requires level > 0 ==> Sound(N, targets, tolerance, Power(bsize, depth - level), list)
    requires level == 0 ==> list == [0]
    requires FirstState(N, Power(bsize, depth - level), list, |list|, before, now)
    requires before == 0 <==> !LeadingGapBefore(N, targets, tolerance, bsize, depth, level)
    ensures now == 0 <==> !LeadingGapBefore(N, targets, tolerance, bsize, depth, level + 1)
  {
    var w := Power(bsize, depth - level);
    PowerPositive(bsize, depth - level);
    assert Multiple(w, 1) == Multiple(w, 0) + w;
    if j :| 0 <= j < |list| && HoldsFirst(N, w, list[j]) {
      assert now == Multiple(w, list[j]);
      if list[j] == 0 {
        NoGapBefore(N, targets, tolerance, bsize, depth, w, level + 1);
      } else {
        MultipleMonotone(w, 1, list[j]);
        assert LeadingGap(N, targets, tolerance, w, list[j]);
      }
    } else {
      NoGapAt(N, targets, tolerance, w, list);
    }
  }

  lemma GapHoldsFirst(N: nat -> nat, targets: seq<nat>, tolerance: nat, w: nat, v: nat)
    requires LeadingGap(N, targets, tolerance, w, v)
    ensures HoldsFirst(N, w, v)
  {
    var r :| 0 <= r < |targets| && Inside(N, targets[r], tolerance, Multiple(w, v), Multiple(w, v + 1));
  }

  lemma NoGapAt(N: nat -> nat, targets: seq<nat>, tolerance: nat, w: nat, list: seq<nat>)
    requires Complete(N, targets, tolerance, w, list) && forall j :: 0 <= j < |list| ==> !HoldsFirst(N, w, list[j])
    ensures !GapAt(N, targets, tolerance, w)
  {
    if v: nat :| LeadingGap(N, targets, tolerance, w, v) {
      GapHoldsFirst(N, targets, tolerance, w, v);
    }
  }

  /** One level done: its next list, sorted and without duplicates, is the list of the level below. */
  lemma NextState(N: nat -> nat, targets: seq<nat>, tolerance: nat, bsize: nat, depth: nat, level: nat,
      before: seq<nat>, borders: seq<nat>, list: seq<nat>, next: seq<nat>, indices: seq<nat>, sorted: seq<nat>)
    requires AtLevel(N, targets, tolerance, bsize, depth, level, before, list) && level < depth
    requires LevelDone(N, targets, before, borders, tolerance, Power(bsize, depth - level - 1), bsize, list, |list|, next, indices)
    requires sorted == Unique(next)
    ensures AtLevel(N, targets, tolerance, bsize, depth, level + 1, borders, sorted)
  {
    hide LevelInvariant, Complete, InGrid, Sound, MetOrInside, Multiple, HasInside, Progress, PairedLists, PartsListed, FirstState, Monotone,
      Sorted, Increasing, Unique, LeadingGapBefore, PartsAtEnd, AllAtEnd, AllBordersAre, AllPlaced, ListsRefined;
    var c := Power(bsize, depth - level - 1);
    assert Power(bsize, depth - level) == Multiple(c, bsize);
    NextLists(N, targets, tolerance, c, bsize, borders, list, next, indices, sorted, Power(bsize, level));
    NextAtEnd(N, targets, borders, tolerance, c, bsize, list);
    ListIsRefined(N, targets, tolerance, level, Power(bsize, depth - level), list);
    LevelPlaces(N, targets, tolerance, bsize, depth, level, list, before, borders);
    FirstBorderNext(N, targets, tolerance, bsize, depth, level, list, before[0], borders[0]);
  }

  lemma NextLists(N: nat -> nat, targets: seq<nat>, tolerance: nat, c: nat, bsize: nat, borders: seq<nat>, list: seq<nat>,
      next: seq<nat>, indices: seq<nat>, sorted: seq<nat>, n: nat)
    requires Monotone(N) && bsize > 0 && Complete(N, targets, tolerance, Multiple(c, bsize), list) && InGrid(list, n)
    requires Progress(N, targets, borders, tolerance, c, bsize, list, |list|, next) && Sound(N, targets, tolerance, c, next)
    requires PartsListed(N, targets, tolerance, c, bsize, list, |list|, next) && PairedLists(bsize, list, |list|, next, indices)
    requires sorted == Unique(next)
    ensures |borders| == |targets|
    ensures LevelInvariant(N, targets, borders, tolerance, c, sorted) && MetOrInside(N, targets, borders, tolerance, c, sorted)
    ensures Complete(N, targets, tolerance, c, sorted) && Sound(N, targets, tolerance, c, sorted) && InGrid(sorted, Multiple(n, bsize))
  {
    assert |borders| == |targets| && SeparatesAll(N, targets, borders, c, next) && Sorted(next) && Ordered(borders);
    UniqueMembers(next);
    UniqueIncreasing(next);
    hide Complete, InGrid, Sound, HasInside, PartsListed, PairedLists, Unique, SeparatesAll, Separates, Monotone, Ordered, Sorted,
      Multiple, Pending, Held, Near;
    NextIsComplete(N, targets, tolerance, c, bsize, list, next);
    SameMembers(N, targets, borders, tolerance, c, next, sorted);
    NextInGrid(bsize, list, next, indices, n, sorted);
    AllWaitOnNext(N, targets, borders, tolerance, c, bsize, list, next, sorted);
  }

  /** A finest bucket with the target strictly inside: it alone holds more than twice the tolerance. */
  ghost predicate OverfullFinest(N: nat -> nat, t: nat, tolerance: nat) {
    exists v: nat :: FinestInside(N, t, tolerance, v)
  }

  ghost predicate FinestInside(N: nat -> nat, t: nat, tolerance: nat, v: nat) {
    Inside(N, t, tolerance, v, v + 1)
  }

  /** What `clusterize` guarantees for the final borders. */
  ghost predicate Clustered(N: nat -> nat, targets: seq<nat>, tolerance: nat, bsize: nat, depth: nat, borders: seq<nat>) {
    && |borders| == |targets| > 0 && Ordered(borders) && borders[|borders| - 1] == Power(bsize, depth)
    && (borders[0] == 0 <==> !LeadingGapBefore(N, targets, tolerance, bsize, depth, depth))
    && (forall r :: 0 <= r < |targets| ==> (Near(N, targets[r], borders[r], tolerance) <==> !OverfullFinest(N, targets[r], tolerance)))
    && AllBordersAre(N, targets, tolerance, bsize, depth, depth, borders)
  }

  lemma {:induction false} OnesAreThemselves(v: nat)
    ensures Multiple(1, v) == v
  {
    if v > 0 {
      OnesAreThemselves(v - 1);
    }
  }

  lemma PendingIsFinest(N: nat -> nat, t: nat, tolerance: nat, list: seq<nat>)
    requires Pending(N, t, tolerance, 1, list, 0)
    ensures OverfullFinest(N, t, tolerance)
  {
    var j :| 0 <= j < |list| && Inside(N, t, tolerance, Multiple(1, list[j]), Multiple(1, list[j] + 1));
    OnesAreThemselves(list[j]);
    OnesAreThemselves(list[j] + 1);
    assert FinestInside(N, t, tolerance, list[j]);
  }

  /** Without overfull buckets on a level there are none below. */
  lemma NoneInside(N: nat -> nat, targets: seq<nat>, tolerance: nat, c: nat, bsize: nat)
    requires Monotone(N) && bsize > 0 && Complete(N, targets, tolerance, Multiple(c, bsize), [])
    ensures Complete(N, targets, tolerance, c, [])
  {
    hide HasInside, Monotone, Multiple;
    forall u: nat
      ensures !HasInside(N, targets, tolerance, c, u)
    {
      var v, i := PartOf(bsize, u);
      if HasInside(N, targets, tolerance, c, u) {
        ParentInside(N, targets, tolerance, c, bsize, v, i);
      }
    }
  }

  lemma {:induction false} NoGapBelow(N: nat -> nat, targets: seq<nat>, tolerance: nat, bsize: nat, depth: nat, level: nat, upto: nat)
    requires Monotone(N) && bsize > 0 && level <= upto <= depth
    requires Complete(N, targets, tolerance, Power(bsize, depth - level), [])
    ensures Complete(N, targets, tolerance, Power(bsize, depth - upto), [])
    ensures LeadingGapBefore(N, targets, tolerance, bsize, depth, upto) <==> LeadingGapBefore(N, targets, tolerance, bsize, depth, level)
    decreases upto
  {
    hide Complete, GapAt, Monotone;
    if level < upto {
      assert Power(bsize, depth - (upto - 1)) == Multiple(Power(bsize, depth - upto), bsize);
      NoGapBelow(N, targets, tolerance, bsize, depth, level, upto - 1);
      NoneInside(N, targets, tolerance, Power(bsize, depth - upto), bsize);
      NoGapAt(N, targets, tolerance, Power(bsize, depth - (upto - 1)), []);
    }
  }

  /** With nothing left to refine, the borders are where the deeper levels would leave them. */
  lemma {:induction false} BordersRest(N: nat -> nat, targets: seq<nat>, tolerance: nat, bsize: nat, depth: nat, level: nat, upto: nat,
      borders: seq<nat>)
    requires Monotone(N) && bsize > 0 && 0 < level <= upto <= depth && AllBordersAre(N, targets, tolerance, bsize, depth, level, borders)
    requires Complete(N, targets, tolerance, Power(bsize, depth - level), [])
    ensures AllBordersAre(N, targets, tolerance, bsize, depth, upto, borders)
    decreases upto
  {
    hide Complete, LeadingGapBefore, AllBordersAre, Monotone, Power;
    if level < upto {
      BordersRest(N, targets, tolerance, bsize, depth, level, upto - 1, borders);
      NoGapBelow(N, targets, tolerance, bsize, depth, level, upto - 1);
      NothingRefined(N, targets, tolerance, bsize, depth, upto - 1, borders);
    }
  }

  /** With its border at the end of an overfull finest bucket, a target is missed. */
  lemma OverfullMissed(N: nat -> nat, targets: seq<nat>, borders: seq<nat>, tolerance: nat, r: nat)
    requires |borders| == |targets| && r < |targets| && InsideAtEnd(N, targets, borders, tolerance, 1)
    requires OverfullFinest(N, targets[r], tolerance)
    ensures !Near(N, targets[r], borders[r], tolerance)
  {
    var v: nat :| FinestInside(N, targets[r], tolerance, v);
    OnesAreThemselves(v);
    OnesAreThemselves(v + 1);
    assert AllAtEnd(N, targets, borders, tolerance, 1, v);
    assert AtEnd(N, targets[r], borders[r], tolerance, 1, v);
  }

  /** With nothing left to refine on a level there are no overfull finest buckets. */
  lemma NoneFinest(N: nat -> nat, targets: seq<nat>, tolerance: nat, r: nat)
    requires r < |targets| && Complete(N, targets, tolerance, 1, [])
    ensures !OverfullFinest(N, targets[r], tolerance)
  {
    if v: nat :| FinestInside(N, targets[r], tolerance, v) {
      OnesAreThemselves(v);
      OnesAreThemselves(v + 1);
      assert HasInside(N, targets, tolerance, 1, v);
      assert false;
    }
  }

  /** The loops end on the finest level, or because nothing is left to refine. */
  lemma FinalState(N: nat -> nat, targets: seq<nat>, tolerance: nat, bsize: nat, depth: nat, level: nat, borders: seq<nat>, list: seq<nat>)
    requires AtLevel(N, targets, tolerance, bsize, depth, level, borders, list) && level > 0 && (level == depth || list == [])
    ensures Clustered(N, targets, tolerance, bsize, depth, borders)
  {
    hide Near, Inside, OverfullFinest, HasInside, AllBordersAre;
    if level < depth {
      NoGapBelow(N, targets, tolerance, bsize, depth, level, depth);
      BordersRest(N, targets, tolerance, bsize, depth, level, depth, borders);
    }
    forall r | 0 <= r < |targets|
      ensures Near(N, targets[r], borders[r], tolerance) <==> !OverfullFinest(N, targets[r], tolerance)
    {
      FinalBorder(N, targets, tolerance, bsize, depth, level, borders, list, r);
    }
  }

  lemma FinalBorder(N: nat -> nat, targets: seq<nat>, tolerance: nat, bsize: nat, depth: nat, level: nat, borders: seq<nat>,
      list: seq<nat>, r: nat)
    requires AtLevel(N, targets, tolerance, bsize, depth, level, borders, list) && level > 0 && (level == depth || list == [])
    requires level < depth ==> Complete(N, targets, tolerance, Power(bsize, 0), [])
    requires r < |targets|
    ensures |borders| == |targets| && (Near(N, targets[r], borders[r], tolerance) <==> !OverfullFinest(N, targets[r], tolerance))
  {
    hide Near, Inside, OverfullFinest, HasInside, LeadingGapBefore, Complete, Sound, AllBordersAre;
    assert Near(N, targets[r], borders[r], tolerance) || Pending(N, targets[r], tolerance, Power(bsize, depth - level), list, 0);
    if level < depth {
      NoneFinest(N, targets, tolerance, r);
    } else {
      if Pending(N, targets[r], tolerance, 1, list, 0) {
        PendingIsFinest(N, targets[r], tolerance, list);
      }
      if OverfullFinest(N, targets[r], tolerance) {
        OverfullMissed(N, targets, borders, tolerance, r);
      }
    }
  }

  /** A finest bucket that keeps a border from its target holds more than twice the tolerance. */
  lemma OverfullHolds(N: nat -> nat, t: nat, tolerance: nat)
    requires OverfullFinest(N, t, tolerance)
    ensures exists v: nat :: N(v) + 2 * tolerance < N(v + 1)
  {
    var v: nat :| FinestInside(N, t, tolerance, v);
    assert N(v) + 2 * tolerance < N(v + 1);
  }

  /** With no more than twice the tolerance in every finest bucket, all borders meet their targets. */
  lemma AllBordersMet(N: nat -> nat, targets: seq<nat>, tolerance: nat, bsize: nat, depth: nat, borders: seq<nat>)
    requires Clustered(N, targets, tolerance, bsize, depth, borders)
    requires forall v: nat :: N(v + 1) <= N(v) + 2 * tolerance
    ensures forall r :: 0 <= r < |targets| ==> Near(N, targets[r], borders[r], tolerance)
  {
    hide Near, OverfullFinest, AllBordersAre, LeadingGapBefore, Ordered;
    forall r | 0 <= r < |targets|
      ensures Near(N, targets[r], borders[r], tolerance)
    {
      if OverfullFinest(N, targets[r], tolerance) {
        OverfullHolds(N, targets[r], tolerance);
      }
    }
  }

  /** Ten elements, all of them in the last of `size` buckets. */
  ghost predicate AllLate(N: nat -> nat, size: nat) {
    forall x: nat :: N(x) == if x < size then 0 else 10
  }

  function LateTargets(): seq<nat> {
    [0, 5, 10]
  }

  /** On this input the first border leaves the begin of the curve, and the second one misses its target. */
  lemma LateBorders(N: nat -> nat, bsize: nat, depth: nat, borders: seq<nat>)
    requires bsize > 1 && depth > 1 && AllLate(N, Power(bsize, depth)) && Clustered(N, LateTargets(), 2, bsize, depth, borders)
    ensures |borders| == 3 && borders[0] > 0 && !Near(N, 5, borders[1], 2)
  {
    LateGap(N, bsize, depth);
    LateIsOverfull(N, Power(bsize, depth));
    PowerPositive(bsize, depth);
    hide LeadingGapBefore, Power, AllLate, Near, OverfullFinest;
    assert [0, 5, 10][1] == 5;
  }

  lemma LateIsOverfull(N: nat -> nat, size: nat)
    requires size > 0 && AllLate(N, size)
    ensures OverfullFinest(N, 5, 2)
  {
    assert FinestInside(N, 5, 2, size - 1);
  }

  lemma LateGap(N: nat -> nat, bsize: nat, depth: nat)
    requires bsize > 1 && depth > 1 && AllLate(N, Power(bsize, depth))
    ensures LeadingGapBefore(N, LateTargets(), 2, bsize, depth, depth)
  {
    var w := Power(bsize, depth - 1);
    PowerPositive(bsize, depth - 1);
    assert Multiple(w, bsize) == Power(bsize, depth) && Multiple(w, bsize) == Multiple(w, bsize - 1) + w;
    assert [0, 5, 10][1] == 5;
    assert Inside(N, [0, 5, 10][1], 2, Multiple(w, bsize - 1), Multiple(w, bsize - 1 + 1));
    assert LeadingGap(N, [0, 5, 10], 2, w, bsize - 1);
    GapOnLevel(N, [0, 5, 10], 2, bsize, depth, 2, depth);
  }

  lemma {:induction false} GapOnLevel(N: nat -> nat, targets: seq<nat>, tolerance: nat, bsize: nat, depth: nat, level: nat, upto: nat)
    requires 0 < level <= upto <= depth && GapAt(N, targets, tolerance, Power(bsize, depth - (level - 1)))
    ensures LeadingGapBefore(N, targets, tolerance, bsize, depth, upto)
    decreases upto
  {
    if level < upto {
      GapOnLevel(N, targets, tolerance, bsize, depth, level, upto - 1);
    }
  }
}
