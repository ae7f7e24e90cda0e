/** What one level of `clusterize` starts from, keeps, and hands to the next one. */
module ClusterLevels {
  import opened Basis
  import opened Esutils
  import opened BorderRefinement
  import opened RefinementLists
  import opened LevelCounts
  import opened BorderPlaces

  /** Targets from 0 to the total, and the counts at the cuts of the buckets on the list. */
  ghost predicate LevelInput(N: nat -> nat, targets: seq<nat>, tolerance: nat, c: nat, bsize: nat, list: seq<nat>, rc: seq<nat>) {
    c > 0 && bsize > 0 && Targets(N, targets) && FlatCounts(N, c, bsize, list, rc)
  }

  ghost predicate Targets(N: nat -> nat, targets: seq<nat>) {
    && Monotone(N) && Sorted(targets) && |targets| > 0 && targets[0] == 0
    && forall x: nat :: N(x) <= targets[|targets| - 1]
  }

  /** The border of target 0 follows the bucket with the first element, once that is cut. */
  ghost predicate FirstState(N: nat -> nat, w: nat, list: seq<nat>, b: nat, before: nat, now: nat)
    requires b <= |list|
  {
    && (forall j :: 0 <= j < b && HoldsFirst(N, w, list[j]) ==> now == Multiple(w, list[j]))
    && ((forall j :: 0 <= j < b ==> !HoldsFirst(N, w, list[j])) ==> now == before)
  }

  /** Part `u` and the position of its begin among the counts of the level. */
  ghost predicate IsPartIndex(bsize: nat, list: seq<nat>, b: nat, u: nat, index: nat)
    requires b <= |list|
  {
    exists j, i :: 0 <= j < b && 0 <= i < bsize && PartIndexAt(bsize, list, j, i, u, index)
  }

  ghost predicate PartIndexAt(bsize: nat, list: seq<nat>, j: nat, i: nat, u: nat, index: nat)
    requires j < |list|
  {
    u == Multiple(bsize, list[j]) + i && index == Multiple(bsize + 1, j) + i
  }

  /** The next list and the positions pushed with it. */
  ghost predicate PairedLists(bsize: nat, list: seq<nat>, b: nat, next: seq<nat>, indices: seq<nat>)
    requires b <= |list|
  {
    |next| == |indices| && SameSteps(next, indices) && forall e :: 0 <= e < |next| ==> IsPartIndex(bsize, list, b, next[e], indices[e])
  }

  /** The level after `b` buckets of its list. */
  ghost predicate LevelDone(N: nat -> nat, targets: seq<nat>, before: seq<nat>, borders: seq<nat>, tolerance: nat, c: nat, bsize: nat,
      list: seq<nat>, b: nat, next: seq<nat>, indices: seq<nat>) {
    && Increasing(list) && |before| == |targets| > 0 && Progress(N, targets, borders, tolerance, c, bsize, list, b, next)
    && Sound(N, targets, tolerance, c, next) && PartsListed(N, targets, tolerance, c, bsize, list, b, next)
    && FirstState(N, Multiple(c, bsize), list, b, before[0], borders[0]) && borders[|borders| - 1] == before[|before| - 1]
    && PairedLists(bsize, list, b, next, indices) && PartsAtEnd(N, targets, borders, tolerance, c, bsize, list, b)
    && AllPlaced(N, targets, tolerance, c, bsize, list, b, before, borders)
  }

  lemma LevelStart(N: nat -> nat, targets: seq<nat>, borders: seq<nat>, tolerance: nat, c: nat, bsize: nat, list: seq<nat>)
    requires LevelInvariant(N, targets, borders, tolerance, Multiple(c, bsize), list) && |targets| > 0
    ensures LevelDone(N, targets, borders, borders, tolerance, c, bsize, list, 0, [], [])
  {
    hide AllPlaced;
    NothingPlaced(N, targets, tolerance, c, bsize, list, borders);
    forall r | 0 <= r < |targets|
      ensures Waiting(N, targets[r], borders[r], tolerance, c, bsize, list, 0, [])
    {
    }
  }

  /** The row of the next bucket is as `RefineBucket` needs it. */
  lemma RowReady(N: nat -> nat, targets: seq<nat>, before: seq<nat>, borders: seq<nat>, tolerance: nat, c: nat, bsize: nat,
      list: seq<nat>, b: nat, rc: seq<nat>, next: seq<nat>, indices: seq<nat>)
    requires LevelInput(N, targets, tolerance, c, bsize, list, rc) && b < |list|
    requires LevelDone(N, targets, before, borders, tolerance, c, bsize, list, b, next, indices)
    ensures Sorted(targets) && |borders| == |targets| && Multiple(bsize + 1, b + 1) <= |rc|
    ensures bsize > 0 && CountsOf(N, c, Multiple(bsize, list[b]), Row(rc, bsize, b))
    ensures Row(rc, bsize, b)[0] <= Row(rc, bsize, b)[bsize]
  {
    assert RowCounts(N, c, bsize, list[b], rc, b);
    CutsMonotone(N, c, Multiple(bsize, list[b]), Row(rc, bsize, b), 0, bsize);
  }

  /** What `RefineBucket` did to the state. */
  ghost predicate Cut(N: nat -> nat, targets: seq<nat>, before: seq<nat>, borders: seq<nat>, after: seq<nat>, tolerance: nat, c: nat,
      bsize: nat, list: seq<nat>, b: nat, rc: seq<nat>, rbegin: nat, at: seq<nat>, next: seq<nat>, indices: seq<nat>) {
    && LevelInput(N, targets, tolerance, c, bsize, list, rc) && b < |list|
    && LevelDone(N, targets, before, borders, tolerance, c, bsize, list, b, next, indices)
    && Multiple(bsize + 1, b + 1) <= |rc| && var row := Row(rc, bsize, b);
    && rbegin == LowerBound(targets, row[0]) && rbegin + |at| == LowerBound(targets, row[bsize])
    && AllChosen(row, targets, tolerance, rbegin, at) && Moved(borders, after, c, Multiple(bsize, list[b]), rbegin, at)
  }

  lemma OwnSeparated(N: nat -> nat, targets: seq<nat>, borders: seq<nat>, c: nat, bsize: nat, list: seq<nat>, b: nat)
    requires |borders| == |targets| && SeparatesAll(N, targets, borders, Multiple(c, bsize), list) && b < |list|
    ensures Separates(N, targets, borders, Multiple(c, Multiple(bsize, list[b])), Multiple(c, Multiple(bsize, list[b]) + bsize))
  {
    PartsOfBucket(c, bsize, list[b]);
    assert Separates(N, targets, borders, Multiple(Multiple(c, bsize), list[b]), Multiple(Multiple(c, bsize), list[b] + 1));
  }

  lemma ProgressOwn(N: nat -> nat, targets: seq<nat>, borders: seq<nat>, tolerance: nat, c: nat, bsize: nat,
      list: seq<nat>, b: nat, next: seq<nat>)
    requires Progress(N, targets, borders, tolerance, c, bsize, list, b, next) && b < |list|
    ensures |borders| == |targets|
    ensures Separates(N, targets, borders, Multiple(c, Multiple(bsize, list[b])), Multiple(c, Multiple(bsize, list[b]) + bsize))
  {
    OwnSeparated(N, targets, borders, c, bsize, list, b);
  }

  lemma RowOf(N: nat -> nat, c: nat, bsize: nat, list: seq<nat>, b: nat, rc: seq<nat>)
    requires FlatCounts(N, c, bsize, list, rc) && b < |list|
    ensures Multiple(bsize + 1, b + 1) <= |rc| && CountsOf(N, c, Multiple(bsize, list[b]), Row(rc, bsize, b))
  {
    assert RowCounts(N, c, bsize, list[b], rc, b);
  }

  lemma CutIsBucketMoved(N: nat -> nat, targets: seq<nat>, before: seq<nat>, borders: seq<nat>, after: seq<nat>, tolerance: nat, c: nat,
      bsize: nat, list: seq<nat>, b: nat, rc: seq<nat>, rbegin: nat, at: seq<nat>, next: seq<nat>, indices: seq<nat>)
    requires Cut(N, targets, before, borders, after, tolerance, c, bsize, list, b, rc, rbegin, at, next, indices)
    ensures BucketMoved(N, targets, tolerance, borders, after, c, Multiple(bsize, list[b]), Row(rc, bsize, b), rbegin, at)
  {
    hide Monotone, Sorted, CountsOf, AllChosen, Separates, Multiple, Row, Sound, PartsListed, FirstState, PairedLists, Progress,
      FlatCounts, Increasing, LowerBound;
    ProgressOwn(N, targets, borders, tolerance, c, bsize, list, b, next);
    RowOf(N, c, bsize, list, b, rc);
    assert Multiple(bsize, list[b]) + |Row(rc, bsize, b)| - 1 == Multiple(bsize, list[b]) + bsize;
  }

  lemma CutIsCutOf(N: nat -> nat, targets: seq<nat>, before: seq<nat>, borders: seq<nat>, after: seq<nat>, tolerance: nat, c: nat,
      bsize: nat, list: seq<nat>, b: nat, rc: seq<nat>, rbegin: nat, at: seq<nat>, next: seq<nat>, indices: seq<nat>, pushed: seq<nat>)
    requires Cut(N, targets, before, borders, after, tolerance, c, bsize, list, b, rc, rbegin, at, next, indices)
    requires pushed == Pushed(Multiple(bsize, list[b]), Row(rc, bsize, b), targets, tolerance, rbegin, at)
    ensures CutOf(N, targets, tolerance, borders, after, c, bsize, list, b, Row(rc, bsize, b), rbegin, at, next, pushed)
  {
    CutIsBucketMoved(N, targets, before, borders, after, tolerance, c, bsize, list, b, rc, rbegin, at, next, indices);
    hide BucketMoved, Progress, AllChosen, Moved, Row, Sound, PartsListed, FirstState, PairedLists, FlatCounts, Multiple, Increasing;
  }

  lemma FirstNext(N: nat -> nat, w: nat, list: seq<nat>, b: nat, before: nat, now: nat, after: nat)
    requires Monotone(N) && b < |list| && FirstState(N, w, list, b, before, now)
    requires after == if HoldsFirst(N, w, list[b]) then Multiple(w, list[b]) else now
    ensures FirstState(N, w, list, b + 1, before, after)
  {
    forall j | 0 <= j < b + 1 && HoldsFirst(N, w, list[j])
      ensures after == Multiple(w, list[j])
    {
      if j < b && HoldsFirst(N, w, list[b]) {
        FirstIsUnique(N, w, list[j], list[b]);
      }
    }
  }

  /** What cutting bucket `v` does to the outer borders. */
  lemma OuterBorders(N: nat -> nat, targets: seq<nat>, tolerance: nat, borders: seq<nat>, after: seq<nat>, c: nat, bsize: nat, v: nat,
      rc: seq<nat>, rbegin: nat, at: seq<nat>)
    requires BucketMoved(N, targets, tolerance, borders, after, c, Multiple(bsize, v), rc, rbegin, at)
    requires Targets(N, targets) && |rc| == bsize + 1
    ensures |borders| == |after| == |targets|
    ensures after[0] == if HoldsFirst(N, Multiple(c, bsize), v) then Multiple(Multiple(c, bsize), v) else borders[0]
    ensures after[|after| - 1] == borders[|borders| - 1]
  {
    assert |borders| == |after| == |targets|;
    PartsOfBucket(c, bsize, v);
    assert Multiple(bsize, v) + |rc| - 1 == Multiple(bsize, v) + bsize;
    hide BucketMoved, Multiple;
    FirstBorderMoved(N, targets, tolerance, borders, after, c, Multiple(bsize, v), rc, rbegin, at);
    LastBorderStays(N, targets, tolerance, borders, after, c, Multiple(bsize, v), rc, rbegin, at);
  }

  lemma CutFirst(N: nat -> nat, targets: seq<nat>, before: seq<nat>, borders: seq<nat>, after: seq<nat>, tolerance: nat, c: nat,
      bsize: nat, list: seq<nat>, b: nat, rc: seq<nat>, rbegin: nat, at: seq<nat>, next: seq<nat>, indices: seq<nat>)
    requires Cut(N, targets, before, borders, after, tolerance, c, bsize, list, b, rc, rbegin, at, next, indices)
    requires BucketMoved(N, targets, tolerance, borders, after, c, Multiple(bsize, list[b]), Row(rc, bsize, b), rbegin, at)
    ensures |after| == |targets| == |before| > 0
    ensures FirstState(N, Multiple(c, bsize), list, b + 1, before[0], after[0])
    ensures after[|after| - 1] == before[|before| - 1]
  {
    hide CountsOf, AllChosen, Moved, SeparatesAll, Sound, PartsListed, PairedLists, FlatCounts, Multiple, LowerBound, Row, BucketMoved,
      FirstState, HoldsFirst, Increasing, Sorted;
    OuterBorders(N, targets, tolerance, borders, after, c, bsize, list[b], Row(rc, bsize, b), rbegin, at);
    FirstNext(N, Multiple(c, bsize), list, b, before[0], borders[0], after[0]);
  }

  /** Pushing one more part keeps the lists aligned. */
  lemma SameStepsNext(a: seq<nat>, b: seq<nat>, x: nat, y: nat)
    requires SameSteps(a, b) && (a != [] ==> (a[|a| - 1] == x <==> b[|b| - 1] == y))
    ensures SameSteps(a + [x], b + [y])
  {
    assert (a + [x])[..|a|] == a && (b + [y])[..|b|] == b;
  }

  /** Both lists get the same cuts, shifted by the begin of the bucket and of its counts. */
  ghost predicate Shifted(a: seq<nat>, b: seq<nat>, first: nat, boffset: nat, bound: int) {
    |a| == |b| && forall e :: 0 <= e < |a| ==> first <= a[e] < first + bound && a[e] - first == b[e] - boffset
  }

  lemma NothingAligned(next: seq<nat>, indices: seq<nat>, first: nat, boffset: nat, bound: int)
    requires SameSteps(next, indices)
    ensures SameSteps(next + [], indices + []) && Shifted([], [], first, boffset, bound)
  {
    assert next + [] == next && indices + [] == indices;
  }

  lemma ShiftedNext(a: seq<nat>, b: seq<nat>, first: nat, boffset: nat, bound: int, i: nat)
    requires Shifted(a, b, first, boffset, bound) && i < bound
    ensures |a| == |b| && Shifted(a + [first + i], b + [boffset + i], first, boffset, bound)
  {
  }

  lemma AlignedNext(next: seq<nat>, indices: seq<nat>, a: seq<nat>, b: seq<nat>, first: nat, boffset: nat, bound: int, i: nat)
    requires SameSteps(next + a, indices + b) && |next| == |indices| && Shifted(a, b, first, boffset, bound) && i < bound
    requires next != [] ==> next[|next| - 1] < first && indices[|indices| - 1] < boffset
    ensures SameSteps(next + (a + [first + i]), indices + (b + [boffset + i]))
    ensures Shifted(a + [first + i], b + [boffset + i], first, boffset, bound)
  {
    hide SameSteps, Shifted;
    AlignedLast(next, indices, a, b, first, boffset, bound, i);
    ShiftedNext(a, b, first, boffset, bound, i);
    SameStepsNext(next + a, indices + b, first + i, boffset + i);
    ConcatAssociative(next, a, [first + i]);
    ConcatAssociative(indices, b, [boffset + i]);
  }

  lemma ChosenInit(rc: seq<nat>, targets: seq<nat>, tolerance: nat, rbegin: nat, at: seq<nat>)
    requires AllChosen(rc, targets, tolerance, rbegin, at) && at != []
    ensures AllChosen(rc, targets, tolerance, rbegin, at[..|at| - 1])
    ensures rbegin + |at| <= |targets| && at[|at| - 1] < |rc|
  {
    assert Chosen(rc, targets[rbegin + (|at| - 1)], tolerance, at[|at| - 1]);
  }

  lemma {:induction false} PushedAligned(next: seq<nat>, indices: seq<nat>, first: nat, boffset: nat, rc: seq<nat>, targets: seq<nat>,
      tolerance: nat, rbegin: nat, at: seq<nat>)
    requires AllChosen(rc, targets, tolerance, rbegin, at) && rbegin + |at| <= |targets| && SameSteps(next, indices) && |next| == |indices|
    requires next != [] ==> next[|next| - 1] < first && indices[|indices| - 1] < boffset
    ensures var a, b := Pushed(first, rc, targets, tolerance, rbegin, at), Pushed(boffset, rc, targets, tolerance, rbegin, at);
      Shifted(a, b, first, boffset, |rc| - 1) && SameSteps(next + a, indices + b)
    decreases |at|
  {
    hide Shifted, SameSteps, AllChosen, Overshoots, Pushed;
    if at == [] {
      NothingPushed(first, rc, targets, tolerance, rbegin);
      NothingPushed(boffset, rc, targets, tolerance, rbegin);
      NothingAligned(next, indices, first, boffset, |rc| - 1);
    } else {
      var l := |at| - 1;
      var a, b := Pushed(first, rc, targets, tolerance, rbegin, at[..l]), Pushed(boffset, rc, targets, tolerance, rbegin, at[..l]);
      ChosenInit(rc, targets, tolerance, rbegin, at);
      PushedAligned(next, indices, first, boffset, rc, targets, tolerance, rbegin, at[..l]);
      PushedLast(first, rc, targets, tolerance, rbegin, at);
      PushedLast(boffset, rc, targets, tolerance, rbegin, at);
      if Overshoots(rc, targets[rbegin + l], tolerance, at[l]) && at[l] > 0 {
        AlignedNext(next, indices, a, b, first, boffset, |rc| - 1, at[l] - 1);
      }
    }
  }

  lemma NothingPushed(first: nat, rc: seq<nat>, targets: seq<nat>, tolerance: nat, rbegin: nat)
    requires rbegin <= |targets|
    ensures Pushed(first, rc, targets, tolerance, rbegin, []) == []
  {
  }

  lemma PushedLast(first: nat, rc: seq<nat>, targets: seq<nat>, tolerance: nat, rbegin: nat, at: seq<nat>)
    requires at != [] && rbegin + |at| <= |targets|
    ensures var l := |at| - 1; var before := Pushed(first, rc, targets, tolerance, rbegin, at[..l]);
      Pushed(first, rc, targets, tolerance, rbegin, at) ==
        if Overshoots(rc, targets[rbegin + l], tolerance, at[l]) && at[l] > 0 then before + [first + (at[l] - 1)] else before
  {
  }

  lemma AlignedLast(next: seq<nat>, indices: seq<nat>, a: seq<nat>, b: seq<nat>, first: nat, boffset: nat, bound: int, i: nat)
    requires |next| == |indices| && Shifted(a, b, first, boffset, bound)
    requires next != [] ==> next[|next| - 1] < first && indices[|indices| - 1] < boffset
    ensures next + a != [] ==> ((next + a)[|next + a| - 1] == first + i <==> (indices + b)[|indices + b| - 1] == boffset + i)
  {
  }

  lemma CutPairs(N: nat -> nat, targets: seq<nat>, before: seq<nat>, borders: seq<nat>, after: seq<nat>, tolerance: nat, c: nat,
      bsize: nat, list: seq<nat>, b: nat, rc: seq<nat>, rbegin: nat, at: seq<nat>, next: seq<nat>, indices: seq<nat>, pushed: seq<nat>, positions: seq<nat>)
    requires Cut(N, targets, before, borders, after, tolerance, c, bsize, list, b, rc, rbegin, at, next, indices)
    requires pushed == Pushed(Multiple(bsize, list[b]), Row(rc, bsize, b), targets, tolerance, rbegin, at)
    requires positions == Pushed(Multiple(bsize + 1, b), Row(rc, bsize, b), targets, tolerance, rbegin, at)
    ensures PairedLists(bsize, list, b + 1, next + pushed, indices + positions)
  {
    hide LevelInput, Progress, Sound, PartsListed, FirstState, SameSteps, Moved, Row, AllChosen, Multiple, LowerBound, Increasing;
    var first, boffset := Multiple(bsize, list[b]), Multiple(bsize + 1, b);
    assert |next| == |indices|;
    PairsBelow(bsize, list, b, next, indices);
    PushedAligned(next, indices, first, boffset, Row(rc, bsize, b), targets, tolerance, rbegin, at);
    PairedMore(bsize, list, b, next, indices, pushed, positions);
  }

  lemma PairedMore(bsize: nat, list: seq<nat>, b: nat, next: seq<nat>, indices: seq<nat>, pushed: seq<nat>, positions: seq<nat>)
    requires b < |list| && PairedLists(bsize, list, b, next, indices) && |next| == |indices|
    requires Shifted(pushed, positions, Multiple(bsize, list[b]), Multiple(bsize + 1, b), bsize)
    requires SameSteps(next + pushed, indices + positions)
    ensures PairedLists(bsize, list, b + 1, next + pushed, indices + positions)
  {
    hide SameSteps, Multiple;
    var first := Multiple(bsize, list[b]);
    forall e | 0 <= e < |next + pushed|
      ensures IsPartIndex(bsize, list, b + 1, (next + pushed)[e], (indices + positions)[e])
    {
      if e < |next| {
        assert IsPartIndex(bsize, list, b, next[e], indices[e]);
      } else {
        assert PartIndexAt(bsize, list, b, pushed[e - |next|] - first, pushed[e - |next|], positions[e - |next|]);
      }
    }
  }

  /** Parts listed so far and their positions lie below those of the next bucket. */
  lemma PairsBelow(bsize: nat, list: seq<nat>, b: nat, next: seq<nat>, indices: seq<nat>)
    requires Increasing(list) && b < |list| && PairedLists(bsize, list, b, next, indices) && |next| == |indices|
    ensures next != [] ==> next[|next| - 1] < Multiple(bsize, list[b]) && indices[|indices| - 1] < Multiple(bsize + 1, b)
  {
    hide SameSteps, Multiple, PartIndexAt;
    if next != [] {
      var u, index := next[|next| - 1], indices[|indices| - 1];
      assert IsPartIndex(bsize, list, b, u, index);
      var j, i :| 0 <= j < b && 0 <= i < bsize && PartIndexAt(bsize, list, j, i, u, index);
      PartBelow(bsize, list, b, j, i, u, index);
    }
  }

  lemma PartBelow(bsize: nat, list: seq<nat>, b: nat, j: nat, i: nat, u: nat, index: nat)
    requires Increasing(list) && j < b < |list| && i < bsize && PartIndexAt(bsize, list, j, i, u, index)
    ensures u < Multiple(bsize, list[b]) && index < Multiple(bsize + 1, b)
  {
    hide Multiple;
    MultipleMonotone(bsize, list[j] + 1, list[b]);
    MultipleMonotone(bsize + 1, j + 1, b);
    NextMultiple(bsize, list[j]);
    NextMultiple(bsize + 1, j);
  }

  lemma NextMultiple(step: nat, count: nat)
    ensures Multiple(step, count + 1) == Multiple(step, count) + step
  {
  }

  lemma CutPlacesAll(N: nat -> nat, targets: seq<nat>, before: seq<nat>, borders: seq<nat>, after: seq<nat>, tolerance: nat, c: nat,
      bsize: nat, list: seq<nat>, b: nat, rc: seq<nat>, rbegin: nat, at: seq<nat>, next: seq<nat>, indices: seq<nat>)
    requires Cut(N, targets, before, borders, after, tolerance, c, bsize, list, b, rc, rbegin, at, next, indices)
    ensures AllPlaced(N, targets, tolerance, c, bsize, list, b + 1, before, after)
  {
    hide AllPlaced, BucketMoved, CountsOf, AllChosen, Separates, Multiple, Sound, PartsListed, FirstState, PairedLists, Progress,
      FlatCounts, Increasing, LowerBound, PartsAtEnd, Monotone, Sorted;
    CutIsBucketMoved(N, targets, before, borders, after, tolerance, c, bsize, list, b, rc, rbegin, at, next, indices);
    MovedLengths(N, targets, tolerance, borders, after, c, Multiple(bsize, list[b]), Row(rc, bsize, b), rbegin, at);
    assert Monotone(N) && |Row(rc, bsize, b)| == bsize + 1;
    StepPlaces(N, targets, tolerance, c, bsize, list, b, before, borders, after, Row(rc, bsize, b), rbegin, at);
  }

  /** `RefineBucket` takes the level one bucket further. */
  lemma LevelStep(N: nat -> nat, targets: seq<nat>, before: seq<nat>, borders: seq<nat>, after: seq<nat>, tolerance: nat, c: nat,
      bsize: nat, list: seq<nat>, b: nat, rc: seq<nat>, rbegin: nat, at: seq<nat>, next: seq<nat>, indices: seq<nat>, pushed: seq<nat>, positions: seq<nat>)
    requires Cut(N, targets, before, borders, after, tolerance, c, bsize, list, b, rc, rbegin, at, next, indices)
    requires pushed == Pushed(Multiple(bsize, list[b]), Row(rc, bsize, b), targets, tolerance, rbegin, at)
    requires positions == Pushed(Multiple(bsize + 1, b), Row(rc, bsize, b), targets, tolerance, rbegin, at)
    ensures LevelDone(N, targets, before, after, tolerance, c, bsize, list, b + 1, next + pushed, indices + positions)
  {
    CutIsCutOf(N, targets, before, borders, after, tolerance, c, bsize, list, b, rc, rbegin, at, next, indices, pushed);
    CutPairs(N, targets, before, borders, after, tolerance, c, bsize, list, b, rc, rbegin, at, next, indices, pushed, positions);
    CutFirst(N, targets, before, borders, after, tolerance, c, bsize, list, b, rc, rbegin, at, next, indices);
    CutPlacesAll(N, targets, before, borders, after, tolerance, c, bsize, list, b, rc, rbegin, at, next, indices);
    hide Cut, Pushed, AllChosen, Moved, Row, CutOf, PartsAtEnd, AllPlaced;
    StepProgress(N, targets, tolerance, borders, after, c, bsize, list, b, Row(rc, bsize, b), rbegin, at, next, pushed);
    StepLists(N, targets, tolerance, borders, after, c, bsize, list, b, Row(rc, bsize, b), rbegin, at, next, pushed);
    StepEnds(N, targets, tolerance, borders, after, c, bsize, list, b, Row(rc, bsize, b), rbegin, at, next, pushed);
  }
}
