/**
 * Where `clusterize` leaves each border, told by the counts alone: at the first cut with enough
 * elements before it in the deepest refined bucket that holds the target.
 */
module BorderPlaces {
  import opened Basis
  import opened BorderRefinement
  import opened LevelCounts
  import opened RefinementLists

  /** As many elements before position `x` as the target asks for, or too few by less than the tolerance. */
  ghost predicate Enough(N: nat -> nat, t: nat, tolerance: nat, x: nat) {
    N(x) >= t || t - N(x) < tolerance
  }

  ghost predicate HeldIn(N: nat -> nat, t: nat, w: nat, v: nat) {
    N(Multiple(w, v)) <= t < N(Multiple(w, v + 1))
  }

  /** Position `x` is the first of the cuts of bucket `v` with enough elements before it. */
  ghost predicate FirstCut(N: nat -> nat, t: nat, tolerance: nat, c: nat, bsize: nat, v: nat, x: nat) {
    exists i :: 0 <= i <= bsize && CutAt(N, t, tolerance, c, Multiple(bsize, v), i, x)
  }

  ghost predicate CutAt(N: nat -> nat, t: nat, tolerance: nat, c: nat, first: nat, i: nat, x: nat) {
    && x == Multiple(c, first + i) && Enough(N, t, tolerance, x)
    && forall k :: 0 <= k < i ==> TooFew(N, t, tolerance, c, first, k)
  }

  ghost predicate TooFew(N: nat -> nat, t: nat, tolerance: nat, c: nat, first: nat, k: nat) {
    !Enough(N, t, tolerance, Multiple(c, first + k))
  }

  /** The border of one target after `b` buckets of the list: moved by the bucket that holds the target, if any. */
  ghost predicate PlacedBy(N: nat -> nat, t: nat, tolerance: nat, c: nat, bsize: nat, list: seq<nat>, b: nat, before: nat, after: nat)
    requires b <= |list|
  {
    && (forall j :: 0 <= j < b && HeldIn(N, t, Multiple(c, bsize), list[j]) ==> FirstCut(N, t, tolerance, c, bsize, list[j], after))
    && ((forall j :: 0 <= j < b ==> !HeldIn(N, t, Multiple(c, bsize), list[j])) ==> after == before)
  }

  ghost predicate AllPlaced(N: nat -> nat, targets: seq<nat>, tolerance: nat, c: nat, bsize: nat, list: seq<nat>, b: nat,
      before: seq<nat>, after: seq<nat>) {
    && b <= |list| && |before| == |after| == |targets|
    && forall r :: 0 <= r < |targets| ==> PlacedBy(N, targets[r], tolerance, c, bsize, list, b, before[r], after[r])
  }

  lemma NothingPlaced(N: nat -> nat, targets: seq<nat>, tolerance: nat, c: nat, bsize: nat, list: seq<nat>, borders: seq<nat>)
    requires |borders| == |targets|
    ensures AllPlaced(N, targets, tolerance, c, bsize, list, 0, borders, borders)
  {
    hide HeldIn, FirstCut;
  }

  lemma HeldOnce(N: nat -> nat, t: nat, w: nat, v: nat, u: nat)
    requires Monotone(N) && HeldIn(N, t, w, v) && HeldIn(N, t, w, u)
    ensures v == u
  {
    if v < u {
      MultipleMonotone(w, v + 1, u);
    } else if u < v {
      MultipleMonotone(w, u + 1, v);
    }
  }

  /** The cut chosen by the counts of a bucket is its first one with enough elements before it. */
  lemma ChosenIsFirst(N: nat -> nat, t: nat, tolerance: nat, c: nat, bsize: nat, v: nat, rc: seq<nat>, i: nat)
    requires CountsOf(N, c, Multiple(bsize, v), rc) && |rc| == bsize + 1 && Chosen(rc, t, tolerance, i)
    ensures FirstCut(N, t, tolerance, c, bsize, v, Multiple(c, Multiple(bsize, v) + i))
  {
    hide Multiple;
    var first := Multiple(bsize, v);
    assert i <= bsize && rc[i] == N(Multiple(c, first + i));
    forall k | 0 <= k < i
      ensures TooFew(N, t, tolerance, c, first, k)
    {
      assert rc[k] == N(Multiple(c, first + k));
    }
    assert CutAt(N, t, tolerance, c, first, i, Multiple(c, first + i));
  }

  /** What cutting bucket `v` does to one border. */
  lemma CutPlaces(N: nat -> nat, targets: seq<nat>, tolerance: nat, borders: seq<nat>, after: seq<nat>, c: nat, bsize: nat, v: nat,
      rc: seq<nat>, rbegin: nat, at: seq<nat>, r: nat)
    requires BucketMoved(N, targets, tolerance, borders, after, c, Multiple(bsize, v), rc, rbegin, at)
    requires |rc| == bsize + 1 && r < |targets|
    ensures |borders| == |after| == |targets|
    ensures HeldIn(N, targets[r], Multiple(c, bsize), v) ==> FirstCut(N, targets[r], tolerance, c, bsize, v, after[r])
    ensures !HeldIn(N, targets[r], Multiple(c, bsize), v) ==> after[r] == borders[r]
  {
    hide FirstCut, Multiple, BucketMoved;
    MovedLengths(N, targets, tolerance, borders, after, c, Multiple(bsize, v), rc, rbegin, at);
    PartsOfBucket(c, bsize, v);
    BorderPlace(N, targets, tolerance, borders, after, c, Multiple(bsize, v), rc, rbegin, at, r);
    assert Multiple(bsize, v) + |rc| - 1 == Multiple(bsize, v) + bsize;
    if rbegin <= r < rbegin + |at| {
      MovedChosen(N, targets, tolerance, borders, after, c, Multiple(bsize, v), rc, rbegin, at, r - rbegin);
      ChosenIsFirst(N, targets[r], tolerance, c, bsize, v, rc, at[r - rbegin]);
    }
  }

  lemma MovedLengths(N: nat -> nat, targets: seq<nat>, tolerance: nat, borders: seq<nat>, after: seq<nat>, c: nat, first: nat,
      rc: seq<nat>, rbegin: nat, at: seq<nat>)
    requires BucketMoved(N, targets, tolerance, borders, after, c, first, rc, rbegin, at)
    ensures |borders| == |after| == |targets| && CountsOf(N, c, first, rc)
  {
  }

  lemma MovedChosen(N: nat -> nat, targets: seq<nat>, tolerance: nat, borders: seq<nat>, after: seq<nat>, c: nat, first: nat,
      rc: seq<nat>, rbegin: nat, at: seq<nat>, k: nat)
    requires BucketMoved(N, targets, tolerance, borders, after, c, first, rc, rbegin, at) && k < |at|
    ensures rbegin + k < |targets| && Chosen(rc, targets[rbegin + k], tolerance, at[k])
  {
  }

  lemma PlacedNext(N: nat -> nat, t: nat, tolerance: nat, c: nat, bsize: nat, list: seq<nat>, b: nat, before: nat, now: nat, after: nat)
    requires Monotone(N) && b < |list| && PlacedBy(N, t, tolerance, c, bsize, list, b, before, now)
    requires HeldIn(N, t, Multiple(c, bsize), list[b]) ==> FirstCut(N, t, tolerance, c, bsize, list[b], after)
    requires !HeldIn(N, t, Multiple(c, bsize), list[b]) ==> after == now
    ensures PlacedBy(N, t, tolerance, c, bsize, list, b + 1, before, after)
  {
    hide HeldIn, FirstCut, Multiple, Monotone;
    var w := Multiple(c, bsize);
    forall j | 0 <= j < b + 1 && HeldIn(N, t, w, list[j])
      ensures FirstCut(N, t, tolerance, c, bsize, list[j], after)
    {
      if j < b && HeldIn(N, t, w, list[b]) {
        HeldOnce(N, t, w, list[j], list[b]);
      }
    }
  }

  /** Cutting bucket number `b` of the list places its borders. */
  lemma StepPlaces(N: nat -> nat, targets: seq<nat>, tolerance: nat, c: nat, bsize: nat, list: seq<nat>, b: nat,
      before: seq<nat>, borders: seq<nat>, after: seq<nat>, rc: seq<nat>, rbegin: nat, at: seq<nat>)
    requires b < |list| && Monotone(N) && |rc| == bsize + 1
    requires AllPlaced(N, targets, tolerance, c, bsize, list, b, before, borders) && |after| == |targets|
    requires BucketMoved(N, targets, tolerance, borders, after, c, Multiple(bsize, list[b]), rc, rbegin, at)
    ensures AllPlaced(N, targets, tolerance, c, bsize, list, b + 1, before, after)
  {
    hide HeldIn, FirstCut, Multiple, Monotone, BucketMoved, PlacedBy;
    forall r | 0 <= r < |targets|
      ensures PlacedBy(N, targets[r], tolerance, c, bsize, list, b + 1, before[r], after[r])
    {
      CutPlaces(N, targets, tolerance, borders, after, c, bsize, list[b], rc, rbegin, at, r);
      PlacedNext(N, targets[r], tolerance, c, bsize, list, b, before[r], borders[r], after[r]);
    }
  }

  /** The buckets of a level that are refined: all of the curve at first, then the overfull ones. */
  ghost predicate Refined(N: nat -> nat, targets: seq<nat>, tolerance: nat, level: nat, w: nat, v: nat) {
    if level == 0 then v == 0 else HasInside(N, targets, tolerance, w, v)
  }

  ghost predicate HeldRefined(N: nat -> nat, targets: seq<nat>, tolerance: nat, level: nat, w: nat, r: nat, v: nat)
    requires r < |targets|
  {
    HeldIn(N, targets[r], w, v) && Refined(N, targets, tolerance, level, w, v)
  }

  /**
   * Where border `r` is once the first `upto` levels are refined: the first cut with enough
   * elements before it in the deepest refined bucket that holds its target, and where it was at
   * first when there is none.
   */
  ghost predicate BorderIs(N: nat -> nat, targets: seq<nat>, tolerance: nat, bsize: nat, depth: nat, upto: nat, r: nat, x: nat)
    requires upto <= depth && r < |targets|
    decreases upto
  {
    if upto == 0 then x == if r == 0 then 0 else Power(bsize, depth) else
      var level := upto - 1;
      var w := Power(bsize, depth - level);
      && (forall v: nat :: HeldRefined(N, targets, tolerance, level, w, r, v) ==>
        FirstCut(N, targets[r], tolerance, Power(bsize, depth - upto), bsize, v, x))
      && ((forall v: nat :: !HeldRefined(N, targets, tolerance, level, w, r, v)) ==>
        BorderIs(N, targets, tolerance, bsize, depth, level, r, x))
  }

  ghost predicate AllBordersAre(N: nat -> nat, targets: seq<nat>, tolerance: nat, bsize: nat, depth: nat, upto: nat, borders: seq<nat>) {
    upto <= depth && |borders| == |targets| &&
    forall r :: 0 <= r < |targets| ==> BorderIs(N, targets, tolerance, bsize, depth, upto, r, borders[r])
  }

  /** There is one first cut only. */
  lemma OneFirstCut(N: nat -> nat, t: nat, tolerance: nat, c: nat, bsize: nat, v: nat, x: nat, y: nat)
    requires FirstCut(N, t, tolerance, c, bsize, v, x) && FirstCut(N, t, tolerance, c, bsize, v, y)
    ensures x == y
  {
    hide CutAt;
    var first := Multiple(bsize, v);
    var i :| 0 <= i <= bsize && CutAt(N, t, tolerance, c, first, i, x);
    var j :| 0 <= j <= bsize && CutAt(N, t, tolerance, c, first, j, y);
    FirstIsLeast(N, t, tolerance, c, first, i, x, j, y);
    FirstIsLeast(N, t, tolerance, c, first, j, y, i, x);
    CutIs(N, t, tolerance, c, first, i, x);
    CutIs(N, t, tolerance, c, first, j, y);
  }

  lemma CutIs(N: nat -> nat, t: nat, tolerance: nat, c: nat, first: nat, i: nat, x: nat)
    requires CutAt(N, t, tolerance, c, first, i, x)
    ensures x == Multiple(c, first + i)
  {
  }

  lemma FirstIsLeast(N: nat -> nat, t: nat, tolerance: nat, c: nat, first: nat, i: nat, x: nat, j: nat, y: nat)
    requires CutAt(N, t, tolerance, c, first, i, x) && CutAt(N, t, tolerance, c, first, j, y)
    ensures i <= j
  {
    hide CutAt;
    CutHasEnough(N, t, tolerance, c, first, j, y);
    if j < i {
      TooFewBelow(N, t, tolerance, c, first, i, x, j);
    }
  }

  lemma CutHasEnough(N: nat -> nat, t: nat, tolerance: nat, c: nat, first: nat, i: nat, x: nat)
    requires CutAt(N, t, tolerance, c, first, i, x)
    ensures !TooFew(N, t, tolerance, c, first, i)
  {
  }

  lemma TooFewBelow(N: nat -> nat, t: nat, tolerance: nat, c: nat, first: nat, i: nat, x: nat, k: nat)
    requires CutAt(N, t, tolerance, c, first, i, x) && k < i
    ensures TooFew(N, t, tolerance, c, first, k)
  {
  }

  /** The counts determine every border. */
  lemma {:induction false} BorderIsUnique(N: nat -> nat, targets: seq<nat>, tolerance: nat, bsize: nat, depth: nat, upto: nat, r: nat,
      x: nat, y: nat)
    requires upto <= depth && r < |targets|
    requires BorderIs(N, targets, tolerance, bsize, depth, upto, r, x) && BorderIs(N, targets, tolerance, bsize, depth, upto, r, y)
    ensures x == y
    decreases upto
  {
    hide HeldRefined, FirstCut, Power;
    if upto > 0 {
      var level := upto - 1;
      var w := Power(bsize, depth - level);
      if v: nat :| HeldRefined(N, targets, tolerance, level, w, r, v) {
        OneFirstCut(N, targets[r], tolerance, Power(bsize, depth - upto), bsize, v, x, y);
      } else {
        BorderIsUnique(N, targets, tolerance, bsize, depth, level, r, x, y);
      }
    }
  }

  /** The list of a level names its refined buckets. */
  ghost predicate ListsRefined(N: nat -> nat, targets: seq<nat>, tolerance: nat, level: nat, w: nat, list: seq<nat>) {
    forall v: nat :: v in list <==> Refined(N, targets, tolerance, level, w, v)
  }

  lemma ListIsRefined(N: nat -> nat, targets: seq<nat>, tolerance: nat, level: nat, w: nat, list: seq<nat>)
    requires level == 0 ==> list == [0]
    requires level > 0 ==> Complete(N, targets, tolerance, w, list) && Sound(N, targets, tolerance, w, list)
    ensures ListsRefined(N, targets, tolerance, level, w, list)
  {
    hide HasInside;
  }

  /** One level moves every border to where it is after that level. */
  lemma LevelPlaces(N: nat -> nat, targets: seq<nat>, tolerance: nat, bsize: nat, depth: nat, level: nat, list: seq<nat>,
      before: seq<nat>, after: seq<nat>)
    requires level < depth && ListsRefined(N, targets, tolerance, level, Power(bsize, depth - level), list)
    requires AllPlaced(N, targets, tolerance, Power(bsize, depth - (level + 1)), bsize, list, |list|, before, after)
    requires AllBordersAre(N, targets, tolerance, bsize, depth, level, before)
    ensures AllBordersAre(N, targets, tolerance, bsize, depth, level + 1, after)
  {
    hide Refined, HeldIn, FirstCut, PlacedBy, Power;
    forall r | 0 <= r < |targets|
      ensures BorderIs(N, targets, tolerance, bsize, depth, level + 1, r, after[r])
    {
      assert Power(bsize, depth - level) == Multiple(Power(bsize, depth - (level + 1)), bsize) by {
        PowerNext(bsize, depth - (level + 1));
      }
      BorderPlaced(N, targets, tolerance, bsize, depth, level, list, before[r], after[r], r);
    }
  }

  lemma PowerNext(bsize: nat, e: nat)
    ensures Power(bsize, e + 1) == Multiple(Power(bsize, e), bsize)
  {
  }

  lemma BorderPlaced(N: nat -> nat, targets: seq<nat>, tolerance: nat, bsize: nat, depth: nat, level: nat, list: seq<nat>,
      before: nat, after: nat, r: nat)
    requires level < depth && r < |targets| && ListsRefined(N, targets, tolerance, level, Power(bsize, depth - level), list)
    requires Power(bsize, depth - level) == Multiple(Power(bsize, depth - (level + 1)), bsize)
    requires PlacedBy(N, targets[r], tolerance, Power(bsize, depth - (level + 1)), bsize, list, |list|, before, after)
    requires BorderIs(N, targets, tolerance, bsize, depth, level, r, before)
    ensures BorderIs(N, targets, tolerance, bsize, depth, level + 1, r, after)
  {
    hide Refined, HeldIn, FirstCut, Power, Multiple;
    var w := Power(bsize, depth - level);
    forall v: nat | HeldRefined(N, targets, tolerance, level, w, r, v)
      ensures FirstCut(N, targets[r], tolerance, Power(bsize, depth - (level + 1)), bsize, v, after)
    {
      assert v in list;
      var j :| 0 <= j < |list| && list[j] == v;
      assert HeldIn(N, targets[r], w, list[j]);
    }
    if forall v: nat :: !HeldRefined(N, targets, tolerance, level, w, r, v) {
      forall j | 0 <= j < |list|
        ensures !HeldIn(N, targets[r], w, list[j])
      {
        assert list[j] in list && !HeldRefined(N, targets, tolerance, level, w, r, list[j]);
      }
    }
  }

  lemma NoneHeld(N: nat -> nat, targets: seq<nat>, tolerance: nat, level: nat, w: nat, r: nat)
    requires level > 0 && r < |targets| && Complete(N, targets, tolerance, w, [])
    ensures forall v: nat :: !HeldRefined(N, targets, tolerance, level, w, r, v)
  {
    hide HasInside, HeldIn;
  }

  /** Levels with nothing to refine leave the borders where they are. */
  lemma NothingRefined(N: nat -> nat, targets: seq<nat>, tolerance: nat, bsize: nat, depth: nat, upto: nat, borders: seq<nat>)
    requires 0 < upto < depth && AllBordersAre(N, targets, tolerance, bsize, depth, upto, borders)
    requires Complete(N, targets, tolerance, Power(bsize, depth - upto), [])
    ensures AllBordersAre(N, targets, tolerance, bsize, depth, upto + 1, borders)
  {
    hide HasInside, HeldIn, FirstCut, Power;
    forall r | 0 <= r < |targets|
      ensures BorderIs(N, targets, tolerance, bsize, depth, upto + 1, r, borders[r])
    {
      NoneHeld(N, targets, tolerance, upto, Power(bsize, depth - upto), r);
    }
  }
}
