/**
 * One level of `clusterize`: every refined bucket of the space-filling curve is cut into
 * `bsize` parts, the borders whose targets lie in it are moved, and the parts that still hold
 * too much are put on the list of the next level.
 */
module BorderRefinement {
  import opened Basis

  /** `N(x)` is the global number of elements in buckets before position `x`. */
  ghost predicate Monotone(N: nat -> nat) {
    forall x: nat, y: nat :: x <= y ==> N(x) <= N(y)
  }

  /** The counts at the `bsize + 1` cuts of the bucket starting with part number `first`. */
  ghost predicate CountsOf(N: nat -> nat, c: nat, first: nat, rc: seq<nat>) {
    forall i :: 0 <= i < |rc| ==> rc[i] == N(Multiple(c, first + i))
  }

  /** The cuts the inner loop has passed for target `t`: too few elements before each of them. */
  ghost predicate Passed(rc: seq<nat>, t: nat, tolerance: nat, i: nat) {
    i <= |rc| && forall j :: 0 <= j < i ==> rc[j] < t && t - rc[j] >= tolerance
  }

  predicate Stops(rc: seq<nat>, t: nat, tolerance: nat, i: nat) {
    i < |rc| && (rc[i] >= t || t - rc[i] < tolerance)
  }

  /** Too many elements before the cut: the part before it has to be refined. */
  predicate Overshoots(rc: seq<nat>, t: nat, tolerance: nat, i: nat) {
    i < |rc| && rc[i] > t && rc[i] - t > tolerance
  }

  /** The cut chosen for target `t`. */
  ghost predicate Chosen(rc: seq<nat>, t: nat, tolerance: nat, i: nat) {
    Passed(rc, t, tolerance, i) && Stops(rc, t, tolerance, i)
  }

  /** Cuts chosen for the targets from number `rbegin` on, in order. */
  ghost predicate AllChosen(rc: seq<nat>, targets: seq<nat>, tolerance: nat, rbegin: nat, at: seq<nat>) {
    && rbegin + |at| <= |targets|
    && (forall k :: 0 <= k < |at| ==> Chosen(rc, targets[rbegin + k], tolerance, at[k]))
    && (forall k, l :: 0 <= k < l < |at| ==> at[k] <= at[l])
  }

  /** The parts put on the list of the next level. */
  ghost function Pushed(first: nat, rc: seq<nat>, targets: seq<nat>, tolerance: nat, rbegin: nat, at: seq<nat>): seq<nat>
    requires rbegin + |at| <= |targets|
  {
    if at == [] then [] else
      var l := |at| - 1;
      Pushed(first, rc, targets, tolerance, rbegin, at[..l]) +
      if Overshoots(rc, targets[rbegin + l], tolerance, at[l]) && at[l] > 0 then [first + at[l] - 1] else []
  }

  /** Borders as they are outside `rbegin ..`, moved to the chosen cuts inside. */
  ghost predicate Moved(old_borders: seq<nat>, borders: seq<nat>, c: nat, first: nat, rbegin: nat, at: seq<nat>) {
    && |borders| == |old_borders| && rbegin + |at| <= |borders|
    && (forall r :: 0 <= r < rbegin ==> borders[r] == old_borders[r])
    && (forall k :: 0 <= k < |at| ==> borders[rbegin + k] == Multiple(c, first + at[k]))
    && (forall r :: rbegin + |at| <= r < |borders| ==> borders[r] == old_borders[r])
  }

  /** A target counted in the bucket cannot overshoot at its first cut. */
  lemma OvershootPositive(targets: seq<nat>, tolerance: nat, rc: seq<nat>, r: nat, i: nat)
    requires Sorted(targets) && |rc| > 0 && LowerBound(targets, rc[0]) <= r < |targets| && Overshoots(rc, targets[r], tolerance, i)
    ensures i > 0
  {
    assert targets[LowerBound(targets, rc[0])] <= targets[r];
  }

  /** What was passed for the last target is passed for the next one. */
  lemma StillPassed(rc: seq<nat>, targets: seq<nat>, tolerance: nat, rbegin: nat, at: seq<nat>, i: nat)
    requires Sorted(targets) && AllChosen(rc, targets, tolerance, rbegin, at) && rbegin + |at| < |targets|
    requires (at == [] ==> i == 0) && (at != [] ==> i == at[|at| - 1])
    ensures Passed(rc, targets[rbegin + |at|], tolerance, i)
    ensures forall k :: 0 <= k < |at| ==> at[k] <= i
  {
    if at != [] {
      assert Chosen(rc, targets[rbegin + |at| - 1], tolerance, i);
      assert targets[rbegin + |at| - 1] <= targets[rbegin + |at|];
    }
  }

  lemma CutsBegin(borders: seq<nat>, list: seq<nat>, c: nat, first: nat, rc: seq<nat>, targets: seq<nat>, tolerance: nat, rbegin: nat)
    requires rbegin <= |targets| == |borders|
    ensures AllChosen(rc, targets, tolerance, rbegin, []) && Moved(borders, borders, c, first, rbegin, [])
    ensures list == list + Pushed(first, rc, targets, tolerance, rbegin, [])
  {
  }

  lemma CutsNext(rc: seq<nat>, targets: seq<nat>, tolerance: nat, rbegin: nat, at: seq<nat>, i: nat)
    requires AllChosen(rc, targets, tolerance, rbegin, at) && rbegin + |at| < |targets|
    requires Chosen(rc, targets[rbegin + |at|], tolerance, i) && forall k :: 0 <= k < |at| ==> at[k] <= i
    ensures AllChosen(rc, targets, tolerance, rbegin, at + [i])
  {
  }

  lemma MovedNext(before: seq<nat>, borders: seq<nat>, c: nat, first: nat, rbegin: nat, at: seq<nat>, i: nat)
    requires Moved(before, borders, c, first, rbegin, at) && rbegin + |at| < |borders|
    ensures Moved(before, borders[rbegin + |at| := Multiple(c, first + i)], c, first, rbegin, at + [i])
  {
  }

  lemma PushedNext(list: seq<nat>, first: nat, rc: seq<nat>, targets: seq<nat>, tolerance: nat, rbegin: nat, at: seq<nat>, i: nat)
    requires rbegin + |at| < |targets|
    ensures list + Pushed(first, rc, targets, tolerance, rbegin, at + [i]) ==
      (list + Pushed(first, rc, targets, tolerance, rbegin, at)) +
      if Overshoots(rc, targets[rbegin + |at|], tolerance, i) && i > 0 then [first + i - 1] else []
  {
    assert (at + [i])[..|at|] == at;
  }

  ghost predicate Ordered(borders: seq<nat>) {
    forall q, r :: 0 <= q < r < |borders| ==> borders[q] <= borders[r]
  }

  /** Borders of targets outside the bucket `lo .. hi` do not lie in it. */
  ghost predicate Separates(N: nat -> nat, targets: seq<nat>, borders: seq<nat>, lo: nat, hi: nat)
    requires |borders| == |targets|
  {
    forall r :: 0 <= r < |targets| ==> OnItsSide(N, targets[r], borders[r], lo, hi)
  }

  ghost predicate OnItsSide(N: nat -> nat, t: nat, border: nat, lo: nat, hi: nat) {
    (t < N(lo) ==> border <= lo) && (t >= N(hi) ==> border >= hi)
  }

  /** The border meets its target up to the tolerance. */
  ghost predicate Near(N: nat -> nat, t: nat, border: nat, tolerance: nat) {
    N(border) <= t + tolerance && t <= N(border) + tolerance
  }

  /** The target lies strictly inside the bucket, too far from its end. */
  ghost predicate Inside(N: nat -> nat, t: nat, tolerance: nat, lo: nat, hi: nat) {
    N(lo) < t && t + tolerance < N(hi) && N(lo) + tolerance <= t
  }

  /** What is known about one bucket while its borders are moved. */
  ghost predicate BucketMoved(N: nat -> nat, targets: seq<nat>, tolerance: nat, before: seq<nat>, after: seq<nat>,
      c: nat, first: nat, rc: seq<nat>, rbegin: nat, at: seq<nat>) {
    && Monotone(N) && Sorted(targets) && |before| == |after| == |targets| && c > 0 && |rc| > 1 && CountsOf(N, c, first, rc)
    && rbegin == LowerBound(targets, rc[0]) && rbegin + |at| == LowerBound(targets, rc[|rc| - 1])
    && AllChosen(rc, targets, tolerance, rbegin, at) && Moved(before, after, c, first, rbegin, at)
    && Separates(N, targets, before, Multiple(c, first), Multiple(c, first + |rc| - 1))
  }

  /** Where a border lies after the move, by the side its target is on. */
  lemma BorderPlace(N: nat -> nat, targets: seq<nat>, tolerance: nat, before: seq<nat>, after: seq<nat>,
      c: nat, first: nat, rc: seq<nat>, rbegin: nat, at: seq<nat>, r: nat)
    requires BucketMoved(N, targets, tolerance, before, after, c, first, rc, rbegin, at) && r < |targets|
    ensures var lo, hi := Multiple(c, first), Multiple(c, first + |rc| - 1);
      if r < rbegin then targets[r] < N(lo) && after[r] == before[r] <= lo
      else if r < rbegin + |at| then N(lo) <= targets[r] < N(hi) && at[r - rbegin] < |rc| &&
        after[r] == Multiple(c, first + at[r - rbegin]) && lo <= after[r] <= hi
      else N(hi) <= targets[r] && after[r] == before[r] >= hi
  {
    var lo, hi := Multiple(c, first), Multiple(c, first + |rc| - 1);
    assert rc[0] == N(lo) && rc[|rc| - 1] == N(hi);
    assert OnItsSide(N, targets[r], before[r], lo, hi);
    if rbegin <= r < rbegin + |at| {
      assert targets[rbegin] <= targets[r];
      assert after[rbegin + (r - rbegin)] == Multiple(c, first + at[r - rbegin]);
      assert Chosen(rc, targets[rbegin + (r - rbegin)], tolerance, at[r - rbegin]);
      MultipleMonotone(c, first, first + at[r - rbegin]);
      MultipleMonotone(c, first + at[r - rbegin], first + |rc| - 1);
    } else if rbegin + |at| <= r {
      assert targets[rbegin + |at|] <= targets[r];
    }
  }

  /** Moving the borders of one bucket keeps all borders in order. */
  lemma MovedOrdered(N: nat -> nat, targets: seq<nat>, tolerance: nat, before: seq<nat>, after: seq<nat>,
      c: nat, first: nat, rc: seq<nat>, rbegin: nat, at: seq<nat>)
    requires BucketMoved(N, targets, tolerance, before, after, c, first, rc, rbegin, at) && Ordered(before)
    ensures Ordered(after)
  {
    forall q, r | 0 <= q < r < |after|
      ensures after[q] <= after[r]
    {
      BorderPlace(N, targets, tolerance, before, after, c, first, rc, rbegin, at, q);
      BorderPlace(N, targets, tolerance, before, after, c, first, rc, rbegin, at, r);
      assert before[q] <= before[r];
      if rbegin <= q && r < rbegin + |at| {
        MultipleMonotone(c, first + at[q - rbegin], first + at[r - rbegin]);
      }
    }
  }

  /** The other buckets of the level stay separated. */
  lemma MovedSeparatesOther(N: nat -> nat, targets: seq<nat>, tolerance: nat, before: seq<nat>, after: seq<nat>,
      c: nat, first: nat, rc: seq<nat>, rbegin: nat, at: seq<nat>, lo: nat, hi: nat)
    requires BucketMoved(N, targets, tolerance, before, after, c, first, rc, rbegin, at)
    requires Separates(N, targets, before, lo, hi) && lo <= hi
    requires Multiple(c, first + |rc| - 1) <= lo || hi <= Multiple(c, first)
    ensures Separates(N, targets, after, lo, hi)
  {
    forall r | 0 <= r < |targets|
      ensures OnItsSide(N, targets[r], after[r], lo, hi)
    {
      assert OnItsSide(N, targets[r], before[r], lo, hi);
      BorderPlace(N, targets, tolerance, before, after, c, first, rc, rbegin, at, r);
      assert N(lo) <= N(hi);
      if Multiple(c, first + |rc| - 1) <= lo {
        assert N(Multiple(c, first + |rc| - 1)) <= N(lo);
      } else {
        assert N(hi) <= N(Multiple(c, first));
      }
    }
  }

  lemma MovedSeparatesOwn(N: nat -> nat, targets: seq<nat>, tolerance: nat, before: seq<nat>, after: seq<nat>,
      c: nat, first: nat, rc: seq<nat>, rbegin: nat, at: seq<nat>)
    requires BucketMoved(N, targets, tolerance, before, after, c, first, rc, rbegin, at)
    ensures Separates(N, targets, after, Multiple(c, first), Multiple(c, first + |rc| - 1))
  {
    forall r | 0 <= r < |targets|
      ensures OnItsSide(N, targets[r], after[r], Multiple(c, first), Multiple(c, first + |rc| - 1))
    {
      BorderPlace(N, targets, tolerance, before, after, c, first, rc, rbegin, at, r);
    }
  }

  /** A part put on the list is separated as well, whatever border put it there. */
  lemma MovedSeparatesPart(N: nat -> nat, targets: seq<nat>, tolerance: nat, before: seq<nat>, after: seq<nat>,
      c: nat, first: nat, rc: seq<nat>, rbegin: nat, at: seq<nat>, k: nat)
    requires BucketMoved(N, targets, tolerance, before, after, c, first, rc, rbegin, at)
    requires k < |at| && Overshoots(rc, targets[rbegin + k], tolerance, at[k])
    ensures at[k] > 0 && Separates(N, targets, after, Multiple(c, first + at[k] - 1), Multiple(c, first + at[k]))
  {
    OvershootInside(N, targets, tolerance, before, after, c, first, rc, rbegin, at, k);
    var i := at[k];
    var lo, hi := Multiple(c, first + i - 1), Multiple(c, first + i);
    forall r | 0 <= r < |targets|
      ensures OnItsSide(N, targets[r], after[r], lo, hi)
    {
      BorderPlace(N, targets, tolerance, before, after, c, first, rc, rbegin, at, r);
      PartSide(N, targets, tolerance, c, first, rc, rbegin, at, k, r);
    }
  }

  /** Which cuts other targets choose, seen from an overshooting one. */
  lemma PartSide(N: nat -> nat, targets: seq<nat>, tolerance: nat, c: nat, first: nat, rc: seq<nat>, rbegin: nat, at: seq<nat>,
      k: nat, r: nat)
    requires Monotone(N) && Sorted(targets) && c > 0 && CountsOf(N, c, first, rc) && AllChosen(rc, targets, tolerance, rbegin, at)
    requires k < |at| && r < |targets| && at[k] > 0 && Overshoots(rc, targets[rbegin + k], tolerance, at[k]) && |rc| > 1
    ensures Multiple(c, first) <= Multiple(c, first + at[k] - 1) <= Multiple(c, first + at[k]) <= Multiple(c, first + |rc| - 1)
    ensures targets[r] < N(Multiple(c, first + at[k] - 1)) && rbegin <= r < rbegin + |at| ==>
      Multiple(c, first + at[r - rbegin]) <= Multiple(c, first + at[k] - 1)
    ensures targets[r] >= N(Multiple(c, first + at[k])) && rbegin <= r < rbegin + |at| ==>
      Multiple(c, first + at[r - rbegin]) >= Multiple(c, first + at[k])
  {
    hide Overshoots, CountsOf, Monotone, Sorted, Multiple;
    var i := at[k];
    CutInside(rc, targets, tolerance, rbegin, at, k);
    MultipleMonotone(c, first, first + i - 1);
    MultipleMonotone(c, first + i - 1, first + i);
    MultipleMonotone(c, first + i, first + |rc| - 1);
    if rbegin <= r < rbegin + |at| {
      var l := r - rbegin;
      CutSide(N, targets, tolerance, c, first, rc, rbegin, at, k, l);
      if at[l] <= i - 1 {
        MultipleMonotone(c, first + at[l], first + i - 1);
      } else {
        MultipleMonotone(c, first + i, first + at[l]);
      }
    }
  }

  lemma CutInside(rc: seq<nat>, targets: seq<nat>, tolerance: nat, rbegin: nat, at: seq<nat>, k: nat)
    requires AllChosen(rc, targets, tolerance, rbegin, at) && k < |at|
    ensures at[k] < |rc|
  {
    assert Chosen(rc, targets[rbegin + k], tolerance, at[k]);
  }

  /** Targets before the part of an overshooting cut have their cut before it, targets behind it behind. */
  lemma CutSide(N: nat -> nat, targets: seq<nat>, tolerance: nat, c: nat, first: nat, rc: seq<nat>, rbegin: nat, at: seq<nat>,
      k: nat, l: nat)
    requires Monotone(N) && Sorted(targets) && c > 0 && CountsOf(N, c, first, rc) && AllChosen(rc, targets, tolerance, rbegin, at)
    requires k < |at| && l < |at| && rbegin + |at| <= |targets| && 0 < at[k] < |rc|
    requires Overshoots(rc, targets[rbegin + k], tolerance, at[k])
    ensures targets[rbegin + l] < N(Multiple(c, first + at[k] - 1)) ==> at[l] <= at[k] - 1
    ensures targets[rbegin + l] >= N(Multiple(c, first + at[k])) ==> at[l] >= at[k]
  {
    assert Chosen(rc, targets[rbegin + k], tolerance, at[k]) && Chosen(rc, targets[rbegin + l], tolerance, at[l]);
    assert rc[at[k] - 1] == N(Multiple(c, first + (at[k] - 1))) && rc[at[k]] == N(Multiple(c, first + at[k]));
    assert l < k ==> targets[rbegin + l] <= targets[rbegin + k];
  }

  /** The target of an overshooting cut lies strictly inside the part before the cut. */
  lemma OvershootInside(N: nat -> nat, targets: seq<nat>, tolerance: nat, before: seq<nat>, after: seq<nat>,
      c: nat, first: nat, rc: seq<nat>, rbegin: nat, at: seq<nat>, k: nat)
    requires BucketMoved(N, targets, tolerance, before, after, c, first, rc, rbegin, at)
    requires k < |at| && Overshoots(rc, targets[rbegin + k], tolerance, at[k])
    ensures at[k] > 0
    ensures Inside(N, targets[rbegin + k], tolerance, Multiple(c, first + at[k] - 1), Multiple(c, first + at[k]))
  {
    BorderPlace(N, targets, tolerance, before, after, c, first, rc, rbegin, at, rbegin + k);
    assert Chosen(rc, targets[rbegin + k], tolerance, at[k]);
    assert rc[0] == N(Multiple(c, first)) && rc[at[k]] == N(Multiple(c, first + at[k]));
    if at[k] > 0 {
      assert rc[at[k] - 1] == N(Multiple(c, first + (at[k] - 1)));
    }
  }

  /** A cut that does not overshoot meets its target. */
  lemma NoOvershootNear(N: nat -> nat, targets: seq<nat>, tolerance: nat, before: seq<nat>, after: seq<nat>,
      c: nat, first: nat, rc: seq<nat>, rbegin: nat, at: seq<nat>, k: nat)
    requires BucketMoved(N, targets, tolerance, before, after, c, first, rc, rbegin, at)
    requires k < |at| && !Overshoots(rc, targets[rbegin + k], tolerance, at[k])
    ensures Near(N, targets[rbegin + k], after[rbegin + k], tolerance)
  {
    assert Chosen(rc, targets[rbegin + k], tolerance, at[k]);
    assert after[rbegin + k] == Multiple(c, first + at[k]);
    assert rc[at[k]] == N(Multiple(c, first + at[k]));
  }

  /** Some bucket of width `w` on the list, from number `from` on, holds the target strictly inside. */
  ghost predicate Pending(N: nat -> nat, t: nat, tolerance: nat, w: nat, list: seq<nat>, from: nat) {
    exists j :: from <= j < |list| && Inside(N, t, tolerance, Multiple(w, list[j]), Multiple(w, list[j] + 1))
  }

  /** Some bucket of the list, from number `from` on, holds the target. */
  ghost predicate Held(N: nat -> nat, t: nat, w: nat, list: seq<nat>, from: nat) {
    exists j :: from <= j < |list| && HeldBy(N, t, Multiple(w, list[j]), Multiple(w, list[j] + 1))
  }

  ghost predicate HeldBy(N: nat -> nat, t: nat, lo: nat, hi: nat) {
    N(lo) <= t < N(hi)
  }

  ghost predicate SeparatesAll(N: nat -> nat, targets: seq<nat>, borders: seq<nat>, w: nat, list: seq<nat>)
    requires |borders| == |targets|
  {
    forall j :: 0 <= j < |list| ==> Separates(N, targets, borders, Multiple(w, list[j]), Multiple(w, list[j] + 1))
  }

  /** Every border meets its target or waits for one of the buckets of the list. */
  ghost predicate MetOrPending(N: nat -> nat, targets: seq<nat>, borders: seq<nat>, tolerance: nat, w: nat, list: seq<nat>)
    requires |borders| == |targets|
  {
    forall r :: 0 <= r < |targets| ==>
      Near(N, targets[r], borders[r], tolerance) || Held(N, targets[r], w, list, 0)
  }

  /** What every level of the refinement keeps; `w` is the width of the buckets on the list. */
  ghost predicate LevelInvariant(N: nat -> nat, targets: seq<nat>, borders: seq<nat>, tolerance: nat, w: nat, list: seq<nat>) {
    && |borders| == |targets| && Ordered(borders) && Increasing(list)
    && SeparatesAll(N, targets, borders, w, list) && MetOrPending(N, targets, borders, tolerance, w, list)
  }

  /** A bucket of width `c * bsize` is `bsize` parts of width `c`. */
  lemma {:induction false} PartsOfBucket(c: nat, bsize: nat, v: nat)
    ensures Multiple(Multiple(c, bsize), v) == Multiple(c, Multiple(bsize, v))
    ensures Multiple(Multiple(c, bsize), v + 1) == Multiple(c, Multiple(bsize, v) + bsize)
  {
    if v > 0 {
      PartsOfBucket(c, bsize, v - 1);
      assert Multiple(bsize, v) == Multiple(bsize, v - 1) + bsize;
    }
    MultipleAdd(c, Multiple(bsize, v), bsize);
  }

  lemma {:induction false} MultipleAdd(c: nat, x: nat, y: nat)
    ensures Multiple(c, x + y) == Multiple(c, x) + Multiple(c, y)
  {
    if y > 0 {
      MultipleAdd(c, x, y - 1);
    }
  }

  /** A cut of the bucket and the number of the part before it. */
  ghost predicate IsPushed(first: nat, rc: seq<nat>, targets: seq<nat>, tolerance: nat, rbegin: nat, at: seq<nat>, u: nat, k: nat)
    requires rbegin + |at| <= |targets|
  {
    k < |at| && Overshoots(rc, targets[rbegin + k], tolerance, at[k]) && at[k] > 0 && u == first + at[k] - 1
  }

  lemma {:induction false} PushedMember(first: nat, rc: seq<nat>, targets: seq<nat>, tolerance: nat, rbegin: nat, at: seq<nat>, e: nat)
    returns (k: nat)
    requires rbegin + |at| <= |targets| && e < |Pushed(first, rc, targets, tolerance, rbegin, at)|
    ensures IsPushed(first, rc, targets, tolerance, rbegin, at, Pushed(first, rc, targets, tolerance, rbegin, at)[e], k)
    decreases |at|
  {
    var l := |at| - 1;
    if e < |Pushed(first, rc, targets, tolerance, rbegin, at[..l])| {
      k := PushedMember(first, rc, targets, tolerance, rbegin, at[..l], e);
    } else {
      k := l;
    }
  }

  lemma {:induction false} PushedContains(first: nat, rc: seq<nat>, targets: seq<nat>, tolerance: nat, rbegin: nat, at: seq<nat>, k: nat)
    returns (e: nat)
    requires rbegin + |at| <= |targets| && k < |at| && Overshoots(rc, targets[rbegin + k], tolerance, at[k]) && at[k] > 0
    ensures e < |Pushed(first, rc, targets, tolerance, rbegin, at)|
    ensures Pushed(first, rc, targets, tolerance, rbegin, at)[e] == first + at[k] - 1
    decreases |at|
  {
    var l := |at| - 1;
    if k == l {
      e := |Pushed(first, rc, targets, tolerance, rbegin, at[..l])|;
    } else {
      e := PushedContains(first, rc, targets, tolerance, rbegin, at[..l], k);
    }
  }

  /** Number of the first part behind the first `b` buckets of the list. */
  function PartsEnd(bsize: nat, list: seq<nat>, b: nat): nat
    requires b <= |list|
  {
    if b == 0 then 0 else Multiple(bsize, list[b - 1]) + bsize
  }

  /** What one level keeps while it walks its list: `b` buckets are cut, `next` are the parts listed. */
  ghost predicate Progress(N: nat -> nat, targets: seq<nat>, borders: seq<nat>, tolerance: nat, c: nat, bsize: nat,
      list: seq<nat>, b: nat, next: seq<nat>) {
    && b <= |list| && |borders| == |targets| && Ordered(borders) && Sorted(next)
    && SeparatesAll(N, targets, borders, Multiple(c, bsize), list) && SeparatesAll(N, targets, borders, c, next)
    && (forall e :: 0 <= e < |next| ==> next[e] + 1 <= PartsEnd(bsize, list, b))
    && (forall r :: 0 <= r < |targets| ==> Waiting(N, targets[r], borders[r], tolerance, c, bsize, list, b, next))
  }

  ghost predicate Waiting(N: nat -> nat, t: nat, border: nat, tolerance: nat, c: nat, bsize: nat, list: seq<nat>, b: nat, next: seq<nat>) {
    Near(N, t, border, tolerance) || Held(N, t, Multiple(c, bsize), list, b) || Pending(N, t, tolerance, c, next, 0)
  }

  /** The cut of bucket number `b` of the list. */
  ghost predicate CutOf(N: nat -> nat, targets: seq<nat>, tolerance: nat, before: seq<nat>, after: seq<nat>, c: nat, bsize: nat,
      list: seq<nat>, b: nat, rc: seq<nat>, rbegin: nat, at: seq<nat>, next: seq<nat>, pushed: seq<nat>) {
    && b < |list| && Increasing(list) && |rc| == bsize + 1
    && BucketMoved(N, targets, tolerance, before, after, c, Multiple(bsize, list[b]), rc, rbegin, at)
    && Progress(N, targets, before, tolerance, c, bsize, list, b, next)
    && pushed == Pushed(Multiple(bsize, list[b]), rc, targets, tolerance, rbegin, at)
  }

  lemma PartsInOrder(bsize: nat, list: seq<nat>, b: nat)
    requires b < |list| && Increasing(list)
    ensures PartsEnd(bsize, list, b) <= Multiple(bsize, list[b])
  {
    if b > 0 {
      MultipleMonotone(bsize, list[b - 1] + 1, list[b]);
    }
  }

  /** Another bucket of the list does not overlap the one that is cut. */
  lemma ListStaysSeparated(N: nat -> nat, targets: seq<nat>, tolerance: nat, before: seq<nat>, after: seq<nat>, c: nat, bsize: nat,
      list: seq<nat>, b: nat, rc: seq<nat>, rbegin: nat, at: seq<nat>, next: seq<nat>, pushed: seq<nat>, j: nat)
    requires CutOf(N, targets, tolerance, before, after, c, bsize, list, b, rc, rbegin, at, next, pushed) && j < |list|
    ensures Separates(N, targets, after, Multiple(Multiple(c, bsize), list[j]), Multiple(Multiple(c, bsize), list[j] + 1))
  {
    hide Monotone, Sorted, Ordered, AllChosen, Moved, CountsOf, Near, Inside;
    var w, first := Multiple(c, bsize), Multiple(bsize, list[b]);
    PartsOfBucket(c, bsize, list[b]);
    if j == b {
      MovedSeparatesOwn(N, targets, tolerance, before, after, c, first, rc, rbegin, at);
    } else {
      var lo, hi := Multiple(w, list[j]), Multiple(w, list[j] + 1);
      MultipleMonotone(w, if j < b then list[j] + 1 else list[b] + 1, if j < b then list[b] else list[j]);
      assert Separates(N, targets, before, lo, hi) && lo <= hi;
      hide Separates, Pushed, Multiple, BucketMoved, Progress;
      MovedSeparatesOther(N, targets, tolerance, before, after, c, first, rc, rbegin, at, lo, hi);
    }
  }

  /** A part listed before lies below the bucket that is cut. */
  lemma NextStaysSeparated(N: nat -> nat, targets: seq<nat>, tolerance: nat, before: seq<nat>, after: seq<nat>, c: nat, bsize: nat,
      list: seq<nat>, b: nat, rc: seq<nat>, rbegin: nat, at: seq<nat>, next: seq<nat>, pushed: seq<nat>, e: nat)
    requires CutOf(N, targets, tolerance, before, after, c, bsize, list, b, rc, rbegin, at, next, pushed) && e < |next|
    ensures Separates(N, targets, after, Multiple(c, next[e]), Multiple(c, next[e] + 1))
  {
    hide Monotone, Sorted, Ordered, AllChosen, Moved, CountsOf, Near, Inside;
    var first := Multiple(bsize, list[b]);
    PartsInOrder(bsize, list, b);
    MultipleMonotone(c, next[e] + 1, first);
    var lo, hi := Multiple(c, next[e]), Multiple(c, next[e] + 1);
    assert Separates(N, targets, before, lo, hi) && lo <= hi;
    hide Separates, Pushed, Multiple, BucketMoved, Progress;
    MovedSeparatesOther(N, targets, tolerance, before, after, c, first, rc, rbegin, at, lo, hi);
  }

  lemma PushedIsSeparated(N: nat -> nat, targets: seq<nat>, tolerance: nat, before: seq<nat>, after: seq<nat>, c: nat, bsize: nat,
      list: seq<nat>, b: nat, rc: seq<nat>, rbegin: nat, at: seq<nat>, next: seq<nat>, pushed: seq<nat>, e: nat)
    requires CutOf(N, targets, tolerance, before, after, c, bsize, list, b, rc, rbegin, at, next, pushed) && e < |pushed|
    ensures Separates(N, targets, after, Multiple(c, pushed[e]), Multiple(c, pushed[e] + 1))
  {
    hide Monotone, Sorted, Ordered, AllChosen, Moved, CountsOf, Near, Inside;
    var first := Multiple(bsize, list[b]);
    var k := PushedMember(first, rc, targets, tolerance, rbegin, at, e);
    assert pushed[e] == first + at[k] - 1;
    hide Separates, Pushed, Progress, BucketMoved, Multiple;
    MovedSeparatesPart(N, targets, tolerance, before, after, c, first, rc, rbegin, at, k);
  }

  lemma StepSeparates(N: nat -> nat, targets: seq<nat>, tolerance: nat, before: seq<nat>, after: seq<nat>, c: nat, bsize: nat,
      list: seq<nat>, b: nat, rc: seq<nat>, rbegin: nat, at: seq<nat>, next: seq<nat>, pushed: seq<nat>)
    requires CutOf(N, targets, tolerance, before, after, c, bsize, list, b, rc, rbegin, at, next, pushed)
    ensures SeparatesAll(N, targets, after, Multiple(c, bsize), list)
    ensures SeparatesAll(N, targets, after, c, next + pushed)
  {
    hide Monotone, Sorted, Ordered, AllChosen, Moved, CountsOf, Near, Inside;
    assert |after| == |targets|;
    forall j | 0 <= j < |list|
      ensures Separates(N, targets, after, Multiple(Multiple(c, bsize), list[j]), Multiple(Multiple(c, bsize), list[j] + 1))
    {
      ListStaysSeparated(N, targets, tolerance, before, after, c, bsize, list, b, rc, rbegin, at, next, pushed, j);
    }
    forall e | 0 <= e < |next|
      ensures Separates(N, targets, after, Multiple(c, next[e]), Multiple(c, next[e] + 1))
    {
      NextStaysSeparated(N, targets, tolerance, before, after, c, bsize, list, b, rc, rbegin, at, next, pushed, e);
    }
    forall e | 0 <= e < |pushed|
      ensures Separates(N, targets, after, Multiple(c, pushed[e]), Multiple(c, pushed[e] + 1))
    {
      PushedIsSeparated(N, targets, tolerance, before, after, c, bsize, list, b, rc, rbegin, at, next, pushed, e);
    }
    hide Separates, CutOf, Multiple;
  }

  /** A target outside the cut bucket waits for what it waited for before. */
  lemma ElsewhereWaiting(N: nat -> nat, targets: seq<nat>, tolerance: nat, before: seq<nat>, after: seq<nat>, c: nat, bsize: nat,
      list: seq<nat>, b: nat, rc: seq<nat>, rbegin: nat, at: seq<nat>, next: seq<nat>, pushed: seq<nat>, r: nat)
    requires CutOf(N, targets, tolerance, before, after, c, bsize, list, b, rc, rbegin, at, next, pushed) && r < |targets| && !(rbegin <= r < rbegin + |at|)
    ensures Waiting(N, targets[r], after[r], tolerance, c, bsize, list, b + 1, next + pushed)
  {
    hide Monotone, Sorted, Ordered, AllChosen, CountsOf, Near, Separates;
    var w, first := Multiple(c, bsize), Multiple(bsize, list[b]);
    PartsOfBucket(c, bsize, list[b]);
    BorderPlace(N, targets, tolerance, before, after, c, first, rc, rbegin, at, r);
    assert Waiting(N, targets[r], before[r], tolerance, c, bsize, list, b, next);
    assert after[r] == before[r];
    WaitsOn(N, targets[r], after[r], tolerance, c, bsize, list, b, next, pushed);
  }

  lemma WaitsOn(N: nat -> nat, t: nat, border: nat, tolerance: nat, c: nat, bsize: nat, list: seq<nat>, b: nat, next: seq<nat>,
      pushed: seq<nat>)
    requires b < |list| && Waiting(N, t, border, tolerance, c, bsize, list, b, next)
    requires !HeldBy(N, t, Multiple(Multiple(c, bsize), list[b]), Multiple(Multiple(c, bsize), list[b] + 1))
    ensures Waiting(N, t, border, tolerance, c, bsize, list, b + 1, next + pushed)
  {
    var w := Multiple(c, bsize);
    if Held(N, t, w, list, b) {
      var j :| b <= j < |list| && HeldBy(N, t, Multiple(w, list[j]), Multiple(w, list[j] + 1));
      assert j != b;
    } else if Pending(N, t, tolerance, c, next, 0) {
      var e :| 0 <= e < |next| && Inside(N, t, tolerance, Multiple(c, next[e]), Multiple(c, next[e] + 1));
      assert (next + pushed)[e] == next[e];
    }
  }

  lemma PendingPushed(N: nat -> nat, t: nat, tolerance: nat, c: nat, next: seq<nat>, pushed: seq<nat>, e: nat)
    requires e < |pushed| && Inside(N, t, tolerance, Multiple(c, pushed[e]), Multiple(c, pushed[e] + 1))
    ensures Pending(N, t, tolerance, c, next + pushed, 0)
  {
    assert (next + pushed)[|next| + e] == pushed[e];
  }

  lemma CutWaiting(N: nat -> nat, targets: seq<nat>, tolerance: nat, before: seq<nat>, after: seq<nat>, c: nat, bsize: nat,
      list: seq<nat>, b: nat, rc: seq<nat>, rbegin: nat, at: seq<nat>, next: seq<nat>, pushed: seq<nat>, k: nat)
    requires CutOf(N, targets, tolerance, before, after, c, bsize, list, b, rc, rbegin, at, next, pushed) && k < |at|
    ensures Near(N, targets[rbegin + k], after[rbegin + k], tolerance) || Pending(N, targets[rbegin + k], tolerance, c, next + pushed, 0)
  {
    hide Monotone, Sorted, Ordered, AllChosen, Moved, CountsOf, Near, Inside;
    var first := Multiple(bsize, list[b]);
    hide Near, Inside, Pending, Progress, BucketMoved, Multiple;
    if Overshoots(rc, targets[rbegin + k], tolerance, at[k]) {
      OvershootInside(N, targets, tolerance, before, after, c, first, rc, rbegin, at, k);
      var e := PushedContains(first, rc, targets, tolerance, rbegin, at, k);
      PendingPushed(N, targets[rbegin + k], tolerance, c, next, pushed, e);
    } else {
      NoOvershootNear(N, targets, tolerance, before, after, c, first, rc, rbegin, at, k);
    }
  }

  lemma {:induction false} PushedSorted(first: nat, rc: seq<nat>, targets: seq<nat>, tolerance: nat, rbegin: nat, at: seq<nat>)
    requires AllChosen(rc, targets, tolerance, rbegin, at)
    ensures Sorted(Pushed(first, rc, targets, tolerance, rbegin, at))
    ensures forall e :: 0 <= e < |Pushed(first, rc, targets, tolerance, rbegin, at)| ==>
      first <= Pushed(first, rc, targets, tolerance, rbegin, at)[e] < first + |rc| - 1 &&
      Pushed(first, rc, targets, tolerance, rbegin, at)[e] + 1 <= first + at[|at| - 1]
  {
    if at != [] {
      var l := |at| - 1;
      PushedSorted(first, rc, targets, tolerance, rbegin, at[..l]);
      assert Chosen(rc, targets[rbegin + l], tolerance, at[l]);
    }
  }

  lemma StepParts(N: nat -> nat, targets: seq<nat>, tolerance: nat, before: seq<nat>, after: seq<nat>, c: nat, bsize: nat,
      list: seq<nat>, b: nat, rc: seq<nat>, rbegin: nat, at: seq<nat>, next: seq<nat>, pushed: seq<nat>)
    requires CutOf(N, targets, tolerance, before, after, c, bsize, list, b, rc, rbegin, at, next, pushed)
    ensures Sorted(next + pushed)
    ensures forall e :: 0 <= e < |next + pushed| ==> (next + pushed)[e] + 1 <= PartsEnd(bsize, list, b + 1)
  {
    hide Monotone, CountsOf, Near, Inside, Ordered, Moved, Separates;
    PartsInOrder(bsize, list, b);
    PushedSorted(Multiple(bsize, list[b]), rc, targets, tolerance, rbegin, at);
  }

  lemma StepWaiting(N: nat -> nat, targets: seq<nat>, tolerance: nat, before: seq<nat>, after: seq<nat>, c: nat, bsize: nat,
      list: seq<nat>, b: nat, rc: seq<nat>, rbegin: nat, at: seq<nat>, next: seq<nat>, pushed: seq<nat>, r: nat)
    requires CutOf(N, targets, tolerance, before, after, c, bsize, list, b, rc, rbegin, at, next, pushed) && r < |targets|
    ensures Waiting(N, targets[r], after[r], tolerance, c, bsize, list, b + 1, next + pushed)
  {
    hide Monotone, Sorted, Ordered, AllChosen, Moved, CountsOf, Near, Inside;
    if rbegin <= r < rbegin + |at| {
      CutWaiting(N, targets, tolerance, before, after, c, bsize, list, b, rc, rbegin, at, next, pushed, r - rbegin);
    } else {
      ElsewhereWaiting(N, targets, tolerance, before, after, c, bsize, list, b, rc, rbegin, at, next, pushed, r);
    }
  }

  /** Cutting one bucket of the list is progress. */
  lemma StepProgress(N: nat -> nat, targets: seq<nat>, tolerance: nat, before: seq<nat>, after: seq<nat>, c: nat, bsize: nat,
      list: seq<nat>, b: nat, rc: seq<nat>, rbegin: nat, at: seq<nat>, next: seq<nat>, pushed: seq<nat>)
    requires CutOf(N, targets, tolerance, before, after, c, bsize, list, b, rc, rbegin, at, next, pushed)
    ensures Progress(N, targets, after, tolerance, c, bsize, list, b + 1, next + pushed)
  {
    hide Monotone, Sorted, Ordered, AllChosen, Moved, CountsOf, Near, Inside;
    assert BucketMoved(N, targets, tolerance, before, after, c, Multiple(bsize, list[b]), rc, rbegin, at) && |after| == |targets|;
    MovedOrdered(N, targets, tolerance, before, after, c, Multiple(bsize, list[b]), rc, rbegin, at);
    StepSeparates(N, targets, tolerance, before, after, c, bsize, list, b, rc, rbegin, at, next, pushed);
    StepParts(N, targets, tolerance, before, after, c, bsize, list, b, rc, rbegin, at, next, pushed);
    forall r | 0 <= r < |targets|
      ensures Waiting(N, targets[r], after[r], tolerance, c, bsize, list, b + 1, next + pushed)
    {
      StepWaiting(N, targets, tolerance, before, after, c, bsize, list, b, rc, rbegin, at, next, pushed, r);
    }
    assert b + 1 <= |list|;
    hide CutOf, Waiting, Separates, Multiple;
  }
}
