/**
 * Which buckets are refined: exactly those that hold some target strictly inside, too far from
 * both ends, whatever the order in which the borders were moved.
 */
module RefinementLists {
  import opened Basis
  import opened BorderRefinement

  /** Some target lies strictly inside bucket `v` of width `w`. */
  ghost predicate HasInside(N: nat -> nat, targets: seq<nat>, tolerance: nat, w: nat, v: nat) {
    exists r :: 0 <= r < |targets| && Inside(N, targets[r], tolerance, Multiple(w, v), Multiple(w, v + 1))
  }

  ghost predicate Complete(N: nat -> nat, targets: seq<nat>, tolerance: nat, w: nat, list: seq<nat>) {
    forall v: nat :: HasInside(N, targets, tolerance, w, v) ==> v in list
  }

  ghost predicate Sound(N: nat -> nat, targets: seq<nat>, tolerance: nat, w: nat, list: seq<nat>) {
    forall e :: 0 <= e < |list| ==> HasInside(N, targets, tolerance, w, list[e])
  }

  /** All overfull parts of the first `b` buckets of the list are on the next list. */
  ghost predicate PartsListed(N: nat -> nat, targets: seq<nat>, tolerance: nat, c: nat, bsize: nat, list: seq<nat>, b: nat, next: seq<nat>)
    requires b <= |list|
  {
    forall j, i :: 0 <= j < b && 0 <= i < bsize ==> PartListed(N, targets, tolerance, c, bsize, list[j], i, next)
  }

  ghost predicate PartListed(N: nat -> nat, targets: seq<nat>, tolerance: nat, c: nat, bsize: nat, v: nat, i: nat, next: seq<nat>) {
    HasInside(N, targets, tolerance, c, Multiple(bsize, v) + i) ==> Multiple(bsize, v) + i in next
  }

  lemma CutsMonotone(N: nat -> nat, c: nat, first: nat, rc: seq<nat>, i: nat, j: nat)
    requires Monotone(N) && CountsOf(N, c, first, rc) && i <= j < |rc|
    ensures rc[i] <= rc[j]
  {
    MultipleMonotone(c, first + i, first + j);
    assert rc[i] == N(Multiple(c, first + i)) && rc[j] == N(Multiple(c, first + j));
  }

  /** A target strictly inside a part of the cut bucket chooses the end of the part and overshoots. */
  lemma InsideOvershoots(N: nat -> nat, targets: seq<nat>, tolerance: nat, before: seq<nat>, after: seq<nat>,
      c: nat, first: nat, rc: seq<nat>, rbegin: nat, at: seq<nat>, i: nat, r: nat)
    requires BucketMoved(N, targets, tolerance, before, after, c, first, rc, rbegin, at)
    requires i < |rc| - 1 && r < |targets|
    requires Inside(N, targets[r], tolerance, Multiple(c, first + i), Multiple(c, first + i + 1))
    ensures rbegin <= r < rbegin + |at| && at[r - rbegin] == i + 1 && Overshoots(rc, targets[r], tolerance, i + 1)
  {
    BorderPlace(N, targets, tolerance, before, after, c, first, rc, rbegin, at, r);
    MultipleMonotone(c, first, first + i);
    MultipleMonotone(c, first + i + 1, first + |rc| - 1);
    assert N(Multiple(c, first)) <= N(Multiple(c, first + i));
    assert N(Multiple(c, first + (i + 1))) <= N(Multiple(c, first + |rc| - 1));
    assert rc[i] == N(Multiple(c, first + i)) && rc[i + 1] == N(Multiple(c, first + (i + 1)));
    var k := r - rbegin;
    assert Chosen(rc, targets[rbegin + k], tolerance, at[k]);
    if at[k] <= i {
      CutsMonotone(N, c, first, rc, at[k], i);
    }
  }

  lemma CutsFit(N: nat -> nat, targets: seq<nat>, tolerance: nat, before: seq<nat>, after: seq<nat>,
      c: nat, first: nat, rc: seq<nat>, rbegin: nat, at: seq<nat>)
    requires BucketMoved(N, targets, tolerance, before, after, c, first, rc, rbegin, at)
    ensures rbegin + |at| <= |targets|
  {
  }

  lemma InsidePushed(N: nat -> nat, targets: seq<nat>, tolerance: nat, before: seq<nat>, after: seq<nat>,
      c: nat, first: nat, rc: seq<nat>, rbegin: nat, at: seq<nat>, i: nat)
    requires BucketMoved(N, targets, tolerance, before, after, c, first, rc, rbegin, at)
    requires i < |rc| - 1
    ensures rbegin + |at| <= |targets|
    ensures HasInside(N, targets, tolerance, c, first + i) ==> first + i in Pushed(first, rc, targets, tolerance, rbegin, at)
  {
    hide BucketMoved, Inside, Multiple, Pushed, Overshoots;
    CutsFit(N, targets, tolerance, before, after, c, first, rc, rbegin, at);
    if HasInside(N, targets, tolerance, c, first + i) {
      var r :| 0 <= r < |targets| && Inside(N, targets[r], tolerance, Multiple(c, first + i), Multiple(c, first + i + 1));
      InsideOvershoots(N, targets, tolerance, before, after, c, first, rc, rbegin, at, i, r);
      var e := PushedContains(first, rc, targets, tolerance, rbegin, at, r - rbegin);
    }
  }

  lemma PushedSound(N: nat -> nat, targets: seq<nat>, tolerance: nat, before: seq<nat>, after: seq<nat>,
      c: nat, first: nat, rc: seq<nat>, rbegin: nat, at: seq<nat>)
    requires BucketMoved(N, targets, tolerance, before, after, c, first, rc, rbegin, at)
    ensures rbegin + |at| <= |targets| && Sound(N, targets, tolerance, c, Pushed(first, rc, targets, tolerance, rbegin, at))
  {
    var pushed := Pushed(first, rc, targets, tolerance, rbegin, at);
    forall e | 0 <= e < |pushed|
      ensures HasInside(N, targets, tolerance, c, pushed[e])
    {
      var k := PushedMember(first, rc, targets, tolerance, rbegin, at, e);
      OvershootInside(N, targets, tolerance, before, after, c, first, rc, rbegin, at, k);
    }
  }

  /** Cutting bucket number `b` extends the next list by its overfull parts. */
  lemma StepLists(N: nat -> nat, targets: seq<nat>, tolerance: nat, before: seq<nat>, after: seq<nat>, c: nat, bsize: nat,
      list: seq<nat>, b: nat, rc: seq<nat>, rbegin: nat, at: seq<nat>, next: seq<nat>, pushed: seq<nat>)
    requires CutOf(N, targets, tolerance, before, after, c, bsize, list, b, rc, rbegin, at, next, pushed)
    requires Sound(N, targets, tolerance, c, next) && PartsListed(N, targets, tolerance, c, bsize, list, b, next)
    ensures Sound(N, targets, tolerance, c, next + pushed)
    ensures PartsListed(N, targets, tolerance, c, bsize, list, b + 1, next + pushed)
  {
    hide Progress, Inside, Monotone, Sorted, AllChosen, Moved, CountsOf, Separates, HasInside;
    var first := Multiple(bsize, list[b]);
    PushedSound(N, targets, tolerance, before, after, c, first, rc, rbegin, at);
    forall j, i | 0 <= j < b + 1 && 0 <= i < bsize
      ensures PartListed(N, targets, tolerance, c, bsize, list[j], i, next + pushed)
    {
      if j == b {
        InsidePushed(N, targets, tolerance, before, after, c, first, rc, rbegin, at, i);
        assert forall u :: u in pushed ==> u in next + pushed;
      } else {
        assert PartListed(N, targets, tolerance, c, bsize, list[j], i, next);
      }
    }
  }

  /** An overfull part makes its bucket overfull. */
  lemma ParentInside(N: nat -> nat, targets: seq<nat>, tolerance: nat, c: nat, bsize: nat, v: nat, i: nat)
    requires Monotone(N) && i < bsize && HasInside(N, targets, tolerance, c, Multiple(bsize, v) + i)
    ensures HasInside(N, targets, tolerance, Multiple(c, bsize), v)
  {
    hide Monotone, Multiple, Inside;
    var u := Multiple(bsize, v) + i;
    PartsOfBucket(c, bsize, v);
    MultipleMonotone(c, Multiple(bsize, v), u);
    MultipleMonotone(c, u + 1, Multiple(bsize, v) + bsize);
    var r :| 0 <= r < |targets| && Inside(N, targets[r], tolerance, Multiple(c, u), Multiple(c, u + 1));
    InsideWider(N, targets[r], tolerance, Multiple(c, u), Multiple(c, u + 1), Multiple(Multiple(c, bsize), v),
      Multiple(Multiple(c, bsize), v + 1));
  }

  lemma InsideWider(N: nat -> nat, t: nat, tolerance: nat, lo: nat, hi: nat, wlo: nat, whi: nat)
    requires Monotone(N) && wlo <= lo && hi <= whi && Inside(N, t, tolerance, lo, hi)
    ensures Inside(N, t, tolerance, wlo, whi)
  {
    assert N(wlo) <= N(lo) && N(hi) <= N(whi);
  }

  lemma PartOf(bsize: nat, u: nat) returns (v: nat, i: nat)
    requires bsize > 0
    ensures i < bsize && u == Multiple(bsize, v) + i
  {
    v, i := u / bsize, u % bsize;
    MultipleIsProduct(bsize, v);
  }

  /** Once the whole list is cut, no overfull bucket of the next level is missing. */
  lemma NextIsComplete(N: nat -> nat, targets: seq<nat>, tolerance: nat, c: nat, bsize: nat, list: seq<nat>, next: seq<nat>)
    requires Monotone(N) && bsize > 0 && Complete(N, targets, tolerance, Multiple(c, bsize), list)
    requires PartsListed(N, targets, tolerance, c, bsize, list, |list|, next)
    ensures Complete(N, targets, tolerance, c, next)
  {
    forall u: nat | HasInside(N, targets, tolerance, c, u)
      ensures u in next
    {
      var v, i := PartOf(bsize, u);
      ParentInside(N, targets, tolerance, c, bsize, v, i);
      assert v in list;
      var j :| 0 <= j < |list| && list[j] == v;
      assert PartListed(N, targets, tolerance, c, bsize, list[j], i, next);
    }
  }

  /** A border whose target lies strictly inside the bucket lies at its end. */
  ghost predicate AtEnd(N: nat -> nat, t: nat, border: nat, tolerance: nat, w: nat, v: nat) {
    Inside(N, t, tolerance, Multiple(w, v), Multiple(w, v + 1)) ==> border == Multiple(w, v + 1)
  }

  ghost predicate AllAtEnd(N: nat -> nat, targets: seq<nat>, borders: seq<nat>, tolerance: nat, w: nat, v: nat)
    requires |borders| == |targets|
  {
    forall r :: 0 <= r < |targets| ==> AtEnd(N, targets[r], borders[r], tolerance, w, v)
  }

  /** The same for all parts of the first `b` buckets of the list. */
  ghost predicate PartsAtEnd(N: nat -> nat, targets: seq<nat>, borders: seq<nat>, tolerance: nat, c: nat, bsize: nat, list: seq<nat>, b: nat)
    requires b <= |list|
  {
    |borders| == |targets| && forall j, i :: 0 <= j < b && 0 <= i < bsize ==> PartAtEnd(N, targets, borders, tolerance, c, bsize, list[j], i)
  }

  ghost predicate PartAtEnd(N: nat -> nat, targets: seq<nat>, borders: seq<nat>, tolerance: nat, c: nat, bsize: nat, v: nat, i: nat)
    requires |borders| == |targets|
  {
    AllAtEnd(N, targets, borders, tolerance, c, Multiple(bsize, v) + i)
  }

  /** A part of the bucket that is cut: the border goes to the end of the part with its target inside. */
  lemma OwnPartAtEnd(N: nat -> nat, targets: seq<nat>, tolerance: nat, before: seq<nat>, after: seq<nat>,
      c: nat, first: nat, rc: seq<nat>, rbegin: nat, at: seq<nat>, i: nat)
    requires BucketMoved(N, targets, tolerance, before, after, c, first, rc, rbegin, at) && i < |rc| - 1
    ensures |after| == |targets| && AllAtEnd(N, targets, after, tolerance, c, first + i)
  {
    assert |after| == |targets|;
    hide BucketMoved, Inside, Multiple, Overshoots;
    forall r | 0 <= r < |targets|
      ensures AtEnd(N, targets[r], after[r], tolerance, c, first + i)
    {
      if Inside(N, targets[r], tolerance, Multiple(c, first + i), Multiple(c, first + i + 1)) {
        InsideOvershoots(N, targets, tolerance, before, after, c, first, rc, rbegin, at, i, r);
        BorderPlace(N, targets, tolerance, before, after, c, first, rc, rbegin, at, r);
        assert first + at[r - rbegin] == first + i + 1;
      }
    }
  }

  /** A part below the bucket that is cut: its borders do not move. */
  lemma OtherPartAtEnd(N: nat -> nat, targets: seq<nat>, tolerance: nat, before: seq<nat>, after: seq<nat>,
      c: nat, first: nat, rc: seq<nat>, rbegin: nat, at: seq<nat>, u: nat)
    requires BucketMoved(N, targets, tolerance, before, after, c, first, rc, rbegin, at) && u + 1 <= first
    requires |before| == |targets| && AllAtEnd(N, targets, before, tolerance, c, u)
    ensures |after| == |targets| && AllAtEnd(N, targets, after, tolerance, c, u)
  {
    assert |after| == |targets| && Monotone(N);
    MultipleMonotone(c, u + 1, first);
    assert N(Multiple(c, u + 1)) <= N(Multiple(c, first));
    hide BucketMoved, Multiple, Monotone;
    forall r | 0 <= r < |targets|
      ensures AtEnd(N, targets[r], after[r], tolerance, c, u)
    {
      assert AtEnd(N, targets[r], before[r], tolerance, c, u);
      BorderPlace(N, targets, tolerance, before, after, c, first, rc, rbegin, at, r);
      EndStays(N, targets[r], before[r], after[r], tolerance, Multiple(c, u), Multiple(c, u + 1), Multiple(c, first));
    }
  }

  lemma EndStays(N: nat -> nat, t: nat, before: nat, after: nat, tolerance: nat, lo: nat, hi: nat, first: nat)
    requires N(hi) <= N(first) && (t < N(first) ==> after == before) && (Inside(N, t, tolerance, lo, hi) ==> before == hi)
    ensures Inside(N, t, tolerance, lo, hi) ==> after == hi
  {
  }

  /** Cutting bucket number `b` keeps the borders at the ends of the parts before, and puts its own there. */
  lemma StepEnds(N: nat -> nat, targets: seq<nat>, tolerance: nat, before: seq<nat>, after: seq<nat>, c: nat, bsize: nat,
      list: seq<nat>, b: nat, rc: seq<nat>, rbegin: nat, at: seq<nat>, next: seq<nat>, pushed: seq<nat>)
    requires CutOf(N, targets, tolerance, before, after, c, bsize, list, b, rc, rbegin, at, next, pushed)
    requires PartsAtEnd(N, targets, before, tolerance, c, bsize, list, b)
    ensures PartsAtEnd(N, targets, after, tolerance, c, bsize, list, b + 1)
  {
    hide Progress, BucketMoved, AllAtEnd, Pushed, Multiple;
    var first := Multiple(bsize, list[b]);
    if bsize > 0 {
      OwnPartAtEnd(N, targets, tolerance, before, after, c, first, rc, rbegin, at, 0);
    } else {
      SameLengths(N, targets, tolerance, before, after, c, first, rc, rbegin, at);
    }
    forall j, i | 0 <= j < b + 1 && 0 <= i < bsize
      ensures PartAtEnd(N, targets, after, tolerance, c, bsize, list[j], i)
    {
      if j == b {
        OwnPartAtEnd(N, targets, tolerance, before, after, c, first, rc, rbegin, at, i);
      } else {
        assert PartAtEnd(N, targets, before, tolerance, c, bsize, list[j], i);
        PartsBelow(bsize, list[j], list[b], i);
        OtherPartAtEnd(N, targets, tolerance, before, after, c, first, rc, rbegin, at, Multiple(bsize, list[j]) + i);
      }
    }
  }

  lemma SameLengths(N: nat -> nat, targets: seq<nat>, tolerance: nat, before: seq<nat>, after: seq<nat>,
      c: nat, first: nat, rc: seq<nat>, rbegin: nat, at: seq<nat>)
    requires BucketMoved(N, targets, tolerance, before, after, c, first, rc, rbegin, at)
    ensures |before| == |after| == |targets|
  {
  }

  lemma PartsBelow(bsize: nat, v: nat, u: nat, i: nat)
    requires v < u && i < bsize
    ensures Multiple(bsize, v) + i + 1 <= Multiple(bsize, u)
  {
    MultipleMonotone(bsize, v + 1, u);
  }

  /** Once the whole list is cut, the borders of all targets inside a bucket of the next level are at its end. */
  lemma NextAtEnd(N: nat -> nat, targets: seq<nat>, borders: seq<nat>, tolerance: nat, c: nat, bsize: nat, list: seq<nat>)
    requires Monotone(N) && bsize > 0 && Complete(N, targets, tolerance, Multiple(c, bsize), list)
    requires PartsAtEnd(N, targets, borders, tolerance, c, bsize, list, |list|)
    ensures forall u: nat :: AllAtEnd(N, targets, borders, tolerance, c, u)
  {
    hide Monotone, Multiple, Inside, HasInside, AllAtEnd;
    forall u: nat
      ensures AllAtEnd(N, targets, borders, tolerance, c, u)
    {
      var v, i := PartOf(bsize, u);
      if HasInside(N, targets, tolerance, c, u) {
        ParentInside(N, targets, tolerance, c, bsize, v, i);
        assert v in list;
        var j :| 0 <= j < |list| && list[j] == v;
        assert PartAtEnd(N, targets, borders, tolerance, c, bsize, list[j], i);
      } else {
        NoneToMove(N, targets, borders, tolerance, c, u);
      }
    }
  }

  lemma NoneToMove(N: nat -> nat, targets: seq<nat>, borders: seq<nat>, tolerance: nat, w: nat, v: nat)
    requires |borders| == |targets| && !HasInside(N, targets, tolerance, w, v)
    ensures AllAtEnd(N, targets, borders, tolerance, w, v)
  {
    hide Inside;
  }

  /** The bucket with the first element. */
  ghost predicate HoldsFirst(N: nat -> nat, w: nat, v: nat) {
    N(Multiple(w, v)) == 0 < N(Multiple(w, v + 1))
  }

  lemma FirstIsUnique(N: nat -> nat, w: nat, v: nat, u: nat)
    requires Monotone(N) && HoldsFirst(N, w, v) && HoldsFirst(N, w, u)
    ensures v == u
  {
    if v < u {
      MultipleMonotone(w, v + 1, u);
    } else if u < v {
      MultipleMonotone(w, u + 1, v);
    }
  }

  /** The border of target 0 moves to the begin of the bucket with the first element, if that is cut. */
  lemma FirstBorderMoved(N: nat -> nat, targets: seq<nat>, tolerance: nat, before: seq<nat>, after: seq<nat>,
      c: nat, first: nat, rc: seq<nat>, rbegin: nat, at: seq<nat>)
    requires BucketMoved(N, targets, tolerance, before, after, c, first, rc, rbegin, at) && |targets| > 0 && targets[0] == 0
    ensures after[0] == if N(Multiple(c, first)) == 0 < N(Multiple(c, first + |rc| - 1)) then Multiple(c, first) else before[0]
  {
    BorderPlace(N, targets, tolerance, before, after, c, first, rc, rbegin, at, 0);
    if rbegin + |at| > 0 == rbegin {
      assert Chosen(rc, targets[rbegin + 0], tolerance, at[0]);
    }
  }

  /** The border of the total never moves. */
  lemma LastBorderStays(N: nat -> nat, targets: seq<nat>, tolerance: nat, before: seq<nat>, after: seq<nat>,
      c: nat, first: nat, rc: seq<nat>, rbegin: nat, at: seq<nat>)
    requires BucketMoved(N, targets, tolerance, before, after, c, first, rc, rbegin, at) && |targets| > 0
    requires N(Multiple(c, first + |rc| - 1)) <= targets[|targets| - 1]
    ensures after[|targets| - 1] == before[|targets| - 1]
  {
    BorderPlace(N, targets, tolerance, before, after, c, first, rc, rbegin, at, |targets| - 1);
  }
}
