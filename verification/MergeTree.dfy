/**
 * `Esutils::inplaceMerge`: sorted segments of one array, merged pairwise in rounds of doubling
 * width; the number of segments is padded by empty ones to a power of two.
 */
module MergeTree {
  import opened Basis
  import opened Esutils

  /** The stable merge of two sorted lists, the end first. */
  function Merged(a: seq<nat>, b: seq<nat>): (r: seq<nat>)
    ensures |r| == |a| + |b|
    decreases |a| + |b|
  {
    if b == [] then a
    else if a == [] then b
    else if a[|a| - 1] <= b[|b| - 1] then Merged(a, b[..|b| - 1]) + [b[|b| - 1]]
    else Merged(a[..|a| - 1], b) + [a[|a| - 1]]
  }

  lemma {:induction false} MergedKeepsAll(a: seq<nat>, b: seq<nat>)
    ensures multiset(Merged(a, b)) == multiset(a) + multiset(b)
    decreases |a| + |b|
  {
    if a != [] && b != [] {
      SplitLast(a);
      SplitLast(b);
      if a[|a| - 1] <= b[|b| - 1] {
        MergedKeepsAll(a, b[..|b| - 1]);
      } else {
        MergedKeepsAll(a[..|a| - 1], b);
      }
    }
  }

  ghost predicate Below(s: seq<nat>, x: nat) {
    forall i :: 0 <= i < |s| ==> s[i] <= x
  }

  lemma {:induction false} MergedBelow(a: seq<nat>, b: seq<nat>, x: nat)
    requires Below(a, x) && Below(b, x)
    ensures Below(Merged(a, b), x)
    decreases |a| + |b|
  {
    if a != [] && b != [] {
      if a[|a| - 1] <= b[|b| - 1] {
        MergedBelow(a, b[..|b| - 1], x);
      } else {
        MergedBelow(a[..|a| - 1], b, x);
      }
    }
  }

  lemma SortedBelowLast(s: seq<nat>)
    requires Sorted(s) && s != []
    ensures Below(s, s[|s| - 1]) && Sorted(s[..|s| - 1]) && Below(s[..|s| - 1], s[|s| - 1])
  {
  }

  lemma BelowMore(s: seq<nat>, x: nat, y: nat)
    requires Below(s, x) && x <= y
    ensures Below(s, y)
  {
  }

  lemma SortedAppend(s: seq<nat>, x: nat)
    requires Sorted(s) && Below(s, x)
    ensures Sorted(s + [x])
  {
  }

  lemma {:induction false} MergedSorted(a: seq<nat>, b: seq<nat>)
    requires Sorted(a) && Sorted(b)
    ensures Sorted(Merged(a, b))
    decreases |a| + |b|
  {
    if a != [] && b != [] {
      SortedBelowLast(a);
      SortedBelowLast(b);
      hide Sorted, Below;
      var x, y := a[|a| - 1], b[|b| - 1];
      if x <= y {
        MergedSorted(a, b[..|b| - 1]);
        BelowMore(a, x, y);
        MergedBelow(a, b[..|b| - 1], y);
        SortedAppend(Merged(a, b[..|b| - 1]), y);
      } else {
        MergedSorted(a[..|a| - 1], b);
        BelowMore(b, y, x);
        MergedBelow(a[..|a| - 1], b, x);
        SortedAppend(Merged(a[..|a| - 1], b), x);
      }
    }
  }

  /** A list with one range merged. */
  function MergedAt(s: seq<nat>, lo: nat, mid: nat, hi: nat): (r: seq<nat>)
    requires lo <= mid <= hi <= |s|
    ensures |r| == |s|
  {
    s[..lo] + Merged(s[lo..mid], s[mid..hi]) + s[hi..]
  }

  /** `std::inplace_merge` of `a[lo..mid]` and `a[mid..hi]`. */
  method InplaceMergeRange(a: array<nat>, lo: nat, mid: nat, hi: nat)
    requires lo <= mid <= hi <= a.Length
    modifies a
    ensures a[..] == MergedAt(old(a[..]), lo, mid, hi)
  {
    hide Merged, MergedAt, Written;
    var left, right := a[lo..mid], a[mid..hi];
    ghost var was, tail := a[..], [];
    var i, j := |left|, |right|;
    MergeStarts(was, lo, mid, hi);
    while i > 0 || j > 0
      invariant 0 <= i <= |left| && 0 <= j <= |right|
      invariant Written(a[..], was, lo + i + j, tail, hi)
      invariant Merged(left[..i], right[..j]) + tail == Merged(left, right)
      decreases i + j
    {
      ghost var before := a[..];
      var x: nat, takesRight := 0, i == 0 || (j > 0 && left[i - 1] <= right[j - 1]);
      MergeStep(left, right, i, j, tail, takesRight);
      if takesRight {
        j := j - 1;
        x := right[j];
      } else {
        i := i - 1;
        x := left[i];
      }
      WriteBefore(before, was, lo + i + j, tail, hi, x);
      a[lo + i + j] := x;
      tail := [x] + tail;
      assert a[..] == before[lo + i + j := x];
    }
    MergeEnds(a[..], was, lo, mid, hi, tail);
  }

  /** The range is untouched up to `k` and holds `tail` behind. */
  ghost predicate Written(s: seq<nat>, was: seq<nat>, k: nat, tail: seq<nat>, hi: nat) {
    k <= hi <= |was| && |s| == |was| && k + |tail| == hi && s == was[..k] + tail + was[hi..]
  }

  lemma MergeEnds(s: seq<nat>, was: seq<nat>, lo: nat, mid: nat, hi: nat, tail: seq<nat>)
    requires lo <= mid <= hi <= |was| && Written(s, was, lo, tail, hi)
    requires var left, right := was[lo..mid], was[mid..hi]; Merged(left[..0], right[..0]) + tail == Merged(left, right)
    ensures s == MergedAt(was, lo, mid, hi)
  {
  }

  lemma MergeStarts(was: seq<nat>, lo: nat, mid: nat, hi: nat)
    requires lo <= mid <= hi <= |was|
    ensures var left, right := was[lo..mid], was[mid..hi];
      && Written(was, was, lo + |left| + |right|, [], hi)
      && Merged(left[..|left|], right[..|right|]) + [] == Merged(left, right)
  {
    hide Merged;
    var left, right := was[lo..mid], was[mid..hi];
    assert left[..|left|] == left && right[..|right|] == right;
  }

  lemma MergeStep(left: seq<nat>, right: seq<nat>, i: nat, j: nat, tail: seq<nat>, takesRight: bool)
    requires i <= |left| && j <= |right| && i + j > 0
    requires takesRight == (i == 0 || (j > 0 && left[i - 1] <= right[j - 1]))
    ensures if takesRight
      then j > 0 && Merged(left[..i], right[..j]) + tail == Merged(left[..i], right[..j - 1]) + ([right[j - 1]] + tail)
      else i > 0 && Merged(left[..i], right[..j]) + tail == Merged(left[..i - 1], right[..j]) + ([left[i - 1]] + tail)
  {
    var a, b := left[..i], right[..j];
    if takesRight {
      MergedTakesRight(a, b);
      assert b[..j - 1] == right[..j - 1];
      hide Merged;
      ConcatAssociative(Merged(a, b[..j - 1]), [right[j - 1]], tail);
    } else {
      MergedTakesLeft(a, b);
      assert a[..i - 1] == left[..i - 1];
      hide Merged;
      ConcatAssociative(Merged(a[..i - 1], b), [left[i - 1]], tail);
    }
  }

  /** Writing the last element of the untouched part. */
  lemma WriteBefore(before: seq<nat>, was: seq<nat>, k: nat, tail: seq<nat>, hi: nat, x: nat)
    requires Written(before, was, k + 1, tail, hi)
    ensures k < |before| && Written(before[k := x], was, k, [x] + tail, hi)
  {
    assert before[k := x] == was[..k] + ([x] + tail) + was[hi..];
  }

  lemma MergedTakesRight(a: seq<nat>, b: seq<nat>)
    requires b != [] && (a == [] || a[|a| - 1] <= b[|b| - 1])
    ensures Merged(a, b) == Merged(a, b[..|b| - 1]) + [b[|b| - 1]]
  {
    if a == [] {
      SplitLast(b);
    }
  }

  lemma MergedTakesLeft(a: seq<nat>, b: seq<nat>)
    requires a != [] && (b == [] || a[|a| - 1] > b[|b| - 1])
    ensures Merged(a, b) == Merged(a[..|a| - 1], b) + [a[|a| - 1]]
  {
    if b == [] {
      SplitLast(a);
    }
  }

  lemma {:induction false} SliceOfLonger(p: seq<nat>, m: seq<nat>, q: seq<nat>, x: nat, y: nat)
    requires x <= y <= |p + m + q|
    ensures y <= |p| ==> (p + m + q)[x..y] == p[x..y]
    ensures |p| + |m| <= x ==> (p + m + q)[x..y] == q[x - |p| - |m|..y - |p| - |m|]
  {
  }

  /** What lies outside the merged range stays. */
  lemma MergedElsewhere(s: seq<nat>, lo: nat, mid: nat, hi: nat, x: nat, y: nat)
    requires lo <= mid <= hi <= |s| && x <= y <= |s| && (y <= lo || hi <= x)
    ensures MergedAt(s, lo, mid, hi)[x..y] == s[x..y]
  {
    hide Merged;
    SliceOfLonger(s[..lo], Merged(s[lo..mid], s[mid..hi]), s[hi..], x, y);
  }

  lemma MergedRange(s: seq<nat>, lo: nat, mid: nat, hi: nat)
    requires lo <= mid <= hi <= |s|
    ensures MergedAt(s, lo, mid, hi)[lo..hi] == Merged(s[lo..mid], s[mid..hi])
    ensures multiset(MergedAt(s, lo, mid, hi)[lo..hi]) == multiset(s[lo..hi])
    ensures multiset(MergedAt(s, lo, mid, hi)) == multiset(s)
  {
    hide Merged;
    var m := Merged(s[lo..mid], s[mid..hi]);
    MergedKeepsAll(s[lo..mid], s[mid..hi]);
    SliceJoin(s, lo, mid, hi);
    assert s == s[..lo] + s[lo..hi] + s[hi..];
    InTheMiddle(s[..lo], m, s[hi..]);
  }

  lemma InTheMiddle(p: seq<nat>, m: seq<nat>, q: seq<nat>)
    ensures (p + m + q)[|p|..|p| + |m|] == m
  {
  }

  /** Block boundaries inside the data. */
  ghost predicate Bounds(s: seq<nat>, e: seq<nat>) {
    Sorted(e) && |e| > 1 && e[|e| - 1] <= |s|
  }

  ghost predicate SortedBetween(s: seq<nat>, x: nat, y: nat)
    requires x <= y <= |s|
  {
    Sorted(s[x..y])
  }

  /** Within a round: pairs of blocks before `t` are merged, the blocks of the others are sorted. */
  ghost predicate Round(s: seq<nat>, e: seq<nat>, t: nat)
    requires Bounds(s, e) && |e| % 2 == 1
  {
    && 2 * t < |e|
    && (forall u :: 0 <= u < t ==> PairSorted(s, e, u))
    && (forall v :: 2 * t <= v < |e| - 1 ==> SortedBetween(s, e[v], e[v + 1]))
  }

  ghost predicate PairSorted(s: seq<nat>, e: seq<nat>, u: nat)
    requires Bounds(s, e) && 2 * u + 2 < |e|
  {
    SortedBetween(s, e[2 * u], e[2 * u + 2])
  }

  ghost predicate AllSorted(s: seq<nat>, e: seq<nat>)
    requires Bounds(s, e)
  {
    forall v :: 0 <= v < |e| - 1 ==> SortedBetween(s, e[v], e[v + 1])
  }

  /** Only the part between the outer boundaries is permuted. */
  ghost predicate Rearranged(was: seq<nat>, s: seq<nat>, lo: nat, hi: nat)
    requires lo <= hi <= |was|
  {
    |s| == |was| && s[..lo] == was[..lo] && s[hi..] == was[hi..] && multiset(s) == multiset(was)
  }

  lemma MergedRearranged(was: seq<nat>, s: seq<nat>, first: nat, last: nat, lo: nat, mid: nat, hi: nat)
    requires first <= lo <= mid <= hi <= last <= |was| && Rearranged(was, s, first, last)
    ensures Rearranged(was, MergedAt(s, lo, mid, hi), first, last)
  {
    MergedRange(s, lo, mid, hi);
    hide MergedAt;
    MergedElsewhere(s, lo, mid, hi, 0, first);
    MergedElsewhere(s, lo, mid, hi, last, |s|);
  }

  /** One merge of a round. */
  lemma MergePair(s: seq<nat>, e: seq<nat>, t: nat)
    requires Bounds(s, e) && |e| % 2 == 1 && Round(s, e, t) && 2 * t + 2 < |e|
    ensures e[0] <= e[2 * t] <= e[2 * t + 1] <= e[2 * t + 2] <= e[|e| - 1]
    ensures Round(MergedAt(s, e[2 * t], e[2 * t + 1], e[2 * t + 2]), e, t + 1)
  {
    var lo, mid, hi := e[2 * t], e[2 * t + 1], e[2 * t + 2];
    var next := MergedAt(s, lo, mid, hi);
    assert SortedBetween(s, e[2 * t], e[2 * t + 1]) && SortedBetween(s, e[2 * t + 1], e[2 * t + 2]);
    hide MergedAt, Merged;
    MergedBlock(s, lo, mid, hi);
    forall u | 0 <= u < t + 1
      ensures PairSorted(next, e, u)
    {
      if u < t {
        assert PairSorted(s, e, u);
        SortedElsewhere(s, lo, mid, hi, e[2 * u], e[2 * u + 2]);
      }
    }
    forall v | 2 * t + 2 <= v < |e| - 1
      ensures SortedBetween(next, e[v], e[v + 1])
    {
      SortedElsewhere(s, lo, mid, hi, e[v], e[v + 1]);
    }
  }

  /** Merging sorts the two blocks it joins. */
  lemma MergedBlock(s: seq<nat>, lo: nat, mid: nat, hi: nat)
    requires lo <= mid <= hi <= |s| && SortedBetween(s, lo, mid) && SortedBetween(s, mid, hi)
    ensures SortedBetween(MergedAt(s, lo, mid, hi), lo, hi)
  {
    hide MergedAt, Merged;
    MergedRange(s, lo, mid, hi);
    MergedSorted(s[lo..mid], s[mid..hi]);
  }

  /** Blocks outside the two merged ones stay sorted. */
  lemma SortedElsewhere(s: seq<nat>, lo: nat, mid: nat, hi: nat, x: nat, y: nat)
    requires lo <= mid <= hi <= |s| && x <= y <= |s| && (y <= lo || hi <= x) && SortedBetween(s, x, y)
    ensures SortedBetween(MergedAt(s, lo, mid, hi), x, y)
  {
    hide MergedAt, Merged;
    MergedElsewhere(s, lo, mid, hi, x, y);
  }

  /** Every second boundary. */
  function Halved(e: seq<nat>): (r: seq<nat>)
    requires |e| % 2 == 1
    ensures |r| == |e| / 2 + 1
  {
    seq(|e| / 2 + 1, t requires 0 <= t <= |e| / 2 => e[2 * t])
  }

  /** A finished round leaves blocks of double width. */
  lemma RoundEnds(s: seq<nat>, e: seq<nat>)
    requires Bounds(s, e) && |e| % 2 == 1 && Round(s, e, |e| / 2)
    ensures Bounds(s, Halved(e)) && AllSorted(s, Halved(e))
    ensures Halved(e)[0] == e[0] && Halved(e)[|e| / 2] == e[|e| - 1]
  {
    var h := Halved(e);
    forall v | 0 <= v < |h| - 1
      ensures SortedBetween(s, h[v], h[v + 1])
    {
      assert PairSorted(s, e, v);
    }
  }

  function PowerOfTwo(k: nat): (r: nat)
    ensures r > 0
  {
    if k == 0 then 1 else 2 * PowerOfTwo(k - 1)
  }

  /** The boundaries of blocks of `w` segments. */
  ghost predicate Stride(e: seq<nat>, d: seq<nat>, w: nat) {
    && |e| > 0 && Multiple(w, |e| - 1) == |d| - 1
    && forall t :: 0 <= t < |e| ==> StrideAt(e, d, w, t)
  }

  ghost predicate StrideAt(e: seq<nat>, d: seq<nat>, w: nat, t: nat)
    requires t < |e|
  {
    Multiple(w, t) < |d| && e[t] == d[Multiple(w, t)]
  }

  lemma StrideOne(d: seq<nat>)
    requires d != []
    ensures Stride(d, d, 1)
  {
    forall t | 0 <= t < |d|
      ensures Multiple(1, t) == t
    {
      MultipleIsProduct(1, t);
    }
  }

  lemma StrideDoubled(e: seq<nat>, d: seq<nat>, w: nat)
    requires Stride(e, d, w) && |e| % 2 == 1
    ensures Stride(Halved(e), d, 2 * w)
    ensures Halved(e)[0] == e[0] && Halved(e)[|e| / 2] == e[|e| - 1]
  {
    var h := Halved(e);
    DoubleMultiple(w, |h| - 1);
    forall t | 0 <= t < |h|
      ensures StrideAt(h, d, 2 * w, t)
    {
      assert StrideAt(e, d, w, 2 * t);
      DoubleMultiple(w, t);
    }
  }

  lemma {:induction false} DoubleMultiple(w: nat, t: nat)
    ensures Multiple(2 * w, t) == Multiple(w, 2 * t)
  {
    if t > 0 {
      DoubleMultiple(w, t - 1);
      assert Multiple(w, 2 * t) == Multiple(w, 2 * t - 1) + w;
      assert Multiple(w, 2 * t - 1) == Multiple(w, 2 * t - 2) + w;
    }
  }

  /** The three boundaries of the merge number `t` of a round. */
  lemma StrideOfPair(e: seq<nat>, d: seq<nat>, i: nat, t: nat)
    requires i % 2 == 0 && Stride(e, d, i / 2) && 2 * t + 2 < |e|
    ensures i * t + i < |d| && i * t >= 0
    ensures e[2 * t] == d[i * t] && e[2 * t + 1] == d[i * t + i / 2] && e[2 * t + 2] == d[i * t + i]
  {
    var w := i / 2;
    assert StrideAt(e, d, w, 2 * t) && StrideAt(e, d, w, 2 * t + 1) && StrideAt(e, d, w, 2 * t + 2);
    DoubleMultiple(w, t);
    MultipleIsProduct(2 * w, t);
    assert i == 2 * w && t * i == i * t;
  }

  /** One round: blocks of `i / 2` segments are merged to blocks of `i`. */
  method MergeRound(data: array<nat>, d: seq<nat>, i: nat, count: nat, ghost e: seq<nat>)
    requires i % 2 == 0 && Bounds(data[..], e) && |e| == 2 * count + 1 && Stride(e, d, i / 2) && AllSorted(data[..], e)
    modifies data
    ensures Bounds(data[..], Halved(e)) && AllSorted(data[..], Halved(e))
    ensures Rearranged(old(data[..]), data[..], e[0], e[|e| - 1])
  {
    hide AllSorted, Round, Stride, Rearranged, Sorted, MergedAt;
    ghost var was := data[..];
    RoundStarts(was, e);
    for t := 0 to count
      invariant Bounds(data[..], e) && Round(data[..], e, t) && Rearranged(was, data[..], e[0], e[|e| - 1])
    {
      StrideOfPair(e, d, i, t);
      MergePair(data[..], e, t);
      MergedRearranged(was, data[..], e[0], e[|e| - 1], e[2 * t], e[2 * t + 1], e[2 * t + 2]);
      InplaceMergeRange(data, d[i * t], d[i * t + i / 2], d[i * t + i]);
    }
    RoundEnds(data[..], e);
  }

  lemma RoundStarts(s: seq<nat>, e: seq<nat>)
    requires Bounds(s, e) && |e| % 2 == 1 && AllSorted(s, e)
    ensures e[0] <= e[|e| - 1] && Round(s, e, 0) && Rearranged(s, s, e[0], e[|e| - 1])
  {
  }

  /** All rounds, up to the width `align` of the whole tree. */
  method MergeRounds(data: array<nat>, d: seq<nat>, align: nat, ghost levels: nat)
    requires |d| == align + 1 && align == PowerOfTwo(levels) && Bounds(data[..], d) && AllSorted(data[..], d)
    modifies data
    ensures d[0] <= d[align] <= data.Length
    ensures Rearranged(old(data[..]), data[..], d[0], d[align]) && SortedBetween(data[..], d[0], d[align])
  {
    hide AllSorted, Stride, Rearranged, Bounds, Halved, PowerOfTwo, Multiple;
    ghost var was, e := data[..], d;
    ghost var level: nat := levels;
    BoundsInside(was, d);
    StrideOne(d);
    MultipleIsProduct(1, align);
    var i := 2;
    while i <= align
      invariant i > 0 && i % 2 == 0 && level <= levels && Multiple(i / 2, PowerOfTwo(level)) == align
      invariant |e| == PowerOfTwo(level) + 1 && Bounds(data[..], e) && Stride(e, d, i / 2) && AllSorted(data[..], e)
      invariant e[0] == d[0] && e[|e| - 1] == d[align] && Rearranged(was, data[..], d[0], d[align])
      decreases align - i
    {
      BlocksOfRound(align, i, level);
      ghost var before := data[..];
      MergeRound(data, d, i, align / i, e);
      StrideDoubled(e, d, i / 2);
      RearrangedTwice(was, before, data[..], d[0], d[align]);
      e, level := Halved(e), level - 1;
      i := i * 2;
    }
    LastRound(align, i, level);
    NoRoundLeft();
    WholeSorted(data[..], e);
  }

  lemma BoundsInside(s: seq<nat>, d: seq<nat>)
    requires Bounds(s, d)
    ensures d[0] <= d[|d| - 1] <= |s| && Rearranged(s, s, d[0], d[|d| - 1])
  {
  }

  lemma NoRoundLeft()
    ensures PowerOfTwo(0) == 1
  {
  }

  lemma WholeSorted(s: seq<nat>, e: seq<nat>)
    requires Bounds(s, e) && AllSorted(s, e) && |e| == 2
    ensures e[0] <= e[1] <= |s| && SortedBetween(s, e[0], e[1])
  {
  }

  lemma RearrangedTwice(a: seq<nat>, b: seq<nat>, c: seq<nat>, lo: nat, hi: nat)
    requires lo <= hi <= |a| && Rearranged(a, b, lo, hi) && Rearranged(b, c, lo, hi)
    ensures Rearranged(a, c, lo, hi)
  {
  }

  /** A round within the tree has half as many merges as blocks. */
  lemma BlocksOfRound(align: nat, i: nat, level: nat)
    requires i > 0 && i % 2 == 0 && i <= align && Multiple(i / 2, PowerOfTwo(level)) == align
    ensures level > 0 && PowerOfTwo(level) == 2 * (align / i) && PowerOfTwo(level - 1) == align / i
    ensures Multiple(i, PowerOfTwo(level - 1)) == align
  {
    var w := i / 2;
    MultipleIsProduct(w, 1);
    if level > 0 {
      var half := PowerOfTwo(level - 1);
      DoubleMultiple(w, half);
      MultipleIsProduct(i, half);
      Divides(align, i, half);
    }
  }

  lemma Divides(n: nat, i: nat, k: nat)
    requires i > 0 && n == k * i
    ensures n / i == k
  {
    var q, r := n / i, n % i;
    assert n == i * q + r;
    assert i * (k - q) == r;
    AtLeastOnce(i, k - q);
    AtLeastOnce(i, q - k);
    assert i * (q - k) == -r;
  }

  lemma AtLeastOnce(i: nat, n: int)
    ensures n >= 1 ==> i * n >= i
  {
  }

  lemma LastRound(align: nat, i: nat, level: nat)
    requires i % 2 == 0 && i > align && Multiple(i / 2, PowerOfTwo(level)) == align
    ensures level == 0
  {
    OnlyOne(i / 2, PowerOfTwo(level));
  }

  lemma OnlyOne(w: nat, n: nat)
    requires Multiple(w, n) < 2 * w
    ensures n < 2
  {
    MultipleIsProduct(w, n);
    AtLeastOnce(w, n - 1);
  }

  /** The boundaries with the last one repeated up to `align` segments. */
  function Padded(d: seq<nat>, align: nat): (r: seq<nat>)
    requires 0 < |d| <= align + 1
    ensures |r| == align + 1
  {
    d + seq(align + 1 - |d|, _ => d[|d| - 1])
  }

  /** Every segment of the data is sorted. */
  ghost predicate SortedSegments(s: seq<nat>, d: seq<nat>) {
    && |d| > 0 && Sorted(d) && d[|d| - 1] <= |s|
    && forall t :: 0 <= t < |d| - 1 ==> SortedBetween(s, d[t], d[t + 1])
  }

  lemma PaddedSorted(s: seq<nat>, d: seq<nat>, align: nat)
    requires SortedSegments(s, d) && |d| <= align + 1 && align > 0
    ensures Bounds(s, Padded(d, align)) && AllSorted(s, Padded(d, align))
    ensures Padded(d, align)[0] == d[0] && Padded(d, align)[align] == d[|d| - 1]
  {
    var p := Padded(d, align);
    forall t | 0 <= t < |p|
      ensures p[t] == if t < |d| then d[t] else d[|d| - 1]
    {
    }
    PaddedSegments(s, d, p);
  }

  lemma PaddedSegments(s: seq<nat>, d: seq<nat>, p: seq<nat>)
    requires SortedSegments(s, d) && |p| > 1
    requires forall t :: 0 <= t < |p| ==> p[t] == if t < |d| then d[t] else d[|d| - 1]
    ensures Bounds(s, p) && AllSorted(s, p)
  {
    forall t | 0 <= t < |p| - 1
      ensures SortedBetween(s, p[t], p[t + 1])
    {
      if t + 1 < |d| {
        assert SortedBetween(s, d[t], d[t + 1]);
      }
    }
  }

  /** The smallest power of two not below `size`. */
  method Align(size: nat) returns (align: nat, ghost levels: nat)
    ensures align == PowerOfTwo(levels) && align >= size && (levels > 0 ==> PowerOfTwo(levels - 1) < size)
  {
    align, levels := 1, 0;
    while align < size
      invariant align == PowerOfTwo(levels) && (levels > 0 ==> PowerOfTwo(levels - 1) < size)
      decreases size - align
    {
      align, levels := align * 2, levels + 1;
    }
  }

  /** `inplaceMerge`: sorted segments become one sorted range. */
  method InplaceMerge(data: array<nat>, distribution: seq<nat>)
    requires SortedSegments(data[..], distribution)
    modifies data
    ensures distribution[0] <= distribution[|distribution| - 1] <= data.Length
    ensures Rearranged(old(data[..]), data[..], distribution[0], distribution[|distribution| - 1])
    ensures SortedBetween(data[..], distribution[0], distribution[|distribution| - 1])
  {
    hide SortedBetween, Rearranged, AllSorted, Bounds, Padded, Sorted;
    var align: nat;
    ghost var levels: nat;
    align, levels := Align(|distribution|);
    var padded := Padded(distribution, align);
    PaddedSorted(data[..], distribution, align);
    MergeRounds(data, padded, align, levels);
  }

  /**
   * `mergeAppendedData`: sorted data in front of `distribution[1]`, sorted segments appended to
   * them.
   */
  method MergeAppendedData(data: array<nat>, distribution: seq<nat>)
    requires |distribution| > 1 && distribution[|distribution| - 1] == data.Length
    requires SortedSegments(data[..], distribution[1..]) && SortedBetween(data[..], 0, distribution[1])
    modifies data
    ensures Sorted(data[..]) && multiset(data[..]) == multiset(old(data[..]))
  {
    hide SortedBetween, Rearranged, AllSorted, Bounds, Padded, Sorted, MergedAt;
    ghost var was := data[..];
    var appended := distribution[1..];
    var align: nat;
    ghost var levels: nat;
    align, levels := Align(|appended|);
    var padded := Padded(appended, align);
    PaddedSorted(data[..], appended, align);
    MergeRounds(data, padded, align, levels);
    FrontKept(was, data[..], distribution[1], data.Length);
    MergeAll(data[..], distribution[1]);
    InplaceMergeRange(data, 0, padded[0], padded[align]);
  }

  lemma FrontKept(was: seq<nat>, s: seq<nat>, lo: nat, hi: nat)
    requires lo <= hi <= |was| && Rearranged(was, s, lo, hi) && SortedBetween(was, 0, lo)
    ensures |s| == |was| && SortedBetween(s, 0, lo) && multiset(s) == multiset(was)
  {
    assert s[0..lo] == s[..lo] && was[0..lo] == was[..lo];
  }

  lemma MergeAll(s: seq<nat>, mid: nat)
    requires mid <= |s| && SortedBetween(s, 0, mid) && SortedBetween(s, mid, |s|)
    ensures Sorted(MergedAt(s, 0, mid, |s|)) && multiset(MergedAt(s, 0, mid, |s|)) == multiset(s)
  {
    MergedSorted(s[0..mid], s[mid..|s|]);
    MergedRange(s, 0, mid, |s|);
    hide Merged;
    assert MergedAt(s, 0, mid, |s|) == Merged(s[0..mid], s[mid..|s|]);
  }

  /** What `sortAndRemoveDuplicity` returns. */
  ghost predicate SortedUnique(s: seq<nat>, r: seq<nat>) {
    Increasing(r) && forall x :: x in r <==> x in s
  }

  method SortAndRemoveDuplicity(s: seq<nat>) returns (r: seq<nat>)
    ensures SortedUnique(s, r)
  {
    hide Increasing, Sorted;
    SortOfSorted(s);
    SortKeepsAll(s);
    r := RemoveDuplicity(SortOf(s));
    UniqueIncreasing(SortOf(s));
    UniqueMembers(SortOf(s));
    SameMembers(SortOf(s), s);
  }

  lemma SameMembers(a: seq<nat>, b: seq<nat>)
    requires multiset(a) == multiset(b)
    ensures forall x :: x in a <==> x in b
  {
    forall x: nat
      ensures x in a <==> x in b
    {
      assert x in a <==> x in multiset(a);
      assert x in b <==> x in multiset(b);
    }
  }

  /** The segments joined so far, with their boundaries. */
  ghost predicate Joined(lists: seq<seq<nat>>, k: nat, all: seq<nat>, d: seq<nat>) {
    && k <= |lists| && |d| == k + 1 && d[0] == 0 && d[k] == |all|
    && SortedSegments(all, d)
    && (forall x :: x in all <==> exists t :: 0 <= t < k && x in lists[t])
  }

  lemma JoinNext(lists: seq<seq<nat>>, k: nat, all: seq<nat>, d: seq<nat>, next: seq<nat>)
    requires Joined(lists, k, all, d) && k < |lists| && SortedUnique(lists[k], next)
    ensures Joined(lists, k + 1, all + next, d + [|all + next|])
  {
    var a, e := all + next, d + [|all + next|];
    JoinedMembers(lists, k, all, next);
    JoinedSorted(all, d, next);
  }

  lemma JoinedSorted(all: seq<nat>, d: seq<nat>, next: seq<nat>)
    requires SortedSegments(all, d) && d[|d| - 1] == |all| && Increasing(next)
    ensures SortedSegments(all + next, d + [|all + next|])
  {
    var a, e := all + next, d + [|all + next|];
    assert a[|all|..|a|] == next;
    forall t | 0 <= t < |e| - 1
      ensures SortedBetween(a, e[t], e[t + 1])
    {
      if t + 1 < |d| {
        assert SortedBetween(all, d[t], d[t + 1]);
        assert a[d[t]..d[t + 1]] == all[d[t]..d[t + 1]];
      }
    }
  }

  lemma JoinedMembers(lists: seq<seq<nat>>, k: nat, all: seq<nat>, next: seq<nat>)
    requires k < |lists| && forall x :: x in next <==> x in lists[k]
    requires forall x :: x in all <==> exists t :: 0 <= t < k && x in lists[t]
    ensures forall x :: x in all + next <==> exists t :: 0 <= t < k + 1 && x in lists[t]
  {
  }

  /** `sortWithUniqueMerge`: the members of all lists, each once, in order. */
  method SortWithUniqueMerge(lists: seq<seq<nat>>) returns (r: seq<nat>)
    requires lists != []
    ensures Increasing(r) && forall x :: x in r <==> exists t :: 0 <= t < |lists| && x in lists[t]
  {
    hide Increasing, SortedSegments, Rearranged, SortedBetween, Sorted;
    var all: seq<nat>, distribution: seq<nat> := [], [0];
    NothingJoined(lists);
    for t := 0 to |lists|
      invariant Joined(lists, t, all, distribution)
    {
      var next := SortAndRemoveDuplicity(lists[t]);
      JoinNext(lists, t, all, distribution, next);
      all := all + next;
      distribution := distribution + [|all|];
    }
    var data := new nat[|all|](i requires 0 <= i < |all| => all[i]);
    assert data[..] == all;
    InplaceMerge(data, distribution);
    RearrangedMembers(all, data[..], distribution[0], distribution[|lists|]);
    r := SortAndRemoveDuplicity(data[..]);
  }

  lemma NothingJoined(lists: seq<seq<nat>>)
    ensures Joined(lists, 0, [], [0])
  {
  }

  lemma RearrangedMembers(was: seq<nat>, s: seq<nat>, lo: nat, hi: nat)
    requires lo <= hi <= |was| && Rearranged(was, s, lo, hi)
    ensures forall x :: x in s <==> x in was
  {
    SameMembers(s, was);
  }
}
