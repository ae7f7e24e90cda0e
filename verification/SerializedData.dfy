/**
 * `serializededata::balance`: per-thread vectors of boundaries and data, moved in place between
 * the threads until every thread holds its share of the structures.
 */
module SerializedData {
  import opened Basis
  import opened TArray

  /**
   * All boundaries in a row, the leading 0 included, and all data they delimit. Structure `k` is
   * the data from `boundaries[k]` to `boundaries[k + 1]`.
   */
  datatype Whole<T> = Whole(boundaries: seq<nat>, data: seq<T>)

  ghost predicate ValidWhole<T>(w: Whole<T>) {
    |w.boundaries| > 0 && w.boundaries[0] == 0 && Sorted(w.boundaries) && w.boundaries[|w.boundaries| - 1] == |w.data|
  }

  /** Number of structures. */
  function Structures<T>(w: Whole<T>): int {
    |w.boundaries| - 1
  }

  /** Thread `s` holds the structures `cuts[s] .. cuts[s + 1]`. */
  ghost predicate ValidCuts(cuts: seq<nat>, n: nat, total: int) {
    |cuts| == n + 1 && cuts[0] == 0 && cuts[n] == total && Sorted(cuts)
  }

  /** Exactly those structures, boundaries and data; the leading 0 stays with thread 0. */
  ghost predicate ThreadHolds<T>(w: Whole<T>, s: nat, lo: nat, hi: nat, boundaries: seq<nat>, data: seq<T>, size: int)
    requires ValidWhole(w) && lo <= hi < |w.boundaries|
  {
    && boundaries == w.boundaries[if s == 0 then 0 else lo + 1..hi + 1]
    && w.boundaries[lo] <= w.boundaries[hi] <= |w.data| && data == w.data[w.boundaries[lo]..w.boundaries[hi]]
    && size == hi - lo
  }

  /** Thread `t` takes the structures up to `to` from thread `tt`. */
  lemma Take<T>(w: Whole<T>, t: nat, tt: nat, lo: nat, mid: nat, to: nat, hi: nat, a: seq<nat>, b: seq<nat>, x: seq<T>, y: seq<T>,
      size: int, rest: int)
    requires ValidWhole(w) && tt > 0 && lo <= mid <= to <= hi < |w.boundaries|
    requires ThreadHolds(w, t, lo, mid, a, x, size) && ThreadHolds(w, tt, mid, hi, b, y, rest)
    ensures to - mid <= |b| && w.boundaries[mid] <= w.boundaries[to] <= w.boundaries[hi] && w.boundaries[to] - w.boundaries[mid] <= |y|
    ensures ThreadHolds(w, t, lo, to, a + b[..to - mid], x + y[..w.boundaries[to] - w.boundaries[mid]], size + (to - mid))
    ensures ThreadHolds(w, tt, to, hi, b[to - mid..], y[w.boundaries[to] - w.boundaries[mid]..], rest - (to - mid))
  {
    TakeBounds(w, lo, mid, to, hi);
    TakeParts(w.boundaries, if t == 0 then 0 else lo + 1, mid + 1, to + 1, hi + 1);
    TakeParts(w.data, w.boundaries[lo], w.boundaries[mid], w.boundaries[to], w.boundaries[hi]);
  }

  lemma TakeBounds<T>(w: Whole<T>, lo: nat, mid: nat, to: nat, hi: nat)
    requires ValidWhole(w) && lo <= mid <= to <= hi < |w.boundaries|
    ensures w.boundaries[lo] <= w.boundaries[mid] <= w.boundaries[to] <= w.boundaries[hi] <= |w.data|
  {
  }

  /** The front of one slice moves to the end of the one before. */
  lemma TakeParts<T>(s: seq<T>, a: nat, b: nat, c: nat, d: nat)
    requires a <= b <= c <= d <= |s|
    ensures |s[b..d]| == d - b && s[a..b] + s[b..d][..c - b] == s[a..c] && s[b..d][c - b..] == s[c..d]
  {
    SliceJoin(s, a, b, c);
    SliceSplit(s, b, c, d);
  }

  /** Thread `t` hands everything from structure `to` on over to thread `t + 1`, in front of what that holds. */
  lemma Give<T>(w: Whole<T>, t: nat, lo: nat, to: nat, mid: nat, hi: nat, a: seq<nat>, b: seq<nat>, x: seq<T>, y: seq<T>,
      size: int, rest: int)
    requires ValidWhole(w) && lo <= to <= mid <= hi < |w.boundaries| && (t > 0 ==> lo < to)
    requires ThreadHolds(w, t, lo, mid, a, x, size) && ThreadHolds(w, t + 1, mid, hi, b, y, rest)
    ensures var diff := mid - to;
      && diff < |a|
      && w.boundaries[to] <= w.boundaries[mid] && w.boundaries[mid] - w.boundaries[to] <= |x|
    ensures var diff := mid - to;
      var ediff := w.boundaries[mid] - w.boundaries[to];
      && ThreadHolds(w, t, lo, to, a[..|a| - diff], x[..|x| - ediff], size - diff)
      && ThreadHolds(w, t + 1, to, hi, a[|a| - diff..] + b, x[|x| - ediff..] + y, rest + diff)
  {
    TakeBounds(w, lo, to, mid, hi);
    hide Sorted;
    MoveEnd(w.boundaries, if t == 0 then 0 else lo + 1, to + 1, mid + 1, hi + 1);
    MoveEnd(w.data, w.boundaries[lo], w.boundaries[to], w.boundaries[mid], w.boundaries[hi]);
  }

  /** The end of one slice moves to the front of the next one. */
  lemma MoveEnd<T>(s: seq<T>, a: nat, b: nat, c: nat, d: nat)
    requires a <= b <= c <= d <= |s|
    ensures |s[a..c]| - (c - b) == b - a && s[a..c][..b - a] == s[a..b] && s[a..c][b - a..] + s[c..d] == s[b..d]
  {
    SliceSplit(s, a, b, c);
    SliceJoin(s, b, c, d);
  }

  lemma InOrder(s: seq<nat>, i: nat, j: nat)
    requires Sorted(s) && i <= j < |s|
    ensures s[i] <= s[j]
  {
  }

  lemma SliceSplit<T>(s: seq<T>, a: nat, b: nat, c: nat)
    requires a <= b <= c <= |s|
    ensures s[a..c][..b - a] == s[a..b] && s[a..c][b - a..] == s[b..c]
  {
  }

  /** The vectors of all threads. */
  ghost predicate Cut<T>(w: Whole<T>, cuts: seq<nat>, boundaries: seq<seq<nat>>, data: seq<seq<T>>, sizes: seq<int>)
    requires ValidWhole(w) && ValidCuts(cuts, |boundaries|, Structures(w))
  {
    |data| == |sizes| == |boundaries| && forall s :: 0 <= s < |boundaries| ==> CutAt(w, cuts, boundaries, data, sizes, s)
  }

  ghost predicate CutAt<T>(w: Whole<T>, cuts: seq<nat>, boundaries: seq<seq<nat>>, data: seq<seq<T>>, sizes: seq<int>, s: nat)
    requires ValidWhole(w) && ValidCuts(cuts, |boundaries|, Structures(w)) && s < |boundaries| == |data| == |sizes|
  {
    ThreadHolds(w, s, cuts[s], cuts[s + 1], boundaries[s], data[s], sizes[s])
  }

  function Max(a: nat, b: nat): nat {
    if a < b then b else a
  }

  /**
   * The cuts while thread `t` is filled: the threads before it are done, it and the emptied
   * threads up to `tt` end at the same structure, the others hold what is left of their own.
   */
  ghost predicate Filling(first: seq<nat>, d: seq<nat>, t: nat, tt: nat, cuts: seq<nat>) {
    && t < tt < |cuts| == |first| == |d|
    && (forall s :: 0 <= s <= t ==> cuts[s] == d[s])
    && (forall s :: t < s <= tt ==> cuts[s] == Max(first[tt], d[t]))
    && (forall s :: tt < s < |cuts| ==> cuts[s] == Max(first[s], d[t]))
  }

  /** The cuts when thread `t` is done, so when the next one starts. */
  ghost predicate Filled(first: seq<nat>, d: seq<nat>, t: nat, cuts: seq<nat>) {
    && t < |cuts| == |first| == |d|
    && (forall s :: 0 <= s <= t ==> cuts[s] == d[s])
    && (forall s :: t < s < |cuts| ==> cuts[s] == Max(first[s], d[t]))
  }

  /** No thread but the first has to give structures away without keeping one. */
  ghost predicate Safe(first: seq<nat>, d: seq<nat>)
    requires |first| == |d|
  {
    forall t :: 0 < t < |d| - 1 ==> SafeAt(first, d, t)
  }

  ghost predicate SafeAt(first: seq<nat>, d: seq<nat>, t: nat)
    requires |first| == |d| && t < |d| - 1
  {
    d[t] == d[t + 1] ==> first[t + 1] <= d[t]
  }

  /** Distributions of `tarray` have empty chunks only at the end, where nothing is left. */
  lemma DistributionIsSafe(first: seq<nat>, d: seq<nat>, size: nat)
    requires |first| == |d| && IsDistribution(d, size) && forall s :: 0 <= s < |first| ==> first[s] <= size
    ensures Safe(first, d)
  {
    forall t | 0 < t < |d| - 1
      ensures SafeAt(first, d, t)
    {
      if d[t] == d[t + 1] && t + 1 < |d| - 1 {
        assert d[t + 1] == size;
      }
    }
  }

  /** The last boundary before thread `tt` is the begin of its first structure, however many empty threads are between. */
  lemma LastBefore<T>(w: Whole<T>, cuts: seq<nat>, boundaries: seq<seq<nat>>, data: seq<seq<T>>, sizes: seq<int>, s: nat, tt: nat)
    requires ValidWhole(w) && ValidCuts(cuts, |boundaries|, Structures(w)) && Cut(w, cuts, boundaries, data, sizes)
    requires s < tt < |boundaries| && cuts[s + 1] == cuts[tt] && boundaries[s] != []
    ensures boundaries[s][|boundaries[s]| - 1] == w.boundaries[cuts[tt]]
  {
    assert CutAt(w, cuts, boundaries, data, sizes, s);
  }

  lemma EmptyBefore<T>(w: Whole<T>, cuts: seq<nat>, boundaries: seq<seq<nat>>, data: seq<seq<T>>, sizes: seq<int>, s: nat)
    requires ValidWhole(w) && ValidCuts(cuts, |boundaries|, Structures(w)) && Cut(w, cuts, boundaries, data, sizes)
    requires s < |boundaries| && boundaries[s] == []
    ensures s > 0 && cuts[s] == cuts[s + 1]
  {
    assert CutAt(w, cuts, boundaries, data, sizes, s);
  }

  /** The cuts with those of the threads behind `t` up to `tt` moved to `v`. */
  function MovedCuts(cuts: seq<nat>, t: nat, tt: nat, v: nat): (r: seq<nat>)
    ensures |r| == |cuts|
  {
    seq(|cuts|, s requires 0 <= s < |cuts| => if t < s <= tt then v else cuts[s])
  }

  lemma MovedCutsValid(cuts: seq<nat>, n: nat, total: int, t: nat, tt: nat, v: nat)
    requires ValidCuts(cuts, n, total) && t < tt < n && cuts[t] <= v <= cuts[tt + 1]
    ensures ValidCuts(MovedCuts(cuts, t, tt, v), n, total)
  {
    forall i, j | 0 <= i < j < |cuts|
      ensures MovedCuts(cuts, t, tt, v)[i] <= MovedCuts(cuts, t, tt, v)[j]
    {
      InOrder(cuts, i, j);
      if i <= t {
        InOrder(cuts, i, t);
      }
      if tt < j {
        InOrder(cuts, tt + 1, j);
      }
    }
  }

  /** The vectors after thread `t` took `v - cuts[tt]` structures from thread `tt`. */
  ghost predicate Taken<T>(w: Whole<T>, cuts: seq<nat>, b: seq<seq<nat>>, data: seq<seq<T>>, sizes: seq<int>, t: nat, tt: nat, v: nat,
      b': seq<seq<nat>>, data': seq<seq<T>>, sizes': seq<int>) {
    && t < tt < |b| == |data| == |sizes| && |cuts| == |b| + 1 && cuts[tt] <= v < |w.boundaries| && w.boundaries[cuts[tt]] <= w.boundaries[v]
    && v - cuts[tt] <= |b[tt]| && w.boundaries[v] - w.boundaries[cuts[tt]] <= |data[tt]|
    && b' == b[t := b[t] + b[tt][..v - cuts[tt]]][tt := b[tt][v - cuts[tt]..]]
    && data' == data[t := data[t] + data[tt][..w.boundaries[v] - w.boundaries[cuts[tt]]]]
                    [tt := data[tt][w.boundaries[v] - w.boundaries[cuts[tt]]..]]
    && sizes' == sizes[t := sizes[t] + (v - cuts[tt])][tt := sizes[tt] - (v - cuts[tt])]
  }

  lemma TakeEnds<T>(w: Whole<T>, cuts: seq<nat>, b: seq<seq<nat>>, data: seq<seq<T>>, sizes: seq<int>, t: nat, tt: nat, v: nat,
      b': seq<seq<nat>>, data': seq<seq<T>>, sizes': seq<int>)
    requires ValidWhole(w) && ValidCuts(cuts, |b|, Structures(w)) && Cut(w, cuts, b, data, sizes)
    requires Taken(w, cuts, b, data, sizes, t, tt, v, b', data', sizes') && cuts[t + 1] == cuts[tt] && v <= cuts[tt + 1]
    ensures cuts[t] <= v <= cuts[tt + 1] < |w.boundaries|
    ensures ThreadHolds(w, t, cuts[t], v, b'[t], data'[t], sizes'[t])
    ensures ThreadHolds(w, tt, v, cuts[tt + 1], b'[tt], data'[tt], sizes'[tt])
  {
    hide Sorted, ThreadHolds, ValidWhole;
    InOrder(cuts, t, t + 1);
    InOrder(cuts, tt + 1, |b|);
    assert CutAt(w, cuts, b, data, sizes, t) && CutAt(w, cuts, b, data, sizes, tt);
    hide Cut;
    Take(w, t, tt, cuts[t], cuts[tt], v, cuts[tt + 1], b[t], b[tt], data[t], data[tt], sizes[t], sizes[tt]);
  }

  /** A thread that is not touched, between cuts that are not moved. */
  lemma Untouched<T>(w: Whole<T>, cuts: seq<nat>, b: seq<seq<nat>>, data: seq<seq<T>>, sizes: seq<int>, s: nat,
      c: seq<nat>, b': seq<seq<nat>>, data': seq<seq<T>>, sizes': seq<int>)
    requires ValidWhole(w) && ValidCuts(cuts, |b|, Structures(w)) && ValidCuts(c, |b'|, Structures(w))
    requires |b| == |data| == |sizes| == |b'| == |data'| == |sizes'| && s < |b| && CutAt(w, cuts, b, data, sizes, s)
    requires c[s] == cuts[s] && c[s + 1] == cuts[s + 1] && b'[s] == b[s] && data'[s] == data[s] && sizes'[s] == sizes[s]
    ensures CutAt(w, c, b', data', sizes', s)
  {
  }

  /** A thread without structures is empty wherever its cut is. */
  lemma EmptyThread<T>(w: Whole<T>, s: nat, lo: nat, v: nat, boundaries: seq<nat>, data: seq<T>, size: int)
    requires ValidWhole(w) && s > 0 && lo < |w.boundaries| && v < |w.boundaries| && ThreadHolds(w, s, lo, lo, boundaries, data, size)
    ensures ThreadHolds(w, s, v, v, boundaries, data, size)
  {
    InOrder(w.boundaries, v, |w.boundaries| - 1);
  }

  lemma BetweenEmpty(cuts: seq<nat>, t: nat, tt: nat, s: nat)
    requires Sorted(cuts) && t < s < tt < |cuts| && cuts[t + 1] == cuts[tt]
    ensures cuts[s] == cuts[s + 1] == cuts[tt]
  {
  }

  /** Thread `t` takes the structures up to `v` from thread `tt`; those between are empty. */
  lemma TakeCut<T>(w: Whole<T>, cuts: seq<nat>, b: seq<seq<nat>>, data: seq<seq<T>>, sizes: seq<int>, t: nat, tt: nat, v: nat,
      b': seq<seq<nat>>, data': seq<seq<T>>, sizes': seq<int>)
    requires ValidWhole(w) && ValidCuts(cuts, |b|, Structures(w)) && Cut(w, cuts, b, data, sizes)
    requires Taken(w, cuts, b, data, sizes, t, tt, v, b', data', sizes') && cuts[t + 1] == cuts[tt] && v <= cuts[tt + 1]
    ensures ValidCuts(MovedCuts(cuts, t, tt, v), |b'|, Structures(w)) && Cut(w, MovedCuts(cuts, t, tt, v), b', data', sizes')
  {
    var c := MovedCuts(cuts, t, tt, v);
    TakeEnds(w, cuts, b, data, sizes, t, tt, v, b', data', sizes');
    MovedCutsValid(cuts, |b|, Structures(w), t, tt, v);
    forall s | 0 <= s < |b|
      ensures CutAt(w, c, b', data', sizes', s)
    {
      TakenAt(w, cuts, b, data, sizes, t, tt, v, b', data', sizes', s);
    }
    hide ThreadHolds, Taken, CutAt;
  }

  lemma TakenAt<T>(w: Whole<T>, cuts: seq<nat>, b: seq<seq<nat>>, data: seq<seq<T>>, sizes: seq<int>, t: nat, tt: nat, v: nat,
      b': seq<seq<nat>>, data': seq<seq<T>>, sizes': seq<int>, s: nat)
    requires ValidWhole(w) && ValidCuts(cuts, |b|, Structures(w)) && Cut(w, cuts, b, data, sizes) && s < |b|
    requires Taken(w, cuts, b, data, sizes, t, tt, v, b', data', sizes') && cuts[t + 1] == cuts[tt] && v <= cuts[tt + 1]
    requires ValidCuts(MovedCuts(cuts, t, tt, v), |b'|, Structures(w))
    ensures CutAt(w, MovedCuts(cuts, t, tt, v), b', data', sizes', s)
  {
    hide Sorted, ThreadHolds;
    TakeEnds(w, cuts, b, data, sizes, t, tt, v, b', data', sizes');
    assert CutAt(w, cuts, b, data, sizes, s);
    if t < s < tt {
      BetweenEmpty(cuts, t, tt, s);
      EmptyThread(w, s, cuts[s], v, b[s], data[s], sizes[s]);
    } else if s != t && s != tt {
      Untouched(w, cuts, b, data, sizes, s, MovedCuts(cuts, t, tt, v), b', data', sizes');
    }
  }

  /** The vectors after thread `t` gave the structures from `v` on to the next thread. */
  ghost predicate Given<T>(w: Whole<T>, cuts: seq<nat>, b: seq<seq<nat>>, data: seq<seq<T>>, sizes: seq<int>, t: nat, v: nat,
      b': seq<seq<nat>>, data': seq<seq<T>>, sizes': seq<int>) {
    && t + 1 < |b| == |data| == |sizes| && |cuts| == |b| + 1 && v <= cuts[t + 1] < |w.boundaries|
    && w.boundaries[v] <= w.boundaries[cuts[t + 1]]
    && cuts[t + 1] - v <= |b[t]| && w.boundaries[cuts[t + 1]] - w.boundaries[v] <= |data[t]|
    && b' == b[t + 1 := b[t][|b[t]| - (cuts[t + 1] - v)..] + b[t + 1]][t := b[t][..|b[t]| - (cuts[t + 1] - v)]]
    && (var ediff := w.boundaries[cuts[t + 1]] - w.boundaries[v];
      data' == data[t + 1 := data[t][|data[t]| - ediff..] + data[t + 1]][t := data[t][..|data[t]| - ediff]])
    && sizes' == sizes[t := sizes[t] - (cuts[t + 1] - v)][t + 1 := sizes[t + 1] + (cuts[t + 1] - v)]
  }

  lemma GiveEnds<T>(w: Whole<T>, cuts: seq<nat>, b: seq<seq<nat>>, data: seq<seq<T>>, sizes: seq<int>, t: nat, v: nat,
      b': seq<seq<nat>>, data': seq<seq<T>>, sizes': seq<int>)
    requires ValidWhole(w) && ValidCuts(cuts, |b|, Structures(w)) && Cut(w, cuts, b, data, sizes)
    requires Given(w, cuts, b, data, sizes, t, v, b', data', sizes') && cuts[t] <= v && (t > 0 ==> cuts[t] < v)
    ensures cuts[t] <= v <= cuts[t + 2] < |w.boundaries|
    ensures ThreadHolds(w, t, cuts[t], v, b'[t], data'[t], sizes'[t])
    ensures ThreadHolds(w, t + 1, v, cuts[t + 2], b'[t + 1], data'[t + 1], sizes'[t + 1])
  {
    hide Sorted, ThreadHolds, ValidWhole;
    InOrder(cuts, t + 1, t + 2);
    InOrder(cuts, t + 2, |b|);
    assert CutAt(w, cuts, b, data, sizes, t) && CutAt(w, cuts, b, data, sizes, t + 1);
    hide Cut;
    Give(w, t, cuts[t], v, cuts[t + 1], cuts[t + 2], b[t], b[t + 1], data[t], data[t + 1], sizes[t], sizes[t + 1]);
  }

  /** Thread `t` gives the structures from `v` on to the next thread. */
  lemma GiveCut<T>(w: Whole<T>, cuts: seq<nat>, b: seq<seq<nat>>, data: seq<seq<T>>, sizes: seq<int>, t: nat, v: nat,
      b': seq<seq<nat>>, data': seq<seq<T>>, sizes': seq<int>)
    requires ValidWhole(w) && ValidCuts(cuts, |b|, Structures(w)) && Cut(w, cuts, b, data, sizes)
    requires Given(w, cuts, b, data, sizes, t, v, b', data', sizes') && cuts[t] <= v && (t > 0 ==> cuts[t] < v)
    ensures ValidCuts(MovedCuts(cuts, t, t + 1, v), |b'|, Structures(w)) && Cut(w, MovedCuts(cuts, t, t + 1, v), b', data', sizes')
  {
    var c := MovedCuts(cuts, t, t + 1, v);
    GiveEnds(w, cuts, b, data, sizes, t, v, b', data', sizes');
    InOrder(cuts, t + 1, t + 2);
    MovedCutsValid(cuts, |b|, Structures(w), t, t + 1, v);
    forall s | 0 <= s < |b|
      ensures CutAt(w, c, b', data', sizes', s)
    {
      GivenAt(w, cuts, b, data, sizes, t, v, b', data', sizes', s);
    }
    hide ThreadHolds, Given, CutAt;
  }

  lemma GivenAt<T>(w: Whole<T>, cuts: seq<nat>, b: seq<seq<nat>>, data: seq<seq<T>>, sizes: seq<int>, t: nat, v: nat,
      b': seq<seq<nat>>, data': seq<seq<T>>, sizes': seq<int>, s: nat)
    requires ValidWhole(w) && ValidCuts(cuts, |b|, Structures(w)) && Cut(w, cuts, b, data, sizes) && s < |b|
    requires Given(w, cuts, b, data, sizes, t, v, b', data', sizes') && cuts[t] <= v && (t > 0 ==> cuts[t] < v)
    requires ValidCuts(MovedCuts(cuts, t, t + 1, v), |b'|, Structures(w))
    ensures CutAt(w, MovedCuts(cuts, t, t + 1, v), b', data', sizes', s)
  {
    hide Sorted, ThreadHolds;
    GiveEnds(w, cuts, b, data, sizes, t, v, b', data', sizes');
    assert CutAt(w, cuts, b, data, sizes, s);
    if s != t && s != t + 1 {
      Untouched(w, cuts, b, data, sizes, s, MovedCuts(cuts, t, t + 1, v), b', data', sizes');
    }
  }

  class ThreadVectors<T> {
    var boundaries: seq<seq<nat>>
    var data: seq<seq<T>>
    var sizes: seq<int>

    ghost predicate IsCut(w: Whole<T>, cuts: seq<nat>)
      reads this
    {
      ValidWhole(w) && ValidCuts(cuts, |boundaries|, Structures(w)) && Cut(w, cuts, boundaries, data, sizes)
    }

    constructor (boundaries: seq<seq<nat>>, data: seq<seq<T>>)
      ensures this.boundaries == boundaries && this.data == data
    {
      this.boundaries, this.data, this.sizes := boundaries, data, [];
    }

    /** Counts the structures of each thread and all boundaries. */
    method CountSizes() returns (size: nat)
      requires boundaries != []
      modifies this`sizes
      ensures sizes == SizesOf(boundaries)
      ensures size == 0 <==> AllEmpty(boundaries)
      ensures size == BoundaryCount(boundaries, |boundaries|)
    {
      size := 0;
      sizes := seq(|boundaries|, _ => 0);
      for t := 0 to |boundaries|
        invariant |sizes| == |boundaries| && forall s :: 0 <= s < t ==> sizes[s] == |boundaries[s]|
        invariant size == 0 <==> AllEmpty(boundaries[..t])
        invariant size == BoundaryCount(boundaries, t)
      {
        sizes := sizes[t := |boundaries[t]|];
        size := size + |boundaries[t]|;
        assert boundaries[..t + 1] == boundaries[..t] + [boundaries[t]];
      }
      assert boundaries[..|boundaries|] == boundaries;
      sizes := sizes[0 := sizes[0] - 1];
    }

    /** The number of threads back to the last one before `tt` with a boundary. */
    method FindBefore(tt: nat, ghost w: Whole<T>, ghost cuts: seq<nat>) returns (ttt: nat)
      requires IsCut(w, cuts) && 0 < tt < |boundaries|
      ensures 0 < ttt <= tt && boundaries[tt - ttt] != []
      ensures boundaries[tt - ttt][|boundaries[tt - ttt]| - 1] == w.boundaries[cuts[tt]]
    {
      ttt := 1;
      while |boundaries[tt - ttt]| == 0
        invariant 0 < ttt <= tt && cuts[tt - ttt + 1] == cuts[tt]
        decreases tt - ttt
      {
        EmptyBefore(w, cuts, boundaries, data, sizes, tt - ttt);
        ttt := ttt + 1;
      }
      LastBefore(w, cuts, boundaries, data, sizes, tt - ttt, tt);
    }

    /** The first `diff` structures of thread `tt` go to the end of thread `t`. */
    method TakePart(t: nat, tt: nat, diff: nat, ghost w: Whole<T>, ghost cuts: seq<nat>)
      requires IsCut(w, cuts) && t < tt < |boundaries| && cuts[t + 1] == cuts[tt] && 0 < diff <= cuts[tt + 1] - cuts[tt]
      modifies this
      ensures IsCut(w, MovedCuts(cuts, t, tt, cuts[tt] + diff)) && |boundaries| == old(|boundaries|)
    {
      hide Cut, Sorted, ValidWhole;
      var ttt := FindBefore(tt, w, cuts);
      TakeSizes(w, cuts, boundaries, data, sizes, tt, diff);
      var ediff := boundaries[tt][diff - 1] - boundaries[tt - ttt][|boundaries[tt - ttt]| - 1];
      ghost var b, x, z := boundaries, data, sizes;
      data := data[t := data[t] + data[tt][..ediff]][tt := data[tt][ediff..]];
      boundaries := boundaries[t := boundaries[t] + boundaries[tt][..diff]][tt := boundaries[tt][diff..]];
      sizes := sizes[t := sizes[t] + diff][tt := sizes[tt] - diff];
      TakeCut(w, cuts, b, x, z, t, tt, cuts[tt] + diff, boundaries, data, sizes);
    }

    /** Everything of thread `tt` goes to the end of thread `t`. */
    method TakeAll(t: nat, tt: nat, ghost w: Whole<T>, ghost cuts: seq<nat>)
      requires IsCut(w, cuts) && t < tt < |boundaries| && cuts[t + 1] == cuts[tt]
      modifies this
      ensures IsCut(w, MovedCuts(cuts, t, tt, cuts[tt + 1])) && |boundaries| == old(|boundaries|)
    {
      hide Cut, Sorted, ValidWhole;
      SizeOf(w, cuts, boundaries, data, sizes, tt);
      TakeSizes(w, cuts, boundaries, data, sizes, tt, 0);
      ghost var b, x, z := boundaries, data, sizes;
      assert b[tt][..|b[tt]|] == b[tt] && b[tt][|b[tt]|..] == [] && x[tt][..|x[tt]|] == x[tt] && x[tt][|x[tt]|..] == [];
      sizes := sizes[t := sizes[t] + |boundaries[tt]|][tt := sizes[tt] - |boundaries[tt]|];
      data := data[t := data[t] + data[tt]][tt := []];
      boundaries := boundaries[t := boundaries[t] + boundaries[tt]][tt := []];
      TakeCut(w, cuts, b, x, z, t, tt, cuts[tt + 1], boundaries, data, sizes);
    }

    /** One step of filling: part of thread `tt`, or all of it. */
    method FillStep(t: nat, tt: nat, d: seq<nat>, ghost w: Whole<T>, ghost first: seq<nat>, ghost start: seq<nat>)
      returns (ghost cuts: seq<nat>)
      requires IsCut(w, start) && Balanceable(first, d) && |d| == |boundaries| + 1 && d[|d| - 1] == Structures(w)
      requires t < |boundaries| && Filling(first, d, t, tt, start) && start[t + 1] < d[t + 1]
      modifies this
      ensures tt < |boundaries| == |sizes| == old(|boundaries|) && IsCut(w, cuts) && |cuts| == |boundaries| + 1
      ensures sizes[t] + d[t] == cuts[t + 1] <= d[t + 1] && sizes[t] >= 0
      ensures Filled(first, d, t + 1, cuts) || Filling(first, d, t, tt + 1, cuts)
    {
      SomethingLeft(first, d, t, tt, start, |boundaries|, Structures(w));
      SizeOf(w, start, boundaries, data, sizes, t);
      SizeOf(w, start, boundaries, data, sizes, tt);
      assert start[t] == d[t] && start[t + 1] == start[tt];
      var diff := d[t + 1] - d[t] - sizes[t];
      if diff < sizes[tt] {
        FilledByPart(first, d, t, tt, start);
        cuts := MovedCuts(start, t, tt, d[t + 1]);
        hide Cut, ValidCuts, ValidWhole, Balanceable, Filling, Filled, IsCut;
        TakePart(t, tt, diff, w, start);
      } else {
        FillingAll(first, d, t, tt, start);
        cuts := MovedCuts(start, t, tt, start[tt + 1]);
        hide Cut, ValidCuts, ValidWhole, Balanceable, Filling, Filled, IsCut;
        TakeAll(t, tt, w, start);
      }
      assert IsCut(w, cuts);
      SizeOf(w, cuts, boundaries, data, sizes, t);
    }

    /** Fills thread `t` from the threads behind it, as long as it lacks structures. */
    method Fill(t: nat, d: seq<nat>, ghost w: Whole<T>, ghost first: seq<nat>, ghost start: seq<nat>)
      returns (ghost cuts: seq<nat>, ghost tt: nat)
      requires IsCut(w, start) && Balanceable(first, d) && |d| == |boundaries| + 1 && d[|d| - 1] == Structures(w)
      requires t < |boundaries| && Filled(first, d, t, start)
      modifies this
      ensures IsCut(w, cuts) && |boundaries| == old(|boundaries|) && |cuts| == |d| && d[t + 1] <= cuts[t + 1] && t < tt <= |boundaries| + 1
      ensures tt > t + 1 ==> d[t] < d[t + 1] == cuts[t + 1]
      ensures tt == t + 1 || !Filled(first, d, t + 1, cuts) ==> Filling(first, d, t, tt, cuts)
    {
      hide Cut, ValidWhole, Balanceable, Filling, Filled, Sorted;
      cuts := start;
      FillStart(first, d, t, cuts);
      TargetsInOrder(first, d, t);
      tt := t + 1;
      var next := t + 1;
      SizeOf(w, cuts, boundaries, data, sizes, t);
      while sizes[t] < d[t + 1] - d[t]
        invariant IsCut(w, cuts) && |boundaries| == old(|boundaries|) == |sizes| && sizes[t] + d[t] == cuts[t + 1] && sizes[t] >= 0
        invariant t < next == tt <= |boundaries| + 1
        invariant next > t + 1 ==> d[t] < d[t + 1] && cuts[t + 1] <= d[t + 1]
        invariant next == t + 1 || !Filled(first, d, t + 1, cuts) ==> Filling(first, d, t, next, cuts)
        decreases |boundaries| + 1 - next
      {
        NotFilledYet(first, d, t, cuts);
        cuts := FillStep(t, next, d, w, first, cuts);
        next := next + 1;
        tt := next;
      }
    }

    /** The last `diff` structures of thread `t` go to the front of the next thread. */
    method GiveRest(t: nat, diff: nat, ghost w: Whole<T>, ghost cuts: seq<nat>)
      requires IsCut(w, cuts) && t + 1 < |boundaries| && diff <= cuts[t + 1] - cuts[t] && (t > 0 ==> diff < cuts[t + 1] - cuts[t])
      modifies this
      ensures IsCut(w, MovedCuts(cuts, t, t + 1, cuts[t + 1] - diff)) && |boundaries| == old(|boundaries|)
    {
      hide Cut, Sorted, ValidWhole;
      GiveSizes(w, cuts, boundaries, data, sizes, t, diff);
      var ediff := boundaries[t][|boundaries[t]| - 1] - boundaries[t][|boundaries[t]| - diff - 1];
      ghost var b, x, z := boundaries, data, sizes;
      data := data[t + 1 := data[t][|data[t]| - ediff..] + data[t + 1]][t := data[t][..|data[t]| - ediff]];
      boundaries := boundaries[t + 1 := boundaries[t][|boundaries[t]| - diff..] + boundaries[t + 1]]
                              [t := boundaries[t][..|boundaries[t]| - diff]];
      sizes := sizes[t := sizes[t] - diff][t + 1 := sizes[t + 1] + diff];
      GiveCut(w, cuts, b, x, z, t, cuts[t + 1] - diff, boundaries, data, sizes);
    }

    /** Thread `t` gets its share; `ok` unless a boundary in front of its vector is read. */
    method BalanceThread(t: nat, d: seq<nat>, ghost w: Whole<T>, ghost first: seq<nat>, ghost start: seq<nat>)
      returns (ok: bool, ghost cuts: seq<nat>)
      requires IsCut(w, start) && Balanceable(first, d) && |d| == |boundaries| + 1 && d[|d| - 1] == Structures(w)
      requires t < |boundaries| && Filled(first, d, t, start)
      modifies this
      ensures ok <==> (t > 0 ==> SafeAt(first, d, t))
      ensures ok ==> IsCut(w, cuts) && |boundaries| == old(|boundaries|) && Filled(first, d, t + 1, cuts)
    {
      hide Cut, ValidWhole, Filling, Filled, SafeAt, Sorted;
      ghost var tt: nat;
      cuts, tt := Fill(t, d, w, first, start);
      ok := true;
      TargetsInOrder(first, d, t);
      SizeOf(w, cuts, boundaries, data, sizes, t);
      BeginsAt(first, d, t, tt, cuts);
      if sizes[t] > d[t + 1] - d[t] {
        var diff := sizes[t] - (d[t + 1] - d[t]);
        GivesToNext(first, d, t, cuts, |boundaries|, Structures(w));
        BoundariesOf(w, cuts, boundaries, data, sizes, t);
        if |boundaries[t]| < diff + 1 {
          return false, cuts;
        }
        GiveRest(t, diff, w, cuts);
        FilledByGiving(first, d, t, cuts);
        cuts := MovedCuts(cuts, t, t + 1, d[t + 1]);
      } else {
        FilledNow(first, d, t, tt, cuts, |boundaries|, Structures(w));
      }
    }

    /** Moves the structures between the threads until each holds its part of the targets. */
    method Balance(targets: Targets, ghost w: Whole<T>, ghost first: seq<nat>) returns (ok: bool, d: seq<nat>)
      requires |boundaries| == |data| > 0
      requires AllEmpty(boundaries) || CutInto(w, first, boundaries, data)
      requires !AllEmpty(boundaries) && targets.Given? ==> ValidCuts(targets.distribution, |boundaries|, Structures(w))
      modifies this
      ensures AllEmpty(old(boundaries)) ==> ok && boundaries == old(boundaries) && data == old(data)
      ensures !AllEmpty(old(boundaries)) ==>
        && |first| == |d| == old(|boundaries|) + 1
        && (if targets.Given? then d == targets.distribution else IsDistribution(d, Structures(w)) && EqualChunks(d, Structures(w)))
        && (ok <==> Safe(first, d))
        && (targets.Uniform? ==> ok)
        && (ok ==> |boundaries| == old(|boundaries|) && ValidCuts(d, |boundaries|, Structures(w)) && CutInto(w, d, boundaries, data))
    {
      hide EqualChunks;
      var size := CountSizes();
      if size == 0 {
        return true, [];
      }
      CountWhole(w, first, boundaries, data, |boundaries|);
      if targets.Given? {
        d := targets.distribution;
      } else {
        d := Distribute(|data|, size - 1);
        DistributionOfWhole(w, first, d, |boundaries|);
      }
      ok := BalanceAll(d, w, first);
      if ok {
        SizesAgree(w, d, boundaries, data, sizes);
      }
    }

    method BalanceAll(d: seq<nat>, ghost w: Whole<T>, ghost first: seq<nat>) returns (ok: bool)
      requires IsCut(w, first) && ValidCuts(d, |boundaries|, Structures(w)) && boundaries != []
      modifies this
      ensures |first| == |d| && (ok <==> Safe(first, d))
      ensures ok ==> |boundaries| == old(|boundaries|) && IsCut(w, d)
    {
      hide Cut, ValidWhole, SafeAt, Sorted, Filled;
      BalanceStart(first, d, |boundaries|, Structures(w));
      ghost var cuts := first;
      for t := 0 to |boundaries|
        invariant |boundaries| == old(|boundaries|) && IsCut(w, cuts) && Filled(first, d, t, cuts)
        invariant forall s :: 0 < s < t ==> SafeAt(first, d, s)
      {
        ok, cuts := BalanceThread(t, d, w, first, cuts);
        if !ok {
          return;
        }
      }
      ok := true;
      AllFilled(first, d, cuts);
    }
  }

  /** The targets of the threads: those of `tarray`, or a distribution of the caller. */
  datatype Targets = Uniform | Given(distribution: seq<nat>)

  /** Structures of the threads; the leading 0 of thread 0 does not count. */
  function SizesOf(boundaries: seq<seq<nat>>): (r: seq<int>) {
    seq(|boundaries|, s requires 0 <= s < |boundaries| => |boundaries[s]| - if s == 0 then 1 else 0)
  }

  predicate AllEmpty(boundaries: seq<seq<nat>>) {
    forall s :: 0 <= s < |boundaries| ==> boundaries[s] == []
  }

  /** Boundaries of the first `k` threads. */
  function BoundaryCount(boundaries: seq<seq<nat>>, k: nat): nat
    requires k <= |boundaries|
  {
    if k == 0 then 0 else BoundaryCount(boundaries, k - 1) + |boundaries[k - 1]|
  }

  /** Thread `s` holds exactly the structures `cuts[s] .. cuts[s + 1]` of `w`. */
  ghost predicate CutInto<T>(w: Whole<T>, cuts: seq<nat>, boundaries: seq<seq<nat>>, data: seq<seq<T>>) {
    && ValidWhole(w) && ValidCuts(cuts, |boundaries|, Structures(w)) && |data| == |boundaries|
    && Cut(w, cuts, boundaries, data, SizesOf(boundaries))
  }

  /** Initial cuts and targets of the same total. */
  ghost predicate Balanceable(first: seq<nat>, d: seq<nat>) {
    && |first| == |d| > 1 && Sorted(first) && Sorted(d) && first[0] == 0 == d[0] && first[|d| - 1] == d[|d| - 1]
  }

  lemma TargetsInOrder(first: seq<nat>, d: seq<nat>, t: nat)
    requires Balanceable(first, d) && t + 1 < |d|
    ensures d[t] <= d[t + 1]
  {
    InOrder(d, t, t + 1);
  }

  lemma FillStart(first: seq<nat>, d: seq<nat>, t: nat, cuts: seq<nat>)
    requires Filled(first, d, t, cuts) && t + 1 < |cuts|
    ensures Filling(first, d, t, t + 1, cuts)
  {
  }

  lemma FillingAll(first: seq<nat>, d: seq<nat>, t: nat, tt: nat, cuts: seq<nat>)
    requires Filling(first, d, t, tt, cuts) && tt + 1 < |cuts|
    ensures Filling(first, d, t, tt + 1, MovedCuts(cuts, t, tt, cuts[tt + 1]))
  {
  }

  lemma FilledByPart(first: seq<nat>, d: seq<nat>, t: nat, tt: nat, cuts: seq<nat>)
    requires Balanceable(first, d) && Filling(first, d, t, tt, cuts) && tt + 1 < |cuts| && cuts[tt] < d[t + 1] < cuts[tt + 1]
    ensures Filled(first, d, t + 1, MovedCuts(cuts, t, tt, d[t + 1]))
  {
    InOrder(d, t, t + 1);
    forall s | t + 1 < s < |cuts|
      ensures MovedCuts(cuts, t, tt, d[t + 1])[s] == Max(first[s], d[t + 1])
    {
      if s <= tt {
        InOrder(first, s, tt);
      } else {
        InOrder(first, tt + 1, s);
      }
    }
  }

  lemma FilledExactly(first: seq<nat>, d: seq<nat>, t: nat, tt: nat, cuts: seq<nat>)
    requires Balanceable(first, d) && Filling(first, d, t, tt, cuts) && Sorted(cuts) && cuts[t + 1] == d[t + 1]
    ensures Filled(first, d, t + 1, cuts)
  {
    InOrder(d, t, t + 1);
    forall s | t + 1 < s < |cuts|
      ensures cuts[s] == Max(first[s], d[t + 1])
    {
      if s <= tt {
        InOrder(first, s, tt);
      } else {
        InOrder(cuts, t + 1, s);
      }
    }
  }

  lemma FilledByGiving(first: seq<nat>, d: seq<nat>, t: nat, cuts: seq<nat>)
    requires Balanceable(first, d) && Filling(first, d, t, t + 1, cuts) && cuts[t + 1] > d[t + 1]
    ensures Filled(first, d, t + 1, MovedCuts(cuts, t, t + 1, d[t + 1]))
  {
    InOrder(d, t, t + 1);
    forall s | t + 1 < s < |cuts|
      ensures MovedCuts(cuts, t, t + 1, d[t + 1])[s] == Max(first[s], d[t + 1])
    {
      InOrder(first, t + 1, s);
    }
  }

  lemma SizeOf<T>(w: Whole<T>, cuts: seq<nat>, b: seq<seq<nat>>, data: seq<seq<T>>, sizes: seq<int>, s: nat)
    requires ValidWhole(w) && ValidCuts(cuts, |b|, Structures(w)) && Cut(w, cuts, b, data, sizes) && s < |b|
    ensures |sizes| == |b| && sizes[s] == cuts[s + 1] - cuts[s] && cuts[s] <= cuts[s + 1]
  {
    InOrder(cuts, s, s + 1);
    assert CutAt(w, cuts, b, data, sizes, s);
  }

  lemma NotFilledYet(first: seq<nat>, d: seq<nat>, t: nat, cuts: seq<nat>)
    requires t + 1 < |d| && |cuts| == |d| && cuts[t + 1] < d[t + 1]
    ensures !Filled(first, d, t + 1, cuts)
  {
  }

  /** While thread `t` lacks structures, there is a thread to take from. */
  lemma SomethingLeft(first: seq<nat>, d: seq<nat>, t: nat, tt: nat, cuts: seq<nat>, n: nat, total: int)
    requires Balanceable(first, d) && Filling(first, d, t, tt, cuts) && ValidCuts(cuts, n, total) && total == d[|d| - 1]
    requires cuts[t + 1] < d[t + 1]
    ensures tt < n
  {
    InOrder(d, t + 1, |d| - 1);
  }

  /** What thread `tt` has of its first `diff` structures. */
  lemma TakeSizes<T>(w: Whole<T>, cuts: seq<nat>, b: seq<seq<nat>>, data: seq<seq<T>>, sizes: seq<int>, tt: nat, diff: nat)
    requires ValidWhole(w) && ValidCuts(cuts, |b|, Structures(w)) && Cut(w, cuts, b, data, sizes)
    requires 0 < tt < |b| && diff <= cuts[tt + 1] - cuts[tt]
    ensures |data| == |sizes| == |b| && |cuts| == |b| + 1
    ensures cuts[tt] + diff <= cuts[tt + 1] < |w.boundaries| && |b[tt]| == sizes[tt] == cuts[tt + 1] - cuts[tt]
    ensures diff > 0 ==> b[tt][diff - 1] == w.boundaries[cuts[tt] + diff]
    ensures w.boundaries[cuts[tt]] <= w.boundaries[cuts[tt] + diff] <= w.boundaries[cuts[tt + 1]]
    ensures |data[tt]| == w.boundaries[cuts[tt + 1]] - w.boundaries[cuts[tt]]
  {
    InOrder(cuts, tt, tt + 1);
    InOrder(cuts, tt + 1, |b|);
    assert CutAt(w, cuts, b, data, sizes, tt);
    InOrder(w.boundaries, cuts[tt], cuts[tt] + diff);
    InOrder(w.boundaries, cuts[tt] + diff, cuts[tt + 1]);
  }

  /** What thread `t` has of its last `diff` structures. */
  lemma GiveSizes<T>(w: Whole<T>, cuts: seq<nat>, b: seq<seq<nat>>, data: seq<seq<T>>, sizes: seq<int>, t: nat, diff: nat)
    requires ValidWhole(w) && ValidCuts(cuts, |b|, Structures(w)) && Cut(w, cuts, b, data, sizes)
    requires t + 1 < |b| && diff <= cuts[t + 1] - cuts[t] && (t > 0 ==> diff < cuts[t + 1] - cuts[t])
    ensures |data| == |sizes| == |b| && |cuts| == |b| + 1
    ensures cuts[t + 1] < |w.boundaries| && diff < |b[t]|
    ensures b[t][|b[t]| - 1] == w.boundaries[cuts[t + 1]] && b[t][|b[t]| - diff - 1] == w.boundaries[cuts[t + 1] - diff]
    ensures w.boundaries[cuts[t + 1] - diff] <= w.boundaries[cuts[t + 1]]
    ensures w.boundaries[cuts[t + 1]] - w.boundaries[cuts[t + 1] - diff] <= |data[t]|
  {
    InOrder(cuts, t, t + 1);
    InOrder(cuts, t + 1, |b|);
    assert CutAt(w, cuts, b, data, sizes, t);
    InOrder(w.boundaries, cuts[t], cuts[t + 1] - diff);
    InOrder(w.boundaries, cuts[t + 1] - diff, cuts[t + 1]);
  }

  lemma BeginsAt(first: seq<nat>, d: seq<nat>, t: nat, tt: nat, cuts: seq<nat>)
    requires t + 1 < |cuts| && (Filled(first, d, t + 1, cuts) || Filling(first, d, t, tt, cuts))
    ensures |d| == |cuts| && cuts[t] == d[t]
  {
  }

  /** Thread `t` has too much: there is a next thread, and nothing was taken from it before. */
  lemma GivesToNext(first: seq<nat>, d: seq<nat>, t: nat, cuts: seq<nat>, n: nat, total: int)
    requires Balanceable(first, d) && Filling(first, d, t, t + 1, cuts) && ValidCuts(cuts, n, total) && total == d[|d| - 1]
    requires t + 1 < |cuts| && cuts[t + 1] > d[t + 1]
    ensures t + 1 < n && (SafeAt(first, d, t) <==> d[t] < d[t + 1])
  {
    InOrder(d, t, t + 1);
  }

  lemma BoundariesOf<T>(w: Whole<T>, cuts: seq<nat>, b: seq<seq<nat>>, data: seq<seq<T>>, sizes: seq<int>, s: nat)
    requires ValidWhole(w) && ValidCuts(cuts, |b|, Structures(w)) && Cut(w, cuts, b, data, sizes) && s < |b|
    ensures |sizes| == |b| && |b[s]| == sizes[s] + if s == 0 then 1 else 0
  {
    InOrder(cuts, s, s + 1);
    InOrder(cuts, s + 1, |b|);
    assert CutAt(w, cuts, b, data, sizes, s);
  }

  /** Thread `t` has its share: a thread without a share was given none. */
  lemma FilledNow(first: seq<nat>, d: seq<nat>, t: nat, tt: nat, cuts: seq<nat>, n: nat, total: int)
    requires Balanceable(first, d) && ValidCuts(cuts, n, total) && t + 1 < |cuts| == |d| && cuts[t + 1] == d[t + 1]
    requires tt > t && (tt > t + 1 ==> d[t] < d[t + 1])
    requires tt == t + 1 || !Filled(first, d, t + 1, cuts) ==> Filling(first, d, t, tt, cuts)
    ensures SafeAt(first, d, t) && Filled(first, d, t + 1, cuts)
  {
    if Filling(first, d, t, tt, cuts) {
      FilledExactly(first, d, t, tt, cuts);
    }
  }

  lemma {:induction false} CountWhole<T>(w: Whole<T>, cuts: seq<nat>, b: seq<seq<nat>>, data: seq<seq<T>>, k: nat)
    requires CutInto(w, cuts, b, data) && 0 < k <= |b|
    ensures BoundaryCount(b, k) == cuts[k] + 1
  {
    BoundariesOf(w, cuts, b, data, SizesOf(b), k - 1);
    SizeOf(w, cuts, b, data, SizesOf(b), k - 1);
    if k > 1 {
      CountWhole(w, cuts, b, data, k - 1);
    } else {
      assert BoundaryCount(b, 0) == 0;
    }
  }

  lemma DistributionOfWhole<T>(w: Whole<T>, first: seq<nat>, d: seq<nat>, n: nat)
    requires ValidWhole(w) && ValidCuts(first, n, Structures(w)) && |d| == n + 1 && IsDistribution(d, Structures(w))
    ensures ValidCuts(d, n, Structures(w)) && Safe(first, d)
  {
    forall s | 0 <= s < |first|
      ensures first[s] <= Structures(w)
    {
      InOrder(first, s, n);
    }
    DistributionIsSafe(first, d, Structures(w));
  }

  lemma BalanceStart(first: seq<nat>, d: seq<nat>, n: nat, total: int)
    requires n > 0 && ValidCuts(first, n, total) && ValidCuts(d, n, total)
    ensures Balanceable(first, d) && Filled(first, d, 0, first)
  {
  }

  lemma AllFilled(first: seq<nat>, d: seq<nat>, cuts: seq<nat>)
    requires |d| > 0 && Filled(first, d, |d| - 1, cuts)
    ensures cuts == d
  {
  }

  /** What the threads hold determines their sizes. */
  lemma SizesAgree<T>(w: Whole<T>, cuts: seq<nat>, b: seq<seq<nat>>, data: seq<seq<T>>, sizes: seq<int>)
    requires ValidWhole(w) && ValidCuts(cuts, |b|, Structures(w)) && Cut(w, cuts, b, data, sizes)
    ensures CutInto(w, cuts, b, data)
  {
    forall s | 0 <= s < |b|
      ensures sizes[s] == SizesOf(b)[s]
    {
      BoundariesOf(w, cuts, b, data, sizes, s);
    }
    assert sizes == SizesOf(b);
  }

  /** However the structures are cut, the threads together hold the same boundaries and the same data. */
  lemma CutsKeepWhole<T>(w: Whole<T>, cuts: seq<nat>, b: seq<seq<nat>>, data: seq<seq<T>>)
    requires CutInto(w, cuts, b, data) && b != []
    ensures Flatten(b) == w.boundaries && Flatten(data) == w.data
  {
    CutPrefix(w, cuts, b, data, |b|);
    assert b[..|b|] == b && data[..|b|] == data;
    assert w.boundaries[..|w.boundaries|] == w.boundaries && w.data[..|w.data|] == w.data;
  }

  /**
   * Thread by thread: as many boundaries as structures, one more in the first thread, and the last
   * boundary up to each thread is the number of data up to it, so no structure is torn apart.
   */
  lemma ThreadShare<T>(w: Whole<T>, cuts: seq<nat>, b: seq<seq<nat>>, data: seq<seq<T>>, t: nat)
    requires CutInto(w, cuts, b, data) && t < |b|
    ensures t + 1 < |cuts| && |b[t]| == cuts[t + 1] - cuts[t] + if t == 0 then 1 else 0
    ensures Flatten(b[..t + 1]) != [] && Flatten(b[..t + 1])[|Flatten(b[..t + 1])| - 1] == |Flatten(data[..t + 1])|
  {
    CutPrefix(w, cuts, b, data, t + 1);
    assert CutAt(w, cuts, b, data, SizesOf(b), t);
    hide Flatten, Sorted, Cut, ThreadHolds;
  }

  lemma {:induction false} CutPrefix<T>(w: Whole<T>, cuts: seq<nat>, b: seq<seq<nat>>, data: seq<seq<T>>, k: nat)
    requires CutInto(w, cuts, b, data) && 0 < k <= |b|
    ensures cuts[k] < |w.boundaries| && w.boundaries[cuts[k]] <= |w.data|
    ensures Flatten(b[..k]) == w.boundaries[..cuts[k] + 1] && Flatten(data[..k]) == w.data[..w.boundaries[cuts[k]]]
  {
    PieceBounds(w, cuts, b, data, k);
    hide CutInto, Flatten;
    if k > 1 {
      CutPrefix(w, cuts, b, data, k - 1);
    } else {
      NothingFlat(b, data);
    }
    FlattenNext(b, k - 1);
    FlattenNext(data, k - 1);
    SliceJoin(w.boundaries, 0, if k == 1 then 0 else cuts[k - 1] + 1, cuts[k] + 1);
    SliceJoin(w.data, 0, w.boundaries[cuts[k - 1]], w.boundaries[cuts[k]]);
  }

  lemma PieceBounds<T>(w: Whole<T>, cuts: seq<nat>, b: seq<seq<nat>>, data: seq<seq<T>>, k: nat)
    requires CutInto(w, cuts, b, data) && 0 < k <= |b|
    ensures |cuts| == |b| + 1 == |data| + 1 && cuts[0] == 0 && cuts[k - 1] <= cuts[k] < |w.boundaries| && w.boundaries[0] == 0
    ensures w.boundaries[cuts[k - 1]] <= w.boundaries[cuts[k]] <= |w.data|
    ensures b[k - 1] == w.boundaries[if k == 1 then 0 else cuts[k - 1] + 1..cuts[k] + 1]
    ensures data[k - 1] == w.data[w.boundaries[cuts[k - 1]]..w.boundaries[cuts[k]]]
  {
    assert CutAt(w, cuts, b, data, SizesOf(b), k - 1);
    InOrder(cuts, k, |b|);
    InOrder(cuts, k - 1, k);
  }

  lemma NothingFlat<T>(b: seq<seq<nat>>, data: seq<seq<T>>)
    ensures Flatten(b[..0]) == [] && Flatten(data[..0]) == []
  {
  }

  /** A thread without a share between two others, and structures that have to pass it. */
  lemma UnsafeExample()
    ensures ValidCuts([0, 1, 3, 3], 3, 3) && ValidCuts([0, 1, 1, 3], 3, 3) && !Safe([0, 1, 3, 3], [0, 1, 1, 3])
  {
    assert !SafeAt([0, 1, 3, 3], [0, 1, 1, 3], 1);
  }
}
