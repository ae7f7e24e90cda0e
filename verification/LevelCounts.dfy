/** The counts at the cuts of one level: local rows, one for each refined bucket, and their sum. */
module LevelCounts {
  import opened Basis
  import opened Esutils
  import opened BorderRefinement
  import opened BucketCounts

  /** `bsize` to the power `d`: number of buckets on level `d`, and width of a bucket `d` levels above the finest. */
  function Power(bsize: nat, d: nat): nat {
    if d == 0 then 1 else Multiple(Power(bsize, d - 1), bsize)
  }

  lemma {:induction false} PowerPositive(bsize: nat, d: nat)
    requires bsize > 0
    ensures Power(bsize, d) > 0
  {
    if d > 0 {
      PowerPositive(bsize, d - 1);
      MultipleIsProduct(Power(bsize, d - 1), bsize);
      assert bsize * Power(bsize, d - 1) >= 1;
    }
  }

  lemma MultipleCommutes(a: nat, b: nat)
    ensures Multiple(a, b) == Multiple(b, a)
  {
    MultipleIsProduct(a, b);
    MultipleIsProduct(b, a);
  }

  /** Buckets times their width is the whole curve, on every level. */
  lemma {:induction false} PowerSplit(bsize: nat, depth: nat, d: nat)
    requires d <= depth
    ensures Multiple(Power(bsize, depth - d), Power(bsize, d)) == Power(bsize, depth)
    decreases d
  {
    if d == 0 {
      assert Multiple(Power(bsize, depth), 1) == Multiple(Power(bsize, depth), 0) + Power(bsize, depth);
    } else {
      PowerSplit(bsize, depth, d - 1);
      var w, n := Power(bsize, depth - d), Power(bsize, d - 1);
      PartsOfBucket(w, bsize, n);
      MultipleCommutes(n, bsize);
    }
  }

  /** Every bin holds the elements between its cuts. */
  ghost predicate Binned(s: seq<nat>, bstep: nat, counts: seq<nat>) {
    forall k :: 0 <= k < |counts| ==> BinAt(s, bstep, counts[k], k)
  }

  ghost predicate BinAt(s: seq<nat>, bstep: nat, count: nat, k: nat) {
    CountBelow(s, Multiple(bstep, k)) + count == CountBelow(s, Multiple(bstep, k + 1))
  }

  lemma BinNext(s: seq<nat>, x: nat, bstep: nat, counts: seq<nat>, k: nat)
    requires Binned(s, bstep, counts) && k < |counts| && Multiple(bstep, k) <= x < Multiple(bstep, k + 1)
    ensures Binned(s + [x], bstep, counts[k := counts[k] + 1])
  {
    assert (s + [x])[..|s|] == s;
    var after := counts[k := counts[k] + 1];
    forall j | 0 <= j < |counts|
      ensures BinAt(s + [x], bstep, after[j], j)
    {
      assert BinAt(s, bstep, counts[j], j);
      if j < k {
        MultipleMonotone(bstep, j + 1, k);
      } else if k < j {
        MultipleMonotone(bstep, k + 1, j);
      }
    }
  }

  lemma {:induction false} BinsAddUp(s: seq<nat>, bstep: nat, counts: seq<nat>, k: nat)
    requires Binned(s, bstep, counts) && k <= |counts|
    ensures Prefix(counts, k) == CountBelow(s, Multiple(bstep, k))
  {
    if k == 0 {
      NothingBelowZero(s);
    } else {
      BinsAddUp(s, bstep, counts, k - 1);
      assert BinAt(s, bstep, counts[k - 1], k - 1);
    }
  }

  lemma {:induction false} NothingBelowZero(s: seq<nat>)
    ensures CountBelow(s, 0) == 0
  {
    if s != [] {
      NothingBelowZero(s[..|s| - 1]);
    }
  }

  /** The sums of one level: the elements before each of its buckets. */
  ghost predicate LevelSums(s: seq<nat>, w: nat, n: nat, sums: seq<nat>) {
    |sums| == n + 1 && forall k :: 0 <= k <= n ==> SumAt(s, w, sums[k], k)
  }

  ghost predicate SumAt(s: seq<nat>, w: nat, sum: nat, k: nat) {
    sum == CountBelow(s, Multiple(w, k))
  }

  /** The histogram of the finest preprocessed level, and its prefix sums. */
  method Histogram(s: seq<nat>, bstep: nat, n: nat) returns (sums: seq<nat>)
    requires bstep > 0 && forall e :: 0 <= e < |s| ==> s[e] < Multiple(bstep, n)
    ensures LevelSums(s, bstep, n, sums)
  {
    var counts := seq(n + 1, _ => 0);
    for e := 0 to |s|
      invariant |counts| == n + 1 && Binned(s[..e], bstep, counts)
    {
      MultipleIsProduct(bstep, s[e] / bstep);
      BinOf(bstep, n, s[e]);
      BinNext(s[..e], s[e], bstep, counts, s[e] / bstep);
      assert s[..e + 1] == s[..e] + [s[e]];
      counts := counts[s[e] / bstep := counts[s[e] / bstep] + 1];
    }
    assert s[..|s|] == s;
    var total;
    sums, total := SizesToOffsets(counts);
    forall k | 0 <= k <= n
      ensures SumAt(s, bstep, sums[k], k)
    {
      BinsAddUp(s, bstep, counts, k);
      assert OffsetAt(sums, counts, k);
    }
  }

  lemma BinOf(bstep: nat, n: nat, x: nat)
    requires bstep > 0 && x < Multiple(bstep, n)
    ensures x / bstep < n && Multiple(bstep, x / bstep) <= x < Multiple(bstep, x / bstep + 1)
  {
    MultipleIsProduct(bstep, x / bstep);
    if n <= x / bstep {
      MultipleMonotone(bstep, n, x / bstep);
    }
  }

  /** The sums of a coarser level are every `bsize`-th of the finer one. */
  method Coarsen(fine: seq<nat>, bsize: nat, ghost s: seq<nat>, ghost c: nat, n: nat) returns (sums: seq<nat>)
    requires LevelSums(s, c, Multiple(bsize, n), fine)
    ensures LevelSums(s, Multiple(c, bsize), n, sums)
  {
    sums := [];
    for b := 0 to n + 1
      invariant |sums| == b && forall k :: 0 <= k < b ==> SumAt(s, Multiple(c, bsize), sums[k], k)
    {
      MultipleMonotone(bsize, b, n);
      PartsOfBucket(c, bsize, b);
      assert SumAt(s, c, fine[Multiple(bsize, b)], Multiple(bsize, b));
      sums := sums + [fine[Multiple(bsize, b)]];
    }
  }

  /** The sums of all preprocessed levels: level `d` has `bsize^(d + 1)` buckets. */
  ghost predicate SumsOfLevels(s: seq<nat>, bsize: nat, depth: nat, sums: seq<seq<nat>>) {
    |sums| <= depth && forall d :: 0 <= d < |sums| ==> LevelSums(s, Power(bsize, depth - d - 1), Power(bsize, d + 1), sums[d])
  }

  method BucketSums(s: seq<nat>, bsize: nat, depth: nat, DEPTH: nat) returns (sums: seq<seq<nat>>)
    requires bsize > 0 && 0 < DEPTH <= depth && forall e :: 0 <= e < |s| ==> s[e] < Power(bsize, depth)
    ensures |sums| == DEPTH && SumsOfLevels(s, bsize, depth, sums)
  {
    PowerPositive(bsize, depth - DEPTH);
    PowerSplit(bsize, depth, DEPTH);
    var last := Histogram(s, Power(bsize, depth - DEPTH), Power(bsize, DEPTH));
    sums := [last];
    for i := 1 to DEPTH
      invariant |sums| == i
      invariant forall e :: 0 <= e < i ==>
        LevelSums(s, Power(bsize, depth - DEPTH + (i - 1 - e)), Power(bsize, DEPTH - (i - 1 - e)), sums[e])
    {
      var d := DEPTH - 1 - i;
      MultipleCommutes(bsize, Power(bsize, d + 1));
      assert LevelSums(s, Power(bsize, depth - DEPTH + (i - 1 - 0)), Power(bsize, DEPTH - (i - 1 - 0)), sums[0]);
      var coarse := Coarsen(sums[0], bsize, s, Power(bsize, depth - DEPTH + i - 1), Power(bsize, d + 1));
      sums := [coarse] + sums;
    }
  }

  ghost function LocalCount(s: seq<nat>): nat -> nat {
    (x: nat) => CountBelow(s, x)
  }

  /** The counts of bucket number `b` of the list, of which there are `bsize + 1`. */
  function Row(flat: seq<nat>, bsize: nat, b: nat): (r: seq<nat>)
    requires Multiple(bsize + 1, b + 1) <= |flat|
    ensures |r| == bsize + 1
  {
    flat[Multiple(bsize + 1, b)..Multiple(bsize + 1, b) + bsize + 1]
  }

  ghost predicate RowCounts(L: nat -> nat, c: nat, bsize: nat, v: nat, flat: seq<nat>, b: nat) {
    Multiple(bsize + 1, b + 1) <= |flat| && CountsOf(L, c, Multiple(bsize, v), Row(flat, bsize, b))
  }

  /** One row after another: the counts at the cuts of all buckets of the list. */
  ghost predicate FlatCounts(L: nat -> nat, c: nat, bsize: nat, list: seq<nat>, flat: seq<nat>) {
    |flat| == Multiple(bsize + 1, |list|) && forall b :: 0 <= b < |list| ==> RowCounts(L, c, bsize, list[b], flat, b)
  }

  lemma FlatNext(L: nat -> nat, c: nat, bsize: nat, list: seq<nat>, b: nat, flat: seq<nat>, row: seq<nat>)
    requires b < |list| && FlatCounts(L, c, bsize, list[..b], flat) && |row| == bsize + 1 && CountsOf(L, c, Multiple(bsize, list[b]), row)
    ensures FlatCounts(L, c, bsize, list[..b + 1], flat + row)
  {
    var longer := list[..b + 1];
    forall a | 0 <= a < b + 1
      ensures RowCounts(L, c, bsize, longer[a], flat + row, a)
    {
      if a < b {
        assert RowCounts(L, c, bsize, list[..b][a], flat, a);
        MultipleMonotone(bsize + 1, a + 1, b);
        assert Row(flat + row, bsize, a) == Row(flat, bsize, a);
      } else {
        assert Row(flat + row, bsize, a) == row;
      }
    }
  }

  /** Local counts of a preprocessed level, read off its sums. */
  method LocalCounts(s: seq<nat>, c: nat, n: nat, sums: seq<nat>, bsize: nat, list: seq<nat>) returns (flat: seq<nat>)
    requires LevelSums(s, c, n, sums) && forall b :: 0 <= b < |list| ==> Multiple(bsize, list[b]) + bsize <= n
    ensures FlatCounts(LocalCount(s), c, bsize, list, flat)
  {
    flat := [];
    for b := 0 to |list|
      invariant FlatCounts(LocalCount(s), c, bsize, list[..b], flat)
    {
      var row := [];
      for i := 0 to bsize + 1
        invariant |row| == i && CountsOf(LocalCount(s), c, Multiple(bsize, list[b]), row)
      {
        assert SumAt(s, c, sums[Multiple(bsize, list[b]) + i], Multiple(bsize, list[b]) + i);
        row := row + [sums[Multiple(bsize, list[b]) + i]];
      }
      FlatNext(LocalCount(s), c, bsize, list, b, flat, row);
      flat := flat + row;
    }
    assert list[..|list|] == list;
  }

  /** The elements of one refined bucket, counted part by part in the sorted list. */
  method ScanRow(sorted: seq<nat>, c: nat, first: nat, bsize: nat, start: nat) returns (row: seq<nat>)
    requires Sorted(sorted) && start == CountBelow(sorted, Multiple(c, first))
    ensures |row| == bsize + 1 && CountsOf(LocalCount(sorted), c, first, row)
  {
    var e := LowerBound(sorted, Multiple(c, first));
    CountInSorted(sorted, Multiple(c, first), e);
    row := [start];
    for i := 0 to bsize
      invariant |row| == i + 1 && CountsOf(LocalCount(sorted), c, first, row)
      invariant e <= |sorted| && e == row[i]
      invariant e > 0 ==> sorted[e - 1] < Multiple(c, first + i)
    {
      MultipleMonotone(c, first + i, first + i + 1);
      var count := 0;
      while e < |sorted| && sorted[e] < Multiple(c, first + i + 1)
        invariant row[i] + count == e <= |sorted|
        invariant e > 0 ==> sorted[e - 1] < Multiple(c, first + i + 1)
      {
        e, count := e + 1, count + 1;
      }
      CountInSorted(sorted, Multiple(c, first + i + 1), e);
      assert first + i + 1 == first + (i + 1);
      row := row + [count + row[i]];
    }
  }

  /** Local counts of a level beyond the preprocessed ones; `starts` are the counts at the begins of the buckets. */
  method ScanCounts(sorted: seq<nat>, c: nat, bsize: nat, list: seq<nat>, starts: seq<nat>) returns (flat: seq<nat>)
    requires Sorted(sorted) && |starts| == |list|
    requires forall b :: 0 <= b < |list| ==> StartAt(sorted, Multiple(c, bsize), list[b], starts[b])
    ensures FlatCounts(LocalCount(sorted), c, bsize, list, flat)
  {
    flat := [];
    for b := 0 to |list|
      invariant FlatCounts(LocalCount(sorted), c, bsize, list[..b], flat)
    {
      assert StartAt(sorted, Multiple(c, bsize), list[b], starts[b]);
      PartsOfBucket(c, bsize, list[b]);
      var row := ScanRow(sorted, c, Multiple(bsize, list[b]), bsize, starts[b]);
      FlatNext(LocalCount(sorted), c, bsize, list, b, flat, row);
      flat := flat + row;
    }
    assert list[..|list|] == list;
  }

  /** Elements before bucket `v` of width `w`. */
  ghost predicate StartAt(s: seq<nat>, w: nat, v: nat, start: nat) {
    start == CountBelow(s, Multiple(w, v))
  }

  /** The counts at the begins of all buckets on the list. */
  ghost predicate Starts(s: seq<nat>, w: nat, list: seq<nat>, starts: seq<nat>) {
    |starts| == |list| && forall b :: 0 <= b < |list| ==> StartAt(s, w, list[b], starts[b])
  }

  /** `MPI_Allreduce` with the sum, for entry number `k`. */
  function ColumnSum(flats: seq<seq<nat>>, k: nat): nat
    requires forall p :: 0 <= p < |flats| ==> k < |flats[p]|
  {
    if flats == [] then 0 else ColumnSum(flats[..|flats| - 1], k) + flats[|flats| - 1][k]
  }

  method AllReduce(flats: seq<seq<nat>>, size: nat) returns (rc: seq<nat>)
    requires forall p :: 0 <= p < |flats| ==> |flats[p]| == size
    ensures |rc| == size && forall k :: 0 <= k < size ==> rc[k] == ColumnSum(flats, k)
  {
    rc := seq(size, k requires 0 <= k < size && forall p :: 0 <= p < |flats| ==> k < |flats[p]| => ColumnSum(flats, k));
  }

  lemma {:induction false} ColumnIsGlobal(all: seq<seq<nat>>, flats: seq<seq<nat>>, k: nat, x: nat)
    requires |flats| == |all| && forall p :: 0 <= p < |flats| ==> k < |flats[p]| && flats[p][k] == CountBelow(all[p], x)
    ensures ColumnSum(flats, k) == GlobalBelow(all, x)
  {
    if all != [] {
      ColumnIsGlobal(all[..|all| - 1], flats[..|all| - 1], k, x);
    }
  }

  /** Summed over all processes, the local counts are the global ones. */
  lemma SummedCounts(all: seq<seq<nat>>, flats: seq<seq<nat>>, c: nat, bsize: nat, list: seq<nat>, rc: seq<nat>)
    requires |flats| == |all| && forall p :: 0 <= p < |flats| ==> FlatCounts(LocalCount(all[p]), c, bsize, list, flats[p])
    requires |rc| == Multiple(bsize + 1, |list|)
    requires forall k :: 0 <= k < |rc| ==> (forall p :: 0 <= p < |flats| ==> k < |flats[p]|) && rc[k] == ColumnSum(flats, k)
    ensures FlatCounts(CountsOfAll(all), c, bsize, list, rc)
  {
    forall b | 0 <= b < |list|
      ensures RowCounts(CountsOfAll(all), c, bsize, list[b], rc, b)
    {
      MultipleMonotone(bsize + 1, b + 1, |list|);
      forall i | 0 <= i < bsize + 1
        ensures Row(rc, bsize, b)[i] == GlobalBelow(all, Multiple(c, Multiple(bsize, list[b]) + i))
      {
        SummedCell(all, flats, c, bsize, list, rc, b, i);
      }
    }
  }

  lemma CellCount(s: seq<nat>, c: nat, bsize: nat, list: seq<nat>, flat: seq<nat>, b: nat, i: nat)
    requires FlatCounts(LocalCount(s), c, bsize, list, flat) && b < |list| && i < bsize + 1
    ensures var k := Multiple(bsize + 1, b) + i;
      k < |flat| && flat[k] == CountBelow(s, Multiple(c, Multiple(bsize, list[b]) + i))
  {
    hide CountBelow;
    assert RowCounts(LocalCount(s), c, bsize, list[b], flat, b);
    assert flat[Multiple(bsize + 1, b) + i] == Row(flat, bsize, b)[i];
  }

  lemma SummedCell(all: seq<seq<nat>>, flats: seq<seq<nat>>, c: nat, bsize: nat, list: seq<nat>, rc: seq<nat>, b: nat, i: nat)
    requires |flats| == |all| && forall p :: 0 <= p < |flats| ==> FlatCounts(LocalCount(all[p]), c, bsize, list, flats[p])
    requires |rc| == Multiple(bsize + 1, |list|) && b < |list| && i < bsize + 1 && Multiple(bsize + 1, b + 1) <= |rc|
    requires forall k :: 0 <= k < |rc| ==> (forall p :: 0 <= p < |flats| ==> k < |flats[p]|) && rc[k] == ColumnSum(flats, k)
    ensures Row(rc, bsize, b)[i] == GlobalBelow(all, Multiple(c, Multiple(bsize, list[b]) + i))
  {
    hide FlatCounts, CountBelow, ColumnSum, GlobalBelow, LocalCount;
    var k, x := Multiple(bsize + 1, b) + i, Multiple(c, Multiple(bsize, list[b]) + i);
    forall p | 0 <= p < |flats|
      ensures k < |flats[p]| && flats[p][k] == CountBelow(all[p], x)
    {
      CellCount(all[p], c, bsize, list, flats[p], b, i);
    }
    ColumnIsGlobal(all, flats, k, x);
    assert Row(rc, bsize, b)[i] == rc[k];
  }
}
