/** The counts of all processes of one level, by histogram or by scan, and their global sum. */
module ProcessCounts {
  import opened Basis
  import opened Esutils
  import opened BucketCounts
  import opened LevelCounts
  import opened ClusterLevels
  import opened ClusterRun

  ghost predicate AllFlat(all: seq<seq<nat>>, c: nat, bsize: nat, list: seq<nat>, flats: seq<seq<nat>>) {
    |flats| == |all| && forall p :: 0 <= p < |all| ==> FlatCounts(LocalCount(all[p]), c, bsize, list, flats[p])
  }

  /** `MPI_Allreduce` of the local counts. */
  method GlobalCounts(all: seq<seq<nat>>, flats: seq<seq<nat>>, ghost c: nat, bsize: nat, list: seq<nat>) returns (rc: seq<nat>)
    requires AllFlat(all, c, bsize, list, flats)
    ensures FlatCounts(CountsOfAll(all), c, bsize, list, rc)
  {
    assert forall p :: 0 <= p < |flats| ==> FlatCounts(LocalCount(all[p]), c, bsize, list, flats[p]);
    rc := AllReduce(flats, Multiple(bsize + 1, |list|));
    SummedCounts(all, flats, c, bsize, list, rc);
  }

  ghost predicate AllSums(all: seq<seq<nat>>, bsize: nat, depth: nat, DEPTH: nat, sums: seq<seq<seq<nat>>>) {
    |sums| == |all| && forall p :: 0 <= p < |all| ==> |sums[p]| == DEPTH && SumsOfLevels(all[p], bsize, depth, sums[p])
  }

  /** The histograms of all processes. */
  method AllBucketSums(all: seq<seq<nat>>, bsize: nat, depth: nat, DEPTH: nat) returns (sums: seq<seq<seq<nat>>>)
    requires bsize > 0 && 0 < DEPTH <= depth && BelowLimit(all, Power(bsize, depth))
    ensures AllSums(all, bsize, depth, DEPTH, sums)
  {
    sums := [];
    for p := 0 to |all|
      invariant |sums| == p
      invariant forall q :: 0 <= q < p ==> |sums[q]| == DEPTH && SumsOfLevels(all[q], bsize, depth, sums[q])
    {
      var s := BucketSums(all[p], bsize, depth, DEPTH);
      sums := sums + [s];
    }
  }

  lemma PartsInGrid(bsize: nat, list: seq<nat>, level: nat, b: nat)
    requires InGrid(list, Power(bsize, level)) && b < |list|
    ensures Multiple(bsize, list[b]) + bsize <= Power(bsize, level + 1)
  {
    MultipleMonotone(bsize, list[b] + 1, Power(bsize, level));
    MultipleCommutes(bsize, Power(bsize, level));
  }

  /** Local counts of a preprocessed level on all processes. */
  method AllLocalCounts(all: seq<seq<nat>>, sums: seq<seq<seq<nat>>>, bsize: nat, depth: nat, DEPTH: nat, level: nat,
      list: seq<nat>) returns (flats: seq<seq<nat>>)
    requires AllSums(all, bsize, depth, DEPTH, sums) && level < DEPTH <= depth && InGrid(list, Power(bsize, level))
    ensures AllFlat(all, Power(bsize, depth - level - 1), bsize, list, flats)
  {
    var c, n := Power(bsize, depth - level - 1), Power(bsize, level + 1);
    forall b | 0 <= b < |list|
      ensures Multiple(bsize, list[b]) + bsize <= n
    {
      PartsInGrid(bsize, list, level, b);
    }
    flats := [];
    for p := 0 to |all|
      invariant |flats| == p && forall q :: 0 <= q < p ==> FlatCounts(LocalCount(all[q]), c, bsize, list, flats[q])
    {
      assert LevelSums(all[p], c, n, sums[p][level]);
      var flat := LocalCounts(all[p], c, n, sums[p][level], bsize, list);
      flats := flats + [flat];
    }
  }

  ghost predicate AllStarts(all: seq<seq<nat>>, w: nat, list: seq<nat>, starts: seq<seq<nat>>) {
    |starts| == |all| && forall p :: 0 <= p < |all| ==> Starts(all[p], w, list, starts[p])
  }

  /** The counts at the begins of the first list beyond the preprocessed levels. */
  method FirstStarts(all: seq<seq<nat>>, sums: seq<seq<seq<nat>>>, bsize: nat, depth: nat, DEPTH: nat, level: nat,
      list: seq<nat>) returns (starts: seq<seq<nat>>)
    requires AllSums(all, bsize, depth, DEPTH, sums) && 0 < level <= DEPTH <= depth && InGrid(list, Power(bsize, level))
    ensures AllStarts(all, Power(bsize, depth - level), list, starts)
  {
    starts := [];
    for p := 0 to |all|
      invariant |starts| == p && forall q :: 0 <= q < p ==> Starts(all[q], Power(bsize, depth - level), list, starts[q])
    {
      assert LevelSums(all[p], Power(bsize, depth - (level - 1) - 1), Power(bsize, (level - 1) + 1), sums[p][level - 1]);
      var start := [];
      for b := 0 to |list|
        invariant |start| == b && forall a :: 0 <= a < b ==> StartAt(all[p], Power(bsize, depth - level), list[a], start[a])
      {
        assert SumAt(all[p], Power(bsize, depth - level), sums[p][level - 1][list[b]], list[b]);
        start := start + [sums[p][level - 1][list[b]]];
      }
      starts := starts + [start];
    }
  }

  /** Every process has its elements in sorted order. */
  ghost predicate SortedCopies(all: seq<seq<nat>>, sorted: seq<seq<nat>>) {
    |sorted| == |all| && forall p :: 0 <= p < |all| ==> Sorted(sorted[p]) && multiset(sorted[p]) == multiset(all[p])
  }

  method SortAll(all: seq<seq<nat>>) returns (sorted: seq<seq<nat>>)
    ensures SortedCopies(all, sorted)
  {
    sorted := [];
    for p := 0 to |all|
      invariant |sorted| == p && forall q :: 0 <= q < p ==> Sorted(sorted[q]) && multiset(sorted[q]) == multiset(all[q])
    {
      SortOfSorted(all[p]);
      SortKeepsAll(all[p]);
      sorted := sorted + [SortOf(all[p])];
    }
  }

  lemma FlatOfPermuted(a: seq<nat>, b: seq<nat>, c: nat, bsize: nat, list: seq<nat>, flat: seq<nat>)
    requires multiset(a) == multiset(b) && FlatCounts(LocalCount(a), c, bsize, list, flat)
    ensures FlatCounts(LocalCount(b), c, bsize, list, flat)
  {
    forall v | 0 <= v < |list|
      ensures RowCounts(LocalCount(b), c, bsize, list[v], flat, v)
    {
      assert RowCounts(LocalCount(a), c, bsize, list[v], flat, v);
      forall i | 0 <= i < bsize + 1
        ensures Row(flat, bsize, v)[i] == CountBelow(b, Multiple(c, Multiple(bsize, list[v]) + i))
      {
        CountPermuted(a, b, Multiple(c, Multiple(bsize, list[v]) + i));
      }
    }
  }

  lemma StartsOfPermuted(a: seq<nat>, b: seq<nat>, w: nat, list: seq<nat>, starts: seq<nat>)
    requires multiset(a) == multiset(b) && Starts(a, w, list, starts)
    ensures Starts(b, w, list, starts)
  {
    forall v | 0 <= v < |list|
      ensures StartAt(b, w, list[v], starts[v])
    {
      assert StartAt(a, w, list[v], starts[v]);
      CountPermuted(a, b, Multiple(w, list[v]));
    }
  }

  /** Local counts of a level beyond the preprocessed ones, on all processes. */
  method AllScanCounts(all: seq<seq<nat>>, sorted: seq<seq<nat>>, c: nat, bsize: nat, list: seq<nat>, starts: seq<seq<nat>>)
    returns (flats: seq<seq<nat>>)
    requires SortedCopies(all, sorted) && AllStarts(all, Multiple(c, bsize), list, starts)
    ensures AllFlat(all, c, bsize, list, flats)
  {
    flats := [];
    for p := 0 to |all|
      invariant |flats| == p && forall q :: 0 <= q < p ==> FlatCounts(LocalCount(all[q]), c, bsize, list, flats[q])
    {
      assert Starts(all[p], Multiple(c, bsize), list, starts[p]);
      StartsOfPermuted(all[p], sorted[p], Multiple(c, bsize), list, starts[p]);
      var flat := ScanCounts(sorted[p], c, bsize, list, starts[p]);
      FlatOfPermuted(sorted[p], all[p], c, bsize, list, flat);
      flats := flats + [flat];
    }
  }

  /** A pushed position leads to the count at the begin of the pushed part. */
  lemma CountAtIndex(s: seq<nat>, c: nat, bsize: nat, list: seq<nat>, flat: seq<nat>, u: nat, index: nat)
    requires FlatCounts(LocalCount(s), c, bsize, list, flat) && IsPartIndex(bsize, list, |list|, u, index)
    ensures index < |flat| && StartAt(s, c, u, flat[index])
  {
    var j, i :| 0 <= j < |list| && 0 <= i < bsize && PartIndexAt(bsize, list, j, i, u, index);
    assert RowCounts(LocalCount(s), c, bsize, list[j], flat, j);
    hide FlatCounts, CountBelow, Multiple;
    CountInRow(s, c, bsize, list[j], flat, j, i);
  }

  lemma CountInRow(s: seq<nat>, c: nat, bsize: nat, v: nat, flat: seq<nat>, j: nat, i: nat)
    requires RowCounts(LocalCount(s), c, bsize, v, flat, j) && i < bsize
    ensures Multiple(bsize + 1, j) + i < |flat|
    ensures flat[Multiple(bsize + 1, j) + i] == CountBelow(s, Multiple(c, Multiple(bsize, v) + i))
  {
    assert flat[Multiple(bsize + 1, j) + i] == Row(flat, bsize, j)[i];
  }

  /** `refinedindices` stays aligned with the refined buckets: its entries are the new starts. */
  lemma StartsFromIndices(s: seq<nat>, c: nat, bsize: nat, list: seq<nat>, flat: seq<nat>, next: seq<nat>, indices: seq<nat>, starts: seq<nat>)
    requires FlatCounts(LocalCount(s), c, bsize, list, flat) && PairedLists(bsize, list, |list|, next, indices)
    requires |starts| == |Unique(indices)|
    requires forall b :: 0 <= b < |starts| ==> Unique(indices)[b] < |flat| && starts[b] == flat[Unique(indices)[b]]
    ensures Starts(s, c, Unique(next), starts)
  {
    var from := UniqueAligned(next, indices);
    hide SameSteps, Unique, FlatCounts;
    forall b | 0 <= b < |starts|
      ensures StartAt(s, c, Unique(next)[b], starts[b])
    {
      assert IsPartIndex(bsize, list, |list|, next[from[b]], indices[from[b]]);
      CountAtIndex(s, c, bsize, list, flat, next[from[b]], indices[from[b]]);
    }
  }

  lemma IndicesInFlat(s: seq<nat>, c: nat, bsize: nat, list: seq<nat>, flat: seq<nat>, next: seq<nat>, indices: seq<nat>)
    requires FlatCounts(LocalCount(s), c, bsize, list, flat) && PairedLists(bsize, list, |list|, next, indices)
    ensures forall b :: 0 <= b < |Unique(indices)| ==> Unique(indices)[b] < |flat|
  {
    UniqueMembers(indices);
    hide SameSteps, Unique, FlatCounts;
    forall b | 0 <= b < |Unique(indices)|
      ensures Unique(indices)[b] < |flat|
    {
      assert Unique(indices)[b] in indices;
      var e :| 0 <= e < |indices| && indices[e] == Unique(indices)[b];
      assert IsPartIndex(bsize, list, |list|, next[e], indices[e]);
      CountAtIndex(s, c, bsize, list, flat, next[e], indices[e]);
    }
  }

  /** The counts carried to the next level, on all processes. */
  method CarryStarts(all: seq<seq<nat>>, flats: seq<seq<nat>>, ghost c: nat, ghost bsize: nat, ghost list: seq<nat>,
      ghost next: seq<nat>, ghost indices: seq<nat>, refined: seq<nat>) returns (starts: seq<seq<nat>>)
    requires AllFlat(all, c, bsize, list, flats) && PairedLists(bsize, list, |list|, next, indices) && refined == Unique(indices)
    ensures AllStarts(all, c, Unique(next), starts)
  {
    hide FlatCounts, PairedLists, Unique, Starts;
    starts := [];
    for p := 0 to |all|
      invariant |starts| == p && forall q :: 0 <= q < p ==> Starts(all[q], c, Unique(next), starts[q])
    {
      assert FlatCounts(LocalCount(all[p]), c, bsize, list, flats[p]);
      IndicesInFlat(all[p], c, bsize, list, flats[p], next, indices);
      var start := seq(|refined|, b requires 0 <= b < |refined| && refined[b] < |flats[p]| => flats[p][refined[b]]);
      StartsFromIndices(all[p], c, bsize, list, flats[p], next, indices, start);
      starts := starts + [start];
    }
  }

  /** The pushed positions are in order, as the pushed parts are. */
  lemma IndicesSorted(bsize: nat, list: seq<nat>, next: seq<nat>, indices: seq<nat>)
    requires Increasing(list) && Sorted(next) && PairedLists(bsize, list, |list|, next, indices)
    ensures Sorted(indices)
  {
    hide SameSteps;
    forall e, f | 0 <= e < f < |indices|
      ensures indices[e] <= indices[f]
    {
      assert next[e] <= next[f];
      assert IsPartIndex(bsize, list, |list|, next[e], indices[e]) && IsPartIndex(bsize, list, |list|, next[f], indices[f]);
      IndexOrder(bsize, list, next[e], indices[e], next[f], indices[f]);
    }
  }

  lemma IndexOrder(bsize: nat, list: seq<nat>, u: nat, index: nat, v: nat, jndex: nat)
    requires Increasing(list) && IsPartIndex(bsize, list, |list|, u, index) && IsPartIndex(bsize, list, |list|, v, jndex) && u <= v
    ensures index <= jndex
  {
    hide Multiple;
    var j, i :| 0 <= j < |list| && 0 <= i < bsize && PartIndexAt(bsize, list, j, i, u, index);
    var l, k :| 0 <= l < |list| && 0 <= k < bsize && PartIndexAt(bsize, list, l, k, v, jndex);
    if l < j {
      MultipleMonotone(bsize, list[l] + 1, list[j]);
      NextMultiple(bsize, list[l]);
    } else if j < l {
      MultipleMonotone(bsize + 1, j + 1, l);
      NextMultiple(bsize + 1, j);
    }
  }
}
