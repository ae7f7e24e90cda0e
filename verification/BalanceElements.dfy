/** `balancePermutedElements` run by all processes: where the elements end, and that none is lost. */
module BalanceElements {
  import opened Basis
  import opened BlockExchange
  import opened Conservation
  import opened ElementExchange
  import opened TArray

  /** The largest id of all processes, and with it equal ranges of ids for the processes. */
  method GetDistribution(all: seq<Elements>, ps: seq<seq<nat>>) returns (nd: seq<nat>)
    requires all != [] && AllSorting(all, ps)
    ensures |nd| == |all| + 1 && nd[0] == 0 && Sorted(nd)
    ensures EqualChunks(nd, nd[|all|]) && EndsBehindLast(all, nd[|all|])
  {
    hide Sorting, Sorted, EqualChunks;
    var maxID := 0;
    for p := 0 to |all|
      invariant maxID >= 0 && forall q :: 0 <= q < p ==> AllBelow(all[q].eIDs, maxID + 1)
      invariant maxID == 0 || exists q :: 0 <= q < p && maxID in all[q].eIDs
    {
      var myMaxID := 0;
      LastIsLargest(all[p], ps[p]);
      if |all[p].eIDs| > 0 {
        myMaxID := all[p].eIDs[ps[p][|ps[p]| - 1]];
      }
      if maxID < myMaxID {
        maxID := myMaxID;
      }
    }
    nd := Distribute(|all|, maxID + 1);
  }

  /** One behind the largest id of all processes, or 1 when there is none above 0. */
  ghost predicate EndsBehindLast(all: seq<Elements>, end: nat) {
    && (forall p :: 0 <= p < |all| ==> AllBelow(all[p].eIDs, end))
    && (end == 1 || exists p :: 0 <= p < |all| && end > 0 && end - 1 in all[p].eIDs)
  }

  ghost predicate AllBelow(ids: seq<nat>, bound: nat) {
    forall k :: 0 <= k < |ids| ==> ids[k] < bound
  }

  /** A permutation that sorts the elements by their ids. */
  ghost predicate Sorting(d: Elements, p: seq<nat>) {
    && Valid(d) && IsPermutation(p, |d.esize|) && (forall i :: 0 <= i < |p| ==> p[i] < |d.esize|)
    && OrderedBy(d.eIDs, p)
  }

  lemma LastIsLargest(d: Elements, p: seq<nat>)
    requires Sorting(d, p)
    ensures |p| == |d.eIDs| && (forall i :: 0 <= i < |p| ==> p[i] < |d.eIDs|)
    ensures |d.eIDs| > 0 ==> AllBelow(d.eIDs, d.eIDs[p[|p| - 1]] + 1)
  {
    forall k | 0 <= k < |d.eIDs|
      ensures d.eIDs[k] <= d.eIDs[p[|p| - 1]]
    {
      assert k in p;
      var i :| 0 <= i < |p| && p[i] == k;
    }
  }

  method SortAll(all: seq<Elements>) returns (ps: seq<seq<nat>>)
    requires forall p :: 0 <= p < |all| ==> Valid(all[p])
    ensures AllSorting(all, ps)
  {
    hide Valid, IsPermutation, OrderedBy;
    ps := [];
    for p := 0 to |all|
      invariant |ps| == p && forall q :: 0 <= q < p ==> Sorting(all[q], ps[q])
    {
      ValidLengths(all[p]);
      var order := SortedPermutation(all[p].eIDs);
      PlacesBelow(order, |all[p].eIDs|);
      ps := ps + [order];
    }
  }

  ghost function SortedParts(d: Elements, p: seq<nat>, nd: seq<nat>): (r: seq<seq<Element>>)
    requires Sorting(d, p) && Sorted(nd) && |nd| > 0
    ensures |r| == |nd| - 1
  {
    PartsOf(d, p, nd)
  }

  ghost predicate AllSorting(all: seq<Elements>, ps: seq<seq<nat>>) {
    |ps| == |all| && forall p :: 0 <= p < |all| ==> Sorting(all[p], ps[p])
  }

  /** What every process has for every process. */
  ghost function PartsOfAll(all: seq<Elements>, ps: seq<seq<nat>>, nd: seq<nat>): (r: seq<seq<seq<Element>>>)
    requires AllSorting(all, ps) && Sorted(nd) && |nd| == |all| + 1
    ensures |r| == |all| && forall p :: 0 <= p < |all| ==> |r[p]| == |all| && r[p] == SortedParts(all[p], ps[p], nd)
  {
    seq(|all|, p requires 0 <= p < |all| => SortedParts(all[p], ps[p], nd))
  }

  /** Nothing of a process is left out of its parts. */
  lemma PartsAreAll(d: Elements, p: seq<nat>, nd: seq<nat>, n: nat)
    requires Sorting(d, p) && Sorted(nd) && n < |nd| && nd[0] == 0
    ensures |p| == |d.eIDs| && LowerBound(SortedIds(d.eIDs, p), nd[n]) <= |p|
    ensures Flatten(PartsOf(d, p, nd)[..n]) == SortedRecords(d, p)[..LowerBound(SortedIds(d.eIDs, p), nd[n])]
  {
    ValidLengths(d);
    var ids := SortedIds(d.eIDs, p);
    var parts := PartsOf(d, p, nd);
    if n == 0 {
      LowerBoundOfZero(ids);
      assert parts[..0] == [];
    } else {
      PartsAreAll(d, p, nd, n - 1);
      hide RecordAt, Valid, IsPermutation, OrderedBy, LowerBound, SortedRecords;
      InOrder(nd, n - 1);
      BoundsInOrder(ids, nd[n - 1], nd[n]);
      assert parts[..n][..n - 1] == parts[..n - 1] && parts[..n] != [];
      SliceJoin(SortedRecords(d, p), 0, LowerBound(ids, nd[n - 1]), LowerBound(ids, nd[n]));
    }
  }

  lemma RecordsPermuted(d: Elements, p: seq<nat>)
    requires Sorting(d, p)
    ensures multiset(SortedRecords(d, p)) == multiset(Records(d))
  {
    hide RecordAt;
    PermutedMultiset(Records(d), p);
    assert SortedRecords(d, p) == Permuted(Records(d), p);
  }

  /** All parts of a process together are its elements. */
  lemma RowKept(d: Elements, p: seq<nat>, nd: seq<nat>)
    requires Sorting(d, p) && Sorted(nd) && |nd| > 0 && nd[0] == 0 && AllBelow(d.eIDs, nd[|nd| - 1])
    ensures Together(PartsOf(d, p, nd), |nd| - 1) == multiset(Records(d))
  {
    ValidLengths(d);
    PartsInARow(d, p, nd);
    hide Valid, IsPermutation, OrderedBy, Sorted, AllBelow, SortedRecords, PartsOf, Flatten, Together, Records;
    TogetherIsFlat(PartsOf(d, p, nd), |nd| - 1);
    RecordsPermuted(d, p);
  }

  lemma PartsInARow(d: Elements, p: seq<nat>, nd: seq<nat>)
    requires Sorting(d, p) && Sorted(nd) && |nd| > 0 && nd[0] == 0 && AllBelow(d.eIDs, nd[|nd| - 1])
    ensures Flatten(PartsOf(d, p, nd)[..|nd| - 1]) == SortedRecords(d, p)
  {
    ValidLengths(d);
    AllIdsBelow(d, p, nd[|nd| - 1]);
    hide Valid, IsPermutation, OrderedBy, LowerBound, SortedRecords, SortedIds, PartsOf, Flatten, AllBelow;
    PartsAreAll(d, p, nd, |nd| - 1);
    assert SortedRecords(d, p)[..|p|] == SortedRecords(d, p);
  }

  lemma AllIdsBelow(d: Elements, p: seq<nat>, bound: nat)
    requires (forall i :: 0 <= i < |p| ==> p[i] < |d.eIDs|) && AllBelow(d.eIDs, bound)
    ensures LowerBound(SortedIds(d.eIDs, p), bound) == |p|
  {
    OneLowerBound(SortedIds(d.eIDs, p), bound, |p|, LowerBound(SortedIds(d.eIDs, p), bound));
  }

  /** Every element of a part lies in the range of its target. */
  lemma PartIsInRange(d: Elements, p: seq<nat>, nd: seq<nat>, r: nat, k: nat)
    requires Sorting(d, p) && Sorted(nd) && r + 1 < |nd| && k < |PartFor(d, p, nd, r)|
    ensures nd[r] <= PartFor(d, p, nd, r)[k].id < nd[r + 1]
  {
    ValidLengths(d);
    var ids := SortedIds(d.eIDs, p);
    BoundsInOrder(ids, nd[r], nd[r + 1]);
    var at := LowerBound(ids, nd[r]) + k;
    assert PartFor(d, p, nd, r)[k] == SortedRecords(d, p)[at];
    assert SortedRecords(d, p)[at].id == ids[at];
    IdsSorted(d, p);
  }

  lemma IdsSorted(d: Elements, p: seq<nat>)
    requires Sorting(d, p)
    ensures |d.eIDs| == |d.esize| && Sorted(SortedIds(d.eIDs, p))
  {
  }

  /** The elements of all processes. */
  ghost predicate AllValid(all: seq<Elements>) {
    forall p :: 0 <= p < |all| ==> Valid(all[p])
  }

  ghost function RecordsOfAll(all: seq<Elements>, n: nat): multiset<Element>
    requires AllValid(all) && n <= |all|
  {
    if n == 0 then multiset{} else RecordsOfAll(all, n - 1) + multiset(Records(all[n - 1]))
  }

  /** The ranges reach all ids. */
  ghost predicate Reaches(all: seq<Elements>, nd: seq<nat>) {
    && |nd| == |all| + 1 && nd[0] == 0 && Sorted(nd)
    && forall p :: 0 <= p < |all| ==> AllBelow(all[p].eIDs, nd[|all|])
  }

  lemma {:induction false} RowsAreRecords(all: seq<Elements>, ps: seq<seq<nat>>, nd: seq<nat>, m: nat)
    requires AllSorting(all, ps) && AllValid(all) && Reaches(all, nd) && m <= |all|
    ensures RowsTogether(PartsOfAll(all, ps, nd), m, |all|) == RecordsOfAll(all, m)
  {
    hide Sorting, Valid, Records, Together, AllBelow, SortedParts;
    if m > 0 {
      RowsAreRecords(all, ps, nd, m - 1);
      RowIsKept(all, ps, nd, m - 1);
    }
  }

  lemma RowIsKept(all: seq<Elements>, ps: seq<seq<nat>>, nd: seq<nat>, p: nat)
    requires AllSorting(all, ps) && AllValid(all) && Reaches(all, nd) && p < |all|
    ensures Together(PartsOfAll(all, ps, nd)[p], |all|) == multiset(Records(all[p]))
  {
    hide Valid, Records, Together, Sorting, AllBelow;
    RowKept(all[p], ps[p], nd);
  }

  /** What a process reads: the parts of all processes for it, in the order of arrival. */
  ghost predicate Read(parts: seq<seq<seq<Element>>>, order: seq<nat>, me: nat, d: Elements) {
    && me < |parts| && (forall p :: 0 <= p < |parts| ==> |parts[p]| == |parts|)
    && IsPermutation(order, |parts|) && (forall i :: 0 <= i < |order| ==> order[i] < |parts|)
    && Valid(d) && Records(d) == Flatten(Permuted(ColumnOf(parts, me), order))
  }

  lemma {:induction false} ColumnsAreRecords(parts: seq<seq<seq<Element>>>, orders: seq<seq<nat>>, balanced: seq<Elements>, n: nat)
    requires |orders| == |balanced| == |parts| && n <= |parts| && AllValid(balanced)
    requires forall p :: 0 <= p < |parts| ==> |parts[p]| == |parts|
    requires forall me :: 0 <= me < |parts| ==> Read(parts, orders[me], me, balanced[me])
    ensures ColumnsTogether(parts, |parts|, n) == RecordsOfAll(balanced, n)
  {
    hide Read, Valid, Records, Together, ColumnOf;
    if n > 0 {
      ColumnsAreRecords(parts, orders, balanced, n - 1);
      ColumnIsRead(parts, orders[n - 1], n - 1, balanced[n - 1]);
    }
  }

  lemma ColumnIsRead(parts: seq<seq<seq<Element>>>, order: seq<nat>, me: nat, d: Elements)
    requires Read(parts, order, me, d)
    ensures Valid(d) && Together(ColumnOf(parts, me), |parts|) == multiset(Records(d))
  {
    hide IsPermutation, Valid, Records, Permuted, Together;
    var column := ColumnOf(parts, me);
    FlattenPermuted(column, order);
    TogetherIsFlat(column, |parts|);
    assert column[..|parts|] == column;
  }

  /** Every element a process holds has an id in the range of the process. */
  ghost predicate InOwnRange(d: Elements, nd: seq<nat>, me: nat)
    requires Valid(d)
  {
    me + 1 < |nd| && AllIn(Records(d), nd[me], nd[me + 1])
  }

  ghost predicate AllIn(xs: seq<Element>, lo: nat, hi: nat) {
    forall k :: 0 <= k < |xs| ==> lo <= xs[k].id < hi
  }

  lemma {:induction false} AllInFlat(lists: seq<seq<Element>>, lo: nat, hi: nat)
    requires forall i :: 0 <= i < |lists| ==> AllIn(lists[i], lo, hi)
    ensures AllIn(Flatten(lists), lo, hi)
  {
    if lists != [] {
      AllInFlat(lists[..|lists| - 1], lo, hi);
    }
  }

  lemma ReadInRange(all: seq<Elements>, ps: seq<seq<nat>>, nd: seq<nat>, order: seq<nat>, me: nat, d: Elements)
    requires AllSorting(all, ps) && Reaches(all, nd) && Read(PartsOfAll(all, ps, nd), order, me, d)
    ensures Valid(d) && InOwnRange(d, nd, me)
  {
    hide Valid, Records, Sorting, AllBelow, PartFor;
    var parts := PartsOfAll(all, ps, nd);
    var arrived := Permuted(ColumnOf(parts, me), order);
    forall i | 0 <= i < |arrived|
      ensures AllIn(arrived[i], nd[me], nd[me + 1])
    {
      var p := order[i];
      assert Sorting(all[p], ps[p]);
      PartOfSorted(all[p], ps[p], nd, me);
      PartAllIn(all[p], ps[p], nd, me);
    }
    hide Flatten;
    AllInFlat(arrived, nd[me], nd[me + 1]);
  }

  lemma PartAllIn(d: Elements, p: seq<nat>, nd: seq<nat>, r: nat)
    requires Sorting(d, p) && Sorted(nd) && r + 1 < |nd|
    ensures AllIn(PartFor(d, p, nd, r), nd[r], nd[r + 1])
  {
    forall k | 0 <= k < |PartFor(d, p, nd, r)|
      ensures nd[r] <= PartFor(d, p, nd, r)[k].id < nd[r + 1]
    {
      PartIsInRange(d, p, nd, r, k);
    }
  }

  lemma PartOfSorted(d: Elements, p: seq<nat>, nd: seq<nat>, r: nat)
    requires Sorting(d, p) && Sorted(nd) && r + 1 < |nd|
    ensures Valid(d) && (forall i :: 0 <= i < |p| ==> p[i] < |d.esize|) && SortedParts(d, p, nd)[r] == PartFor(d, p, nd, r)
  {
  }

  /** `balancePermutedElements` on all processes: every element once, where its id belongs. */
  method BalancePermutedElements(all: seq<Elements>) returns (balanced: seq<Elements>, nd: seq<nat>)
    requires all != [] && AllValid(all)
    ensures |balanced| == |all| && AllValid(balanced) && |nd| == |all| + 1 && nd[0] == 0 && Sorted(nd)
    ensures EqualChunks(nd, nd[|all|]) && EndsBehindLast(all, nd[|all|])
    ensures RecordsOfAll(balanced, |all|) == RecordsOfAll(all, |all|)
    ensures forall me :: 0 <= me < |all| ==> InOwnRange(balanced[me], nd, me)
  {
    hide Sorting, Valid, Records, Read, Delivers, Addressed, AllBelow, InOwnRange, EqualChunks;
    var ps := SortAll(all);
    nd := GetDistribution(all, ps);
    ghost var parts := PartsOfAll(all, ps, nd);
    var buffers;
    ghost var sent;
    buffers, sent := WriteAll(all, ps, nd);
    var received;
    ghost var orders;
    received, orders := AllToAllBlocks(buffers, sent);
    balanced := ReadAll(received, orders, sent, parts);
    RowsAreRecords(all, ps, nd, |all|);
    RowsAreColumns(parts, |all|, |all|);
    ColumnsAreRecords(parts, orders, balanced, |all|);
    forall me | 0 <= me < |all|
      ensures InOwnRange(balanced[me], nd, me)
    {
      ReadInRange(all, ps, nd, orders[me], me, balanced[me]);
    }
  }

  /** The messages of all processes. */
  method WriteAll(all: seq<Elements>, ps: seq<seq<nat>>, nd: seq<nat>) returns (buffers: seq<seq<nat>>, ghost sent: seq<seq<seq<nat>>>)
    requires AllSorting(all, ps) && Reaches(all, nd)
    ensures |buffers| == |sent| == |all| && Square(sent)
    ensures forall p :: 0 <= p < |all| ==> sent[p] == Blocks(PartsOfAll(all, ps, nd)[p])
    ensures forall p :: 0 <= p < |all| ==> Addressed(sent[p]) && buffers[p] == Flatten(sent[p])
  {
    hide Sorting, Valid, AllBelow, ElementBlock, SortedParts;
    ghost var parts := PartsOfAll(all, ps, nd);
    buffers, sent := [], [];
    for p := 0 to |all|
      invariant |buffers| == |sent| == p
      invariant forall q :: 0 <= q < p ==> sent[q] == Blocks(parts[q]) && Addressed(sent[q]) && buffers[q] == Flatten(sent[q])
    {
      assert Sorting(all[p], ps[p]);
      var buffer := WriteSorted(all[p], ps[p], nd);
      AddressedBlocks(parts[p]);
      buffers, sent := buffers + [buffer], sent + [Blocks(parts[p])];
    }
  }

  method WriteSorted(d: Elements, p: seq<nat>, nd: seq<nat>) returns (buffer: seq<nat>)
    requires Sorting(d, p) && Sorted(nd) && |nd| > 0 && nd[0] == 0
    ensures buffer == Flatten(Blocks(SortedParts(d, p, nd)))
  {
    buffer := WriteElements(d, p, nd);
  }

  lemma AddressedBlocks(parts: seq<seq<Element>>)
    ensures Addressed(Blocks(parts))
  {
    forall t | 0 <= t < |parts|
      ensures |Blocks(parts)[t]| >= 2 && Blocks(parts)[t][0] == |Blocks(parts)[t]| && Blocks(parts)[t][1] == t
    {
      assert Blocks(parts)[t] == ElementBlock(t, parts[t]);
    }
  }

  /** All processes read what arrived. */
  method ReadAll(received: seq<seq<nat>>, ghost orders: seq<seq<nat>>, ghost sent: seq<seq<seq<nat>>>, ghost parts: seq<seq<seq<Element>>>)
    returns (balanced: seq<Elements>)
    requires |received| == |orders| == |sent| == |parts| && Square(sent)
    requires forall p :: 0 <= p < |parts| ==> |parts[p]| == |parts| && sent[p] == Blocks(parts[p])
    requires forall me :: 0 <= me < |sent| ==> Delivers(sent, me, orders[me], received[me])
    ensures |balanced| == |parts| && AllValid(balanced)
    ensures forall me :: 0 <= me < |parts| ==> Read(parts, orders[me], me, balanced[me])
  {
    hide Delivers, Valid, Records, ElementBlock, Read;
    balanced := [];
    for me := 0 to |received|
      invariant |balanced| == me && forall q :: 0 <= q < me ==> Valid(balanced[q]) && Read(parts, orders[q], q, balanced[q])
    {
      BlocksArrive(sent, parts, orders[me], received[me], me);
      ghost var arrivals := Permuted(ColumnOf(parts, me), orders[me]);
      var d := ReadElements(received[me], |received|, me, arrivals);
      ReadIsRead(parts, orders[me], me, d);
      balanced := balanced + [d];
    }
  }

  lemma ReadIsRead(parts: seq<seq<seq<Element>>>, order: seq<nat>, me: nat, d: Elements)
    requires me < |parts| && (forall p :: 0 <= p < |parts| ==> |parts[p]| == |parts|)
    requires IsPermutation(order, |parts|) && (forall i :: 0 <= i < |order| ==> order[i] < |parts|)
    requires Valid(d) && Records(d) == Flatten(Permuted(ColumnOf(parts, me), order))
    ensures Read(parts, order, me, d)
  {
  }

  lemma BlocksArrive(sent: seq<seq<seq<nat>>>, parts: seq<seq<seq<Element>>>, order: seq<nat>, buffer: seq<nat>, me: nat)
    requires |sent| == |parts| && Square(sent) && me < |sent| && Delivers(sent, me, order, buffer)
    requires forall p :: 0 <= p < |parts| ==> |parts[p]| == |parts| && sent[p] == Blocks(parts[p])
    ensures IsPermutation(order, |parts|) && |order| == |parts| && forall i :: 0 <= i < |order| ==> order[i] < |parts|
    ensures buffer == Flatten(ArrivedBlocks(me, Permuted(ColumnOf(parts, me), order)))
  {
    hide ElementBlock, Flatten;
    assert BlocksFor(sent, order, me) == ArrivedBlocks(me, Permuted(ColumnOf(parts, me), order));
  }
}
