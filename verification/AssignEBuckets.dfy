/**
 * `RandomInput::assignEBuckets`: every element asks the owner of one of its nodes for the bucket
 * of that node; requests are sorted by node, and the answers follow the same order.
 */
module AssignEBuckets {
  import opened Basis
  import opened BlockExchange
  import opened ClosestNode

  /** One node among the `size` nodes of an element from number `offset` on. */
  method ClosestOf(enodes: seq<nat>, offset: nat, size: nat, begin: nat, end: nat) returns (c: nat)
    requires 0 < size && offset + size <= |enodes|
    ensures IsChosen(enodes[offset..offset + size], begin, end, c)
  {
    ghost var nodes := enodes[offset..offset + size];
    c := enodes[offset];
    for n := 1 to size
      invariant c == Closest(nodes, begin, end, n)
    {
      assert enodes[offset + n] == nodes[n];
      if begin <= enodes[offset + n] < end {
        if c > enodes[offset + n] || c < begin {
          c := enodes[offset + n];
        }
      } else {
        if Distance(c, begin) > Distance(enodes[offset + n], begin) {
          c := enodes[offset + n];
        }
      }
    }
    ClosestIsChosen(nodes, begin, end);
  }

  method ChooseClosest(esize: seq<nat>, enodes: seq<nat>, begin: nat, end: nat) returns (closest: seq<nat>)
    requires Prefix(esize, |esize|) == |enodes| && forall e :: 0 <= e < |esize| ==> esize[e] > 0
    ensures |closest| == |esize|
    ensures forall e :: 0 <= e < |esize| ==> IsClosest(esize, enodes, begin, end, closest, e)
  {
    closest := [];
    var offset := 0;
    for e := 0 to |esize|
      invariant |closest| == e && offset == Prefix(esize, e)
      invariant forall f :: 0 <= f < e ==> IsClosest(esize, enodes, begin, end, closest, f)
    {
      PrefixMonotone(esize, e + 1, |esize|);
      var c := ClosestOf(enodes, offset, esize[e], begin, end);
      ClosestNext(esize, enodes, begin, end, closest, c);
      closest := closest + [c];
      offset := offset + esize[e];
    }
  }

  ghost predicate IsClosest(esize: seq<nat>, enodes: seq<nat>, begin: nat, end: nat, closest: seq<nat>, e: nat) {
    && e < |closest| && e < |esize| && esize[e] > 0 && Prefix(esize, e) + esize[e] <= |enodes|
    && IsChosen(enodes[Prefix(esize, e)..Prefix(esize, e) + esize[e]], begin, end, closest[e])
  }

  lemma ClosestNext(esize: seq<nat>, enodes: seq<nat>, begin: nat, end: nat, closest: seq<nat>, c: nat)
    requires |closest| < |esize| && esize[|closest|] > 0 && Prefix(esize, |closest|) + esize[|closest|] <= |enodes|
    requires IsChosen(enodes[Prefix(esize, |closest|)..Prefix(esize, |closest|) + esize[|closest|]], begin, end, c)
    requires forall f :: 0 <= f < |closest| ==> IsClosest(esize, enodes, begin, end, closest, f)
    ensures forall f :: 0 <= f < |closest| + 1 ==> IsClosest(esize, enodes, begin, end, closest + [c], f)
  {
    hide IsChosen;
    forall f | 0 <= f < |closest| + 1
      ensures IsClosest(esize, enodes, begin, end, closest + [c], f)
    {
      if f < |closest| {
        assert IsClosest(esize, enodes, begin, end, closest, f);
      }
    }
  }

  /** The nodes asked for, sorted. */
  function Asked(closest: seq<nat>, p: seq<nat>): (r: seq<nat>)
    requires forall i :: 0 <= i < |p| ==> p[i] < |closest|
    ensures |r| == |p|
  {
    seq(|p|, i requires 0 <= i < |p| => closest[p[i]])
  }

  /** The nodes asked from owner `r`. */
  function AskedFrom(asked: seq<nat>, nd: seq<nat>, r: nat): seq<nat>
    requires Sorted(nd) && r + 1 < |nd|
  {
    assert LowerBound(asked, nd[r]) <= LowerBound(asked, nd[r + 1]) by { BoundsInOrder(asked, nd[r], nd[r + 1]); }
    asked[LowerBound(asked, nd[r])..LowerBound(asked, nd[r + 1])]
  }

  function AllAsked(asked: seq<nat>, nd: seq<nat>): (r: seq<seq<nat>>)
    requires Sorted(nd) && |nd| > 0
    ensures |r| == |nd| - 1
  {
    seq(|nd| - 1, r requires 0 <= r < |nd| - 1 => AskedFrom(asked, nd, r))
  }

  /** Appends the block for owner `r`: its size is filled in when its nodes are written. */
  method AppendRequest(buffer: seq<nat>, closest: seq<nat>, p: seq<nat>, r: nat, me: nat, begin: nat, bound: nat)
    returns (longer: seq<nat>, n: nat)
    requires (forall i :: 0 <= i < |p| ==> p[i] < |closest|) && begin <= |p|
    ensures begin <= n <= |p| && (n < |p| ==> Asked(closest, p)[n] >= bound)
    ensures forall i :: begin <= i < n ==> Asked(closest, p)[i] < bound
    ensures longer == buffer + Block(r, me, Asked(closest, p)[begin..n])
  {
    ghost var asked := Asked(closest, p);
    var prevsize := |buffer|;
    longer := buffer + [0, r, me];
    n := begin;
    while n != |p| && closest[p[n]] < bound
      invariant begin <= n <= |p| && forall i :: begin <= i < n ==> asked[i] < bound
      invariant longer == buffer + ([0, r, me] + asked[begin..n])
      decreases |p| - n
    {
      longer := longer + [closest[p[n]]];
      n := n + 1;
    }
    longer := longer[prevsize := 3 + n - begin];
  }

  /** Writes the requests: the sorted nodes, cut at the borders of the owners. */
  method WriteRequests(closest: seq<nat>, p: seq<nat>, nd: seq<nat>, me: nat) returns (buffer: seq<nat>)
    requires IsPermutation(p, |closest|) && (forall i :: 0 <= i < |p| ==> p[i] < |closest|) && OrderedBy(closest, p)
    requires Sorted(nd) && |nd| > 0 && nd[0] == 0
    ensures buffer == Outgoing(AllAsked(Asked(closest, p), nd), me, |nd| - 1)
  {
    hide IsPermutation, OrderedBy, Block, LowerBound;
    buffer := [];
    var begin := 0;
    ghost var asked, sent := Asked(closest, p), AllAsked(Asked(closest, p), nd);
    LowerBoundOfZero(asked);
    for r := 0 to |nd| - 1
      invariant buffer == Outgoing(sent, me, r) && begin == LowerBound(asked, nd[r]) <= |p|
    {
      BoundsInOrder(asked, nd[r], nd[r + 1]);
      var n;
      buffer, n := AppendRequest(buffer, closest, p, r, me, begin, nd[r + 1]);
      CutFound(asked, nd[r], nd[r + 1], begin, n);
      begin := n;
    }
  }

  /** The bucket a process computed for one of its nodes. */
  ghost function BucketOf(ids: seq<nat>, buckets: seq<nat>, id: nat): nat
    requires |ids| == |buckets| && id in ids
  {
    buckets[IndexOf(ids, id)]
  }

  ghost predicate AllHeld(ids: seq<nat>, asked: seq<nat>) {
    forall k :: 0 <= k < |asked| ==> asked[k] in ids
  }

  ghost function BucketsOf(ids: seq<nat>, buckets: seq<nat>, asked: seq<nat>): (r: seq<nat>)
    requires |ids| == |buckets| && AllHeld(ids, asked)
    ensures |r| == |asked|
  {
    seq(|asked|, k requires 0 <= k < |asked| => BucketOf(ids, buckets, asked[k]))
  }

  /** What an owner is asked by every process can be answered in one sweep. */
  ghost predicate Answerable(sent: seq<seq<seq<nat>>>, me: nat, ids: seq<nat>, buckets: seq<nat>)
    requires Square(sent) && me < |sent|
  {
    && Increasing(ids) && |buckets| == |ids|
    && forall r :: 0 <= r < |sent| ==> Sorted(sent[r][me]) && AllHeld(ids, sent[r][me])
  }

  ghost function Replies(sent: seq<seq<seq<nat>>>, me: nat, ids: seq<nat>, buckets: seq<nat>): (r: seq<seq<nat>>)
    requires Square(sent) && me < |sent| && Answerable(sent, me, ids, buckets)
    ensures |r| == |sent|
  {
    seq(|sent|, r requires 0 <= r < |sent| => BucketsOf(ids, buckets, sent[r][me]))
  }

  lemma IndexFound(ids: seq<nat>, id: nat, it: nat)
    requires Increasing(ids) && id in ids && it < |ids| && ids[it] >= id && forall j :: 0 <= j < it ==> ids[j] < id
    ensures ids[it] == id && IndexOf(ids, id) == it
  {
    var k := IndexOf(ids, id);
    assert k >= it;
  }

  /** The buckets of sorted nodes, with one cursor over the sorted nodes of the process. */
  method LookUp(asked: seq<nat>, ids: seq<nat>, buckets: seq<nat>) returns (found: seq<nat>)
    requires Increasing(ids) && |buckets| == |ids| && Sorted(asked) && AllHeld(ids, asked)
    ensures found == BucketsOf(ids, buckets, asked)
  {
    found := [];
    var it := 0;
    for n := 0 to |asked|
      invariant |found| == n && forall k :: 0 <= k < n ==> found[k] == BucketOf(ids, buckets, asked[k])
      invariant it <= |ids| && forall j :: 0 <= j < it ==> forall k :: n <= k < |asked| ==> ids[j] < asked[k]
    {
      ghost var at := IndexOf(ids, asked[n]);
      assert asked[n] in ids;
      while ids[it] < asked[n]
        invariant it <= at < |ids|
        invariant forall j :: 0 <= j < it ==> forall k :: n <= k < |asked| ==> ids[j] < asked[k]
        decreases |ids| - it
      {
        it := it + 1;
      }
      IndexFound(ids, asked[n], it);
      found := found + [buckets[it]];
    }
  }

  /** Answers every block in the order of its source. */
  method WriteReplies(buffer: seq<nat>, processes: nat, me: nat, ids: seq<nat>, buckets: seq<nat>, ghost sent: seq<seq<seq<nat>>>,
      ghost order: seq<nat>)
    returns (replies: seq<nat>)
    requires Square(sent) && me < |sent| == processes && Arrives(sent, me, order, buffer) && Answerable(sent, me, ids, buckets)
    ensures replies == Outgoing(Replies(sent, me, ids, buckets), me, processes)
  {
    hide Arrives, Incoming, Increasing, Sorted;
    var boundaries := Boundaries(buffer, processes, sent, me, order);
    replies := [];
    for r := 0 to processes
      invariant replies == Outgoing(Replies(sent, me, ids, buckets), me, r)
    {
      assert BlockOf(sent, me, buffer, boundaries[r], r);
      var offset := boundaries[r];
      var size := buffer[offset] - 3;
      var found := LookUp(buffer[offset + 3..offset + 3 + size], ids, buckets);
      replies := replies + ([3 + size, r, me] + found);
    }
  }

  /** The owner of a node has this bucket for it. */
  ghost predicate OwnersBucket(ids: seq<seq<nat>>, buckets: seq<seq<nat>>, nd: seq<nat>, id: nat, bucket: nat) {
    exists r :: 0 <= r < |ids| && BucketAtOwner(ids, buckets, nd, id, bucket, r)
  }

  ghost predicate BucketAtOwner(ids: seq<seq<nat>>, buckets: seq<seq<nat>>, nd: seq<nat>, id: nat, bucket: nat, r: nat) {
    && r < |ids| == |buckets| && r + 1 < |nd| && nd[r] <= id < nd[r + 1] && |ids[r]| == |buckets[r]| && id in ids[r]
    && bucket == BucketOf(ids[r], buckets[r], id)
  }

  lemma AskedInRange(asked: seq<nat>, nd: seq<nat>, r: nat, n: nat)
    requires Sorted(asked) && Sorted(nd) && r + 1 < |nd| && n < |AskedFrom(asked, nd, r)|
    ensures LowerBound(asked, nd[r]) + n < LowerBound(asked, nd[r + 1]) <= |asked|
    ensures AskedFrom(asked, nd, r)[n] == asked[LowerBound(asked, nd[r]) + n] && nd[r] <= asked[LowerBound(asked, nd[r]) + n] < nd[r + 1]
  {
    BoundsInOrder(asked, nd[r], nd[r + 1]);
  }

  /** The replies for one process: from each owner the buckets of what it was asked. */
  ghost predicate RepliesFor(sent: seq<seq<seq<nat>>>, asked: seq<nat>, nd: seq<nat>, ids: seq<seq<nat>>, buckets: seq<seq<nat>>, me: nat)
    requires Square(sent) && me < |sent| && Sorted(nd) && |nd| == |sent| + 1 && |ids| == |buckets| == |sent|
  {
    forall r :: 0 <= r < |sent| ==> ReplyOf(sent, asked, nd, ids, buckets, me, r)
  }

  ghost predicate ReplyOf(sent: seq<seq<seq<nat>>>, asked: seq<nat>, nd: seq<nat>, ids: seq<seq<nat>>, buckets: seq<seq<nat>>, me: nat, r: nat)
    requires Square(sent) && me < |sent| && Sorted(nd) && |nd| == |sent| + 1 && |ids| == |buckets| == |sent| && r < |sent|
  {
    && |ids[r]| == |buckets[r]| && AllHeld(ids[r], AskedFrom(asked, nd, r))
    && sent[r][me] == BucketsOf(ids[r], buckets[r], AskedFrom(asked, nd, r))
  }

  /** The bucket stored for the element at place `k` of the permutation. */
  ghost predicate StoredAt(closest: seq<nat>, p: seq<nat>, eBuckets: seq<nat>, nd: seq<nat>, ids: seq<seq<nat>>, buckets: seq<seq<nat>>, k: nat) {
    k < |p| && p[k] < |closest| && p[k] < |eBuckets| && OwnersBucket(ids, buckets, nd, closest[p[k]], eBuckets[p[k]])
  }

  /** Stores the answers, owner by owner, along the permutation. */
  method StoreBuckets(buffer: seq<nat>, processes: nat, closest: seq<nat>, p: seq<nat>, ghost sent: seq<seq<seq<nat>>>, ghost order: seq<nat>,
      ghost nd: seq<nat>, ghost ids: seq<seq<nat>>, ghost buckets: seq<seq<nat>>, ghost me: nat)
    returns (eBuckets: seq<nat>)
    requires Square(sent) && me < |sent| == processes && Arrives(sent, me, order, buffer)
    requires IsPermutation(p, |closest|) && (forall i :: 0 <= i < |p| ==> p[i] < |closest|) && OrderedBy(closest, p)
    requires Sorted(nd) && |nd| == |sent| + 1 && nd[0] == 0 && |ids| == |buckets| == |sent|
    requires RepliesFor(sent, Asked(closest, p), nd, ids, buckets, me)
    requires LowerBound(Asked(closest, p), nd[processes]) == |p|
    ensures |eBuckets| == |closest| && forall e :: 0 <= e < |closest| ==> OwnersBucket(ids, buckets, nd, closest[e], eBuckets[e])
  {
    hide Arrives, Incoming, OwnersBucket, LowerBound, IsPermutation, OrderedBy;
    ghost var asked := Asked(closest, p);
    AskedSorted(closest, p);
    PermutationIsDistinct(closest, p);
    var boundaries := Boundaries(buffer, processes, sent, me, order);
    eBuckets := seq(|closest|, _ => 0);
    var e := 0;
    LowerBoundOfZero(asked);
    for r := 0 to processes
      invariant |eBuckets| == |closest| && e == LowerBound(asked, nd[r])
      invariant forall k :: 0 <= k < e ==> StoredAt(closest, p, eBuckets, nd, ids, buckets, k)
    {
      assert BlockOf(sent, me, buffer, boundaries[r], r) && ReplyOf(sent, asked, nd, ids, buckets, me, r);
      BoundsInOrder(asked, nd[r], nd[r + 1]);
      eBuckets, e := StoreBlock(buffer[boundaries[r] + 3..boundaries[r] + buffer[boundaries[r]]], closest, p, eBuckets, e, nd, ids, buckets, r);
    }
    AllStored(closest, p, eBuckets, nd, ids, buckets);
  }

  method StoreBlock(block: seq<nat>, closest: seq<nat>, p: seq<nat>, before: seq<nat>, first: nat, ghost nd: seq<nat>,
      ghost ids: seq<seq<nat>>, ghost buckets: seq<seq<nat>>, ghost r: nat)
    returns (eBuckets: seq<nat>, e: nat)
    requires (forall i :: 0 <= i < |p| ==> p[i] < |closest|) && Distinct(p) && Sorted(Asked(closest, p)) && |before| == |closest|
    requires Sorted(nd) && r + 1 < |nd| && r < |ids| == |buckets| && first == LowerBound(Asked(closest, p), nd[r])
    requires |ids[r]| == |buckets[r]| && AllHeld(ids[r], AskedFrom(Asked(closest, p), nd, r))
    requires block == BucketsOf(ids[r], buckets[r], AskedFrom(Asked(closest, p), nd, r))
    requires forall k :: 0 <= k < first ==> StoredAt(closest, p, before, nd, ids, buckets, k)
    ensures |eBuckets| == |closest| && e == LowerBound(Asked(closest, p), nd[r + 1])
    ensures forall k :: 0 <= k < e ==> StoredAt(closest, p, eBuckets, nd, ids, buckets, k)
  {
    hide OwnersBucket, LowerBound, Sorted, BucketOf;
    ghost var asked := Asked(closest, p);
    eBuckets, e := before, first;
    for n := 0 to |block|
      invariant |eBuckets| == |closest| && e == first + n <= |p|
      invariant forall k :: 0 <= k < e ==> StoredAt(closest, p, eBuckets, nd, ids, buckets, k)
    {
      AskedInRange(asked, nd, r, n);
      ghost var sofar := eBuckets;
      eBuckets := eBuckets[p[e] := block[n]];
      assert OwnersBucket(ids, buckets, nd, asked[e], block[n]) by {
        FromOwner(ids, buckets, nd, asked[e], block[n], r);
      }
      forall k | 0 <= k < e + 1
        ensures StoredAt(closest, p, eBuckets, nd, ids, buckets, k)
      {
        assert k < e ==> StoredAt(closest, p, sofar, nd, ids, buckets, k);
      }
      e := e + 1;
    }
    NextBound(nd, r);
    BoundsInOrder(asked, nd[r], nd[r + 1]);
  }

  lemma FromOwner(ids: seq<seq<nat>>, buckets: seq<seq<nat>>, nd: seq<nat>, id: nat, bucket: nat, r: nat)
    requires BucketAtOwner(ids, buckets, nd, id, bucket, r)
    ensures OwnersBucket(ids, buckets, nd, id, bucket)
  {
  }

  lemma NextBound(nd: seq<nat>, r: nat)
    requires Sorted(nd) && r + 1 < |nd|
    ensures nd[r] <= nd[r + 1]
  {
  }

  lemma AskedSorted(closest: seq<nat>, p: seq<nat>)
    requires OrderedBy(closest, p)
    ensures Sorted(Asked(closest, p))
  {
  }

  lemma PermutationIsDistinct(closest: seq<nat>, p: seq<nat>)
    requires IsPermutation(p, |closest|)
    ensures Distinct(p) && |p| == |closest|
  {
  }

  /** The permutation reaches every element. */
  lemma AllStored(closest: seq<nat>, p: seq<nat>, eBuckets: seq<nat>, nd: seq<nat>, ids: seq<seq<nat>>, buckets: seq<seq<nat>>)
    requires IsPermutation(p, |closest|) && |eBuckets| == |closest|
    requires forall k :: 0 <= k < |p| ==> StoredAt(closest, p, eBuckets, nd, ids, buckets, k)
    ensures forall e :: 0 <= e < |closest| ==> OwnersBucket(ids, buckets, nd, closest[e], eBuckets[e])
  {
    hide OwnersBucket;
    forall e | 0 <= e < |closest|
      ensures OwnersBucket(ids, buckets, nd, closest[e], eBuckets[e])
    {
      assert e in p;
      var k :| 0 <= k < |p| && p[k] == e;
      assert StoredAt(closest, p, eBuckets, nd, ids, buckets, k);
    }
  }

  /** Elements, nodes and node buckets of one process. */
  datatype Process = Process(esize: seq<nat>, enodes: seq<nat>, ids: seq<nat>, buckets: seq<nat>)

  ghost predicate ValidProcess(x: Process) {
    && Prefix(x.esize, |x.esize|) == |x.enodes| && (forall e :: 0 <= e < |x.esize| ==> x.esize[e] > 0)
    && Increasing(x.ids) && |x.buckets| == |x.ids|
  }

  /** The owner of the id has the node. */
  ghost predicate IsHeld(all: seq<Process>, nd: seq<nat>, id: nat) {
    |nd| > 0 && id < nd[|nd| - 1] && forall r :: 0 <= r < |all| && r + 1 < |nd| && nd[r] <= id < nd[r + 1] ==> id in all[r].ids
  }

  ghost predicate ValidProcesses(all: seq<Process>, nd: seq<nat>) {
    && |nd| == |all| + 1 && nd[0] == 0 && Sorted(nd)
    && (forall p :: 0 <= p < |all| ==> ValidProcess(all[p]))
    && forall p, n :: 0 <= p < |all| && 0 <= n < |all[p].enodes| ==> IsHeld(all, nd, all[p].enodes[n])
  }

  function IdsOf(all: seq<Process>): (r: seq<seq<nat>>)
    ensures |r| == |all|
  {
    seq(|all|, r requires 0 <= r < |all| => all[r].ids)
  }

  function BucketLists(all: seq<Process>): (r: seq<seq<nat>>)
    ensures |r| == |all|
  {
    seq(|all|, r requires 0 <= r < |all| => all[r].buckets)
  }

  /** The chosen nodes of a process, with the permutation that sorts them. */
  ghost predicate Chosen(all: seq<Process>, nd: seq<nat>, closest: seq<nat>, p: seq<nat>) {
    && IsPermutation(p, |closest|) && (forall i :: 0 <= i < |p| ==> p[i] < |closest|) && OrderedBy(closest, p)
    && |nd| > 0 && forall e :: 0 <= e < |closest| ==> IsHeld(all, nd, closest[e])
  }

  lemma ClosestIsHeld(all: seq<Process>, nd: seq<nat>, me: nat, closest: seq<nat>, e: nat, begin: nat, end: nat)
    requires ValidProcesses(all, nd) && me < |all| && IsClosest(all[me].esize, all[me].enodes, begin, end, closest, e)
    ensures IsHeld(all, nd, closest[e])
  {
    hide IsChosen;
    var x := all[me];
    var from := Prefix(x.esize, e);
    var nodes := x.enodes[from..from + x.esize[e]];
    ChosenIsMember(nodes, begin, end, closest[e]);
    var k :| 0 <= k < |nodes| && nodes[k] == closest[e];
    assert x.enodes[from + k] == closest[e];
  }

  ghost predicate AllClosest(x: Process, begin: nat, end: nat, closest: seq<nat>) {
    forall e :: 0 <= e < |closest| ==> IsClosest(x.esize, x.enodes, begin, end, closest, e)
  }

  /** The chosen node of every element of process `p`. */
  ghost predicate ChosenAll(all: seq<Process>, nd: seq<nat>, closest: seq<nat>, p: nat) {
    p < |all| && p + 1 < |nd| && AllClosest(all[p], nd[p], nd[p + 1], closest)
  }

  /** Chooses and sorts the nodes of one process. */
  method Choose(all: seq<Process>, nd: seq<nat>, me: nat) returns (closest: seq<nat>, p: seq<nat>)
    requires ValidProcesses(all, nd) && me < |all|
    ensures Chosen(all, nd, closest, p) && |closest| == |all[me].esize|
    ensures ChosenAll(all, nd, closest, me)
  {
    assert ValidProcess(all[me]);
    closest := ChooseClosest(all[me].esize, all[me].enodes, nd[me], nd[me + 1]);
    forall e | 0 <= e < |closest|
      ensures IsHeld(all, nd, closest[e])
    {
      ClosestIsHeld(all, nd, me, closest, e, nd[me], nd[me + 1]);
    }
    p := SortedPermutation(closest);
    forall i | 0 <= i < |p|
      ensures p[i] < |closest|
    {
      assert p[i] in p;
    }
  }

  /** What owner `r` is asked by process `me` lies in its range, sorted, and it has all of it. */
  lemma AskedIsHeld(all: seq<Process>, nd: seq<nat>, closest: seq<nat>, p: seq<nat>, r: nat)
    requires ValidProcesses(all, nd) && Chosen(all, nd, closest, p) && r < |all|
    ensures var from := AskedFrom(Asked(closest, p), nd, r);
      Sorted(from) && AllHeld(all[r].ids, from)
  {
    var asked := Asked(closest, p);
    AskedSorted(closest, p);
    var from := AskedFrom(asked, nd, r);
    BoundsInOrder(asked, nd[r], nd[r + 1]);
    forall n | 0 <= n < |from|
      ensures from[n] in all[r].ids
    {
      AskedInRange(asked, nd, r, n);
      assert IsHeld(all, nd, closest[p[LowerBound(asked, nd[r]) + n]]);
    }
  }

  lemma EverythingAsked(all: seq<Process>, nd: seq<nat>, closest: seq<nat>, p: seq<nat>)
    requires ValidProcesses(all, nd) && Chosen(all, nd, closest, p)
    ensures LowerBound(Asked(closest, p), nd[|all|]) == |p|
  {
    var asked := Asked(closest, p);
    forall k | 0 <= k < |asked|
      ensures asked[k] < nd[|all|]
    {
      assert IsHeld(all, nd, closest[p[k]]);
    }
    OneLowerBound(asked, nd[|all|], |asked|, LowerBound(asked, nd[|all|]));
  }

  /** Requests as they are sent: process by process, owner by owner. */
  ghost predicate RequestsOf(all: seq<Process>, nd: seq<nat>, closest: seq<seq<nat>>, ps: seq<seq<nat>>, sent: seq<seq<seq<nat>>>) {
    && |closest| == |ps| == |sent| == |all| && |nd| == |all| + 1 && Sorted(nd) && Square(sent)
    && (forall p :: 0 <= p < |all| ==> Chosen(all, nd, closest[p], ps[p]))
    && forall p :: 0 <= p < |all| ==> sent[p] == AllAsked(Asked(closest[p], ps[p]), nd)
  }

  lemma OwnerCanAnswer(all: seq<Process>, nd: seq<nat>, closest: seq<seq<nat>>, ps: seq<seq<nat>>, sent: seq<seq<seq<nat>>>, me: nat)
    requires ValidProcesses(all, nd) && RequestsOf(all, nd, closest, ps, sent) && me < |all|
    ensures Answerable(sent, me, all[me].ids, all[me].buckets)
  {
    assert ValidProcess(all[me]);
    hide Sorted, Increasing, AllHeld, Chosen, AskedFrom;
    forall r | 0 <= r < |sent|
      ensures Sorted(sent[r][me]) && AllHeld(all[me].ids, sent[r][me])
    {
      AskedIsHeld(all, nd, closest[r], ps[r], me);
    }
  }

  /** What an owner replies to process `p` is what it asked for. */
  lemma ReplyIsForRequest(all: seq<Process>, nd: seq<nat>, closest: seq<seq<nat>>, ps: seq<seq<nat>>, sent: seq<seq<seq<nat>>>,
      replies: seq<seq<seq<nat>>>, p: nat)
    requires ValidProcesses(all, nd) && RequestsOf(all, nd, closest, ps, sent) && p < |all| && |replies| == |all| && Square(replies)
    requires forall r :: 0 <= r < |all| ==> Answerable(sent, r, all[r].ids, all[r].buckets)
    requires forall r :: 0 <= r < |all| ==> replies[r] == Replies(sent, r, all[r].ids, all[r].buckets)
    ensures RepliesFor(replies, Asked(closest[p], ps[p]), nd, IdsOf(all), BucketLists(all), p)
  {
    hide IsPermutation, OrderedBy, IsHeld, AskedFrom, BucketsOf, Sorted;
    assert Chosen(all, nd, closest[p], ps[p]);
    forall r | 0 <= r < |all|
      ensures ReplyOf(replies, Asked(closest[p], ps[p]), nd, IdsOf(all), BucketLists(all), p, r)
    {
      AskedIsHeld(all, nd, closest[p], ps[p], r);
      assert sent[p] == AllAsked(Asked(closest[p], ps[p]), nd);
      assert replies[r][p] == BucketsOf(all[r].ids, all[r].buckets, sent[p][r]);
    }
  }

  method RequestAll(all: seq<Process>, nd: seq<nat>)
    returns (closest: seq<seq<nat>>, ps: seq<seq<nat>>, buffers: seq<seq<nat>>, ghost sent: seq<seq<seq<nat>>>)
    requires ValidProcesses(all, nd)
    ensures RequestsOf(all, nd, closest, ps, sent) && |buffers| == |all|
    ensures forall p :: 0 <= p < |all| ==> buffers[p] == Outgoing(sent[p], p, |sent[p]|)
    ensures forall p :: 0 <= p < |all| ==> |closest[p]| == |all[p].esize|
    ensures forall p :: 0 <= p < |all| ==> ChosenAll(all, nd, closest[p], p)
  {
    hide ChosenAll, RequestBuilt, IsPermutation, OrderedBy, IsHeld;
    closest, ps, buffers, sent := [], [], [], [];
    for p := 0 to |all|
      invariant |closest| == |ps| == |buffers| == |sent| == p
      invariant forall q :: 0 <= q < p ==> RequestBuilt(all, nd, closest[q], ps[q], sent[q], buffers[q], q)
    {
      var c, o := Choose(all, nd, p);
      ChosenFacts(all, nd, c, o);
      var buffer := WriteRequests(c, o, nd, p);
      RequestIsBuilt(all, nd, c, o, buffer, p);
      closest, ps, buffers, sent := closest + [c], ps + [o], buffers + [buffer], sent + [AllAsked(Asked(c, o), nd)];
    }
    AllBuilt(all, nd, closest, ps, sent, buffers);
  }

  /** The request of one process. */
  ghost predicate RequestBuilt(all: seq<Process>, nd: seq<nat>, closest: seq<nat>, p: seq<nat>, sent: seq<seq<nat>>, buffer: seq<nat>, me: nat) {
    && me < |all| && Sorted(nd) && |nd| == |all| + 1 && Chosen(all, nd, closest, p) && ChosenAll(all, nd, closest, me)
    && |closest| == |all[me].esize| && sent == AllAsked(Asked(closest, p), nd) && buffer == Outgoing(sent, me, |sent|)
  }

  lemma RequestIsBuilt(all: seq<Process>, nd: seq<nat>, closest: seq<nat>, p: seq<nat>, buffer: seq<nat>, me: nat)
    requires me < |all| && Sorted(nd) && |nd| == |all| + 1 && Chosen(all, nd, closest, p) && ChosenAll(all, nd, closest, me)
    requires |closest| == |all[me].esize| && buffer == Outgoing(AllAsked(Asked(closest, p), nd), me, |nd| - 1)
    ensures RequestBuilt(all, nd, closest, p, AllAsked(Asked(closest, p), nd), buffer, me)
  {
    hide Outgoing, Chosen, ChosenAll, Sorted, Asked;
  }

  lemma AllBuilt(all: seq<Process>, nd: seq<nat>, closest: seq<seq<nat>>, ps: seq<seq<nat>>, sent: seq<seq<seq<nat>>>, buffers: seq<seq<nat>>)
    requires |closest| == |ps| == |buffers| == |sent| == |all| && Sorted(nd) && |nd| == |all| + 1
    requires forall q :: 0 <= q < |all| ==> RequestBuilt(all, nd, closest[q], ps[q], sent[q], buffers[q], q)
    ensures RequestsOf(all, nd, closest, ps, sent)
    ensures forall p :: 0 <= p < |all| ==> buffers[p] == Outgoing(sent[p], p, |sent[p]|)
    ensures forall p :: 0 <= p < |all| ==> |closest[p]| == |all[p].esize|
    ensures forall p :: 0 <= p < |all| ==> ChosenAll(all, nd, closest[p], p)
  {
    hide ChosenAll, IsPermutation, OrderedBy, IsHeld, AllAsked, Outgoing;
    forall q | 0 <= q < |all|
      ensures Chosen(all, nd, closest[q], ps[q]) && sent[q] == AllAsked(Asked(closest[q], ps[q]), nd) && |sent[q]| == |all|
      ensures buffers[q] == Outgoing(sent[q], q, |sent[q]|) && |closest[q]| == |all[q].esize| && ChosenAll(all, nd, closest[q], q)
    {
      assert RequestBuilt(all, nd, closest[q], ps[q], sent[q], buffers[q], q);
    }
  }

  lemma ChosenFacts(all: seq<Process>, nd: seq<nat>, closest: seq<nat>, p: seq<nat>)
    requires Chosen(all, nd, closest, p)
    ensures IsPermutation(p, |closest|) && (forall i :: 0 <= i < |p| ==> p[i] < |closest|) && OrderedBy(closest, p)
  {
  }

  /** The owners answer all requests. */
  method AnswerAll(all: seq<Process>, nd: seq<nat>, received: seq<seq<nat>>, ghost orders: seq<seq<nat>>, ghost sent: seq<seq<seq<nat>>>,
      ghost closest: seq<seq<nat>>, ghost ps: seq<seq<nat>>)
    returns (answers: seq<seq<nat>>, ghost replies: seq<seq<seq<nat>>>)
    requires ValidProcesses(all, nd) && RequestsOf(all, nd, closest, ps, sent) && |received| == |orders| == |sent|
    requires forall me :: 0 <= me < |sent| ==> Arrives(sent, me, orders[me], received[me])
    ensures |answers| == |replies| == |all| && Square(replies)
    ensures forall r :: 0 <= r < |all| ==> Answerable(sent, r, all[r].ids, all[r].buckets)
    ensures forall r :: 0 <= r < |all| ==> replies[r] == Replies(sent, r, all[r].ids, all[r].buckets)
    ensures forall r :: 0 <= r < |all| ==> answers[r] == Outgoing(replies[r], r, |replies[r]|)
  {
    hide Answerable, Arrives, Replies, Outgoing, Chosen, AllAsked, ValidProcesses;
    answers, replies := [], [];
    for me := 0 to |all|
      invariant |answers| == |replies| == me
      invariant forall r :: 0 <= r < me ==> Answerable(sent, r, all[r].ids, all[r].buckets)
      invariant forall r :: 0 <= r < me ==> replies[r] == Replies(sent, r, all[r].ids, all[r].buckets) && |replies[r]| == |all|
      invariant forall r :: 0 <= r < me ==> answers[r] == Outgoing(replies[r], r, |replies[r]|)
    {
      OwnerCanAnswer(all, nd, closest, ps, sent, me);
      var answer := WriteReplies(received[me], |all|, me, all[me].ids, all[me].buckets, sent, orders[me]);
      answers, replies := answers + [answer], replies + [Replies(sent, me, all[me].ids, all[me].buckets)];
    }
  }

  /** The answers are stored by all processes. */
  method StoreAll(all: seq<Process>, nd: seq<nat>, returned: seq<seq<nat>>, ghost reorders: seq<seq<nat>>, ghost sent: seq<seq<seq<nat>>>,
      ghost replies: seq<seq<seq<nat>>>, closest: seq<seq<nat>>, ps: seq<seq<nat>>)
    returns (eBuckets: seq<seq<nat>>)
    requires ValidProcesses(all, nd) && RequestsOf(all, nd, closest, ps, sent) && |replies| == |all| && Square(replies)
    requires forall r :: 0 <= r < |all| ==> Answerable(sent, r, all[r].ids, all[r].buckets)
    requires forall r :: 0 <= r < |all| ==> replies[r] == Replies(sent, r, all[r].ids, all[r].buckets)
    requires |returned| == |reorders| == |replies| && forall me :: 0 <= me < |replies| ==> Arrives(replies, me, reorders[me], returned[me])
    ensures |eBuckets| == |all|
    ensures forall p :: 0 <= p < |all| ==> |eBuckets[p]| == |closest[p]|
    ensures forall p, e :: 0 <= p < |all| && 0 <= e < |closest[p]| ==>
      OwnersBucket(IdsOf(all), BucketLists(all), nd, closest[p][e], eBuckets[p][e])
  {
    hide Answerable, Arrives, Replies, Chosen, AllAsked, OwnersBucket, RepliesFor, IdsOf, BucketLists;
    eBuckets := [];
    for p := 0 to |all|
      invariant |eBuckets| == p && forall q :: 0 <= q < p ==> |eBuckets[q]| == |closest[q]|
      invariant forall q, e :: 0 <= q < p && 0 <= e < |closest[q]| ==>
        OwnersBucket(IdsOf(all), BucketLists(all), nd, closest[q][e], eBuckets[q][e])
    {
      assert Chosen(all, nd, closest[p], ps[p]);
      ChosenFacts(all, nd, closest[p], ps[p]);
      EverythingAsked(all, nd, closest[p], ps[p]);
      ReplyIsForRequest(all, nd, closest, ps, sent, replies, p);
      var buckets := StoreBuckets(returned[p], |all|, closest[p], ps[p], replies, reorders[p], nd, IdsOf(all), BucketLists(all), p);
      eBuckets := eBuckets + [buckets];
    }
  }

  /** `assignEBuckets` on all processes: every element gets the bucket its chosen node has on the owner of that node. */
  method AssignBucketsOfAll(all: seq<Process>, nd: seq<nat>) returns (eBuckets: seq<seq<nat>>, closest: seq<seq<nat>>)
    requires ValidProcesses(all, nd)
    ensures |eBuckets| == |closest| == |all|
    ensures forall p :: 0 <= p < |all| ==> |eBuckets[p]| == |closest[p]| == |all[p].esize|
    ensures forall p :: 0 <= p < |all| ==> ChosenAll(all, nd, closest[p], p)
    ensures forall p, e :: 0 <= p < |all| && 0 <= e < |closest[p]| ==>
      HasBucket(all, nd, closest[p][e], eBuckets[p][e])
  {
    hide ValidProcesses, Chosen, ChosenAll, OwnersBucket, HasBucket, Arrives, Answerable, AllAsked, Replies, Outgoing, Sorted;
    var ps: seq<seq<nat>>, buffers: seq<seq<nat>>;
    ghost var sent: seq<seq<seq<nat>>>;
    closest, ps, buffers, sent := RequestAll(all, nd);
    var received;
    ghost var orders;
    received, orders := AllToAll(buffers, sent);
    ghost var replies: seq<seq<seq<nat>>>;
    var answers;
    answers, replies := AnswerAll(all, nd, received, orders, sent, closest, ps);
    var returned;
    ghost var reorders;
    returned, reorders := AllToAll(answers, replies);
    eBuckets := StoreAll(all, nd, returned, reorders, sent, replies, closest, ps);
    forall p, e | 0 <= p < |all| && 0 <= e < |closest[p]|
      ensures HasBucket(all, nd, closest[p][e], eBuckets[p][e])
    {
      BucketOfOwner(all, nd, closest[p][e], eBuckets[p][e]);
    }
  }

  /** The process whose range contains the node lists it, and has this bucket at the same place. */
  ghost predicate HasBucket(all: seq<Process>, nd: seq<nat>, id: nat, bucket: nat) {
    exists r, k :: 0 <= r < |all| && r + 1 < |nd| && nd[r] <= id < nd[r + 1] && BucketAt(all[r], k, id, bucket)
  }

  ghost predicate BucketAt(x: Process, k: int, id: nat, bucket: nat) {
    0 <= k < |x.ids| && k < |x.buckets| && x.ids[k] == id && x.buckets[k] == bucket
  }

  lemma BucketOfOwner(all: seq<Process>, nd: seq<nat>, id: nat, bucket: nat)
    requires OwnersBucket(IdsOf(all), BucketLists(all), nd, id, bucket)
    ensures HasBucket(all, nd, id, bucket)
  {
    var r: nat :| r < |all| && BucketAtOwner(IdsOf(all), BucketLists(all), nd, id, bucket, r);
    assert BucketAt(all[r], IndexOf(all[r].ids, id), id, bucket);
  }

  /** There is only one such bucket. */
  lemma OneBucket(all: seq<Process>, nd: seq<nat>, id: nat, a: nat, b: nat)
    requires Sorted(nd) && (forall p :: 0 <= p < |all| ==> Increasing(all[p].ids))
    requires HasBucket(all, nd, id, a) && HasBucket(all, nd, id, b)
    ensures a == b
  {
    hide Sorted, Increasing, BucketAt;
    var r, k :| 0 <= r < |all| && r + 1 < |nd| && nd[r] <= id < nd[r + 1] && BucketAt(all[r], k, id, a);
    var s, l :| 0 <= s < |all| && s + 1 < |nd| && nd[s] <= id < nd[s + 1] && BucketAt(all[s], l, id, b);
    OneOwner(nd, id, r, s);
    OneBucketOf(all[r], id, k, a, l, b);
  }

  lemma OneOwner(nd: seq<nat>, id: nat, r: nat, s: nat)
    requires Sorted(nd) && r + 1 < |nd| && s + 1 < |nd| && nd[r] <= id < nd[r + 1] && nd[s] <= id < nd[s + 1]
    ensures r == s
  {
  }

  lemma OneBucketOf(x: Process, id: nat, k: int, a: nat, l: int, b: nat)
    requires Increasing(x.ids) && BucketAt(x, k, id, a) && BucketAt(x, l, id, b)
    ensures a == b
  {
  }
}
