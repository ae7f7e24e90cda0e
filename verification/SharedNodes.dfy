/** `fillCoordinates` run by all processes: requests, answers, and the node lists every process ends with. */
module SharedNodes {
  import opened Basis
  import opened FillCoordinates
  import MergeTree

  /** What a process knows of its nodes. */
  datatype Nodes<C> = Nodes(ids: seq<nat>, coordinates: seq<C>, boundaries: seq<nat>, ranks: seq<nat>)

  /** The coordinates every process holds of its range of node ids. */
  ghost predicate ValidCoordinates<C>(used: seq<seq<nat>>, nd: seq<nat>, coordinates: seq<seq<C>>)
    requires ValidInput(used, nd)
  {
    |coordinates| == |used| && forall t :: 0 <= t < |used| ==> |coordinates[t]| == nd[t + 1] - nd[t]
  }

  ghost predicate CoordinateOf<C>(nd: seq<nat>, coordinates: seq<seq<C>>, id: nat, c: C) {
    exists t :: 0 <= t < |coordinates| && OwnedBy(nd, coordinates, id, c, t)
  }

  ghost predicate OwnedBy<C>(nd: seq<nat>, coordinates: seq<seq<C>>, id: nat, c: C, t: nat) {
    && t < |coordinates| && t + 1 < |nd| && nd[t] <= id < nd[t + 1] && id - nd[t] < |coordinates[t]|
    && c == coordinates[t][id - nd[t]]
  }

  ghost predicate CoordinatesOf<C>(nd: seq<nat>, coordinates: seq<seq<C>>, ids: seq<nat>, cs: seq<C>) {
    |cs| == |ids| && forall k :: 0 <= k < |ids| ==> CoordinateOf(nd, coordinates, ids[k], cs[k])
  }

  /** A process knows each of its nodes, with its coordinates and with all processes that use it. */
  ghost predicate Known<C>(used: seq<seq<nat>>, nd: seq<nat>, coordinates: seq<seq<C>>, p: nat, nodes: Nodes<C>)
    requires p < |used|
  {
    && nodes.ids == used[p]
    && CoordinatesOf(nd, coordinates, used[p], nodes.coordinates)
    && nodes.ranks == RankData(used, used[p])
    && (used[p] != [] ==> RankBoundaries(used, used[p], nodes.boundaries))
  }

  /** The requests of all processes. */
  ghost predicate AllRequested(used: seq<seq<nat>>, nd: seq<nat>, targets: seq<seq<nat>>, buffers: seq<seq<seq<nat>>>)
    requires ValidInput(used, nd)
  {
    && |targets| == |buffers| == |used|
    && forall p :: 0 <= p < |used| ==> Increasing(used[p]) && Requested(used[p], nd, targets[p], buffers[p], |nd| - 1)
  }

  method RequestAll(used: seq<seq<nat>>, nd: seq<nat>) returns (targets: seq<seq<nat>>, buffers: seq<seq<seq<nat>>>)
    requires ValidInput(used, nd)
    ensures AllRequested(used, nd, targets, buffers)
  {
    hide Requested;
    targets, buffers := [], [];
    for p := 0 to |used|
      invariant |targets| == |buffers| == p
      invariant forall q :: 0 <= q < p ==> Requested(used[q], nd, targets[q], buffers[q], |nd| - 1)
    {
      var t, b := Requests(used[p], nd);
      targets, buffers := targets + [t], buffers + [b];
    }
  }

  lemma SizesMatch(used: seq<seq<nat>>, nd: seq<nat>, targets: seq<seq<nat>>, buffers: seq<seq<seq<nat>>>)
    requires ValidInput(used, nd) && AllRequested(used, nd, targets, buffers)
    ensures |targets| == |buffers| && forall p :: 0 <= p < |targets| ==> |buffers[p]| == |targets[p]| && Distinct(targets[p])
  {
    forall p | 0 <= p < |targets|
      ensures |buffers[p]| == |targets[p]| && Distinct(targets[p])
    {
      assert Requested(used[p], nd, targets[p], buffers[p], |nd| - 1);
    }
  }

  /** What process `p` sent to `me` is its part of the nodes of `me`. */
  lemma SentPart(used: seq<seq<nat>>, nd: seq<nat>, targets: seq<seq<nat>>, buffers: seq<seq<seq<nat>>>, buffer: seq<nat>, p: nat, me: nat)
    requires ValidInput(used, nd) && AllRequested(used, nd, targets, buffers) && SentBy(buffers, targets, buffer, p, me)
    ensures me < |used| && buffer == PartOf(used[p], nd, me)
  {
    assert Requested(used[p], nd, targets[p], buffers[p], |nd| - 1);
    var i := IndexOf(targets[p], me);
    assert targets[p][i] == me && buffers[p][i] == PartOf(used[p], nd, targets[p][i]);
  }

  lemma PartsReceived(used: seq<seq<nat>>, nd: seq<nat>, targets: seq<seq<nat>>, buffers: seq<seq<seq<nat>>>,
      received: seq<seq<seq<nat>>>, sources: seq<seq<nat>>, me: nat)
    requires ValidInput(used, nd) && AllRequested(used, nd, targets, buffers) && Delivered(buffers, targets, received, sources)
    requires me < |used|
    ensures |received| == |sources| == |used| && ReceivedParts(used, nd, me, received[me], sources[me])
  {
    hide PartOf, SentBy;
    assert DeliveredTo(buffers, targets, received, sources, me);
    forall i | 0 <= i < |sources[me]|
      ensures sources[me][i] < |used| && received[me][i] == PartOf(used[sources[me][i]], nd, me)
    {
      assert sources[me][i] in sources[me];
      assert SentBy(buffers, targets, received[me][i], sources[me][i], me);
      SentPart(used, nd, targets, buffers, received[me][i], sources[me][i], me);
    }
    forall p | 0 <= p < |used|
      ensures PartOf(used[p], nd, me) == [] || p in sources[me]
    {
      assert Requested(used[p], nd, targets[p], buffers[p], |nd| - 1);
    }
  }

  /** The nodes of a part lie in the range of its owner. */
  lemma PartInRange(used: seq<seq<nat>>, nd: seq<nat>, me: nat, lists: seq<seq<nat>>, sources: seq<nat>)
    requires ValidInput(used, nd) && me < |used| && ReceivedParts(used, nd, me, lists, sources)
    ensures AllIncreasing(lists) && nd[me] <= nd[me + 1]
    ensures forall i :: 0 <= i < |lists| ==> InRange(lists[i], nd[me], nd[me + 1])
  {
    forall i | 0 <= i < |lists|
      ensures Increasing(lists[i]) && InRange(lists[i], nd[me], nd[me + 1])
    {
      forall k | 0 <= k < |lists[i]|
        ensures nd[me] <= lists[i][k] < nd[me + 1]
      {
        assert lists[i][k] in PartOf(used[sources[i]], nd, me);
        PartMembers(used[sources[i]], nd[me], nd[me + 1], lists[i][k]);
      }
    }
  }

  /** The answers of all owners: rank lists and coordinates for each list received. */
  ghost predicate AllReplied<C>(used: seq<seq<nat>>, nd: seq<nat>, coordinates: seq<seq<C>>, received: seq<seq<seq<nat>>>,
      answers: seq<seq<seq<nat>>>, replies: seq<seq<seq<C>>>, upto: nat) {
    && |answers| == |replies| == upto <= |received|
    && forall me :: 0 <= me < upto ==> Replied(used, nd, coordinates, received[me], answers[me], replies[me], me)
  }

  ghost predicate Replied<C>(used: seq<seq<nat>>, nd: seq<nat>, coordinates: seq<seq<C>>, lists: seq<seq<nat>>,
      answers: seq<seq<nat>>, replies: seq<seq<C>>, me: nat) {
    && |answers| == |replies| == |lists|
    && (forall i :: 0 <= i < |lists| ==> answers[i] == Packed(used, lists[i]))
    && forall i :: 0 <= i < |lists| ==> CoordinatesOf(nd, coordinates, lists[i], replies[i])
  }

  /** Looks up the coordinates an owner holds. */
  method BackedCoordinates<C>(lists: seq<seq<nat>>, begin: nat, own: seq<C>) returns (replies: seq<seq<C>>)
    requires forall i :: 0 <= i < |lists| ==> InRange(lists[i], begin, begin + |own|)
    ensures |replies| == |lists|
    ensures forall i :: 0 <= i < |lists| ==> |replies[i]| == |lists[i]|
    ensures forall i, k :: 0 <= i < |lists| && 0 <= k < |lists[i]| ==> begin <= lists[i][k] < begin + |own| && replies[i][k] == own[lists[i][k] - begin]
  {
    replies := [];
    for r := 0 to |lists|
      invariant |replies| == r && forall i :: 0 <= i < r ==> |replies[i]| == |lists[i]|
      invariant forall i, k :: 0 <= i < r && 0 <= k < |lists[i]| ==> replies[i][k] == own[lists[i][k] - begin]
    {
      var reply: seq<C> := [];
      for n := 0 to |lists[r]|
        invariant |reply| == n && forall k :: 0 <= k < n ==> reply[k] == own[lists[r][k] - begin]
      {
        reply := reply + [own[lists[r][n] - begin]];
      }
      replies := replies + [reply];
    }
  }

  lemma OwnCoordinates<C>(nd: seq<nat>, coordinates: seq<seq<C>>, me: nat, list: seq<nat>, reply: seq<C>)
    requires me < |coordinates| && me + 1 < |nd| && nd[me] <= nd[me + 1] && |coordinates[me]| == nd[me + 1] - nd[me]
    requires InRange(list, nd[me], nd[me + 1]) && |reply| == |list|
    requires forall k :: 0 <= k < |list| ==> reply[k] == coordinates[me][list[k] - nd[me]]
    ensures CoordinatesOf(nd, coordinates, list, reply)
  {
    forall k | 0 <= k < |list|
      ensures CoordinateOf(nd, coordinates, list[k], reply[k])
    {
      assert OwnedBy(nd, coordinates, list[k], reply[k], me);
    }
  }

  method Reply<C>(used: seq<seq<nat>>, nd: seq<nat>, coordinates: seq<seq<C>>, lists: seq<seq<nat>>, sources: seq<nat>, threads: nat, me: nat)
    returns (answers: seq<seq<nat>>, replies: seq<seq<C>>)
    requires ValidInput(used, nd) && ValidCoordinates(used, nd, coordinates) && me < |used| && threads > 0
    requires ReceivedParts(used, nd, me, lists, sources)
    ensures Replied(used, nd, coordinates, lists, answers, replies, me)
  {
    hide ReceivedParts, Packed, CoordinatesOf;
    PartInRange(used, nd, me, lists, sources);
    ListsAndSources(used, nd, me, lists, sources);
    answers := BackedData(lists, sources, nd[me], nd[me + 1] - nd[me], threads);
    replies := BackedCoordinates(lists, nd[me], coordinates[me]);
    forall i | 0 <= i < |lists|
      ensures answers[i] == Packed(used, lists[i]) && CoordinatesOf(nd, coordinates, lists[i], replies[i])
    {
      AnswerIsFull(used, nd, me, lists, sources, lists[i]);
      OwnCoordinates(nd, coordinates, me, lists[i], replies[i]);
    }
  }

  lemma ListsAndSources(used: seq<seq<nat>>, nd: seq<nat>, me: nat, lists: seq<seq<nat>>, sources: seq<nat>)
    requires ValidInput(used, nd) && me < |used| && ReceivedParts(used, nd, me, lists, sources)
    ensures |lists| == |sources|
  {
  }

  method ReplyAll<C>(used: seq<seq<nat>>, nd: seq<nat>, coordinates: seq<seq<C>>, received: seq<seq<seq<nat>>>, sources: seq<seq<nat>>,
      threads: nat)
    returns (answers: seq<seq<seq<nat>>>, replies: seq<seq<seq<C>>>)
    requires ValidInput(used, nd) && ValidCoordinates(used, nd, coordinates) && threads > 0 && |received| == |sources| == |used|
    requires forall me :: 0 <= me < |used| ==> ReceivedParts(used, nd, me, received[me], sources[me])
    ensures AllReplied(used, nd, coordinates, received, answers, replies, |used|)
  {
    hide ReceivedParts, Replied, ValidCoordinates, ValidInput;
    answers, replies := [], [];
    for me := 0 to |used|
      invariant AllReplied(used, nd, coordinates, received, answers, replies, me)
    {
      var a, c := Reply(used, nd, coordinates, received[me], sources[me], threads, me);
      answers, replies := answers + [a], replies + [c];
    }
  }

  /** What a process gets back for its requests. */
  ghost predicate Returned<C>(used: seq<seq<nat>>, nd: seq<nat>, coordinates: seq<seq<C>>, buffers: seq<seq<nat>>,
      nodeRanks: seq<seq<nat>>, returned: seq<seq<C>>) {
    && |nodeRanks| == |returned| == |buffers|
    && (forall i :: 0 <= i < |buffers| ==> nodeRanks[i] == Packed(used, buffers[i]))
    && forall i :: 0 <= i < |buffers| ==> CoordinatesOf(nd, coordinates, buffers[i], returned[i])
  }

  /** Answers come back in the order of the requests. */
  lemma OwnersAreTargets<T, U>(buffers: seq<seq<seq<T>>>, targets: seq<seq<nat>>, received: seq<seq<seq<T>>>, sources: seq<seq<nat>>,
      answers: seq<seq<seq<U>>>, returned: seq<seq<seq<U>>>, owners: seq<seq<nat>>, p: nat)
    requires Delivered(buffers, targets, received, sources) && Delivered(answers, sources, returned, owners)
    requires p < |targets| && Increasing(targets[p]) && forall t :: t in targets[p] ==> t < |targets|
    ensures |owners| == |targets| && owners[p] == targets[p]
  {
    assert DeliveredTo(answers, sources, returned, owners, p);
    forall t: nat
      ensures t in owners[p] <==> t in targets[p]
    {
      if t < |targets| {
        assert DeliveredTo(buffers, targets, received, sources, t);
      }
    }
    SameIncreasing(owners[p], targets[p]);
  }

  /** The answer process `p` gets from `t` belongs to the list it sent there. */
  lemma AnswerForRequest<U>(buffers: seq<seq<seq<nat>>>, targets: seq<seq<nat>>, received: seq<seq<seq<nat>>>, sources: seq<seq<nat>>,
      answers: seq<seq<seq<U>>>, returned: seq<seq<seq<U>>>, owners: seq<seq<nat>>, p: nat, i: nat)
    requires Delivered(buffers, targets, received, sources) && Delivered(answers, sources, returned, owners)
    requires p < |targets| && Increasing(targets[p]) && (forall t :: t in targets[p] ==> t < |targets|) && i < |targets[p]|
    requires |buffers[p]| == |targets[p]|
    ensures |owners| == |targets| && owners[p] == targets[p] && |returned| == |owners| && |returned[p]| == |owners[p]|
    ensures var t := targets[p][i];
      && t < |received| && |received[t]| == |sources[t]| && p in sources[t] && |answers[t]| == |sources[t]|
      && received[t][IndexOf(sources[t], p)] == buffers[p][i] && returned[p][i] == answers[t][IndexOf(sources[t], p)]
  {
    hide Increasing;
    OwnersAreTargets(buffers, targets, received, sources, answers, returned, owners, p);
    assert DeliveredTo(answers, sources, returned, owners, p);
    assert SentBy(answers, sources, returned[p][i], owners[p][i], p);
    var t := targets[p][i];
    assert DeliveredTo(buffers, targets, received, sources, t);
    var j := IndexOf(sources[t], p);
    assert SentBy(buffers, targets, received[t][j], sources[t][j], t);
    IndexIsUnique(targets[p], i);
  }

  lemma IndexIsUnique(s: seq<nat>, i: nat)
    requires Increasing(s) && i < |s|
    ensures IndexOf(s, s[i]) == i
  {
    assert s[i] in s;
  }

  /** One exchange in both directions. */
  ghost predicate Exchanged<C>(used: seq<seq<nat>>, nd: seq<nat>, coordinates: seq<seq<C>>, targets: seq<seq<nat>>,
      buffers: seq<seq<seq<nat>>>, received: seq<seq<seq<nat>>>, sources: seq<seq<nat>>,
      answers: seq<seq<seq<nat>>>, replies: seq<seq<seq<C>>>)
    requires ValidInput(used, nd)
  {
    && AllRequested(used, nd, targets, buffers) && Delivered(buffers, targets, received, sources)
    && AllReplied(used, nd, coordinates, received, answers, replies, |used|)
  }

  lemma RequestFacts(used: seq<seq<nat>>, nd: seq<nat>, targets: seq<seq<nat>>, buffers: seq<seq<seq<nat>>>, p: nat)
    requires ValidInput(used, nd) && AllRequested(used, nd, targets, buffers) && p < |used|
    ensures |targets| == |buffers| == |used| && |buffers[p]| == |targets[p]| && Increasing(targets[p])
    ensures forall t :: t in targets[p] ==> t < |used|
    ensures Flatten(buffers[p]) == used[p] && (buffers[p] == [] <==> used[p] == [])
  {
    assert Requested(used[p], nd, targets[p], buffers[p], |nd| - 1);
    AllBelow(used[p], nd[|nd| - 1]);
    assert used[p][..|used[p]|] == used[p];
    assert buffers[p] == [] ==> Flatten(buffers[p]) == [];
    if buffers[p] != [] {
      assert buffers[p][|buffers[p]| - 1] != [];
    }
  }

  lemma AllBelow(s: seq<nat>, size: nat)
    requires Dense(s, size)
    ensures LowerBound(s, size) == |s|
  {
    OneLowerBound(s, size, LowerBound(s, size), |s|);
  }

  lemma EverythingReturned<C>(used: seq<seq<nat>>, nd: seq<nat>, coordinates: seq<seq<C>>, targets: seq<seq<nat>>,
      buffers: seq<seq<seq<nat>>>, received: seq<seq<seq<nat>>>, sources: seq<seq<nat>>, answers: seq<seq<seq<nat>>>,
      replies: seq<seq<seq<C>>>, nodeRanks: seq<seq<seq<nat>>>, returned: seq<seq<seq<C>>>, owners: seq<seq<nat>>, others: seq<seq<nat>>,
      p: nat)
    requires ValidInput(used, nd) && Exchanged(used, nd, coordinates, targets, buffers, received, sources, answers, replies)
    requires Delivered(answers, sources, nodeRanks, owners) && Delivered(replies, sources, returned, others) && p < |used|
    ensures |nodeRanks| == |returned| == |buffers| == |used|
    ensures Returned(used, nd, coordinates, buffers[p], nodeRanks[p], returned[p])
  {
    hide Delivered, Packed, CoordinatesOf, AllRequested, Increasing, ValidInput;
    RequestFacts(used, nd, targets, buffers, p);
    SourcesCount(buffers, targets, received, sources);
    OwnersAreTargets(buffers, targets, received, sources, answers, nodeRanks, owners, p);
    OwnersAreTargets(buffers, targets, received, sources, replies, returned, others, p);
    SourcesCount(answers, sources, nodeRanks, owners);
    SourcesCount(replies, sources, returned, others);
    forall i | 0 <= i < |buffers[p]|
      ensures nodeRanks[p][i] == Packed(used, buffers[p][i]) && CoordinatesOf(nd, coordinates, buffers[p][i], returned[p][i])
    {
      AnswerForRequest(buffers, targets, received, sources, answers, nodeRanks, owners, p, i);
      AnswerForRequest(buffers, targets, received, sources, replies, returned, others, p, i);
      var t := targets[p][i];
      assert Replied(used, nd, coordinates, received[t], answers[t], replies[t], t);
    }
  }

  lemma SourcesCount<T>(sent: seq<seq<seq<T>>>, targets: seq<seq<nat>>, received: seq<seq<seq<T>>>, sources: seq<seq<nat>>)
    requires Delivered(sent, targets, received, sources)
    ensures |received| == |sources| == |targets| == |sent|
    ensures forall me :: 0 <= me < |sent| ==> |received[me]| == |sources[me]| && Distinct(sources[me])
  {
    forall me | 0 <= me < |sent|
      ensures |received[me]| == |sources[me]| && Distinct(sources[me])
    {
      assert DeliveredTo(sent, targets, received, sources, me);
    }
  }

  /** Unpacks what came back, and puts it behind each other. */
  method Collect<C>(used: seq<seq<nat>>, nd: seq<nat>, ghost coordinates: seq<seq<C>>, buffers: seq<seq<nat>>, nodeRanks: seq<seq<nat>>,
      returned: seq<seq<C>>, ghost p: nat)
    returns (nodes: Nodes<C>)
    requires Returned(used, nd, coordinates, buffers, nodeRanks, returned) && p < |used| && Flatten(buffers) == used[p]
    requires buffers == [] <==> used[p] == []
    ensures Known(used, nd, coordinates, p, nodes)
  {
    hide RankData, RankEnds, Packed, CoordinatesOf;
    var ends: seq<seq<nat>>, data: seq<seq<nat>>, ids: seq<nat>, cs: seq<C> := [], [], [], [];
    assert buffers[..0] == [];
    NothingKnown(nd, coordinates);
    for r := 0 to |buffers|
      invariant |ends| == |data| == r && ids == Flatten(buffers[..r]) && CoordinatesOf(nd, coordinates, ids, cs)
      invariant forall t :: 0 <= t < r ==> RankEnds(used, buffers[t], 0, ends[t]) && data[t] == RankData(used, buffers[t])
    {
      var e, d := Unpack(nodeRanks[r], used, buffers[r]);
      ends, data := ends + [e], data + [d];
      CoordinatesJoin(nd, coordinates, ids, cs, buffers[r], returned[r]);
      assert buffers[..r + 1][..r] == buffers[..r] && buffers[..r + 1] != [];
      ids, cs := ids + buffers[r], cs + returned[r];
    }
    assert buffers[..|buffers|] == buffers;
    var boundaries, ranks := JoinRanks(ends, data, used, buffers);
    nodes := Nodes(ids, cs, boundaries, ranks);
  }

  lemma NothingKnown<C>(nd: seq<nat>, coordinates: seq<seq<C>>)
    ensures CoordinatesOf(nd, coordinates, [], [])
  {
  }

  lemma CoordinatesJoin<C>(nd: seq<nat>, coordinates: seq<seq<C>>, a: seq<nat>, x: seq<C>, b: seq<nat>, y: seq<C>)
    requires CoordinatesOf(nd, coordinates, a, x) && CoordinatesOf(nd, coordinates, b, y)
    ensures CoordinatesOf(nd, coordinates, a + b, x + y)
  {
  }

  /** `fillCoordinates` on all processes. */
  method FillCoordinatesOfAll<C>(used: seq<seq<nat>>, nd: seq<nat>, coordinates: seq<seq<C>>, threads: nat) returns (nodes: seq<Nodes<C>>)
    requires ValidInput(used, nd) && ValidCoordinates(used, nd, coordinates) && threads > 0
    ensures |nodes| == |used| && forall p :: 0 <= p < |used| ==> Known(used, nd, coordinates, p, nodes[p])
  {
    hide Delivered, AllRequested, AllReplied, ReceivedParts, Returned, ValidInput, ValidCoordinates, Known;
    var targets, buffers := RequestAll(used, nd);
    SizesMatch(used, nd, targets, buffers);
    var received, sources := SendVariousTargets(buffers, targets);
    RequestCount(used, nd, targets, buffers);
    SourcesCount(buffers, targets, received, sources);
    forall me | 0 <= me < |used|
      ensures ReceivedParts(used, nd, me, received[me], sources[me])
    {
      PartsReceived(used, nd, targets, buffers, received, sources, me);
    }
    var answers, replies := ReplyAll(used, nd, coordinates, received, sources, threads);
    AnswersMatch(used, nd, coordinates, received, answers, replies);
    var nodeRanks, owners := SendVariousTargets(answers, sources);
    var returned, others := SendVariousTargets(replies, sources);
    nodes := [];
    for p := 0 to |used|
      invariant |nodes| == p && forall q :: 0 <= q < p ==> Known(used, nd, coordinates, q, nodes[q])
    {
      EverythingReturned(used, nd, coordinates, targets, buffers, received, sources, answers, replies, nodeRanks, returned, owners, others, p);
      RequestFacts(used, nd, targets, buffers, p);
      var known := Collect(used, nd, coordinates, buffers[p], nodeRanks[p], returned[p], p);
      nodes := nodes + [known];
    }
  }

  lemma RequestCount(used: seq<seq<nat>>, nd: seq<nat>, targets: seq<seq<nat>>, buffers: seq<seq<seq<nat>>>)
    requires ValidInput(used, nd) && AllRequested(used, nd, targets, buffers)
    ensures |targets| == |buffers| == |used|
  {
  }

  lemma AnswersMatch<C>(used: seq<seq<nat>>, nd: seq<nat>, coordinates: seq<seq<C>>, received: seq<seq<seq<nat>>>,
      answers: seq<seq<seq<nat>>>, replies: seq<seq<seq<C>>>)
    requires AllReplied(used, nd, coordinates, received, answers, replies, |used|) && |received| == |used|
    ensures |answers| == |replies| == |received|
    ensures forall me :: 0 <= me < |received| ==> |answers[me]| == |replies[me]| == |received[me]|
  {
    forall me | 0 <= me < |received|
      ensures |answers[me]| == |replies[me]| == |received[me]|
    {
      assert Replied(used, nd, coordinates, received[me], answers[me], replies[me], me);
    }
  }

  /** The ranks a process keeps for node number `k`. */
  function RanksOf<C>(nodes: Nodes<C>, k: nat): (r: seq<nat>)
    requires k + 1 < |nodes.boundaries| && nodes.boundaries[k] <= nodes.boundaries[k + 1] <= |nodes.ranks|
    ensures |r| == nodes.boundaries[k + 1] - nodes.boundaries[k] && forall j :: 0 <= j < |r| ==> r[j] == nodes.ranks[nodes.boundaries[k] + j]
  {
    nodes.ranks[nodes.boundaries[k]..nodes.boundaries[k + 1]]
  }

  /** The coordinates of a node are those its owner holds at the place of the node in its range. */
  lemma CoordinatesAreOwners<C>(used: seq<seq<nat>>, nd: seq<nat>, coordinates: seq<seq<C>>, p: nat, nodes: Nodes<C>, k: nat, t: nat, j: nat)
    requires p < |used| && Known(used, nd, coordinates, p, nodes) && k < |used[p]| && Sorted(nd)
    requires t < |coordinates| && t + 1 < |nd| && j < |coordinates[t]| && nodes.ids[k] == nd[t] + j < nd[t + 1]
    ensures |nodes.coordinates| == |nodes.ids| && nodes.coordinates[k] == coordinates[t][j]
  {
    hide RankData, RankBoundaries, Sorted;
    assert CoordinateOf(nd, coordinates, used[p][k], nodes.coordinates[k]);
    var s: nat :| s < |coordinates| && OwnedBy(nd, coordinates, used[p][k], nodes.coordinates[k], s);
    OneOwner(nd, s, t, used[p][k]);
  }

  lemma OneOwner(nd: seq<nat>, s: nat, t: nat, id: nat)
    requires Sorted(nd) && s + 1 < |nd| && t + 1 < |nd| && nd[s] <= id < nd[s + 1] && nd[t] <= id < nd[t + 1]
    ensures s == t
  {
  }

  /** The rank list of a node holds exactly the processes whose elements use it, in order. */
  lemma RanksAreUsers<C>(used: seq<seq<nat>>, nd: seq<nat>, coordinates: seq<seq<C>>, p: nat, nodes: Nodes<C>, k: nat)
    requires p < |used| && Known(used, nd, coordinates, p, nodes) && k < |used[p]|
    ensures k + 1 < |nodes.boundaries| && nodes.boundaries[k] <= nodes.boundaries[k + 1] <= |nodes.ranks|
    ensures RanksOf(nodes, k) == Users(used, nodes.ids[k], |used|)
    ensures forall q :: q in RanksOf(nodes, k) <==> 0 <= q < |used| && nodes.ids[k] in used[q]
    ensures Increasing(RanksOf(nodes, k))
  {
    hide Users, RankData, RankBoundaries, CoordinatesOf;
    var ids := used[p];
    UsersMembers(used, ids[k], |used|);
    BoundaryIs(used, ids, nodes.boundaries, k);
    BoundaryIs(used, ids, nodes.boundaries, k + 1);
    RankDataSplit(used, ids, k);
    RanksBetween(RankData(used, ids[..k]), Users(used, ids[k], |used|), RankData(used, ids[k + 1..]));
  }

  lemma BoundaryIs(used: seq<seq<nat>>, ids: seq<nat>, boundaries: seq<nat>, k: nat)
    requires RankBoundaries(used, ids, boundaries) && k <= |ids|
    ensures |boundaries| == |ids| + 1 && boundaries[k] == |RankData(used, ids[..k])|
  {
    if k > 0 {
      assert RankEnd(used, ids, 0, boundaries[1..], k - 1);
    } else {
      assert ids[..0] == [];
    }
  }

  lemma RankDataSplit(used: seq<seq<nat>>, ids: seq<nat>, k: nat)
    requires k < |ids|
    ensures RankData(used, ids[..k + 1]) == RankData(used, ids[..k]) + Users(used, ids[k], |used|)
    ensures RankData(used, ids) == RankData(used, ids[..k]) + Users(used, ids[k], |used|) + RankData(used, ids[k + 1..])
  {
    hide Users;
    assert ids[..k + 1][..k] == ids[..k] && ids[..k + 1] + ids[k + 1..] == ids;
    RankDataAppend(used, ids[..k + 1], ids[k + 1..]);
  }

  lemma RanksBetween(a: seq<nat>, users: seq<nat>, b: seq<nat>)
    ensures (a + users + b)[|a|..|a| + |users|] == users
  {
  }

  /** All processes that share a node keep the same rank list for it. */
  lemma SharersAgree<C>(used: seq<seq<nat>>, nd: seq<nat>, coordinates: seq<seq<C>>, p: nat, q: nat, a: Nodes<C>, b: Nodes<C>, k: nat, l: nat)
    requires p < |used| && q < |used| && Known(used, nd, coordinates, p, a) && Known(used, nd, coordinates, q, b)
    requires k < |a.ids| && l < |b.ids| && a.ids[k] == b.ids[l]
    ensures k + 1 < |a.boundaries| && a.boundaries[k] <= a.boundaries[k + 1] <= |a.ranks|
    ensures l + 1 < |b.boundaries| && b.boundaries[l] <= b.boundaries[l + 1] <= |b.ranks|
    ensures RanksOf(a, k) == RanksOf(b, l) && p in RanksOf(a, k) && q in RanksOf(a, k)
  {
    hide RankData, Users, RankBoundaries, CoordinatesOf, RanksOf;
    RanksAreUsers(used, nd, coordinates, p, a, k);
    RanksAreUsers(used, nd, coordinates, q, b, l);
    assert a.ids[k] in used[p] && b.ids[l] in used[q];
  }

  /** The processes a process shares a node with, itself included. */
  ghost predicate Shares(used: seq<seq<nat>>, p: nat, q: nat)
    requires p < |used|
  {
    q < |used| && exists k :: 0 <= k < |used[p]| && used[p][k] in used[q]
  }

  lemma {:induction false} RankDataMembers(used: seq<seq<nat>>, ids: seq<nat>, q: nat)
    ensures q in RankData(used, ids) <==> q < |used| && exists k :: 0 <= k < |ids| && ids[k] in used[q]
  {
    hide Users;
    if ids != [] {
      var l, init := |ids| - 1, ids[..|ids| - 1];
      RankDataMembers(used, init, q);
      UsersMembers(used, ids[l], |used|);
      assert RankData(used, ids) == RankData(used, init) + Users(used, ids[l], |used|);
      hide RankData;
      if q in RankData(used, init) {
        var k :| 0 <= k < |init| && init[k] in used[q];
        assert ids[k] in used[q];
      }
      if q < |used| && exists k :: 0 <= k < |ids| && ids[k] in used[q] {
        var k :| 0 <= k < |ids| && ids[k] in used[q];
        assert k < l ==> init[k] in used[q];
      }
    }
  }

  /** All ranks of the nodes of a process, once each: `neighboursWithMe`. */
  method NeighboursWithMe<C>(nodes: Nodes<C>, ghost used: seq<seq<nat>>, ghost nd: seq<nat>, ghost coordinates: seq<seq<C>>, ghost p: nat)
    returns (neighbours: seq<nat>)
    requires p < |used| && Known(used, nd, coordinates, p, nodes)
    ensures Increasing(neighbours) && forall q :: q in neighbours <==> Shares(used, p, q)
  {
    neighbours := MergeTree.SortAndRemoveDuplicity(nodes.ranks);
    forall q: nat
      ensures q in neighbours <==> Shares(used, p, q)
    {
      RankDataMembers(used, used[p], q);
    }
  }
}
