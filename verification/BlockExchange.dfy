/**
 * Messages made of blocks `[size, target, source, data...]`, exchanged between all processes by
 * `allToAllWithDataSizeAndTarget`, which delivers the blocks of a target in any order.
 */
module BlockExchange {
  import opened Basis

  ghost predicate IsPermutation(p: seq<nat>, n: nat) {
    |p| == n && Distinct(p) && forall x :: x in p <==> 0 <= x < n
  }

  ghost predicate OrderedBy(keys: seq<nat>, p: seq<nat>) {
    && (forall i :: 0 <= i < |p| ==> p[i] < |keys|)
    && forall i, j :: 0 <= i < j < |p| ==> keys[p[i]] <= keys[p[j]]
  }

  /** `std::sort` of the positions `0, 1, ...` by their keys. */
  method SortedPermutation(keys: seq<nat>) returns (p: seq<nat>)
    ensures IsPermutation(p, |keys|) && OrderedBy(keys, p)
  {
    p := [];
    for k := 0 to |keys|
      invariant IsPermutation(p, k) && OrderedBy(keys, p)
    {
      var i := |p|;
      while i > 0 && keys[p[i - 1]] > keys[k]
        invariant 0 <= i <= |p| && forall j :: i <= j < |p| ==> keys[p[j]] > keys[k]
      {
        i := i - 1;
      }
      PositionInserted(keys, p, k, i);
      p := p[..i] + ([k] + p[i..]);
    }
  }

  lemma PositionInserted(keys: seq<nat>, p: seq<nat>, k: nat, i: nat)
    requires IsPermutation(p, k) && OrderedBy(keys, p) && k < |keys| && i <= |p|
    requires (i > 0 ==> keys[p[i - 1]] <= keys[k]) && forall j :: i <= j < |p| ==> keys[p[j]] > keys[k]
    ensures IsPermutation(p[..i] + ([k] + p[i..]), k + 1) && OrderedBy(keys, p[..i] + ([k] + p[i..]))
  {
    PlaceInserted(p, k, i);
    hide IsPermutation;
    var r := p[..i] + ([k] + p[i..]);
    forall a, b | 0 <= a < b < |r|
      ensures r[a] < |keys| && r[b] < |keys| && keys[r[a]] <= keys[r[b]]
    {
      assert a < i && b == i ==> keys[p[a]] <= keys[p[i - 1]];
    }
  }

  lemma PlaceInserted(p: seq<nat>, k: nat, i: nat)
    requires IsPermutation(p, k) && i <= |p|
    ensures IsPermutation(p[..i] + ([k] + p[i..]), k + 1)
  {
    var r := p[..i] + ([k] + p[i..]);
    forall a, b | 0 <= a < b < |r|
      ensures r[a] != r[b]
    {
      assert a != i ==> r[a] == p[if a < i then a else a - 1] && r[a] in p;
      assert b != i ==> r[b] == p[if b < i then b else b - 1] && r[b] in p;
    }
    forall x: nat
      ensures x in r <==> x < k + 1
    {
      MembersInserted(p, k, i, x);
    }
  }

  lemma MembersInserted(p: seq<nat>, k: nat, i: nat, x: nat)
    requires i <= |p|
    ensures x in p[..i] + ([k] + p[i..]) <==> x == k || x in p
  {
    assert p == p[..i] + p[i..];
  }

  /** The block of process `source` for process `target`. */
  function Block(target: nat, source: nat, data: seq<nat>): (r: seq<nat>)
    ensures |r| == 3 + |data|
  {
    [3 + |data|, target, source] + data
  }

  /** A block says how long it is, for whom and from whom, then comes the data. */
  lemma BlockHead(target: nat, source: nat, data: seq<nat>)
    ensures var r := Block(target, source, data); r[0] == |r| && r[1] == target && r[2] == source && r[3..] == data
  {
    var r := Block(target, source, data);
    assert r[3..] == data;
  }

  /** What a process sends: a block for each process below `k`. */
  function Outgoing(data: seq<seq<nat>>, source: nat, k: nat): seq<nat>
    requires k <= |data|
  {
    if k == 0 then [] else Outgoing(data, source, k - 1) + Block(k - 1, source, data[k - 1])
  }

  /** The first `k` blocks a process receives, when their sources come in this order. */
  function Incoming(sent: seq<seq<seq<nat>>>, order: seq<nat>, me: nat, k: nat): seq<nat>
    requires k <= |order| && forall i :: 0 <= i < |order| ==> order[i] < |sent| && me < |sent[order[i]]|
  {
    if k == 0 then [] else Incoming(sent, order, me, k - 1) + Block(me, order[k - 1], sent[order[k - 1]][me])
  }

  /** Every process has data, perhaps none, for every process. */
  ghost predicate Square(sent: seq<seq<seq<nat>>>) {
    forall p :: 0 <= p < |sent| ==> |sent[p]| == |sent|
  }

  /** Everything for `me` arrives, in some order. */
  ghost predicate Arrives(sent: seq<seq<seq<nat>>>, me: nat, order: seq<nat>, buffer: seq<nat>)
    requires Square(sent) && me < |sent|
  {
    IsPermutation(order, |sent|) && (forall i :: 0 <= i < |order| ==> order[i] < |sent|) && buffer == Incoming(sent, order, me, |order|)
  }

  ghost predicate ArrivesInSomeOrder(sent: seq<seq<seq<nat>>>, me: nat, buffer: seq<nat>)
    requires Square(sent) && me < |sent|
  {
    exists order :: Arrives(sent, me, order, buffer)
  }

  lemma {:induction false} IncomingPrefix(sent: seq<seq<seq<nat>>>, order: seq<nat>, me: nat, j: nat, k: nat) returns (rest: seq<nat>)
    requires j <= k <= |order| && forall i :: 0 <= i < |order| ==> order[i] < |sent| && me < |sent[order[i]]|
    ensures Incoming(sent, order, me, k) == Incoming(sent, order, me, j) + rest
    decreases k
  {
    if j == k {
      rest := [];
    } else {
      var r := IncomingPrefix(sent, order, me, j, k - 1);
      rest := r + Block(me, order[k - 1], sent[order[k - 1]][me]);
      ConcatAssociative(Incoming(sent, order, me, j), r, Block(me, order[k - 1], sent[order[k - 1]][me]));
    }
  }

  lemma BlockLayout(a: seq<nat>, target: nat, source: nat, data: seq<nat>, rest: seq<nat>)
    ensures var all := a + Block(target, source, data) + rest;
      && |a| + 3 + |data| <= |all| && all[|a|] == 3 + |data| && all[|a| + 1] == target && all[|a| + 2] == source
      && all[|a| + 3..|a| + 3 + |data|] == data && all[|a|..|a| + 3 + |data|] == Block(target, source, data)
  {
  }

  /** Block number `i` of an incoming message. */
  lemma IncomingBlock(sent: seq<seq<seq<nat>>>, order: seq<nat>, me: nat, i: nat)
    requires i < |order| && forall i :: 0 <= i < |order| ==> order[i] < |sent| && me < |sent[order[i]]|
    ensures var all, at, data := Incoming(sent, order, me, |order|), |Incoming(sent, order, me, i)|, sent[order[i]][me];
      && at + 3 + |data| <= |all| && all[at] == 3 + |data| && all[at + 2] == order[i] && all[at + 3..at + 3 + |data|] == data
      && |Incoming(sent, order, me, i + 1)| == at + 3 + |data|
  {
    var rest := IncomingPrefix(sent, order, me, i + 1, |order|);
    assert Incoming(sent, order, me, i + 1) == Incoming(sent, order, me, i) + Block(me, order[i], sent[order[i]][me]);
    hide Incoming, Block;
    BlockLayout(Incoming(sent, order, me, i), me, order[i], sent[order[i]][me], rest);
  }

  lemma RanksInOrder(n: nat) returns (order: seq<nat>)
    ensures IsPermutation(order, n) && forall i :: 0 <= i < n ==> order[i] == i
  {
    order := seq(n, i => i);
    forall x: nat
      ensures x in order <==> x < n
    {
      if x < n {
        assert order[x] == x;
      }
    }
  }

  /** A block for every process, each headed by its size and its target. */
  ghost predicate Addressed(blocks: seq<seq<nat>>) {
    forall t :: 0 <= t < |blocks| ==> |blocks[t]| >= 2 && blocks[t][0] == |blocks[t]| && blocks[t][1] == t
  }

  /** The blocks for `me`, in this order of their sources. */
  ghost function BlocksFor(sent: seq<seq<seq<nat>>>, order: seq<nat>, me: nat): (r: seq<seq<nat>>)
    requires forall i :: 0 <= i < |order| ==> order[i] < |sent| && me < |sent[order[i]]|
    ensures |r| == |order|
  {
    seq(|order|, i requires 0 <= i < |order| => sent[order[i]][me])
  }

  /** All blocks for `me` arrive, in some order. */
  ghost predicate Delivers(sent: seq<seq<seq<nat>>>, me: nat, order: seq<nat>, buffer: seq<nat>)
    requires Square(sent) && me < |sent|
  {
    && IsPermutation(order, |sent|) && (forall i :: 0 <= i < |order| ==> order[i] < |sent|)
    && buffer == Flatten(BlocksFor(sent, order, me))
  }

  /**
   * `allToAllWithDataSizeAndTarget` for all processes. Its promise leaves the order of the blocks
   * open.
   */
  method AllToAllBlocks(buffers: seq<seq<nat>>, ghost sent: seq<seq<seq<nat>>>)
    returns (received: seq<seq<nat>>, ghost orders: seq<seq<nat>>)
    requires Square(sent) && |buffers| == |sent|
    requires forall p :: 0 <= p < |sent| ==> Addressed(sent[p]) && buffers[p] == Flatten(sent[p])
    ensures |received| == |orders| == |sent|
    ensures forall me :: 0 <= me < |sent| ==> Delivers(sent, me, orders[me], received[me])
  {
    received, orders := [], [];
    ghost var inOrder := RanksInOrder(|sent|);
    for me := 0 to |buffers|
      invariant |received| == |orders| == me
      invariant forall q :: 0 <= q < me ==> Delivers(sent, q, orders[q], received[q])
    {
      ghost var blocks := BlocksFor(sent, inOrder, me);
      var buffer: seq<nat> := [];
      assert blocks[..0] == [];
      for p := 0 to |buffers|
        invariant buffer == Flatten(blocks[..p])
      {
        var block := FindBlock(buffers[p], me, sent[p]);
        assert blocks[..p + 1][..p] == blocks[..p] && blocks[..p + 1] != [];
        buffer := buffer + block;
      }
      assert blocks[..|blocks|] == blocks;
      received, orders := received + [buffer], orders + [inOrder];
    }
  }

  lemma {:induction false} FlattenSplit(blocks: seq<seq<nat>>, k: nat) returns (rest: seq<nat>)
    requires k <= |blocks|
    ensures Flatten(blocks) == Flatten(blocks[..k]) + rest
    decreases |blocks|
  {
    if k == |blocks| {
      assert blocks[..k] == blocks;
      rest := [];
    } else {
      var r := FlattenSplit(blocks[..|blocks| - 1], k);
      assert blocks[..|blocks| - 1][..k] == blocks[..k];
      rest := r + blocks[|blocks| - 1];
      ConcatAssociative(Flatten(blocks[..k]), r, blocks[|blocks| - 1]);
    }
  }

  /** Where block `k` lies in the message. */
  lemma FlatBlock(blocks: seq<seq<nat>>, k: nat)
    requires k < |blocks|
    ensures var all, at := Flatten(blocks), |Flatten(blocks[..k])|;
      at + |blocks[k]| <= |all| && all[at..at + |blocks[k]|] == blocks[k] && |Flatten(blocks[..k + 1])| == at + |blocks[k]|
    ensures forall i :: 0 <= i < |blocks[k]| ==> Flatten(blocks)[|Flatten(blocks[..k])| + i] == blocks[k][i]
  {
    hide Flatten;
    var rest := FlattenSplit(blocks, k + 1);
    FlattenNext(blocks, k);
    InTheMiddle(Flatten(blocks[..k]), blocks[k], rest);
  }

  lemma InTheMiddle(a: seq<nat>, b: seq<nat>, c: seq<nat>)
    ensures (a + b + c)[|a|..|a| + |b|] == b
    ensures forall i :: 0 <= i < |b| ==> (a + b + c)[|a| + i] == b[i]
  {
  }

  method FindBlock(buffer: seq<nat>, target: nat, ghost blocks: seq<seq<nat>>) returns (block: seq<nat>)
    requires target < |blocks| && Addressed(blocks) && buffer == Flatten(blocks)
    ensures block == blocks[target]
  {
    hide Flatten;
    var pos := 0;
    NothingFlat(blocks);
    for r := 0 to target
      invariant pos == |Flatten(blocks[..r])|
    {
      FlatBlock(blocks, r);
      assert buffer[pos + 0] == blocks[r][0];
      pos := pos + buffer[pos];
    }
    FlatBlock(blocks, target);
    assert buffer[pos + 0] == blocks[target][0];
    block := buffer[pos..pos + buffer[pos]];
  }

  lemma NothingFlat(blocks: seq<seq<nat>>)
    ensures Flatten(blocks[..0]) == []
  {
  }

  ghost function SentBlocks(data: seq<seq<nat>>, source: nat): (r: seq<seq<nat>>)
    ensures |r| == |data|
  {
    seq(|data|, t requires 0 <= t < |data| => Block(t, source, data[t]))
  }

  lemma {:induction false} OutgoingIsFlat(data: seq<seq<nat>>, source: nat, k: nat)
    requires k <= |data|
    ensures Outgoing(data, source, k) == Flatten(SentBlocks(data, source)[..k])
  {
    if k > 0 {
      OutgoingIsFlat(data, source, k - 1);
      var blocks := SentBlocks(data, source);
      assert blocks[..k][..k - 1] == blocks[..k - 1] && blocks[..k] != [];
    }
  }

  lemma {:induction false} IncomingIsFlat(data: seq<seq<seq<nat>>>, sent: seq<seq<seq<nat>>>, order: seq<nat>, me: nat, k: nat)
    requires k <= |order| && |sent| == |data| && forall p :: 0 <= p < |data| ==> sent[p] == SentBlocks(data[p], p)
    requires forall i :: 0 <= i < |order| ==> order[i] < |data| && me < |data[order[i]]| && me < |sent[order[i]]|
    ensures Incoming(data, order, me, k) == Flatten(BlocksFor(sent, order, me)[..k])
  {
    if k > 0 {
      IncomingIsFlat(data, sent, order, me, k - 1);
      var blocks := BlocksFor(sent, order, me);
      assert blocks[..k][..k - 1] == blocks[..k - 1] && blocks[..k] != [];
    }
  }

  /** The exchange of blocks that name their source. */
  method AllToAll(buffers: seq<seq<nat>>, ghost sent: seq<seq<seq<nat>>>) returns (received: seq<seq<nat>>, ghost orders: seq<seq<nat>>)
    requires Square(sent) && |buffers| == |sent|
    requires forall p :: 0 <= p < |sent| ==> buffers[p] == Outgoing(sent[p], p, |sent[p]|)
    ensures |received| == |orders| == |sent|
    ensures forall me :: 0 <= me < |sent| ==> Arrives(sent, me, orders[me], received[me])
    ensures forall me :: 0 <= me < |sent| ==> ArrivesInSomeOrder(sent, me, received[me])
  {
    ghost var blocks := seq(|sent|, p requires 0 <= p < |sent| => SentBlocks(sent[p], p));
    forall p | 0 <= p < |sent|
      ensures Addressed(blocks[p]) && buffers[p] == Flatten(blocks[p])
    {
      OutgoingIsFlat(sent[p], p, |sent[p]|);
      assert blocks[p][..|sent[p]|] == blocks[p];
    }
    received, orders := AllToAllBlocks(buffers, blocks);
    forall me | 0 <= me < |sent|
      ensures Arrives(sent, me, orders[me], received[me]) && ArrivesInSomeOrder(sent, me, received[me])
    {
      assert Delivers(blocks, me, orders[me], received[me]);
      IncomingIsFlat(sent, blocks, orders[me], me, |orders[me]|);
      assert BlocksFor(blocks, orders[me], me)[..|orders[me]|] == BlocksFor(blocks, orders[me], me);
    }
  }

  /** Strictly increasing keys below their number are `0, 1, ...`. */
  lemma {:induction false} KeysAreRanks(keys: seq<nat>, n: nat, j: nat)
    requires Increasing(keys) && |keys| == n && (forall i :: 0 <= i < n ==> keys[i] < n) && j < n
    ensures keys[j] == j
  {
    AtLeast(keys, j);
    AtMost(keys, n, j);
  }

  lemma {:induction false} AtLeast(keys: seq<nat>, j: nat)
    requires Increasing(keys) && j < |keys|
    ensures keys[j] >= j
  {
    if j > 0 {
      AtLeast(keys, j - 1);
    }
  }

  lemma {:induction false} AtMost(keys: seq<nat>, n: nat, j: nat)
    requires Increasing(keys) && |keys| == n && (forall i :: 0 <= i < n ==> keys[i] < n) && j < n
    ensures keys[j] <= j
    decreases n - j
  {
    if j + 1 < n {
      AtMost(keys, n, j + 1);
    }
  }

  /** Where the block of each source begins: the boundaries, sorted by the source they are followed by. */
  ghost predicate BySource(sent: seq<seq<seq<nat>>>, me: nat, buffer: seq<nat>, boundaries: seq<nat>)
    requires Square(sent) && me < |sent|
  {
    |boundaries| == |sent| && forall r :: 0 <= r < |sent| ==> BlockOf(sent, me, buffer, boundaries[r], r)
  }

  ghost predicate BlockOf(sent: seq<seq<seq<nat>>>, me: nat, buffer: seq<nat>, at: nat, r: nat)
    requires Square(sent) && me < |sent| && r < |sent|
  {
    var data := sent[r][me];
    at + 3 + |data| <= |buffer| && buffer[at] == 3 + |data| && buffer[at + 3..at + 3 + |data|] == data
  }

  method Boundaries(buffer: seq<nat>, processes: nat, ghost sent: seq<seq<seq<nat>>>, ghost me: nat, ghost order: seq<nat>)
    returns (boundaries: seq<nat>)
    requires Square(sent) && me < |sent| == processes && Arrives(sent, me, order, buffer)
    ensures BySource(sent, me, buffer, boundaries)
  {
    hide Incoming, BySource, Distinct;
    boundaries := seq(processes, _ => 0);
    var offset := 0;
    NothingIncoming(sent, order, me);
    for r := 1 to processes
      invariant |boundaries| == processes && offset == |Incoming(sent, order, me, r - 1)|
      invariant forall i :: 0 <= i < r ==> boundaries[i] == |Incoming(sent, order, me, i)|
    {
      IncomingBlock(sent, order, me, r - 1);
      boundaries := boundaries[r := buffer[offset] + boundaries[r - 1]];
      offset := offset + buffer[offset];
    }
    boundaries := SortBySource(buffer, boundaries, sent, me, order);
  }

  lemma NothingIncoming(sent: seq<seq<seq<nat>>>, order: seq<nat>, me: nat)
    requires forall i :: 0 <= i < |order| ==> order[i] < |sent| && me < |sent[order[i]]|
    ensures Incoming(sent, order, me, 0) == []
  {
  }

  method SortBySource(buffer: seq<nat>, boundaries: seq<nat>, ghost sent: seq<seq<seq<nat>>>, ghost me: nat, ghost order: seq<nat>)
    returns (sorted: seq<nat>)
    requires Square(sent) && me < |sent| && Arrives(sent, me, order, buffer)
    requires |boundaries| == |sent| && forall i :: 0 <= i < |sent| ==> boundaries[i] == |Incoming(sent, order, me, i)|
    ensures BySource(sent, me, buffer, sorted)
  {
    hide Incoming, Arrives, BlockOf, Distinct, OrderedBy;
    SourcesInOrder(buffer, boundaries, sent, me, order);
    var keys := seq(|boundaries|, i requires 0 <= i < |boundaries| => buffer[boundaries[i] + 2]);
    assert keys == order;
    var p := SortedPermutation(keys);
    PlacesInside(p, |boundaries|);
    sorted := seq(|boundaries|, j requires 0 <= j < |boundaries| => boundaries[p[j]]);
    forall r | 0 <= r < |sent|
      ensures BlockOf(sent, me, buffer, sorted[r], r)
    {
      BlockFound(buffer, boundaries, sent, me, order, p, r);
    }
  }

  lemma PlacesInside(p: seq<nat>, n: nat)
    requires IsPermutation(p, n)
    ensures |p| == n && forall j :: 0 <= j < n ==> p[j] < n
  {
    forall j | 0 <= j < n
      ensures p[j] < n
    {
      assert p[j] in p;
    }
  }

  lemma SourcesInOrder(buffer: seq<nat>, boundaries: seq<nat>, sent: seq<seq<seq<nat>>>, me: nat, order: seq<nat>)
    requires Square(sent) && me < |sent| && Arrives(sent, me, order, buffer)
    requires |boundaries| == |sent| && forall i :: 0 <= i < |sent| ==> boundaries[i] == |Incoming(sent, order, me, i)|
    ensures |order| == |sent| && forall i :: 0 <= i < |sent| ==> boundaries[i] + 2 < |buffer| && buffer[boundaries[i] + 2] == order[i]
  {
    forall i | 0 <= i < |boundaries|
      ensures boundaries[i] + 2 < |buffer| && buffer[boundaries[i] + 2] == order[i]
    {
      IncomingBlock(sent, order, me, i);
    }
  }

  lemma BlockFound(buffer: seq<nat>, boundaries: seq<nat>, sent: seq<seq<seq<nat>>>, me: nat, order: seq<nat>, p: seq<nat>, r: nat)
    requires Square(sent) && me < |sent| && Arrives(sent, me, order, buffer)
    requires |boundaries| == |sent| && forall i :: 0 <= i < |sent| ==> boundaries[i] == |Incoming(sent, order, me, i)|
    requires IsPermutation(p, |order|) && OrderedBy(order, p) && r < |sent|
    ensures |order| == |sent| && p[r] < |boundaries| && BlockOf(sent, me, buffer, boundaries[p[r]], r)
  {
    SourceAt(order, p, r);
    hide Incoming, IsPermutation, OrderedBy;
    IncomingBlock(sent, order, me, p[r]);
  }

  /** Sorted by source, the block of source `r` comes at place `r`. */
  lemma SourceAt(order: seq<nat>, p: seq<nat>, r: nat)
    requires IsPermutation(order, |order|) && IsPermutation(p, |order|) && OrderedBy(order, p) && r < |order|
    ensures p[r] < |order| && order[p[r]] == r
  {
    var sources: seq<nat> := seq(|p|, j requires 0 <= j < |p| => order[p[j]]);
    forall i, j | 0 <= i < j < |sources|
      ensures sources[i] < sources[j]
    {
      assert p[i] != p[j] && order[p[i]] <= order[p[j]];
      assert order[p[i]] != order[p[j]];
    }
    forall j | 0 <= j < |sources|
      ensures sources[j] < |order|
    {
      assert order[p[j]] in order;
    }
    KeysAreRanks(sources, |order|, r);
  }
}
