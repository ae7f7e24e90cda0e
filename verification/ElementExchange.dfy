/**
 * `Input::balancePermutedElements`: element records of different lengths, packed into one message
 * per process, sent to the process whose range of ids they belong to, and unpacked there.
 */
module ElementExchange {
  import opened Basis
  import opened BlockExchange

  datatype Element = Element(id: nat, etype: nat, body: nat, material: nat, nodes: seq<nat>)

  /** The arrays that hold the elements of a process. */
  datatype Elements = Elements(esize: seq<nat>, eIDs: seq<nat>, etype: seq<nat>, body: seq<nat>, material: seq<nat>, enodes: seq<nat>)

  ghost predicate Valid(d: Elements) {
    && |d.esize| == |d.eIDs| == |d.etype| == |d.body| == |d.material|
    && Prefix(d.esize, |d.esize|) == |d.enodes|
  }

  ghost function RecordAt(d: Elements, e: nat): (x: Element)
    requires Valid(d) && e < |d.esize|
    ensures x.id == d.eIDs[e]
  {
    PrefixMonotone(d.esize, e + 1, |d.esize|);
    Element(d.eIDs[e], d.etype[e], d.body[e], d.material[e], d.enodes[Prefix(d.esize, e)..Prefix(d.esize, e + 1)])
  }

  ghost function Records(d: Elements): (r: seq<Element>)
    requires Valid(d)
    ensures |r| == |d.esize|
  {
    seq(|d.esize|, e requires 0 <= e < |d.esize| => RecordAt(d, e))
  }

  /** The records are all there is to know: arrays with the same records are the same. */
  lemma {:induction false} RecordsDetermine(a: Elements, b: Elements)
    requires Valid(a) && Valid(b) && Records(a) == Records(b)
    ensures a == b
  {
    assert |a.esize| == |Records(a)| == |Records(b)| == |b.esize|;
    hide Records;
    forall e | 0 <= e < |a.esize|
      ensures a.esize[e] == b.esize[e] && a.eIDs[e] == b.eIDs[e] && a.etype[e] == b.etype[e] && a.body[e] == b.body[e]
      ensures a.material[e] == b.material[e]
    {
      RecordSays(a, e);
      RecordSays(b, e);
      SameRecord(a, b, e);
    }
    assert a.esize == b.esize && a.eIDs == b.eIDs && a.etype == b.etype && a.body == b.body && a.material == b.material;
    SameNodes(a, b, |a.esize|);
    assert a.enodes[..|a.enodes|] == a.enodes && b.enodes[..|b.enodes|] == b.enodes;
  }

  /** The record of an element, field by field and node by node. */
  lemma RecordSays(d: Elements, e: nat)
    requires Valid(d) && e < |d.esize|
    ensures Prefix(d.esize, e) + d.esize[e] <= |d.enodes|
    ensures var x := RecordAt(d, e);
      && x.id == d.eIDs[e] && x.etype == d.etype[e] && x.body == d.body[e] && x.material == d.material[e] && |x.nodes| == d.esize[e]
      && forall j :: 0 <= j < d.esize[e] ==> x.nodes[j] == d.enodes[Prefix(d.esize, e) + j]
  {
    hide Prefix;
    NextPrefix(d.esize, e);
    PrefixMonotone(d.esize, e + 1, |d.esize|);
    SliceAt(d.enodes, Prefix(d.esize, e), d.esize[e], RecordAt(d, e).nodes);
  }

  lemma SliceAt(s: seq<nat>, a: nat, n: nat, r: seq<nat>)
    requires a + n <= |s| && r == s[a..a + n]
    ensures |r| == n && forall j :: 0 <= j < n ==> r[j] == s[a + j]
  {
  }

  lemma SameRecord(a: Elements, b: Elements, e: nat)
    requires Valid(a) && Valid(b) && Records(a) == Records(b) && e < |a.esize| == |b.esize|
    ensures RecordAt(a, e) == RecordAt(b, e)
  {
    assert Records(a)[e] == RecordAt(a, e) && Records(b)[e] == RecordAt(b, e);
  }

  lemma {:induction false} SameNodes(a: Elements, b: Elements, e: nat)
    requires Valid(a) && Valid(b) && Records(a) == Records(b) && a.esize == b.esize && e <= |a.esize|
    ensures Prefix(a.esize, e) <= |a.enodes| == |b.enodes| && a.enodes[..Prefix(a.esize, e)] == b.enodes[..Prefix(a.esize, e)]
  {
    if e > 0 {
      SameNodes(a, b, e - 1);
      hide Records, Valid, Prefix, RecordAt;
      RecordSays(a, e - 1);
      RecordSays(b, e - 1);
      SameRecord(a, b, e - 1);
      NextPrefix(a.esize, e - 1);
    }
  }

  lemma NextPrefix(s: seq<nat>, e: nat)
    requires e < |s|
    ensures Prefix(s, e + 1) == Prefix(s, e) + s[e]
  {
  }

  function Pack(x: Element): seq<nat> {
    [|x.nodes|, x.id, x.etype, x.body, x.material] + x.nodes
  }

  function Packs(xs: seq<Element>): (r: seq<seq<nat>>)
    ensures |r| == |xs|
  {
    seq(|xs|, k requires 0 <= k < |xs| => Pack(xs[k]))
  }

  function NodeCount(xs: seq<Element>): nat {
    if xs == [] then 0 else NodeCount(xs[..|xs| - 1]) + |xs[|xs| - 1].nodes|
  }

  /** Size, target, number of elements, number of their nodes, then the elements. */
  function ElementBlock(target: nat, xs: seq<Element>): (r: seq<nat>)
    ensures |r| == 4 + |Flatten(Packs(xs))| && r[0] == |r| && r[1] == target && r[2] == |xs|
  {
    [4 + |Flatten(Packs(xs))|, target, |xs|, NodeCount(xs)] + Flatten(Packs(xs))
  }

  lemma PacksNext(xs: seq<Element>, x: Element)
    ensures Flatten(Packs(xs + [x])) == Flatten(Packs(xs)) + Pack(x) && NodeCount(xs + [x]) == NodeCount(xs) + |x.nodes|
  {
    assert Packs(xs + [x]) == Packs(xs) + [Pack(x)];
    DropLastAppend(Packs(xs), [Pack(x)]);
    DropLastAppend(xs, [x]);
    assert Packs(xs) + [] == Packs(xs) && xs + [] == xs;
    assert [Pack(x)][..0] == [] && [x][..0] == [];
  }

  /** The ids in the order of a permutation. */
  function SortedIds(ids: seq<nat>, p: seq<nat>): (r: seq<nat>)
    requires forall i :: 0 <= i < |p| ==> p[i] < |ids|
    ensures |r| == |p|
  {
    seq(|p|, i requires 0 <= i < |p| => ids[p[i]])
  }

  ghost function SortedRecords(d: Elements, p: seq<nat>): (r: seq<Element>)
    requires Valid(d) && forall i :: 0 <= i < |p| ==> p[i] < |d.esize|
    ensures |r| == |p|
  {
    seq(|p|, i requires 0 <= i < |p| => RecordAt(d, p[i]))
  }

  /** Appends the block for process `r`; its head is completed when the elements are written. */
  method AppendElements(buffer: seq<nat>, d: Elements, edist: seq<nat>, p: seq<nat>, r: nat, begin: nat, bound: nat)
    returns (longer: seq<nat>, e: nat)
    requires Valid(d) && (forall i :: 0 <= i < |p| ==> p[i] < |d.esize|) && begin <= |p|
    requires |edist| == |d.esize| + 1 && forall i :: 0 <= i < |edist| ==> edist[i] == Prefix(d.esize, i)
    ensures begin <= e <= |p| && (e < |p| ==> SortedIds(d.eIDs, p)[e] >= bound)
    ensures forall i :: begin <= i < e ==> SortedIds(d.eIDs, p)[i] < bound
    ensures longer == buffer + ElementBlock(r, SortedRecords(d, p)[begin..e])
  {
    hide HeadOpen, ElementBlock, RecordAt, Valid;
    ValidLengths(d);
    ghost var ids, records := SortedIds(d.eIDs, p), SortedRecords(d, p);
    var prevsize := |buffer|;
    longer := buffer + [0, r, 0, 0];
    e := begin;
    HeadStarted(buffer, r);
    assert records[begin..begin] == [];
    while e != |p| && d.eIDs[p[e]] < bound
      invariant begin <= e <= |p| && forall i :: begin <= i < e ==> ids[i] < bound
      invariant HeadOpen(buffer, longer, r, records[begin..e])
      decreases |p| - e
    {
      assert records[begin..e + 1] == records[begin..e] + [RecordAt(d, p[e])];
      longer := WriteElement(prevsize, longer, d, edist, p[e], buffer, r, records[begin..e]);
      e := e + 1;
    }
    HeadClosed(buffer, longer, r, records[begin..e]);
    longer := longer[prevsize + 2 := e - begin];
    longer := longer[prevsize := |longer| - prevsize];
  }

  lemma ValidLengths(d: Elements)
    requires Valid(d)
    ensures |d.esize| == |d.eIDs| == |d.etype| == |d.body| == |d.material|
  {
  }

  /** Writes one element, and counts its nodes in the head of the block. */
  method WriteElement(prevsize: nat, open: seq<nat>, d: Elements, edist: seq<nat>, i: nat, ghost buffer: seq<nat>, ghost r: nat, ghost xs: seq<Element>)
    returns (longer: seq<nat>)
    requires Valid(d) && i < |d.esize| && prevsize == |buffer| && HeadOpen(buffer, open, r, xs)
    requires |edist| == |d.esize| + 1 && forall j :: 0 <= j < |edist| ==> edist[j] == Prefix(d.esize, j)
    ensures HeadOpen(buffer, longer, r, xs + [RecordAt(d, i)])
  {
    hide HeadOpen;
    PrefixMonotone(d.esize, i + 1, |d.esize|);
    ghost var x := RecordAt(d, i);
    RecordWritten(buffer, open, r, xs, x);
    longer := open + [d.esize[i], d.eIDs[i], d.etype[i], d.body[i], d.material[i]];
    longer := longer + d.enodes[edist[i]..edist[i + 1]];
    longer := longer[prevsize + 3 := longer[prevsize + 3] + (edist[i + 1] - edist[i])];
  }

  /** A block with its size and its number of elements still 0. */
  ghost predicate HeadOpen(buffer: seq<nat>, longer: seq<nat>, r: nat, xs: seq<Element>) {
    longer == buffer + ([0, r, 0, NodeCount(xs)] + Flatten(Packs(xs)))
  }

  lemma HeadStarted(buffer: seq<nat>, r: nat)
    ensures HeadOpen(buffer, buffer + [0, r, 0, 0], r, [])
  {
  }

  lemma RecordWritten(buffer: seq<nat>, longer: seq<nat>, r: nat, xs: seq<Element>, x: Element)
    requires HeadOpen(buffer, longer, r, xs)
    ensures var written := longer + [|x.nodes|, x.id, x.etype, x.body, x.material] + x.nodes;
      |buffer| + 3 < |longer| && written[|buffer| + 3] == NodeCount(xs) &&
      HeadOpen(buffer, written[|buffer| + 3 := NodeCount(xs) + |x.nodes|], r, xs + [x])
  {
    PacksNext(xs, x);
    hide Flatten, NodeCount, Packs;
    HeadUpdated(buffer, r, NodeCount(xs), Flatten(Packs(xs)), [|x.nodes|, x.id, x.etype, x.body, x.material], x.nodes, |x.nodes|);
  }

  lemma HeadUpdated(a: seq<nat>, r: nat, n: nat, packed: seq<nat>, head: seq<nat>, nodes: seq<nat>, m: nat)
    ensures var written := a + ([0, r, 0, n] + packed) + head + nodes;
      written[|a| + 3] == n && written[|a| + 3 := n + m] == a + ([0, r, 0, n + m] + (packed + (head + nodes)))
  {
  }

  lemma HeadClosed(buffer: seq<nat>, longer: seq<nat>, r: nat, xs: seq<Element>)
    requires HeadOpen(buffer, longer, r, xs)
    ensures |buffer| + 3 < |longer|
    ensures var counted := longer[|buffer| + 2 := |xs|];
      counted[|buffer| := |counted| - |buffer|] == buffer + ElementBlock(r, xs)
  {
    hide Flatten, NodeCount, Packs;
  }

  /** The records that belong to process `r`: those with ids from its border to the next one. */
  ghost function PartFor(d: Elements, p: seq<nat>, nd: seq<nat>, r: nat): seq<Element>
    requires Valid(d) && (forall i :: 0 <= i < |p| ==> p[i] < |d.esize|) && Sorted(nd) && r + 1 < |nd|
  {
    var ids := SortedIds(d.eIDs, p);
    BoundsInOrder(ids, nd[r], nd[r + 1]);
    SortedRecords(d, p)[LowerBound(ids, nd[r])..LowerBound(ids, nd[r + 1])]
  }

  ghost function PartsOf(d: Elements, p: seq<nat>, nd: seq<nat>): (r: seq<seq<Element>>)
    requires Valid(d) && (forall i :: 0 <= i < |p| ==> p[i] < |d.esize|) && Sorted(nd) && |nd| > 0
    ensures |r| == |nd| - 1
  {
    seq(|nd| - 1, r requires 0 <= r < |nd| - 1 => PartFor(d, p, nd, r))
  }

  function Blocks(parts: seq<seq<Element>>): (r: seq<seq<nat>>)
    ensures |r| == |parts|
  {
    seq(|parts|, r requires 0 <= r < |parts| => ElementBlock(r, parts[r]))
  }

  ghost predicate SumAt(dist: seq<nat>, sizes: seq<nat>, j: nat) {
    j < |dist| && j <= |sizes| && dist[j] == Prefix(sizes, j)
  }

  /** Where each row begins, when the rows have these sizes. */
  method RunningSums(sizes: seq<nat>) returns (dist: seq<nat>)
    ensures |dist| == |sizes| + 1 && forall j :: 0 <= j < |dist| ==> dist[j] == Prefix(sizes, j)
  {
    dist := [0];
    for e := 0 to |sizes|
      invariant |dist| == e + 1 && forall j :: 0 <= j < |dist| ==> SumAt(dist, sizes, j)
    {
      ghost var before := dist;
      assert SumAt(dist, sizes, e);
      dist := dist + [dist[e] + sizes[e]];
      forall j | 0 <= j < |dist|
        ensures SumAt(dist, sizes, j)
      {
        assert j <= e ==> SumAt(before, sizes, j);
      }
    }
    forall j | 0 <= j < |dist|
      ensures dist[j] == Prefix(sizes, j)
    {
      assert SumAt(dist, sizes, j);
    }
  }

  /** The block for process `r`, from where the last one ended. */
  method AppendBlock(buffer: seq<nat>, d: Elements, edist: seq<nat>, p: seq<nat>, nd: seq<nat>, r: nat, begin: nat)
    returns (longer: seq<nat>, e: nat)
    requires Valid(d) && (forall i :: 0 <= i < |p| ==> p[i] < |d.esize|) && Sorted(nd) && r + 1 < |nd|
    requires |edist| == |d.esize| + 1 && forall i :: 0 <= i < |edist| ==> edist[i] == Prefix(d.esize, i)
    requires begin <= |p| && begin == LowerBound(SortedIds(d.eIDs, p), nd[r])
    ensures e <= |p| && e == LowerBound(SortedIds(d.eIDs, p), nd[r + 1])
    ensures longer == buffer + Blocks(PartsOf(d, p, nd))[r]
  {
    hide Valid, RecordAt, ElementBlock, LowerBound, SortedRecords, SortedIds, Sorted;
    ValidLengths(d);
    ghost var ids := SortedIds(d.eIDs, p);
    InOrder(nd, r);
    BoundsInOrder(ids, nd[r], nd[r + 1]);
    longer, e := AppendElements(buffer, d, edist, p, r, begin, nd[r + 1]);
    CutFound(ids, nd[r], nd[r + 1], begin, e);
  }

  lemma NextBlock(blocks: seq<seq<nat>>, r: nat)
    requires r < |blocks|
    ensures Flatten(blocks[..0]) == [] && Flatten(blocks[..r + 1]) == Flatten(blocks[..r]) + blocks[r]
  {
    assert blocks[..r + 1][..r] == blocks[..r];
  }

  /** The message of a process: its elements in the order of their ids, cut at the borders. */
  method WriteElements(d: Elements, p: seq<nat>, nd: seq<nat>) returns (buffer: seq<nat>)
    requires Valid(d) && (forall i :: 0 <= i < |p| ==> p[i] < |d.esize|) && Sorted(nd) && |nd| > 0 && nd[0] == 0
    ensures buffer == Flatten(Blocks(PartsOf(d, p, nd)))
  {
    hide Valid, Blocks, PartsOf, SortedIds, Sorted, LowerBound, Prefix;
    ValidLengths(d);
    var edist := RunningSums(d.esize);
    ghost var ids, blocks := SortedIds(d.eIDs, p), Blocks(PartsOf(d, p, nd));
    buffer := [];
    var begin := 0;
    LowerBoundOfZero(ids);
    assert blocks[..0] == [];
    for r := 0 to |nd| - 1
      invariant buffer == Flatten(blocks[..r]) && begin == LowerBound(ids, nd[r]) <= |p|
    {
      buffer, begin := AppendBlock(buffer, d, edist, p, nd, r, begin);
      NextBlock(blocks, r);
    }
    assert blocks[..|blocks|] == blocks;
  }

  lemma InOrder(nd: seq<nat>, r: nat)
    requires Sorted(nd) && r + 1 < |nd|
    ensures nd[r] <= nd[r + 1]
  {
  }

  /** The arrays with one more element. */
  function WithElement(d: Elements, x: Element): Elements {
    Elements(d.esize + [|x.nodes|], d.eIDs + [x.id], d.etype + [x.etype], d.body + [x.body], d.material + [x.material], d.enodes + x.nodes)
  }

  lemma {:induction false} PrefixKept(s: seq<nat>, n: nat, k: nat)
    requires k <= |s|
    ensures Prefix(s + [n], k) == Prefix(s, k)
  {
    if k > 0 {
      PrefixKept(s, n, k - 1);
    }
  }

  lemma ElementAdded(d: Elements, x: Element)
    requires Valid(d)
    ensures Valid(WithElement(d, x)) && Records(WithElement(d, x)) == Records(d) + [x]
  {
    var e, n := WithElement(d, x), |d.esize|;
    PrefixKept(d.esize, |x.nodes|, n);
    assert Prefix(e.esize, n + 1) == Prefix(e.esize, n) + |x.nodes|;
    forall i | 0 <= i < n
      ensures RecordAt(e, i) == RecordAt(d, i)
    {
      PrefixKept(d.esize, |x.nodes|, i);
      PrefixKept(d.esize, |x.nodes|, i + 1);
      PrefixMonotone(d.esize, i + 1, n);
      assert d.enodes == d.enodes[..] && (d.enodes + x.nodes)[..|d.enodes|] == d.enodes;
    }
    assert RecordAt(e, n) == x;
    hide RecordAt;
  }

  /** Packed elements in a message. */
  ghost predicate PackedFrom(buffer: seq<nat>, start: nat, xs: seq<Element>) {
    start + |Flatten(Packs(xs))| <= |buffer| && buffer[start..start + |Flatten(Packs(xs))|] == Flatten(Packs(xs))
  }

  /** Where element `k` lies, and what is there. */
  lemma PackedElement(buffer: seq<nat>, start: nat, xs: seq<Element>, k: nat)
    requires PackedFrom(buffer, start, xs) && k < |xs|
    ensures var at, x := start + |Flatten(Packs(xs)[..k])|, xs[k];
      && at + 5 + |x.nodes| <= |buffer| && start + |Flatten(Packs(xs)[..k + 1])| == at + 5 + |x.nodes|
      && buffer[at] == |x.nodes| && buffer[at + 1] == x.id && buffer[at + 2] == x.etype && buffer[at + 3] == x.body
      && buffer[at + 4] == x.material && buffer[at + 5..at + 5 + |x.nodes|] == x.nodes
  {
    hide Flatten, Packs, Pack;
    var flat, from, pack := Flatten(Packs(xs)), |Flatten(Packs(xs)[..k])|, Pack(xs[k]);
    PackInPacks(xs, k);
    PackLayout(xs[k]);
    SliceOfSlice(buffer, start, flat, from, from + |pack|);
    WordsAt(buffer, start + from, pack, xs[k]);
  }

  lemma PackInPacks(xs: seq<Element>, k: nat)
    requires k < |xs|
    ensures var flat, from, pack := Flatten(Packs(xs)), |Flatten(Packs(xs)[..k])|, Pack(xs[k]);
      from + |pack| <= |flat| && flat[from..from + |pack|] == pack && |Flatten(Packs(xs)[..k + 1])| == from + |pack|
  {
    hide Flatten, Pack;
    FlatBlock(Packs(xs), k);
  }

  lemma PackLayout(x: Element)
    ensures |Pack(x)| == 5 + |x.nodes| && Pack(x)[5..] == x.nodes
    ensures Pack(x)[0] == |x.nodes| && Pack(x)[1] == x.id && Pack(x)[2] == x.etype && Pack(x)[3] == x.body && Pack(x)[4] == x.material
  {
  }

  lemma SliceOfSlice(buffer: seq<nat>, start: nat, flat: seq<nat>, i: nat, j: nat)
    requires start + |flat| <= |buffer| && buffer[start..start + |flat|] == flat && i <= j <= |flat|
    ensures buffer[start + i..start + j] == flat[i..j]
  {
    var whole, part := buffer[start..start + |flat|], buffer[start + i..start + j];
    forall k | 0 <= k < j - i
      ensures part[k] == whole[i..j][k]
    {
    }
    assert part == whole[i..j];
  }

  lemma WordsAt(buffer: seq<nat>, at: nat, pack: seq<nat>, x: Element)
    requires at + |pack| <= |buffer| && buffer[at..at + |pack|] == pack && |pack| == 5 + |x.nodes| && pack[5..] == x.nodes
    ensures buffer[at] == pack[0] && buffer[at + 1] == pack[1] && buffer[at + 2] == pack[2] && buffer[at + 3] == pack[3]
    ensures buffer[at + 4] == pack[4] && buffer[at + 5..at + 5 + |x.nodes|] == x.nodes
  {
    var s := buffer[at..at + |pack|];
    assert s[0] == buffer[at] && s[1] == buffer[at + 1] && s[2] == buffer[at + 2] && s[3] == buffer[at + 3] && s[4] == buffer[at + 4];
    assert s[5..] == buffer[at + 5..at + |pack|];
  }

  /** Reads the elements of one block. */
  method ReadBlock(buffer: seq<nat>, start: nat, count: nat, before: Elements, ghost xs: seq<Element>) returns (d: Elements, offset: nat)
    requires Valid(before) && count == |xs| && PackedFrom(buffer, start, xs)
    ensures offset == start + |Flatten(Packs(xs))| && Valid(d) && Records(d) == Records(before) + xs
  {
    hide Valid, Records, PackedFrom, Packs, Flatten;
    d, offset := before, start;
    NothingRead(xs);
    assert xs[..0] == [] && Records(before) + [] == Records(before);
    for e := 0 to count
      invariant offset == start + |Flatten(Packs(xs)[..e])| && Valid(d) && Records(d) == Records(before) + xs[..e]
    {
      PackedElement(buffer, start, xs, e);
      ElementAdded(d, xs[e]);
      NextRead(Records(before), xs, e);
      var esize := buffer[offset];
      d := Elements(d.esize + [esize], d.eIDs + [buffer[offset + 1]], d.etype + [buffer[offset + 2]], d.body + [buffer[offset + 3]],
        d.material + [buffer[offset + 4]], d.enodes + buffer[offset + 5..offset + 5 + esize]);
      offset := offset + 5 + esize;
    }
    assert Packs(xs)[..count] == Packs(xs) && xs[..count] == xs;
  }

  lemma NothingRead(xs: seq<Element>)
    ensures Flatten(Packs(xs)[..0]) == []
  {
  }

  lemma NextRead(before: seq<Element>, xs: seq<Element>, e: nat)
    requires e < |xs|
    ensures (before + xs[..e]) + [xs[e]] == before + xs[..e + 1]
  {
  }

  ghost function ArrivedBlocks(me: nat, arrivals: seq<seq<Element>>): (r: seq<seq<nat>>)
    ensures |r| == |arrivals|
  {
    seq(|arrivals|, i requires 0 <= i < |arrivals| => ElementBlock(me, arrivals[i]))
  }

  lemma BlockArrived(buffer: seq<nat>, me: nat, arrivals: seq<seq<Element>>, r: nat)
    requires r < |arrivals| && buffer == Flatten(ArrivedBlocks(me, arrivals))
    ensures var at := |Flatten(ArrivedBlocks(me, arrivals)[..r])|;
      && at + 4 <= |buffer| && buffer[at + 2] == |arrivals[r]| && PackedFrom(buffer, at + 4, arrivals[r])
      && |Flatten(ArrivedBlocks(me, arrivals)[..r + 1])| == at + 4 + |Flatten(Packs(arrivals[r]))|
  {
    hide Flatten, Packs, ArrivedBlocks, NodeCount;
    var blocks := ArrivedBlocks(me, arrivals);
    BlockInMessage(me, arrivals, r);
    var at, block := |Flatten(blocks[..r])|, ElementBlock(me, arrivals[r]);
    SliceOfSlice(buffer, 0, buffer, at, at + |block|);
    BodyOfBlock(buffer, at, block, me, arrivals[r]);
  }

  lemma BlockInMessage(me: nat, arrivals: seq<seq<Element>>, r: nat)
    requires r < |arrivals|
    ensures var flat, at, block := Flatten(ArrivedBlocks(me, arrivals)), |Flatten(ArrivedBlocks(me, arrivals)[..r])|, ElementBlock(me, arrivals[r]);
      at + |block| <= |flat| && flat[at..at + |block|] == block && |Flatten(ArrivedBlocks(me, arrivals)[..r + 1])| == at + |block|
  {
    hide Flatten, ElementBlock;
    FlatBlock(ArrivedBlocks(me, arrivals), r);
  }

  lemma BodyOfBlock(buffer: seq<nat>, at: nat, block: seq<nat>, me: nat, xs: seq<Element>)
    requires block == ElementBlock(me, xs) && at + |block| <= |buffer| && buffer[at..at + |block|] == block
    ensures buffer[at + 2] == |xs| && PackedFrom(buffer, at + 4, xs)
  {
    hide Flatten, Packs, NodeCount;
    assert buffer[at + 2] == buffer[at..at + |block|][2];
    assert buffer[at + 4..at + |block|] == buffer[at..at + |block|][4..] == Flatten(Packs(xs));
  }

  /** Reads the elements of a message, whatever the order of its blocks. */
  method ReadElements(buffer: seq<nat>, processes: nat, ghost me: nat, ghost arrivals: seq<seq<Element>>) returns (d: Elements)
    requires |arrivals| == processes && buffer == Flatten(ArrivedBlocks(me, arrivals))
    ensures Valid(d) && Records(d) == Flatten(arrivals)
  {
    hide Valid, Records, ArrivedBlocks, PackedFrom;
    ghost var blocks := ArrivedBlocks(me, arrivals);
    d := Elements([], [], [], [], [], []);
    NoElements();
    var offset := 0;
    assert blocks[..0] == [] && arrivals[..0] == [];
    for r := 0 to processes
      invariant offset == |Flatten(blocks[..r])| && Valid(d) && Records(d) == Flatten(arrivals[..r])
    {
      BlockArrived(buffer, me, arrivals, r);
      d, offset := ReadBlock(buffer, offset + 4, buffer[offset + 2], d, arrivals[r]);
      assert arrivals[..r + 1][..r] == arrivals[..r] && arrivals[..r + 1] != [];
    }
    assert arrivals[..processes] == arrivals;
  }

  lemma NoElements()
    ensures Valid(Elements([], [], [], [], [], [])) && Records(Elements([], [], [], [], [], [])) == []
  {
  }
}
