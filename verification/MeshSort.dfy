/** `Input::sortNodes` and `Input::sortElements`: all arrays of the mesh permuted together. */
module MeshSort {
  import opened Basis
  import opened BlockExchange
  import opened Conservation
  import opened ElementExchange
  import opened Esutils
  import opened GroupPermute

  /** `Esutils::permute` with one value per place. */
  method Permute<T>(data: seq<T>, p: seq<nat>) returns (r: seq<T>)
    requires |p| == |data| && forall i :: 0 <= i < |p| ==> p[i] < |data|
    ensures r == Permuted(data, p)
  {
    r := data;
    for i := 0 to |data|
      invariant |r| == |data| && forall j :: 0 <= j < i ==> r[j] == data[p[j]]
    {
      r := r[i := data[p[i]]];
    }
  }

  /** Sizes in another order have the same sum. */
  lemma {:induction false} SumPermuted(s: seq<nat>, p: seq<nat>)
    requires IsPermutation(p, |s|) && forall i :: 0 <= i < |p| ==> p[i] < |s|
    ensures Prefix(Permuted(s, p), |p|) == Prefix(s, |s|)
    decreases |s|
  {
    hide IsPermutation;
    PermutationLength(p, |s|);
    if s != [] {
      var n := |s|;
      var k := WithoutLast(p, n);
      var q, init := p[..k] + p[k + 1..], s[..n - 1];
      PlacesBelow(q, n - 1);
      PermutationLength(q, n - 1);
      SumPermuted(init, q);
      SumWithout(Permuted(s, p), k);
      SumWithout(s, n - 1);
      assert Permuted(s, p)[..k] + Permuted(s, p)[k + 1..] == Permuted(init, q);
      assert s[..n - 1] + s[n..] == init;
    }
  }

  lemma {:induction false} SumAppend(a: seq<nat>, b: seq<nat>)
    ensures Prefix(a + b, |a + b|) == Prefix(a, |a|) + Prefix(b, |b|)
  {
    if b == [] {
      assert a + b == a;
    } else {
      var init := b[..|b| - 1];
      SplitLast(b);
      SumAppend(a, init);
      ConcatAssociative(a, init, [b[|b| - 1]]);
      PrefixOfFirst(a + init, [b[|b| - 1]], |a + init|);
      PrefixOfFirst(init, [b[|b| - 1]], |init|);
    }
  }

  lemma {:induction false} PrefixOfFirst(a: seq<nat>, b: seq<nat>, k: nat)
    requires k <= |a|
    ensures Prefix(a + b, k) == Prefix(a, k)
  {
    if k > 0 {
      PrefixOfFirst(a, b, k - 1);
    }
  }

  lemma SumWithout(s: seq<nat>, k: nat)
    requires k < |s|
    ensures Prefix(s, |s|) == Prefix(s[..k] + s[k + 1..], |s| - 1) + s[k]
  {
    hide Prefix;
    SumOne(s[k]);
    assert s == s[..k] + ([s[k]] + s[k + 1..]);
    SumAppend(s[..k], [s[k]] + s[k + 1..]);
    SumAppend([s[k]], s[k + 1..]);
    SumAppend(s[..k], s[k + 1..]);
  }

  lemma SumOne(x: nat)
    ensures Prefix([x], 1) == x
  {
    assert Prefix([x], 1) == Prefix([x], 0) + x;
  }

  /** Rows of different lengths: row `i` is `data[dist[i]..dist[i + 1]]`. */
  ghost predicate Rows(dist: seq<nat>, n: nat, size: nat) {
    |dist| == n + 1 && dist[0] == 0 && dist[n] == size && Sorted(dist)
  }

  /** The length of row `p[i]`. */
  ghost predicate SizesOfRows(dist: seq<nat>, p: seq<nat>, sizes: seq<nat>) {
    |sizes| == |p| && forall i :: 0 <= i < |p| ==> p[i] + 1 < |dist| && dist[p[i]] + sizes[i] == dist[p[i] + 1]
  }

  function Run(start: nat, n: nat): (r: seq<nat>)
    ensures |r| == n
  {
    seq(n, k => start + k)
  }

  /** The places that the values of the first `upto` permuted rows come from. */
  ghost predicate RowsFrom(dist: seq<nat>, p: seq<nat>, sizes: seq<nat>, from: seq<nat>, upto: nat)
    requires upto <= |p| == |sizes|
  {
    |from| == Prefix(sizes, upto) && forall i :: 0 <= i < upto ==> RowFrom(dist, p, sizes, from, i)
  }

  ghost predicate RowFrom(dist: seq<nat>, p: seq<nat>, sizes: seq<nat>, from: seq<nat>, i: nat)
    requires i < |p| == |sizes|
  {
    && p[i] < |dist| && Prefix(sizes, i) + sizes[i] <= |from|
    && from[Prefix(sizes, i)..Prefix(sizes, i) + sizes[i]] == Run(dist[p[i]], sizes[i])
  }

  /** Lists the values of the permuted rows, row by row. */
  method RowPositions(dist: seq<nat>, p: seq<nat>, sizes: seq<nat>) returns (from: seq<nat>)
    requires SizesOfRows(dist, p, sizes)
    ensures RowsFrom(dist, p, sizes, from, |p|)
  {
    from := [];
    for i := 0 to |p|
      invariant RowsFrom(dist, p, sizes, from, i)
    {
      ghost var before := from;
      for n := 0 to sizes[i]
        invariant from == before + Run(dist[p[i]], n)
      {
        from := from + [dist[p[i]] + n];
      }
      forall j | 0 <= j < i + 1
        ensures RowFrom(dist, p, sizes, from, j)
      {
        if j < i {
          assert RowFrom(dist, p, sizes, before, j);
          PrefixMonotone(sizes, j + 1, i);
        }
      }
    }
  }

  lemma {:induction false} SizesFromRows(dist: seq<nat>, n: nat, size: nat, lengths: seq<nat>, k: nat)
    requires Rows(dist, n, size) && |lengths| == n && (forall i :: 0 <= i < n ==> dist[i] + lengths[i] == dist[i + 1]) && k <= n
    ensures Prefix(lengths, k) == dist[k]
  {
    if k > 0 {
      SizesFromRows(dist, n, size, lengths, k - 1);
    }
  }

  /** The permuted rows fill exactly the same space. */
  lemma RowsFill(dist: seq<nat>, p: seq<nat>, size: nat, sizes: seq<nat>)
    requires Rows(dist, |p|, size) && IsPermutation(p, |p|) && SizesOfRows(dist, p, sizes)
    ensures Prefix(sizes, |p|) == size
  {
    hide IsPermutation, Prefix;
    var n := |p|;
    var lengths := seq(n, i requires 0 <= i < n => dist[i + 1] - dist[i]);
    SizesFromRows(dist, n, size, lengths, n);
    PlacesBelow(p, n);
    hide Rows, Sorted;
    SumPermuted(lengths, p);
    forall i | 0 <= i < n
      ensures Permuted(lengths, p)[i] == sizes[i]
    {
    }
    assert Permuted(lengths, p) == sizes;
  }

  lemma RowBounds(dist: seq<nat>, n: nat, size: nat, i: nat)
    requires Rows(dist, n, size) && i < n
    ensures dist[i] <= dist[i + 1] <= size
  {
  }

  /** All places lie in the data. */
  lemma PlacesInData(dist: seq<nat>, p: seq<nat>, size: nat, sizes: seq<nat>, from: seq<nat>)
    requires Rows(dist, |p|, size) && IsPermutation(p, |p|) && SizesOfRows(dist, p, sizes) && RowsFrom(dist, p, sizes, from, |p|)
    ensures |from| == size && forall k :: 0 <= k < |from| ==> from[k] < size
  {
    RowsFill(dist, p, size, sizes);
    forall k | 0 <= k < |from|
      ensures from[k] < size
    {
      var i := PrefixCovers(sizes, k, |p|);
      assert RowFrom(dist, p, sizes, from, i);
      assert from[k] == from[Prefix(sizes, i)..Prefix(sizes, i) + sizes[i]][k - Prefix(sizes, i)];
      RowBounds(dist, |p|, size, p[i]);
    }
  }

  /** Row `i` of the permuted data is row `p[i]` of the data. */
  lemma RowMoved<T>(data: seq<T>, dist: seq<nat>, p: seq<nat>, sizes: seq<nat>, from: seq<nat>, i: nat)
    requires Rows(dist, |p|, |data|) && IsPermutation(p, |p|) && SizesOfRows(dist, p, sizes) && RowsFrom(dist, p, sizes, from, |p|)
    requires (forall k :: 0 <= k < |from| ==> from[k] < |data|) && i < |p|
    ensures p[i] + 1 < |dist| && dist[p[i]] <= dist[p[i] + 1] <= |data| && Prefix(sizes, i) + sizes[i] <= |from|
    ensures Permuted(data, from)[Prefix(sizes, i)..Prefix(sizes, i) + sizes[i]] == data[dist[p[i]]..dist[p[i] + 1]]
  {
    hide Prefix, IsPermutation, Rows;
    assert RowFrom(dist, p, sizes, from, i);
    PlacesBelow(p, |p|);
    RowBounds(dist, |p|, |data|, p[i]);
    RunMoved(data, from, Prefix(sizes, i), dist[p[i]], sizes[i]);
  }

  lemma RunMoved<T>(data: seq<T>, from: seq<nat>, at: nat, start: nat, n: nat)
    requires (forall k :: 0 <= k < |from| ==> from[k] < |data|) && at + n <= |from| && start + n <= |data|
    requires from[at..at + n] == Run(start, n)
    ensures Permuted(data, from)[at..at + n] == data[start..start + n]
  {
    var moved, row := Permuted(data, from)[at..at + n], data[start..start + n];
    forall k | 0 <= k < n
      ensures moved[k] == row[k]
    {
      assert from[at..at + n][k] == Run(start, n)[k];
    }
    assert moved == row;
  }

  /** The begins of the node lists of the elements. */
  ghost predicate RowStarts(d: Elements, edist: seq<nat>) {
    |edist| == |d.esize| + 1 && forall j :: 0 <= j <= |d.esize| ==> edist[j] == Prefix(d.esize, j)
  }

  /**
   * `sortElements`: every array follows the permutation, the node lists row by row, the `regsize`
   * words of region bits of an element together. Stored row starts are used up, else computed.
   */
  method SortElements(d: Elements, p: seq<nat>, stored: seq<nat>, regions: seq<nat>, regsize: nat) returns (s: Elements, bits: seq<nat>)
    requires Valid(d) && IsPermutation(p, |d.esize|) && forall i :: 0 <= i < |p| ==> p[i] < |d.esize|
    requires (stored == [] || RowStarts(d, stored)) && Grouped(regions, regsize, |d.esize|)
    ensures Valid(s) && Records(s) == Permuted(Records(d), p)
    ensures GroupsMoved(regions, bits, p, regsize)
  {
    PermutationLength(p, |d.esize|);
    var edist := stored;
    if |edist| == 0 {
      edist := RunningSums(d.esize);
    }
    bits := PermuteGroups(regions, p, regsize);
    s := MoveElements(d, p, edist);
  }

  method MoveElements(d: Elements, p: seq<nat>, edist: seq<nat>) returns (s: Elements)
    requires Valid(d) && IsPermutation(p, |d.esize|) && forall i :: 0 <= i < |p| ==> p[i] < |d.esize|
    requires RowStarts(d, edist)
    ensures Valid(s) && Records(s) == Permuted(Records(d), p)
  {
    DistIsRows(d, edist);
    var eIDs := Permute(d.eIDs, p);
    var esize := Permute(d.esize, p);
    var body := Permute(d.body, p);
    var etype := Permute(d.etype, p);
    var material := Permute(d.material, p);
    var npermutation := RowPositions(edist, p, esize);
    PlacesInData(edist, p, |d.enodes|, esize, npermutation);
    var enodes := Permute(d.enodes, npermutation);
    s := Elements(esize, eIDs, etype, body, material, enodes);
    ElementsMoved(d, p, edist, npermutation, s);
  }

  lemma DistIsRows(d: Elements, edist: seq<nat>)
    requires Valid(d) && |edist| == |d.esize| + 1 && forall j :: 0 <= j <= |d.esize| ==> edist[j] == Prefix(d.esize, j)
    ensures Rows(edist, |d.esize|, |d.enodes|)
  {
    forall i, j | 0 <= i < j < |edist|
      ensures edist[i] <= edist[j]
    {
      PrefixMonotone(d.esize, i, j);
    }
  }

  lemma ElementsMoved(d: Elements, p: seq<nat>, edist: seq<nat>, from: seq<nat>, s: Elements)
    requires Valid(d) && IsPermutation(p, |d.esize|) && (forall i :: 0 <= i < |p| ==> p[i] < |d.esize|)
    requires |edist| == |d.esize| + 1 && (forall j :: 0 <= j <= |d.esize| ==> edist[j] == Prefix(d.esize, j)) && Rows(edist, |p|, |d.enodes|)
    requires SizesOfRows(edist, p, Permuted(d.esize, p)) && RowsFrom(edist, p, Permuted(d.esize, p), from, |p|)
    requires |from| == |d.enodes| && forall k :: 0 <= k < |from| ==> from[k] < |d.enodes|
    requires s == Elements(Permuted(d.esize, p), Permuted(d.eIDs, p), Permuted(d.etype, p), Permuted(d.body, p), Permuted(d.material, p),
      Permuted(d.enodes, from))
    ensures Valid(s) && Records(s) == Permuted(Records(d), p)
  {
    hide IsPermutation, Rows, SizesOfRows, RowsFrom, Prefix;
    PlacesInSizes(d, p, edist, from);
    forall i | 0 <= i < |p|
      ensures RecordAt(s, i) == RecordAt(d, p[i])
    {
      ElementMoved(d, p, edist, from, s, i);
    }
    hide RecordAt;
  }

  lemma PlacesInSizes(d: Elements, p: seq<nat>, edist: seq<nat>, from: seq<nat>)
    requires Valid(d) && IsPermutation(p, |d.esize|) && (forall i :: 0 <= i < |p| ==> p[i] < |d.esize|)
    requires RowsFrom(edist, p, Permuted(d.esize, p), from, |p|) && |from| == |d.enodes|
    ensures |p| == |d.esize| && Prefix(Permuted(d.esize, p), |p|) == |d.enodes|
  {
  }

  lemma ElementMoved(d: Elements, p: seq<nat>, edist: seq<nat>, from: seq<nat>, s: Elements, i: nat)
    requires Valid(d) && Valid(s) && IsPermutation(p, |d.esize|) && (forall i :: 0 <= i < |p| ==> p[i] < |d.esize|)
    requires |edist| == |d.esize| + 1 && (forall j :: 0 <= j <= |d.esize| ==> edist[j] == Prefix(d.esize, j)) && Rows(edist, |p|, |d.enodes|)
    requires SizesOfRows(edist, p, Permuted(d.esize, p)) && RowsFrom(edist, p, Permuted(d.esize, p), from, |p|)
    requires |from| == |d.enodes| && forall k :: 0 <= k < |from| ==> from[k] < |d.enodes|
    requires s == Elements(Permuted(d.esize, p), Permuted(d.eIDs, p), Permuted(d.etype, p), Permuted(d.body, p), Permuted(d.material, p),
      Permuted(d.enodes, from))
    requires i < |p|
    ensures |p| == |d.esize| && RecordAt(s, i) == RecordAt(d, p[i])
  {
    PermutationLength(p, |d.esize|);
    hide IsPermutation, Rows, SizesOfRows, RowsFrom;
    RowMoved(d.enodes, edist, p, s.esize, from, i);
  }

  /** Ids, coordinates and rank lists of the nodes of a process. */
  datatype NodeData<C> = NodeData(ids: seq<nat>, coordinates: seq<C>, ranks: seq<nat>, rankDist: seq<nat>)

  /** Rank lists are optional. */
  ghost predicate ValidNodes<C>(d: NodeData<C>) {
    |d.coordinates| == |d.ids| && (d.ranks != [] ==> Rows(d.rankDist, |d.ids|, |d.ranks|))
  }

  ghost function RankList<C>(d: NodeData<C>, n: nat): seq<nat>
    requires ValidNodes(d) && n < |d.ids|
  {
    if d.ranks == [] then [] else
      RowBounds(d.rankDist, |d.ids|, |d.ranks|, n);
      d.ranks[d.rankDist[n]..d.rankDist[n + 1]]
  }

  /** The rank list of node `n`, rank by rank. */
  lemma RankListAt<C>(d: NodeData<C>, n: nat)
    requires ValidNodes(d) && n < |d.ids| && d.ranks != []
    ensures |RankList(d, n)| == d.rankDist[n + 1] - d.rankDist[n]
    ensures forall j :: 0 <= j < |RankList(d, n)| ==> d.rankDist[n] + j < |d.ranks| && RankList(d, n)[j] == d.ranks[d.rankDist[n] + j]
  {
    RowBounds(d.rankDist, |d.ids|, |d.ranks|, n);
  }

  /** Node `m` of `a` and node `n` of `b` are the same. */
  ghost predicate SameNode<C>(a: NodeData<C>, m: nat, b: NodeData<C>, n: nat)
    requires ValidNodes(a) && ValidNodes(b)
  {
    && m < |a.ids| && n < |b.ids| && a.ids[m] == b.ids[n] && a.coordinates[m] == b.coordinates[n]
    && RankList(a, m) == RankList(b, n)
  }

  lemma {:induction false} SortedSame(a: seq<nat>, b: seq<nat>)
    requires Sorted(a) && Sorted(b) && multiset(a) == multiset(b)
    ensures a == b
  {
    SameSize(a, b);
    if a != [] {
      var l := |a| - 1;
      LastIsMax(a, b);
      LastIsMax(b, a);
      SplitLast(a);
      SplitLast(b);
      assert multiset(a[..l]) == multiset(a) - multiset{a[l]};
      assert multiset(b[..l]) == multiset(b) - multiset{b[l]};
      SortedInit(a);
      SortedInit(b);
      SortedSame(a[..l], b[..l]);
    }
  }

  lemma SameSize(a: seq<nat>, b: seq<nat>)
    requires multiset(a) == multiset(b)
    ensures |a| == |b|
  {
    assert |multiset(a)| == |a| && |multiset(b)| == |b|;
  }

  lemma LastIsMax(a: seq<nat>, b: seq<nat>)
    requires Sorted(b) && multiset(a) == multiset(b) && a != [] && b != []
    ensures a[|a| - 1] <= b[|b| - 1]
  {
    assert a[|a| - 1] in multiset(b);
    var k :| 0 <= k < |b| && b[k] == a[|a| - 1];
  }

  /** Sorting the ids alone gives what the permutation gives. */
  lemma IdsFollow(ids: seq<nat>, p: seq<nat>)
    requires IsPermutation(p, |ids|) && (forall i :: 0 <= i < |p| ==> p[i] < |ids|) && OrderedBy(ids, p)
    ensures SortOf(ids) == Permuted(ids, p)
  {
    SortOfSorted(ids);
    SortKeepsAll(ids);
    PermutedMultiset(ids, p);
    SortedSame(SortOf(ids), Permuted(ids, p));
  }

  /**
   * `sortNodes`: the nodes by id, with their coordinates, rank lists and region bits, and the references of the
   * elements to them. Node `i` afterwards is node `p[i]` before.
   */
  method SortNodes<C>(d: NodeData<C>, enodes: seq<nat>, regions: seq<nat>, regsize: nat, withElementNodes: bool)
    returns (s: NodeData<C>, references: seq<nat>, bits: seq<nat>, ghost p: seq<nat>)
    requires Grouped(regions, regsize, |d.ids|)
    requires ValidNodes(d) && forall n :: 0 <= n < |enodes| ==> enodes[n] < |d.ids|
    ensures ValidNodes(s) && Sorted(s.ids) && |s.ids| == |d.ids| && IsPermutation(p, |d.ids|)
    ensures forall i :: 0 <= i < |p| ==> SameNode(s, i, d, p[i])
    ensures GroupsMoved(regions, bits, p, regsize)
    ensures |references| == |enodes| && (!withElementNodes ==> references == enodes)
    ensures withElementNodes ==> forall n :: 0 <= n < |enodes| ==> SameNode(s, references[n], d, enodes[n])
  {
    var sorted := IsSorted(d.ids);
    if sorted {
      p := RanksInOrder(|d.ids|);
      PermutationLength(p, |d.ids|);
      GroupsStay(regions, p, regsize);
      return d, enodes, regions, p;
    }
    var permutation := SortedPermutation(d.ids);
    p := permutation;
    PlacesBelow(p, |d.ids|);
    PermutationLength(p, |d.ids|);
    s := PermuteNodes(d, permutation);
    bits := PermuteGroups(regions, permutation, regsize);
    references := enodes;
    if withElementNodes {
      var back := SortedPermutation(permutation);
      PlacesBelow(back, |p|);
      references := seq(|enodes|, n requires 0 <= n < |enodes| => back[enodes[n]]);
      forall n | 0 <= n < |enodes|
        ensures SameNode(s, references[n], d, enodes[n])
      {
        SourceAt(p, back, enodes[n]);
        assert SameNode(s, back[enodes[n]], d, p[back[enodes[n]]]);
      }
    }
  }

  method IsSorted(ids: seq<nat>) returns (sorted: bool)
    ensures sorted <==> Sorted(ids)
  {
    var i := 1;
    while i < |ids|
      invariant 0 < i && (i <= |ids| ==> Sorted(ids[..i]))
      invariant i > |ids| ==> ids == []
    {
      if ids[i - 1] > ids[i] {
        return false;
      }
      i := i + 1;
    }
    assert ids[..|ids|] == ids;
    return true;
  }

  /** All node arrays follow the permutation. */
  method PermuteNodes<C>(d: NodeData<C>, p: seq<nat>) returns (s: NodeData<C>)
    requires ValidNodes(d) && IsPermutation(p, |d.ids|) && (forall i :: 0 <= i < |p| ==> p[i] < |d.ids|) && OrderedBy(d.ids, p)
    ensures ValidNodes(s) && Sorted(s.ids) && |s.ids| == |d.ids| && multiset(s.ids) == multiset(d.ids)
    ensures forall i :: 0 <= i < |p| ==> SameNode(s, i, d, p[i])
  {
    hide IsPermutation, OrderedBy, SortOf, ValidNodes, Sorted;
    NodeSizes(d);
    PermutationLength(p, |d.ids|);
    var coordinates := Permute(d.coordinates, p);
    IdsFollow(d.ids, p);
    SortOfSorted(d.ids);
    PermutedMultiset(d.ids, p);
    if d.ranks == [] {
      s := NodeData(SortOf(d.ids), coordinates, d.ranks, d.rankDist);
      NoRanksMoved(d, p, s);
    } else {
      var ranks, rankDist;
      ghost var sizes, from;
      ranks, rankDist, sizes, from := PermuteRanks(d.ranks, d.rankDist, p);
      s := NodeData(SortOf(d.ids), coordinates, ranks, rankDist);
      NodesMoved(d, p, sizes, from, s);
    }
  }

  lemma NodeSizes<C>(d: NodeData<C>)
    requires ValidNodes(d)
    ensures |d.coordinates| == |d.ids| && (d.ranks != [] ==> Rows(d.rankDist, |d.ids|, |d.ranks|))
  {
  }

  lemma NoRanksMoved<C>(d: NodeData<C>, p: seq<nat>, s: NodeData<C>)
    requires ValidNodes(d) && d.ranks == [] && |p| == |d.ids| && forall i :: 0 <= i < |p| ==> p[i] < |d.ids|
    requires s.ids == Permuted(d.ids, p) && s.coordinates == Permuted(d.coordinates, p) && s.ranks == []
    ensures ValidNodes(s) && forall i :: 0 <= i < |p| ==> SameNode(s, i, d, p[i])
  {
  }

  /** The rank lists follow the permutation row by row. */
  method PermuteRanks(ranks: seq<nat>, dist: seq<nat>, p: seq<nat>)
    returns (moved: seq<nat>, rankDist: seq<nat>, ghost sizes: seq<nat>, ghost from: seq<nat>)
    requires Rows(dist, |p|, |ranks|) && IsPermutation(p, |p|) && forall i :: 0 <= i < |p| ==> p[i] < |p|
    ensures SizesOfRows(dist, p, sizes) && RowsFrom(dist, p, sizes, from, |p|)
    ensures |from| == |ranks| && (forall k :: 0 <= k < |from| ==> from[k] < |ranks|) && moved == Permuted(ranks, from)
    ensures |rankDist| == |p| + 1 && forall j :: 0 <= j <= |p| ==> rankDist[j] == Prefix(sizes, j)
  {
    hide IsPermutation, RowsFrom;
    var lengths := seq(|p|, i requires 0 <= i < |p| => RowBounds(dist, |p|, |ranks|, p[i]); dist[p[i] + 1] - dist[p[i]]);
    sizes := lengths;
    rankDist := RunningSums(lengths);
    var npermutation := RowPositions(dist, p, lengths);
    from := npermutation;
    PlacesInData(dist, p, |ranks|, lengths, npermutation);
    moved := Permute(ranks, npermutation);
  }

  lemma NodesMoved<C>(d: NodeData<C>, p: seq<nat>, sizes: seq<nat>, from: seq<nat>, s: NodeData<C>)
    requires ValidNodes(d) && d.ranks != [] && IsPermutation(p, |d.ids|) && (forall i :: 0 <= i < |p| ==> p[i] < |d.ids|)
    requires SizesOfRows(d.rankDist, p, sizes) && RowsFrom(d.rankDist, p, sizes, from, |p|)
    requires |from| == |d.ranks| && forall k :: 0 <= k < |from| ==> from[k] < |d.ranks|
    requires s.ids == Permuted(d.ids, p) && s.coordinates == Permuted(d.coordinates, p) && s.ranks == Permuted(d.ranks, from)
    requires |s.rankDist| == |p| + 1 && forall j :: 0 <= j <= |p| ==> s.rankDist[j] == Prefix(sizes, j)
    ensures ValidNodes(s) && forall i :: 0 <= i < |p| ==> SameNode(s, i, d, p[i])
  {
    hide IsPermutation, ValidNodes, SameNode;
    RanksStayRows(d, p, sizes, from, s);
    forall i | 0 <= i < |p|
      ensures SameNode(s, i, d, p[i])
    {
      NodeMoved(d, p, sizes, from, s, i);
    }
  }

  lemma RanksStayRows<C>(d: NodeData<C>, p: seq<nat>, sizes: seq<nat>, from: seq<nat>, s: NodeData<C>)
    requires ValidNodes(d) && d.ranks != [] && IsPermutation(p, |d.ids|) && (forall i :: 0 <= i < |p| ==> p[i] < |d.ids|)
    requires SizesOfRows(d.rankDist, p, sizes)
    requires |from| == |d.ranks| && forall k :: 0 <= k < |from| ==> from[k] < |d.ranks|
    requires s.ids == Permuted(d.ids, p) && s.coordinates == Permuted(d.coordinates, p) && s.ranks == Permuted(d.ranks, from)
    requires |s.rankDist| == |p| + 1 && forall j :: 0 <= j <= |p| ==> s.rankDist[j] == Prefix(sizes, j)
    ensures ValidNodes(s)
  {
    PermutationLength(p, |d.ids|);
    hide IsPermutation;
    RowsFill(d.rankDist, p, |d.ranks|, sizes);
    forall i, j | 0 <= i < j <= |p|
      ensures s.rankDist[i] <= s.rankDist[j]
    {
      PrefixMonotone(sizes, i, j);
    }
  }

  lemma NodeMoved<C>(d: NodeData<C>, p: seq<nat>, sizes: seq<nat>, from: seq<nat>, s: NodeData<C>, i: nat)
    requires ValidNodes(d) && ValidNodes(s) && d.ranks != [] && IsPermutation(p, |d.ids|) && (forall i :: 0 <= i < |p| ==> p[i] < |d.ids|)
    requires SizesOfRows(d.rankDist, p, sizes) && RowsFrom(d.rankDist, p, sizes, from, |p|)
    requires |from| == |d.ranks| && forall k :: 0 <= k < |from| ==> from[k] < |d.ranks|
    requires s.ids == Permuted(d.ids, p) && s.coordinates == Permuted(d.coordinates, p) && s.ranks == Permuted(d.ranks, from)
    requires |s.rankDist| == |p| + 1 && forall j :: 0 <= j <= |p| ==> s.rankDist[j] == Prefix(sizes, j)
    requires i < |p|
    ensures SameNode(s, i, d, p[i])
  {
    PermutationLength(p, |d.ids|);
    hide IsPermutation, RowsFrom, Prefix;
    RowMoved(d.ranks, d.rankDist, p, sizes, from, i);
  }
}
