/**
 * `SortedInput::fillCoordinates` from the node lists of the elements to the references the
 * elements keep: the nodes of each process are collected from its threads, filled in by their
 * owners, and every element node becomes the position of its node.
 */
module NodeLoading {
  import opened Basis
  import opened MergeTree
  import opened FillCoordinates
  import opened SharedNodes

  /** Some element of the process uses the node. */
  ghost predicate UsesNode(enodes: seq<seq<nat>>, id: nat) {
    exists t :: 0 <= t < |enodes| && id in enodes[t]
  }

  /** All nodes of all threads of all processes lie below the end of the last range. */
  ghost predicate ValidElementNodes(enodes: seq<seq<seq<nat>>>, nd: seq<nat>) {
    && |nd| == |enodes| + 1 && nd[0] == 0 && Sorted(nd)
    && forall p :: 0 <= p < |enodes| ==> enodes[p] != [] && forall id :: UsesNode(enodes[p], id) ==> id < nd[|enodes|]
  }

  /** The nodes of every process: those its elements use, increasing. */
  ghost predicate CollectedAt(enodes: seq<seq<nat>>, used: seq<nat>) {
    Increasing(used) && forall id :: id in used <==> UsesNode(enodes, id)
  }

  method CollectNodes(enodes: seq<seq<seq<nat>>>, nd: seq<nat>) returns (used: seq<seq<nat>>)
    requires ValidElementNodes(enodes, nd)
    ensures |used| == |enodes| && ValidInput(used, nd)
    ensures forall p :: 0 <= p < |used| ==> CollectedAt(enodes[p], used[p])
  {
    used := [];
    for p := 0 to |enodes|
      invariant |used| == p && forall q :: 0 <= q < p ==> CollectedAt(enodes[q], used[q])
    {
      var nodes := SortWithUniqueMerge(enodes[p]);
      used := used + [nodes];
    }
    forall p | 0 <= p < |used|
      ensures Increasing(used[p]) && Dense(used[p], nd[|used|])
    {
      assert CollectedAt(enodes[p], used[p]);
      forall k | 0 <= k < |used[p]|
        ensures used[p][k] < nd[|used|]
      {
        assert used[p][k] in used[p];
      }
    }
  }

  /** Position `r` of the nodes of the process holds element node `n`. */
  ghost predicate RefersTo(ids: seq<nat>, r: nat, id: nat) {
    r < |ids| && ids[r] == id
  }

  /** Every element node becomes its position among the nodes of the process. */
  method Reindex(ids: seq<nat>, nodes: seq<nat>) returns (references: seq<nat>)
    requires Increasing(ids) && forall n :: 0 <= n < |nodes| ==> nodes[n] in ids
    ensures |references| == |nodes| && forall n :: 0 <= n < |nodes| ==> RefersTo(ids, references[n], nodes[n])
  {
    references := [];
    for n := 0 to |nodes|
      invariant |references| == n && forall k :: 0 <= k < n ==> RefersTo(ids, references[k], nodes[k])
    {
      MemberFound(ids, nodes[n]);
      references := references + [LowerBound(ids, nodes[n])];
    }
  }

  lemma MemberFound(ids: seq<nat>, id: nat)
    requires Increasing(ids) && id in ids
    ensures Sorted(ids) && RefersTo(ids, LowerBound(ids, id), id)
  {
    var k :| 0 <= k < |ids| && ids[k] == id;
    assert LowerBound(ids, id) <= k;
  }

  method ReindexThreads(ids: seq<nat>, enodes: seq<seq<nat>>) returns (references: seq<seq<nat>>)
    requires CollectedAt(enodes, ids)
    ensures AllReferTo(ids, enodes, references)
  {
    references := [];
    for t := 0 to |enodes|
      invariant |references| == t
      invariant forall s :: 0 <= s < t ==> |references[s]| == |enodes[s]|
      invariant forall s, n :: 0 <= s < t && 0 <= n < |enodes[s]| ==> RefersTo(ids, references[s][n], enodes[s][n])
    {
      forall n | 0 <= n < |enodes[t]|
        ensures enodes[t][n] in ids
      {
        assert enodes[t][n] in enodes[t] && UsesNode(enodes, enodes[t][n]);
      }
      var moved := Reindex(ids, enodes[t]);
      references := references + [moved];
    }
  }

  /** The references of all threads lead to the nodes the elements had. */
  ghost predicate AllReferTo(ids: seq<nat>, enodes: seq<seq<nat>>, references: seq<seq<nat>>) {
    && |references| == |enodes| && (forall t :: 0 <= t < |enodes| ==> |references[t]| == |enodes[t]|)
    && forall t, n :: 0 <= t < |enodes| && 0 <= n < |enodes[t]| ==> RefersTo(ids, references[t][n], enodes[t][n])
  }

  /** The whole run on all processes, with the nodes `used` by the elements of each. */
  method LoadNodes<C>(enodes: seq<seq<seq<nat>>>, nd: seq<nat>, coordinates: seq<seq<C>>, threads: nat)
    returns (nodes: seq<Nodes<C>>, references: seq<seq<seq<nat>>>, ghost used: seq<seq<nat>>)
    requires ValidElementNodes(enodes, nd) && threads > 0 && |coordinates| == |enodes|
    requires forall p :: 0 <= p < |coordinates| ==> |coordinates[p]| == nd[p + 1] - nd[p]
    ensures |nodes| == |references| == |used| == |enodes|
    ensures forall p :: 0 <= p < |used| ==> CollectedAt(enodes[p], used[p])
    ensures forall p :: 0 <= p < |nodes| ==> Known(used, nd, coordinates, p, nodes[p])
    ensures forall p :: 0 <= p < |nodes| ==> AllReferTo(nodes[p].ids, enodes[p], references[p])
    ensures forall p :: 0 <= p < |nodes| ==> Loaded(enodes, nd, coordinates, p, nodes[p], references[p])
  {
    hide Loaded;
    var lists := CollectNodes(enodes, nd);
    used := lists;
    nodes := FillCoordinatesOfAll(lists, nd, coordinates, threads);
    references := [];
    for p := 0 to |nodes|
      invariant |references| == p && forall q :: 0 <= q < p ==> AllReferTo(nodes[q].ids, enodes[q], references[q])
    {
      assert CollectedAt(enodes[p], used[p]) && Known(used, nd, coordinates, p, nodes[p]);
      var moved := ReindexThreads(nodes[p].ids, enodes[p]);
      references := references + [moved];
    }
    forall p | 0 <= p < |nodes|
      ensures Loaded(enodes, nd, coordinates, p, nodes[p], references[p])
    {
      assert CollectedAt(enodes[p], used[p]) && Known(used, nd, coordinates, p, nodes[p]);
      assert AllReferTo(nodes[p].ids, enodes[p], references[p]);
      KnownIsLoaded(enodes, nd, coordinates, used, p, nodes[p], references[p]);
    }
  }

  /** What a process has loaded, node by node and element node by element node. */
  ghost predicate Loaded<C>(enodes: seq<seq<seq<nat>>>, nd: seq<nat>, coordinates: seq<seq<C>>, p: nat, nodes: Nodes<C>,
      references: seq<seq<nat>>) {
    && p < |enodes| && Increasing(nodes.ids) && |nodes.coordinates| == |nodes.ids|
    && (forall id :: id in nodes.ids <==> exists t :: 0 <= t < |enodes[p]| && id in enodes[p][t])
    && (forall k :: 0 <= k < |nodes.ids| ==> NodeLoaded(enodes, nd, coordinates, nodes, k))
    && |references| == |enodes[p]| && (forall t :: 0 <= t < |references| ==> |references[t]| == |enodes[p][t]|)
    && forall t, n :: 0 <= t < |references| && 0 <= n < |references[t]| ==>
      references[t][n] < |nodes.ids| && nodes.ids[references[t][n]] == enodes[p][t][n]
  }

  /** The coordinates of node `k` from its owner, and the increasing list of the processes whose elements use it. */
  ghost predicate NodeLoaded<C>(enodes: seq<seq<seq<nat>>>, nd: seq<nat>, coordinates: seq<seq<C>>, nodes: Nodes<C>, k: nat)
    requires k < |nodes.ids| == |nodes.coordinates|
  {
    && (forall t, j :: 0 <= t < |coordinates| && t + 1 < |nd| && 0 <= j < |coordinates[t]| && nodes.ids[k] == nd[t] + j ==>
      nodes.coordinates[k] == coordinates[t][j])
    && k + 1 < |nodes.boundaries| && nodes.boundaries[k] <= nodes.boundaries[k + 1] <= |nodes.ranks|
    && Increasing(nodes.ranks[nodes.boundaries[k]..nodes.boundaries[k + 1]])
    && forall q :: q in nodes.ranks[nodes.boundaries[k]..nodes.boundaries[k + 1]] <==>
      0 <= q < |enodes| && exists t :: 0 <= t < |enodes[q]| && nodes.ids[k] in enodes[q][t]
  }

  lemma KnownIsLoaded<C>(enodes: seq<seq<seq<nat>>>, nd: seq<nat>, coordinates: seq<seq<C>>, used: seq<seq<nat>>, p: nat, nodes: Nodes<C>,
      references: seq<seq<nat>>)
    requires |used| == |enodes| == |coordinates| && |nd| == |enodes| + 1 && Sorted(nd) && p < |used|
    requires forall q :: 0 <= q < |used| ==> CollectedAt(enodes[q], used[q])
    requires forall q :: 0 <= q < |coordinates| ==> |coordinates[q]| == nd[q + 1] - nd[q]
    requires Known(used, nd, coordinates, p, nodes) && AllReferTo(nodes.ids, enodes[p], references)
    ensures Loaded(enodes, nd, coordinates, p, nodes, references)
  {
    assert CollectedAt(enodes[p], used[p]);
    forall k | 0 <= k < |nodes.ids|
      ensures |nodes.coordinates| == |nodes.ids| && NodeLoaded(enodes, nd, coordinates, nodes, k)
    {
      NodeIsLoaded(enodes, nd, coordinates, used, p, nodes, k);
    }
  }

  lemma NodeIsLoaded<C>(enodes: seq<seq<seq<nat>>>, nd: seq<nat>, coordinates: seq<seq<C>>, used: seq<seq<nat>>, p: nat, nodes: Nodes<C>, k: nat)
    requires |used| == |enodes| == |coordinates| && |nd| == |enodes| + 1 && Sorted(nd) && p < |used|
    requires forall q :: 0 <= q < |used| ==> CollectedAt(enodes[q], used[q])
    requires forall q :: 0 <= q < |coordinates| ==> |coordinates[q]| == nd[q + 1] - nd[q]
    requires Known(used, nd, coordinates, p, nodes) && k < |nodes.ids|
    ensures |nodes.coordinates| == |nodes.ids| && NodeLoaded(enodes, nd, coordinates, nodes, k)
  {
    RanksAreUsers(used, nd, coordinates, p, nodes, k);
    assert |nodes.coordinates| == |nodes.ids|;
    hide Known, Sorted;
    forall t, j | 0 <= t < |coordinates| && t + 1 < |nd| && 0 <= j < |coordinates[t]| && nodes.ids[k] == nd[t] + j
      ensures nodes.coordinates[k] == coordinates[t][j]
    {
      CoordinatesAreOwners(used, nd, coordinates, p, nodes, k, t, j);
    }
    forall q | 0 <= q < |enodes|
      ensures nodes.ids[k] in used[q] <==> exists t :: 0 <= t < |enodes[q]| && nodes.ids[k] in enodes[q][t]
    {
      assert CollectedAt(enodes[q], used[q]);
    }
  }
}
