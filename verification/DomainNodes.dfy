/**
 * The node intervals of a domain as the assembly of its matrices numbers them, built from the
 * intervals its process lists: the columns of `B1` are degrees of freedom of the same numbering.
 */
module DomainNodes {
  import opened Basis
  import opened Decomposition
  import opened SlotNumbering
  import opened Gluing
  import opened Numbering
  import opened GluingWalk
  import opened DofNumbering

  /** Number of nodes of the k-th interval process `p` lists. */
  function ListedSize(m: Mesh, p: nat, k: nat): nat
    requires p < Processes(m) && k < |m.order[p]|
  {
    if m.order[p][k] < |m.intervals| then m.intervals[m.order[p][k]].size else 0
  }

  /** The local node numbers of the listed intervals follow each other. */
  ghost predicate NumberedInOrder(m: Mesh, p: nat, begins: seq<nat>) {
    && p < Processes(m) && |m.order[p]| <= |begins|
    && forall k, l :: 0 <= k < l < |m.order[p]| ==> begins[k] + ListedSize(m, p, k) <= begins[l]
  }

  /** The loop that numbers the nodes of a process interval by interval. */
  method NumberNodes(m: Mesh, p: nat) returns (begins: seq<nat>)
    requires p < Processes(m)
    ensures |begins| == |m.order[p]| && NumberedInOrder(m, p, begins) && (begins != [] ==> begins[0] == 0)
    ensures forall k, l :: 0 <= k && l == k + 1 < |begins| ==> begins[l] == begins[k] + ListedSize(m, p, k)
  {
    begins := [];
    var ioffset := 0;
    for i := 0 to |m.order[p]|
      invariant |begins| == i && (if i == 0 then ioffset == 0 else begins[0] == 0)
      invariant forall k :: 0 <= k < i ==> begins[k] + ListedSize(m, p, k) <= ioffset
      invariant forall k, l :: 0 <= k < l < i ==> begins[k] + ListedSize(m, p, k) <= begins[l]
      invariant forall k, l :: 0 <= k && l == k + 1 < i ==> begins[l] == begins[k] + ListedSize(m, p, k)
      invariant i > 0 ==> ioffset == begins[i - 1] + ListedSize(m, p, i - 1)
    {
      begins := begins + [ioffset];
      ioffset := ioffset + ListedSize(m, p, i);
    }
  }

  /** The `dintervals` of domain `d` among the first `k` listed intervals. */
  ghost function DomainIntervals(m: Mesh, p: nat, d: nat, begins: seq<nat>, k: nat): seq<NodeInterval>
    requires p < Processes(m) && k <= |m.order[p]| <= |begins|
  {
    if k == 0 then [] else
      var before := DomainIntervals(m, p, d, begins, k - 1);
      if HasInterval(m, p, d, k - 1) then before + [NodeInterval(begins[k - 1], begins[k - 1] + ListedSize(m, p, k - 1), Count(before))]
      else before
  }

  ghost predicate EndsBy(its: seq<NodeInterval>, x: int) {
    forall e :: 0 <= e < |its| ==> its[e].end <= x
  }

  lemma ValidAppend(its: seq<NodeInterval>, it: NodeInterval)
    requires ValidIntervals(its) && it.begin <= it.end && it.offset == Count(its)
    requires EndsBy(its, it.begin)
    ensures ValidIntervals(its + [it]) && Count(its + [it]) == Count(its) + Length(it)
  {
  }

  lemma SizesNext(m: Mesh, p: nat, d: nat, k: nat)
    requires p < Processes(m) && 0 < k <= |m.order[p]|
    ensures Prefix(SizesOfDomain(m, p, d), k) == Prefix(SizesOfDomain(m, p, d), k - 1) +
      if HasInterval(m, p, d, k - 1) then ListedSize(m, p, k - 1) else 0
  {
  }

  lemma {:induction false} IntervalsBelow(m: Mesh, p: nat, d: nat, begins: seq<nat>, k: nat, l: nat)
    requires NumberedInOrder(m, p, begins) && k <= l < |m.order[p]|
    ensures EndsBy(DomainIntervals(m, p, d, begins, k), begins[l])
  {
    hide HasInterval, ListedSize;
    if k > 0 {
      IntervalsBelow(m, p, d, begins, k - 1, l);
    }
  }

  lemma IntervalsNext(m: Mesh, p: nat, d: nat, begins: seq<nat>, k: nat)
    requires NumberedInOrder(m, p, begins) && 0 < k <= |m.order[p]|
    ensures DomainIntervals(m, p, d, begins, k) ==
      var before := DomainIntervals(m, p, d, begins, k - 1);
      if HasInterval(m, p, d, k - 1) then before + [NodeInterval(begins[k - 1], begins[k - 1] + ListedSize(m, p, k - 1), Count(before))]
      else before
    ensures 0 < k <= |begins| && p < Processes(m)
  {
  }

  ghost predicate CountsNodes(m: Mesh, p: nat, d: nat, begins: seq<nat>, k: nat)
    requires NumberedInOrder(m, p, begins) && k <= |m.order[p]|
  {
    var its := DomainIntervals(m, p, d, begins, k);
    ValidIntervals(its) && Count(its) == Prefix(SizesOfDomain(m, p, d), k)
  }

  lemma IntervalCounted(m: Mesh, p: nat, d: nat, begins: seq<nat>, k: nat)
    requires NumberedInOrder(m, p, begins) && 0 < k <= |m.order[p]| && CountsNodes(m, p, d, begins, k - 1)
    ensures CountsNodes(m, p, d, begins, k)
  {
    hide ValidIntervals, Count, SizesOfDomain, Prefix, HasInterval, EndsBy, DomainIntervals, ListedSize;
    SizesNext(m, p, d, k);
    IntervalsNext(m, p, d, begins, k);
    IntervalsBelow(m, p, d, begins, k - 1, k - 1);
    var before := DomainIntervals(m, p, d, begins, k - 1);
    if HasInterval(m, p, d, k - 1) {
      ValidAppend(before, NodeInterval(begins[k - 1], begins[k - 1] + ListedSize(m, p, k - 1), Count(before)));
    }
  }

  /** They are sorted, disjoint and numbered one after the other; their number counts the nodes before. */
  lemma {:induction false} DomainIntervalsValid(m: Mesh, p: nat, d: nat, begins: seq<nat>, k: nat)
    requires NumberedInOrder(m, p, begins) && k <= |m.order[p]|
    ensures var its := DomainIntervals(m, p, d, begins, k);
      ValidIntervals(its) && Count(its) == Prefix(SizesOfDomain(m, p, d), k)
  {
    hide EndsBy, SizesOfDomain;
    if k > 0 {
      DomainIntervalsValid(m, p, d, begins, k - 1);
      IntervalCounted(m, p, d, begins, k);
    }
  }

  /** The interval of the domain that holds the nodes of the l-th listed one. */
  lemma {:induction false} IntervalOfDomain(m: Mesh, p: nat, d: nat, begins: seq<nat>, k: nat, l: nat) returns (e: nat)
    requires NumberedInOrder(m, p, begins) && l < k <= |m.order[p]| && HasInterval(m, p, d, l)
    ensures e < |DomainIntervals(m, p, d, begins, k)|
    ensures DomainIntervals(m, p, d, begins, k)[e] ==
      NodeInterval(begins[l], begins[l] + ListedSize(m, p, l), Prefix(SizesOfDomain(m, p, d), l))
  {
    if l < k - 1 {
      e := IntervalOfDomain(m, p, d, begins, k - 1, l);
    } else {
      e := |DomainIntervals(m, p, d, begins, l)|;
      DomainIntervalsValid(m, p, d, begins, l);
    }
  }

  /** The nodes of the domain: those of the listed intervals it shares. */
  lemma {:induction false} NodesOfDomain(m: Mesh, p: nat, d: nat, begins: seq<nat>, k: nat, n: int)
    requires NumberedInOrder(m, p, begins) && k <= |m.order[p]|
    ensures IsNode(DomainIntervals(m, p, d, begins, k), n) <==>
      exists l :: 0 <= l < k && HasInterval(m, p, d, l) && begins[l] <= n < begins[l] + ListedSize(m, p, l)
  {
    if k > 0 {
      NodesOfDomain(m, p, d, begins, k - 1, n);
      var before, all := DomainIntervals(m, p, d, begins, k - 1), DomainIntervals(m, p, d, begins, k);
      if i :| 0 <= i < |all| && InInterval(all[i], n) && i < |before| {
        assert InInterval(before[i], n);
      }
      if i :| 0 <= i < |before| && InInterval(before[i], n) {
        assert InInterval(all[i], n);
      }
      if HasInterval(m, p, d, k - 1) && begins[k - 1] <= n < begins[k - 1] + ListedSize(m, p, k - 1) {
        assert InInterval(all[|before|], n);
      }
    }
  }

  /** The intervals the constraints store are those of the domain, with the same numbers. */
  lemma {:induction false} StoredIntervalsMatch(m: Mesh, starts: seq<int>, p: nat, d: nat, begins: seq<nat>, k: nat)
    requires NumberedInOrder(m, p, begins) && k <= |m.order[p]| && |starts| == |m.intervals|
    ensures var gs, its := LocalIntervals(m, starts, p, d, begins, k), DomainIntervals(m, p, d, begins, k);
      |gs| == |its| && forall e :: 0 <= e < |gs| ==> its[e] == NodeInterval(gs[e].begin, gs[e].end, gs[e].DOFOffset)
  {
    if k > 0 {
      StoredIntervalsMatch(m, starts, p, d, begins, k - 1);
      DomainIntervalsValid(m, p, d, begins, k - 1);
    }
  }

  /** Column `col` is the one-based degree of freedom of node `n` on `dof` in the matrices of the domain. */
  ghost predicate IsDofOf(m: Mesh, p: nat, d: nat, begins: seq<nat>, n: nat, dof: nat, col: int)
    requires p < Processes(m) && |m.order[p]| <= |begins|
  {
    var its := DomainIntervals(m, p, d, begins, |m.order[p]|);
    ValidIntervals(its) && IsNode(its, n) && col == m.dofs * Number(its, n) + dof + 1
  }

  /** The column of a slot is the degree of freedom of its node and kind. */
  lemma ColumnIsDof(m: Mesh, p: nat, d: nat, begins: seq<nat>, l: nat, s: Slot)
    requires NumberedInOrder(m, p, begins) && l < |m.order[p]| && HasInterval(m, p, d, l) && IsSlot(m, m.order[p][l], s)
    ensures IsDofOf(m, p, d, begins, begins[l] + s.node, s.dof, Column(m, p, d, l, s))
  {
    hide ValidIntervals, DomainIntervals, SizesOfDomain, Prefix, Multiple;
    var its, n := DomainIntervals(m, p, d, begins, |m.order[p]|), begins[l] + s.node;
    DomainIntervalsValid(m, p, d, begins, |m.order[p]|);
    var e := IntervalOfDomain(m, p, d, begins, |m.order[p]|, l);
    NumberFrom(its, e, n);
    var number := Prefix(SizesOfDomain(m, p, d), l) + s.node;
    assert Number(its, n) == number;
    StepsBefore(m.dofs, number);
  }

  lemma StepsBefore(step: nat, count: nat)
    ensures Multiple(step, count) == step * count
  {
    MultipleIsProduct(step, count);
  }

  /** It is the index `fillDOFsIndices` gives to the node and kind, plus one. */
  lemma ColumnIsIndex(m: Mesh, p: nat, d: nat, begins: seq<nat>, nodes: seq<int>, indices: seq<int>, dof: nat, k: nat, col: int)
    requires NumberedInOrder(m, p, begins) && k < |nodes| && dof < m.dofs && nodes[k] >= 0
    requires IsDofOf(m, p, d, begins, nodes[k], dof, col)
    requires IndexAt(DomainIntervals(m, p, d, begins, |m.order[p]|), nodes, m.dofs, indices, dof, k)
    ensures Multiple(|nodes|, dof) + k < |indices| && col == indices[Multiple(|nodes|, dof) + k] + 1
  {
  }
}
