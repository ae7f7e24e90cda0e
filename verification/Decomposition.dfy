/**
 * The part of the decomposed mesh the constraints are built from: node intervals, the
 * domains sharing each of them, the processes owning the domains, and the order in which
 * each process lists the intervals it sees.
 */
module Decomposition {
  import opened Basis

  /**
   * Nodes shared by the same domains. `fixed[dof]` are the sorted positions of its Dirichlet
   * nodes, `listed[dof]` the same positions in the order of the boundary regions.
   */
  datatype Interval = Interval(domains: seq<nat>, size: nat, fixed: seq<seq<nat>>, listed: seq<seq<nat>>)

  /** Process `p` owns the domains `first[p] .. first[p + 1]` and lists the intervals `order[p]`. */
  datatype Mesh = Mesh(dofs: nat, intervals: seq<Interval>, first: seq<nat>, order: seq<seq<nat>>)

  function Processes(m: Mesh): nat {
    |m.order|
  }

  /** Number of domains on all processes together. */
  function Domains(m: Mesh): nat {
    if m.first == [] then 0 else m.first[|m.first| - 1]
  }

  predicate Holds(m: Mesh, p: nat, d: nat) {
    p + 1 < |m.first| && m.first[p] <= d < m.first[p + 1]
  }

  /** Some domain of interval `i` lives on process `p`. */
  predicate Sees(m: Mesh, p: nat, i: nat) {
    i < |m.intervals| && exists d :: d in m.intervals[i].domains && Holds(m, p, d)
  }

  /** The process of the first domain hands out the rows of the interval. */
  predicate Owns(m: Mesh, p: nat, i: nat) {
    i < |m.intervals| && m.intervals[i].domains != [] && Holds(m, p, m.intervals[i].domains[0])
  }

  /** Of the intervals `ids`: those process `p` owns and process `q` sees as well. */
  ghost function SharedIds(m: Mesh, p: nat, q: nat, ids: seq<nat>): seq<nat> {
    if ids == [] then [] else
      var i := ids[|ids| - 1];
      SharedIds(m, p, q, ids[..|ids| - 1]) + if Owns(m, p, i) && Sees(m, q, i) then [i] else []
  }

  ghost predicate ValidInterval(m: Mesh, i: nat)
    requires i < |m.intervals|
  {
    var interval := m.intervals[i];
    && interval.domains != []
    && Increasing(interval.domains)
    && (forall d :: d in interval.domains ==> d < Domains(m))
    && |interval.fixed| == |interval.listed| == m.dofs
    && (forall dof :: 0 <= dof < m.dofs ==> ValidFixed(interval.fixed[dof], interval.listed[dof], interval.size))
  }

  ghost predicate ValidFixed(fixed: seq<nat>, listed: seq<nat>, size: nat) {
    && Increasing(fixed)
    && (forall n :: n in fixed ==> n < size)
    && Distinct(listed) && |listed| == |fixed|
    && (forall n :: n in fixed <==> n in listed)
  }

  /** Process `p` lists exactly the intervals it sees, each once. */
  ghost predicate ListsItsIntervals(m: Mesh, p: nat)
    requires p < Processes(m)
  {
    Distinct(m.order[p]) && forall i :: i in m.order[p] <==> Sees(m, p, i)
  }

  /** What process `p` owns of the intervals it shares with `q` comes in the same order on both. */
  ghost predicate ConsistentOrder(m: Mesh, p: nat, q: nat)
    requires p < Processes(m) && q < Processes(m)
  {
    SharedIds(m, p, q, m.order[p]) == SharedIds(m, p, q, m.order[q])
  }

  ghost predicate Valid(m: Mesh) {
    && Processes(m) > 0 && |m.first| == Processes(m) + 1
    && m.first[0] == 0 && Sorted(m.first)
    && (forall i :: 0 <= i < |m.intervals| ==> ValidInterval(m, i))
    && (forall p :: 0 <= p < Processes(m) ==> ListsItsIntervals(m, p))
    && (forall p, q :: 0 <= p < Processes(m) && 0 <= q < Processes(m) ==> ConsistentOrder(m, p, q))
  }

  /** The `d2p` lookup: the process owning domain `d`. */
  function ProcessOf(m: Mesh, d: nat): int {
    LowerBound(m.first, d + 1) - 1
  }

  lemma ProcessOfDomain(m: Mesh, d: nat)
    requires Valid(m) && d < Domains(m)
    ensures 0 <= ProcessOf(m, d) < Processes(m)
    ensures forall p: nat :: Holds(m, p, d) <==> p == ProcessOf(m, d)
  {
    assert m.first[0] < d + 1;
    forall p: nat | Holds(m, p, d)
      ensures p == ProcessOf(m, d)
    {
      LowerBoundBetween(m.first, d, p);
    }
  }

  function Owner(m: Mesh, i: nat): int
    requires i < |m.intervals|
  {
    if m.intervals[i].domains == [] then -1 else ProcessOf(m, m.intervals[i].domains[0])
  }

  lemma OwnerOwns(m: Mesh, i: nat)
    requires Valid(m) && i < |m.intervals|
    ensures 0 <= Owner(m, i) < Processes(m)
    ensures forall p: nat :: Owns(m, p, i) <==> p == Owner(m, i)
    ensures i in m.order[Owner(m, i)]
  {
    var domains := m.intervals[i].domains;
    assert ValidInterval(m, i);
    assert domains[0] in domains;
    ProcessOfDomain(m, domains[0]);
    assert Holds(m, Owner(m, i), domains[0]);
    assert Sees(m, Owner(m, i), i);
    assert ListsItsIntervals(m, Owner(m, i));
  }
}
