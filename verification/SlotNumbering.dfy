/** The degrees of freedom of an interval that get glue rows, and the columns of a domain. */
module SlotNumbering {
  import opened Basis
  import opened Decomposition

  /** A degree of freedom of a node of an interval. */
  datatype Slot = Slot(node: nat, dof: nat)

  /** The nodes before `x` without a Dirichlet condition. */
  function FreeBelow(fixed: seq<nat>, x: nat): seq<nat> {
    if x == 0 then [] else FreeBelow(fixed, x - 1) + if x - 1 in fixed then [] else [x - 1]
  }

  function OnDof(nodes: seq<nat>, dof: nat): (r: seq<Slot>)
    ensures |r| == |nodes|
  {
    seq(|nodes|, j requires 0 <= j < |nodes| => Slot(nodes[j], dof))
  }

  /** The glued degrees of freedom of an interval, in the order in which rows are given to them. */
  function FreeSlots(i: Interval, dofs: nat): seq<Slot>
    requires dofs <= |i.fixed|
  {
    if dofs == 0 then [] else FreeSlots(i, dofs - 1) + OnDof(FreeBelow(i.fixed[dofs - 1], i.size), dofs - 1)
  }

  lemma OnDofAt(nodes: seq<nat>, dof: nat)
    ensures forall j :: 0 <= j < |nodes| ==> OnDof(nodes, dof)[j] == Slot(nodes[j], dof)
  {
  }

  /** The one-based column of a slot, `offset` being the first node of the interval in the domain. */
  function SlotColumn(dofs: nat, offset: nat, s: Slot): int {
    Multiple(dofs, offset + s.node) + s.dof + 1
  }

  function SlotColumns(dofs: nat, offset: nat, slots: seq<Slot>): (r: seq<int>)
    ensures |r| == |slots|
  {
    seq(|slots|, c requires 0 <= c < |slots| => SlotColumn(dofs, offset, slots[c]))
  }

  lemma SlotColumnsAt(dofs: nat, offset: nat, slots: seq<Slot>)
    ensures forall c :: 0 <= c < |slots| ==> SlotColumns(dofs, offset, slots)[c] == SlotColumn(dofs, offset, slots[c])
  {
  }

  lemma SlotColumnsNext(dofs: nat, offset: nat, a: seq<Slot>, s: Slot)
    ensures SlotColumns(dofs, offset, a + [s]) == SlotColumns(dofs, offset, a) + [SlotColumn(dofs, offset, s)]
  {
  }

  /** The nodes `first .. last` on one degree of freedom. */
  function RunSlots(first: nat, last: nat, dof: nat): (r: seq<Slot>)
    requires first <= last
    ensures |r| == last - first
  {
    seq(last - first, j requires 0 <= j < last - first => Slot(first + j, dof))
  }

  /** The glued slots before node `x` of degree of freedom `dof`. */
  function SlotsBefore(i: Interval, dof: nat, x: nat): seq<Slot>
    requires dof < |i.fixed|
  {
    FreeSlots(i, dof) + OnDof(FreeBelow(i.fixed[dof], x), dof)
  }

  lemma SlotsBeforeFirst(i: Interval, dof: nat)
    requires dof < |i.fixed|
    ensures SlotsBefore(i, dof, 0) == FreeSlots(i, dof)
  {
  }

  lemma NoFixedBetween(fixed: seq<nat>, e: nat)
    requires Increasing(fixed) && e <= |fixed|
    ensures e < |fixed| ==> fixed[e] in fixed
    ensures forall x :: (if e == 0 then 0 else fixed[e - 1] + 1) <= x && (e < |fixed| ==> x < fixed[e]) ==> x !in fixed
  {
  }

  /** A run without Dirichlet nodes is glued completely. */
  lemma {:induction false} FreeRun(fixed: seq<nat>, a: nat, b: nat, dof: nat)
    requires a <= b && forall x :: a <= x < b ==> x !in fixed
    ensures OnDof(FreeBelow(fixed, b), dof) == OnDof(FreeBelow(fixed, a), dof) + RunSlots(a, b, dof)
    decreases b
  {
    if a < b {
      FreeRun(fixed, a, b - 1, dof);
      var below := FreeBelow(fixed, b - 1);
      assert FreeBelow(fixed, b) == below + [b - 1];
      assert OnDof(below + [b - 1], dof) == OnDof(below, dof) + [Slot(b - 1, dof)];
      assert RunSlots(a, b, dof) == RunSlots(a, b - 1, dof) + [Slot(b - 1, dof)];
    }
  }

  lemma {:induction false} FreeBelowGrows(fixed: seq<nat>, x: nat, y: nat)
    requires x <= y
    ensures FreeBelow(fixed, x) <= FreeBelow(fixed, y)
    decreases y
  {
    if x < y {
      FreeBelowGrows(fixed, x, y - 1);
    }
  }

  lemma {:induction false} FreeSlotsGrow(i: Interval, d: nat, e: nat)
    requires d <= e <= |i.fixed|
    ensures FreeSlots(i, d) <= FreeSlots(i, e)
    decreases e
  {
    if d < e {
      FreeSlotsGrow(i, d, e - 1);
    }
  }

  lemma SlotsBeforeGrow(i: Interval, dof: nat, x: nat, dofs: nat)
    requires dof < dofs <= |i.fixed| && x <= i.size
    ensures SlotsBefore(i, dof, x) <= FreeSlots(i, dofs)
  {
    FreeBelowGrows(i.fixed[dof], x, i.size);
    assert OnDof(FreeBelow(i.fixed[dof], x), dof) <= OnDof(FreeBelow(i.fixed[dof], i.size), dof);
    FreeSlotsGrow(i, dof + 1, dofs);
  }

  /** A run up to a Dirichlet node, which is skipped. */
  lemma RunToFixed(i: Interval, dof: nat, a: nat, b: nat, dofs: nat)
    requires dof < dofs <= |i.fixed| && a <= b < i.size && b in i.fixed[dof]
    requires forall x :: a <= x < b ==> x !in i.fixed[dof]
    ensures SlotsBefore(i, dof, b + 1) == SlotsBefore(i, dof, a) + RunSlots(a, b, dof)
    ensures SlotsBefore(i, dof, b + 1) <= FreeSlots(i, dofs)
  {
    FreeRun(i.fixed[dof], a, b, dof);
    assert FreeBelow(i.fixed[dof], b + 1) == FreeBelow(i.fixed[dof], b);
    ConcatExtend(FreeSlots(i, dof), OnDof(FreeBelow(i.fixed[dof], b), dof), OnDof(FreeBelow(i.fixed[dof], a), dof), RunSlots(a, b, dof));
    SlotsBeforeGrow(i, dof, b + 1, dofs);
  }

  /** The run behind the last Dirichlet node. */
  lemma LastRun(i: Interval, dof: nat, a: nat, dofs: nat)
    requires dof < dofs <= |i.fixed| && a <= i.size && forall x :: a <= x < i.size ==> x !in i.fixed[dof]
    ensures FreeSlots(i, dof + 1) == SlotsBefore(i, dof, a) + RunSlots(a, i.size, dof)
    ensures FreeSlots(i, dof + 1) <= FreeSlots(i, dofs)
  {
    FreeRun(i.fixed[dof], a, i.size, dof);
    ConcatExtend(FreeSlots(i, dof), OnDof(FreeBelow(i.fixed[dof], i.size), dof), OnDof(FreeBelow(i.fixed[dof], a), dof), RunSlots(a, i.size, dof));
    FreeSlotsGrow(i, dof + 1, dofs);
  }
}
