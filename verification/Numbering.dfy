/** Columns of `B1`: every degree of freedom of a domain has its own. */
module Numbering {
  import opened Basis
  import opened Decomposition
  import opened Gluing
  import opened SlotNumbering

  lemma {:induction false} FreeBelowSpec(fixed: seq<nat>, x: nat)
    ensures forall n: nat :: n in FreeBelow(fixed, x) <==> n < x && n !in fixed
    ensures Increasing(FreeBelow(fixed, x))
  {
    if x > 0 {
      FreeBelowSpec(fixed, x - 1);
      var before := FreeBelow(fixed, x - 1);
      assert forall j :: 0 <= j < |before| ==> before[j] in before;
    }
  }

  lemma OnDofSpec(nodes: seq<nat>, dof: nat)
    ensures forall s: Slot :: s in OnDof(nodes, dof) <==> s.dof == dof && s.node in nodes
    ensures Distinct(nodes) ==> Distinct(OnDof(nodes, dof))
  {
    OnDofAt(nodes, dof);
    forall s: Slot | s.dof == dof && s.node in nodes
      ensures s in OnDof(nodes, dof)
    {
      var j :| 0 <= j < |nodes| && nodes[j] == s.node;
      assert OnDof(nodes, dof)[j] == s;
    }
  }

  /** The glued slots are the degrees of freedom without a Dirichlet condition, each once. */
  lemma {:induction false} FreeSlotsSpec(i: Interval, dofs: nat)
    requires dofs <= |i.fixed|
    ensures forall s: Slot :: s in FreeSlots(i, dofs) <==> s.dof < dofs && s.node < i.size && s.node !in i.fixed[s.dof]
    ensures Distinct(FreeSlots(i, dofs))
  {
    if dofs > 0 {
      FreeSlotsSpec(i, dofs - 1);
      var free := FreeBelow(i.fixed[dofs - 1], i.size);
      FreeBelowSpec(i.fixed[dofs - 1], i.size);
      OnDofSpec(free, dofs - 1);
      DistinctAppend(FreeSlots(i, dofs - 1), OnDof(free, dofs - 1));
    }
  }

  lemma DistinctAppend<T>(a: seq<T>, b: seq<T>)
    requires Distinct(a) && Distinct(b) && forall x :: x in a ==> x !in b
    ensures Distinct(a + b)
  {
    forall i, j | 0 <= i < j < |a + b|
      ensures (a + b)[i] != (a + b)[j]
    {
      if i < |a| <= j {
        assert (a + b)[i] in a && (a + b)[j] in b;
      }
    }
  }

  /** A slot of the interval, glued or fixed. */
  ghost predicate IsSlot(m: Mesh, i: nat, s: Slot) {
    i < |m.intervals| && s.node < m.intervals[i].size && s.dof < m.dofs
  }

  lemma BlockUnique(step: nat, x: nat, y: nat, a: nat, b: nat)
    requires a < step && b < step && Multiple(step, x) + a == Multiple(step, y) + b
    ensures x == y && a == b
  {
    BlockApart(step, x, y);
    BlockApart(step, y, x);
  }

  lemma BlockApart(step: nat, x: nat, y: nat)
    ensures x < y ==> Multiple(step, x) + step <= Multiple(step, y)
  {
    if x < y {
      MultipleMonotone(step, x + 1, y);
    }
  }

  /** Within a domain, equal columns are the same degree of freedom of the same interval. */
  lemma ColumnInjective(m: Mesh, p: nat, d: nat, k: nat, s: Slot, k': nat, s': Slot)
    requires p < Processes(m) && k < |m.order[p]| && k' < |m.order[p]|
    requires IsSlot(m, m.order[p][k], s) && IsSlot(m, m.order[p][k'], s')
    requires d in m.intervals[m.order[p][k]].domains && d in m.intervals[m.order[p][k']].domains
    requires Column(m, p, d, k, s) == Column(m, p, d, k', s')
    ensures k == k' && s == s'
  {
    var sizes := SizesOfDomain(m, p, d);
    BlockUnique(m.dofs, Prefix(sizes, k) + s.node, Prefix(sizes, k') + s'.node, s.dof, s'.dof);
    if k != k' {
      PrefixDisjoint(sizes, k, k');
    }
  }

  lemma GluedSlot(m: Mesh, i: nat, c: nat)
    requires Valid(m) && i < |m.intervals| && c < |Slots(m, i)|
    ensures var s := Slots(m, i)[c];
      IsSlot(m, i, s) && s.dof < |m.intervals[i].fixed| && s.node !in m.intervals[i].fixed[s.dof]
    ensures Distinct(Slots(m, i))
  {
    assert ValidInterval(m, i);
    FreeSlotsSpec(m.intervals[i], m.dofs);
    assert Slots(m, i)[c] in Slots(m, i);
  }

  lemma ConditionSlot(m: Mesh, i: nat, dof: nat, j: nat)
    requires Valid(m) && i < |m.intervals| && dof < |m.intervals[i].listed| && j < |m.intervals[i].listed[dof]|
    ensures IsSlot(m, i, FixedSlot(m, i, dof, j))
    ensures dof < |m.intervals[i].fixed| && FixedSlot(m, i, dof, j).node in m.intervals[i].fixed[dof]
  {
    assert ValidInterval(m, i);
    var interval := m.intervals[i];
    assert ValidFixed(interval.fixed[dof], interval.listed[dof], interval.size);
    assert interval.listed[dof][j] in interval.listed[dof];
  }

  /** Two conditions on the same degree of freedom of the same interval are the same condition. */
  lemma ConditionUnique(m: Mesh, i: nat, dof: nat, j: nat, dof': nat, j': nat)
    requires Valid(m) && i < |m.intervals| && dof < |m.intervals[i].listed| && j < |m.intervals[i].listed[dof]|
    requires dof' < |m.intervals[i].listed| && j' < |m.intervals[i].listed[dof']|
    requires FixedSlot(m, i, dof, j) == FixedSlot(m, i, dof', j')
    ensures dof == dof' && j == j'
  {
    assert ValidInterval(m, i);
    var interval := m.intervals[i];
    assert ValidFixed(interval.fixed[dof], interval.listed[dof], interval.size);
  }
}
