/**
 * What the constraints of the whole mesh say about the degrees of freedom of the matrices of the
 * domains, numbered as the assembly of those matrices numbers them.
 */
module GluedDofs {
  import opened Decomposition
  import opened SlotNumbering
  import opened Glue
  import opened Gluing
  import opened Operators
  import opened Scaling
  import opened Numbering
  import opened DomainNodes
  import opened MatrixEntries
  import opened WholeMesh

  /** The local node numbers of every process follow each other. */
  ghost predicate AllNumbered(m: Mesh, begins: seq<seq<nat>>) {
    |begins| == Processes(m) && forall p :: 0 <= p < |begins| ==> NumberedInOrder(m, p, begins[p])
  }

  /** Column `col` of domain `d` is its degree of freedom `dof` of node `node` of interval `i`. */
  ghost predicate AtDof(m: Mesh, begins: seq<seq<nat>>, d: nat, i: nat, node: nat, dof: nat, col: int)
    requires Valid(m) && |begins| == Processes(m) && i < |m.intervals| && d in m.intervals[i].domains
  {
    ListedPosition(m, i, d);
    IsDofColumn(m, begins[ProcessOf(m, d)], d, i, node, dof, col)
  }

  /** The values at the degrees of freedom the domains of an interval have for one node and kind are equal. */
  ghost predicate DofsAgree(m: Mesh, begins: seq<seq<nat>>, u: Field, i: nat, node: nat, dof: nat)
    requires Valid(m) && |begins| == Processes(m) && i < |m.intervals|
  {
    forall d, e, x, y ::
      (d in m.intervals[i].domains && e in m.intervals[i].domains && AtDof(m, begins, d, i, node, dof, x) && AtDof(m, begins, e, i, node, dof, y)) ==>
      u(d, x) == u(e, y)
  }

  ghost predicate CopyColumn(m: Mesh, begins: seq<seq<nat>>, i: nat, s: Slot, k: nat)
    requires Valid(m) && |begins| == Processes(m) && i < |m.intervals| && k < Copies(m, i)
  {
    var d := m.intervals[i].domains[k];
    forall x :: AtDof(m, begins, d, i, s.node, s.dof, x) <==> x == ColumnOf(m, i, d, s)
  }

  lemma CopyAtDof(m: Mesh, begins: seq<seq<nat>>, u: Field, i: nat, s: Slot, k: nat)
    requires Valid(m) && AllNumbered(m, begins) && i < |m.intervals| && IsSlot(m, i, s) && k < Copies(m, i)
    ensures CopyColumn(m, begins, i, s, k)
  {
    var d := m.intervals[i].domains[k];
    ListedPosition(m, i, d);
    hide Valid, NumberedInOrder, ColumnOf, DomainIntervals;
    SlotColumnIsDof(m, begins[ProcessOf(m, d)], i, d, s);
  }

  lemma AgreeAtDofs(m: Mesh, begins: seq<seq<nat>>, u: Field, i: nat, c: nat)
    requires Valid(m) && AllNumbered(m, begins) && i < |m.intervals| && c < |Slots(m, i)|
    ensures CopiesAgree(m, u, i, c) <==> DofsAgree(m, begins, u, i, Slots(m, i)[c].node, Slots(m, i)[c].dof)
  {
    GluedSlot(m, i, c);
    var domains, s := m.intervals[i].domains, Slots(m, i)[c];
    hide Valid, AtDof, ColumnOf, NumberedInOrder, Slots, IsSlot;
    forall k | 0 <= k < |domains|
      ensures CopyColumn(m, begins, i, s, k)
    {
      CopyAtDof(m, begins, u, i, s, k);
    }
    if CopiesAgree(m, u, i, c) {
      forall d, e, x, y | d in domains && e in domains && AtDof(m, begins, d, i, s.node, s.dof, x) && AtDof(m, begins, e, i, s.node, s.dof, y)
        ensures u(d, x) == u(e, y)
      {
        var a: nat :| a < |domains| && domains[a] == d;
        var b: nat :| b < |domains| && domains[b] == e;
        assert CopyColumn(m, begins, i, s, a) && CopyColumn(m, begins, i, s, b);
        AgreeBothWays(m, u, i, c, a, b);
      }
    }
    if DofsAgree(m, begins, u, i, s.node, s.dof) {
      forall a, b | 0 <= a < b < Copies(m, i)
        ensures CopyValue(m, u, i, s, a) == CopyValue(m, u, i, s, b)
      {
        assert CopyColumn(m, begins, i, s, a) && CopyColumn(m, begins, i, s, b);
        assert domains[a] in domains && domains[b] in domains;
      }
    }
  }

  lemma AgreeBothWays(m: Mesh, u: Field, i: nat, c: nat, a: nat, b: nat)
    requires Valid(m) && i < |m.intervals| && c < |Slots(m, i)| && a < Copies(m, i) && b < Copies(m, i) && CopiesAgree(m, u, i, c)
    ensures CopyValue(m, u, i, Slots(m, i)[c], a) == CopyValue(m, u, i, Slots(m, i)[c], b)
  {
    hide Valid, CopyValue, Slots;
  }

  /**
   * The same at the degrees of freedom of the matrices: the glue rows vanish exactly when, for every
   * node and kind without a condition, all domains that share the node have the same value there.
   */
  lemma AssembledGluingAtDofs(m: Mesh, global: seq<seq<real>>, scaling: bool, parts: seq<seq<Term>>, u: Field, begins: seq<seq<nat>>)
    requires Valid(m) && DiagonalsFor(m, global, scaling) && Assembled(m, global, scaling, parts) && AllNumbered(m, begins)
    ensures PartsVanish(m, parts, u) <==> AllDofsAgree(m, begins, u)
  {
    AssembledGluing(m, global, scaling, parts, u);
    AgreeIff(m, begins, u);
  }

  /** Every value of every domain at every free node and kind: as the other domains have it. */
  ghost predicate AllDofsAgree(m: Mesh, begins: seq<seq<nat>>, u: Field)
    requires Valid(m) && |begins| == Processes(m)
  {
    forall i, node, dof ::
      (0 <= i < |m.intervals| && 0 <= dof < m.dofs && 0 <= node < m.intervals[i].size && IsFree(m, i, node, dof)) ==>
      DofsAgree(m, begins, u, i, node, dof)
  }

  lemma AgreeIff(m: Mesh, begins: seq<seq<nat>>, u: Field)
    requires Valid(m) && AllNumbered(m, begins)
    ensures AllCopiesAgree(m, u) <==> AllDofsAgree(m, begins, u)
  {
    hide Valid, NumberedInOrder, CopiesAgree, DofsAgree, IsFree, Slots;
    if AllCopiesAgree(m, u) {
      forall i, node, dof | 0 <= i < |m.intervals| && 0 <= dof < m.dofs && 0 <= node < m.intervals[i].size && IsFree(m, i, node, dof)
        ensures DofsAgree(m, begins, u, i, node, dof)
      {
        var c := SlotOfFree(m, i, node, dof);
        AgreeAtDofs(m, begins, u, i, c);
      }
    }
    if AllDofsAgree(m, begins, u) {
      forall i, c | 0 <= i < |m.intervals| && 0 <= c < |Slots(m, i)|
        ensures CopiesAgree(m, u, i, c)
      {
        FreeSlot(m, i, c);
        AgreeAtDofs(m, begins, u, i, c);
      }
    }
  }

  /** No Dirichlet condition on the degree of freedom. */
  ghost predicate IsFree(m: Mesh, i: nat, node: nat, dof: nat)
    requires i < |m.intervals|
  {
    dof < |m.intervals[i].fixed| && node !in m.intervals[i].fixed[dof]
  }

  lemma FreeSlot(m: Mesh, i: nat, c: nat)
    requires Valid(m) && i < |m.intervals| && c < |Slots(m, i)|
    ensures var s := Slots(m, i)[c]; s.dof < m.dofs && s.node < m.intervals[i].size && IsFree(m, i, s.node, s.dof)
  {
    GluedSlot(m, i, c);
  }

  lemma SlotOfFree(m: Mesh, i: nat, node: nat, dof: nat) returns (c: nat)
    requires Valid(m) && i < |m.intervals| && dof < m.dofs && node < m.intervals[i].size && IsFree(m, i, node, dof)
    ensures c < |Slots(m, i)| && Slots(m, i)[c] == Slot(node, dof)
  {
    assert ValidInterval(m, i);
    FreeSlotsSpec(m.intervals[i], m.dofs);
    assert Slot(node, dof) in Slots(m, i);
    c :| 0 <= c < |Slots(m, i)| && Slots(m, i)[c] == Slot(node, dof);
  }
}
