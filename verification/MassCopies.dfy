/**
 * Which degrees of freedom the copies of an element's mass matrix reach. `insertElementToDomain`
 * takes every `multiplicity`-th index, but `fillDOFsIndices` lists the indices kind by kind.
 */
module MassCopies {
  import opened Basis
  import opened Assembly
  import opened DofNumbering

  /** The indices of an element as `fillDOFsIndices` leaves them. */
  ghost predicate IsFilled(its: seq<NodeInterval>, nodes: seq<int>, kinds: nat, dofs: seq<nat>) {
    && ValidIntervals(its) && (forall k :: 0 <= k < |nodes| ==> IsNode(its, nodes[k]))
    && |dofs| == |nodes| * kinds
    && forall d, k :: 0 <= d < kinds && 0 <= k < |nodes| ==> FilledAt(its, nodes, kinds, dofs, d, k)
  }

  ghost predicate FilledAt(its: seq<NodeInterval>, nodes: seq<int>, kinds: nat, dofs: seq<nat>, d: nat, k: nat)
    requires ValidIntervals(its) && k < |nodes| && IsNode(its, nodes[k])
  {
    IndexAt(its, nodes, kinds, dofs, d, k)
  }

  /** Copy `m` of the mass matrix reaches exactly kind `m` of all nodes, in their order. */
  ghost predicate CopyIsKind(its: seq<NodeInterval>, nodes: seq<int>, kinds: nat, dofs: seq<nat>, m: nat)
    requires IsFilled(its, nodes, kinds, dofs) && m < kinds
  {
    forall r :: 0 <= r < |nodes| ==> Strided(dofs, kinds, m, |nodes|)[r] == kinds * Number(its, nodes[r]) + m
  }

  /** What copy `m` takes for node `r`: the index behind the first `r * kinds + m`. */
  lemma StridedEntry(dofs: seq<nat>, kinds: nat, m: nat, n: nat, r: nat)
    requires m < kinds && n * kinds == |dofs| && r < n
    ensures 0 <= r * kinds + m < |dofs| && Strided(dofs, kinds, m, n)[r] == dofs[r * kinds + m]
  {
    StrideInside(dofs, kinds, m, n, r);
  }

  /** The kind of the index that copy 0 takes for the last of several nodes is not 0. */
  lemma LastIndexKind(n: nat, kinds: nat) returns (d: nat, k: nat)
    requires n > 1 && kinds > 1
    ensures 0 < d < kinds && k < n && (n - 1) * kinds == Multiple(n, d) + k
  {
    Grows(n - 1, kinds, 2);
    var x := (n - 1) * kinds;
    assert n * kinds == x + kinds;
    MultipleIsProduct(n, kinds);
    assert Multiple(n, 1) == Multiple(n, 0) + n;
    d := MultipleCovers(n, x, kinds);
    k := x - Multiple(n, d);
  }

  /** Numbers of different kinds differ. */
  lemma KindsDiffer(kinds: nat, a: int, d: nat, b: int)
    requires 0 < d < kinds
    ensures kinds * a + d != kinds * b
  {
    if a < b {
      Grows(kinds, b, a + 1);
      assert kinds * (a + 1) == kinds * a + kinds;
    } else {
      Grows(kinds, a, b);
    }
  }

  /** With several nodes and several kinds, copy 0 takes another kind for the last node. */
  lemma CopyMixesKinds(its: seq<NodeInterval>, nodes: seq<int>, kinds: nat, dofs: seq<nat>)
    requires IsFilled(its, nodes, kinds, dofs) && |nodes| > 1 && kinds > 1
    ensures !CopyIsKind(its, nodes, kinds, dofs, 0)
  {
    var n := |nodes|;
    var d, k := LastIndexKind(n, kinds);
    StridedEntry(dofs, kinds, 0, n, n - 1);
    assert FilledAt(its, nodes, kinds, dofs, d, k);
    KindsDiffer(kinds, Number(its, nodes[k]), d, Number(its, nodes[n - 1]));
  }

  /** With one node or one kind, both orders put index `m` of node `r` at the same place. */
  lemma SamePlace(n: nat, kinds: nat, m: nat, r: nat)
    requires m < kinds && r < n && (n == 1 || kinds == 1)
    ensures Multiple(n, m) + r == r * kinds + m
  {
    MultipleIsProduct(n, m);
  }

  /** With one node or one kind, every copy is the kind it should be. */
  lemma CopyKeepsKinds(its: seq<NodeInterval>, nodes: seq<int>, kinds: nat, dofs: seq<nat>, m: nat)
    requires IsFilled(its, nodes, kinds, dofs) && m < kinds && (|nodes| == 1 || kinds == 1)
    ensures CopyIsKind(its, nodes, kinds, dofs, m)
  {
    hide Strided;
    forall r | 0 <= r < |nodes|
      ensures Strided(dofs, kinds, m, |nodes|)[r] == kinds * Number(its, nodes[r]) + m
    {
      StridedEntry(dofs, kinds, m, |nodes|, r);
      assert FilledAt(its, nodes, kinds, dofs, m, r);
      SamePlace(|nodes|, kinds, m, r);
    }
  }

  /** The copies of the mass matrix reach one kind of degree of freedom each exactly for one node or one kind. */
  lemma CopiesAreKindsIff(its: seq<NodeInterval>, nodes: seq<int>, kinds: nat, dofs: seq<nat>)
    requires IsFilled(its, nodes, kinds, dofs) && nodes != [] && kinds > 0
    ensures (forall m :: 0 <= m < kinds ==> CopyIsKind(its, nodes, kinds, dofs, m)) <==> |nodes| == 1 || kinds == 1
  {
    if |nodes| == 1 || kinds == 1 {
      forall m | 0 <= m < kinds
        ensures CopyIsKind(its, nodes, kinds, dofs, m)
      {
        CopyKeepsKinds(its, nodes, kinds, dofs, m);
      }
    } else {
      CopyMixesKinds(its, nodes, kinds, dofs);
    }
  }

  /** Two nodes with two kinds: copy 0 reaches both kinds of the first node, copy 1 both of the second. */
  lemma CopiesExample()
    ensures IsFilled([NodeInterval(0, 2, 0)], [0, 1], 2, [0, 2, 1, 3])
    ensures Strided([0, 2, 1, 3], 2, 0, 2) == [0, 1] && Strided([0, 2, 1, 3], 2, 1, 2) == [2, 3]
  {
    hide Number, IsNode;
    StridedEntry([0, 2, 1, 3], 2, 0, 2, 0);
    StridedEntry([0, 2, 1, 3], 2, 0, 2, 1);
    StridedEntry([0, 2, 1, 3], 2, 1, 2, 0);
    StridedEntry([0, 2, 1, 3], 2, 1, 2, 1);
    forall d, k | 0 <= d < 2 && 0 <= k < 2
      ensures IsNode([NodeInterval(0, 2, 0)], [0, 1][k]) && FilledAt([NodeInterval(0, 2, 0)], [0, 1], 2, [0, 2, 1, 3], d, k)
    {
      FilledExample(d, k);
    }
    assert IsNode([NodeInterval(0, 2, 0)], 0) && IsNode([NodeInterval(0, 2, 0)], 1) by {
      FilledExample(0, 0);
      FilledExample(0, 1);
    }
  }

  lemma FilledExample(d: nat, k: nat)
    requires d < 2 && k < 2
    ensures IsNode([NodeInterval(0, 2, 0)], [0, 1][k]) && FilledAt([NodeInterval(0, 2, 0)], [0, 1], 2, [0, 2, 1, 3], d, k)
  {
    hide Number, IsNode, Multiple;
    NumberExample(k);
    MultipleIsProduct(2, d);
    assert if d == 0 then (if k == 0 then [0, 2, 1, 3][0] == 0 else [0, 2, 1, 3][1] == 2)
      else (if k == 0 then [0, 2, 1, 3][2] == 1 else [0, 2, 1, 3][3] == 3);
  }

  lemma NumberExample(k: nat)
    requires k < 2
    ensures ValidIntervals([NodeInterval(0, 2, 0)]) && [0, 1][k] == k
    ensures IsNode([NodeInterval(0, 2, 0)], k) && Number([NodeInterval(0, 2, 0)], k) == k
  {
    NumberFrom([NodeInterval(0, 2, 0)], 0, k);
  }

  /** There, what belongs to two nodes ends up between two kinds of one node. */
  lemma MassExample(e: DenseMatrix)
    requires e.Valid() && e.rows == e.columns == 2
    ensures MassContribution([0, 2, 1, 3], e, 2, 0, 1, 2) == e.at[0][1]
    ensures MassContribution([0, 2, 1, 3], e, 2, 0, 2, 2) == 0.0
  {
    hide Contribution;
    CopiesExample();
    TwoByTwo(e, 0, 1, 1);
    TwoByTwo(e, 2, 3, 1);
    TwoByTwo(e, 0, 1, 2);
    TwoByTwo(e, 2, 3, 2);
    var dofs: seq<nat> := [0, 2, 1, 3];
    forall j: nat
      ensures MassContribution(dofs, e, 2, 0, j, 2) == Contribution([0, 1], e, 1.0, 0, j, 2, 2) + Contribution([2, 3], e, 1.0, 0, j, 2, 2)
    {
      assert MassContribution(dofs, e, 2, 0, j, 0) == 0.0;
      assert MassContribution(dofs, e, 2, 0, j, 1) == 0.0 + Contribution(Strided(dofs, 2, 0, 2), e, 1.0, 0, j, 2, 2);
    }
  }

  lemma TwoByTwo(e: DenseMatrix, a: nat, b: nat, j: nat)
    requires e.Valid() && e.rows == e.columns == 2
    ensures Contribution([a, b], e, 1.0, 0, j, 2, 2) ==
      (Cell([a, b], e, 1.0, 0, j, 0, 0) + Cell([a, b], e, 1.0, 0, j, 0, 1)) +
      (Cell([a, b], e, 1.0, 0, j, 1, 0) + Cell([a, b], e, 1.0, 0, j, 1, 1))
  {
    RowOfTwo(e, a, b, j, 0);
    RowOfTwo(e, a, b, j, 1);
    hide RowTotal, Cell;
    assert Contribution([a, b], e, 1.0, 0, j, 1, 2) == RowTotal([a, b], e, 1.0, 0, j, 0, 2);
  }

  lemma RowOfTwo(e: DenseMatrix, a: nat, b: nat, j: nat, r: nat)
    requires e.Valid() && e.rows == e.columns == 2 && r < 2
    ensures RowTotal([a, b], e, 1.0, 0, j, r, 2) == Cell([a, b], e, 1.0, 0, j, r, 0) + Cell([a, b], e, 1.0, 0, j, r, 1)
  {
    hide Cell;
    assert RowTotal([a, b], e, 1.0, 0, j, r, 1) == Cell([a, b], e, 1.0, 0, j, r, 0);
  }
}
