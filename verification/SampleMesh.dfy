/** A small decomposed mesh: the conditions asked of meshes can be met, with everything shared. */
module SampleMesh {
  import opened Decomposition

  /** Two nodes shared by the domains 0, 1 and 2, the second of them with a Dirichlet condition. */
  function SharedNodes(): Interval {
    Interval([0, 1, 2], 2, [[1]], [[1]])
  }

  /** Three nodes of domain 0 alone. */
  function InnerNodes(): Interval {
    Interval([0], 3, [[]], [[]])
  }

  /** Process 0 owns the domains 0 and 1, process 1 owns domain 2. */
  function Sample(): Mesh {
    Mesh(1, [SharedNodes(), InnerNodes()], [0, 2, 3], [[1, 0], [0]])
  }

  lemma SampleSees(p: nat, i: nat)
    requires p < 2
    ensures Sees(Sample(), p, i) <==> i == 0 || (i == 1 && p == 0)
  {
    var m := Sample();
    assert m.intervals[0].domains[0] == 0 && m.intervals[0].domains[2] == 2 && m.intervals[1].domains[0] == 0;
    assert Holds(m, 0, 0) && Holds(m, 1, 2);
    if i == 0 {
      assert (if p == 0 then 0 else 2) in m.intervals[0].domains;
    }
    if i == 1 && p == 0 {
      assert 0 in m.intervals[1].domains;
    }
  }

  lemma SampleOrder(p: nat, q: nat)
    requires p < 2 && q < 2
    ensures ConsistentOrder(Sample(), p, q)
  {
    var m := Sample();
    SampleSees(q, 0);
    SampleSees(q, 1);
    var a, b := m.order[p], m.order[q];
    assert [1, 0][..1] == [1] && [1][..0] == [] && [0][..0] == [];
  }

  lemma SampleIntervals()
    ensures ValidInterval(Sample(), 0) && ValidInterval(Sample(), 1)
  {
    assert ValidFixed([1], [1], 2) && ValidFixed([], [], 3);
  }

  lemma SampleLists(p: nat)
    requires p < 2
    ensures ListsItsIntervals(Sample(), p)
  {
    hide Sees;
    forall i: nat
      ensures i in Sample().order[p] <==> Sees(Sample(), p, i)
    {
      SampleSees(p, i);
    }
  }

  /** The mesh satisfies everything the results on the constraints assume. */
  lemma SampleIsValid()
    ensures Valid(Sample())
  {
    hide ValidInterval, ListsItsIntervals, ConsistentOrder;
    SampleIntervals();
    forall p | 0 <= p < 2
      ensures ListsItsIntervals(Sample(), p)
    {
      SampleLists(p);
    }
    forall p, q | 0 <= p < 2 && 0 <= q < 2
      ensures ConsistentOrder(Sample(), p, q)
    {
      SampleOrder(p, q);
    }
  }
}
