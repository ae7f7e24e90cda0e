/** The numbering of the nodes of a domain by its sorted node intervals, and the two lookups that use it. */
module DofNumbering {
  import opened Basis

  /** Nodes `begin .. end` of a domain, numbered from `offset` (`DOFOffset`) on. */
  datatype NodeInterval = NodeInterval(begin: int, end: int, offset: int)

  function Length(it: NodeInterval): int {
    it.end - it.begin
  }

  /** Sorted, disjoint, and numbered one after the other. */
  ghost predicate ValidIntervals(its: seq<NodeInterval>) {
    && (forall i :: 0 <= i < |its| ==> its[i].begin <= its[i].end)
    && (forall i, j :: 0 <= i < j < |its| ==> its[i].end <= its[j].begin)
    && (|its| > 0 ==> its[0].offset == 0)
    && (forall i, j :: 0 <= i < |its| && j == i + 1 < |its| ==> its[j].offset == its[i].offset + Length(its[i]))
  }

  ghost predicate InInterval(it: NodeInterval, n: int) {
    it.begin <= n < it.end
  }

  ghost predicate IsNode(its: seq<NodeInterval>, n: int) {
    exists i :: 0 <= i < |its| && InInterval(its[i], n)
  }

  /** Number of nodes: the end of the last interval, numbered. */
  function Count(its: seq<NodeInterval>): int {
    if its == [] then 0 else var last := its[|its| - 1]; last.offset + last.end - last.begin
  }

  function NumberIn(it: NodeInterval, n: int): int {
    it.offset + n - it.begin
  }

  lemma {:induction false} OffsetsGrow(its: seq<NodeInterval>, i: nat, j: nat)
    requires ValidIntervals(its) && i < j < |its|
    ensures its[i].offset + Length(its[i]) <= its[j].offset
    decreases j
  {
    if i + 1 < j {
      OffsetsGrow(its, i, j - 1);
      assert its[j].offset == its[j - 1].offset + Length(its[j - 1]);
    }
  }

  lemma OffsetsInside(its: seq<NodeInterval>, i: nat)
    requires ValidIntervals(its) && i < |its|
    ensures 0 <= its[i].offset && its[i].offset + Length(its[i]) <= Count(its)
  {
    if i > 0 {
      OffsetsGrow(its, 0, i);
    }
    if i < |its| - 1 {
      OffsetsGrow(its, i, |its| - 1);
    }
  }

  /** The interval of a node is unique, so its number is. */
  ghost function Number(its: seq<NodeInterval>, n: int): (r: int)
    requires ValidIntervals(its) && IsNode(its, n)
    ensures 0 <= r < Count(its)
  {
    var i: nat :| i < |its| && InInterval(its[i], n);
    OffsetsInside(its, i);
    NumberIn(its[i], n)
  }

  lemma NumberFrom(its: seq<NodeInterval>, i: nat, n: int)
    requires ValidIntervals(its) && i < |its| && InInterval(its[i], n)
    ensures IsNode(its, n) && Number(its, n) == NumberIn(its[i], n)
  {
  }

  /** Numbering keeps the order, so no number is given twice. */
  lemma NumberIncreases(its: seq<NodeInterval>, m: int, n: int)
    requires ValidIntervals(its) && IsNode(its, m) && IsNode(its, n) && m < n
    ensures Number(its, m) < Number(its, n)
  {
    var i: nat :| i < |its| && InInterval(its[i], m);
    var j: nat :| j < |its| && InInterval(its[j], n);
    NumberFrom(its, i, m);
    NumberFrom(its, j, n);
    if i < j {
      OffsetsGrow(its, i, j);
    }
  }

  /** Every number up to the count is given. */
  lemma {:induction false} NumberCovers(its: seq<NodeInterval>, r: int, k: nat) returns (n: int)
    requires ValidIntervals(its) && k < |its| && 0 <= r < its[k].offset + Length(its[k])
    ensures IsNode(its, n) && Number(its, n) == r
  {
    if its[k].offset <= r {
      n := its[k].begin + r - its[k].offset;
      NumberFrom(its, k, n);
    } else {
      n := NumberCovers(its, r, k - 1);
    }
  }

  /** Numbering is a bijection from the nodes onto `0 .. Count`. */
  lemma NumberBijective(its: seq<NodeInterval>, r: int) returns (n: int)
    requires ValidIntervals(its) && 0 <= r < Count(its)
    ensures IsNode(its, n) && Number(its, n) == r
    ensures forall m :: IsNode(its, m) && Number(its, m) == r ==> m == n
  {
    n := NumberCovers(its, r, |its| - 1);
    forall m | IsNode(its, m) && Number(its, m) == r
      ensures m == n
    {
      if m < n {
        NumberIncreases(its, m, n);
      } else if n < m {
        NumberIncreases(its, n, m);
      }
    }
  }

  /** The intervals that end at or before `n`, found by bisection as `std::lower_bound` does. */
  method LowerBoundLookup(its: seq<NodeInterval>, n: int) returns (number: int)
    requires ValidIntervals(its) && IsNode(its, n)
    ensures number == Number(its, n)
  {
    ghost var at: nat :| at < |its| && InInterval(its[at], n);
    var first, count := 0, |its|;
    while count > 0
      invariant 0 <= first <= at <= first + count <= |its|
    {
      var step := count / 2;
      if its[first + step].end <= n {
        first := first + step + 1;
        count := count - step - 1;
      } else {
        assert at < first + step ==> its[at].end <= its[first + step].begin;
        count := step;
      }
    }
    NumberFrom(its, at, n);
    number := its[first].offset + n - its[first].begin;
  }

  /** The walk that stops at an interval ending in `n` too: then `n` opens the next non-empty one. */
  method WalkLookup(its: seq<NodeInterval>, n: int) returns (number: int)
    requires ValidIntervals(its) && IsNode(its, n)
    ensures number == Number(its, n)
  {
    ghost var at: nat :| at < |its| && InInterval(its[at], n);
    var i := 0;
    while its[i].end < n
      invariant 0 <= i <= at
      decreases at - i
    {
      i := i + 1;
    }
    NumberFrom(its, at, n);
    EndsAtNext(its, i, at, n);
    number := its[i].offset + n - its[i].begin;
  }

  /** Intervals between one that ends in `n` and the one that begins with it are empty. */
  lemma {:induction false} EndsAtNext(its: seq<NodeInterval>, i: nat, at: nat, n: int)
    requires ValidIntervals(its) && i <= at < |its| && n <= its[i].end && InInterval(its[at], n)
    ensures NumberIn(its[i], n) == NumberIn(its[at], n)
    decreases at - i
  {
    if i < at {
      assert its[i].end <= its[at].begin;
      if i + 1 < at {
        assert its[i].end <= its[i + 1].begin && its[i + 1].end <= its[at].begin;
      }
      EndsAtNext(its, i + 1, at, n);
    }
  }

  /** Degrees of freedom of an element: all of the first kind, then all of the second, and so on. */
  method FillDofsIndices(its: seq<NodeInterval>, nodes: seq<int>, dofs: nat) returns (indices: seq<int>)
    requires ValidIntervals(its) && forall k :: 0 <= k < |nodes| ==> IsNode(its, nodes[k])
    ensures |indices| == Multiple(|nodes|, dofs)
    ensures forall dof, k :: 0 <= dof < dofs && 0 <= k < |nodes| ==> IndexAt(its, nodes, dofs, indices, dof, k)
  {
    indices := [];
    for dof := 0 to dofs
      invariant |indices| == Multiple(|nodes|, dof)
      invariant forall d, k :: 0 <= d < dof && 0 <= k < |nodes| ==> IndexAt(its, nodes, dofs, indices, d, k)
    {
      ghost var before := indices;
      for k := 0 to |nodes|
        invariant |indices| == Multiple(|nodes|, dof) + k && before <= indices
        invariant forall l :: 0 <= l < k ==> IndexAt(its, nodes, dofs, indices, dof, l)
      {
        var number := LowerBoundLookup(its, nodes[k]);
        ghost var soFar := indices;
        indices := indices + [dofs * number + dof];
        forall l | 0 <= l < k
          ensures IndexAt(its, nodes, dofs, indices, dof, l)
        {
          IndexKept(its, nodes, dofs, soFar, indices, dof, l);
        }
      }
      forall d, k | 0 <= d < dof && 0 <= k < |nodes|
        ensures IndexAt(its, nodes, dofs, indices, d, k)
      {
        IndexKept(its, nodes, dofs, before, indices, d, k);
      }
    }
  }

  ghost predicate IndexAt(its: seq<NodeInterval>, nodes: seq<int>, dofs: nat, indices: seq<int>, dof: nat, k: nat)
    requires ValidIntervals(its) && k < |nodes| && IsNode(its, nodes[k])
  {
    var at := Multiple(|nodes|, dof) + k;
    at < |indices| && indices[at] == dofs * Number(its, nodes[k]) + dof
  }

  lemma IndexKept(its: seq<NodeInterval>, nodes: seq<int>, dofs: nat, indices: seq<int>, longer: seq<int>, dof: nat, k: nat)
    requires ValidIntervals(its) && k < |nodes| && IsNode(its, nodes[k])
    requires IndexAt(its, nodes, dofs, indices, dof, k) && indices <= longer
    ensures IndexAt(its, nodes, dofs, longer, dof, k)
  {
  }

  /** No two nodes and kinds share a degree of freedom, and all lie below `dofs * Count`. */
  lemma IndicesDistinct(its: seq<NodeInterval>, dofs: nat, m: int, d: nat, n: int, e: nat)
    requires ValidIntervals(its) && IsNode(its, m) && IsNode(its, n) && d < dofs && e < dofs
    ensures 0 <= dofs * Number(its, m) + d < dofs * Count(its)
    ensures dofs * Number(its, m) + d == dofs * Number(its, n) + e ==> m == n && d == e
  {
    hide ValidIntervals, IsNode, Number, Count;
    var a, b := Number(its, m), Number(its, n);
    DigitBelow(dofs, a, d, Count(its));
    if a < b {
      DigitBelow(dofs, a, d, b);
    } else if b < a {
      DigitBelow(dofs, b, e, a);
    }
    if m < n {
      NumberIncreases(its, m, n);
    } else if n < m {
      NumberIncreases(its, n, m);
    }
  }

  lemma DigitBelow(base: nat, a: int, d: nat, n: int)
    requires d < base && 0 <= a < n
    ensures 0 <= base * a + d < base * n
  {
    Grows(base, a, 0);
    Grows(base, n, a + 1);
    assert base * (a + 1) == base * a + base;
  }

  lemma Grows(base: nat, b: int, a: int)
    requires a <= b
    ensures base * a <= base * b
  {
  }
}
