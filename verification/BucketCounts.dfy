/**
 * The element counts `clusterize` works with: a local histogram for the coarse levels, a scan of
 * the sorted elements for the fine ones, and the sum over all processes.
 */
module BucketCounts {
  import opened Basis
  import opened BorderRefinement

  /** Elements of one process in buckets before position `x`. */
  function CountBelow(s: seq<nat>, x: nat): (r: nat)
    ensures r <= |s|
  {
    if s == [] then 0 else CountBelow(s[..|s| - 1], x) + if s[|s| - 1] < x then 1 else 0
  }

  /** Elements of all processes in buckets before position `x`. */
  function GlobalBelow(all: seq<seq<nat>>, x: nat): nat {
    if all == [] then 0 else GlobalBelow(all[..|all| - 1], x) + CountBelow(all[|all| - 1], x)
  }

  function GlobalSize(all: seq<seq<nat>>): nat {
    if all == [] then 0 else GlobalSize(all[..|all| - 1]) + |all[|all| - 1]|
  }

  lemma {:induction false} CountMonotone(s: seq<nat>, x: nat, y: nat)
    requires x <= y
    ensures CountBelow(s, x) <= CountBelow(s, y)
  {
    if s != [] {
      CountMonotone(s[..|s| - 1], x, y);
    }
  }

  lemma {:induction false} CountEnds(s: seq<nat>, x: nat)
    requires forall e :: 0 <= e < |s| ==> s[e] < x
    ensures CountBelow(s, 0) == 0 && CountBelow(s, x) == |s|
  {
    if s != [] {
      CountEnds(s[..|s| - 1], x);
    }
  }

  ghost function CountsOfAll(all: seq<seq<nat>>): nat -> nat {
    (x: nat) => GlobalBelow(all, x)
  }

  ghost predicate BelowLimit(all: seq<seq<nat>>, limit: nat) {
    forall p, e :: 0 <= p < |all| && 0 <= e < |all[p]| ==> all[p][e] < limit
  }

  lemma {:induction false} GlobalMonotone(all: seq<seq<nat>>, x: nat, y: nat)
    requires x <= y
    ensures GlobalBelow(all, x) <= GlobalBelow(all, y)
  {
    if all != [] {
      GlobalMonotone(all[..|all| - 1], x, y);
      CountMonotone(all[|all| - 1], x, y);
    }
  }

  lemma {:induction false} GlobalEnds(all: seq<seq<nat>>, limit: nat)
    requires BelowLimit(all, limit)
    ensures GlobalBelow(all, 0) == 0 && GlobalBelow(all, limit) == GlobalSize(all)
  {
    if all != [] {
      GlobalEnds(all[..|all| - 1], limit);
      CountEnds(all[|all| - 1], limit);
    }
  }

  lemma {:induction false} GlobalBounded(all: seq<seq<nat>>, x: nat)
    ensures GlobalBelow(all, x) <= GlobalSize(all)
  {
    if all != [] {
      GlobalBounded(all[..|all| - 1], x);
    }
  }

  /** The counts of all processes are a histogram of the whole curve. */
  lemma CountsAreMonotone(all: seq<seq<nat>>)
    ensures Monotone(CountsOfAll(all))
  {
    forall x: nat, y: nat | x <= y
      ensures CountsOfAll(all)(x) <= CountsOfAll(all)(y)
    {
      GlobalMonotone(all, x, y);
    }
  }

  /** In a sorted list the elements before position `x` come first. */
  lemma {:induction false} CountInSorted(s: seq<nat>, x: nat, e: nat)
    requires Sorted(s) && e <= |s|
    requires (e > 0 ==> s[e - 1] < x) && (e < |s| ==> s[e] >= x)
    ensures CountBelow(s, x) == e
  {
    if s != [] {
      var l := |s| - 1;
      if e == |s| {
        if l > 0 {
          assert s[..l][l - 1] <= s[l];
        }
        CountInSorted(s[..l], x, l);
      } else {
        assert s[e] <= s[l];
        CountInSorted(s[..l], x, e);
      }
    }
  }

  lemma RemoveAt(b: seq<nat>, k: nat, x: nat)
    requires k < |b|
    ensures multiset(b[..k] + b[k + 1..]) == multiset(b) - multiset{b[k]}
    ensures CountBelow(b, x) == CountBelow(b[..k] + b[k + 1..], x) + if b[k] < x then 1 else 0
  {
    assert b == b[..k] + ([b[k]] + b[k + 1..]);
    hide CountBelow;
    CountAppend(b[..k], [b[k]] + b[k + 1..], x);
    CountAppend([b[k]], b[k + 1..], x);
    CountAppend(b[..k], b[k + 1..], x);
    CountOne(b[k], x);
  }

  /** The order of the elements does not matter. */
  lemma {:induction false} CountPermuted(a: seq<nat>, b: seq<nat>, x: nat)
    requires multiset(a) == multiset(b)
    ensures CountBelow(a, x) == CountBelow(b, x)
    decreases |a|
  {
    if a != [] {
      var l := |a| - 1;
      assert a[l] in multiset(b);
      var k :| 0 <= k < |b| && b[k] == a[l];
      RemoveAt(b, k, x);
      RemoveAt(a, l, x);
      assert a[..l] + a[l + 1..] == a[..l];
      CountPermuted(a[..l], b[..k] + b[k + 1..], x);
    } else {
      assert |multiset(b)| == 0;
    }
  }

  lemma CountOne(y: nat, x: nat)
    ensures CountBelow([y], x) == if y < x then 1 else 0
  {
    assert [y][..0] == [];
  }

  lemma {:induction false} CountAppend(a: seq<nat>, b: seq<nat>, x: nat)
    ensures CountBelow(a + b, x) == CountBelow(a, x) + CountBelow(b, x)
    decreases |b|
  {
    if b == [] {
      assert a + b == a;
    } else {
      DropLastAppend(a, b);
      CountAppend(a, b[..|b| - 1], x);
    }
  }

  /** The places of the elements below position `x`. */
  ghost function CountedPlaces(s: seq<nat>, x: nat): set<int> {
    set e | 0 <= e < |s| && s[e] < x
  }

  lemma PlacesNext(s: seq<nat>, x: nat)
    requires s != []
    ensures var l, before := |s| - 1, CountedPlaces(s[..|s| - 1], x);
      l !in before && CountedPlaces(s, x) == if s[l] < x then before + {l} else before
  {
  }

  /** The count is the number of elements below the position. */
  lemma {:induction false} CountIsCardinality(s: seq<nat>, x: nat)
    ensures CountBelow(s, x) == |CountedPlaces(s, x)|
  {
    if s != [] {
      CountIsCardinality(s[..|s| - 1], x);
      PlacesNext(s, x);
      hide CountedPlaces;
    }
  }

  /** Over all processes: the count among all their elements. */
  lemma {:induction false} GlobalIsCount(all: seq<seq<nat>>, x: nat)
    ensures GlobalBelow(all, x) == CountBelow(Flatten(all), x)
  {
    if all != [] {
      GlobalIsCount(all[..|all| - 1], x);
      CountAppend(Flatten(all[..|all| - 1]), all[|all| - 1], x);
    }
  }
}
