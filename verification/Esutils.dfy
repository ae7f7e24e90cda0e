/** Helpers of `Esutils`: prefix sums and duplicate removal, with `std::sort` as a contract. */
module Esutils {
  import opened Basis

  function Insert(x: nat, s: seq<nat>): seq<nat> {
    if s == [] || s[|s| - 1] <= x then s + [x] else Insert(x, s[..|s| - 1]) + [s[|s| - 1]]
  }

  lemma {:induction false} InsertKeepsAll(x: nat, s: seq<nat>)
    ensures multiset(Insert(x, s)) == multiset(s) + multiset{x}
  {
    if s != [] && s[|s| - 1] > x {
      InsertKeepsAll(x, s[..|s| - 1]);
      assert s == s[..|s| - 1] + [s[|s| - 1]];
    }
  }

  lemma {:induction false} InsertSorted(x: nat, s: seq<nat>)
    requires Sorted(s)
    ensures Sorted(Insert(x, s))
    ensures forall e :: 0 <= e < |Insert(x, s)| ==> Insert(x, s)[e] <= x || (s != [] && Insert(x, s)[e] <= s[|s| - 1])
  {
    if s != [] && s[|s| - 1] > x {
      InsertSorted(x, s[..|s| - 1]);
    }
  }

  /** The result of `std::sort`. */
  function SortOf(s: seq<nat>): seq<nat> {
    if s == [] then [] else Insert(s[|s| - 1], SortOf(s[..|s| - 1]))
  }

  lemma {:induction false} SortKeepsAll(s: seq<nat>)
    ensures multiset(SortOf(s)) == multiset(s)
  {
    if s != [] {
      SortKeepsAll(s[..|s| - 1]);
      hide Insert;
      InsertKeepsAll(s[|s| - 1], SortOf(s[..|s| - 1]));
      SplitLast(s);
    }
  }

  lemma {:induction false} SortOfSorted(s: seq<nat>)
    ensures Sorted(SortOf(s))
  {
    if s != [] {
      SortOfSorted(s[..|s| - 1]);
      InsertSorted(s[|s| - 1], SortOf(s[..|s| - 1]));
    }
  }

  lemma SplitLast(s: seq<nat>)
    requires s != []
    ensures s == s[..|s| - 1] + [s[|s| - 1]]
  {
  }

  lemma SortedInit(s: seq<nat>)
    requires Sorted(s) && s != []
    ensures Sorted(s[..|s| - 1])
    ensures |s| > 1 ==> s[..|s| - 1][|s| - 2] <= s[|s| - 1]
  {
  }

  /** A sorted list is left as it is. */
  lemma {:induction false} SortIsIdentity(s: seq<nat>)
    requires Sorted(s)
    ensures SortOf(s) == s
  {
    if s != [] {
      SplitLast(s);
      SortedInit(s);
      hide Sorted;
      SortIsIdentity(s[..|s| - 1]);
    }
  }

  /** Every run of equal neighbours shortened to one element. */
  function Unique(s: seq<nat>): (r: seq<nat>)
    ensures s != [] ==> r != [] && r[|r| - 1] == s[|s| - 1]
  {
    if |s| <= 1 then s
    else if s[|s| - 2] == s[|s| - 1] then Unique(s[..|s| - 1])
    else Unique(s[..|s| - 1]) + [s[|s| - 1]]
  }

  /** `removeDuplicity`: keeps the first of each run, moving it behind the ones kept so far. */
  method RemoveDuplicity(s: seq<nat>) returns (data: seq<nat>)
    ensures data == Unique(s)
  {
    data := s;
    if |data| == 0 {
      return;
    }
    var unique := 0;
    assert s[..1] == [s[0]];
    for d := 1 to |data|
      invariant |data| == |s| && unique < d
      invariant data[d..] == s[d..]
      invariant data[..unique + 1] == Unique(s[..d])
    {
      assert s[..d + 1][..d] == s[..d];
      assert data[d] == data[d..][0] == s[d..][0] == s[d];
      assert data[unique] == data[..unique + 1][unique] == s[d - 1];
      if data[unique] != data[d] {
        unique := unique + 1;
        ghost var before := data[..unique];
        data := data[unique := data[d]];
        assert data[..unique + 1] == before + [s[d]];
      }
      assert data[d + 1..] == s[d + 1..];
    }
    assert s[..|s|] == s;
    data := data[..unique + 1];
  }

  /** Of a sorted list, the members remain, each once, in order. */
  lemma {:induction false} UniqueIncreasing(s: seq<nat>)
    requires Sorted(s)
    ensures Increasing(Unique(s))
    ensures forall e :: 0 <= e < |Unique(s)| ==> Unique(s)[e] <= s[|s| - 1]
  {
    if |s| > 1 {
      SortedInit(s);
      UniqueIncreasing(s[..|s| - 1]);
    }
  }

  lemma {:induction false} UniqueMembers(s: seq<nat>)
    ensures forall x :: x in Unique(s) <==> x in s
  {
    if |s| > 1 {
      SplitLast(s);
      UniqueMembers(s[..|s| - 1]);
    }
  }

  /** Positions picking the elements of `u` from `s`. */
  ghost predicate Picks(from: seq<nat>, s: seq<nat>, u: seq<nat>) {
    |from| == |u| && forall e :: 0 <= e < |from| ==> from[e] < |s| && u[e] == s[from[e]]
  }

  lemma PicksMore(from: seq<nat>, s: seq<nat>, u: seq<nat>)
    requires |s| > 0 && Picks(from, s[..|s| - 1], u)
    ensures Picks(from, s, u) && Picks(from + [|s| - 1], s, u + [s[|s| - 1]])
  {
  }

  /** Both lists have equal neighbours at the same places. */
  ghost predicate SameSteps(a: seq<nat>, b: seq<nat>) {
    |a| == |b| &&
    (|a| <= 1 || ((a[|a| - 2] == a[|a| - 1] <==> b[|b| - 2] == b[|b| - 1]) && SameSteps(a[..|a| - 1], b[..|b| - 1])))
  }

  /** One more element: it remains unless it equals the one before. */
  lemma PicksLast(from: seq<nat>, s: seq<nat>)
    requires |s| > 1 && Picks(from, s[..|s| - 1], Unique(s[..|s| - 1]))
    ensures Picks(if s[|s| - 2] != s[|s| - 1] then from + [|s| - 1] else from, s, Unique(s))
  {
    hide Picks;
    PicksMore(from, s, Unique(s[..|s| - 1]));
  }

  lemma StepsInit(a: seq<nat>, b: seq<nat>)
    requires SameSteps(a, b) && |a| > 1
    ensures |a| == |b| && (a[|a| - 2] == a[|a| - 1] <==> b[|b| - 2] == b[|b| - 1]) && SameSteps(a[..|a| - 1], b[..|b| - 1])
  {
  }

  lemma ShortAligned(a: seq<nat>, b: seq<nat>) returns (from: seq<nat>)
    requires SameSteps(a, b) && |a| <= 1
    ensures Picks(from, a, Unique(a)) && Picks(from, b, Unique(b))
  {
    from := if a == [] then [] else [0];
  }

  /** Two lists with the same equal neighbours stay aligned: the same positions remain of both. */
  lemma {:induction false} UniqueAligned(a: seq<nat>, b: seq<nat>) returns (from: seq<nat>)
    requires SameSteps(a, b)
    ensures Picks(from, a, Unique(a)) && Picks(from, b, Unique(b))
  {
    hide Picks, Unique, SameSteps;
    if |a| <= 1 {
      from := ShortAligned(a, b);
    } else {
      StepsInit(a, b);
      from := UniqueAligned(a[..|a| - 1], b[..|b| - 1]);
      PicksLast(from, a);
      PicksLast(from, b);
      if a[|a| - 2] != a[|a| - 1] {
        from := from + [|a| - 1];
      }
    }
  }

  ghost predicate OffsetAt(offsets: seq<nat>, sizes: seq<nat>, j: nat)
    requires j < |offsets| == |sizes|
  {
    offsets[j] == Prefix(sizes, j)
  }

  /** `sizesToOffsets`: every size replaced by the sum of the sizes before it. */
  method SizesToOffsets(sizes: seq<nat>) returns (offsets: seq<nat>, sum: nat)
    ensures |offsets| == |sizes| && sum == Prefix(sizes, |sizes|)
    ensures forall i :: 0 <= i < |sizes| ==> OffsetAt(offsets, sizes, i)
  {
    offsets, sum := sizes, 0;
    for i := 0 to |sizes|
      invariant |offsets| == |sizes| && sum == Prefix(sizes, i)
      invariant forall j :: 0 <= j < i ==> OffsetAt(offsets, sizes, j)
      invariant offsets[i..] == sizes[i..]
    {
      var tmp := offsets[i];
      assert tmp == offsets[i..][0] == sizes[i];
      ghost var before := offsets;
      offsets := offsets[i := sum];
      sum := sum + tmp;
      OffsetsKept(before, offsets, sizes, i);
    }
  }

  lemma OffsetsKept(before: seq<nat>, after: seq<nat>, sizes: seq<nat>, i: nat)
    requires i < |before| == |sizes| && after == before[i := Prefix(sizes, i)] && before[i..] == sizes[i..]
    requires forall j :: 0 <= j < i ==> OffsetAt(before, sizes, j)
    ensures forall j :: 0 <= j < i + 1 ==> OffsetAt(after, sizes, j)
    ensures after[i + 1..] == sizes[i + 1..]
  {
    forall j | 0 <= j < i + 1
      ensures OffsetAt(after, sizes, j)
    {
      assert j < i ==> OffsetAt(before, sizes, j);
    }
    assert after[i + 1..] == before[i..][1..] == sizes[i..][1..];
  }
}
