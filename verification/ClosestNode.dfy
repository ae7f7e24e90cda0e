/**
 * Which of its nodes an element asks for in `RandomInput::assignEBuckets`: what the scan over the
 * nodes really chooses, and when that is a node of the process itself.
 */
module ClosestNode {
  function Distance(a: nat, b: nat): nat {
    if a < b then b - a else a - b
  }

  /** One of the nodes `begin .. end` of the process. */
  predicate Own(n: nat, begin: nat, end: nat) {
    begin <= n < end
  }

  /** What the scan holds after the first `k` nodes. */
  function Closest(nodes: seq<nat>, begin: nat, end: nat, k: nat): (c: nat)
    requires 0 < k <= |nodes|
  {
    if k == 1 then nodes[0] else
      var c, n := Closest(nodes, begin, end, k - 1), nodes[k - 1];
      if Own(n, begin, end)
      then if c > n || c < begin then n else c
      else if Distance(c, begin) > Distance(n, begin) then n else c
  }

  /** An own node from number `l` on and before number `i` is at least as near to `begin` as node `i`. */
  ghost predicate Guarded(nodes: seq<nat>, begin: nat, end: nat, l: nat, i: nat)
    requires i < |nodes|
  {
    exists j :: l <= j < i && Own(nodes[j], begin, end) && Distance(nodes[j], begin) <= Distance(nodes[i], begin)
  }

  /** Node `l` is an own one, and nodes below the range that follow are no nearer than the own ones up to there. */
  ghost predicate Kept(nodes: seq<nat>, begin: nat, end: nat, l: nat, k: nat)
    requires k <= |nodes|
  {
    l < k && Own(nodes[l], begin, end) && forall i :: l < i < k && nodes[i] < begin ==> Guarded(nodes, begin, end, l, i)
  }

  ghost predicate SomeKept(nodes: seq<nat>, begin: nat, end: nat) {
    exists l: nat :: Kept(nodes, begin, end, l, |nodes|)
  }

  /** No own node from number `i` on. */
  ghost predicate BehindOwn(nodes: seq<nat>, begin: nat, end: nat, i: nat, k: nat)
    requires k <= |nodes|
  {
    i < k && forall j :: i <= j < k ==> !Own(nodes[j], begin, end)
  }

  lemma {:induction false} KeptStays(nodes: seq<nat>, begin: nat, end: nat, l: nat, k: nat)
    requires k <= |nodes| && Kept(nodes, begin, end, l, k)
    ensures Own(Closest(nodes, begin, end, k), begin, end)
    ensures forall j :: l <= j < k && Own(nodes[j], begin, end) ==> Closest(nodes, begin, end, k) <= nodes[j]
  {
    if l < k - 1 {
      KeptStays(nodes, begin, end, l, k - 1);
      var n := nodes[k - 1];
      if n < begin {
        assert Guarded(nodes, begin, end, l, k - 1);
      }
    }
  }

  lemma {:induction false} OwnIsKept(nodes: seq<nat>, begin: nat, end: nat, k: nat) returns (l: nat, j: nat)
    requires 0 < k <= |nodes| && Own(Closest(nodes, begin, end, k), begin, end)
    ensures Kept(nodes, begin, end, l, k) && l <= j < k && nodes[j] == Closest(nodes, begin, end, k)
  {
    if k == 1 {
      l, j := 0, 0;
    } else {
      var c, n := Closest(nodes, begin, end, k - 1), nodes[k - 1];
      if Own(c, begin, end) {
        l, j := OwnIsKept(nodes, begin, end, k - 1);
        if n < begin {
          assert Guarded(nodes, begin, end, l, k - 1);
        }
        if Own(n, begin, end) && c > n {
          j := k - 1;
        }
      } else {
        l, j := k - 1, k - 1;
      }
    }
  }

  lemma {:induction false} NearestBehindOwn(nodes: seq<nat>, begin: nat, end: nat, k: nat, i: nat)
    requires k <= |nodes| && BehindOwn(nodes, begin, end, i, k)
    ensures Distance(Closest(nodes, begin, end, k), begin) <= Distance(nodes[i], begin)
  {
    if i < k - 1 {
      NearestBehindOwn(nodes, begin, end, k - 1, i);
    }
  }

  /** Node `i` is behind all own nodes, and nearer than the others there before it. */
  ghost predicate FirstNearest(nodes: seq<nat>, begin: nat, end: nat, i: nat, k: nat)
    requires k <= |nodes|
  {
    BehindOwn(nodes, begin, end, i, k) &&
    forall h :: 0 <= h < i && BehindOwn(nodes, begin, end, h, k) ==> Distance(nodes[i], begin) < Distance(nodes[h], begin)
  }

  lemma {:induction false} RemoteIsFirstNearest(nodes: seq<nat>, begin: nat, end: nat, k: nat) returns (i: nat)
    requires 0 < k <= |nodes| && !Own(Closest(nodes, begin, end, k), begin, end)
    ensures FirstNearest(nodes, begin, end, i, k) && nodes[i] == Closest(nodes, begin, end, k)
  {
    if k == 1 {
      i := 0;
    } else {
      var c, n := Closest(nodes, begin, end, k - 1), nodes[k - 1];
      if Distance(c, begin) > Distance(n, begin) {
        i := k - 1;
        hide Closest;
        forall h | 0 <= h < i && BehindOwn(nodes, begin, end, h, k)
          ensures Distance(nodes[i], begin) < Distance(nodes[h], begin)
        {
          NearestBehindOwn(nodes, begin, end, k - 1, h);
        }
      } else {
        i := RemoteIsFirstNearest(nodes, begin, end, k - 1);
        hide Closest;
        FirstNearestStays(nodes, begin, end, i, k - 1);
      }
    }
  }

  lemma FirstNearestStays(nodes: seq<nat>, begin: nat, end: nat, i: nat, k: nat)
    requires k < |nodes| && FirstNearest(nodes, begin, end, i, k) && !Own(nodes[k], begin, end)
    ensures FirstNearest(nodes, begin, end, i, k + 1)
  {
    hide Distance;
    forall h | 0 <= h < i && BehindOwn(nodes, begin, end, h, k + 1)
      ensures Distance(nodes[i], begin) < Distance(nodes[h], begin)
    {
      assert BehindOwn(nodes, begin, end, h, k);
    }
  }

  /** The smallest of the own nodes that are kept. */
  ghost predicate SmallestKept(nodes: seq<nat>, begin: nat, end: nat, c: nat) {
    && (exists l: nat, j: nat :: Kept(nodes, begin, end, l, |nodes|) && l <= j < |nodes| && nodes[j] == c && Own(c, begin, end))
    && (forall l: nat, j: nat :: Kept(nodes, begin, end, l, |nodes|) && l <= j < |nodes| && Own(nodes[j], begin, end) ==> c <= nodes[j])
  }

  /** Behind the last own node, the nearest to `begin`, and the first of those. */
  ghost predicate NearestRemote(nodes: seq<nat>, begin: nat, end: nat, c: nat) {
    && (exists i: nat :: FirstNearest(nodes, begin, end, i, |nodes|) && nodes[i] == c)
    && (forall i: nat :: BehindOwn(nodes, begin, end, i, |nodes|) ==> Distance(c, begin) <= Distance(nodes[i], begin))
  }

  /** The node the source chooses: a kept own one if there is one, else a remote one. */
  ghost predicate IsChosen(nodes: seq<nat>, begin: nat, end: nat, c: nat) {
    if SomeKept(nodes, begin, end) then SmallestKept(nodes, begin, end, c) else NearestRemote(nodes, begin, end, c)
  }

  /** A node of the process itself is chosen exactly when one is kept. */
  lemma OwnChosenIff(nodes: seq<nat>, begin: nat, end: nat)
    requires nodes != []
    ensures Own(Closest(nodes, begin, end, |nodes|), begin, end) <==> SomeKept(nodes, begin, end)
  {
    if Own(Closest(nodes, begin, end, |nodes|), begin, end) {
      var l, j := OwnIsKept(nodes, begin, end, |nodes|);
    }
    if l: nat :| Kept(nodes, begin, end, l, |nodes|) {
      KeptStays(nodes, begin, end, l, |nodes|);
    }
  }

  lemma ClosestIsChosen(nodes: seq<nat>, begin: nat, end: nat)
    requires nodes != []
    ensures IsChosen(nodes, begin, end, Closest(nodes, begin, end, |nodes|))
  {
    OwnChosenIff(nodes, begin, end);
    var c := Closest(nodes, begin, end, |nodes|);
    if Own(c, begin, end) {
      var l, j := OwnIsKept(nodes, begin, end, |nodes|);
      forall l: nat, j: nat | Kept(nodes, begin, end, l, |nodes|) && l <= j < |nodes| && Own(nodes[j], begin, end)
        ensures c <= nodes[j]
      {
        KeptStays(nodes, begin, end, l, |nodes|);
      }
    } else {
      var i := RemoteIsFirstNearest(nodes, begin, end, |nodes|);
      forall i: nat | BehindOwn(nodes, begin, end, i, |nodes|)
        ensures Distance(c, begin) <= Distance(nodes[i], begin)
      {
        NearestBehindOwn(nodes, begin, end, |nodes|, i);
      }
    }
  }

  /** No other node meets the description. */
  lemma ChosenIsUnique(nodes: seq<nat>, begin: nat, end: nat, a: nat, b: nat)
    requires IsChosen(nodes, begin, end, a) && IsChosen(nodes, begin, end, b)
    ensures a == b
  {
    if SomeKept(nodes, begin, end) {
      KeptNotAbove(nodes, begin, end, a, b);
      KeptNotAbove(nodes, begin, end, b, a);
    } else {
      var i: nat :| FirstNearest(nodes, begin, end, i, |nodes|) && nodes[i] == a;
      var h: nat :| FirstNearest(nodes, begin, end, h, |nodes|) && nodes[h] == b;
      assert Distance(a, begin) <= Distance(nodes[h], begin) && Distance(b, begin) <= Distance(nodes[i], begin);
    }
  }

  lemma KeptNotAbove(nodes: seq<nat>, begin: nat, end: nat, a: nat, b: nat)
    requires SmallestKept(nodes, begin, end, a) && SmallestKept(nodes, begin, end, b)
    ensures a <= b
  {
    var l: nat, j: nat :| Kept(nodes, begin, end, l, |nodes|) && l <= j < |nodes| && nodes[j] == b && Own(b, begin, end);
    assert a <= nodes[j];
  }

  lemma ChosenIsMember(nodes: seq<nat>, begin: nat, end: nat, c: nat)
    requires IsChosen(nodes, begin, end, c)
    ensures c in nodes
  {
    if SomeKept(nodes, begin, end) {
      var l: nat, j: nat :| Kept(nodes, begin, end, l, |nodes|) && l <= j < |nodes| && nodes[j] == c && Own(c, begin, end);
    } else {
      var i: nat :| FirstNearest(nodes, begin, end, i, |nodes|) && nodes[i] == c;
    }
  }

  /** Without own nodes, the chosen node is as near to the begin of the range as any. */
  lemma RemoteIsNearest(nodes: seq<nat>, begin: nat, end: nat, c: nat)
    requires IsChosen(nodes, begin, end, c) && forall i :: 0 <= i < |nodes| ==> !(begin <= nodes[i] < end)
    ensures forall i :: 0 <= i < |nodes| ==>
      (if c < begin then begin - c else c - begin) <= (if nodes[i] < begin then begin - nodes[i] else nodes[i] - begin)
  {
    forall i | 0 <= i < |nodes|
      ensures Distance(c, begin) <= Distance(nodes[i], begin)
    {
      assert BehindOwn(nodes, begin, end, i, |nodes|);
    }
  }

  /** Without nodes below the range, an own node is chosen whenever there is one. */
  lemma NoneBelowMeansOwn(nodes: seq<nat>, begin: nat, end: nat, c: nat)
    requires IsChosen(nodes, begin, end, c) && forall i :: 0 <= i < |nodes| ==> nodes[i] >= begin
    ensures Own(c, begin, end) <==> exists i :: 0 <= i < |nodes| && Own(nodes[i], begin, end)
  {
    if i :| 0 <= i < |nodes| && Own(nodes[i], begin, end) {
      assert Kept(nodes, begin, end, i, |nodes|);
    }
    if Own(c, begin, end) {
      ChosenIsMember(nodes, begin, end, c);
    }
  }

  /**
   * The choice is what its comment promises, a node of the process itself if the element has one,
   * exactly when the element has none or one is kept.
   */
  lemma OwnPreferredIff(nodes: seq<nat>, begin: nat, end: nat, c: nat)
    requires IsChosen(nodes, begin, end, c)
    ensures ((exists i :: 0 <= i < |nodes| && Own(nodes[i], begin, end)) ==> Own(c, begin, end)) <==>
      (forall i :: 0 <= i < |nodes| ==> !Own(nodes[i], begin, end)) || SomeKept(nodes, begin, end)
  {
    if !SomeKept(nodes, begin, end) {
      var i: nat :| FirstNearest(nodes, begin, end, i, |nodes|) && nodes[i] == c;
      assert !Own(c, begin, end);
    }
  }

  /** A remote node just below the range wins over a node of the process itself. */
  lemma ClosestExample()
    ensures IsChosen([15, 9], 10, 20, 9) && Own(15, 10, 20) && !Own(9, 10, 20)
  {
    assert Closest([15, 9], 10, 20, 1) == 15;
    ClosestIsChosen([15, 9], 10, 20);
  }
}
