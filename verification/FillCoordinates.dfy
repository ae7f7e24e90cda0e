/**
 * `SortedInput::fillCoordinates`: every process asks the owners of the nodes its elements use, and
 * the owners answer with the coordinates and with the list of all processes that use each node.
 */
module FillCoordinates {
  import opened Basis
  import opened Esutils
  import opened TArray

  /** Processes below `p` that use a node, in order. */
  function Users(used: seq<seq<nat>>, id: nat, p: nat): (r: seq<nat>)
    requires p <= |used|
  {
    if p == 0 then [] else Users(used, id, p - 1) + if id in used[p - 1] then [p - 1] else []
  }

  lemma {:induction false} UsersMembers(used: seq<seq<nat>>, id: nat, p: nat)
    requires p <= |used|
    ensures Increasing(Users(used, id, p))
    ensures forall q :: q in Users(used, id, p) <==> 0 <= q < p && id in used[q]
  {
    if p > 0 {
      UsersMembers(used, id, p - 1);
      AppendIncreasing(Users(used, id, p - 1), p - 1);
    }
  }

  lemma AppendIncreasing(s: seq<nat>, x: nat)
    requires Increasing(s) && forall y :: y in s ==> y < x
    ensures Increasing(s + [x])
  {
    forall i | 0 <= i < |s|
      ensures s[i] < x
    {
      assert s[i] in s;
    }
  }

  ghost predicate SameMembers(a: seq<nat>, b: seq<nat>) {
    forall x :: x in a <==> x in b
  }

  /** Increasing lists are determined by their members. */
  lemma {:induction false} SameIncreasing(a: seq<nat>, b: seq<nat>)
    requires Increasing(a) && Increasing(b) && SameMembers(a, b)
    ensures a == b
  {
    NoMembers(a);
    NoMembers(b);
    if a != [] && b != [] {
      var l, m := a[|a| - 1], b[|b| - 1];
      assert l in b && m in a;
      assert l == m;
      InitMembers(a, b);
      SameIncreasing(a[..|a| - 1], b[..|b| - 1]);
    }
  }

  lemma NoMembers(s: seq<nat>)
    ensures s == [] <==> forall x :: x !in s
  {
    if s != [] {
      assert s[0] in s;
    }
  }

  lemma InitMembers(a: seq<nat>, b: seq<nat>)
    requires Increasing(a) && Increasing(b) && SameMembers(a, b) && a != [] && b != [] && a[|a| - 1] == b[|b| - 1]
    ensures SameMembers(a[..|a| - 1], b[..|b| - 1])
  {
    var c, d := a[..|a| - 1], b[..|b| - 1];
    forall x: nat
      ensures x in c <==> x in d
    {
      InInit(a, x);
      InInit(b, x);
    }
  }

  lemma InInit(a: seq<nat>, x: nat)
    requires Increasing(a) && a != []
    ensures x in a[..|a| - 1] <==> x in a && x != a[|a| - 1]
  {
  }

  /** The node ids from `lo` up to `hi`, found by two lower bounds. */
  function Part(s: seq<nat>, lo: nat, hi: nat): (r: seq<nat>)
    requires Increasing(s) && lo <= hi
    ensures Increasing(r)
  {
    BoundsInOrder(s, lo, hi);
    s[LowerBound(s, lo)..LowerBound(s, hi)]
  }

  lemma PartMembers(s: seq<nat>, lo: nat, hi: nat, x: nat)
    requires Increasing(s) && lo <= hi
    ensures x in Part(s, lo, hi) <==> x in s && lo <= x < hi
  {
    BoundsInOrder(s, lo, hi);
    var b, e := LowerBound(s, lo), LowerBound(s, hi);
    if x in s && lo <= x < hi {
      var k :| 0 <= k < |s| && s[k] == x;
      assert b <= k < e;
      assert s[b..e][k - b] == x;
    }
    if x in Part(s, lo, hi) {
      var k :| 0 <= k < e - b && s[b..e][k] == x;
      assert s[b + k] == x;
    }
  }

  /** The used ids of every process increase, and lie in the range that is distributed. */
  ghost predicate ValidInput(used: seq<seq<nat>>, nd: seq<nat>) {
    && |nd| == |used| + 1 && nd[0] == 0 && Sorted(nd)
    && forall p :: 0 <= p < |used| ==> Increasing(used[p]) && Dense(used[p], nd[|used|])
  }

  ghost predicate Dense(s: seq<nat>, size: nat) {
    forall k :: 0 <= k < |s| ==> s[k] < size
  }

  /** The ids of the nodes owned by process `t`. */
  function PartOf(s: seq<nat>, nd: seq<nat>, t: nat): seq<nat>
    requires Increasing(s) && Sorted(nd) && t + 1 < |nd|
  {
    Part(s, nd[t], nd[t + 1])
  }

  /** The requests of one process to the owners below `upto`: non-empty parts, in order. */
  ghost predicate Requested(s: seq<nat>, nd: seq<nat>, targets: seq<nat>, buffers: seq<seq<nat>>, upto: nat)
    requires Increasing(s) && Sorted(nd) && upto < |nd|
  {
    && |targets| == |buffers| && Increasing(targets)
    && (forall i :: 0 <= i < |targets| ==> targets[i] < upto && buffers[i] != [] && buffers[i] == PartOf(s, nd, targets[i]))
    && (forall t :: 0 <= t < upto ==> PartOf(s, nd, t) == [] || t in targets)
    && Flatten(buffers) == s[..LowerBound(s, nd[upto])]
  }

  /** Cuts the sorted ids at the borders of the owners. */
  method Requests(s: seq<nat>, nd: seq<nat>) returns (targets: seq<nat>, buffers: seq<seq<nat>>)
    requires Increasing(s) && Sorted(nd) && |nd| > 0 && nd[0] == 0
    ensures Requested(s, nd, targets, buffers, |nd| - 1)
  {
    hide Requested, LowerBound, Sorted, Increasing;
    targets, buffers := [], [];
    NothingRequested(s, nd);
    for t := 0 to |nd| - 1
      invariant Requested(s, nd, targets, buffers, t)
    {
      NextRequested(s, nd, targets, buffers, t);
      NextBorder(nd, t);
      BoundsInOrder(s, nd[t], nd[t + 1]);
      var begin, end := LowerBound(s, nd[t]), LowerBound(s, nd[t + 1]);
      if end - begin > 0 {
        buffers := buffers + [s[begin..end]];
        targets := targets + [t];
      }
    }
  }

  lemma NothingRequested(s: seq<nat>, nd: seq<nat>)
    requires Increasing(s) && Sorted(nd) && |nd| > 0 && nd[0] == 0
    ensures Requested(s, nd, [], [], 0)
  {
    LowerBoundOfZero(s);
    assert s[..0] == [];
  }

  lemma NextRequested(s: seq<nat>, nd: seq<nat>, targets: seq<nat>, buffers: seq<seq<nat>>, t: nat)
    requires Increasing(s) && Sorted(nd) && t + 1 < |nd| && Requested(s, nd, targets, buffers, t)
    ensures var part := PartOf(s, nd, t);
      if part != [] then Requested(s, nd, targets + [t], buffers + [part], t + 1) else Requested(s, nd, targets, buffers, t + 1)
  {
    hide Sorted, PartOf, LowerBound, Flatten;
    var part := PartOf(s, nd, t);
    NextPart(s, nd, buffers, t);
    if part != [] {
      AppendIncreasing(targets, t);
      forall q | 0 <= q < t + 1
        ensures PartOf(s, nd, q) == [] || q in targets + [t]
      {
      }
    }
  }

  /** The parts so far and the next one are a prefix of the ids. */
  lemma NextPart(s: seq<nat>, nd: seq<nat>, buffers: seq<seq<nat>>, t: nat)
    requires Increasing(s) && Sorted(nd) && t + 1 < |nd| && Flatten(buffers) == s[..LowerBound(s, nd[t])]
    ensures var part := PartOf(s, nd, t);
      && Flatten(buffers + [part]) == s[..LowerBound(s, nd[t + 1])]
      && (part == [] ==> Flatten(buffers) == s[..LowerBound(s, nd[t + 1])])
  {
    NextBorder(nd, t);
    BoundsInOrder(s, nd[t], nd[t + 1]);
    hide Sorted, Increasing, LowerBound;
    SliceJoin(s, 0, LowerBound(s, nd[t]), LowerBound(s, nd[t + 1]));
    DropLastAppend(buffers, [PartOf(s, nd, t)]);
  }

  lemma NextBorder(nd: seq<nat>, t: nat)
    requires Sorted(nd) && t + 1 < |nd|
    ensures nd[t] <= nd[t + 1]
  {
  }

  /**
   * What `sendVariousTargets` promises: every process gets one buffer from each process that has
   * it as a target, ordered by the source.
   */
  ghost predicate Delivered<T>(sent: seq<seq<seq<T>>>, targets: seq<seq<nat>>, received: seq<seq<seq<T>>>, sources: seq<seq<nat>>) {
    && |sent| == |targets| == |received| == |sources|
    && forall me :: 0 <= me < |sent| ==> DeliveredTo(sent, targets, received, sources, me)
  }

  ghost predicate DeliveredTo<T>(sent: seq<seq<seq<T>>>, targets: seq<seq<nat>>, received: seq<seq<seq<T>>>, sources: seq<seq<nat>>, me: nat)
    requires me < |sent| == |targets| == |received| == |sources|
  {
    && |received[me]| == |sources[me]| && Increasing(sources[me])
    && (forall p :: p in sources[me] <==> 0 <= p < |sent| && me in targets[p])
    && forall i :: 0 <= i < |sources[me]| ==> SentBy(sent, targets, received[me][i], sources[me][i], me)
  }

  /** The buffer of process `p` for `me`. */
  ghost predicate SentBy<T>(sent: seq<seq<seq<T>>>, targets: seq<seq<nat>>, buffer: seq<T>, p: nat, me: nat) {
    p < |sent| && |sent| == |targets| && |sent[p]| == |targets[p]| && me in targets[p] && buffer == sent[p][IndexOf(targets[p], me)]
  }

  /** `sendVariousTargets` for all processes at once. */
  method SendVariousTargets<T>(sent: seq<seq<seq<T>>>, targets: seq<seq<nat>>) returns (received: seq<seq<seq<T>>>, sources: seq<seq<nat>>)
    requires |sent| == |targets| && forall p :: 0 <= p < |sent| ==> |sent[p]| == |targets[p]| && Distinct(targets[p])
    ensures Delivered(sent, targets, received, sources)
  {
    received, sources := [], [];
    for me := 0 to |sent|
      invariant |received| == |sources| == me
      invariant forall q :: 0 <= q < me ==> ReceivedFrom(sent, targets, received[q], sources[q], q, |sent|)
    {
      var buffers: seq<seq<T>>, from: seq<nat> := [], [];
      for p := 0 to |sent|
        invariant ReceivedFrom(sent, targets, buffers, from, me, p)
      {
        if me in targets[p] {
          var i := FindTarget(targets[p], me);
          ReceivedNext(sent, targets, buffers, from, me, p);
          buffers, from := buffers + [sent[p][i]], from + [p];
        }
      }
      received, sources := received + [buffers], sources + [from];
    }
    forall me | 0 <= me < |sent|
      ensures DeliveredTo(sent, targets, received, sources, me)
    {
      assert ReceivedFrom(sent, targets, received[me], sources[me], me, |sent|);
    }
  }

  method FindTarget(targets: seq<nat>, me: nat) returns (i: nat)
    requires me in targets && Distinct(targets)
    ensures i < |targets| && i == IndexOf(targets, me)
  {
    i := 0;
    while targets[i] != me
      invariant i < |targets| && forall k :: 0 <= k < i ==> targets[k] != me
      decreases |targets| - i
    {
      i := i + 1;
    }
  }

  /** The buffers from the processes below `p`. */
  ghost predicate ReceivedFrom<T>(sent: seq<seq<seq<T>>>, targets: seq<seq<nat>>, buffers: seq<seq<T>>, from: seq<nat>, me: nat, p: nat)
    requires p <= |sent| == |targets|
  {
    && |buffers| == |from| && Increasing(from)
    && (forall q :: q in from <==> 0 <= q < p && me in targets[q])
    && forall i :: 0 <= i < |from| ==> SentBy(sent, targets, buffers[i], from[i], me)
  }

  lemma ReceivedNext<T>(sent: seq<seq<seq<T>>>, targets: seq<seq<nat>>, buffers: seq<seq<T>>, from: seq<nat>, me: nat, p: nat)
    requires p < |sent| == |targets| && |sent[p]| == |targets[p]| && me in targets[p] && ReceivedFrom(sent, targets, buffers, from, me, p)
    ensures ReceivedFrom(sent, targets, buffers + [sent[p][IndexOf(targets[p], me)]], from + [p], me, p + 1)
  {
    hide SentBy;
    AppendIncreasing(from, p);
    assert SentBy(sent, targets, sent[p][IndexOf(targets[p], me)], p, me) by {
      SentIsSent(sent, targets, p, me);
    }
  }

  lemma SentIsSent<T>(sent: seq<seq<seq<T>>>, targets: seq<seq<nat>>, p: nat, me: nat)
    requires p < |sent| == |targets| && |sent[p]| == |targets[p]| && me in targets[p]
    ensures SentBy(sent, targets, sent[p][IndexOf(targets[p], me)], p, me)
  {
  }

  /** Of the first `r` lists, the sources of those that name the node. */
  function UsersAt(lists: seq<seq<nat>>, sources: seq<nat>, id: nat, r: nat): (ranks: seq<nat>)
    requires r <= |lists| == |sources|
  {
    if r == 0 then [] else UsersAt(lists, sources, id, r - 1) + if id in lists[r - 1] then [sources[r - 1]] else []
  }

  /** The answer for a list of nodes: how many use a node, then who. */
  function PackedAt(lists: seq<seq<nat>>, sources: seq<nat>, ids: seq<nat>): seq<nat>
    requires |lists| == |sources|
  {
    if ids == [] then [] else
      var users := UsersAt(lists, sources, ids[|ids| - 1], |lists|);
      PackedAt(lists, sources, ids[..|ids| - 1]) + ([|users|] + users)
  }

  lemma {:induction false} PackedJoin(lists: seq<seq<nat>>, sources: seq<nat>, a: seq<nat>, b: seq<nat>)
    requires |lists| == |sources|
    ensures PackedAt(lists, sources, a + b) == PackedAt(lists, sources, a) + PackedAt(lists, sources, b)
  {
    hide UsersAt;
    if b == [] {
      assert a + b == a;
    } else {
      DropLastAppend(a, b);
      PackedJoin(lists, sources, a, b[..|b| - 1]);
      var users := UsersAt(lists, sources, b[|b| - 1], |lists|);
      ConcatAssociative(PackedAt(lists, sources, a), PackedAt(lists, sources, b[..|b| - 1]), [|users|] + users);
    }
  }

  /** A cursor stands at the first id of its list that is not below `id`. */
  ghost predicate Cursors(lists: seq<seq<nat>>, cursors: seq<nat>, id: nat) {
    |cursors| == |lists| && forall r :: 0 <= r < |lists| ==> IsLowerBound(lists[r], id, cursors[r])
  }

  ghost predicate AllIncreasing(lists: seq<seq<nat>>) {
    forall r :: 0 <= r < |lists| ==> Increasing(lists[r])
  }

  /** Within a node, the first `r` cursors have passed it. */
  ghost predicate Passing(lists: seq<seq<nat>>, before: seq<nat>, cursors: seq<nat>, id: nat, r: nat) {
    && |cursors| == |before| == |lists| && r <= |lists|
    && (forall q :: 0 <= q < r ==> IsLowerBound(lists[q], id + 1, cursors[q]))
    && (forall q :: r <= q < |lists| ==> cursors[q] == before[q])
  }

  /** Positions of the lists that name the node. */
  function NamedIn(lists: seq<seq<nat>>, id: nat, r: nat): (at: seq<nat>)
    requires r <= |lists|
    ensures |at| <= r && forall k :: 0 <= k < |at| ==> at[k] < r && id in lists[at[k]]
  {
    if r == 0 then [] else NamedIn(lists, id, r - 1) + if id in lists[r - 1] then [r - 1] else []
  }

  lemma {:induction false} NamedInIff(lists: seq<seq<nat>>, id: nat, r: nat)
    requires r <= |lists|
    ensures Distinct(NamedIn(lists, id, r)) && forall q :: q in NamedIn(lists, id, r) <==> 0 <= q < r && id in lists[q]
  {
    if r > 0 {
      NamedInIff(lists, id, r - 1);
    }
  }

  lemma CursorFinds(list: seq<nat>, id: nat, cursor: nat)
    requires Increasing(list) && IsLowerBound(list, id, cursor)
    ensures id in list <==> cursor < |list| && list[cursor] == id
    ensures id in list ==> IsLowerBound(list, id + 1, cursor + 1)
    ensures id !in list ==> IsLowerBound(list, id + 1, cursor)
  {
    if id in list {
      var k :| 0 <= k < |list| && list[k] == id;
      assert k == cursor;
    }
  }

  /** Collects who uses the node, and moves their cursors on. */
  method CollectUsers(lists: seq<seq<nat>>, sources: seq<nat>, id: nat, before: seq<nat>)
    returns (ranks: seq<nat>, at: seq<nat>, cursors: seq<nat>)
    requires |lists| == |sources| && AllIncreasing(lists) && Cursors(lists, before, id)
    ensures ranks == UsersAt(lists, sources, id, |lists|) && at == NamedIn(lists, id, |lists|) && |ranks| == |at|
    ensures Cursors(lists, cursors, id + 1)
    ensures forall r :: 0 <= r < |lists| ==> cursors[r] == if r in at then before[r] + 1 else before[r]
  {
    hide Increasing, IsLowerBound, Passing;
    ranks, at, cursors := [], [], before;
    NothingPassed(lists, before, id);
    for r := 0 to |lists|
      invariant ranks == UsersAt(lists, sources, id, r) && at == NamedIn(lists, id, r) && |ranks| == |at|
      invariant |cursors| == |lists| && Passing(lists, before, cursors, id, r)
      invariant forall q :: 0 <= q < r ==> cursors[q] == if q in at then before[q] + 1 else before[q]
    {
      PassNext(lists, before, cursors, id, r);
      if cursors[r] != |lists[r]| && lists[r][cursors[r]] == id {
        at := at + [r];
        ranks := ranks + [sources[r]];
        cursors := cursors[r := cursors[r] + 1];
      }
    }
    AllPassed(lists, before, cursors, id);
  }

  lemma NothingPassed(lists: seq<seq<nat>>, before: seq<nat>, id: nat)
    requires |before| == |lists|
    ensures Passing(lists, before, before, id, 0)
  {
  }

  lemma AllPassed(lists: seq<seq<nat>>, before: seq<nat>, cursors: seq<nat>, id: nat)
    requires Passing(lists, before, cursors, id, |lists|)
    ensures Cursors(lists, cursors, id + 1)
  {
  }

  /** The cursor of the next list stands at the node exactly when the list names it. */
  lemma PassNext(lists: seq<seq<nat>>, before: seq<nat>, cursors: seq<nat>, id: nat, r: nat)
    requires r < |lists| && Passing(lists, before, cursors, id, r) && Increasing(lists[r])
    requires |before| == |lists| && IsLowerBound(lists[r], id, before[r])
    ensures |cursors| == |lists| && cursors[r] == before[r] <= |lists[r]|
    ensures id in lists[r] <==> cursors[r] != |lists[r]| && lists[r][cursors[r]] == id
    ensures Passing(lists, before, if id in lists[r] then cursors[r := cursors[r] + 1] else cursors, id, r + 1)
  {
    CursorFinds(lists[r], id, before[r]);
    hide Increasing;
  }

  /** The lists named in `at` get the users of the node appended. */
  method PushUsers(packed: seq<seq<nat>>, at: seq<nat>, ranks: seq<nat>) returns (pushed: seq<seq<nat>>)
    requires Distinct(at) && |ranks| == |at| && forall k :: 0 <= k < |at| ==> at[k] < |packed|
    ensures |pushed| == |packed|
    ensures forall r :: 0 <= r < |packed| ==> pushed[r] == if r in at then packed[r] + ([|ranks|] + ranks) else packed[r]
  {
    pushed := packed;
    for k := 0 to |ranks|
      invariant |pushed| == |packed|
      invariant forall r :: 0 <= r < |packed| ==> pushed[r] == if r in at[..k] then packed[r] + ([|ranks|] + ranks) else packed[r]
    {
      assert at[k] !in at[..k] && at[..k + 1] == at[..k] + [at[k]];
      pushed := pushed[at[k] := pushed[at[k]] + ([|at|] + ranks)];
    }
    assert at[..|at|] == at;
  }

  /** The answers for what lies between two positions of the cursors. */
  ghost predicate Answered(lists: seq<seq<nat>>, sources: seq<nat>, starts: seq<nat>, cursors: seq<nat>, packed: seq<seq<nat>>) {
    && |lists| == |sources| == |starts| == |cursors| == |packed|
    && forall r :: 0 <= r < |lists| ==> AnsweredList(lists, sources, starts, cursors, packed, r)
  }

  ghost predicate AnsweredList(lists: seq<seq<nat>>, sources: seq<nat>, starts: seq<nat>, cursors: seq<nat>, packed: seq<seq<nat>>, r: nat)
    requires r < |lists| == |sources| == |starts| == |cursors| == |packed|
  {
    && starts[r] <= cursors[r] <= |lists[r]|
    && packed[r] == PackedAt(lists, sources, lists[r][starts[r]..cursors[r]])
  }

  lemma NothingAnswered(lists: seq<seq<nat>>, sources: seq<nat>, starts: seq<nat>, packed: seq<seq<nat>>)
    requires |lists| == |sources| == |starts| == |packed|
    requires forall r :: 0 <= r < |lists| ==> starts[r] <= |lists[r]| && packed[r] == []
    ensures Answered(lists, sources, starts, starts, packed)
  {
  }

  lemma NextAnswered(lists: seq<seq<nat>>, sources: seq<nat>, starts: seq<nat>, before: seq<nat>, packed: seq<seq<nat>>, id: nat,
      cursors: seq<nat>, pushed: seq<seq<nat>>)
    requires Answered(lists, sources, starts, before, packed) && |cursors| == |pushed| == |lists|
    requires AllIncreasing(lists) && Cursors(lists, before, id)
    requires forall r :: 0 <= r < |lists| ==> cursors[r] == if r in NamedIn(lists, id, |lists|) then before[r] + 1 else before[r]
    requires var users := UsersAt(lists, sources, id, |lists|);
      forall r :: 0 <= r < |lists| ==>
        pushed[r] == if r in NamedIn(lists, id, |lists|) then packed[r] + ([|users|] + users) else packed[r]
    ensures Answered(lists, sources, starts, cursors, pushed)
  {
    hide UsersAt, NamedIn, Increasing, PackedAt, AnsweredList, IsLowerBound;
    forall r | 0 <= r < |lists|
      ensures AnsweredList(lists, sources, starts, cursors, pushed, r)
    {
      NamedInIff(lists, id, |lists|);
      ListAnswered(lists, sources, starts, before, packed, id, cursors, pushed, r);
    }
  }

  lemma ListAnswered(lists: seq<seq<nat>>, sources: seq<nat>, starts: seq<nat>, before: seq<nat>, packed: seq<seq<nat>>, id: nat,
      cursors: seq<nat>, pushed: seq<seq<nat>>, r: nat)
    requires r < |lists| == |sources| == |starts| == |before| == |packed| == |cursors| == |pushed|
    requires AnsweredList(lists, sources, starts, before, packed, r)
    requires Increasing(lists[r]) && IsLowerBound(lists[r], id, before[r])
    requires cursors[r] == if id in lists[r] then before[r] + 1 else before[r]
    requires pushed[r] == if id in lists[r] then packed[r] + NodeAnswer(lists, sources, id) else packed[r]
    ensures AnsweredList(lists, sources, starts, cursors, pushed, r)
  {
    hide NodeAnswer, Increasing, PackedAt, IsLowerBound;
    CursorFinds(lists[r], id, before[r]);
    if id in lists[r] {
      PackedNext(lists, sources, lists[r], starts[r], before[r]);
    }
  }

  /** The answer for one node: how many use it, and who. */
  ghost function NodeAnswer(lists: seq<seq<nat>>, sources: seq<nat>, id: nat): seq<nat>
    requires |lists| == |sources|
  {
    var users := UsersAt(lists, sources, id, |lists|);
    [|users|] + users
  }

  lemma PackedNext(lists: seq<seq<nat>>, sources: seq<nat>, list: seq<nat>, start: nat, at: nat)
    requires |lists| == |sources| && start <= at < |list|
    ensures PackedAt(lists, sources, list[start..at + 1]) ==
      PackedAt(lists, sources, list[start..at]) + NodeAnswer(lists, sources, list[at])
  {
    hide UsersAt;
    var longer := list[start..at + 1];
    assert longer[..|longer| - 1] == list[start..at];
  }

  /** The answers of one thread, for the nodes `from .. to`. */
  method AnswerRange(lists: seq<seq<nat>>, sources: seq<nat>, from: nat, to: nat)
    returns (packed: seq<seq<nat>>, ghost starts: seq<nat>, ghost ends: seq<nat>)
    requires |lists| == |sources| && AllIncreasing(lists) && from <= to
    ensures |packed| == |lists| && Cursors(lists, starts, from) && Cursors(lists, ends, to)
    ensures Answered(lists, sources, starts, ends, packed)
  {
    hide Answered, UsersAt, NamedIn;
    packed := seq(|lists|, _ => []);
    var cursors: seq<nat> := seq(|lists|, r requires 0 <= r < |lists| => LowerBound(lists[r], from));
    starts := cursors;
    NothingAnswered(lists, sources, starts, packed);
    for id := from to to
      invariant Cursors(lists, cursors, id) && Answered(lists, sources, starts, cursors, packed) && |packed| == |lists|
    {
      ghost var before, sofar := cursors, packed;
      var ranks, at;
      ranks, at, cursors := CollectUsers(lists, sources, id, cursors);
      NamedInIff(lists, id, |lists|);
      packed := PushUsers(packed, at, ranks);
      NextAnswered(lists, sources, starts, before, sofar, id, cursors, packed);
    }
    ends := cursors;
  }

  lemma CursorsAtBegin(lists: seq<seq<nat>>, begin: nat, zeros: seq<nat>)
    requires |zeros| == |lists| && forall r :: 0 <= r < |lists| ==> zeros[r] == 0
    requires forall r, k :: 0 <= r < |lists| && 0 <= k < |lists[r]| ==> begin <= lists[r][k]
    ensures Cursors(lists, zeros, begin)
  {
  }

  lemma AnswersJoin(lists: seq<seq<nat>>, sources: seq<nat>, zeros: seq<nat>, cursors: seq<nat>, answers: seq<seq<nat>>, id: nat,
      starts: seq<nat>, ends: seq<nat>, part: seq<seq<nat>>)
    requires Cursors(lists, cursors, id) && Cursors(lists, starts, id)
    requires Answered(lists, sources, zeros, cursors, answers) && Answered(lists, sources, starts, ends, part)
    ensures Answered(lists, sources, zeros, ends, seq(|lists|, r requires 0 <= r < |lists| => answers[r] + part[r]))
  {
    var joined := seq(|lists|, r requires 0 <= r < |lists| => answers[r] + part[r]);
    forall r | 0 <= r < |lists|
      ensures AnsweredList(lists, sources, zeros, ends, joined, r)
    {
      assert AnsweredList(lists, sources, zeros, cursors, answers, r) && AnsweredList(lists, sources, starts, ends, part, r);
      OneLowerBound(lists[r], id, cursors[r], starts[r]);
      hide PackedAt;
      PackedJoin(lists, sources, lists[r][zeros[r]..cursors[r]], lists[r][starts[r]..ends[r]]);
      SliceJoin(lists[r], zeros[r], cursors[r], ends[r]);
    }
  }

  lemma CursorsAtEnd(lists: seq<seq<nat>>, sources: seq<nat>, begin: nat, size: nat, zeros: seq<nat>, cursors: seq<nat>, answers: seq<seq<nat>>)
    requires Cursors(lists, cursors, begin + size) && Answered(lists, sources, zeros, cursors, answers)
    requires forall r :: 0 <= r < |lists| ==> zeros[r] == 0 && InRange(lists[r], begin, begin + size)
    ensures AllAnswered(lists, sources, answers)
  {
    forall r | 0 <= r < |lists|
      ensures answers[r] == PackedAt(lists, sources, lists[r])
    {
      assert AnsweredList(lists, sources, zeros, cursors, answers, r);
      OneLowerBound(lists[r], begin + size, cursors[r], |lists[r]|);
      assert lists[r][0..|lists[r]|] == lists[r];
    }
  }

  /** All answers: every list is answered node by node. */
  ghost predicate AllAnswered(lists: seq<seq<nat>>, sources: seq<nat>, answers: seq<seq<nat>>) {
    |answers| == |lists| == |sources| && forall r :: 0 <= r < |lists| ==> answers[r] == PackedAt(lists, sources, lists[r])
  }

  /** The owner answers; the threads take consecutive ranges of its nodes. */
  method BackedData(lists: seq<seq<nat>>, sources: seq<nat>, begin: nat, size: nat, threads: nat) returns (answers: seq<seq<nat>>)
    requires |lists| == |sources| && AllIncreasing(lists) && threads > 0
    requires forall r :: 0 <= r < |lists| ==> InRange(lists[r], begin, begin + size)
    ensures AllAnswered(lists, sources, answers)
  {
    hide Answered, Cursors;
    var ndistribution := Distribute(threads, size);
    answers := seq(|lists|, _ => []);
    ghost var cursors: seq<nat> := seq(|lists|, _ => 0);
    NothingAnswered(lists, sources, cursors, answers);
    ghost var zeros := cursors;
    CursorsAtBegin(lists, begin, zeros);
    for t := 0 to threads
      invariant |answers| == |lists| && Cursors(lists, cursors, begin + ndistribution[t])
      invariant Answered(lists, sources, zeros, cursors, answers)
    {
      var part;
      ghost var starts, ends;
      part, starts, ends := AnswerRange(lists, sources, begin + ndistribution[t], begin + ndistribution[t + 1]);
      AnswersJoin(lists, sources, zeros, cursors, answers, begin + ndistribution[t], starts, ends, part);
      answers := seq(|lists|, r requires 0 <= r < |lists| => answers[r] + part[r]);
      cursors := ends;
    }
    CursorsAtEnd(lists, sources, begin, size, zeros, cursors, answers);
  }

  ghost predicate InRange(list: seq<nat>, from: nat, to: nat) {
    forall k :: 0 <= k < |list| ==> from <= list[k] < to
  }

  /** The lists an owner receives: what each source uses of its nodes. */
  ghost predicate ReceivedParts(used: seq<seq<nat>>, nd: seq<nat>, me: nat, lists: seq<seq<nat>>, sources: seq<nat>)
    requires ValidInput(used, nd) && me < |used|
  {
    && |lists| == |sources| && Increasing(sources)
    && (forall i :: 0 <= i < |sources| ==> sources[i] < |used| && lists[i] == PartOf(used[sources[i]], nd, me))
    && forall p :: 0 <= p < |used| ==> PartOf(used[p], nd, me) == [] || p in sources
  }

  lemma {:induction false} UsersAtMembers(lists: seq<seq<nat>>, sources: seq<nat>, id: nat, r: nat)
    requires r <= |lists| == |sources| && Increasing(sources)
    ensures Increasing(UsersAt(lists, sources, id, r))
    ensures forall q :: q in UsersAt(lists, sources, id, r) <==> exists i :: 0 <= i < r && sources[i] == q && id in lists[i]
  {
    if r > 0 {
      UsersAtMembers(lists, sources, id, r - 1);
      AppendIncreasing(UsersAt(lists, sources, id, r - 1), sources[r - 1]);
    }
  }

  /** An owner finds all users of its nodes. */
  lemma UsersFound(used: seq<seq<nat>>, nd: seq<nat>, me: nat, lists: seq<seq<nat>>, sources: seq<nat>, id: nat)
    requires ValidInput(used, nd) && me < |used| && ReceivedParts(used, nd, me, lists, sources) && nd[me] <= id < nd[me + 1]
    ensures UsersAt(lists, sources, id, |lists|) == Users(used, id, |used|)
  {
    UsersAtMembers(lists, sources, id, |lists|);
    UsersMembers(used, id, |used|);
    var a, b := UsersAt(lists, sources, id, |lists|), Users(used, id, |used|);
    forall q: nat
      ensures q in a <==> q in b
    {
      if q < |used| {
        PartMembers(used[q], nd[me], nd[me + 1], id);
        if id in used[q] {
          assert q in sources;
          var i :| 0 <= i < |sources| && sources[i] == q;
          assert id in lists[i];
        }
      }
    }
    hide UsersAt, Users;
    SameIncreasing(a, b);
  }

  /** The full answer for a list of nodes. */
  ghost function Packed(used: seq<seq<nat>>, ids: seq<nat>): seq<nat> {
    if ids == [] then [] else
      var users := Users(used, ids[|ids| - 1], |used|);
      Packed(used, ids[..|ids| - 1]) + ([|users|] + users)
  }

  lemma {:induction false} AnswerIsFull(used: seq<seq<nat>>, nd: seq<nat>, me: nat, lists: seq<seq<nat>>, sources: seq<nat>, ids: seq<nat>)
    requires ValidInput(used, nd) && me < |used| && ReceivedParts(used, nd, me, lists, sources) && InRange(ids, nd[me], nd[me + 1])
    ensures PackedAt(lists, sources, ids) == Packed(used, ids)
  {
    hide ValidInput, ReceivedParts;
    if ids != [] {
      AnswerIsFull(used, nd, me, lists, sources, ids[..|ids| - 1]);
      UsersFound(used, nd, me, lists, sources, ids[|ids| - 1]);
    }
  }

  lemma {:induction false} PackedAppend(used: seq<seq<nat>>, a: seq<nat>, b: seq<nat>)
    ensures Packed(used, a + b) == Packed(used, a) + Packed(used, b)
  {
    hide Users;
    if b == [] {
      assert a + b == a;
    } else {
      DropLastAppend(a, b);
      PackedAppend(used, a, b[..|b| - 1]);
      var users := Users(used, b[|b| - 1], |used|);
      ConcatAssociative(Packed(used, a), Packed(used, b[..|b| - 1]), [|users|] + users);
    }
  }

  /** The rank lists of nodes, one after the other. */
  ghost function RankData(used: seq<seq<nat>>, ids: seq<nat>): seq<nat> {
    if ids == [] then [] else RankData(used, ids[..|ids| - 1]) + Users(used, ids[|ids| - 1], |used|)
  }

  lemma {:induction false} RankDataAppend(used: seq<seq<nat>>, a: seq<nat>, b: seq<nat>)
    ensures RankData(used, a + b) == RankData(used, a) + RankData(used, b)
  {
    hide Users;
    if b == [] {
      assert a + b == a;
    } else {
      DropLastAppend(a, b);
      RankDataAppend(used, a, b[..|b| - 1]);
      ConcatAssociative(RankData(used, a), RankData(used, b[..|b| - 1]), Users(used, b[|b| - 1], |used|));
    }
  }

  /** Where the rank lists of the nodes end. */
  ghost predicate RankEnds(used: seq<seq<nat>>, ids: seq<nat>, offset: nat, ends: seq<nat>) {
    |ends| == |ids| && forall k :: 0 <= k < |ids| ==> RankEnd(used, ids, offset, ends, k)
  }

  ghost predicate RankEnd(used: seq<seq<nat>>, ids: seq<nat>, offset: nat, ends: seq<nat>, k: nat)
    requires k < |ids| == |ends|
  {
    ends[k] == offset + |RankData(used, ids[..k + 1])|
  }

  /** Reads an answer: a count, then that many ranks. */
  method Unpack(buffer: seq<nat>, ghost used: seq<seq<nat>>, ghost ids: seq<nat>) returns (ends: seq<nat>, data: seq<nat>)
    requires buffer == Packed(used, ids)
    ensures data == RankData(used, ids) && RankEnds(used, ids, 0, ends)
  {
    hide Packed, RankData, RankEnds, Users;
    NothingPacked(used);
    ends, data := [], [];
    var n := 0;
    ghost var m := 0;
    assert ids[..0] == [];
    while n < |buffer|
      invariant m <= |ids| && n == |Packed(used, ids[..m])| && n <= |buffer|
      invariant data == RankData(used, ids[..m]) && RankEnds(used, ids[..m], 0, ends)
      invariant n < |buffer| ==> m < |ids|
      decreases |buffer| - n
    {
      AnswerOfNode(used, ids, m);
      data := data + buffer[n + 1..n + 1 + buffer[n]];
      EndsNext(used, ids, m, ends, |data|);
      ends := ends + [|data|];
      n := n + buffer[n] + 1;
      m := m + 1;
      AnswerEnds(used, ids, m);
    }
    AnswerEnds(used, ids, m);
    assert ids[..|ids|] == ids;
  }

  /** What the answer holds for node `m`. */
  lemma NothingPacked(used: seq<seq<nat>>)
    ensures Packed(used, []) == [] && RankData(used, []) == [] && RankEnds(used, [], 0, [])
  {
  }

  lemma AnswerOfNode(used: seq<seq<nat>>, ids: seq<nat>, m: nat)
    requires m < |ids|
    ensures var n, users, all := |Packed(used, ids[..m])|, Users(used, ids[m], |used|), Packed(used, ids);
      && n + 1 + |users| <= |all| && all[n] == |users| && all[n + 1..n + 1 + |users|] == users
      && |Packed(used, ids[..m + 1])| == n + 1 + |users| && RankData(used, ids[..m + 1]) == RankData(used, ids[..m]) + users
  {
    assert ids[..m + 1][..m] == ids[..m] && ids[..m + 1] + ids[m + 1..] == ids;
    PackedAppend(used, ids[..m + 1], ids[m + 1..]);
    var users := Users(used, ids[m], |used|);
    assert Packed(used, ids[..m + 1]) == Packed(used, ids[..m]) + ([|users|] + users);
    hide Packed, Users;
    AnswerLayout(Packed(used, ids[..m]), users, Packed(used, ids[m + 1..]));
  }

  lemma AnswerLayout(a: seq<nat>, users: seq<nat>, b: seq<nat>)
    ensures var all := a + ([|users|] + users) + b;
      all[|a|] == |users| && all[|a| + 1..|a| + 1 + |users|] == users
  {
  }

  lemma EndsNext(used: seq<seq<nat>>, ids: seq<nat>, m: nat, ends: seq<nat>, end: nat)
    requires m < |ids| && RankEnds(used, ids[..m], 0, ends) && end == |RankData(used, ids[..m + 1])|
    ensures RankEnds(used, ids[..m + 1], 0, ends + [end])
  {
    var longer, next := ids[..m + 1], ends + [end];
    forall k | 0 <= k < m + 1
      ensures RankEnd(used, longer, 0, next, k)
    {
      if k < m {
        assert RankEnd(used, ids[..m], 0, ends, k);
        assert ids[..m][..k + 1] == longer[..k + 1];
      } else {
        assert longer[..m + 1] == longer;
      }
    }
  }

  lemma AnswerEnds(used: seq<seq<nat>>, ids: seq<nat>, m: nat)
    requires m <= |ids|
    ensures |Packed(used, ids[..m])| <= |Packed(used, ids)|
    ensures |Packed(used, ids[..m])| == |Packed(used, ids)| <==> m == |ids|
  {
    assert ids[..m] + ids[m..] == ids;
    PackedAppend(used, ids[..m], ids[m..]);
  }

  /** What was unpacked from each answer. */
  ghost predicate Unpacked(used: seq<seq<nat>>, parts: seq<seq<nat>>, ends: seq<seq<nat>>, data: seq<seq<nat>>) {
    && |parts| == |ends| == |data|
    && forall t :: 0 <= t < |parts| ==> RankEnds(used, parts[t], 0, ends[t]) && data[t] == RankData(used, parts[t])
  }

  /** The boundaries of all rank lists, the leading 0 included once there is a node list. */
  ghost predicate RankBoundaries(used: seq<seq<nat>>, ids: seq<nat>, boundaries: seq<nat>) {
    |boundaries| == |ids| + 1 && boundaries[0] == 0 && RankEnds(used, ids, 0, boundaries[1..])
  }

  function LastOrZero(s: seq<nat>): nat {
    if s == [] then 0 else s[|s| - 1]
  }

  function Shifted(s: seq<nat>, offset: nat): (r: seq<nat>)
    ensures |r| == |s|
  {
    seq(|s|, i requires 0 <= i < |s| => s[i] + offset)
  }

  lemma LastEnd(used: seq<seq<nat>>, ids: seq<nat>, ends: seq<nat>)
    requires RankEnds(used, ids, 0, ends)
    ensures LastOrZero(ends) == |RankData(used, ids)|
  {
    if ids != [] {
      assert RankEnd(used, ids, 0, ends, |ids| - 1);
      assert ids[..|ids|] == ids;
    }
  }

  lemma JoinEnds(used: seq<seq<nat>>, a: seq<nat>, ends: seq<nat>, b: seq<nat>, next: seq<nat>)
    requires RankEnds(used, a, 0, ends) && RankEnds(used, b, 0, next)
    ensures RankEnds(used, a + b, 0, ends + Shifted(next, |RankData(used, a)|))
  {
    hide RankData;
    var all, longer := a + b, ends + Shifted(next, |RankData(used, a)|);
    forall k | 0 <= k < |all|
      ensures RankEnd(used, all, 0, longer, k)
    {
      if k < |a| {
        assert RankEnd(used, a, 0, ends, k);
        assert all[..k + 1] == a[..k + 1];
      } else {
        assert RankEnd(used, b, 0, next, k - |a|);
        RankDataBehind(used, a, b, k);
      }
    }
  }

  lemma RankDataBehind(used: seq<seq<nat>>, a: seq<nat>, b: seq<nat>, k: nat)
    requires |a| <= k < |a + b|
    ensures |RankData(used, (a + b)[..k + 1])| == |RankData(used, a)| + |RankData(used, b[..k - |a| + 1])|
  {
    assert (a + b)[..k + 1] == a + b[..k - |a| + 1];
    RankDataAppend(used, a, b[..k - |a| + 1]);
  }

  /** The rank lists of all answers behind each other: `threadDistributionToFullDistribution` and the final balance. */
  method JoinRanks(ends: seq<seq<nat>>, data: seq<seq<nat>>, ghost used: seq<seq<nat>>, ghost parts: seq<seq<nat>>)
    returns (boundaries: seq<nat>, ranks: seq<nat>)
    requires Unpacked(used, parts, ends, data)
    ensures if parts == [] then boundaries == [] else RankBoundaries(used, Flatten(parts), boundaries)
    ensures ranks == RankData(used, Flatten(parts))
  {
    hide RankEnds, RankData;
    var sizes := seq(|ends|, t requires 0 <= t < |ends| => LastOrZero(ends[t]));
    var offsets, sum := SizesToOffsets(sizes);
    boundaries, ranks := [], [];
    NothingFlattened(used, parts);
    for t := 0 to |ends|
      invariant ranks == RankData(used, Flatten(parts[..t])) && Prefix(sizes, t) == |ranks|
      invariant if t == 0 then boundaries == [] else RankBoundaries(used, Flatten(parts[..t]), boundaries)
    {
      assert OffsetAt(offsets, sizes, t);
      LastEnd(used, parts[t], ends[t]);
      assert parts[..t + 1][..t] == parts[..t] && parts[..t + 1] != [];
      RankDataAppend(used, Flatten(parts[..t]), parts[t]);
      BoundariesNext(used, parts, t, boundaries, ends[t], offsets[t]);
      var full := if t == 0 then [0] + ends[t] else ends[t];
      boundaries := boundaries + Shifted(full, offsets[t]);
      ranks := ranks + data[t];
    }
    assert parts[..|parts|] == parts;
  }

  lemma NothingFlattened(used: seq<seq<nat>>, parts: seq<seq<nat>>)
    ensures Flatten(parts[..0]) == [] && RankData(used, []) == []
  {
  }

  lemma BoundariesNext(used: seq<seq<nat>>, parts: seq<seq<nat>>, t: nat, boundaries: seq<nat>, ends: seq<nat>, offset: nat)
    requires t < |parts| && RankEnds(used, parts[t], 0, ends) && offset == |RankData(used, Flatten(parts[..t]))|
    requires if t == 0 then boundaries == [] else RankBoundaries(used, Flatten(parts[..t]), boundaries)
    ensures RankBoundaries(used, Flatten(parts[..t + 1]), boundaries + Shifted(if t == 0 then [0] + ends else ends, offset))
  {
    assert parts[..t + 1][..t] == parts[..t] && parts[..t + 1] != [];
    var a := Flatten(parts[..t]);
    if t == 0 {
      assert parts[..0] == [] && [] + parts[0] == parts[0];
      assert Shifted([0] + ends, 0) == [0] + ends && ([0] + ends)[1..] == ends && [] + ([0] + ends) == [0] + ends;
    } else {
      JoinEnds(used, a, boundaries[1..], parts[t], ends);
      assert (boundaries + Shifted(ends, offset))[1..] == boundaries[1..] + Shifted(ends, offset);
    }
  }
}
