/**
 * The border check of `Input::balance`: even ranks send before they receive, odd ranks receive
 * first. Every send waits for its receive, the worst case section 3.4 of the MPI 3.1 standard
 * allows for a standard-mode send.
 */
module NeighbourExchange {
  import opened Basis

  datatype Operation = Send | Receive

  /** What rank `r` of `n` processes does, in order. */
  function Program(n: nat, r: nat): seq<Operation>
    requires r < n
  {
    if r % 2 == 0 then (if r + 1 < n then [Send] else []) + (if r > 0 then [Receive] else [])
    else [Receive] + if r + 1 < n then [Send] else []
  }

  /** How far each rank is, and the `prev` each of them holds. */
  datatype State = State(pc: seq<nat>, prev: seq<int>)

  ghost predicate Shaped(n: nat, s: State) {
    |s.pc| == |s.prev| == n && forall r :: 0 <= r < n ==> s.pc[r] <= |Program(n, r)|
  }

  predicate At(n: nat, s: State, r: nat, op: Operation)
    requires Shaped(n, s)
  {
    r < n && s.pc[r] < |Program(n, r)| && Program(n, r)[s.pc[r]] == op
  }

  /** Rank `p` waits in its send and rank `p + 1` in its receive. */
  predicate Enabled(n: nat, s: State, p: nat)
    requires Shaped(n, s)
  {
    At(n, s, p, Send) && At(n, s, p + 1, Receive)
  }

  function Start(n: nat): State {
    State(seq(n, _ => 0), seq(n, _ => -1))
  }

  /** The message passes and both ranks go on. */
  function Passed(my: seq<int>, s: State, p: nat): State
    requires p + 1 < |s.pc| == |s.prev| == |my|
  {
    State(s.pc[p := s.pc[p] + 1][p + 1 := s.pc[p + 1] + 1], s.prev[p + 1 := my[p]])
  }

  /** The states after any number of messages, in any order. */
  ghost predicate Reachable(my: seq<int>, s: State, steps: nat)
    decreases steps
  {
    if steps == 0 then s == Start(|my|)
    else exists t: State, p: nat :: Reachable(my, t, steps - 1) && StepFrom(my, t, p, s)
  }

  ghost predicate StepFrom(my: seq<int>, t: State, p: nat, s: State) {
    Shaped(|my|, t) && Enabled(|my|, t, p) && p + 1 < |my| && s == Passed(my, t, p)
  }

  predicate HasSent(s: State, r: nat)
    requires r < |s.pc|
  {
    s.pc[r] >= if r % 2 == 0 then 1 else 2
  }

  predicate HasReceived(n: nat, s: State, r: nat)
    requires r < |s.pc|
  {
    s.pc[r] >= if r % 2 == 0 && r + 1 < n then 2 else 1
  }

  /** Sent is received, and received is the left neighbour's value. */
  ghost predicate Invariant(my: seq<int>, s: State) {
    && Shaped(|my|, s)
    && (forall p :: 0 <= p < |my| - 1 ==> LinkConsistent(|my|, s, p))
    && (forall r :: 0 <= r < |my| ==> HoldsPrevious(my, s, r))
  }

  ghost predicate LinkConsistent(n: nat, s: State, p: nat)
    requires p + 1 < |s.pc|
  {
    HasSent(s, p) <==> HasReceived(n, s, p + 1)
  }

  ghost predicate HoldsPrevious(my: seq<int>, s: State, r: nat)
    requires r < |my| == |s.pc| == |s.prev|
  {
    s.prev[r] == if r > 0 && HasReceived(|my|, s, r) then my[r - 1] else -1
  }

  lemma StartInvariant(my: seq<int>)
    ensures Invariant(my, Start(|my|))
  {
  }

  lemma StepShaped(my: seq<int>, t: State, p: nat, s: State)
    requires Invariant(my, t) && StepFrom(my, t, p, s)
    ensures Shaped(|my|, s)
  {
  }

  /** What one message changes: its sender has sent, its receiver has received, nothing else. */
  lemma StepLinks(my: seq<int>, t: State, p: nat, s: State, r: nat)
    requires Invariant(my, t) && StepFrom(my, t, p, s) && r < |my|
    ensures !HasSent(t, p) && !HasReceived(|my|, t, p + 1)
    ensures r + 1 < |my| ==> (HasSent(s, r) <==> HasSent(t, r) || r == p)
    ensures r > 0 ==> (HasReceived(|my|, s, r) <==> HasReceived(|my|, t, r) || r == p + 1)
  {
  }

  lemma StepKeepsInvariant(my: seq<int>, t: State, p: nat, s: State)
    requires Invariant(my, t) && StepFrom(my, t, p, s)
    ensures Invariant(my, s)
  {
    StepShaped(my, t, p, s);
    forall r | 0 <= r < |my|
      ensures HoldsPrevious(my, s, r) && (r < |my| - 1 ==> LinkConsistent(|my|, s, r))
    {
      StepLinks(my, t, p, s, r);
      assert HoldsPrevious(my, t, r);
      if r < |my| - 1 {
        StepLinks(my, t, p, s, r + 1);
        assert LinkConsistent(|my|, t, r);
      }
    }
  }

  lemma {:induction false} ReachableInvariant(my: seq<int>, s: State, steps: nat)
    requires Reachable(my, s, steps)
    ensures Invariant(my, s)
    decreases steps
  {
    hide Invariant, StepFrom, Start;
    if steps == 0 {
      StartInvariant(my);
    } else {
      var t: State, p: nat :| Reachable(my, t, steps - 1) && StepFrom(my, t, p, s);
      ReachableInvariant(my, t, steps - 1);
      StepKeepsInvariant(my, t, p, s);
    }
  }

  predicate AllDone(n: nat, s: State)
    requires Shaped(n, s)
  {
    forall r :: 0 <= r < n ==> s.pc[r] == |Program(n, r)|
  }

  /** An odd rank that has not received has a left neighbour still in its send. */
  lemma OddWaits(my: seq<int>, s: State, r: nat)
    requires Invariant(my, s) && r < |my| && r % 2 == 1 && s.pc[r] == 0
    ensures Enabled(|my|, s, r - 1)
  {
    assert LinkConsistent(|my|, s, r - 1);
  }

  lemma AllOddReceived(my: seq<int>, s: State, r: nat)
    requires Invariant(my, s) && r < |my| && s.pc[r] < |Program(|my|, r)|
    requires forall q :: 0 <= q < |my| && q % 2 == 1 ==> s.pc[q] > 0
    ensures r % 2 == 0 ==> r > 0 && Enabled(|my|, s, r - 1)
    ensures r % 2 == 1 ==> Enabled(|my|, s, r)
  {
    if r % 2 == 0 {
      if r + 1 < |my| {
        assert LinkConsistent(|my|, s, r);
        assert (r + 1) % 2 == 1;
      }
      assert r > 0 && (r - 1) % 2 == 1;
      assert LinkConsistent(|my|, s, r - 1);
    } else {
      assert LinkConsistent(|my|, s, r);
      if r + 2 < |my| {
        assert LinkConsistent(|my|, s, r + 1);
        assert (r + 2) % 2 == 1;
      }
    }
  }

  /** No deadlock, for any number of processes: until all are done, some message can pass. */
  lemma NoDeadlock(my: seq<int>, s: State, steps: nat) returns (p: nat)
    requires Reachable(my, s, steps) && Shaped(|my|, s) && !AllDone(|my|, s)
    ensures Enabled(|my|, s, p)
  {
    hide Reachable, Invariant, Enabled, Program;
    ReachableInvariant(my, s, steps);
    var r: nat :| r < |my| && s.pc[r] != |Program(|my|, r)|;
    if q: nat :| q < |my| && q % 2 == 1 && s.pc[q] == 0 {
      OddWaits(my, s, q);
      p := q - 1;
    } else {
      AllOddReceived(my, s, r);
      p := r;
      if r % 2 == 0 {
        p := r - 1;
      }
    }
  }

  /** Operations done by the first `n` ranks. */
  function Work(pc: seq<nat>, n: nat): nat
    requires n <= |pc|
  {
    if n == 0 then 0 else Work(pc, n - 1) + pc[n - 1]
  }

  lemma {:induction false} WorkOfStep(a: seq<nat>, b: seq<nat>, p: nat, n: nat)
    requires n <= |a| == |b| && p + 1 < |a| && b == a[p := a[p] + 1][p + 1 := a[p + 1] + 1]
    ensures Work(b, n) == Work(a, n) + (if p < n then 1 else 0) + if p + 1 < n then 1 else 0
  {
    if n > 0 {
      WorkOfStep(a, b, p, n - 1);
    }
  }

  lemma {:induction false} WorkBounded(my: seq<int>, s: State, n: nat)
    requires Shaped(|my|, s) && n <= |my|
    ensures Work(s.pc, n) <= 2 * n
  {
    if n > 0 {
      WorkBounded(my, s, n - 1);
      assert |Program(|my|, n - 1)| <= 2;
    }
  }

  lemma {:induction false} NoWork(pc: seq<nat>, n: nat)
    requires n <= |pc| && forall r :: 0 <= r < |pc| ==> pc[r] == 0
    ensures Work(pc, n) == 0
  {
    if n > 0 {
      NoWork(pc, n - 1);
    }
  }

  lemma ReachableShaped(my: seq<int>, s: State, steps: nat)
    requires Reachable(my, s, steps)
    ensures Shaped(|my|, s) && |s.pc| == |my|
  {
    ReachableInvariant(my, s, steps);
  }

  lemma StepWork(my: seq<int>, t: State, p: nat, s: State)
    requires StepFrom(my, t, p, s)
    ensures |t.pc| == |s.pc| == |my| && Work(s.pc, |my|) == Work(t.pc, |my|) + 2
  {
    hide Enabled, Work, Passed, Shaped;
    PassedOn(my, t, p);
    WorkOfStep(t.pc, s.pc, p, |my|);
  }

  lemma PassedOn(my: seq<int>, t: State, p: nat)
    requires Shaped(|my|, t) && p + 1 < |my|
    ensures |t.pc| == |t.prev| == |my| && |Passed(my, t, p).pc| == |my|
    ensures Passed(my, t, p).pc == t.pc[p := t.pc[p] + 1][p + 1 := t.pc[p + 1] + 1]
  {
  }

  /** Every run ends: it has at most one message for every process. */
  lemma {:induction false} RunsEnd(my: seq<int>, s: State, steps: nat)
    requires Reachable(my, s, steps)
    ensures |s.pc| == |my| && Work(s.pc, |my|) == 2 * steps && steps <= |my|
    decreases steps
  {
    hide Invariant, StepFrom, Shaped, Work;
    ReachableShaped(my, s, steps);
    if steps == 0 {
      NoWork(s.pc, |my|);
    } else {
      var t: State, p: nat :| Reachable(my, t, steps - 1) && StepFrom(my, t, p, s);
      RunsEnd(my, t, steps - 1);
      StepWork(my, t, p, s);
    }
    WorkBounded(my, s, |my|);
  }

  /** When all are done, every process holds the value of its left neighbour, the first one -1. */
  lemma FinalPrevious(my: seq<int>, s: State, steps: nat)
    requires Reachable(my, s, steps) && Shaped(|my|, s) && AllDone(|my|, s)
    ensures s.prev == Previous(my)
  {
    ReachableInvariant(my, s, steps);
    hide Reachable, LinkConsistent;
    forall r | 0 <= r < |my|
      ensures s.prev[r] == Previous(my)[r]
    {
      assert HoldsPrevious(my, s, r);
      assert s.pc[r] == |Program(|my|, r)|;
    }
  }

  function Previous(my: seq<int>): (r: seq<int>)
    ensures |r| == |my|
  {
    seq(|my|, r requires 0 <= r < |my| => if r == 0 then -1 else my[r - 1])
  }

  /** What a process sends: its last ID, -1 without IDs. */
  function Last(ids: seq<int>): int {
    if ids == [] then -1 else ids[|ids| - 1]
  }

  function Lasts(ids: seq<seq<int>>): (r: seq<int>)
    ensures |r| == |ids|
  {
    seq(|ids|, p requires 0 <= p < |ids| => Last(ids[p]))
  }

  /** The answer of `isSorted`, the same on all processes: two reductions with the minimum. */
  ghost predicate Answer(ids: seq<seq<int>>, prev: seq<int>)
    requires |prev| == |ids|
  {
    && (forall p :: 0 <= p < |ids| ==> Sorted(ids[p]))
    && (forall p :: 0 <= p < |ids| && ids[p] != [] ==> prev[p] < ids[p][0])
  }

  /** Locally sorted, and every border between neighbouring nonempty processes strictly increases. */
  ghost predicate GloballySorted(ids: seq<seq<int>>) {
    && (forall p :: 0 <= p < |ids| ==> Sorted(ids[p]))
    && (forall p, q :: 0 <= p < q < |ids| && Neighbours(ids, p, q) ==> Last(ids[p]) < ids[q][0])
  }

  /** Nonempty processes with none but empty ones between them. */
  ghost predicate Neighbours(ids: seq<seq<int>>, p: nat, q: nat)
    requires p < q < |ids|
  {
    ids[p] != [] && ids[q] != [] && forall r :: p < r < q ==> ids[r] == []
  }

  ghost predicate NonNegative(ids: seq<seq<int>>) {
    forall p, i :: 0 <= p < |ids| && 0 <= i < |ids[p]| ==> ids[p][i] >= 0
  }

  /** A border across empty processes that does not increase. */
  ghost predicate SkippedBorder(ids: seq<seq<int>>) {
    exists p, q :: 0 <= p && p + 1 < q < |ids| && Neighbours(ids, p, q) && Last(ids[p]) >= ids[q][0]
  }

  /** Locally sorted, and every border between two adjacent processes with IDs strictly increases. */
  ghost predicate SortedSideBySide(ids: seq<seq<int>>) {
    && (forall p :: 0 <= p < |ids| ==> Sorted(ids[p]))
    && (forall q :: 0 < q < |ids| && ids[q] != [] && ids[q - 1] != [] ==> Last(ids[q - 1]) < ids[q][0])
  }

  /** The answer looks at adjacent processes only. */
  lemma AnswerMeans(ids: seq<seq<int>>)
    requires NonNegative(ids)
    ensures Answer(ids, Previous(Lasts(ids))) <==> SortedSideBySide(ids)
  {
    var prev := Previous(Lasts(ids));
    if SortedSideBySide(ids) {
      forall p | 0 <= p < |ids| && ids[p] != []
        ensures prev[p] < ids[p][0]
      {
        assert p > 0 && ids[p - 1] != [] ==> Last(ids[p - 1]) < ids[p][0];
      }
    }
    if Answer(ids, prev) {
      forall q | 0 < q < |ids| && ids[q] != [] && ids[q - 1] != []
        ensures Last(ids[q - 1]) < ids[q][0]
      {
        assert prev[q] == Last(ids[q - 1]);
      }
    }
  }

  /** The IDs are sorted exactly when the answer is true and no border across empty processes fails to increase. */
  lemma AnswerIff(ids: seq<seq<int>>)
    requires NonNegative(ids)
    ensures GloballySorted(ids) <==> Answer(ids, Previous(Lasts(ids))) && !SkippedBorder(ids)
  {
    AnswerMeans(ids);
    if GloballySorted(ids) {
      forall q | 0 < q < |ids| && ids[q] != [] && ids[q - 1] != []
        ensures Last(ids[q - 1]) < ids[q][0]
      {
        assert Neighbours(ids, q - 1, q);
      }
    }
    if SortedSideBySide(ids) && !SkippedBorder(ids) {
      forall p, q | 0 <= p < q < |ids| && Neighbours(ids, p, q)
        ensures Last(ids[p]) < ids[q][0]
      {
        assert q == p + 1 ==> ids[q - 1] == ids[p];
      }
    }
  }

  /**
   * The answer is wrong exactly when everything but a border across empty processes is in order:
   * then it is true of unsorted IDs. With anything else out of order it is false, and right.
   */
  lemma AnswerRightIff(ids: seq<seq<int>>)
    requires NonNegative(ids)
    ensures (Answer(ids, Previous(Lasts(ids))) <==> GloballySorted(ids)) <==> !(SortedSideBySide(ids) && SkippedBorder(ids))
  {
    AnswerMeans(ids);
    AnswerIff(ids);
    hide SortedSideBySide, SkippedBorder, GloballySorted, Answer;
  }

  /** Without empty processes the answer is right. */
  lemma AnswerWithoutEmpty(ids: seq<seq<int>>)
    requires NonNegative(ids) && forall p :: 0 <= p < |ids| ==> ids[p] != []
    ensures Answer(ids, Previous(Lasts(ids))) <==> GloballySorted(ids)
  {
    AnswerIff(ids);
    forall p, q | 0 <= p && p + 1 < q < |ids|
      ensures !Neighbours(ids, p, q)
    {
      assert ids[p + 1] != [];
    }
  }

  /** Three processes, the middle one empty: 5 before 3 goes unnoticed. */
  lemma AnswerCounterexample()
    ensures Answer([[5], [], [3]], Previous(Lasts([[5], [], [3]]))) && !GloballySorted([[5], [], [3]])
  {
    var ids := [[5], [], [3]];
    assert Neighbours(ids, 0, 2);
  }

  /** With a list that is not sorted either, the same border does no harm. */
  lemma AnswerStillRight()
    ensures SkippedBorder([[5], [], [3, 1]]) && !Answer([[5], [], [3, 1]], Previous(Lasts([[5], [], [3, 1]])))
    ensures !GloballySorted([[5], [], [3, 1]])
  {
    var ids := [[5], [], [3, 1]];
    assert Neighbours(ids, 0, 2);
    assert ids[2][0] > ids[2][1];
  }
}
