/** The weights `B1DuplicityUpdate` writes, and the position it writes them to. */
module ScalingWalk {
  import opened Basis
  import opened Pairs
  import opened Glue
  import opened SlotNumbering
  import opened DomainVectors
  import opened GluingWalk
  import opened Operators

  /** Weights proportional to `v`. */
  function Scaled(v: seq<real>): (r: seq<real>)
    requires SumAll(v) != 0.0
    ensures |r| == |v|
  {
    seq(|v|, k requires 0 <= k < |v| => v[k] / SumAll(v))
  }

  lemma {:induction false} ScaledSum(v: seq<real>, j: nat)
    requires SumAll(v) != 0.0 && j <= |v|
    ensures Sum(Scaled(v), j) == Sum(v, j) / SumAll(v)
  {
    if j > 0 {
      ScaledSum(v, j - 1);
      assert Sum(v, j - 1) / SumAll(v) + v[j - 1] / SumAll(v) == (Sum(v, j - 1) + v[j - 1]) / SumAll(v);
    }
  }

  lemma {:induction false} PositiveSum(v: seq<real>, j: nat)
    requires j <= |v| && forall k :: 0 <= k < |v| ==> v[k] > 0.0
    ensures Sum(v, j) >= 0.0 && (j > 0 ==> Sum(v, j) > 0.0)
  {
    if j > 0 {
      PositiveSum(v, j - 1);
    }
  }

  ghost predicate IsSlice(v: seq<real>, values: seq<real>, base: nat) {
    base + |v| <= |values| && forall k :: 0 <= k < |v| ==> v[k] == values[base + k]
  }

  /** The diagonal entries of all copies of one slot: `n` of them in a row. */
  ghost function Diagonal(diagonal: seq<real>, n: nat, dofs: nat, s: Slot): (v: seq<real>)
    requires Multiple(n, Multiple(dofs, s.node) + s.dof) + n <= |diagonal|
    ensures |v| == n && IsSlice(v, diagonal, Multiple(n, Multiple(dofs, s.node) + s.dof))
  {
    var base := Multiple(n, Multiple(dofs, s.node) + s.dof);
    diagonal[base..base + n]
  }

  /** The diagonal entries of all copies of the slot are there and positive, and so is their sum. */
  ghost predicate PositiveAt(diagonal: seq<real>, n: nat, dofs: nat, s: Slot): (r: bool)
    ensures r && n > 0 ==>
      Multiple(n, Multiple(dofs, s.node) + s.dof) + n <= |diagonal| && SumAll(Diagonal(diagonal, n, dofs, s)) > 0.0
  {
    && Multiple(n, Multiple(dofs, s.node) + s.dof) + n <= |diagonal|
    && (forall k :: 0 <= k < n ==> Diagonal(diagonal, n, dofs, s)[k] > 0.0)
    && (PositiveSum(Diagonal(diagonal, n, dofs, s), n); true)
  }

  /** The weights of every slot are its scaled diagonal entries. */
  ghost predicate ScaledFor(dofs: nat, g: GluingInterval, diagonal: seq<real>, slots: seq<Slot>, ws: seq<seq<real>>)
    requires ValidGluing(g)
  {
    && WeightsFor(g, ws, slots)
    && forall c :: 0 <= c < |slots| ==> ScaledAt(dofs, g, diagonal, slots[c], ws[c])
  }

  ghost predicate ScaledAt(dofs: nat, g: GluingInterval, diagonal: seq<real>, s: Slot, w: seq<real>)
    requires ValidGluing(g)
  {
    PositiveAt(diagonal, g.ndomains, dofs, s) && w == Scaled(Diagonal(diagonal, g.ndomains, dofs, s))
  }

  method SumOfSlice(values: seq<real>, base: nat, count: nat, ghost v: seq<real>) returns (sum: real)
    requires IsSlice(v, values, base) && count == |v|
    ensures sum == SumAll(v)
  {
    sum := 0.0;
    for i := 0 to count
      invariant sum == Sum(v, i)
    {
      sum := sum + values[base + i];
    }
  }

  lemma WriteNext(done: seq<real>, w: seq<real>, from: nat, i: nat, original: seq<real>)
    requires from <= i < |w| && |done| + (i - from) < |original|
    ensures var at := |done| + (i - from);
      ((done + w[from..i]) + original[at..])[at := w[i]] == (done + w[from..i + 1]) + original[at + 1..]
  {
  }

  /** The weights written so far are those of the terms `ts`, the rest is untouched. */
  ghost predicate Rewritten(duplicity: seq<real>, original: seq<real>, ts: seq<Term>) {
    |ts| <= |original| && duplicity == WeightsOf(ts) + original[|ts|..]
  }

  /** Copy `k` carries the weights of its partners. */
  lemma PartnerWeights(n: nat, k: nat, start: int, col: int, w: seq<real>, done: seq<Term>)
    requires k < n == |w|
    ensures WeightsOf(done + SlotTerms(n, k, start, col, w, n - 1)) == (WeightsOf(done) + w[0..k]) + w[k + 1..n]
  {
    SlotTermsAt(n, k, start, col, w, n - 1);
    assert WeightsOf(SlotTerms(n, k, start, col, w, n - 1)) == w[0..k] + w[k + 1..n];
    ValuesOfAppend(done, SlotTerms(n, k, start, col, w, n - 1));
  }

  lemma SlotRewritten(duplicity: seq<real>, original: seq<real>, done: seq<Term>, n: nat, k: nat, start: int, col: int, w: seq<real>,
      next: nat)
    requires k < n == |w| && next == |done| + (n - 1) <= |original|
    requires duplicity == ((WeightsOf(done) + w[0..k]) + w[k + 1..n]) + original[next..]
    ensures Rewritten(duplicity, original, done + SlotTerms(n, k, start, col, w, n - 1))
  {
    PartnerWeights(n, k, start, col, w, done);
  }

  /** The weights of the slots `slots` are written; `at` is the next position. */
  ghost predicate Reached(duplicity: seq<real>, original: seq<real>, at: nat, before: seq<Term>, dofs: nat, g: GluingInterval,
      slots: seq<Slot>, ws: seq<seq<real>>)
    requires ValidGluing(g)
  {
    && WeightsFor(g, ws, slots) && at == |before + CopyTerms(dofs, g, slots, ws)|
    && Rewritten(duplicity, original, before + CopyTerms(dofs, g, slots, ws))
  }

  ghost predicate HasRoom(g: GluingInterval, slots: seq<Slot>, before: seq<Term>, original: seq<real>)
    requires ValidGluing(g)
  {
    |before| + Multiple(g.ndomains - 1, |slots|) <= |original|
  }

  lemma {:induction false} TermsLength(n: nat, k: nat, base: int, cols: seq<int>, ws: seq<seq<real>>)
    requires k < n && |cols| <= |ws| && forall c :: 0 <= c < |cols| ==> |ws[c]| == n
    ensures |IntervalTerms(n, k, base, cols, ws)| == Multiple(n - 1, |cols|)
    decreases |cols|
  {
    if cols != [] {
      TermsLength(n, k, base, cols[..|cols| - 1], ws);
    }
  }

  lemma RunInside(done: seq<Slot>, first: nat, last: nat, end: nat, dof: nat, slots: seq<Slot>, all: seq<Slot>)
    requires first <= last < end && done + RunSlots(first, end, dof) <= slots && all == done + RunSlots(first, last, dof)
    ensures all + [Slot(last, dof)] == done + RunSlots(first, last + 1, dof)
    ensures all + [Slot(last, dof)] <= slots
  {
    RunNext(done, first, last, dof);
  }

  lemma RoomForSlot(dofs: nat, g: GluingInterval, diagonal: seq<real>, slots: seq<Slot>, ws: seq<seq<real>>, all: seq<Slot>,
      s: Slot, before: seq<Term>, original: seq<real>)
    requires ValidGluing(g) && ScaledFor(dofs, g, diagonal, slots, ws) && HasRoom(g, slots, before, original) && all + [s] <= slots
    ensures WeightsFor(g, ws, all) && WeightsFor(g, ws, all + [s]) && ScaledAt(dofs, g, diagonal, s, ws[|all|])
    ensures |before + CopyTerms(dofs, g, all, ws)| + (g.ndomains - 1) <= |original|
  {
    hide IntervalTerms, SlotColumns;
    TermsLength(g.ndomains, g.dindex, g.LMOffset, SlotColumns(dofs, g.DOFOffset, all), ws);
    MultipleMonotone(g.ndomains - 1, |all| + 1, |slots|);
    assert slots[|all|] == (all + [s])[|all|] == s;
    assert ScaledAt(dofs, g, diagonal, slots[|all|], ws[|all|]);
  }

  /** What slot `s` adds behind the slots `all`, and that it fits. */
  lemma SlotStep(dofs: nat, g: GluingInterval, diagonal: seq<real>, slots: seq<Slot>, ws: seq<seq<real>>, all: seq<Slot>,
      s: Slot, before: seq<Term>, original: seq<real>) returns (start: int, col: int)
    requires ValidGluing(g) && ScaledFor(dofs, g, diagonal, slots, ws) && HasRoom(g, slots, before, original) && all + [s] <= slots
    ensures WeightsFor(g, ws, all) && WeightsFor(g, ws, all + [s]) && ScaledAt(dofs, g, diagonal, s, ws[|all|])
    ensures |before + CopyTerms(dofs, g, all, ws)| + (g.ndomains - 1) <= |original|
    ensures before + CopyTerms(dofs, g, all + [s], ws) ==
      (before + CopyTerms(dofs, g, all, ws)) + SlotTerms(g.ndomains, g.dindex, start, col, ws[|all|], g.ndomains - 1)
  {
    start, col := g.LMOffset + Multiple(Triangle(g.ndomains), |all|), SlotColumn(dofs, g.DOFOffset, s);
    RoomForSlot(dofs, g, diagonal, slots, ws, all, s, before, original);
    TermsNext(before, dofs, g, all, s, ws, start, col);
  }
}
