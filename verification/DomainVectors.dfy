/** What the vectors of one domain hold, and what a single node adds to them. */
module DomainVectors {
  import opened Basis
  import opened Pairs
  import opened Glue

  function RowsOf(ts: seq<Term>): (r: seq<int>)
    ensures |r| == |ts|
  {
    seq(|ts|, e requires 0 <= e < |ts| => ts[e].row)
  }

  function ColsOf(ts: seq<Term>): (r: seq<int>)
    ensures |r| == |ts|
  {
    seq(|ts|, e requires 0 <= e < |ts| => ts[e].col)
  }

  function ValuesOf(ts: seq<Term>): (r: seq<real>)
    ensures |r| == |ts|
  {
    seq(|ts|, e requires 0 <= e < |ts| => ts[e].value)
  }

  function WeightsOf(ts: seq<Term>): (r: seq<real>)
    ensures |r| == |ts|
  {
    seq(|ts|, e requires 0 <= e < |ts| => ts[e].weight)
  }

  lemma RowsOfAppend(a: seq<Term>, b: seq<Term>)
    ensures RowsOf(a + b) == RowsOf(a) + RowsOf(b)
    ensures ColsOf(a + b) == ColsOf(a) + ColsOf(b)
  {
  }

  lemma ValuesOfAppend(a: seq<Term>, b: seq<Term>)
    ensures ValuesOf(a + b) == ValuesOf(a) + ValuesOf(b)
    ensures WeightsOf(a + b) == WeightsOf(a) + WeightsOf(b)
  {
  }

  lemma AppendOne(a: seq<Term>, t: Term)
    ensures RowsOf(a + [t]) == RowsOf(a) + [t.row] && ColsOf(a + [t]) == ColsOf(a) + [t.col]
    ensures ValuesOf(a + [t]) == ValuesOf(a) + [t.value] && WeightsOf(a + [t]) == WeightsOf(a) + [t.weight]
  {
  }

  function Repeat(x: real, n: nat): (r: seq<real>)
    ensures |r| == n
  {
    if n == 0 then [] else Repeat(x, n - 1) + [x]
  }

  lemma {:induction false} RepeatAppend(x: real, a: nat, b: nat)
    ensures Repeat(x, a + b) == Repeat(x, a) + Repeat(x, b)
    decreases b
  {
    if b > 0 {
      RepeatAppend(x, a, b - 1);
    }
  }

  /** Four vectors that hold the terms `ts`, position by position. */
  ghost predicate Holding(ts: seq<Term>, rows: seq<int>, cols: seq<int>, values: seq<real>, weights: seq<real>) {
    rows == RowsOf(ts) && cols == ColsOf(ts) && values == ValuesOf(ts) && weights == WeightsOf(ts)
  }

  lemma PairsOfCopy(n: nat, k: nat)
    requires k < n
    ensures PairStart(n, k) + (n - k - 1) + Triangle(n - k - 1) == Triangle(n)
  {
    PairStartComplement(n, k + 1);
  }

  lemma WeightsOfNode(before: seq<Term>, n: nat, k: nat, start: int, col: int, x: real, duplicity: seq<real>, todo: nat)
    requires k < n && WeightsOf(before) == duplicity + Repeat(x, todo)
    ensures WeightsOf(before + SlotTerms(n, k, start, col, Repeat(x, n), n - 1)) == duplicity + Repeat(x, todo + (n - 1))
  {
    RepeatAt(x, n);
    SlotWeights(n, k, start, col, Repeat(x, n), x, n - 1);
    ValuesOfAppend(before, SlotTerms(n, k, start, col, Repeat(x, n), n - 1));
    RepeatAppend(x, todo, n - 1);
    ConcatAssociative(duplicity, Repeat(x, todo), Repeat(x, n - 1));
  }

  /** One node appended to all four vectors, the weights still to be inserted. */
  lemma NodeHeld(before: seq<Term>, n: nat, k: nat, start: int, col: int, x: real,
      rows: seq<int>, cols: seq<int>, values: seq<real>, duplicity: seq<real>, todo: nat)
    requires k < n && values == ValuesOf(before) && WeightsOf(before) == duplicity + Repeat(x, todo)
    requires rows == RowsOf(before + SlotTerms(n, k, start, col, Repeat(x, n), n - 1))
    requires cols == ColsOf(before + SlotTerms(n, k, start, col, Repeat(x, n), n - 1))
    ensures Holding(before + SlotTerms(n, k, start, col, Repeat(x, n), n - 1), rows, cols,
      values + Repeat(-1.0, k) + Repeat(1.0, n - k - 1), duplicity + Repeat(x, todo + (n - 1)))
  {
    ValuesOfNode(before, n, k, start, col, Repeat(x, n));
    WeightsOfNode(before, n, k, start, col, x, duplicity, todo);
  }

  lemma {:induction false} SlotWeights(n: nat, k: nat, start: int, col: int, w: seq<real>, x: real, m: nat)
    requires k < n == |w| && m < n && forall j :: 0 <= j < n ==> w[j] == x
    ensures WeightsOf(SlotTerms(n, k, start, col, w, m)) == Repeat(x, m)
  {
    if m > 0 {
      SlotWeights(n, k, start, col, w, x, m - 1);
      AppendOne(SlotTerms(n, k, start, col, w, m - 1), SlotTerm(n, k, start, col, w, m - 1));
    }
  }

  lemma {:induction false} RepeatAt(x: real, n: nat)
    ensures forall j :: 0 <= j < n ==> Repeat(x, n)[j] == x
  {
    if n > 0 {
      RepeatAt(x, n - 1);
    }
  }

  lemma ValuesOfNode(before: seq<Term>, n: nat, k: nat, start: int, col: int, w: seq<real>)
    requires k < n == |w|
    ensures ValuesOf(before + SlotTerms(n, k, start, col, w, n - 1)) ==
      ValuesOf(before) + Repeat(-1.0, k) + Repeat(1.0, n - k - 1)
  {
    SlotValues(n, k, start, col, w, n - 1);
    ValuesOfAppend(before, SlotTerms(n, k, start, col, w, n - 1));
    AllSigns(k, n - 1, ValuesOf(before));
  }

  lemma AllSigns(k: nat, m: nat, x: seq<real>)
    requires k <= m
    ensures x + Signs(k, m) == x + Repeat(-1.0, k) + Repeat(1.0, m - k)
  {
    if m == k {
      assert Repeat(-1.0, k) + [] == Repeat(-1.0, k);
    }
  }

  lemma PushSlotTerm(before: seq<Term>, n: nat, k: nat, start: int, col: int, w: seq<real>, e: nat)
    requires k < n == |w| && e < n - 1
    ensures var t := SlotTerm(n, k, start, col, w, e); var ts := before + SlotTerms(n, k, start, col, w, e);
      RowsOf(before + SlotTerms(n, k, start, col, w, e + 1)) == RowsOf(ts) + [t.row] &&
      ColsOf(before + SlotTerms(n, k, start, col, w, e + 1)) == ColsOf(ts) + [t.col]
  {
    var t, ts := SlotTerm(n, k, start, col, w, e), before + SlotTerms(n, k, start, col, w, e);
    assert before + SlotTerms(n, k, start, col, w, e + 1) == ts + [t];
    AppendOne(ts, t);
  }

  /** The first `m` values of copy `k`: -1 for the lower partners, +1 for the higher ones. */
  function Signs(k: nat, m: nat): (r: seq<real>)
    ensures |r| == m
  {
    if m <= k then Repeat(-1.0, m) else Repeat(-1.0, k) + Repeat(1.0, m - k)
  }

  lemma NextSign(k: nat, m: nat)
    ensures Signs(k, m + 1) == Signs(k, m) + [if m < k then -1.0 else 1.0]
  {
    if m == k {
      assert Repeat(1.0, 1) == [] + [1.0];
    }
  }

  lemma {:induction false} SlotValues(n: nat, k: nat, start: int, col: int, w: seq<real>, m: nat)
    requires k < n == |w| && m < n
    ensures ValuesOf(SlotTerms(n, k, start, col, w, m)) == Signs(k, m)
  {
    if m > 0 {
      var before, t := SlotTerms(n, k, start, col, w, m - 1), SlotTerm(n, k, start, col, w, m - 1);
      SlotValues(n, k, start, col, w, m - 1);
      AppendOne(before, t);
      NextSign(k, m - 1);
      assert SlotTerms(n, k, start, col, w, m) == before + [t];
      assert t.value == if m - 1 < k then -1.0 else 1.0;
    }
  }

  /** `count` consecutive numbers, as `std::iota` writes them. */
  function Iota(first: int, count: nat): (r: seq<int>)
    ensures |r| == count
  {
    seq(count, j requires 0 <= j < count => first + j)
  }

  /** The Dirichlet rows of one copy on one degree of freedom, appended to all four vectors. */
  lemma ConditionHeld(before: seq<Term>, rows: seq<int>, cols: seq<int>, values: seq<real>, duplicity: seq<real>,
      k: nat, base: int, columns: seq<int>)
    requires Holding(before, rows, cols, values, duplicity)
    ensures Holding(before + ConditionTerms(k, base, columns, |columns|),
      rows + Iota(base + Multiple(|columns|, k) + 1, |columns|), cols + columns,
      values + Repeat(1.0, |columns|), duplicity + Repeat(1.0, |columns|))
  {
    var ts := ConditionTerms(k, base, columns, |columns|);
    ConditionTermsAt(k, base, columns, |columns|);
    RepeatAt(1.0, |columns|);
    assert RowsOf(ts) == Iota(base + Multiple(|columns|, k) + 1, |columns|);
    assert ColsOf(ts) == columns && ValuesOf(ts) == Repeat(1.0, |columns|) == WeightsOf(ts);
    RowsOfAppend(before, ts);
    ValuesOfAppend(before, ts);
  }
}
