/**
 * The overload of `serializededata::balance` for structures of `esize` values each: only data are
 * moved, and shares are counted in structures.
 */
module UniformData {
  import opened Basis
  import opened TArray
  import opened SerializedData

  /** Thread `s` holds the values `cuts[s] .. cuts[s + 1]` of all. */
  ghost predicate Holds<T>(all: seq<T>, cuts: seq<nat>, data: seq<seq<T>>) {
    ValidCuts(cuts, |data|, |all|) && forall s :: 0 <= s < |data| ==> HoldsAt(all, cuts, data[s], s)
  }

  ghost predicate HoldsAt<T>(all: seq<T>, cuts: seq<nat>, values: seq<T>, s: nat) {
    s + 1 < |cuts| && cuts[s] <= cuts[s + 1] <= |all| && values == all[cuts[s]..cuts[s + 1]]
  }

  /** The values are always held in some cut. */
  lemma {:induction false} HeldSomehow<T>(data: seq<seq<T>>) returns (cuts: seq<nat>)
    ensures Holds(Flatten(data), cuts, data)
  {
    if data == [] {
      cuts := [0];
    } else {
      var l, all := |data| - 1, Flatten(data);
      var before := HeldSomehow(data[..l]);
      cuts := before + [|all|];
      forall s | 0 <= s < |data|
        ensures HoldsAt(all, cuts, data[s], s)
      {
        if s < l {
          assert HoldsAt(Flatten(data[..l]), before, data[..l][s], s);
          PrefixSlice(Flatten(data[..l]), data[l], before[s], before[s + 1]);
        }
      }
    }
  }

  lemma PrefixSlice<T>(a: seq<T>, b: seq<T>, x: nat, y: nat)
    requires x <= y <= |a|
    ensures (a + b)[x..y] == a[x..y]
  {
  }

  /** The shares of `esize` values for each structure. */
  ghost predicate Shares(d: seq<nat>, n: nat) {
    |d| == n + 1 && d[0] == 0 && Sorted(d)
  }

  lemma {:induction false} ShareOf(esize: nat, a: nat, b: nat)
    requires a <= b
    ensures Multiple(esize, b) == Multiple(esize, a) + Multiple(esize, b - a)
    decreases b
  {
    if a < b {
      ShareOf(esize, a, b - 1);
    }
  }

  /** Values `cuts[tt] .. v` go from the front of thread `tt` to the end of thread `t`. */
  lemma Took<T>(all: seq<T>, cuts: seq<nat>, data: seq<seq<T>>, t: nat, tt: nat, v: nat)
    requires Holds(all, cuts, data) && t < tt < |data| && cuts[t + 1] == cuts[tt] <= v <= cuts[tt + 1]
    ensures |data[tt]| == cuts[tt + 1] - cuts[tt]
    ensures Holds(all, MovedCuts(cuts, t, tt, v), data[t := data[t] + data[tt][..v - cuts[tt]]][tt := data[tt][v - cuts[tt]..]])
  {
    InOrder(cuts, t, tt);
    assert HoldsAt(all, cuts, data[t], t) && HoldsAt(all, cuts, data[tt], tt);
    MovedCutsValid(cuts, |data|, |all|, t, tt, v);
    SliceJoin(all, cuts[t], cuts[tt], v);
    SliceSplit(all, cuts[tt], v, cuts[tt + 1]);
    var moved, after := MovedCuts(cuts, t, tt, v), data[t := data[t] + data[tt][..v - cuts[tt]]][tt := data[tt][v - cuts[tt]..]];
    hide Sorted;
    forall s | 0 <= s < |data|
      ensures HoldsAt(all, moved, after[s], s)
    {
      TookAt(all, cuts, data, t, tt, v, s);
    }
  }

  lemma TookAt<T>(all: seq<T>, cuts: seq<nat>, data: seq<seq<T>>, t: nat, tt: nat, v: nat, s: nat)
    requires Holds(all, cuts, data) && t < tt < |data| && cuts[t + 1] == cuts[tt] <= v <= cuts[tt + 1] && s < |data|
    requires |data[tt]| == cuts[tt + 1] - cuts[tt] && v <= |all| && cuts[t] <= cuts[tt]
    requires data[t] + data[tt][..v - cuts[tt]] == all[cuts[t]..v] && data[tt][v - cuts[tt]..] == all[v..cuts[tt + 1]]
    ensures HoldsAt(all, MovedCuts(cuts, t, tt, v), data[t := data[t] + data[tt][..v - cuts[tt]]][tt := data[tt][v - cuts[tt]..]][s], s)
  {
    assert HoldsAt(all, cuts, data[s], s);
    if t < s < tt {
      InOrder(cuts, t + 1, s);
      InOrder(cuts, s, tt);
      InOrder(cuts, s + 1, tt);
      assert data[s] == [];
    }
  }

  /** Values from `v` on go from the end of thread `t` to the front of thread `t + 1`. */
  lemma Gave<T>(all: seq<T>, cuts: seq<nat>, data: seq<seq<T>>, t: nat, v: nat)
    requires Holds(all, cuts, data) && t + 1 < |data| && cuts[t] <= v <= cuts[t + 1]
    ensures |data[t]| == cuts[t + 1] - cuts[t]
    ensures Holds(all, MovedCuts(cuts, t, t + 1, v), data[t + 1 := data[t][v - cuts[t]..] + data[t + 1]][t := data[t][..v - cuts[t]]])
  {
    assert HoldsAt(all, cuts, data[t], t) && HoldsAt(all, cuts, data[t + 1], t + 1);
    InOrder(cuts, t + 1, t + 2);
    MovedCutsValid(cuts, |data|, |all|, t, t + 1, v);
    MoveEnd(all, cuts[t], v, cuts[t + 1], cuts[t + 2]);
    SliceSplit(all, cuts[t], v, cuts[t + 1]);
    var moved, after := MovedCuts(cuts, t, t + 1, v), data[t + 1 := data[t][v - cuts[t]..] + data[t + 1]][t := data[t][..v - cuts[t]]];
    hide Sorted;
    forall s | 0 <= s < |data|
      ensures HoldsAt(all, moved, after[s], s)
    {
      assert HoldsAt(all, cuts, data[s], s);
    }
  }

  /** The same values in the same order up to thread `t`. */
  ghost predicate SameBefore(a: seq<nat>, b: seq<nat>, t: nat) {
    |a| == |b| && t < |a| && forall s :: 0 <= s <= t ==> a[s] == b[s]
  }

  /** Thread `t` has its share, or the threads up to `tt` are empty. */
  ghost predicate FillingFrom(cuts: seq<nat>, t: nat, tt: nat, want: nat) {
    t < tt < |cuts| && (cuts[t] + want <= cuts[t + 1] || cuts[t + 1] == cuts[tt])
  }

  lemma IsFilling(cuts: seq<nat>, t: nat, tt: nat, want: nat)
    requires t < tt < |cuts| && (cuts[t] + want <= cuts[t + 1] || cuts[t + 1] == cuts[tt])
    ensures FillingFrom(cuts, t, tt, want)
  {
  }

  lemma Moved(cuts: seq<nat>, t: nat, tt: nat, v: nat) returns (moved: seq<nat>)
    requires t < tt && tt + 1 < |cuts|
    ensures moved == MovedCuts(cuts, t, tt, v) && |moved| == |cuts| && SameBefore(cuts, moved, t)
    ensures moved[t] == cuts[t] && moved[t + 1] == v && moved[tt + 1] == cuts[tt + 1]
  {
    moved := MovedCuts(cuts, t, tt, v);
  }

  /** The vectors of all threads. */
  class UniformVectors<T> {
    var data: seq<seq<T>>

    constructor (data: seq<seq<T>>)
      ensures this.data == data
    {
      this.data := data;
    }

    /** One step of filling: thread `t` takes what it lacks, or all there is, from thread `tt`. */
    method TakeFrom(t: nat, tt: nat, want: nat, ghost all: seq<T>, ghost cuts: seq<nat>) returns (ghost moved: seq<nat>)
      requires Holds(all, cuts, data) && t < tt < |data| && cuts[t + 1] == cuts[tt] && |data[t]| < want
      modifies this
      ensures |data| == old(|data|) && Holds(all, moved, data) && SameBefore(cuts, moved, t) && FillingFrom(moved, t, tt + 1, want)
      ensures moved[t + 1] <= moved[t] + want
    {
      hide *;
      CutBounds(all, cuts, data, t);
      CutBounds(all, cuts, data, tt);
      var diff := want - |data[t]|;
      if diff < |data[tt]| {
        moved := Moved(cuts, t, tt, cuts[tt] + diff);
        Took(all, cuts, data, t, tt, cuts[tt] + diff);
        data := data[t := data[t] + data[tt][..diff]][tt := data[tt][diff..]];
      } else {
        moved := Moved(cuts, t, tt, cuts[tt + 1]);
        Took(all, cuts, data, t, tt, cuts[tt + 1]);
        assert data[tt][..|data[tt]|] == data[tt] && data[tt][|data[tt]|..] == [];
        data := data[t := data[t] + data[tt]][tt := []];
      }
      IsFilling(moved, t, tt + 1, want);
    }

    /** Fills thread `t` from the threads behind it; `false` when there are none left to take from. */
    method Fill(t: nat, want: nat, ghost all: seq<T>, ghost start: seq<nat>) returns (ok: bool, ghost cuts: seq<nat>)
      requires Holds(all, start, data) && t < |data|
      modifies this
      ensures |data| == old(|data|) && Holds(all, cuts, data) && SameBefore(start, cuts, t)
      ensures ok <==> start[t] + want <= |all|
      ensures ok ==> start[t] + want <= cuts[t + 1]
    {
      hide Holds, HoldsAt;
      cuts := start;
      CutBounds(all, cuts, data, t);
      var tt := t + 1;
      while |data[t]| < want
        invariant t < tt <= |data| == old(|data|)
        invariant Holds(all, cuts, data) && SameBefore(start, cuts, t) && FillingFrom(cuts, t, tt, want)
        invariant cuts[t] + |data[t]| == cuts[t + 1] <= |all|
        decreases |data| - tt
      {
        if tt == |data| {
          CutEnd(all, cuts, data);
          return false, cuts;
        }
        cuts := TakeFrom(t, tt, want, all, cuts);
        CutBounds(all, cuts, data, t);
        tt := tt + 1;
      }
      ok := true;
    }

    /** The last `diff` values of thread `t` go to the front of the next one. */
    method GiveRest(t: nat, diff: nat, ghost all: seq<T>, ghost cuts: seq<nat>)
      requires Holds(all, cuts, data) && t + 1 < |data| && diff <= |data[t]|
      modifies this
      ensures |data| == old(|data|) && |cuts| == |data| + 1 && cuts[t] <= cuts[t + 1] && cuts[t] + |old(data)[t]| == cuts[t + 1]
      ensures Holds(all, MovedCuts(cuts, t, t + 1, cuts[t + 1] - diff), data)
    {
      hide *;
      CutBounds(all, cuts, data, t);
      Gave(all, cuts, data, t, cuts[t + 1] - diff);
      data := data[t + 1 := data[t][|data[t]| - diff..] + data[t + 1]][t := data[t][..|data[t]| - diff]];
    }

    /** Thread `t` gets its share and hands the rest on to the next one, if there is one. */
    method BalanceThread(t: nat, want: nat, ghost all: seq<T>, ghost start: seq<nat>) returns (ok: bool, ghost cuts: seq<nat>)
      requires Holds(all, start, data) && t < |data|
      modifies this
      ensures |data| == old(|data|) && Holds(all, cuts, data) && SameBefore(start, cuts, t)
      ensures ok <==> if t + 1 == |data| then start[t] + want == |all| else start[t] + want <= |all|
      ensures ok ==> cuts[t + 1] == start[t] + want
    {
      hide Holds;
      ok, cuts := Fill(t, want, all, start);
      CutBounds(all, cuts, data, t);
      CutEnd(all, cuts, data);
      if ok && |data[t]| > want {
        var diff := |data[t]| - want;
        if t + 1 == |data| {
          return false, cuts;
        }
        GiveRest(t, diff, all, cuts);
        cuts := MovedCuts(cuts, t, t + 1, cuts[t + 1] - diff);
      }
    }

    /** All threads in turn, until one cannot get its share. */
    method BalanceAll(esize: nat, d: seq<nat>, ghost all: seq<T>, ghost first: seq<nat>) returns (ok: bool)
      requires Holds(all, first, data) && data != [] && Shares(d, |data|)
      modifies this
      ensures |data| == old(|data|) && (ok <==> Multiple(esize, d[|data|]) == |all|)
      ensures ok ==> forall t :: 0 <= t < |data| ==> HasShare(all, esize, d, data[t], t)
    {
      ghost var cuts := first;
      CutEnd(all, cuts, data);
      assert Multiple(esize, d[0]) == 0;
      hide Holds, Multiple, HasShare;
      for t := 0 to |data|
        invariant |data| == old(|data|) && Holds(all, cuts, data) && |cuts| == |d|
        invariant forall s :: 0 <= s <= t ==> cuts[s] == Multiple(esize, d[s])
        invariant Multiple(esize, d[t]) <= |all| && (t == |data| ==> Multiple(esize, d[t]) == |all|)
      {
        InOrder(d, t, t + 1);
        ShareOf(esize, d[t], d[t + 1]);
        if t + 1 < |data| {
          InOrder(d, t + 1, |data|);
          ShareOf(esize, d[t + 1], d[|data|]);
        }
        var fits;
        fits, cuts := BalanceThread(t, Multiple(esize, d[t + 1] - d[t]), all, cuts);
        if !fits {
          return false;
        }
      }
      SharesHeld(all, esize, d, cuts, data);
      ok := true;
    }

    /**
     * `balance` for structures of `esize` values. It reads beyond the vectors unless the shares are
     * exactly what there is; then every thread gets the values of its structures, in order. Without
     * a distribution of the caller it takes one for as many structures as there are values.
     */
    method Balance(esize: nat, targets: Targets) returns (ok: bool, d: seq<nat>)
      requires data != [] && (targets.Given? ==> Shares(targets.distribution, |data|))
      modifies this
      ensures if targets.Given? then d == targets.distribution
        else |d| == old(|data|) + 1 && IsDistribution(d, |Flatten(old(data))|) && EqualChunks(d, |Flatten(old(data))|)
      ensures |data| == old(|data|) && Shares(d, |data|) && (ok <==> Multiple(esize, d[|data|]) == |Flatten(old(data))|)
      ensures ok ==> forall t :: 0 <= t < |data| ==> HasShare(Flatten(old(data)), esize, d, data[t], t)
      ensures targets.Uniform? ==> (ok <==> esize == 1 || |Flatten(old(data))| == 0)
    {
      hide Holds, Multiple, Flatten, HasShare, EqualChunks;
      ghost var all := Flatten(data);
      ghost var cuts := HeldSomehow(data);
      match targets {
        case Given(distribution) => d := distribution;
        case Uniform =>
          var size := CountValues();
          d := Distribute(|data|, size);
          UniformShares(esize, |all|);
      }
      ok := BalanceAll(esize, d, all, cuts);
    }

    method CountValues() returns (size: nat)
      ensures size == |Flatten(data)|
    {
      size := 0;
      assert data[..0] == [];
      for t := 0 to |data|
        invariant size == |Flatten(data[..t])|
      {
        assert data[..t + 1][..t] == data[..t];
        size := size + |data[t]|;
      }
      assert data[..|data|] == data;
    }
  }

  /** Thread `t` holds the values of the structures `d[t] .. d[t + 1]`. */
  ghost predicate HasShare<T>(all: seq<T>, esize: nat, d: seq<nat>, values: seq<T>, t: nat) {
    && t + 1 < |d| && Multiple(esize, d[t]) <= Multiple(esize, d[t + 1]) <= |all|
    && values == all[Multiple(esize, d[t])..Multiple(esize, d[t + 1])]
  }

  /** Shares of all values are as long as they should be, and put behind each other they are all values. */
  lemma SharesAreAll<T>(all: seq<T>, esize: nat, d: seq<nat>, data: seq<seq<T>>)
    requires Shares(d, |data|) && Multiple(esize, d[|data|]) == |all| && forall t :: 0 <= t < |data| ==> HasShare(all, esize, d, data[t], t)
    ensures Flatten(data) == all && forall t :: 0 <= t < |data| ==> |data[t]| == esize * (d[t + 1] - d[t])
  {
    SharesJoin(all, esize, d, data, |data|);
    assert data[..|data|] == data && all[..|all|] == all;
    forall t | 0 <= t < |data|
      ensures |data[t]| == esize * (d[t + 1] - d[t])
    {
      assert HasShare(all, esize, d, data[t], t);
      ShareLength(esize, d[t], d[t + 1]);
    }
  }

  lemma ShareLength(esize: nat, a: nat, b: nat)
    requires Multiple(esize, a) <= Multiple(esize, b)
    ensures Multiple(esize, b) - Multiple(esize, a) == esize * (b - a)
  {
    MultipleIsProduct(esize, a);
    MultipleIsProduct(esize, b);
    Factored(esize, a, b);
  }

  lemma Factored(x: int, a: int, b: int)
    ensures b * x - a * x == x * (b - a)
  {
  }

  lemma {:induction false} SharesJoin<T>(all: seq<T>, esize: nat, d: seq<nat>, data: seq<seq<T>>, n: nat)
    requires n <= |data| && |d| == |data| + 1 && d[0] == 0 && forall t :: 0 <= t < |data| ==> HasShare(all, esize, d, data[t], t)
    ensures Multiple(esize, d[n]) <= |all| && Flatten(data[..n]) == all[..Multiple(esize, d[n])]
  {
    if n > 0 {
      SharesJoin(all, esize, d, data, n - 1);
      FlattenNext(data, n - 1);
      assert HasShare(all, esize, d, data[n - 1], n - 1);
      hide Multiple, Flatten;
      SliceJoin(all, 0, Multiple(esize, d[n - 1]), Multiple(esize, d[n]));
    } else {
      assert data[..0] == [];
    }
  }

  lemma CutBounds<T>(all: seq<T>, cuts: seq<nat>, data: seq<seq<T>>, t: nat)
    requires Holds(all, cuts, data) && t < |data|
    ensures |cuts| == |data| + 1 && cuts[t] + |data[t]| == cuts[t + 1] <= |all|
  {
    assert HoldsAt(all, cuts, data[t], t);
  }

  lemma CutEnd<T>(all: seq<T>, cuts: seq<nat>, data: seq<seq<T>>)
    requires Holds(all, cuts, data)
    ensures |cuts| == |data| + 1 && cuts[0] == 0 && cuts[|data|] == |all|
  {
  }

  lemma SharesHeld<T>(all: seq<T>, esize: nat, d: seq<nat>, cuts: seq<nat>, data: seq<seq<T>>)
    requires Holds(all, cuts, data) && |cuts| == |d| && forall s :: 0 <= s <= |data| ==> cuts[s] == Multiple(esize, d[s])
    ensures forall t :: 0 <= t < |data| ==> HasShare(all, esize, d, data[t], t)
  {
    forall t | 0 <= t < |data|
      ensures HasShare(all, esize, d, data[t], t)
    {
      assert HoldsAt(all, cuts, data[t], t);
    }
  }

  /** `size` structures of `esize` values are `size` values only for single values, or none. */
  lemma UniformShares(esize: nat, size: nat)
    ensures Multiple(esize, size) == size <==> esize == 1 || size == 0
  {
    if esize == 0 {
      NothingEach(size);
    } else {
      MoreThanEach(esize, size);
    }
  }

  lemma {:induction false} NothingEach(size: nat)
    ensures Multiple(0, size) == 0
  {
    if size > 0 {
      NothingEach(size - 1);
    }
  }

  lemma {:induction false} MoreThanEach(esize: nat, size: nat)
    requires esize > 0
    ensures if esize == 1 then Multiple(esize, size) == size else Multiple(esize, size) >= size + size
  {
    if size > 0 {
      MoreThanEach(esize, size - 1);
    }
  }

  /** Two structures of two values, one for each thread, without a distribution: four structures are asked for. */
  method UniformExample() returns (ok: bool)
    ensures !ok
  {
    var vectors := new UniformVectors([[1, 2], [3, 4]]);
    var d;
    assert Flatten([[1, 2], [3, 4]]) == Flatten([[1, 2], [3, 4]][..1]) + [3, 4];
    ok, d := vectors.Balance(2, Uniform);
  }
}
