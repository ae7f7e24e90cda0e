/** Lists that are permuted, concatenated and exchanged between processes keep their members. */
module Conservation {
  import opened Basis
  import opened BlockExchange

  /** The members of `s` in the order of `p`. */
  ghost function Permuted<T>(s: seq<T>, p: seq<nat>): (r: seq<T>)
    requires forall i :: 0 <= i < |p| ==> p[i] < |s|
    ensures |r| == |p|
  {
    seq(|p|, i requires 0 <= i < |p| => s[p[i]])
  }

  /** Where the last place is, and the permutation of the others. */
  lemma WithoutLast(p: seq<nat>, n: nat) returns (k: nat)
    requires IsPermutation(p, n) && n > 0
    ensures k < n == |p| && p[k] == n - 1 && IsPermutation(p[..k] + p[k + 1..], n - 1)
    ensures forall i :: 0 <= i < n && i != k ==> p[i] < n - 1
  {
    assert n - 1 in p;
    k :| 0 <= k < n && p[k] == n - 1;
    forall i | 0 <= i < n && i != k
      ensures p[i] < n - 1
    {
      assert p[i] in p;
    }
    OthersPermuted(p, n, k);
  }

  lemma OthersPermuted(p: seq<nat>, n: nat, k: nat)
    requires IsPermutation(p, n) && k < n == |p| && p[k] == n - 1
    ensures IsPermutation(p[..k] + p[k + 1..], n - 1)
  {
    var q := p[..k] + p[k + 1..];
    forall i, j | 0 <= i < j < |q|
      ensures q[i] != q[j]
    {
      var a, b := if i < k then i else i + 1, if j < k then j else j + 1;
      assert q[i] == p[a] && q[j] == p[b];
    }
    forall x: nat
      ensures x in q <==> x < n - 1
    {
      OtherPlaces(p, n, k, x);
    }
  }

  lemma OtherPlaces(p: seq<nat>, n: nat, k: nat, x: nat)
    requires IsPermutation(p, n) && k < n == |p| && p[k] == n - 1
    ensures x in p[..k] + p[k + 1..] <==> x < n - 1
  {
    var q := p[..k] + p[k + 1..];
    if x in q {
      var i :| 0 <= i < |q| && q[i] == x;
      assert q[i] == p[if i < k then i else i + 1];
      assert q[i] in p;
    }
    if x < n - 1 {
      assert x in p;
      var a :| 0 <= a < n && p[a] == x;
      assert q[if a < k then a else a - 1] == x;
    }
  }

  lemma PlacesBelow(p: seq<nat>, n: nat)
    requires IsPermutation(p, n)
    ensures forall i :: 0 <= i < |p| ==> p[i] < n
  {
    forall i | 0 <= i < |p|
      ensures p[i] < n
    {
      assert p[i] in p;
    }
  }

  lemma RemovedMultiset<T>(s: seq<T>, k: nat)
    requires k < |s|
    ensures multiset(s) == multiset(s[..k] + s[k + 1..]) + multiset{s[k]}
  {
    assert s == s[..k] + ([s[k]] + s[k + 1..]);
  }

  /** A permuted list has the same members, as often. */
  lemma {:induction false} PermutedMultiset<T>(s: seq<T>, p: seq<nat>)
    requires IsPermutation(p, |s|) && forall i :: 0 <= i < |p| ==> p[i] < |s|
    ensures multiset(Permuted(s, p)) == multiset(s)
    decreases |s|
  {
    hide IsPermutation, Permuted;
    if s == [] {
      PermutationLength(p, 0);
      assert Permuted(s, p) == [];
    } else {
      var n := |s|;
      var k := WithoutLast(p, n);
      var q, init := p[..k] + p[k + 1..], s[..n - 1];
      PlacesBelow(q, n - 1);
      PermutedMultiset(init, q);
      RestPermuted(s, p, k);
      RemovedMultiset(Permuted(s, p), k);
      RemovedMultiset(s, n - 1);
      assert s[..n - 1] + s[n..] == init;
    }
  }

  /** Without the place of the last element, a permuted list is the rest permuted. */
  lemma RestPermuted<T>(s: seq<T>, p: seq<nat>, k: nat)
    requires k < |p| == |s| && (forall i :: 0 <= i < |p| ==> p[i] < |s|) && forall i :: 0 <= i < |p| && i != k ==> p[i] < |s| - 1
    ensures Permuted(s, p)[..k] + Permuted(s, p)[k + 1..] == Permuted(s[..|s| - 1], p[..k] + p[k + 1..])
    ensures Permuted(s, p)[k] == s[p[k]]
  {
  }

  lemma {:induction false} FlattenAppend<T>(a: seq<seq<T>>, b: seq<seq<T>>)
    ensures Flatten(a + b) == Flatten(a) + Flatten(b)
  {
    if b == [] {
      assert a + b == a;
    } else {
      DropLastAppend(a, b);
      FlattenAppend(a, b[..|b| - 1]);
    }
  }

  lemma FlattenRemoved<T>(a: seq<seq<T>>, k: nat)
    requires k < |a|
    ensures multiset(Flatten(a)) == multiset(Flatten(a[..k] + a[k + 1..])) + multiset(a[k])
  {
    hide Flatten;
    assert a == a[..k] + ([a[k]] + a[k + 1..]);
    FlattenOne(a[k]);
    FlattenAppend(a[..k], [a[k]] + a[k + 1..]);
    FlattenAppend([a[k]], a[k + 1..]);
    FlattenAppend(a[..k], a[k + 1..]);
    MovedBehind(Flatten(a[..k]), a[k], Flatten(a[k + 1..]));
  }

  lemma FlattenOne<T>(x: seq<T>)
    ensures Flatten([x]) == x
  {
    assert [x][..0] == [];
  }

  lemma MovedBehind<T>(x: seq<T>, y: seq<T>, z: seq<T>)
    ensures multiset(x + (y + z)) == multiset(x + z) + multiset(y)
  {
  }

  /** Lists put behind each other in another order have the same members. */
  lemma {:induction false} FlattenPermuted<T>(a: seq<seq<T>>, p: seq<nat>)
    requires IsPermutation(p, |a|) && forall i :: 0 <= i < |p| ==> p[i] < |a|
    ensures multiset(Flatten(Permuted(a, p))) == multiset(Flatten(a))
    decreases |a|
  {
    hide Flatten, IsPermutation;
    PermutationLength(p, |a|);
    if a != [] {
      var n := |a|;
      var k := WithoutLast(p, n);
      var q, init := p[..k] + p[k + 1..], a[..n - 1];
      PlacesBelow(q, n - 1);
      FlattenPermuted(init, q);
      FlattenRemoved(Permuted(a, p), k);
      FlattenRemoved(a, n - 1);
      assert Permuted(a, p)[..k] + Permuted(a, p)[k + 1..] == Permuted(init, q);
      assert a[..n - 1] + a[n..] == init;
    } else {
      assert Permuted(a, p) == [];
    }
  }

  lemma PermutationLength(p: seq<nat>, n: nat)
    requires IsPermutation(p, n)
    ensures |p| == n
  {
  }

  /** Everything the first `n` lists hold. */
  ghost function Together<T>(lists: seq<seq<T>>, n: nat): multiset<T>
    requires n <= |lists|
  {
    if n == 0 then multiset{} else Together(lists, n - 1) + multiset(lists[n - 1])
  }

  /** Row `p` of a square of lists, and column `me`. */
  ghost function ColumnOf<T>(parts: seq<seq<seq<T>>>, me: nat): (r: seq<seq<T>>)
    requires forall p :: 0 <= p < |parts| ==> me < |parts[p]|
    ensures |r| == |parts|
  {
    seq(|parts|, p requires 0 <= p < |parts| => parts[p][me])
  }

  lemma {:induction false} TogetherIsFlat<T>(lists: seq<seq<T>>, n: nat)
    requires n <= |lists|
    ensures Together(lists, n) == multiset(Flatten(lists[..n]))
  {
    if n > 0 {
      TogetherIsFlat(lists, n - 1);
      assert lists[..n][..n - 1] == lists[..n - 1] && lists[..n] != [];
    } else {
      assert lists[..0] == [];
    }
  }

  /** The first `n` columns of the first `m` rows. */
  ghost function RowsTogether<T>(parts: seq<seq<seq<T>>>, m: nat, n: nat): multiset<T>
    requires m <= |parts| && forall p :: 0 <= p < |parts| ==> n <= |parts[p]|
  {
    if m == 0 then multiset{} else RowsTogether(parts, m - 1, n) + Together(parts[m - 1], n)
  }

  ghost function ColumnsTogether<T>(parts: seq<seq<seq<T>>>, m: nat, n: nat): multiset<T>
    requires m <= |parts| && forall p :: 0 <= p < |parts| ==> n <= |parts[p]|
  {
    if n == 0 then multiset{} else ColumnsTogether(parts, m, n - 1) + Together(ColumnOf(parts, n - 1), m)
  }

  lemma {:induction false} OneMoreColumn<T>(parts: seq<seq<seq<T>>>, m: nat, n: nat)
    requires m <= |parts| && forall p :: 0 <= p < |parts| ==> n < |parts[p]|
    ensures RowsTogether(parts, m, n + 1) == RowsTogether(parts, m, n) + Together(ColumnOf(parts, n), m)
  {
    hide Together, RowsTogether, ColumnOf;
    if m == 0 {
      NoRows(parts, n);
    } else {
      OneMoreColumn(parts, m - 1, n);
      OneMorePart(parts, m, n);
      Regrouped(RowsTogether(parts, m - 1, n), Together(ColumnOf(parts, n), m - 1), Together(parts[m - 1], n), multiset(parts[m - 1][n]));
    }
  }

  lemma NoRows<T>(parts: seq<seq<seq<T>>>, n: nat)
    requires forall p :: 0 <= p < |parts| ==> n < |parts[p]|
    ensures RowsTogether(parts, 0, n) == RowsTogether(parts, 0, n + 1) == Together(ColumnOf(parts, n), 0) == multiset{}
  {
  }

  lemma OneMorePart<T>(parts: seq<seq<seq<T>>>, m: nat, n: nat)
    requires 0 < m <= |parts| && forall p :: 0 <= p < |parts| ==> n < |parts[p]|
    ensures Together(parts[m - 1], n + 1) == Together(parts[m - 1], n) + multiset(parts[m - 1][n])
    ensures Together(ColumnOf(parts, n), m) == Together(ColumnOf(parts, n), m - 1) + multiset(parts[m - 1][n])
    ensures RowsTogether(parts, m, n) == RowsTogether(parts, m - 1, n) + Together(parts[m - 1], n)
    ensures RowsTogether(parts, m, n + 1) == RowsTogether(parts, m - 1, n + 1) + Together(parts[m - 1], n + 1)
  {
  }

  lemma Regrouped<T>(a: multiset<T>, b: multiset<T>, c: multiset<T>, d: multiset<T>)
    ensures (a + b) + (c + d) == (a + c) + (b + d)
  {
  }

  /** What is sent row by row arrives column by column. */
  lemma {:induction false} RowsAreColumns<T>(parts: seq<seq<seq<T>>>, m: nat, n: nat)
    requires m <= |parts| && forall p :: 0 <= p < |parts| ==> n <= |parts[p]|
    ensures RowsTogether(parts, m, n) == ColumnsTogether(parts, m, n)
  {
    hide Together, ColumnOf, RowsTogether;
    if n > 0 {
      RowsAreColumns(parts, m, n - 1);
      OneMoreColumn(parts, m, n - 1);
    } else {
      NoColumns(parts, m);
    }
  }

  lemma {:induction false} NoColumns<T>(parts: seq<seq<seq<T>>>, m: nat)
    requires m <= |parts|
    ensures RowsTogether(parts, m, 0) == multiset{}
  {
    if m > 0 {
      NoColumns(parts, m - 1);
    }
  }
}
