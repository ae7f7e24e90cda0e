/** `Esutils::permute` with several values for each place, as the region bits of nodes and elements have. */
module GroupPermute {
  import opened Basis

  /** Values for `n` places, `width` each, or none at all. */
  ghost predicate Grouped<T>(data: seq<T>, width: nat, n: nat) {
    |data| == 0 || |data| == Multiple(width, n)
  }

  /** Value `e` of place `i` is value `e` of the place it comes from. */
  ghost predicate CellMoved<T>(data: seq<T>, r: seq<T>, p: seq<nat>, width: nat, i: nat, e: nat)
    requires i < |p|
  {
    && Multiple(width, i) + e < |r| && Multiple(width, p[i]) + e < |data|
    && r[Multiple(width, i) + e] == data[Multiple(width, p[i]) + e]
  }

  /** The values of place `i` are those of place `p[i]`. */
  ghost predicate GroupMoved<T>(data: seq<T>, r: seq<T>, p: seq<nat>, width: nat, i: nat)
    requires i < |p|
  {
    && Multiple(width, i) + width <= |r| && Multiple(width, p[i]) + width <= |data|
    && r[Multiple(width, i)..Multiple(width, i) + width] == data[Multiple(width, p[i])..Multiple(width, p[i]) + width]
  }

  ghost predicate GroupsMoved<T>(data: seq<T>, r: seq<T>, p: seq<nat>, width: nat) {
    |r| == |data| && (|data| > 0 ==> forall i :: 0 <= i < |p| ==> GroupMoved(data, r, p, width, i))
  }

  lemma CellInside(width: nat, n: nat, i: nat, e: nat)
    requires i < n && e < width
    ensures Multiple(width, i) + e < Multiple(width, n)
  {
    MultipleMonotone(width, i + 1, n);
  }

  /** Different cells lie at different places. */
  lemma CellsApart(width: nat, i: nat, e: nat, j: nat, f: nat)
    requires e < width && f < width && Multiple(width, i) + e == Multiple(width, j) + f
    ensures i == j && e == f
  {
    if i < j {
      CellInside(width, j, i, e);
    } else if j < i {
      CellInside(width, i, j, f);
    }
  }

  lemma CellKept<T>(data: seq<T>, r: seq<T>, p: seq<nat>, width: nat, i: nat, e: nat, j: nat, f: nat, x: T)
    requires i < |p| && j < |p| && e < width && f < width && Multiple(width, i) + e < |r|
    requires CellMoved(data, r, p, width, j, f) && (i != j || e != f)
    ensures CellMoved(data, r[Multiple(width, i) + e := x], p, width, j, f)
  {
    if Multiple(width, i) + e == Multiple(width, j) + f {
      CellsApart(width, i, e, j, f);
    }
  }

  /** Value `e` of the places below `i`, and all values before `e`, are moved. */
  ghost predicate MovedUpTo<T>(data: seq<T>, r: seq<T>, p: seq<nat>, width: nat, i: nat, e: nat)
    requires i <= |p|
  {
    && |r| == |data|
    && forall j: nat, f: nat :: j < |p| && f < width && (f < e || (f == e && j < i)) ==> CellMoved(data, r, p, width, j, f)
  }

  lemma MovedOneMore<T>(data: seq<T>, r: seq<T>, p: seq<nat>, width: nat, i: nat, e: nat)
    requires i < |p| && MovedUpTo(data, r, p, width, i, e) && e < width && |data| == Multiple(width, |p|) && p[i] < |p|
    ensures Multiple(width, i) + e < |r| && Multiple(width, p[i]) + e < |data|
    ensures MovedUpTo(data, r[Multiple(width, i) + e := data[Multiple(width, p[i]) + e]], p, width, i + 1, e)
  {
    CellInside(width, |p|, i, e);
    CellInside(width, |p|, p[i], e);
    hide CellMoved;
    var x := data[Multiple(width, p[i]) + e];
    var next := r[Multiple(width, i) + e := x];
    forall j, f | 0 <= j < |p| && 0 <= f < width && (f < e || (f == e && j < i + 1))
      ensures CellMoved(data, next, p, width, j, f)
    {
      if j == i && f == e {
        CellWritten(data, r, p, width, i, e);
      } else {
        CellKept(data, r, p, width, i, e, j, f, x);
      }
    }
  }

  lemma CellWritten<T>(data: seq<T>, r: seq<T>, p: seq<nat>, width: nat, i: nat, e: nat)
    requires i < |p| && Multiple(width, i) + e < |r| && Multiple(width, p[i]) + e < |data|
    ensures CellMoved(data, r[Multiple(width, i) + e := data[Multiple(width, p[i]) + e]], p, width, i, e)
  {
  }

  lemma PlaceCount(width: nat, n: nat)
    requires width > 0
    ensures Multiple(width, n) / width == n
  {
    var x := Multiple(width, n);
    var q: nat := Quotient(x, width);
    SamePlaces(width, n, q);
  }

  lemma Quotient(x: nat, width: nat) returns (q: nat)
    requires width > 0
    ensures q == x / width && Multiple(width, q) <= x < Multiple(width, q) + width
  {
    q := x / width;
    MultipleIsProduct(width, q);
    hide Multiple;
    assert x == width * q + x % width;
  }

  lemma SamePlaces(width: nat, n: nat, q: nat)
    requires Multiple(width, q) <= Multiple(width, n) < Multiple(width, q) + width
    ensures n == q
  {
    NextPlace(width, q, n);
    NextPlace(width, n, q);
  }

  lemma NextPlace(width: nat, i: nat, j: nat)
    ensures i < j ==> Multiple(width, i) + width <= Multiple(width, j)
  {
    if i < j {
      MultipleMonotone(width, i + 1, j);
    }
  }

  lemma NextColumn<T>(data: seq<T>, r: seq<T>, p: seq<nat>, width: nat, e: nat)
    requires MovedUpTo(data, r, p, width, |p|, e)
    ensures MovedUpTo(data, r, p, width, 0, e + 1)
  {
    hide CellMoved;
  }

  lemma AllCellsMoved<T>(data: seq<T>, r: seq<T>, p: seq<nat>, width: nat)
    requires MovedUpTo(data, r, p, width, 0, width) && |data| == Multiple(width, |p|) && forall i :: 0 <= i < |p| ==> p[i] < |p|
    ensures GroupsMoved(data, r, p, width)
  {
    forall i | 0 <= i < |p|
      ensures GroupMoved(data, r, p, width, i)
    {
      MultipleMonotone(width, i + 1, |p|);
      MultipleMonotone(width, p[i] + 1, |p|);
      var a, b := r[Multiple(width, i)..Multiple(width, i) + width], data[Multiple(width, p[i])..Multiple(width, p[i]) + width];
      forall e | 0 <= e < width
        ensures a[e] == b[e]
      {
        assert CellMoved(data, r, p, width, i, e);
      }
    }
  }

  /** Every place takes all its values from the place the permutation names. */
  method PermuteGroups<T>(data: seq<T>, p: seq<nat>, width: nat) returns (r: seq<T>)
    requires Grouped(data, width, |p|) && forall i :: 0 <= i < |p| ==> p[i] < |p|
    ensures GroupsMoved(data, r, p, width)
  {
    r := data;
    if |data| > 0 {
      hide CellMoved, GroupMoved;
      for e := 0 to width
        invariant MovedUpTo(data, r, p, width, 0, e)
      {
        PlaceCount(width, |p|);
        for i := 0 to |data| / width
          invariant i <= |p| && MovedUpTo(data, r, p, width, i, e)
        {
          MovedOneMore(data, r, p, width, i, e);
          r := r[Multiple(width, i) + e := data[Multiple(width, p[i]) + e]];
        }
        NextColumn(data, r, p, width, e);
      }
      AllCellsMoved(data, r, p, width);
    }
  }

  /** Nothing moves. */
  lemma GroupsStay<T>(data: seq<T>, p: seq<nat>, width: nat)
    requires Grouped(data, width, |p|) && forall i :: 0 <= i < |p| ==> p[i] == i
    ensures GroupsMoved(data, data, p, width)
  {
    forall i | 0 <= i < |p| && |data| > 0
      ensures GroupMoved(data, data, p, width, i)
    {
      MultipleMonotone(width, i + 1, |p|);
    }
  }

  /** Value by value: value `e` of place `i` is value `e` of place `p[i]`. */
  lemma GroupCells<T>(data: seq<T>, r: seq<T>, p: seq<nat>, width: nat, i: nat, e: nat)
    requires GroupsMoved(data, r, p, width) && |data| > 0 && i < |p| && e < width
    ensures 0 <= width * i + e < |r| == |data| && 0 <= width * p[i] + e < |data| && r[width * i + e] == data[width * p[i] + e]
  {
    assert GroupMoved(data, r, p, width, i);
    MultipleIsProduct(width, i);
    MultipleIsProduct(width, p[i]);
    hide Multiple, GroupsMoved;
    var x, y := Multiple(width, i), Multiple(width, p[i]);
    assert r[x..x + width][e] == data[y..y + width][e];
  }
}
