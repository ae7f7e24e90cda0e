/**
 * Sparse matrices: rows of (column, value) pairs that may name a column several times, their
 * compaction, and compressed rows.
 */
module SparseMatrices {
  import opened Basis

  datatype Entry = Entry(column: nat, value: real)

  /** What a row means at a column: the sum of all its values there. */
  function RowSum(row: seq<Entry>, c: nat): real {
    if row == [] then 0.0 else
      RowSum(row[..|row| - 1], c) + if row[|row| - 1].column == c then row[|row| - 1].value else 0.0
  }

  lemma {:induction false} RowSumAppend(a: seq<Entry>, b: seq<Entry>, c: nat)
    ensures RowSum(a + b, c) == RowSum(a, c) + RowSum(b, c)
  {
    if b == [] {
      assert a + b == a;
    } else {
      DropLastAppend(a, b);
      RowSumAppend(a, b[..|b| - 1], c);
    }
  }

  lemma RowSumOne(e: Entry, c: nat)
    ensures RowSum([e], c) == if e.column == c then e.value else 0.0
  {
    assert [e][..0] == [];
  }

  lemma RemoveAt(b: seq<Entry>, k: nat, c: nat)
    requires k < |b|
    ensures multiset(b[..k] + b[k + 1..]) == multiset(b) - multiset{b[k]}
    ensures RowSum(b, c) == RowSum(b[..k] + b[k + 1..], c) + if b[k].column == c then b[k].value else 0.0
  {
    assert b == b[..k] + ([b[k]] + b[k + 1..]);
    hide RowSum;
    RowSumAppend(b[..k], [b[k]] + b[k + 1..], c);
    RowSumAppend([b[k]], b[k + 1..], c);
    RowSumAppend(b[..k], b[k + 1..], c);
    RowSumOne(b[k], c);
  }

  /** Reordering a row does not change what it means. */
  lemma {:induction false} RowSumPermuted(a: seq<Entry>, b: seq<Entry>, c: nat)
    requires multiset(a) == multiset(b)
    ensures RowSum(a, c) == RowSum(b, c)
    decreases |a|
  {
    if a != [] {
      var l := |a| - 1;
      assert a[l] in multiset(b);
      var k :| 0 <= k < |b| && b[k] == a[l];
      RemoveAt(b, k, c);
      RemoveAt(a, l, c);
      assert a[..l] + a[l + 1..] == a[..l];
      RowSumPermuted(a[..l], b[..k] + b[k + 1..], c);
    } else {
      assert |multiset(b)| == 0;
    }
  }

  ghost predicate ByColumn(row: seq<Entry>) {
    forall i, j :: 0 <= i < j < |row| ==> row[i].column <= row[j].column
  }

  ghost predicate StrictlyByColumn(row: seq<Entry>) {
    forall i, j :: 0 <= i < j < |row| ==> row[i].column < row[j].column
  }

  /** `std::sort` by column: any order of equal columns would do. */
  method SortByColumn(row: seq<Entry>) returns (r: seq<Entry>)
    ensures ByColumn(r) && multiset(r) == multiset(row)
  {
    r := [];
    for k := 0 to |row|
      invariant ByColumn(r) && multiset(r) == multiset(row[..k])
    {
      assert row[..k + 1] == row[..k] + [row[k]];
      r := InsertByColumn(r, row[k]);
    }
    assert row[..|row|] == row;
  }

  method InsertByColumn(row: seq<Entry>, e: Entry) returns (r: seq<Entry>)
    requires ByColumn(row)
    ensures ByColumn(r) && multiset(r) == multiset(row) + multiset{e}
  {
    var k := |row|;
    while k > 0 && row[k - 1].column > e.column
      invariant 0 <= k <= |row| && forall i :: k <= i < |row| ==> row[i].column > e.column
    {
      k := k - 1;
    }
    r := row[..k] + ([e] + row[k..]);
    InsertedAt(row, k, e);
  }

  lemma InsertedAt(row: seq<Entry>, k: nat, e: Entry)
    requires ByColumn(row) && k <= |row| && (k > 0 ==> row[k - 1].column <= e.column)
    requires forall i :: k <= i < |row| ==> row[i].column > e.column
    ensures ByColumn(row[..k] + ([e] + row[k..]))
    ensures multiset(row[..k] + ([e] + row[k..])) == multiset(row) + multiset{e}
  {
    hide ByColumn;
    InsertedInOrder(row, k, e);
    assert row == row[..k] + row[k..];
  }

  lemma InsertedInOrder(row: seq<Entry>, k: nat, e: Entry)
    requires ByColumn(row) && k <= |row| && (k > 0 ==> row[k - 1].column <= e.column)
    requires forall i :: k <= i < |row| ==> row[i].column > e.column
    ensures ByColumn(row[..k] + ([e] + row[k..]))
  {
    var r := row[..k] + ([e] + row[k..]);
    forall i, j | 0 <= i < j < |r|
      ensures r[i].column <= r[j].column
    {
      if i < k {
        assert r[i] == row[i];
      }
    }
  }

  /** Values of equal neighbouring columns added up. */
  function Compacted(row: seq<Entry>): (r: seq<Entry>)
    ensures row != [] ==> r != [] && r[|r| - 1].column == row[|row| - 1].column
  {
    if |row| <= 1 then row else
      var r, e := Compacted(row[..|row| - 1]), row[|row| - 1];
      if row[|row| - 2].column == e.column then r[..|r| - 1] + [r[|r| - 1].(value := r[|r| - 1].value + e.value)]
      else r + [e]
  }

  lemma {:induction false} CompactedMeans(row: seq<Entry>, c: nat)
    ensures RowSum(Compacted(row), c) == RowSum(row, c)
  {
    if |row| > 1 {
      var r, e := Compacted(row[..|row| - 1]), row[|row| - 1];
      CompactedMeans(row[..|row| - 1], c);
      if row[|row| - 2].column == e.column {
        var last := r[|r| - 1].(value := r[|r| - 1].value + e.value);
        RowSumAppend(r[..|r| - 1], [last], c);
        RowSumOne(last, c);
      } else {
        RowSumAppend(r, [e], c);
        RowSumOne(e, c);
      }
    }
  }

  lemma StrictNext(r: seq<Entry>, e: Entry)
    requires r != [] && StrictlyByColumn(r) && r[|r| - 1].column <= e.column
    ensures r[|r| - 1].column < e.column ==> StrictlyByColumn(r + [e])
    ensures StrictlyByColumn(r[..|r| - 1] + [r[|r| - 1].(value := r[|r| - 1].value + e.value)])
  {
  }

  lemma {:induction false} CompactedStrict(row: seq<Entry>)
    requires ByColumn(row)
    ensures StrictlyByColumn(Compacted(row))
  {
    if |row| > 1 {
      var init, e := row[..|row| - 1], row[|row| - 1];
      CompactedStrict(init);
      var r := Compacted(init);
      assert r[|r| - 1].column == row[|row| - 2].column <= e.column;
      StrictNext(r, e);
    }
  }

  /** Exactly the columns that were there. */
  lemma {:induction false} CompactedColumns(row: seq<Entry>, c: nat)
    ensures HasColumn(Compacted(row), c) <==> HasColumn(row, c)
  {
    if |row| > 1 {
      var r, e := Compacted(row[..|row| - 1]), row[|row| - 1];
      CompactedColumns(row[..|row| - 1], c);
      SplitColumn(row, c);
      if row[|row| - 2].column == e.column {
        SplitColumn(r, c);
        SplitColumn(Compacted(row), c);
        assert Compacted(row)[..|r| - 1] == r[..|r| - 1];
        assert r[|r| - 1].column == e.column;
      } else {
        SplitColumn(Compacted(row), c);
        assert Compacted(row)[..|r|] == r;
      }
    }
  }

  ghost predicate HasColumn(row: seq<Entry>, c: nat) {
    exists i :: 0 <= i < |row| && row[i].column == c
  }

  lemma SplitColumn(row: seq<Entry>, c: nat)
    requires row != []
    ensures HasColumn(row, c) <==> HasColumn(row[..|row| - 1], c) || row[|row| - 1].column == c
  {
    if HasColumn(row, c) {
      var i :| 0 <= i < |row| && row[i].column == c;
      assert i < |row| - 1 ==> row[..|row| - 1][i].column == c;
    }
    if HasColumn(row[..|row| - 1], c) {
      var i :| 0 <= i < |row| - 1 && row[..|row| - 1][i].column == c;
      assert row[i].column == c;
    }
  }

  /** The entries before `j` are compacted to the first `unique + 1`; those from `j` on are as they were. */
  ghost predicate CompactedTo(row: seq<Entry>, sorted: seq<Entry>, unique: nat, j: nat) {
    && |row| == |sorted| && unique < j <= |row|
    && row[..unique + 1] == Compacted(sorted[..j]) && row[j..] == sorted[j..] && row[j - 1].column == sorted[j - 1].column
  }

  lemma CompactedNext(sorted: seq<Entry>, j: nat)
    requires 0 < j < |sorted|
    ensures Compacted(sorted[..j]) != []
    ensures var r, e := Compacted(sorted[..j]), sorted[j];
      Compacted(sorted[..j + 1]) == if sorted[j - 1].column == e.column
        then r[..|r| - 1] + [r[|r| - 1].(value := r[|r| - 1].value + e.value)] else r + [e]
  {
    hide Compacted;
    var row := sorted[..j + 1];
    assert row[..|row| - 1] == sorted[..j] && row[j] == sorted[j] && row[j - 1] == sorted[j - 1];
    CompactedLast(row);
  }

  /** How the last entry of a row is added to what the others are compacted to. */
  lemma CompactedLast(row: seq<Entry>)
    requires |row| > 1
    ensures var r, e := Compacted(row[..|row| - 1]), row[|row| - 1];
      r != [] && Compacted(row) == if row[|row| - 2].column == e.column
        then r[..|r| - 1] + [r[|r| - 1].(value := r[|r| - 1].value + e.value)] else r + [e]
  {
  }

  lemma ValueAdded(row: seq<Entry>, before: seq<Entry>, unique: nat, j: nat, value: real)
    requires unique < j < |row| && row[..unique + 1] == before
    ensures var next := row[unique := row[unique].(value := value)];
      next[..unique + 1] == before[..unique] + [before[unique].(value := value)] && next[j + 1..] == row[j + 1..]
  {
    assert row[unique] == before[unique];
  }

  lemma EntryKept(row: seq<Entry>, before: seq<Entry>, unique: nat, j: nat, e: Entry)
    requires unique < j < |row| && row[..unique + 1] == before
    ensures var next := row[unique + 1 := e];
      next[..unique + 2] == before + [e] && next[j + 1..] == row[j + 1..] && (e == row[j] ==> next[j] == row[j])
  {
  }

  lemma CompactStep(row: seq<Entry>, sorted: seq<Entry>, unique: nat, j: nat)
    requires CompactedTo(row, sorted, unique, j) && j < |row|
    ensures if row[j - 1].column == row[j].column
      then CompactedTo(row[unique := row[unique].(value := row[unique].value + row[j].value)], sorted, unique, j + 1)
      else CompactedTo(row[unique + 1 := row[j]], sorted, unique + 1, j + 1)
  {
    assert row[j] == row[j..][0] == sorted[j];
    assert row[j + 1..] == row[j..][1..] == sorted[j + 1..];
    CompactedNext(sorted, j);
    hide Compacted;
    if row[j - 1].column == row[j].column {
      ValueAdded(row, Compacted(sorted[..j]), unique, j, row[unique].value + row[j].value);
    } else {
      EntryKept(row, Compacted(sorted[..j]), unique, j, row[j]);
    }
  }

  /** One row of `shrink`: an empty row gets an entry, as a vector resized to one element does. */
  method CompactRow(sorted: seq<Entry>) returns (row: seq<Entry>)
    ensures row == if sorted == [] then [Entry(0, 0.0)] else Compacted(sorted)
  {
    row := sorted;
    var unique := 0;
    var j := 1;
    CompactStart(sorted);
    hide Compacted, CompactedTo;
    while j < |row|
      invariant |row| == |sorted| && unique < j && (sorted == [] ==> unique == 0) && (sorted != [] ==> CompactedTo(row, sorted, unique, j))
    {
      CompactStep(row, sorted, unique, j);
      if row[j - 1].column == row[j].column {
        row := row[unique := row[unique].(value := row[unique].value + row[j].value)];
      } else {
        unique := unique + 1;
        row := row[unique := row[j]];
      }
      j := j + 1;
    }
    if sorted != [] {
      CompactEnd(row, sorted, unique, j);
    }
    row := if unique < |row| then row[..unique + 1] else row + [Entry(0, 0.0)];
  }

  lemma CompactStart(sorted: seq<Entry>)
    ensures sorted != [] ==> CompactedTo(sorted, sorted, 0, 1)
  {
  }

  lemma CompactEnd(row: seq<Entry>, sorted: seq<Entry>, unique: nat, j: nat)
    requires CompactedTo(row, sorted, unique, j) && j >= |row|
    ensures unique < |row| && row[..unique + 1] == Compacted(sorted)
  {
    assert sorted[..j] == sorted;
  }

  /** The same meaning with every column at most once, in order. */
  ghost predicate Shrunk(before: seq<Entry>, after: seq<Entry>) {
    && StrictlyByColumn(after)
    && (forall c :: RowSum(after, c) == RowSum(before, c))
    && (forall c :: HasColumn(after, c) <==> HasColumn(before, c) || (before == [] && c == 0))
  }

  lemma CompactedIsShrunk(row: seq<Entry>, sorted: seq<Entry>)
    requires ByColumn(sorted) && multiset(sorted) == multiset(row)
    ensures Shrunk(row, if sorted == [] then [Entry(0, 0.0)] else Compacted(sorted))
  {
    if sorted == [] {
      assert |multiset(row)| == 0;
      EmptyIsShrunk();
    } else {
      assert row != [];
      CompactedStrict(sorted);
      forall c: nat
        ensures RowSum(Compacted(sorted), c) == RowSum(row, c)
        ensures HasColumn(Compacted(sorted), c) <==> HasColumn(row, c)
      {
        CompactedMeans(sorted, c);
        RowSumPermuted(sorted, row, c);
        CompactedColumns(sorted, c);
        HasColumnPermuted(sorted, row, c);
      }
    }
  }

  lemma EmptyIsShrunk()
    ensures Shrunk([], [Entry(0, 0.0)])
  {
    forall c: nat
      ensures RowSum([Entry(0, 0.0)], c) == RowSum([], c)
      ensures HasColumn([Entry(0, 0.0)], c) <==> c == 0
    {
      RowSumOne(Entry(0, 0.0), c);
      assert [Entry(0, 0.0)][0].column == 0;
    }
  }

  lemma HasColumnPermuted(a: seq<Entry>, b: seq<Entry>, c: nat)
    requires multiset(a) == multiset(b)
    ensures HasColumn(a, c) <==> HasColumn(b, c)
  {
    if HasColumn(a, c) {
      var i :| 0 <= i < |a| && a[i].column == c;
      assert a[i] in multiset(b);
    }
    if HasColumn(b, c) {
      var i :| 0 <= i < |b| && b[i].column == c;
      assert b[i] in multiset(a);
    }
  }

  /** What rows mean: rows that are not there mean nothing. */
  function Meaning(rows: seq<seq<Entry>>, i: nat, j: nat): real {
    if i < |rows| then RowSum(rows[i], j) else 0.0
  }

  /** A value pushed to a row; missing rows are created. */
  function Added(rows: seq<seq<Entry>>, i: nat, e: Entry): (r: seq<seq<Entry>>)
    ensures |r| == if i < |rows| then |rows| else i + 1
  {
    var all := if i < |rows| then rows else rows + seq(i + 1 - |rows|, _ => []);
    all[i := all[i] + [e]]
  }

  lemma AddedMeans(rows: seq<seq<Entry>>, i: nat, e: Entry, r: nat, c: nat)
    ensures Meaning(Added(rows, i, e), r, c) == Meaning(rows, r, c) + if r == i && c == e.column then e.value else 0.0
  {
    var row := if i < |rows| then rows[i] else [];
    RowSumAppend(row, [e], c);
    RowSumOne(e, c);
  }

  class SparseVVPMatrix {
    var columns: nat
    var values: seq<seq<Entry>>

    constructor ()
      ensures columns == 0 && values == []
    {
      columns, values := 0, [];
    }

    /** Rows are dropped or added empty. */
    method Resize(rows: nat, columns: nat)
      modifies this
      ensures this.columns == columns && |values| == rows
      ensures forall r :: 0 <= r < rows ==> values[r] == if r < |old(values)| then old(values)[r] else []
    {
      this.columns := columns;
      values := if rows <= |values| then values[..rows] else values + seq(rows - |values|, _ => []);
    }

    /** `operator()` with the assignment to the reference it returns. */
    method Add(row: nat, column: nat, value: real)
      modifies this
      ensures values == Added(old(values), row, Entry(column, value))
      ensures columns == if column < old(columns) then old(columns) else column + 1
    {
      if |values| <= row {
        values := values + seq(row + 1 - |values|, _ => []);
      }
      if column >= columns {
        columns := column + 1;
      }
      values := values[row := values[row] + [Entry(column, value)]];
    }

    method Get(row: nat, column: nat) returns (value: real)
      requires row < |values|
      ensures value == Meaning(values, row, column)
    {
      value := 0.0;
      for i := 0 to |values[row]|
        invariant value == RowSum(values[row][..i], column)
      {
        assert values[row][..i + 1][..i] == values[row][..i];
        if values[row][i].column == column {
          value := value + values[row][i].value;
        }
      }
      assert values[row][..|values[row]|] == values[row];
    }

    /** Sorts and compacts every row in place. */
    method Shrink()
      modifies this`values
      ensures |values| == |old(values)| && forall r :: 0 <= r < |values| ==> Shrunk(old(values)[r], values[r])
    {
      hide Shrunk;
      for row := 0 to |values|
        invariant |values| == |old(values)| && values[row..] == old(values)[row..]
        invariant forall r :: 0 <= r < row ==> Shrunk(old(values)[r], values[r])
      {
        ghost var rest := values[row..];
        assert values[row] == rest[0] == old(values)[row];
        assert rest[1..] == old(values)[row..][1..] == old(values)[row + 1..];
        var sorted := SortByColumn(values[row]);
        CompactedIsShrunk(values[row], sorted);
        var compacted := CompactRow(sorted);
        values := values[row := compacted];
        assert values[row + 1..] == rest[1..];
      }
    }
  }

  /** One-based columns of a row, and its values. */
  ghost function ColumnsOf(row: seq<Entry>): seq<int> {
    seq(|row|, k requires 0 <= k < |row| => row[k].column + 1)
  }

  ghost function ValuesOf(row: seq<Entry>): seq<real> {
    seq(|row|, k requires 0 <= k < |row| => row[k].value)
  }

  /** Row `r` of compressed rows. */
  ghost predicate HoldsRow(rowPtrs: seq<int>, columnIndices: seq<int>, values: seq<real>, rows: seq<seq<Entry>>, r: nat)
    requires r < |rows| == |rowPtrs| - 1
  {
    && |columnIndices| == |values| && 1 <= rowPtrs[r] <= rowPtrs[r + 1] <= |values| + 1
    && columnIndices[rowPtrs[r] - 1..rowPtrs[r + 1] - 1] == ColumnsOf(rows[r])
    && values[rowPtrs[r] - 1..rowPtrs[r + 1] - 1] == ValuesOf(rows[r])
  }

  ghost predicate Compresses(rowPtrs: seq<int>, columnIndices: seq<int>, values: seq<real>, rows: seq<seq<Entry>>) {
    && |rowPtrs| == |rows| + 1 && rowPtrs[0] == 1 && rowPtrs[|rows|] == |values| + 1 && |columnIndices| == |values|
    && forall r :: 0 <= r < |rows| ==> HoldsRow(rowPtrs, columnIndices, values, rows, r)
  }

  class SparseCSRMatrix {
    var rowPtrs: seq<int>
    var columnIndices: seq<int>
    var values: seq<real>

    /** Compresses a matrix, which is shrunk by that. */
    constructor (other: SparseVVPMatrix)
      modifies other`values
      ensures |other.values| == |old(other.values)|
      ensures forall r :: 0 <= r < |other.values| ==> Shrunk(old(other.values)[r], other.values[r])
      ensures Compresses(rowPtrs, columnIndices, values, other.values)
    {
      hide Shrunk;
      other.Shrink();
      var p, c, v := Compress(other.values);
      rowPtrs, columnIndices, values := p, c, v;
    }

    /** The first entry of the column in the row, if there is one. */
    method Get(row: nat, column: nat, ghost rows: seq<seq<Entry>>) returns (value: real)
      requires Compresses(rowPtrs, columnIndices, values, rows) && row < |rows| && StrictlyByColumn(rows[row])
      ensures value == Meaning(rows, row, column)
    {
      assert HoldsRow(rowPtrs, columnIndices, values, rows, row);
      ghost var entries := rows[row];
      for i := rowPtrs[row] to rowPtrs[row + 1]
        invariant forall k :: 0 <= k < i - rowPtrs[row] ==> entries[k].column != column
      {
        ghost var k := i - rowPtrs[row];
        EntryOf(rowPtrs, columnIndices, values, rows, row, k);
        if columnIndices[i - 1] == column + 1 {
          OnlyEntry(entries, k, column);
          return values[i - 1];
        }
      }
      NoEntry(entries, column);
      value := 0.0;
    }
  }

  lemma EntryOf(rowPtrs: seq<int>, columnIndices: seq<int>, values: seq<real>, rows: seq<seq<Entry>>, r: nat, k: nat)
    requires r < |rows| == |rowPtrs| - 1 && HoldsRow(rowPtrs, columnIndices, values, rows, r) && k < rowPtrs[r + 1] - rowPtrs[r]
    ensures |rows[r]| == rowPtrs[r + 1] - rowPtrs[r]
    ensures columnIndices[rowPtrs[r] - 1 + k] == rows[r][k].column + 1 && values[rowPtrs[r] - 1 + k] == rows[r][k].value
  {
    assert columnIndices[rowPtrs[r] - 1..rowPtrs[r + 1] - 1][k] == ColumnsOf(rows[r])[k];
    assert values[rowPtrs[r] - 1..rowPtrs[r + 1] - 1][k] == ValuesOf(rows[r])[k];
  }

  lemma {:induction false} NoEntry(row: seq<Entry>, c: nat)
    requires forall k :: 0 <= k < |row| ==> row[k].column != c
    ensures RowSum(row, c) == 0.0
  {
    if row != [] {
      NoEntry(row[..|row| - 1], c);
    }
  }

  lemma {:induction false} OnlyEntry(row: seq<Entry>, k: nat, c: nat)
    requires StrictlyByColumn(row) && k < |row| && row[k].column == c
    ensures RowSum(row, c) == row[k].value
  {
    if k == |row| - 1 {
      NoEntry(row[..k], c);
    } else {
      OnlyEntry(row[..|row| - 1], k, c);
    }
  }

  /** The rows, one after the other. */
  method Compress(rows: seq<seq<Entry>>) returns (rowPtrs: seq<int>, columnIndices: seq<int>, values: seq<real>)
    ensures Compresses(rowPtrs, columnIndices, values, rows)
  {
    rowPtrs, columnIndices, values := [1], [], [];
    for row := 0 to |rows|
      invariant Compresses(rowPtrs, columnIndices, values, rows[..row])
    {
      ghost var c, v := columnIndices, values;
      assert rows[row][..0] == [];
      for column := 0 to |rows[row]|
        invariant columnIndices == c + ColumnsOf(rows[row][..column]) && values == v + ValuesOf(rows[row][..column])
      {
        columnIndices := columnIndices + [rows[row][column].column + 1];
        values := values + [rows[row][column].value];
      }
      assert rows[row][..|rows[row]|] == rows[row];
      RowCompressed(rowPtrs, c, v, rows[..row], rows[row]);
      rowPtrs := rowPtrs + [|values| + 1];
      assert rows[..row + 1] == rows[..row] + [rows[row]];
    }
    assert rows[..|rows|] == rows;
  }

  lemma RowCompressed(p: seq<int>, c: seq<int>, v: seq<real>, rows: seq<seq<Entry>>, row: seq<Entry>)
    requires Compresses(p, c, v, rows)
    ensures Compresses(p + [|v + ValuesOf(row)| + 1], c + ColumnsOf(row), v + ValuesOf(row), rows + [row])
  {
    var q, d, w, all := p + [|v + ValuesOf(row)| + 1], c + ColumnsOf(row), v + ValuesOf(row), rows + [row];
    forall r | 0 <= r < |all|
      ensures HoldsRow(q, d, w, all, r)
    {
      if r < |rows| {
        assert HoldsRow(p, c, v, rows, r);
        assert d[p[r] - 1..p[r + 1] - 1] == c[p[r] - 1..p[r + 1] - 1] && w[p[r] - 1..p[r + 1] - 1] == v[p[r] - 1..p[r + 1] - 1];
      } else {
        assert d[|c|..|d|] == ColumnsOf(row) && w[|v|..|w|] == ValuesOf(row);
      }
    }
  }
}
