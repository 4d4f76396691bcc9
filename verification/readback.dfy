/** Reading a written table back: the cells a list of writes leaves behind, and `get_column_data`
    applied to them. */
module ReadBack {
  import opened Wrappers
  import opened Sequences
  import opened Columns
  import opened Layout
  import Flatten

  /** What a list of writes leaves in cell `(row, col)` of an empty table: the value of the last
      write there, or an empty cell. */
  function CellAfter<T>(writes: seq<Write<T>>, row: nat, col: nat): Option<T>
    decreases |writes|
  {
    if |writes| == 0 then None
    else
      var last := writes[|writes| - 1];
      if last.row == row && last.col == col then Some(last.value)
      else CellAfter(writes[..|writes| - 1], row, col)
  }

  /** When no two writes share a cell, each cell written holds the value written to it. */
  lemma {:induction false} CellAfterDistinct<T>(writes: seq<Write<T>>, k: nat)
    requires DistinctCells(writes) && k < |writes|
    ensures CellAfter(writes, writes[k].row, writes[k].col) == Some(writes[k].value)
    decreases |writes|
  {
    var n := |writes|;
    if k < n - 1 {
      var front := writes[..n - 1];
      assert (writes[k].row, writes[k].col) != (writes[n - 1].row, writes[n - 1].col);
      assert DistinctCells(front);
      CellAfterDistinct(front, k);
    }
  }

  /** The table an empty `height` by `width` table becomes under the writes. */
  function TableAfter(writes: seq<Write<Value>>, height: nat, width: nat): (table: Table)
    ensures |table| == height
    ensures forall r :: 0 <= r < height ==> |table[r]| == width
    ensures forall r, c :: 0 <= r < height && 0 <= c < width ==> table[r][c] == CellAfter(writes, r, c)
  {
    seq(height, r requires 0 <= r < height => seq(width, c requires 0 <= c < width => CellAfter(writes, r, c)))
  }

  /** Writing rectangular data with the intended layout fills the table with exactly that data. */
  lemma TableAfterAppendData(data: seq<seq<Value>>, width: nat)
    requires forall r :: 0 <= r < |data| ==> |data[r]| == width
    ensures Holds(TableAfter(AppendData(data), |data|, width), data, width)
  {
    var writes := AppendData(data);
    AppendDataPlacesCells(data);
    AppendDataWritesOnlyCells(data);
    forall r, c | 0 <= r < |data| && 0 <= c < width
      ensures CellAfter(writes, r, c) == Some(data[r][c])
    {
      CellAfterDistinct(writes, Flatten.Position(data, r, c));
    }
  }

  /** A header cell followed by values that differ from it reads back as those values. */
  lemma {:induction false} KeepValuesBelowHeader(name: string, values: seq<Value>)
    requires forall k :: 0 <= k < |values| ==> values[k] != Text(name)
    ensures KeepValues(AsCells(values), name) == values
    decreases |values|
  {
    if |values| > 0 {
      assert AsCells(values)[1..] == AsCells(values[1..]);
      KeepValuesBelowHeader(name, values[1..]);
      assert [values[0]] + values[1..] == values;
    }
  }

  /** The values of column `c` below the header row. */
  function ColumnBelowHeader(data: seq<seq<Value>>, c: nat): (values: seq<Value>)
    requires forall r :: 0 <= r < |data| ==> c < |data[r]|
    requires |data| > 0
    ensures |values| == |data| - 1
    ensures forall k :: 0 <= k < |values| ==> values[k] == data[k + 1][c]
  {
    seq(|data| - 1, k requires 0 <= k < |data| - 1 => data[k + 1][c])
  }

  /** `table` holds exactly the rectangular `data`, cell by cell. */
  predicate Holds(table: Table, data: seq<seq<Value>>, width: nat) {
    && |table| == |data|
    && (forall r :: 0 <= r < |data| ==> |data[r]| == width && |table[r]| == width)
    && (forall r, c :: 0 <= r < |data| && 0 <= c < width ==> table[r][c] == Some(data[r][c]))
  }

  /** The header search in a filled table finds the first header cell with the name. */
  lemma {:induction false} HeaderIndexOfFilled(table: Table, data: seq<seq<Value>>, width: nat, c: nat, name: string)
    requires Holds(table, data, width) && |data| > 0 && c < width
    requires data[0][c] == Text(name)
    requires forall j :: 0 <= j < c ==> data[0][j] != Text(name)
    ensures HeaderIndex(HeaderRow(table), name) == Some(c)
  {
    var header := HeaderRow(table);
    assert header[c] == Some(Text(name));
    assert Some(Text(name)) !in header[..c] by {
      forall j | 0 <= j < c
        ensures header[..c][j] != Some(Text(name))
      {
        assert header[j] == Some(data[0][j]);
      }
    }
    FirstIndexUnique(header, Some(Text(name)), c);
    FirstIndexUnique(header, Some(Text(name)), HeaderIndex(header, name).value);
  }

  /** Column `c` of a filled table is its header cell over the values below it. */
  lemma {:induction false} ColumnOfFilled(table: Table, data: seq<seq<Value>>, width: nat, c: nat)
    requires Holds(table, data, width) && |data| > 0 && c < width
    ensures Column(table, c) == [Some(data[0][c])] + AsCells(ColumnBelowHeader(data, c))
  {
    var column := Column(table, c);
    var expected := [Some(data[0][c])] + AsCells(ColumnBelowHeader(data, c));
    assert |column| == |expected|;
    forall r | 0 <= r < |column|
      ensures column[r] == expected[r]
    {
      assert column[r] == Some(data[r][c]);
    }
  }

  /** Round trip: after writing rectangular data with the intended layout, `get_column_data` on a
      header of the first row gives back the values under it, provided the header is the first cell
      of that row with this text and no value under it repeats the header text. */
  lemma {:induction false} ReadBackColumn(data: seq<seq<Value>>, width: nat, c: nat, name: string)
    requires |data| > 0 && c < width
    requires forall r :: 0 <= r < |data| ==> |data[r]| == width
    requires data[0][c] == Text(name)
    requires forall j :: 0 <= j < c ==> data[0][j] != Text(name)
    requires forall r :: 1 <= r < |data| ==> data[r][c] != Text(name)
    ensures GetColumnData(name, TableAfter(AppendData(data), |data|, width)) == Success(ColumnBelowHeader(data, c))
  {
    TableAfterAppendData(data, width);
    ReadFilledColumn(TableAfter(AppendData(data), |data|, width), data, width, c, name);
  }

  /** `get_column_data` on a table holding `data` returns the values under the header `name`. */
  lemma ReadFilledColumn(table: Table, data: seq<seq<Value>>, width: nat, c: nat, name: string)
    requires Holds(table, data, width) && |data| > 0 && c < width
    requires data[0][c] == Text(name)
    requires forall j :: 0 <= j < c ==> data[0][j] != Text(name)
    requires forall r :: 1 <= r < |data| ==> data[r][c] != Text(name)
    ensures GetColumnData(name, table) == Success(ColumnBelowHeader(data, c))
  {
    var below := ColumnBelowHeader(data, c);
    HeaderIndexOfFilled(table, data, width, c, name);
    ColumnOfFilled(table, data, width, c);
    KeepValuesBelowHeader(name, below);
    assert Column(table, c)[1..] == AsCells(below);
  }

  /** A header row of two distinct texts over two columns of values that never repeat their header:
      written with the intended layout, each column reads back under its header. */
  lemma {:induction false} ReadBackTwoColumns(data: seq<seq<Value>>, first: string, second: string, left: seq<Value>, right: seq<Value>)
    requires first != second
    requires |data| == |left| + 1 && |right| == |left|
    requires data[0] == [Text(first), Text(second)]
    requires forall k :: 0 <= k < |left| ==> data[k + 1] == [left[k], right[k]]
    requires forall k :: 0 <= k < |left| ==> left[k] != Text(first) && right[k] != Text(second)
    ensures GetColumnData(first, TableAfter(AppendData(data), |data|, 2)) == Success(left)
    ensures GetColumnData(second, TableAfter(AppendData(data), |data|, 2)) == Success(right)
  {
    TwoColumnShape(data, left, right);
    TableAfterAppendData(data, 2);
    ReadTwoColumns(TableAfter(AppendData(data), |data|, 2), data, first, second, left, right);
  }

  /** The same, for any table that holds the two-column data. */
  lemma ReadTwoColumns(table: Table, data: seq<seq<Value>>, first: string, second: string, left: seq<Value>, right: seq<Value>)
    requires Holds(table, data, 2) && first != second
    requires |data| == |left| + 1 && |right| == |left|
    requires data[0] == [Text(first), Text(second)]
    requires forall r :: 1 <= r < |data| ==> data[r][0] == left[r - 1] && data[r][1] == right[r - 1]
    requires ColumnBelowHeader(data, 0) == left && ColumnBelowHeader(data, 1) == right
    requires forall k :: 0 <= k < |left| ==> left[k] != Text(first) && right[k] != Text(second)
    ensures GetColumnData(first, table) == Success(left)
    ensures GetColumnData(second, table) == Success(right)
  {
    ReadFilledColumn(table, data, 2, 0, first);
    ReadFilledColumn(table, data, 2, 1, second);
  }

  /** The rows of a two-column table with the given columns below its header row. */
  lemma TwoColumnShape(data: seq<seq<Value>>, left: seq<Value>, right: seq<Value>)
    requires |data| == |left| + 1 && |right| == |left| && |data[0]| == 2
    requires forall k :: 0 <= k < |left| ==> data[k + 1] == [left[k], right[k]]
    ensures forall r :: 0 <= r < |data| ==> |data[r]| == 2
    ensures forall r :: 1 <= r < |data| ==> data[r][0] == left[r - 1] && data[r][1] == right[r - 1]
    ensures ColumnBelowHeader(data, 0) == left && ColumnBelowHeader(data, 1) == right
  {
    forall r | 0 <= r < |data|
      ensures |data[r]| == 2
      ensures 1 <= r ==> data[r][0] == left[r - 1] && data[r][1] == right[r - 1]
    {
      if r > 0 {
        var k := r - 1;
        assert data[k + 1] == [left[k], right[k]];
      }
    }
    assert ColumnBelowHeader(data, 0) == left;
    assert ColumnBelowHeader(data, 1) == right;
  }
}
