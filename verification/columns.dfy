/** `get_column_data` (main.py): the values of one named column of a table. */
module Columns {
  import opened Wrappers
  import opened Sequences
  import opened Calendar

  /** The value held by a non-empty cell. */
  datatype Value = Text(text: string) | Number(amount: int) | Date(day: Day)

  /** A cell, `None` when it is empty. */
  type Cell = Option<Value>

  /** A table as its rows of cells; row 0 holds the column headers. */
  type Table = seq<seq<Cell>>

  /** The `AttributeError` raised when no header carries the requested name. */
  datatype ColumnError = HeaderNotFound(name: string)

  /** The header cells: the first row, or nothing for a table without rows. */
  function HeaderRow(table: Table): seq<Cell> {
    if |table| == 0 then [] else table[0]
  }

  /** The header loop: the index of the first header equal to `name`, if any. */
  function HeaderIndex(header: seq<Cell>, name: string): (index: Option<nat>)
    ensures index.None? <==> Some(Text(name)) !in header
    ensures index.Some? ==> index.value < |header| && header[index.value] == Some(Text(name))
    ensures index.Some? ==> forall k :: 0 <= k < index.value ==> header[k] != Some(Text(name))
    decreases |header|
  {
    if |header| == 0 then None
    else if header[0] == Some(Text(name)) then Some(0)
    else
      match HeaderIndex(header[1..], name)
      case None => None
      case Some(i) => Some(i + 1)
  }

  /** The cell of `row` in column `i`; a row that stops short reads as empty there. */
  function CellAt(row: seq<Cell>, i: nat): Cell {
    if i < |row| then row[i] else None
  }

  /** Column `i`, top to bottom, header cell included. */
  function Column(table: Table, i: nat): (cells: seq<Cell>)
    ensures |cells| == |table|
    ensures forall r :: 0 <= r < |table| ==> cells[r] == CellAt(table[r], i)
  {
    seq(|table|, r requires 0 <= r < |table| => CellAt(table[r], i))
  }

  /** Values seen as non-empty cells. */
  function AsCells(values: seq<Value>): (cells: seq<Cell>)
    ensures |cells| == |values|
    ensures forall k :: 0 <= k < |values| ==> cells[k] == Some(values[k])
  {
    seq(|values|, k requires 0 <= k < |values| => Some(values[k]))
  }

  /** The comprehension filter: the values of the non-empty cells that differ from `name`, in order. */
  function KeepValues(cells: seq<Cell>, name: string): (values: seq<Value>)
    ensures forall k :: 0 <= k < |values| ==> values[k] != Text(name)
    decreases |cells|
  {
    if |cells| == 0 then []
    else
      var rest := KeepValues(cells[1..], name);
      match cells[0]
      case Some(v) => if v != Text(name) then [v] + rest else rest
      case None => rest
  }

  /** Every non-empty cell other than `name` is kept, as often as it occurs. */
  lemma {:induction false} KeepValuesCounts(cells: seq<Cell>, name: string, v: Value)
    requires v != Text(name)
    ensures multiset(KeepValues(cells, name))[v] == multiset(cells)[Some(v)]
    decreases |cells|
  {
    if |cells| > 0 {
      var rest := KeepValues(cells[1..], name);
      KeepValuesCounts(cells[1..], name, v);
      MultisetOfHead(cells, Some(v));
      if cells[0].Some? && cells[0].value != Text(name) {
        var u := cells[0].value;
        assert KeepValues(cells, name) == [u] + rest;
        MultisetOfHead([u] + rest, v);
        assert ([u] + rest)[1..] == rest;
      } else {
        assert KeepValues(cells, name) == rest;
      }
    }
  }

  /** The kept values keep their column order. */
  lemma {:induction false} KeepValuesInOrder(cells: seq<Cell>, name: string)
    ensures IsSubsequence(AsCells(KeepValues(cells, name)), cells)
    decreases |cells|
  {
    if |cells| > 0 {
      var rest := KeepValues(cells[1..], name);
      KeepValuesInOrder(cells[1..], name);
      match cells[0]
      case Some(v) =>
        if v != Text(name) {
          assert AsCells([v] + rest)[1..] == AsCells(rest);
        }
      case None =>
    }
  }

  /** `get_column_data`: the cells of the first column headed `name`, without empty cells and
      without cells equal to `name`; `HeaderNotFound` when no header is `name`. */
  function GetColumnData(name: string, table: Table): (result: Result<seq<Value>, ColumnError>)
    ensures result.Failure? <==> Some(Text(name)) !in HeaderRow(table)
    ensures result.Failure? ==> result.error == HeaderNotFound(name)
    ensures result.Success? ==> forall k :: 0 <= k < |result.value| ==> result.value[k] != Text(name)
  {
    match HeaderIndex(HeaderRow(table), name)
    case None => Failure(HeaderNotFound(name))
    case Some(i) => Success(KeepValues(Column(table, i), name))
  }

  /** When the first header equal to `name` is at index `i`, the result is column `i` filtered:
      its values appear in column order, and every non-empty cell other than `name` appears
      as often as it occurs in the column. */
  lemma GetColumnDataOfFirstMatch(name: string, table: Table, i: nat)
    requires i < |HeaderRow(table)| && HeaderRow(table)[i] == Some(Text(name))
    requires Some(Text(name)) !in HeaderRow(table)[..i]
    ensures GetColumnData(name, table).Success?
    ensures IsSubsequence(AsCells(GetColumnData(name, table).value), Column(table, i))
    ensures forall v :: v != Text(name) ==>
              multiset(GetColumnData(name, table).value)[v] == multiset(Column(table, i))[Some(v)]
  {
    var header := HeaderRow(table);
    var j := HeaderIndex(header, name).value;
    FirstIndexUnique(header, Some(Text(name)), i);
    FirstIndexUnique(header, Some(Text(name)), j);
    KeepValuesInOrder(Column(table, i), name);
    forall v | v != Text(name)
      ensures multiset(GetColumnData(name, table).value)[v] == multiset(Column(table, i))[Some(v)]
    {
      KeepValuesCounts(Column(table, i), name, v);
    }
  }
}
