/** `append_data` (main.py): which table cells receive which values.
    A table write is recorded as a `Write` rather than performed. */
module Layout {
  import opened Wrappers
  import opened Flatten
  import Arithmetic

  /** One `table.write(row, col, value)` call. */
  datatype Write<T> = Write(row: nat, col: nat, value: T)

  /** `append_data` reads `data[0]`, which raises `IndexError` on an empty list. */
  datatype LayoutError = NoFirstRow

  /** The coordinate pairs of a `rows` by `columns` grid, row-major: `x` over the rows outside, `y` over the columns inside. */
  function Coordinates(rows: nat, columns: nat): seq<(nat, nat)>
    decreases rows
  {
    if rows == 0 then []
    else Coordinates(rows - 1, columns) + seq(columns, y requires 0 <= y < columns => (rows - 1, y))
  }

  /** The nested comprehension enumerates `rows * columns` pairs. */
  lemma {:induction false} CoordinatesLength(rows: nat, columns: nat)
    ensures |Coordinates(rows, columns)| == rows * columns
    decreases rows
  {
    if rows > 0 {
      CoordinatesLength(rows - 1, columns);
      assert (rows - 1) * columns + columns == rows * columns;
    }
  }

  /** The `k`-th pair of the nested comprehension is `(k / columns, k % columns)`,
      a row below `rows` and a column below `columns`. */
  lemma CoordinateAt(rows: nat, columns: nat, k: nat)
    requires k < |Coordinates(rows, columns)|
    ensures columns > 0 && Coordinates(rows, columns)[k] == (k / columns, k % columns)
    ensures k / columns < rows && k % columns < columns
  {
    CoordinatesLength(rows, columns);
    CoordinateOfProduct(rows, columns, k);
    Arithmetic.DivBelow(k, rows, columns);
  }

  /** The same, for an index given against `rows * columns`. */
  lemma {:induction false} CoordinateOfProduct(rows: nat, columns: nat, k: nat)
    requires k < rows * columns
    ensures columns > 0 && k < |Coordinates(rows, columns)|
    ensures Coordinates(rows, columns)[k] == (k / columns, k % columns)
    decreases rows
  {
    CoordinatesLength(rows, columns);
    CoordinatesLength(rows - 1, columns);
    assert (rows - 1) * columns + columns == rows * columns;
    if k < (rows - 1) * columns {
      CoordinateOfProduct(rows - 1, columns, k);
    } else {
      var y := k - (rows - 1) * columns;
      Arithmetic.DivModUnique(k, rows - 1, y, columns);
    }
  }

  /** The writes of the `zip(coordinates, flattened)` loop: the `k`-th value goes to the `k`-th
      coordinate, and the loop stops at the end of the shorter list. */
  function ZipWrites<T>(coords: seq<(nat, nat)>, values: seq<T>): (writes: seq<Write<T>>)
    ensures |writes| == if |coords| <= |values| then |coords| else |values|
    ensures forall k :: 0 <= k < |writes| ==> writes[k] == Write(coords[k].0, coords[k].1, values[k])
    decreases |coords|
  {
    if |coords| == 0 || |values| == 0 then []
    else [Write(coords[0].0, coords[0].1, values[0])] + ZipWrites(coords[1..], values[1..])
  }

  /** `append_data` as written: `columns = len(data)` and `rows = len(data[0])`, so the coordinates
      run over `len(data[0])` table rows of `len(data)` cells each. */
  function AppendDataAsWritten<T>(data: seq<seq<T>>): Result<seq<Write<T>>, LayoutError> {
    if |data| == 0 then Failure(NoFirstRow)
    else
      var columns := |data|;
      var rows := |data[0]|;
      var flattened := FlattenList(RowItems(data));
      Success(ZipWrites(Coordinates(rows, columns), flattened))
  }

  /** No two writes of the list target the same cell. */
  predicate DistinctCells<T>(writes: seq<Write<T>>) {
    forall i, j :: 0 <= i < j < |writes| ==> (writes[i].row, writes[i].col) != (writes[j].row, writes[j].col)
  }

  /** What `append_data` does: it fails only on an empty list; otherwise it makes
      `min(len(data) * len(data[0]), len(flattened))` writes, the `k`-th putting the `k`-th flattened
      value at `(k / len(data), k % len(data))`, inside `len(data[0])` rows and `len(data)` columns. */
  lemma AppendDataAsWrittenLayout<T>(data: seq<seq<T>>)
    ensures AppendDataAsWritten(data).Failure? <==> |data| == 0
    ensures |data| > 0 ==>
              var writes := AppendDataAsWritten(data).value;
              var flattened := FlattenList(RowItems(data));
              var cells := |data| * |data[0]|;
              && |writes| == (if cells <= |flattened| then cells else |flattened|)
              && |writes| <= |flattened|
              && (forall k :: 0 <= k < |writes| ==>
                    && writes[k].row == k / |data| && writes[k].col == k % |data|
                    && writes[k].value == flattened[k]
                    && writes[k].row < |data[0]| && writes[k].col < |data|)
  {
    if |data| > 0 {
      var writes := AppendDataAsWritten(data).value;
      CoordinatesLength(|data[0]|, |data|);
      forall k | 0 <= k < |writes| {
        AppendDataAsWrittenAt(data, k);
      }
    }
  }

  /** The `k`-th write of `append_data`: the `k`-th flattened value at `(k / len(data), k % len(data))`. */
  lemma {:induction false} AppendDataAsWrittenAt<T>(data: seq<seq<T>>, k: nat)
    requires |data| > 0 && k < |AppendDataAsWritten(data).value|
    ensures var w := AppendDataAsWritten(data).value[k];
            && w.row == k / |data| && w.col == k % |data|
            && k < |FlattenList(RowItems(data))| && w.value == FlattenList(RowItems(data))[k]
            && w.row < |data[0]| && w.col < |data|
  {
    var values := FlattenList(RowItems(data));
    var writes := ZipWrites(Coordinates(|data[0]|, |data|), values);
    assert AppendDataAsWritten(data).value == writes;
    GridWriteAt(|data[0]|, |data|, values, k);
  }

  /** Zipping values with the coordinates of a `rows` by `columns` grid puts value `k`
      at `(k / columns, k % columns)`, inside the grid. */
  lemma GridWriteAt<T>(rows: nat, columns: nat, values: seq<T>, k: nat)
    requires k < |ZipWrites(Coordinates(rows, columns), values)|
    ensures var w := ZipWrites(Coordinates(rows, columns), values)[k];
            && columns > 0
            && w == Write(k / columns, k % columns, values[k])
            && w.row < rows && w.col < columns
  {
    CoordinateAt(rows, columns, k);
  }

  /** `append_data` never writes the same cell twice. */
  lemma AppendDataAsWrittenDistinct<T>(data: seq<seq<T>>)
    requires |data| > 0
    ensures DistinctCells(AppendDataAsWritten(data).value)
  {
    var n := |data|;
    var writes := AppendDataAsWritten(data).value;
    forall i, j | 0 <= i < j < |writes|
      ensures (writes[i].row, writes[i].col) != (writes[j].row, writes[j].col)
    {
      AppendDataAsWrittenAt(data, i);
      AppendDataAsWrittenAt(data, j);
      Arithmetic.DivModInjective(i, j, n);
    }
  }

  /** The writes for row `i` of the data: cell `(i, j)` receives `row[j]`. */
  function RowWrites<T>(i: nat, row: seq<T>): (writes: seq<Write<T>>)
    ensures |writes| == |row|
    ensures forall j :: 0 <= j < |row| ==> writes[j] == Write(i, j, row[j])
  {
    seq(|row|, j requires 0 <= j < |row| => Write(i, j, row[j]))
  }

  /** `append_data` as intended: each tuple of `data` fills one table row, so the `j`-th value of
      tuple `i` goes to row `i`, column `j`. */
  function AppendData<T>(data: seq<seq<T>>): seq<Write<T>>
    decreases |data|
  {
    if |data| == 0 then []
    else AppendData(data[..|data| - 1]) + RowWrites(|data| - 1, data[|data| - 1])
  }

  /** The intended layout makes one write per value of the data. */
  lemma {:induction false} AppendDataLength<T>(data: seq<seq<T>>)
    ensures |AppendData(data)| == Offset(data, |data|)
    decreases |data|
  {
    var n := |data|;
    if n > 0 {
      AppendDataLength(data[..n - 1]);
      OffsetPrefix(data, n - 1);
    }
  }

  /** Every intended write puts a value of the data at its own row and column,
      and its position in the list is the value's position in the flattened data. */
  lemma {:induction false} AppendDataWriteAt<T>(data: seq<seq<T>>, k: nat)
    requires k < |AppendData(data)|
    ensures var w := AppendData(data)[k];
            && w.row < |data| && w.col < |data[w.row]|
            && w.value == data[w.row][w.col]
            && Position(data, w.row, w.col) == k
    decreases |data|
  {
    var n := |data|;
    var front := data[..n - 1];
    AppendDataLength(front);
    OffsetPrefix(data, n - 1);
    if k < |AppendData(front)| {
      AppendDataWriteAt(front, k);
      var row := AppendData(front)[k].row;
      OffsetPrefix(data, row);
      OffsetPrefix(front, row);
      assert front[..row] == data[..row];
    }
  }

  /** The `j`-th value of tuple `i` is written at row `i`, column `j`. */
  lemma {:induction false} AppendDataCellAt<T>(data: seq<seq<T>>, i: nat, j: nat)
    requires i < |data| && j < |data[i]|
    ensures Position(data, i, j) < |AppendData(data)|
    ensures AppendData(data)[Position(data, i, j)] == Write(i, j, data[i][j])
    decreases |data|
  {
    var n := |data|;
    var front := data[..n - 1];
    AppendDataLength(front);
    OffsetPrefix(data, n - 1);
    if i < n - 1 {
      AppendDataCellAt(front, i, j);
      OffsetPrefix(data, i);
      OffsetPrefix(front, i);
      assert front[..i] == data[..i];
    }
  }

  /** The intended layout puts the `j`-th value of tuple `i` at row `i`, column `j`. */
  lemma AppendDataPlacesCells<T>(data: seq<seq<T>>)
    ensures forall i: nat, j: nat :: i < |data| && j < |data[i]| ==>
              Position(data, i, j) < |AppendData(data)| && AppendData(data)[Position(data, i, j)] == Write(i, j, data[i][j])
  {
    forall i: nat, j: nat | i < |data| && j < |data[i]| {
      AppendDataCellAt(data, i, j);
    }
  }

  /** The intended layout writes the flattened values in the same order as the code does,
      writes nothing but cells of the data, and never writes a cell twice. */
  lemma AppendDataWritesOnlyCells<T>(data: seq<seq<T>>)
    ensures var writes := AppendData(data);
            var flattened := FlattenList(RowItems(data));
            && |writes| == |flattened|
            && (forall k :: 0 <= k < |writes| ==>
                  writes[k].row < |data| && writes[k].col < |data[writes[k].row]|
                  && writes[k].value == data[writes[k].row][writes[k].col] == flattened[k])
            && DistinctCells(writes)
  {
    var writes := AppendData(data);
    var flattened := FlattenList(RowItems(data));
    AppendDataLength(data);
    FlattenRowsLength(data);
    forall k | 0 <= k < |writes|
      ensures writes[k].row < |data| && writes[k].col < |data[writes[k].row]|
      ensures writes[k].value == data[writes[k].row][writes[k].col] == flattened[k]
    {
      AppendDataWriteAt(data, k);
      FlattenRowsIndex(data, writes[k].row, writes[k].col);
    }
    forall a, b | 0 <= a < b < |writes|
      ensures (writes[a].row, writes[a].col) != (writes[b].row, writes[b].col)
    {
      AppendDataWriteAt(data, a);
      AppendDataWriteAt(data, b);
    }
  }

  /** When there are as many tuples as each tuple has values, the code's layout is the intended one. */
  lemma AsWrittenAgreesOnSquareData<T>(data: seq<seq<T>>)
    requires |data| > 0
    requires forall r :: 0 <= r < |data| ==> |data[r]| == |data|
    ensures AppendDataAsWritten(data) == Success(AppendData(data))
  {
    var n := |data|;
    var asWritten := AppendDataAsWritten(data).value;
    var intended := AppendData(data);
    var flattened := FlattenList(RowItems(data));
    FlattenUniformRows(data, n);
    AppendDataLength(data);
    FlattenRowsLength(data);
    AppendDataAsWrittenLayout(data);
    assert |asWritten| == |intended|;
    forall k | 0 <= k < |intended|
      ensures asWritten[k] == intended[k]
    {
      AppendDataAsWrittenAt(data, k);
      AppendDataWriteAt(data, k);
      var row, col := intended[k].row, intended[k].col;
      OffsetOfUniformRows(data, n, row);
      Arithmetic.DivModUnique(k, row, col, n);
      FlattenRowsIndex(data, row, col);
    }
    assert asWritten == intended;
  }

  /** When the tuples have `w` values each and there are at least two tuples but not `w` of them,
      the code writes the first value of the second tuple somewhere other than row 1, column 0,
      where the intended layout puts it. */
  lemma AsWrittenMisplacesSecondRow<T>(data: seq<seq<T>>, w: nat)
    requires forall r :: 0 <= r < |data| ==> |data[r]| == w
    requires w > 0 && |data| >= 2 && w != |data|
    ensures w < |AppendDataAsWritten(data).value|
    ensures AppendDataAsWritten(data).value[w].value == data[1][0]
    ensures (AppendDataAsWritten(data).value[w].row, AppendDataAsWritten(data).value[w].col) != (1, 0)
    ensures w < |AppendData(data)| && AppendData(data)[w] == Write(1, 0, data[1][0])
  {
    var n := |data|;
    FlattenUniformRows(data, w);
    AppendDataAsWrittenLayout(data);
    Arithmetic.MulMonotone(2, n, w);
    SecondRowFirstValue(data, w);
    AppendDataAsWrittenAt(data, w);
    Arithmetic.OnlyWidthDividesToOne(w, n);
    AppendDataCellAt(data, 1, 0);
    assert Offset(data, 1) == Offset(data, 0) + |data[0]| == w;
  }

  /** In a table of uniform width `w`, the flattened value at position `w` opens the second row. */
  lemma {:induction false} SecondRowFirstValue<T>(data: seq<seq<T>>, w: nat)
    requires forall r :: 0 <= r < |data| ==> |data[r]| == w
    requires w > 0 && |data| >= 2
    ensures w < |FlattenList(RowItems(data))| && FlattenList(RowItems(data))[w] == data[1][0]
  {
    FlattenRowsIndex(data, 1, 0);
    assert Offset(data, 1) == Offset(data, 0) + |data[0]| == w;
  }

  /** Three tuples of two values: the code writes the second tuple across row 0, column 2 and
      row 1, column 0, while the intended layout starts it at row 1, column 0. */
  lemma ThreeByTwoLayout<T>(data: seq<seq<T>>)
    requires |data| == 3 && forall r :: 0 <= r < |data| ==> |data[r]| == 2
    ensures AppendDataAsWritten(data).Success? && |AppendDataAsWritten(data).value| == 6
    ensures AppendDataAsWritten(data).value[2] == Write(0, 2, data[1][0])
    ensures AppendDataAsWritten(data).value[3] == Write(1, 0, data[1][1])
    ensures 2 < |AppendData(data)| && AppendData(data)[2] == Write(1, 0, data[1][0])
  {
    FlattenUniformLength(data, 2);
    AppendDataAsWrittenLayout(data);
    AppendDataAsWrittenAt(data, 2);
    AppendDataAsWrittenAt(data, 3);
    FlattenUniformAt(data, 2, 2);
    FlattenUniformAt(data, 2, 3);
    AppendDataCellAt(data, 1, 0);
    assert Offset(data, 1) == 2;
  }
}
