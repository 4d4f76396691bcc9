/** `flatten_list` (main.py): spreads the inner iterables of a list into one list. */
module Flatten {
  import Arithmetic

  /** An element of the outer list: a non-iterable value, or an iterable whose items get spread. */
  datatype Item<T> = Atom(value: T) | Many(items: seq<T>)

  /** What one outer element contributes: a non-iterable itself, an iterable its items. */
  function Spread<T>(item: Item<T>): seq<T> {
    match item
    case Atom(v) => [v]
    case Many(xs) => xs
  }

  /** The list `flattened` holds after the loop of `flatten_list` has visited every element of `s`. */
  function FlattenList<T>(s: seq<Item<T>>): (flattened: seq<T>)
    decreases |s|
  {
    if |s| == 0 then [] else Spread(s[0]) + FlattenList(s[1..])
  }

  /** The number of values the outer elements contribute together, counted from the last element back. */
  function TotalLength<T>(s: seq<Item<T>>): nat
    decreases |s|
  {
    if |s| == 0 then 0 else TotalLength(s[..|s| - 1]) + |Spread(s[|s| - 1])|
  }

  /** A table given as a list of rows, each row an iterable. */
  function RowItems<T>(data: seq<seq<T>>): (items: seq<Item<T>>)
    ensures |items| == |data|
    ensures forall i :: 0 <= i < |data| ==> items[i] == Many(data[i])
  {
    seq(|data|, i requires 0 <= i < |data| => Many(data[i]))
  }

  /** The number of values in the rows before row `i`. */
  function Offset<T>(data: seq<seq<T>>, i: nat): nat
    requires i <= |data|
  {
    if i == 0 then 0 else Offset(data, i - 1) + |data[i - 1]|
  }

  /** Where the `j`-th value of row `i` lands in the flattened table. */
  function Position<T>(data: seq<seq<T>>, i: nat, j: nat): nat
    requires i < |data|
  {
    Offset(data, i) + j
  }

  /** Flattening distributes over concatenation of the outer list. */
  lemma {:induction false} FlattenAppend<T>(a: seq<Item<T>>, b: seq<Item<T>>)
    ensures FlattenList(a + b) == FlattenList(a) + FlattenList(b)
    decreases |a|
  {
    if |a| == 0 {
      assert a + b == b;
    } else {
      assert (a + b)[1..] == a[1..] + b;
      FlattenAppend(a[1..], b);
    }
  }

  /** The result is as long as all contributions together. */
  lemma {:induction false} FlattenLength<T>(s: seq<Item<T>>)
    ensures |FlattenList(s)| == TotalLength(s)
    decreases |s|
  {
    if |s| > 0 {
      var n := |s|;
      FlattenLength(s[..n - 1]);
      FlattenAppend(s[..n - 1], [s[n - 1]]);
      assert s[..n - 1] + [s[n - 1]] == s;
      assert FlattenList([s[n - 1]]) == Spread(s[n - 1]) + FlattenList([s[n - 1]][1..]);
    }
  }

  /** A non-iterable element is appended as itself, after everything before it. */
  lemma FlattenAppendsAtom<T>(s: seq<Item<T>>, v: T)
    ensures FlattenList(s + [Atom(v)]) == FlattenList(s) + [v]
  {
    FlattenAppend(s, [Atom(v)]);
    assert FlattenList([Atom(v)]) == [v] + FlattenList([Atom(v)][1..]);
  }

  /** The rows of a table laid end to end, built from the last row backwards. */
  function Concat<T>(data: seq<seq<T>>): seq<T>
    decreases |data|
  {
    if |data| == 0 then [] else Concat(data[..|data| - 1]) + data[|data| - 1]
  }

  /** Flattening a list of rows lays the rows end to end. */
  lemma {:induction false} FlattenRowsConcat<T>(data: seq<seq<T>>)
    ensures FlattenList(RowItems(data)) == Concat(data)
    decreases |data|
  {
    if |data| > 0 {
      FlattenLastRow(data);
      FlattenRowsConcat(data[..|data| - 1]);
    }
  }

  /** Flattening rows puts the last row's values after those of the rows before it. */
  lemma FlattenLastRow<T>(data: seq<seq<T>>)
    requires |data| > 0
    ensures FlattenList(RowItems(data)) == FlattenList(RowItems(data[..|data| - 1])) + data[|data| - 1]
  {
    var n := |data|;
    var front := data[..n - 1];
    assert RowItems(data) == RowItems(front) + [Many(data[n - 1])];
    FlattenAppend(RowItems(front), [Many(data[n - 1])]);
    assert FlattenList([Many(data[n - 1])]) == data[n - 1] + FlattenList([Many(data[n - 1])][1..]);
  }

  /** The rows laid end to end hold as many values as the last row's end offset. */
  lemma {:induction false} ConcatLength<T>(data: seq<seq<T>>)
    ensures |Concat(data)| == Offset(data, |data|)
    decreases |data|
  {
    var n := |data|;
    if n > 0 {
      ConcatLength(data[..n - 1]);
      OffsetPrefix(data, n - 1);
    }
  }

  /** In the rows laid end to end, value `j` of row `i` follows the values of the rows before it. */
  lemma {:induction false} ConcatIndex<T>(data: seq<seq<T>>, i: nat, j: nat)
    requires i < |data| && j < |data[i]|
    ensures Position(data, i, j) < |Concat(data)| && Concat(data)[Position(data, i, j)] == data[i][j]
    decreases |data|
  {
    var n := |data|;
    var front := data[..n - 1];
    ConcatLength(front);
    OffsetPrefix(data, n - 1);
    var p := Position(data, i, j);
    if i < n - 1 {
      ConcatIndex(front, i, j);
      FrontOffset(data, i);
      assert p == Position(front, i, j) < |Concat(front)|;
    } else {
      assert p == |Concat(front)| + j;
    }
  }

  /** Dropping the last row moves no earlier row. */
  lemma {:induction false} FrontOffset<T>(data: seq<seq<T>>, i: nat)
    requires i < |data| - 1
    ensures Offset(data[..|data| - 1], i) == Offset(data, i)
  {
    var front := data[..|data| - 1];
    OffsetPrefix(data, i);
    OffsetPrefix(front, i);
    assert front[..i] == data[..i];
  }

  /** A list of iterables flattens to the concatenation of their items:
      the `j`-th value of row `i` sits right after the values of the rows before it. */
  lemma FlattenRowsIndex<T>(data: seq<seq<T>>, i: nat, j: nat)
    requires i < |data| && j < |data[i]|
    ensures Position(data, i, j) < |FlattenList(RowItems(data))|
    ensures FlattenList(RowItems(data))[Position(data, i, j)] == data[i][j]
  {
    FlattenRowsConcat(data);
    ConcatIndex(data, i, j);
  }

  /** The flattened rows have exactly as many values as all rows together. */
  lemma FlattenRowsLength<T>(data: seq<seq<T>>)
    ensures |FlattenList(RowItems(data))| == Offset(data, |data|)
  {
    FlattenRowsConcat(data);
    ConcatLength(data);
  }

  /** The offset of a row depends only on the rows before it. */
  lemma {:induction false} OffsetPrefix<T>(data: seq<seq<T>>, i: nat)
    requires i <= |data|
    ensures Offset(data[..i], i) == Offset(data, i)
    decreases i
  {
    if i > 0 {
      OffsetPrefix(data, i - 1);
      assert data[..i][..i - 1] == data[..i - 1];
      OffsetPrefix(data[..i], i - 1);
    }
  }

  /** In a table whose rows all have width `w`, row `i` starts at `i * w`. */
  lemma {:induction false} OffsetOfUniformRows<T>(data: seq<seq<T>>, w: nat, i: nat)
    requires forall r :: 0 <= r < |data| ==> |data[r]| == w
    requires i <= |data|
    ensures Offset(data, i) == i * w
    decreases i
  {
    if i > 0 {
      OffsetOfUniformRows(data, w, i - 1);
    }
  }

  /** Flattening a table of `n` rows of width `w` gives `n * w` values. */
  lemma FlattenUniformLength<T>(data: seq<seq<T>>, w: nat)
    requires forall r :: 0 <= r < |data| ==> |data[r]| == w
    ensures |FlattenList(RowItems(data))| == |data| * w
  {
    FlattenRowsLength(data);
    OffsetOfUniformRows(data, w, |data|);
  }

  /** Flattening a table of `n` rows of width `w` gives `n * w` values, row after row:
      value `k` is entry `k % w` of row `k / w`. */
  lemma {:induction false} FlattenUniformRows<T>(data: seq<seq<T>>, w: nat)
    requires forall r :: 0 <= r < |data| ==> |data[r]| == w
    ensures |FlattenList(RowItems(data))| == |data| * w
    ensures forall k :: 0 <= k < |FlattenList(RowItems(data))| ==>
              w > 0 && k / w < |data| && k % w < |data[k / w]| &&
              FlattenList(RowItems(data))[k] == data[k / w][k % w]
  {
    FlattenUniformLength(data, w);
    forall k | 0 <= k < |FlattenList(RowItems(data))| {
      FlattenUniformAt(data, w, k);
    }
  }

  /** One value of a flattened table of uniform width, found by division. */
  lemma FlattenUniformAt<T>(data: seq<seq<T>>, w: nat, k: nat)
    requires forall r :: 0 <= r < |data| ==> |data[r]| == w
    requires k < |data| * w
    ensures w > 0 && k / w < |data| && k % w < |data[k / w]|
    ensures k < |FlattenList(RowItems(data))| && FlattenList(RowItems(data))[k] == data[k / w][k % w]
  {
    UniformPosition(data, w, k);
    FlattenRowsIndex(data, k / w, k % w);
  }

  /** In a table of uniform width `w`, position `k` is entry `k % w` of row `k / w`. */
  lemma UniformPosition<T>(data: seq<seq<T>>, w: nat, k: nat)
    requires forall r :: 0 <= r < |data| ==> |data[r]| == w
    requires k < |data| * w
    ensures w > 0 && k / w < |data| && k % w < |data[k / w]|
    ensures Position(data, k / w, k % w) == k
  {
    Arithmetic.DivBelow(k, |data|, w);
    var i, j := k / w, k % w;
    assert k == i * w + j;
    OffsetOfUniformRows(data, w, i);
  }
}
