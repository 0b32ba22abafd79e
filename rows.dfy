/**
 * Cutting the flat, row-major factor array read from `item_factors.npy` into one slice per
 * repository: row `i` of an `nRepositories x nFactors` array is the `i`-th run of `nFactors` values.
 */
module Rows {

  /** The bounds of row `i` lie inside the first `rows * cols` values. */
  lemma {:induction false} RowBounds(i: nat, rows: nat, cols: nat)
    requires i < rows
    ensures i * cols + cols == (i + 1) * cols <= rows * cols
  {
  }

  /** Row `i`: the `i`-th run of `cols` values of the flat array. */
  function Row<T>(data: seq<T>, cols: nat, i: nat): seq<T>
    requires (i + 1) * cols <= |data|
  {
    data[i * cols..(i + 1) * cols]
  }

  /**
   * The map from row index to that row's values. The second conjunct of the guard only
   * makes the slice well defined; `RowMapShape` shows that it excludes no row.
   */
  function RowMap<T>(data: seq<T>, rows: nat, cols: nat): map<int, seq<T>>
    requires rows * cols <= |data|
  {
    map i: nat | i < rows && (i + 1) * cols <= |data| :: Row(data, cols, i)
  }

  /** Value `j` of row `i` is element `i * cols + j` of the flat array. */
  lemma {:induction false} RowElement<T>(data: seq<T>, rows: nat, cols: nat, i: nat, j: nat)
    requires rows * cols <= |data|
    requires i < rows && j < cols
    ensures i in RowMap(data, rows, cols) && |RowMap(data, rows, cols)[i]| == cols
    ensures i * cols + j < |data| && RowMap(data, rows, cols)[i][j] == data[i * cols + j]
  {
    RowBounds(i, rows, cols);
    assert RowMap(data, rows, cols)[i] == Row(data, cols, i);
  }

  /** The map has a key for every row and for nothing else, and every row has exactly `cols` values. */
  lemma {:induction false} RowMapShape<T>(data: seq<T>, rows: nat, cols: nat)
    requires rows * cols <= |data|
    ensures forall i :: i in RowMap(data, rows, cols) <==> 0 <= i < rows
    ensures forall i :: 0 <= i < rows ==> |RowMap(data, rows, cols)[i]| == cols
  {
    forall i | 0 <= i < rows
      ensures i in RowMap(data, rows, cols) && |RowMap(data, rows, cols)[i]| == cols
    {
      RowBounds(i, rows, cols);
    }
  }

  /** The rows `0 .. k-1` of `m`, laid end to end. */
  function Concat<T>(m: map<int, seq<T>>, k: nat): seq<T>
    requires forall i :: 0 <= i < k ==> i in m
  {
    if k == 0 then [] else Concat(m, k - 1) + m[k - 1]
  }

  /** The first `k` values are the first `k - 1` rows' values followed by row `k - 1`. */
  lemma {:induction false} RowMapLast<T>(data: seq<T>, rows: nat, cols: nat, k: nat)
    requires rows * cols <= |data|
    requires 0 < k <= rows
    ensures (k - 1) * cols <= k * cols <= |data|
    ensures k - 1 in RowMap(data, rows, cols)
    ensures data[..k * cols] == data[..(k - 1) * cols] + RowMap(data, rows, cols)[k - 1]
  {
  }

  /** Laying the first `k` rows end to end gives back the first `k * cols` values: nothing is lost or repeated. */
  lemma {:induction false} ConcatRowMap<T>(data: seq<T>, rows: nat, cols: nat, k: nat)
    requires rows * cols <= |data|
    requires k <= rows
    ensures forall i :: 0 <= i < k ==> i in RowMap(data, rows, cols)
    ensures k * cols <= |data|
    ensures Concat(RowMap(data, rows, cols), k) == data[..k * cols]
  {
    RowMapShape(data, rows, cols);
    if k > 0 {
      RowMapLast(data, rows, cols, k);
      ConcatRowMap(data, rows, cols, k - 1);
    }
  }

  /** An array of exactly `rows * cols` values is the concatenation of its rows. */
  lemma ConcatAllRows<T>(data: seq<T>, rows: nat, cols: nat)
    requires |data| == rows * cols
    ensures forall i :: 0 <= i < rows ==> i in RowMap(data, rows, cols)
    ensures Concat(RowMap(data, rows, cols), rows) == data
  {
    ConcatRowMap(data, rows, cols, rows);
    assert data[..rows * cols] == data;
  }

  /**
   * The loop of `ReadModel` that fills `docs`: for each `i` below `rows`,
   * `docs[i] = data[i*cols : (i+1)*cols]`.
   */
  method SliceRows<T>(data: seq<T>, rows: nat, cols: nat) returns (docs: map<int, seq<T>>)
    requires rows * cols <= |data|
    ensures docs == RowMap(data, rows, cols)
  {
    docs := map[];
    var i := 0;
    while i < rows
      invariant 0 <= i <= rows
      invariant i * cols <= rows * cols
      invariant docs == RowMap(data, i, cols)
    {
      RowBounds(i, rows, cols);
      docs := docs[i := data[i * cols..(i + 1) * cols]];
      i := i + 1;
    }
  }
}
