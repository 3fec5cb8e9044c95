/** Building a column-compressed matrix column by column, as sleqp_mat_push_col and sleqp_mat_push do. */
module MatrixPush {
  import opened LinearAlgebra
  import opened SparseVec
  import opened SparseMat

  /** A cleared matrix of the given dimensions. */
  function Cleared(numRows: nat, numCols: nat): Mat
  {
    Mat(numRows, numCols, seq(numCols + 1, c => 0), [], [])
  }

  /** The first c columns; the offsets behind them may be out of date. */
  ghost function Prefix(m: Mat, c: nat): Mat
    requires c <= m.numCols && |m.cols| == m.numCols + 1
  {
    m.(numCols := c, cols := m.cols[..c + 1])
  }

  /** The first c columns are a valid matrix that holds all entries. */
  ghost predicate Building(m: Mat, c: nat)
  {
    c <= m.numCols && |m.cols| == m.numCols + 1 && Prefix(m, c).Valid()
  }

  ghost function BuiltCol(m: Mat, c: nat, j: nat): Vec
    requires Building(m, c) && j < c
  {
    Prefix(m, c).Col(j)
  }

  /** sleqp_mat_push_col */
  function PushCol(m: Mat, c: nat): (r: Mat)
    requires c < m.numCols && |m.cols| == m.numCols + 1
  {
    m.(cols := m.cols[c + 1 := m.cols[c]])
  }

  /** sleqp_mat_push */
  function PushEntry(m: Mat, row: int, col: nat, value: real): (r: Mat)
    requires col < m.numCols && |m.cols| == m.numCols + 1
  {
    m.(cols := m.cols[col + 1 := m.cols[col + 1] + 1], rows := m.rows + [row], data := m.data + [value])
  }

  lemma BuildingStart(numRows: nat, numCols: nat)
    ensures Building(Cleared(numRows, numCols), 0)
  {
  }

  lemma BuildingEnd(m: Mat)
    requires Building(m, m.numCols)
    ensures m.Valid() && forall j :: 0 <= j < m.numCols ==> m.Col(j) == BuiltCol(m, m.numCols, j)
  {
    assert m.cols[..m.numCols + 1] == m.cols;
    assert Prefix(m, m.numCols) == m;
  }

  lemma PushColBuilds(m: Mat, m': Mat, c: nat, d: nat)
    requires d == c + 1 && Building(m, c) && c < m.numCols && m' == PushCol(m, c)
    ensures Building(m', d) && m'.cols[c] == |m.rows|
    ensures BuiltCol(m', d, c) == Vec(m.numRows, [], [])
    ensures forall j :: 0 <= j < c ==> BuiltCol(m', d, j) == BuiltCol(m, c, j)
  {
    var p, q := Prefix(m, c), Prefix(m', d);
    assert q.cols == p.cols + [p.cols[c]];
    assert q.Framed();
    forall j | 0 <= j < d ensures q.Ascends(j) {
      if j < c { assert p.Ascends(j); }
    }
  }

  /** q is p with one more entry at the end of its last column. */
  ghost predicate Appends(p: Mat, q: Mat, row: int, value: real)
  {
    && p.Valid() && p.numCols > 0 && 0 <= row < p.numRows
    && (forall k :: p.cols[p.numCols - 1] <= k < |p.rows| ==> p.rows[k] < row)
    && q == p.(cols := p.cols[p.numCols := |p.rows| + 1], rows := p.rows + [row], data := p.data + [value])
  }

  lemma AppendsFramed(p: Mat, q: Mat, row: int, value: real)
    requires Appends(p, q, row, value)
    ensures q.Framed() && forall j :: 0 <= j < p.numCols ==> 0 <= q.cols[j] == p.cols[j] <= |p.rows|
  {
    forall j | 0 <= j < p.numCols ensures 0 <= p.cols[j] <= |p.rows| { ColumnsOrdered(p, j); }
  }

  lemma AppendsValid(p: Mat, q: Mat, row: int, value: real)
    requires Appends(p, q, row, value)
    ensures q.Valid()
  {
    AppendsFramed(p, q, row, value);
    forall j | 0 <= j < q.numCols ensures q.Ascends(j) {
      ColumnsOrdered(p, j);
      assert p.Ascends(j);
    }
  }

  lemma AppendsColumns(p: Mat, q: Mat, row: int, value: real, j: nat)
    requires Appends(p, q, row, value) && q.Valid() && j < p.numCols
    ensures j < p.numCols - 1 ==> q.Col(j) == p.Col(j)
    ensures j == p.numCols - 1 ==>
      q.Col(j) == Vec(p.numRows, p.Col(j).indices + [row], p.Col(j).data + [value])
  {
    AppendsFramed(p, q, row, value);
    hide Mat.Valid;
    var a, b := p.cols[j], p.cols[j + 1];
    if j < p.numCols - 1 {
      assert q.rows[a..b] == p.rows[a..b] && q.data[a..b] == p.data[a..b];
    } else {
      assert b == |p.rows|;
      assert q.rows[a..b + 1] == p.rows[a..b] + [row] && q.data[a..b + 1] == p.data[a..b] + [value];
    }
  }

  /** Pushing an entry behind the last one of the column that was opened last. */
  lemma PushEntryBuilds(m: Mat, m': Mat, row: int, c: nat, d: nat, value: real)
    requires d == c + 1 && Building(m, d) && 0 <= row < m.numRows && m' == PushEntry(m, row, c, value)
    requires forall k :: m.cols[c] <= k < |m.rows| ==> m.rows[k] < row
    ensures Building(m', d)
    ensures BuiltCol(m', d, c) == Vec(m.numRows, BuiltCol(m, d, c).indices + [row], BuiltCol(m, d, c).data + [value])
    ensures forall j :: 0 <= j < c ==> BuiltCol(m', d, j) == BuiltCol(m, d, j)
  {
    var p, q := Prefix(m, d), Prefix(m', d);
    assert q.cols == p.cols[d := |p.rows| + 1];
    AppendsValid(p, q, row, value);
    AppendsColumns(p, q, row, value, c);
    forall j | 0 <= j < c ensures q.Col(j) == p.Col(j) { AppendsColumns(p, q, row, value, j); }
  }

  /** A bound on the indices of the last column is a bound on the rows of its entries. */
  lemma BuiltBelow(m: Mat, c: nat, d: nat, row: int)
    requires d == c + 1 && Building(m, d)
    requires forall p :: 0 <= p < |BuiltCol(m, d, c).indices| ==> BuiltCol(m, d, c).indices[p] < row
    ensures forall k :: m.cols[c] <= k < |m.rows| ==> m.rows[k] < row
  {
    var p := Prefix(m, d);
    ColumnsOrdered(p, c);
    assert p.cols[c] == m.cols[c] && p.cols[d] == |m.rows| == |p.rows|;
    hide Mat.Valid, Vec.Valid;
    forall k | m.cols[c] <= k < |m.rows| ensures m.rows[k] < row {
      assert BuiltCol(m, d, c).indices[k - m.cols[c]] == m.rows[k];
    }
  }
}
