/** Sparse matrices in compressed column form, as in src/main/sparse/mat.c. */
module SparseMat {
  import opened LinearAlgebra
  import opened SparseVec

  datatype Mat = Mat(numRows: nat, numCols: nat, cols: seq<int>, rows: seq<int>, data: seq<real>)
  {
    ghost predicate Framed()
    {
      && |cols| == numCols + 1 && cols[0] == 0
      && (forall i, j :: 0 <= i <= j < |cols| ==> cols[i] <= cols[j])
      && cols[numCols] == |rows| == |data|
    }

    ghost predicate Ascends(j: nat)
      requires Framed() && j < numCols
    {
      assert 0 <= cols[j] <= cols[j + 1] <= cols[numCols];
      forall k, l :: cols[j] <= k < l < cols[j + 1] ==> rows[k] < rows[l]
    }

    /** sleqp_mat_is_valid: row indices in range and strictly increasing within every column */
    ghost predicate Valid()
    {
      && Framed()
      && (forall k :: 0 <= k < |rows| ==> 0 <= rows[k] < numRows)
      && (forall j :: 0 <= j < numCols ==> Ascends(j))
    }

    /** Column j as a sparse vector. */
    ghost function Col(j: nat): (v: Vec)
      requires Valid() && j < numCols
      ensures v.Valid() && v.dim == numRows
    {
      assert cols[j] <= cols[j + 1] <= cols[numCols] && Ascends(j);
      Vec(numRows, rows[cols[j]..cols[j + 1]], data[cols[j]..cols[j + 1]])
    }

    ghost function At(i: nat, j: nat): real
      requires Valid() && i < numRows && j < numCols
    {
      Col(j).At(i)
    }

    ghost function Row(i: nat): (x: Vector)
      requires Valid() && i < numRows
      ensures |x| == numCols
    {
      seq(numCols, j requires 0 <= j < numCols => At(i, j))
    }

    ghost function Dense(): (A: Matrix)
      requires Valid()
      ensures IsMatrix(A, numRows, numCols)
    {
      seq(numRows, i requires 0 <= i < numRows => Row(i))
    }
  }

  /** The column that holds the entry at position k. */
  ghost function ColumnOf(m: Mat, k: nat, j: nat): (c: nat)
    requires m.Framed() && j <= m.numCols && k < m.cols[j]
    ensures c < j && m.cols[c] <= k < m.cols[c + 1]
  {
    if k >= m.cols[j - 1] then j - 1 else ColumnOf(m, k, j - 1)
  }

  lemma ColumnsOrdered(m: Mat, j: nat)
    requires m.Framed() && j < m.numCols
    ensures 0 <= m.cols[j] <= m.cols[j + 1] <= |m.rows|
  {
    assert m.cols[0] <= m.cols[j] <= m.cols[j + 1] <= m.cols[m.numCols];
  }

  /** Entry i of column j, as far as the entries before position k tell. */
  ghost function Seen(m: Mat, j: nat, k: nat, i: nat): real
    requires m.Valid() && j < m.numCols && m.cols[j] <= k <= m.cols[j + 1]
  {
    Lookup(m.Col(j).indices, m.Col(j).data, i, k - m.cols[j])
  }

  /** One more entry of column j seen: only its own row changes. */
  lemma SeenStep(m: Mat, j: nat, k: nat)
    requires m.Valid() && j < m.numCols && m.cols[j] <= k < m.cols[j + 1]
    ensures 0 <= m.rows[k] < m.numRows && Seen(m, j, k, m.rows[k]) == 0.0
    ensures forall i: nat :: Seen(m, j, k + 1, i) == if m.rows[k] == i then m.data[k] else Seen(m, j, k, i)
  {
    ColumnsOrdered(m, j);
    var c, n := m.Col(j), k - m.cols[j];
    assert c.indices[n] == m.rows[k] && c.data[n] == m.data[k];
    LookupAbsent(c.indices, c.data, m.rows[k], n);
  }

  lemma SeenAll(m: Mat, j: nat)
    requires m.Valid() && j < m.numCols
    ensures m.cols[j] <= m.cols[j + 1]
    ensures forall i: nat :: Seen(m, j, m.cols[j], i) == 0.0
    ensures forall i: nat :: i < m.numRows ==> Seen(m, j, m.cols[j + 1], i) == m.Row(i)[j]
  {
    ColumnsOrdered(m, j);
  }

  /** Entry i of the product with y, as far as the columns before j tell. */
  ghost function ProductTo(m: Mat, y: Vector, j: nat, i: nat): real
    requires m.Valid() && j <= m.numCols == |y| && i < m.numRows
  {
    DotTo(m.Row(i), y, j)
  }

  lemma ProductSkip(m: Mat, y: Vector, j: nat, k: nat)
    requires m.Valid() && j <= k <= m.numCols == |y|
    requires forall l :: j <= l < k ==> y[l] == 0.0
    ensures forall i :: 0 <= i < m.numRows ==> ProductTo(m, y, k, i) == ProductTo(m, y, j, i)
  {
    forall i | 0 <= i < m.numRows ensures ProductTo(m, y, k, i) == ProductTo(m, y, j, i) {
      DotToSkip(m.Row(i), y, j, k);
    }
  }

  /** The products start at zero, grow by whole columns, and end at the matrix-vector product. */
  lemma ProductSteps(m: Mat, y: Vector)
    requires m.Valid() && m.numCols == |y|
    ensures forall i :: 0 <= i < m.numRows ==> ProductTo(m, y, 0, i) == 0.0
    ensures forall i :: 0 <= i < m.numRows ==> ProductTo(m, y, m.numCols, i) == MatVec(m.Dense(), y)[i]
  {
  }

  /** sleqp_mat_mult_vec: the product with a sparse vector */
  method MultVec(m: Mat, x: Vec, result: array<real>)
    requires m.Valid() && x.Valid() && x.dim == m.numCols && m.numRows <= result.Length
    modifies result
    ensures result[..m.numRows] == MatVec(m.Dense(), x.Dense())
    ensures forall i :: m.numRows <= i < result.Length ==> result[i] == old(result[i])
  {
    hide ProductTo;
    ghost var y := x.Dense();
    for i := 0 to m.numRows
      invariant forall p :: 0 <= p < i ==> result[p] == 0.0
      invariant forall p :: m.numRows <= p < result.Length ==> result[p] == old(result[p])
    {
      result[i] := 0.0;
    }
    ghost var j := 0;
    ProductSteps(m, y);
    for k := 0 to |x.indices|
      invariant 0 <= j <= m.numCols && x.Cursor(k, j)
      invariant forall i :: 0 <= i < m.numRows ==> result[i] == ProductTo(m, y, j, i)
      invariant forall p :: m.numRows <= p < result.Length ==> result[p] == old(result[p])
    {
      var col, factor := x.indices[k], x.data[k];
      CursorSkip(x, k, j, col);
      CursorAt(x, k, col);
      ProductSkip(m, y, j, col);
      AddColumn(m, col, factor, result, y);
      j := col + 1;
    }
    CursorEnd(x, j);
    ProductSkip(m, y, j, |y|);
  }

  method AddColumn(m: Mat, col: nat, factor: real, result: array<real>, ghost y: Vector)
    requires m.Valid() && col < m.numCols == |y| && m.numRows <= result.Length && factor == y[col]
    requires forall i :: 0 <= i < m.numRows ==> result[i] == ProductTo(m, y, col, i)
    modifies result
    ensures forall i :: 0 <= i < m.numRows ==> result[i] == ProductTo(m, y, col + 1, i)
    ensures forall i :: m.numRows <= i < result.Length ==> result[i] == old(result[i])
  {
    hide Seen, ProductTo;
    SeenAll(m, col);
    ColumnsOrdered(m, col);
    for entry := m.cols[col] to m.cols[col + 1]
      invariant forall i :: 0 <= i < m.numRows ==>
        result[i] == ProductTo(m, y, col, i) + Seen(m, col, entry, i) * factor
      invariant forall i :: m.numRows <= i < result.Length ==> result[i] == old(result[i])
    {
      SeenStep(m, col, entry);
      var row := m.rows[entry];
      result[row] := result[row] + factor * m.data[entry];
    }
    ProductColumn(m, y, col);
  }

  lemma ProductColumn(m: Mat, y: Vector, j: nat)
    requires m.Valid() && j < m.numCols == |y|
    ensures forall i :: 0 <= i < m.numRows ==>
      ProductTo(m, y, j + 1, i) == ProductTo(m, y, j, i) + Seen(m, j, m.cols[j + 1], i) * y[j]
  {
    SeenAll(m, j);
    hide Seen;
  }

  /** sleqp_mat_mult_vec_trans with zero_eps = 0: the product of the transpose with a sparse vector */
  method MultVecTrans(m: Mat, x: Vec) returns (result: Vec)
    requires m.Valid() && x.Valid() && x.dim == m.numRows
    ensures result.Valid() && result.dim == m.numCols
    ensures result.Dense() == TransVec(m.Dense(), x.Dense(), m.numCols)
  {
    hide Vec.At, TransVec;
    result := Empty(m.numCols);
    ghost var z := TransVec(m.Dense(), x.Dense(), m.numCols);
    for col := 0 to m.numCols
      invariant result.Valid() && result.dim == m.numCols
      invariant forall p :: 0 <= p < |result.indices| ==> result.indices[p] < col
      invariant forall j :: 0 <= j < col ==> result.At(j) == z[j]
      invariant forall j :: col <= j ==> result.At(j) == 0.0
    {
      var column := ReadColumn(m, col);
      var sum := DotProduct(column, x);
      TransColumn(m, x.Dense(), col);
      if sum != 0.0 { result := Push(result, col, sum); }
    }
    assert result.Dense() == z;
  }

  method ReadColumn(m: Mat, col: nat) returns (column: Vec)
    requires m.Valid() && col < m.numCols
    ensures column == m.Col(col)
  {
    ColumnsOrdered(m, col);
    column := Vec(m.numRows, m.rows[m.cols[col]..m.cols[col + 1]], m.data[m.cols[col]..m.cols[col + 1]]);
  }

  lemma TransColumn(m: Mat, y: Vector, j: nat)
    requires m.Valid() && j < m.numCols && |y| == m.numRows
    ensures Dot(m.Col(j).Dense(), y) == TransVec(m.Dense(), y, m.numCols)[j]
  {
    ColumnDense(m, j);
    TransVecEntry(m.Dense(), y, m.numCols, j);
  }

  lemma ColumnDense(m: Mat, j: nat)
    requires m.Valid() && j < m.numCols
    ensures m.Col(j).Dense() == Column(m.Dense(), j)
  {
    forall i | 0 <= i < m.numRows ensures m.Col(j).Dense()[i] == Column(m.Dense(), j)[i] {
      assert m.Dense()[i][j] == m.At(i, j);
    }
  }

  /** sleqp_mat_scale */
  method ScaleMat(m: Mat, factor: real) returns (result: Mat)
    requires m.Valid()
    ensures result.Valid() && result.numRows == m.numRows && result.numCols == m.numCols
    ensures forall i :: 0 <= i < m.numRows ==> result.Row(i) == Scale(factor, m.Row(i))
  {
    if factor == 0.0 {
      result := Mat(m.numRows, m.numCols, seq(m.numCols + 1, c => 0), [], []);
      EmptyRows(m, result);
      return;
    }
    result := m;
    for index := 0 to |m.rows|
      invariant result == m.(data := result.data) && |result.data| == |m.data|
      invariant forall k :: 0 <= k < index ==> result.data[k] == factor * m.data[k]
      invariant forall k :: index <= k < |m.data| ==> result.data[k] == m.data[k]
    {
      result := result.(data := result.data[index := result.data[index] * factor]);
    }
    ScaledRows(m, result, factor);
  }

  lemma EmptyRows(m: Mat, result: Mat)
    requires m.Valid() && result == Mat(m.numRows, m.numCols, seq(m.numCols + 1, c => 0), [], [])
    ensures result.Valid() && forall i :: 0 <= i < m.numRows ==> result.Row(i) == Scale(0.0, m.Row(i))
  {
    forall i | 0 <= i < m.numRows ensures result.Row(i) == Scale(0.0, m.Row(i)) {
      forall j | 0 <= j < m.numCols ensures result.Row(i)[j] == 0.0 { AbsentAt(result.Col(j), i); }
    }
  }

  lemma ScaledRows(m: Mat, result: Mat, factor: real)
    requires m.Valid() && result == m.(data := result.data) && |result.data| == |m.data|
    requires forall k :: 0 <= k < |m.data| ==> result.data[k] == factor * m.data[k]
    ensures result.Valid() && forall i :: 0 <= i < m.numRows ==> result.Row(i) == Scale(factor, m.Row(i))
  {
    forall j | 0 <= j < m.numCols ensures result.Ascends(j) { assert m.Ascends(j); }
    forall i | 0 <= i < m.numRows ensures result.Row(i) == Scale(factor, m.Row(i)) {
      forall j | 0 <= j < m.numCols ensures result.Row(i)[j] == Scale(factor, m.Row(i))[j] {
        ColumnsOrdered(m, j);
        MapStored(m.Col(j), result.Col(j), factor);
        assert result.Col(j).Dense()[i] == factor * m.Col(j).Dense()[i];
      }
    }
  }
}
