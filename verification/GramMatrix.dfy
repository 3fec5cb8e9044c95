/** The sparse product A*A^T of src/main/aug_jac/reduced_aug_jac.c, from the rows of A. */
module GramMatrix {
  import opened LinearAlgebra
  import opened SparseVec
  import opened SparseMat
  import opened MatrixPush
  import opened Factorisations

  /** The inner product of two rows; T holds the rows as its columns. */
  ghost function RowDot(T: Mat, i: nat, j: nat): real
    requires T.Valid() && i < T.numCols && j < T.numCols
  {
    Dot(T.Col(i).Dense(), T.Col(j).Dense())
  }

  /** Entries from..to of column c of the product, all of them stored. */
  ghost function GramCol(T: Mat, c: nat, from: nat, to: nat): (v: Vec)
    requires T.Valid() && c < T.numCols && from <= to <= T.numCols
    ensures v.Valid() && v.dim == T.numCols
  {
    Vec(T.numCols, seq(to - from, k requires 0 <= k < to - from => from + k),
        seq(to - from, k requires 0 <= k < to - from => RowDot(T, from + k, c)))
  }

  /** m stores the whole product, or the part on and below its diagonal. */
  ghost predicate IsGramOf(m: Mat, T: Mat, lower: bool)
  {
    && T.Valid() && m.Valid() && m.numRows == m.numCols == T.numCols
    && forall c :: 0 <= c < T.numCols ==> m.Col(c) == GramCol(T, c, if lower then c else 0, T.numCols)
  }

  lemma GramColAt(T: Mat, c: nat, from: nat, to: nat, i: nat)
    requires T.Valid() && c < T.numCols && from <= i < to <= T.numCols
    ensures GramCol(T, c, from, to).At(i) == RowDot(T, i, c)
  {
    StoredAt(GramCol(T, c, from, to), i - from);
  }

  /** What the factorisation understands is the full product. */
  lemma GramMeaning(m: Mat, T: Mat, lower: bool, A: Matrix)
    requires IsGramOf(m, T, lower) && IsMatrix(A, T.numCols, T.numRows)
    requires forall r :: 0 <= r < T.numCols ==> T.Col(r).Dense() == A[r]
    ensures Meaning(m, lower) == Gram(A, T.numRows)
  {
    hide Vec.At, Dot, Mat.Valid;
    var size := T.numCols;
    forall i, j | 0 <= i < size && 0 <= j < size
      ensures Meaning(m, lower)[i][j] == Gram(A, T.numRows)[i][j]
    {
      DotSymmetric(A[i], A[j]);
      if lower && j > i {
        GramColAt(T, i, i, size, j);
      } else {
        GramColAt(T, j, if lower then j else 0, size, i);
      }
    }
    forall i | 0 <= i < size ensures Meaning(m, lower)[i] == Gram(A, T.numRows)[i] {
    }
  }

  lemma RowBounds(T: Mat, r: nat)
    requires T.Valid() && r < T.numCols
    ensures r + 1 < |T.cols| && 0 <= T.cols[r] <= T.cols[r + 1] <= |T.rows| == |T.data|
    ensures |T.Col(r).indices| == |T.Col(r).data| == T.cols[r + 1] - T.cols[r]
    ensures T.Col(r).Cursor(0, 0) && T.Col(r).dim == T.numRows
  {
    ColumnsOrdered(T, r);
  }

  lemma RowEntryAt(T: Mat, r: nat, index: nat)
    requires T.Valid() && r < T.numCols && r + 1 < |T.cols| && T.cols[r] <= index < T.cols[r + 1]
    ensures 0 <= T.cols[r] && T.cols[r + 1] - T.cols[r] == |T.Col(r).indices| == |T.Col(r).data|
    ensures index < |T.rows| == |T.data|
    ensures T.Col(r).indices[index - T.cols[r]] == T.rows[index]
    ensures T.Col(r).data[index - T.cols[r]] == T.data[index]
  {
    ColumnsOrdered(T, r);
  }

  /** A merge of two vectors for their inner product, with everything below index j accounted for. */
  ghost predicate Merged(a: Vec, b: Vec, k: nat, l: nat, j: nat, product: real)
  {
    && a.Valid() && b.Valid() && a.dim == b.dim && a.Cursor(k, j) && b.Cursor(l, j) && j <= a.dim
    && product == DotTo(a.Dense(), b.Dense(), j)
  }

  lemma MergeStep(a: Vec, b: Vec, k: nat, l: nat, j: nat, product: real) returns (j': nat)
    requires Merged(a, b, k, l, j, product) && k < |a.indices| && l < |b.indices|
    ensures |a.data| == |a.indices| && |b.data| == |b.indices|
    ensures a.indices[k] < b.indices[l] ==> Merged(a, b, k + 1, l, j', product)
    ensures a.indices[k] > b.indices[l] ==> Merged(a, b, k, l + 1, j', product)
    ensures a.indices[k] == b.indices[l] ==> Merged(a, b, k + 1, l + 1, j', product + a.data[k] * b.data[l])
  {
    hide Vec.At;
    var i := if a.indices[k] <= b.indices[l] then a.indices[k] else b.indices[l];
    CursorSkip(a, k, j, i);
    CursorSkip(b, l, j, i);
    CursorAt(a, k, i);
    CursorAt(b, l, i);
    DotToAdvance(a.Dense(), b.Dense(), j, i);
    j' := i + 1;
  }

  lemma MergeEnd(a: Vec, b: Vec, k: nat, l: nat, j: nat, product: real)
    requires Merged(a, b, k, l, j, product) && (k == |a.indices| || l == |b.indices|)
    ensures product == Dot(a.Dense(), b.Dense())
  {
    hide Vec.At;
    if k == |a.indices| { CursorEnd(a, j); } else { CursorEnd(b, j); }
    DotToSkip(a.Dense(), b.Dense(), j, a.dim);
  }

  lemma MergeStart(a: Vec, b: Vec)
    requires a.Valid() && b.Valid() && a.dim == b.dim
    ensures Merged(a, b, 0, 0, 0, 0.0)
  {
  }

  /** compute_inner_product */
  method InnerProduct(T: Mat, row: nat, col: nat) returns (nonzero: bool, product: real)
    requires T.Valid() && row < T.numCols && col < T.numCols
    ensures nonzero && product == RowDot(T, row, col)
  {
    RowBounds(T, row);
    RowBounds(T, col);
    ghost var a, b := T.Col(row), T.Col(col);
    MergeStart(a, b);
    hide *;
    nonzero, product := true, 0.0;
    var colIndex, rowIndex := T.cols[col], T.cols[row];
    var colBound, rowBound := T.cols[col + 1], T.cols[row + 1];
    ghost var k, l, j := 0, 0, 0;
    while colIndex < colBound && rowIndex < rowBound
      invariant T.cols[col] <= colIndex <= colBound && T.cols[row] <= rowIndex <= rowBound
      invariant rowIndex == T.cols[row] + k && colIndex == T.cols[col] + l
      invariant nonzero && Merged(a, b, k, l, j, product)
      decreases colBound - colIndex + rowBound - rowIndex
    {
      RowEntryAt(T, row, rowIndex);
      RowEntryAt(T, col, colIndex);
      var colCol, rowCol := T.rows[colIndex], T.rows[rowIndex];
      j := MergeStep(a, b, k, l, j, product);
      if rowCol < colCol {
        rowIndex, k := rowIndex + 1, k + 1;
      } else if rowCol > colCol {
        colIndex, l := colIndex + 1, l + 1;
      } else {
        nonzero := true;
        product := product + T.data[rowIndex] * T.data[colIndex];
        rowIndex, colIndex, k, l := rowIndex + 1, colIndex + 1, k + 1, l + 1;
      }
    }
    MergeEnd(a, b, k, l, j, product);
  }

  /** Entries from..to of column j are in place. */
  ghost predicate Placed(m: Mat, T: Mat, lower: bool, d: nat, j: nat, to: nat)
    requires Building(m, d) && T.Valid() && j < d <= T.numCols
  {
    var from := if lower then j else 0;
    from <= to <= T.numCols && BuiltCol(m, d, j) == GramCol(T, j, from, to)
  }

  /** The columns before c are complete, and column c, the last of the d columns, holds its entries up to to. */
  ghost predicate Progress(m: Mat, T: Mat, lower: bool, c: nat, d: nat, to: nat)
  {
    && T.Valid() && m.numRows == m.numCols == T.numCols && d == c + 1 && Building(m, d)
    && (forall j :: 0 <= j < c ==> Placed(m, T, lower, d, j, T.numCols))
    && Placed(m, T, lower, d, c, to)
  }

  ghost predicate Columns(m: Mat, T: Mat, lower: bool, c: nat)
  {
    && T.Valid() && m.numRows == m.numCols == T.numCols && Building(m, c)
    && forall j :: 0 <= j < c ==> Placed(m, T, lower, c, j, T.numCols)
  }

  lemma OpenColumn(m: Mat, T: Mat, lower: bool, c: nat)
    requires Columns(m, T, lower, c) && c < T.numCols
    ensures c < m.numCols && |m.cols| == m.numCols + 1
    ensures Progress(PushCol(m, c), T, lower, c, c + 1, if lower then c else 0)
  {
    PushColBuilds(m, PushCol(m, c), c, c + 1);
    hide Mat.Valid, RowDot, Building;
    var m', d := PushCol(m, c), c + 1;
    forall j | 0 <= j < c ensures Placed(m', T, lower, d, j, T.numCols) {
      assert Placed(m, T, lower, c, j, T.numCols);
    }
  }

  lemma PushGramEntry(m: Mat, T: Mat, lower: bool, c: nat, d: nat, i: nat, product: real)
    requires Progress(m, T, lower, c, d, i) && i < T.numCols && product == RowDot(T, i, c)
    ensures c < m.numCols && |m.cols| == m.numCols + 1
    ensures Progress(PushEntry(m, i, c, product), T, lower, c, d, i + 1)
  {
    EntriesBelow(m, T, lower, c, d, i);
    PushEntryBuilds(m, PushEntry(m, i, c, product), i, c, d, product);
    GramColGrows(T, c, if lower then c else 0, i);
    hide Mat.Valid, RowDot, Building, GramCol;
    forall j | 0 <= j < c ensures Placed(PushEntry(m, i, c, product), T, lower, d, j, T.numCols) {
      assert Placed(m, T, lower, d, j, T.numCols);
    }
  }

  lemma EntriesBelow(m: Mat, T: Mat, lower: bool, c: nat, d: nat, i: nat)
    requires Progress(m, T, lower, c, d, i)
    ensures forall k :: m.cols[c] <= k < |m.rows| ==> m.rows[k] < i
  {
    var p := Prefix(m, d);
    ColumnsOrdered(p, c);
    hide RowDot, Mat.Valid, Vec.Valid;
    forall k | m.cols[c] <= k < |m.rows| ensures m.rows[k] < i {
      assert p.Col(c).indices[k - p.cols[c]] == m.rows[k];
    }
  }

  lemma GramColGrows(T: Mat, c: nat, from: nat, i: nat)
    requires T.Valid() && c < T.numCols && from <= i < T.numCols
    ensures GramCol(T, c, from, i + 1)
         == Vec(T.numCols, GramCol(T, c, from, i).indices + [i], GramCol(T, c, from, i).data + [RowDot(T, i, c)])
  {
    hide RowDot, Mat.Valid, Vec.Valid;
  }

  lemma CloseColumn(m: Mat, T: Mat, lower: bool, c: nat, d: nat)
    requires Progress(m, T, lower, c, d, T.numCols)
    ensures Columns(m, T, lower, d)
  {
    hide Mat.Valid, RowDot, Building, BuiltCol;
  }

  lemma ColumnsAreGram(m: Mat, T: Mat, lower: bool)
    requires Columns(m, T, lower, T.numCols)
    ensures IsGramOf(m, T, lower)
  {
    BuildingEnd(m);
    hide Mat.Valid, RowDot, Building, BuiltCol, GramCol;
    forall c | 0 <= c < T.numCols ensures m.Col(c) == GramCol(T, c, if lower then c else 0, T.numCols) {
      assert Placed(m, T, lower, T.numCols, c, T.numCols);
    }
  }

  /** compute_matrix_general */
  method MatrixGeneral(T: Mat) returns (matrix: Mat)
    requires T.Valid()
    ensures IsGramOf(matrix, T, false)
  {
    hide *;
    var size := T.numCols;
    matrix := Cleared(size, size);
    StartColumns(T, false);
    for col := 0 to size
      invariant Columns(matrix, T, false, col)
    {
      OpenColumn(matrix, T, false, col);
      matrix := PushCol(matrix, col);
      for row := 0 to size
        invariant Progress(matrix, T, false, col, col + 1, row)
      {
        var nonzero, product := InnerProduct(T, row, col);
        if nonzero {
          PushGramEntry(matrix, T, false, col, col + 1, row, product);
          matrix := PushEntry(matrix, row, col, product);
        }
      }
      CloseColumn(matrix, T, false, col, col + 1);
    }
    ColumnsAreGram(matrix, T, false);
  }

  lemma StartColumns(T: Mat, lower: bool)
    requires T.Valid()
    ensures Columns(Cleared(T.numCols, T.numCols), T, lower, 0)
  {
    BuildingStart(T.numCols, T.numCols);
  }

  /** The sum of the squares of the entries of one row. */
  method SquareSum(T: Mat, col: nat) returns (product: real)
    requires T.Valid() && col < T.numCols
    ensures product == RowDot(T, col, col)
  {
    RowBounds(T, col);
    ghost var v := T.Col(col);
    MergeStart(v, v);
    hide *;
    ghost var j := 0;
    product := 0.0;
    for index := T.cols[col] to T.cols[col + 1]
      invariant Merged(v, v, index - T.cols[col], index - T.cols[col], j, product)
    {
      RowEntryAt(T, col, index);
      j := MergeStep(v, v, index - T.cols[col], index - T.cols[col], j, product);
      product := product + T.data[index] * T.data[index];
    }
    MergeEnd(v, v, |v.indices|, |v.indices|, j, product);
  }

  /** compute_matrix_lower: the first numActiveVars rows are unit rows */
  method MatrixLower(T: Mat, numActiveVars: nat) returns (matrix: Mat)
    requires T.Valid() && numActiveVars <= T.numCols
    requires forall r :: 0 <= r < numActiveVars ==> RowDot(T, r, r) == 1.0
    ensures IsGramOf(matrix, T, true)
  {
    hide *;
    var size := T.numCols;
    matrix := Cleared(size, size);
    StartColumns(T, true);
    for col := 0 to size
      invariant Columns(matrix, T, true, col)
    {
      OpenColumn(matrix, T, true, col);
      matrix := PushCol(matrix, col);
      var product := 1.0;
      if col >= numActiveVars { product := SquareSum(T, col); }
      PushGramEntry(matrix, T, true, col, col + 1, col, product);
      matrix := PushEntry(matrix, col, col, product);
      for row := col + 1 to size
        invariant Progress(matrix, T, true, col, col + 1, row)
      {
        var nonzero;
        nonzero, product := InnerProduct(T, row, col);
        if nonzero {
          PushGramEntry(matrix, T, true, col, col + 1, row, product);
          matrix := PushEntry(matrix, row, col, product);
        }
      }
      CloseColumn(matrix, T, true, col, col + 1);
    }
    ColumnsAreGram(matrix, T, true);
  }
}
