/** The in-place kernels of src/main/aug_jac/reduced_aug_jac.c: counting, prefix sums, scattering, and products with
    the row form. */
module RowKernels {
  import opened LinearAlgebra
  import opened SparseVec
  import opened SparseMat
  import opened Problems
  import opened WorkingSets
  import opened WorkingMatrices
  import opened RowForm
  import opened GramMatrix
  import opened Factorisations
  import opened AugJacSpec

  // ----- the in-place kernels

  /** The row counts after the first limit entries of the Jacobian. */
  ghost predicate Counted(s: Sets, jac: Mat, limit: nat, counts: seq<int>)
  {
    && s.WellFormed() && Fits(s, jac) && limit <= |jac.rows| && |counts| == s.Size() + 1
    && forall r :: 0 <= r < s.Size() ==> counts[r] == RowCount(s, jac, r, limit)
  }

  lemma CountedStart(s: Sets, jac: Mat, counts: seq<int>)
    requires s.WellFormed() && Fits(s, jac) && |counts| == s.Size() + 1
    requires forall r :: 0 <= r < s.numActiveVars ==> counts[r] == 1
    requires forall r :: s.numActiveVars <= r < s.Size() ==> counts[r] == 0
    ensures Counted(s, jac, 0, counts) && Offset(s, jac, s.Size(), 0) == s.numActiveVars
  {
    OffsetStart(s, jac, s.Size());
  }

  /** The next entry is counted for its row, if it has one. */
  lemma CountedStep(s: Sets, jac: Mat, limit: nat, counts: seq<int>, next: nat)
    requires Counted(s, jac, limit, counts) && limit < |jac.rows| && next == limit + 1
    ensures s.Size() < |counts| && 0 <= jac.rows[limit] < |s.consIndices|
    ensures var q := s.consIndices[jac.rows[limit]];
      && Offset(s, jac, s.Size(), next) == Offset(s, jac, s.Size(), limit) + (if q == NONE then 0 else 1)
      && (q == NONE || (s.numActiveVars <= q < s.Size()))
      && Counted(s, jac, next, if q == NONE then counts else counts[q := counts[q] + 1])
  {
    OffsetStep(s, jac, s.Size(), limit);
    var q := s.consIndices[jac.rows[limit]];
    forall r | 0 <= r < s.Size() ensures RowCount(s, jac, r, next)
      == RowCount(s, jac, r, limit) + (if q == r then 1 else 0)
    {
      CountStep(s, jac, r, limit);
    }
  }

  /** Unit rows have one entry, the others none so far. */
  method InitialiseCounts(s: Sets, ghost jac: Mat, rowCounts: array<int>)
    requires s.WellFormed() && Fits(s, jac) && rowCounts.Length == s.Size() + 1
    modifies rowCounts
    ensures Counted(s, jac, 0, rowCounts[..]) && Offset(s, jac, s.Size(), 0) == s.numActiveVars
  {
    for i := 0 to s.numActiveVars
      invariant forall r :: 0 <= r < i ==> rowCounts[r] == 1
    {
      rowCounts[i] := 1;
    }
    for i := s.numActiveVars to |s.content|
      invariant forall r :: 0 <= r < s.numActiveVars ==> rowCounts[r] == 1
      invariant forall r :: s.numActiveVars <= r < i ==> rowCounts[r] == 0
    {
      rowCounts[i] := 0;
    }
    CountedStart(s, jac, rowCounts[..]);
  }

  /** compute_row_counts_and_nnz */
  method ComputeRowCounts(s: Sets, jac: Mat, rowCounts: array<int>) returns (nnz: nat)
    requires s.WellFormed() && Fits(s, jac) && rowCounts.Length == s.Size() + 1
    modifies rowCounts
    ensures Counted(s, jac, |jac.rows|, rowCounts[..]) && nnz == Offset(s, jac, s.Size(), |jac.rows|)
  {
    nnz := s.numActiveVars;
    InitialiseCounts(s, jac, rowCounts);
    assert jac.Framed();
    hide Counted, Sets.WellFormed, Fits, Mat.Valid;
    for col := 0 to jac.numCols
      invariant 0 <= jac.cols[col] <= |jac.rows| && Counted(s, jac, jac.cols[col], rowCounts[..])
      invariant Offset(s, jac, s.Size(), jac.cols[col]) == nnz
    {
      ColumnsOrdered(jac, col);
      for index := jac.cols[col] to jac.cols[col + 1]
        invariant Counted(s, jac, index, rowCounts[..]) && Offset(s, jac, s.Size(), index) == nnz
      {
        var added := CountEntry(s, jac, index, rowCounts);
        nnz := nnz + added;
      }
    }
  }

  /** One entry of the Jacobian is counted for its row, if it has one. */
  method CountEntry(s: Sets, jac: Mat, index: nat, rowCounts: array<int>) returns (added: nat)
    requires Counted(s, jac, index, rowCounts[..]) && index < |jac.rows|
    modifies rowCounts
    ensures Counted(s, jac, index + 1, rowCounts[..])
    ensures Offset(s, jac, s.Size(), index + 1) == Offset(s, jac, s.Size(), index) + added
  {
    ghost var before := rowCounts[..];
    hide *;
    CountedStep(s, jac, index, before, index + 1);
    var consIndex := s.consIndices[jac.rows[index]];
    if consIndex == NONE { return 0; }
    rowCounts[consIndex] := rowCounts[consIndex] + 1;
    added := 1;
    assert rowCounts[..] == before[consIndex := before[consIndex] + 1];
  }

  /** Offsets hold the start of every row and the end of the last one. */
  ghost predicate AreOffsets(s: Sets, jac: Mat, offsets: seq<int>)
  {
    && Fits(s, jac) && |offsets| == s.Size() + 1
    && forall r :: 0 <= r <= s.Size() ==> offsets[r] == Offset(s, jac, r, |jac.rows|)
  }

  lemma OffsetsReached(s: Sets, jac: Mat, offsets: seq<int>)
    requires Fits(s, jac) && |offsets| == s.Size() + 1
    requires forall r :: 0 <= r <= s.Size() ==> offsets[r] == Offset(s, jac, r, |jac.rows|)
    ensures AreOffsets(s, jac, offsets)
  {
  }

  /** update_row_counts: counts become offsets, in place */
  method UpdateRowCounts(s: Sets, ghost jac: Mat, rowCounts: array<int>, rowOffsets: array<int>)
    requires rowCounts != rowOffsets && Counted(s, jac, |jac.rows|, rowCounts[..])
    requires rowOffsets.Length == s.Size() - s.numActiveVars
    modifies rowCounts, rowOffsets
    ensures AreOffsets(s, jac, rowCounts[..])
    ensures forall i :: 0 <= i < rowOffsets.Length ==> rowOffsets[i] == 0
  {
    ghost var counts := rowCounts[..];
    hide *;
    CountsUnfold(s, jac, counts);
    var offset := 0;
    for i := 0 to |s.content| + 1
      invariant forall r :: 0 <= r < i ==> rowCounts[r] == Offset(s, jac, r, |jac.rows|)
      invariant forall r :: i <= r <= |s.content| ==> rowCounts[r] == counts[r]
      invariant i <= |s.content| ==> offset == Offset(s, jac, i, |jac.rows|)
    {
      var current := rowCounts[i];
      rowCounts[i] := offset;
      offset := offset + current;
    }
    OffsetsReached(s, jac, rowCounts[..]);
    ClearOffsets(rowOffsets);
  }

  lemma CountsUnfold(s: Sets, jac: Mat, counts: seq<int>)
    requires Counted(s, jac, |jac.rows|, counts)
    ensures Fits(s, jac) && |counts| == |s.content| + 1 && s.Size() == |s.content| && Offset(s, jac, 0, |jac.rows|) == 0
    ensures forall r :: 0 <= r < |s.content| ==>
      counts[r] == Offset(s, jac, r + 1, |jac.rows|) - Offset(s, jac, r, |jac.rows|)
  {
  }

  method ClearOffsets(rowOffsets: array<int>)
    modifies rowOffsets
    ensures forall i :: 0 <= i < rowOffsets.Length ==> rowOffsets[i] == 0
  {
    for i := 0 to rowOffsets.Length
      invariant forall k :: 0 <= k < i ==> rowOffsets[k] == 0
    {
      rowOffsets[i] := 0;
    }
  }

  /** The state of the fill after the first limit entries of the Jacobian. */
  ghost predicate Filling(s: Sets, jac: Mat, limit: nat, offsets: seq<int>, used: seq<int>, cols: seq<int>,
                          vals: seq<real>)
  {
    && s.WellFormed() && AreOffsets(s, jac, offsets) && limit <= |jac.rows|
    && |used| == s.Size() - s.numActiveVars
    && (forall r :: s.numActiveVars <= r < s.Size() ==> used[r - s.numActiveVars] == RowCount(s, jac, r, limit))
    && |cols| == |vals| == Offset(s, jac, s.Size(), |jac.rows|)
    && Filled(s, jac, limit, cols, vals)
  }

  lemma FillingStart(s: Sets, jac: Mat, offsets: seq<int>, used: seq<int>, cols: seq<int>, vals: seq<real>)
    requires s.WellFormed() && AreOffsets(s, jac, offsets) && |used| == s.Size() - s.numActiveVars
    requires |cols| == |vals| == Offset(s, jac, s.Size(), |jac.rows|)
    requires forall i :: 0 <= i < |used| ==> used[i] == 0
    requires forall k :: 0 <= k < s.numActiveVars && k < |cols| ==> cols[k] == s.content[k] && vals[k] == 1.0
    ensures Filling(s, jac, 0, offsets, used, cols, vals)
  {
    FillStart(s, jac, cols, vals);
    hide Sets.WellFormed, Mat.Valid, Filled;
  }

  lemma RowInRange(s: Sets, jac: Mat, limit: nat, q: int)
    requires s.WellFormed() && Fits(s, jac) && limit < |jac.rows| && 0 <= jac.rows[limit] < |s.consIndices|
    requires q == s.consIndices[jac.rows[limit]]
    ensures q == NONE || s.numActiveVars <= q < s.Size()
  {
  }

  lemma UsedStep(s: Sets, jac: Mat, limit: nat, next: nat)
    requires s.WellFormed() && Fits(s, jac) && limit < |jac.rows| && next == limit + 1
    ensures 0 <= jac.rows[limit] < |s.consIndices|
    ensures forall r :: s.numActiveVars <= r < s.Size() ==>
      RowCount(s, jac, r, next) == RowCount(s, jac, r, limit) + (if s.consIndices[jac.rows[limit]] == r then 1 else 0)
  {
    hide RowCount;
    forall r | s.numActiveVars <= r < s.Size()
      ensures RowCount(s, jac, r, next) == RowCount(s, jac, r, limit)
        + (if s.consIndices[jac.rows[limit]] == r then 1 else 0)
    {
      CountStep(s, jac, r, limit);
    }
  }

  lemma FillingSkip(s: Sets, jac: Mat, limit: nat, offsets: seq<int>, used: seq<int>, cols: seq<int>, vals: seq<real>,
                    next: nat)
    requires Filling(s, jac, limit, offsets, used, cols, vals) && limit < |jac.rows| && next == limit + 1
    requires 0 <= jac.rows[limit] < |s.consIndices| && s.consIndices[jac.rows[limit]] == NONE
    ensures Filling(s, jac, next, offsets, used, cols, vals)
  {
    hide RowCount, Filled, Mat.Valid, Sets.WellFormed;
    UsedStep(s, jac, limit, next);
    FillSkip(s, jac, limit, cols, vals);
  }

  lemma FillingPosition(s: Sets, jac: Mat, limit: nat, offsets: seq<int>, used: seq<int>, cols: seq<int>,
                        vals: seq<real>, q: nat)
    requires Filling(s, jac, limit, offsets, used, cols, vals) && limit < |jac.rows|
    requires 0 <= jac.rows[limit] < |s.consIndices| && q == s.consIndices[jac.rows[limit]]
    ensures s.numActiveVars <= q < s.Size() && |offsets| > q && |used| > q - s.numActiveVars
      && used[q - s.numActiveVars] >= 0
    ensures limit < |jac.data| && 0 <= offsets[q] + used[q - s.numActiveVars] < |cols| == |vals|
    ensures offsets[q] + used[q - s.numActiveVars] == Offset(s, jac, q, |jac.rows|) + RowCount(s, jac, q, limit)
  {
    RowInRange(s, jac, limit, q);
    hide RowCount, Filled, Sets.WellFormed;
    NextPosition(s, jac, q, limit);
    assert used[q - s.numActiveVars] == RowCount(s, jac, q, limit);
  }

  lemma FillingPut(s: Sets, jac: Mat, limit: nat, offsets: seq<int>, used: seq<int>, cols: seq<int>, vals: seq<real>,
                   col: int, next: nat, q: nat, k: nat, pos: nat)
    requires Filling(s, jac, limit, offsets, used, cols, vals) && limit < |jac.rows| && InColumn(jac, limit, col)
    requires next == limit + 1 && 0 <= jac.rows[limit] < |s.consIndices| && q == s.consIndices[jac.rows[limit]]
    requires s.numActiveVars <= q < s.Size() && k == q - s.numActiveVars && pos < |cols| && limit < |jac.data|
    requires pos == Offset(s, jac, q, |jac.rows|) + RowCount(s, jac, q, limit)
    ensures Filling(s, jac, next, offsets, used[k := used[k] + 1], cols[pos := col], vals[pos := jac.data[limit]])
  {
    hide RowCount, Filled, Mat.Valid, Sets.WellFormed;
    UsedStep(s, jac, limit, next);
    FillStep(s, jac, limit, cols, vals, col, q, pos);
  }

  /** The unit rows: their values, then their columns. */
  method FillUnits(s: Sets, colIndices: array<int>, values: array<real>)
    requires s.WellFormed() && s.numActiveVars <= colIndices.Length == values.Length
    modifies colIndices, values
    ensures forall k :: 0 <= k < s.numActiveVars ==> colIndices[k] == s.content[k] && values[k] == 1.0
  {
    for i := 0 to s.numActiveVars
      invariant forall k :: 0 <= k < i ==> values[k] == 1.0
    {
      values[i] := 1.0;
    }
    for j := 0 to |s.varIndices|
      invariant forall k :: 0 <= k < s.numActiveVars ==> values[k] == 1.0
      invariant forall k :: 0 <= k < s.numActiveVars && s.content[k] < j ==> colIndices[k] == s.content[k]
    {
      var index := s.varIndices[j];
      if index == NONE { continue; }
      colIndices[index] := j;
    }
  }

  /** fill_system */
  method FillSystem(s: Sets, jac: Mat, rowCounts: array<int>, rowOffsets: array<int>, colIndices: array<int>,
                    values: array<real>)
    requires s.WellFormed() && AreOffsets(s, jac, rowCounts[..])
    requires rowOffsets.Length == s.Size() - s.numActiveVars
    requires forall i :: 0 <= i < rowOffsets.Length ==> rowOffsets[i] == 0
    requires colIndices.Length == values.Length == Offset(s, jac, s.Size(), |jac.rows|)
    requires rowCounts != rowOffsets && rowCounts != colIndices && rowOffsets != colIndices
    modifies rowOffsets, colIndices, values
    ensures Filled(s, jac, |jac.rows|, colIndices[..], values[..])
  {
    OffsetOfUnits(s, jac, s.numActiveVars, |jac.rows|);
    OffsetMonotone(s, jac, s.numActiveVars, s.Size(), |jac.rows|);
    FillUnits(s, colIndices, values);
    ghost var offsets := rowCounts[..];
    FillingStart(s, jac, offsets, rowOffsets[..], colIndices[..], values[..]);
    assert jac.Framed();
    hide Filling, Sets.WellFormed, Fits, Mat.Valid, Filled;
    for col := 0 to jac.numCols
      invariant 0 <= jac.cols[col] <= |jac.rows| && rowCounts[..] == offsets
      invariant Filling(s, jac, jac.cols[col], offsets, rowOffsets[..], colIndices[..], values[..])
    {
      ColumnsOrdered(jac, col);
      for index := jac.cols[col] to jac.cols[col + 1]
        invariant Filling(s, jac, index, offsets, rowOffsets[..], colIndices[..], values[..])
        invariant rowCounts[..] == offsets
      {
        FillEntry(s, jac, index, col, rowCounts, rowOffsets, colIndices, values, offsets);
      }
    }
    FillingEnd(s, jac, offsets, rowOffsets[..], colIndices[..], values[..]);
  }

  lemma FillingEnd(s: Sets, jac: Mat, offsets: seq<int>, used: seq<int>, cols: seq<int>, vals: seq<real>)
    requires Filling(s, jac, |jac.rows|, offsets, used, cols, vals)
    ensures Filled(s, jac, |jac.rows|, cols, vals)
  {
  }

  /** One entry of the Jacobian goes to the next free place of its row. */
  method FillEntry(s: Sets, jac: Mat, index: nat, col: nat, rowCounts: array<int>, rowOffsets: array<int>,
                   colIndices: array<int>, values: array<real>, ghost offsets: seq<int>)
    requires rowCounts[..] == offsets && index < |jac.rows| && InColumn(jac, index, col)
    requires Filling(s, jac, index, offsets, rowOffsets[..], colIndices[..], values[..])
    requires rowCounts != rowOffsets && rowCounts != colIndices && rowOffsets != colIndices
    modifies rowOffsets, colIndices, values
    ensures Filling(s, jac, index + 1, offsets, rowOffsets[..], colIndices[..], values[..])
  {
    ghost var used, cols, vals := rowOffsets[..], colIndices[..], values[..];
    assert s.WellFormed() && Fits(s, jac);
    hide *;
    UsedStep(s, jac, index, index + 1);
    var consIndex := s.consIndices[jac.rows[index]];
    RowInRange(s, jac, index, consIndex);
    if consIndex == NONE {
      FillingSkip(s, jac, index, offsets, used, cols, vals, index + 1);
      return;
    }
    ghost var q := consIndex;
    FillingPosition(s, jac, index, offsets, used, cols, vals, q);
    consIndex := consIndex - s.numActiveVars;
    assert rowCounts[q] == offsets[q];
    var jacIndex := rowCounts[consIndex + s.numActiveVars] + rowOffsets[consIndex];
    values[jacIndex] := jac.data[index];
    colIndices[jacIndex] := col;
    rowOffsets[consIndex] := rowOffsets[consIndex] + 1;
    assert rowOffsets[..] == used[consIndex := used[consIndex] + 1];
    assert colIndices[..] == cols[jacIndex := col] && values[..] == vals[jacIndex := jac.data[index]];
    FillingPut(s, jac, index, offsets, used, cols, vals, col, index + 1, q, consIndex, jacIndex);
  }

  // ----- products with the row form

  /** compute_product: the working-set matrix times a sparse vector */
  method ComputeProduct(T: Mat, direction: Vec) returns (product: Vec)
    requires T.Valid() && direction.Valid() && direction.dim == T.numRows
    ensures product.Valid() && product.dim == T.numCols
    ensures forall r :: 0 <= r < T.numCols ==> product.Dense()[r] == Dot(T.Col(r).Dense(), direction.Dense())
  {
    hide Vec.At, Dot, Mat.Valid, Mat.Framed, Mat.Col;
    product := Empty(T.numCols);
    for row := 0 to T.numCols
      invariant product.Valid() && product.dim == T.numCols
      invariant forall p :: 0 <= p < |product.indices| ==> product.indices[p] < row
      invariant forall r :: 0 <= r < row ==> product.At(r) == Dot(T.Col(r).Dense(), direction.Dense())
      invariant forall r :: row <= r ==> product.At(r) == 0.0
    {
      var nonzero, prod := RowProduct(T, row, direction);
      if nonzero { product := SparseVec.Push(product, row, prod); }
    }
  }

  /** One row of the product; nonzero tells whether any entry met a stored one. */
  method RowProduct(T: Mat, row: nat, direction: Vec) returns (nonzero: bool, prod: real)
    requires T.Valid() && direction.Valid() && direction.dim == T.numRows && row < T.numCols
    ensures prod == Dot(T.Col(row).Dense(), direction.Dense()) && (!nonzero ==> prod == 0.0)
  {
    RowBounds(T, row);
    ghost var a := T.Col(row);
    MergeStart(a, direction);
    hide *;
    var matIndex, matBound := T.cols[row], T.cols[row + 1];
    nonzero, prod := false, 0.0;
    var rhsIndex := 0;
    ghost var k, j := 0, 0;
    while matIndex < matBound && rhsIndex < |direction.indices|
      invariant T.cols[row] <= matIndex <= matBound && matIndex == T.cols[row] + k
      invariant 0 <= rhsIndex <= |direction.indices|
      invariant Merged(a, direction, k, rhsIndex, j, prod) && (!nonzero ==> prod == 0.0)
      decreases matBound - matIndex + |direction.indices| - rhsIndex
    {
      RowEntryAt(T, row, matIndex);
      var matCol, vecCol := T.rows[matIndex], direction.indices[rhsIndex];
      j := MergeStep(a, direction, k, rhsIndex, j, prod);
      if matCol < vecCol {
        matIndex, k := matIndex + 1, k + 1;
      } else if matCol > vecCol {
        rhsIndex := rhsIndex + 1;
      } else {
        nonzero := true;
        prod := prod + T.data[matIndex] * direction.data[rhsIndex];
        matIndex, rhsIndex, k := matIndex + 1, rhsIndex + 1, k + 1;
      }
    }
    MergeEnd(a, direction, k, rhsIndex, j, prod);
  }

  /** T holds the rows of A as its columns. */
  ghost predicate HoldsRows(T: Mat, A: Matrix)
  {
    && T.Valid() && IsMatrix(A, T.numCols, T.numRows)
    && forall r :: 0 <= r < T.numCols ==> T.Col(r).Dense() == A[r]
  }

  lemma RowFormHoldsRows(T: Mat, s: Sets, jac: Mat)
    requires IsRowForm(T, s, jac)
    ensures HoldsRows(T, WorkingMatrix(s, jac))
  {
  }

  lemma ProductIsMatVec(T: Mat, A: Matrix, x: Vector, y: Vector)
    requires HoldsRows(T, A) && |x| == T.numRows && |y| == T.numCols
    requires forall r :: 0 <= r < T.numCols ==> y[r] == Dot(T.Col(r).Dense(), x)
    ensures y == MatVec(A, x)
  {
    hide Dot, Mat.Valid;
    forall r | 0 <= r < T.numCols ensures y[r] == MatVec(A, x)[r] { assert T.Col(r).Dense() == A[r]; }
  }

  /** The product with the row form as a matrix of columns is the product with the transpose of A. */
  lemma ProductIsTransVec(T: Mat, A: Matrix, y: Vector)
    requires HoldsRows(T, A) && |y| == T.numCols
    ensures MatVec(T.Dense(), y) == TransVec(A, y, T.numRows)
  {
    forall j | 0 <= j < T.numRows ensures MatVec(T.Dense(), y)[j] == TransVec(A, y, T.numRows)[j] {
      TransVecEntry(A, y, T.numRows, j);
      TransposedColumn(T, A, j);
    }
  }

  lemma TransposedColumn(T: Mat, A: Matrix, j: nat)
    requires HoldsRows(T, A) && j < T.numRows
    ensures T.Dense()[j] == Column(A, j)
  {
    hide Vec.At, Mat.Valid;
    forall r | 0 <= r < T.numCols ensures T.Dense()[j][r] == A[r][j] {
      assert T.Col(r).Dense() == A[r];
    }
  }

  // ----- what a set iterate stores

  /** T is the row form that the in-place transposition leaves behind, and matrix the product made from it. */
  ghost predicate Assembled(T: Mat, matrix: Mat, s: Sets, jac: Mat, lower: bool)
  {
    && IsRowForm(T, s, jac) && AreOffsets(s, jac, T.cols)
    && |T.rows| == Offset(s, jac, s.Size(), |jac.rows|) && Filled(s, jac, |jac.rows|, T.rows, T.data)
    && IsGramOf(matrix, T, lower)
  }

  lemma {:induction false} OffsetOfContent(s: Sets, t: Sets, jac: Mat, r: nat)
    requires Fits(s, jac) && Fits(t, jac) && s.content == t.content && s.numActiveVars == t.numActiveVars
    requires r <= s.Size()
    ensures Offset(s, jac, r, |jac.rows|) == Offset(t, jac, r, |jac.rows|)
  {
    hide Mat.Valid;
    if r > 0 { OffsetOfContent(s, t, jac, r - 1); }
  }

  /** The stored system depends on the index maps of the working set only. */
  lemma AssembledOfIndices(T: Mat, matrix: Mat, s: Sets, t: Sets, jac: Mat, lower: bool)
    requires Assembled(T, matrix, s, jac, lower) && s.WellFormed() && t.WellFormed() && Fits(t, jac)
    requires s.varIndices == t.varIndices && s.consIndices == t.consIndices
    ensures Assembled(T, matrix, t, jac, lower) && s.content == t.content && s.numActiveVars == t.numActiveVars
  {
    SameIndicesSameContent(s, t);
    hide Sets.WellFormed, Mat.Valid, IsGramOf;
    OffsetsOfContent(T, s, t, jac);
    RowsOfContent(T, s, t, jac);
  }

  lemma OffsetsOfContent(T: Mat, s: Sets, t: Sets, jac: Mat)
    requires Fits(s, jac) && Fits(t, jac) && s.content == t.content && s.numActiveVars == t.numActiveVars
    requires AreOffsets(s, jac, T.cols) && Filled(s, jac, |jac.rows|, T.rows, T.data)
    ensures AreOffsets(t, jac, T.cols) && Filled(t, jac, |jac.rows|, T.rows, T.data)
    ensures Offset(s, jac, s.Size(), |jac.rows|) == Offset(t, jac, t.Size(), |jac.rows|)
  {
    hide Mat.Valid;
    forall r | 0 <= r <= s.Size() ensures Offset(s, jac, r, |jac.rows|) == Offset(t, jac, r, |jac.rows|) {
      OffsetOfContent(s, t, jac, r);
    }
    forall r | 0 <= r < t.Size() ensures RowFilled(t, jac, r, |jac.rows|, T.rows, T.data) {
      assert RowFilled(s, jac, r, |jac.rows|, T.rows, T.data);
    }
  }

  lemma RowsOfContent(T: Mat, s: Sets, t: Sets, jac: Mat)
    requires IsRowForm(T, s, jac) && Fits(t, jac) && s.content == t.content && s.numActiveVars == t.numActiveVars
    ensures IsRowForm(T, t, jac)
  {
    hide Mat.Valid;
    forall r | 0 <= r < t.Size() ensures T.Col(r).Dense() == WorkingRow(t, jac, r) {
      assert T.Col(r).Dense() == WorkingRow(s, jac, r);
    }
  }

  /** Building the system again from the same set and Jacobian gives the same row form and the same matrix. */
  lemma AssembledUnique(T: Mat, matrix: Mat, T': Mat, matrix': Mat, s: Sets, jac: Mat, lower: bool)
    requires Assembled(T, matrix, s, jac, lower) && Assembled(T', matrix', s, jac, lower)
    ensures T == T' && matrix == matrix'
  {
    assert T.cols == T'.cols by { hide Mat.Valid, Filled, IsGramOf, IsRowForm; }
    FilledUnique(s, jac, T, T');
    GramUnique(matrix, matrix', T, lower);
  }

  lemma FilledUnique(s: Sets, jac: Mat, T: Mat, T': Mat)
    requires IsRowForm(T, s, jac) && IsRowForm(T', s, jac) && T.cols == T'.cols && AreOffsets(s, jac, T.cols)
    requires Filled(s, jac, |jac.rows|, T.rows, T.data) && Filled(s, jac, |jac.rows|, T'.rows, T'.data)
    ensures T.rows == T'.rows && T.data == T'.data
  {
    assert |T.rows| == |T'.rows| == T.cols[s.Size()];
    forall k | 0 <= k < |T.rows| ensures T.rows[k] == T'.rows[k] && T.data[k] == T'.data[k] {
      var r := ColumnOf(T, k, T.numCols);
      assert RowFilled(s, jac, r, |jac.rows|, T.rows, T.data) && RowFilled(s, jac, r, |jac.rows|, T'.rows, T'.data);
      RowFilledUnique(s, jac, r, T.rows, T.data, T'.rows, T'.data, k - T.cols[r]);
      assert Agree(T.rows, T.data, T'.rows, T'.data, k);
    }
  }

  ghost predicate Agree(cols: seq<int>, vals: seq<real>, cols': seq<int>, vals': seq<real>, k: nat)
  {
    k < |cols| == |vals| && k < |cols'| == |vals'| && cols[k] == cols'[k] && vals[k] == vals'[k]
  }

  lemma RowFilledUnique(s: Sets, jac: Mat, r: nat, cols: seq<int>, vals: seq<real>, cols': seq<int>, vals': seq<real>,
                        p: nat)
    requires Fits(s, jac) && r < s.Size() && RowFilled(s, jac, r, |jac.rows|, cols, vals)
    requires RowFilled(s, jac, r, |jac.rows|, cols', vals') && p < RowCount(s, jac, r, |jac.rows|)
    ensures Agree(cols, vals, cols', vals', Offset(s, jac, r, |jac.rows|) + p)
  {
    hide *;
    var off, size := Offset(s, jac, r, |jac.rows|), RowCount(s, jac, r, |jac.rows|);
    RowFilledParts(s, jac, r, cols, vals, off, size);
    RowFilledParts(s, jac, r, cols', vals', off, size);
    if r >= s.numActiveVars {
      ListsUnique(jac, RowEntries(s, jac, r, |jac.rows|), cols[off..off + size], vals[off..off + size],
                  cols'[off..off + size], vals'[off..off + size], p);
    }
    SlicesAgree(cols, vals, cols', vals', off, size, p);
  }

  lemma RowFilledParts(s: Sets, jac: Mat, r: nat, cols: seq<int>, vals: seq<real>, off: nat, size: nat)
    requires Fits(s, jac) && r < s.Size() && RowFilled(s, jac, r, |jac.rows|, cols, vals)
    requires off == Offset(s, jac, r, |jac.rows|) && size == RowCount(s, jac, r, |jac.rows|)
    ensures r < |s.content| && jac.Framed() && off + size <= |cols| == |vals|
    ensures r < s.numActiveVars ==>
      size == 1 && cols[off..off + size] == [s.content[r]] && vals[off..off + size] == [1.0]
    ensures r >= s.numActiveVars ==>
      Lists(jac, RowEntries(s, jac, r, |jac.rows|), cols[off..off + size], vals[off..off + size])
  {
  }

  lemma SlicesAgree(cols: seq<int>, vals: seq<real>, cols': seq<int>, vals': seq<real>, off: nat, size: nat, p: nat)
    requires off + size <= |cols| == |vals| && off + size <= |cols'| == |vals'| && p < size
    requires cols[off..off + size][p] == cols'[off..off + size][p]
    requires vals[off..off + size][p] == vals'[off..off + size][p]
    ensures Agree(cols, vals, cols', vals', off + p)
  {
  }

  lemma ListsUnique(m: Mat, o: seq<nat>, index: seq<int>, value: seq<real>, index': seq<int>, value': seq<real>, p: nat)
    requires m.Framed() && Lists(m, o, index, value) && Lists(m, o, index', value') && p < |index| && p < |index'|
    ensures index[p] == index'[p] && value[p] == value'[p]
  {
    SameColumn(m, o[p], index[p], index'[p]);
  }

  lemma GramUnique(m: Mat, m': Mat, T: Mat, lower: bool)
    requires IsGramOf(m, T, lower) && IsGramOf(m', T, lower)
    ensures m == m'
  {
    SameColumnsSameMatrix(m, m');
  }

  /** A column-compressed matrix is determined by its columns. */
  lemma SameColumnsSameMatrix(m: Mat, m': Mat)
    requires m.Valid() && m'.Valid() && m.numRows == m'.numRows && m.numCols == m'.numCols
    requires forall c :: 0 <= c < m.numCols ==> m.Col(c) == m'.Col(c)
    ensures m == m'
  {
    SameOffsets(m, m', m.numCols);
    assert m.Framed() && m'.Framed() && m.cols == m'.cols;
    hide Mat.Valid, Mat.Col;
    forall k | 0 <= k < |m.rows| ensures m.rows[k] == m'.rows[k] && m.data[k] == m'.data[k] {
      var c := ColumnOf(m, k, m.numCols);
      RowEntryAt(m, c, k);
      RowEntryAt(m', c, k);
    }
  }

  lemma {:induction false} SameOffsets(m: Mat, m': Mat, c: nat)
    requires m.Valid() && m'.Valid() && m.numRows == m'.numRows && m.numCols == m'.numCols && c <= m.numCols
    requires forall j :: 0 <= j < m.numCols ==> m.Col(j) == m'.Col(j)
    ensures forall j :: 0 <= j <= c ==> m.cols[j] == m'.cols[j]
  {
    if c > 0 {
      SameOffsets(m, m', c - 1);
      RowBounds(m, c - 1);
      RowBounds(m', c - 1);
    }
  }
}
