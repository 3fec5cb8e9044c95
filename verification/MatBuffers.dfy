/** A sparse matrix as an object whose arrays are filled in place (src/main/sparse/mat.c). */
module MatBuffers {
  import opened LinearAlgebra
  import opened SparseVec
  import opened SparseMat
  import opened MatrixPush

  class MatBuffer {
    var numRows: nat
    var numCols: nat
    var nnz: nat
    var cols: array<int>
    var rows: array<int>
    var data: array<real>

    ghost predicate Shaped()
      reads this
    {
      cols != rows && numCols < cols.Length && nnz <= rows.Length == data.Length
    }

    function Value(): (m: Mat)
      requires Shaped()
      reads this, cols, rows, data
      ensures |m.cols| == m.numCols + 1
    {
      Mat(numRows, numCols, cols[..numCols + 1], rows[..nnz], data[..nnz])
    }

    constructor ()
      ensures Shaped() && fresh(cols) && fresh(rows) && fresh(data)
    {
      numRows, numCols, nnz := 0, 0, 0;
      cols := new int[1];
      rows := new int[0];
      data := new real[0];
    }

    /** sleqp_mat_reserve; the callers clear the matrix next, so entries are not carried over */
    method Reserve(count: nat)
      requires Shaped()
      modifies this`rows, this`data
      ensures Shaped() && rows.Length >= count
      ensures (rows == old(rows) && data == old(data)) || (fresh(rows) && fresh(data))
    {
      if rows.Length < count {
        rows := new int[count];
        data := new real[count];
      }
    }

    /** sleqp_mat_clear, then sleqp_mat_resize */
    method Restart(newRows: nat, newCols: nat)
      requires Shaped()
      modifies this`numRows, this`numCols, this`nnz, this`cols, cols
      ensures Shaped() && numRows == newRows && numCols == newCols && Value() == Cleared(newRows, newCols)
      ensures cols == old(cols) || fresh(cols)
    {
      nnz := 0;
      if cols.Length <= newCols { cols := new int[newCols + 1]; }
      numRows, numCols := newRows, newCols;
      ClearIndices(cols, newCols + 1);
    }

    static method ClearIndices(a: array<int>, n: nat)
      requires n <= a.Length
      modifies a
      ensures forall k :: 0 <= k < n ==> a[k] == 0
    {
      for c := 0 to n
        invariant forall k :: 0 <= k < c ==> a[k] == 0
      {
        a[c] := 0;
      }
    }

    /** sleqp_mat_push_col */
    method PushColumn(c: nat)
      requires Shaped() && c < numCols
      modifies cols
      ensures Value() == PushCol(old(Value()), c)
    {
      ghost var m := Value();
      cols[c + 1] := cols[c];
      assert Value().cols == m.cols[c + 1 := m.cols[c]];
    }

    /** sleqp_mat_push */
    method Push(row: int, col: nat, value: real)
      requires Shaped() && col < numCols && nnz < rows.Length
      modifies this`nnz, cols, rows, data
      ensures Shaped() && nnz == old(nnz) + 1 && Value() == PushEntry(old(Value()), row, col, value)
    {
      ghost var m := Value();
      data[nnz] := value;
      rows[nnz] := row;
      cols[col + 1] := cols[col + 1] + 1;
      nnz := nnz + 1;
      assert Value().cols == m.cols[col + 1 := m.cols[col + 1] + 1];
    }
  }
}
