/** The factorisation interface of src/main/fact/fact.h. The solver behind it is a parameter; what is assumed of it
    is that it solves the symmetric system it was given. */
module Factorisations {
  import opened LinearAlgebra
  import opened SparseVec
  import opened SparseMat

  /** The symmetric matrix that is passed: all of it, or only its lower triangle. */
  ghost function Meaning(m: Mat, lower: bool): (M: Matrix)
    requires m.Valid() && m.numRows == m.numCols
    ensures IsMatrix(M, m.numRows, m.numRows)
  {
    if lower then
      seq(m.numRows, i requires 0 <= i < m.numRows =>
        seq(m.numRows, j requires 0 <= j < m.numRows => if j <= i then m.At(i, j) else m.At(j, i)))
    else m.Dense()
  }

  class Fact {
    const lower: bool
    const solver: (Mat, Vec) -> Vector
    var matrix: Mat
    var solution: Vector

    constructor (lower: bool, solver: (Mat, Vec) -> Vector)
      ensures this.lower == lower && this.solver == solver
    {
      this.lower, this.solver := lower, solver;
      matrix := Mat(0, 0, [0], [], []);
      solution := [];
    }

    /** The solver is exact for the matrix that was set; a singular matrix has no exact solver. */
    ghost predicate Exact()
      reads this`matrix
    {
      && matrix.Valid() && matrix.numRows == matrix.numCols
      && forall b: Vec {:trigger solver(matrix, b)} :: b.Valid() && b.dim == matrix.numRows ==>
           && |solver(matrix, b)| == matrix.numRows
           && MatVec(Meaning(matrix, lower), solver(matrix, b)) == b.Dense()
    }

    /** sleqp_fact_set_matrix */
    method SetMatrix(m: Mat)
      modifies this`matrix
      ensures matrix == m
    {
      matrix := m;
    }

    /** sleqp_fact_solve */
    method Solve(rhs: Vec)
      requires Exact() && rhs.Valid() && rhs.dim == matrix.numRows
      modifies this`solution
      ensures |solution| == matrix.numRows && MatVec(Meaning(matrix, lower), solution) == rhs.Dense()
    {
      solution := solver(matrix, rhs);
    }

    /** sleqp_fact_solution with zero_eps = 0: a section of the last solution */
    method Solution(begin: nat, end: nat) returns (result: Vec)
      requires begin <= end <= |solution|
      ensures result.Valid() && result.dim == end - begin && result.Dense() == solution[begin..end]
    {
      result := Empty(end - begin);
      for i := begin to end
        invariant result.Valid() && result.dim == end - begin
        invariant forall p :: 0 <= p < |result.indices| ==> result.indices[p] < i - begin
        invariant forall l :: 0 <= l < i - begin ==> result.At(l) == solution[begin + l]
        invariant forall l :: i - begin <= l ==> result.At(l) == 0.0
      {
        if solution[i] != 0.0 { result := SparseVec.Push(result, i - begin, solution[i]); }
      }
      assert result.Dense() == solution[begin..end];
    }
  }
}
