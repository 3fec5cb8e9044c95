/** src/main/aug_jac/reduced_aug_jac.c: the augmented Jacobian that factors A_W*A_W^T. */
module ReducedAugJac {
  import opened LinearAlgebra
  import opened SparseVec
  import opened SparseMat
  import opened Problems
  import opened WorkingSets
  import opened WorkingMatrices
  import opened RowForm
  import opened RowKernels
  import opened GramMatrix
  import opened Factorisations
  import opened AugJacSpec

  class ReducedAugJac {
    const numVars: nat
    const numCons: nat
    const fact: Fact
    const cache: array<real>
    /** The last working set, kept only for problems with a constant Jacobian. */
    const workingSet: WorkingSet?

    var hasFactorization: bool
    var matrix: Mat
    var rhs: Vec
    var direction: Vec
    var numRows: int
    var numWorkingCons: int
    var numNnz: int
    var rowCounts: array<int>
    var rowOffsets: array<int>
    var colIndices: array<int>
    var values: array<real>

    /** What the stored system was built from. */
    ghost var builtSet: Sets
    ghost var builtJac: Mat

    ghost function Repr(): set<object>
      reads this`rowCounts, this`rowOffsets, this`colIndices, this`values
    {
      {this, fact, cache, rowCounts, rowOffsets, colIndices, values}
      + if workingSet == null then {} else workingSet.Repr()
    }

    ghost predicate Shaped()
      reads this`numRows, this`numWorkingCons, this`numNnz, this`rowCounts, this`rowOffsets, this`colIndices,
        this`values
    {
      && rowCounts != rowOffsets && rowCounts != colIndices && rowOffsets != colIndices && cache != values
      && cache.Length == numVars
      && (numRows >= 0 ==> rowCounts.Length == numRows + 1)
      && (numWorkingCons >= 0 ==> rowOffsets.Length == numWorkingCons)
      && (numNnz >= 0 ==> colIndices.Length == values.Length == numNnz)
      && (workingSet != null ==>
            && workingSet.Shaped() && workingSet.varStates.Length == numVars && workingSet.consStates.Length == numCons
            && Apart(workingSet))
    }

    /** The index arrays of a working set are not among the arrays of this object. */
    ghost predicate Apart(other: WorkingSet)
      reads this`rowCounts, this`rowOffsets, this`colIndices
    {
      && other.varIndices != rowCounts && other.consIndices != rowCounts && other.content != rowCounts
      && other.varIndices != rowOffsets && other.consIndices != rowOffsets && other.content != rowOffsets
      && other.varIndices != colIndices && other.consIndices != colIndices && other.content != colIndices
    }

    /** The rows of the working-set matrix, as the arrays hold them. */
    ghost function Rows(): Mat
      requires numRows >= 0
      reads this`numRows, this`rowCounts, this`colIndices, this`values, rowCounts, colIndices, values
    {
      Mat(numVars, numRows, rowCounts[..], colIndices[..], values[..])
    }

    /** The arrays and the factored matrix are those of the given working set and Jacobian. */
    ghost predicate Holds(s: Sets, jac: Mat)
      reads this`numRows, this`numWorkingCons, this`numNnz, this`rowCounts, this`colIndices, this`values, this`matrix
      reads rowCounts, colIndices, values, fact`matrix
    {
      && s.WellFormed() && s.NumVars() == numVars && s.NumCons() == numCons
      && numRows == s.Size() && numWorkingCons == s.Size() - s.numActiveVars && numNnz == |Rows().rows|
      && Assembled(Rows(), matrix, s, jac, fact.lower) && fact.matrix == matrix
    }

    /** The invariant of every run: the stored system is the one of the last working set and Jacobian, and for
        problems with a constant Jacobian the cached set has the index maps it was built from. */
    ghost predicate Valid()
      reads this, Repr()
    {
      && Shaped()
      && (hasFactorization ==> Holds(builtSet, builtJac))
      && (hasFactorization && workingSet != null ==> workingSet.Valid() && workingSet.View() == builtSet)
    }

    /** aug_jac_data_create */
    constructor (numVars: nat, numCons: nat, fact: Fact, fixedJacobian: bool)
      ensures Valid() && !hasFactorization && this.fact == fact && this.numVars == numVars && this.numCons == numCons
      ensures (workingSet != null <==> fixedJacobian) && (workingSet != null ==> fresh(workingSet.Repr()))
      ensures fresh(cache) && fresh(rowCounts) && fresh(rowOffsets) && fresh(colIndices) && fresh(values)
    {
      this.numVars, this.numCons, this.fact := numVars, numCons, fact;
      hasFactorization := false;
      matrix := Mat(0, 0, [0], [], []);
      rhs, direction := Empty(0), Empty(numVars);
      cache := new real[numVars];
      var cached := NewCache(numVars, numCons, fixedJacobian);
      workingSet := cached;
      numRows, numWorkingCons, numNnz := NONE, NONE, NONE;
      rowCounts := new int[0];
      rowOffsets := new int[0];
      colIndices := new int[0];
      values := new real[0];
    }

    /** reserve_rows */
    method ReserveRows(s: Sets)
      requires Shaped() && s.numActiveVars <= s.Size()
      modifies this`rowCounts, this`rowOffsets, this`numRows, this`numWorkingCons, this`rhs
      ensures Shaped() && numRows == s.Size() && numWorkingCons == s.Size() - s.numActiveVars
      ensures rowCounts == old(rowCounts) || fresh(rowCounts)
      ensures rowOffsets == old(rowOffsets) || fresh(rowOffsets)
    {
      var size := |s.content|;
      if numRows != size {
        rowCounts := new int[size + 1];
        rhs := Empty(size);
        numRows := size;
      }
      if numWorkingCons != size - s.numActiveVars {
        rowOffsets := new int[size - s.numActiveVars];
        numWorkingCons := size - s.numActiveVars;
      }
    }

    /** reserve_data */
    method ReserveData(nnz: nat)
      requires Shaped()
      modifies this`colIndices, this`values, this`numNnz
      ensures Shaped() && numNnz == nnz
      ensures colIndices == old(colIndices) || fresh(colIndices)
      ensures values == old(values) || fresh(values)
    {
      if numNnz != nnz {
        colIndices := new int[nnz];
        values := new real[nnz];
        numNnz := nnz;
      }
    }

    /** The arrays have the sizes and the offsets of the given working set and Jacobian. */
    ghost predicate Prepared(s: Sets, jac: Mat)
      reads this`numRows, this`numWorkingCons, this`numNnz, this`rowCounts, this`rowOffsets, this`colIndices,
        this`values
      reads rowCounts, rowOffsets
    {
      && Shaped() && AreOffsets(s, jac, rowCounts[..])
      && numRows == s.Size() && numWorkingCons == s.Size() - s.numActiveVars
      && numNnz == Offset(s, jac, s.Size(), |jac.rows|)
      && forall i :: 0 <= i < rowOffsets.Length ==> rowOffsets[i] == 0
    }

    method Prepare(s: Sets, jac: Mat)
      requires Shaped() && s.WellFormed() && Fits(s, jac) && s.numActiveVars <= s.Size()
      modifies this`rowCounts, this`rowOffsets, this`colIndices, this`values, this`numRows, this`numWorkingCons,
               this`numNnz, this`rhs, rowCounts, rowOffsets
      ensures Prepared(s, jac)
      ensures rowCounts == old(rowCounts) || fresh(rowCounts)
      ensures rowOffsets == old(rowOffsets) || fresh(rowOffsets)
      ensures colIndices == old(colIndices) || fresh(colIndices)
      ensures values == old(values) || fresh(values)
    {
      hide Sets.WellFormed, Fits, Counted, AreOffsets, Offset;
      ReserveRows(s);
      var nnz := ComputeRowCounts(s, jac, rowCounts);
      ReserveData(nnz);
      UpdateRowCounts(s, jac, rowCounts, rowOffsets);
    }

    /** The part of set_iterate that builds the system. */
    method Assemble(s: Sets, jac: Mat)
      requires Shaped() && s.WellFormed() && Fits(s, jac) && s.NumVars() == numVars && s.NumCons() == numCons
      modifies this`rowCounts, this`rowOffsets, this`colIndices, this`values, this`numRows, this`numWorkingCons,
               this`numNnz, this`rhs, this`matrix, rowCounts, rowOffsets, colIndices, values, fact`matrix
      ensures Shaped() && Holds(s, jac)
      ensures rowCounts == old(rowCounts) || fresh(rowCounts)
      ensures rowOffsets == old(rowOffsets) || fresh(rowOffsets)
      ensures colIndices == old(colIndices) || fresh(colIndices)
      ensures values == old(values) || fresh(values)
    {
      assert s.numActiveVars <= s.Size();
      hide Sets.WellFormed, Fits, AreOffsets, Filled, Assembled, IsGramOf, Offset, Holds;
      Prepare(s, jac);
      FillSystem(s, jac, rowCounts, rowOffsets, colIndices, values);
      var T := Mat(numVars, numRows, rowCounts[..], colIndices[..], values[..]);
      matrix := ComputeMatrix(T, s, jac, fact.lower);
      fact.SetMatrix(matrix);
      assert Holds(s, jac) by { HoldsFrom(s, jac, T); }
    }

    /** What set_iterate asks for. A problem whose Jacobian is constant presents the same Jacobian every time. */
    ghost predicate CanSet(jac: Mat, working: WorkingSet, s: Sets)
      reads this, Repr(), working, working.Repr()
    {
      && Valid() && working.Valid() && working.View() == s && Fits(s, jac)
      && s.NumVars() == numVars && s.NumCons() == numCons
      && Apart(working) && (workingSet != null ==> workingSet.Repr() !! working.Repr())
      && (workingSet != null && hasFactorization ==> jac == builtJac)
    }

    /** What set_iterate leaves behind. */
    ghost predicate IsSet(s: Sets, jac: Mat)
      reads this, Repr()
    {
      && Valid() && hasFactorization && Holds(s, jac) && builtJac == jac
      && builtSet.varIndices == s.varIndices && builtSet.consIndices == s.consIndices
    }

    /** set_iterate: nothing is rebuilt when the Jacobian is constant and the working set has the same index maps as
        before; what is stored afterwards is the system of the given working set and Jacobian in any case. */
    method SetIterate(jac: Mat, working: WorkingSet, ghost s: Sets)
      requires CanSet(jac, working, s)
      modifies this, rowCounts, rowOffsets, colIndices, values, fact`matrix,
               if workingSet == null then {} else workingSet.Repr()
      ensures IsSet(s, jac)
    {
      hide Sets.WellFormed, Fits, Holds, Assembled, IsSet, CanRebuild;
      var same := IsUnchanged(jac, working, s);
      if same { return; }
      if workingSet != null {
        CacheSet(jac, working, s);
      } else {
        CanRebuildUncached(jac, working, s);
      }
      Rebuild(jac, working.View());
    }

    /** Whether the stored system can be kept. */
    method IsUnchanged(ghost jac: Mat, working: WorkingSet, ghost s: Sets) returns (same: bool)
      requires CanSet(jac, working, s)
      ensures same ==> IsSet(s, jac)
    {
      if workingSet == null { return false; }
      hide Sets.WellFormed, Fits, Holds, Assembled, WorkingSet.View, WorkingSet.Valid, Valid, CanSet, IsSet;
      BeforeCaching(jac, working, s);
      same := working.Eq(workingSet);
      same := same && hasFactorization;
      if same { KeepSystem(jac, working, s); }
    }

    /** The working set is copied before the system is rebuilt. */
    method CacheSet(ghost jac: Mat, working: WorkingSet, ghost s: Sets)
      requires workingSet != null && CanSet(jac, working, s)
      modifies workingSet, workingSet.Repr()
      ensures CanRebuild(jac, s) && working.Valid() && working.View() == s
    {
      hide Sets.WellFormed, Fits, Holds, WorkingSet.View, WorkingSet.Valid, Valid, CanSet, CanRebuild;
      BeforeCaching(jac, working, s);
      workingSet.CopyFrom(working);
      assert CanRebuild(jac, s) by { AfterCaching(jac, s); }
    }

    lemma BeforeCaching(jac: Mat, working: WorkingSet, s: Sets)
      requires workingSet != null && CanSet(jac, working, s)
      ensures Shaped() && working.Valid() && working.View() == s && s.WellFormed() && Fits(s, jac)
      ensures s.NumVars() == numVars && s.NumCons() == numCons && working.Repr() !! workingSet.Repr()
      ensures workingSet.varStates.Length == working.varStates.Length
      ensures workingSet.consStates.Length == working.consStates.Length
    {
      hide Holds;
    }

    lemma AfterCaching(jac: Mat, s: Sets)
      requires Shaped() && s.WellFormed() && Fits(s, jac) && s.NumVars() == numVars && s.NumCons() == numCons
      requires workingSet != null && workingSet.Valid() && workingSet.View() == s
      ensures CanRebuild(jac, s)
    {
    }

    lemma CanRebuildUncached(jac: Mat, working: WorkingSet, s: Sets)
      requires workingSet == null && CanSet(jac, working, s)
      ensures CanRebuild(jac, s) && working.Valid() && working.View() == s
    {
    }

    ghost predicate CanRebuild(jac: Mat, s: Sets)
      reads this, Repr()
    {
      && Shaped() && s.WellFormed() && Fits(s, jac) && s.NumVars() == numVars && s.NumCons() == numCons
      && (workingSet != null ==> workingSet.Valid() && workingSet.View() == s)
    }

    method Rebuild(jac: Mat, s: Sets)
      requires CanRebuild(jac, s)
      modifies this, rowCounts, rowOffsets, colIndices, values, fact`matrix
      ensures IsSet(s, jac)
    {
      hide Sets.WellFormed, Fits, Holds, IsSet;
      Assemble(s, jac);
      hasFactorization := true;
      builtSet, builtJac := s, jac;
      AfterRebuilding(s, jac);
    }

    lemma AfterRebuilding(s: Sets, jac: Mat)
      requires Shaped() && Holds(s, jac) && hasFactorization && builtSet == s && builtJac == jac
      requires workingSet != null ==> workingSet.Valid() && workingSet.View() == s
      ensures IsSet(s, jac)
    {
      hide Holds;
    }

    lemma KeepSystem(jac: Mat, working: WorkingSet, s: Sets)
      requires CanSet(jac, working, s) && workingSet != null && hasFactorization
      requires workingSet.varIndices[..] == working.varIndices[..]
      requires workingSet.consIndices[..] == working.consIndices[..]
      ensures IsSet(s, jac)
    {
      HoldsForIndices(s);
    }

    lemma HoldsForIndices(s: Sets)
      requires Holds(builtSet, builtJac) && s.WellFormed() && Fits(s, builtJac)
      requires s.NumVars() == numVars && s.NumCons() == numCons
      requires builtSet.varIndices == s.varIndices && builtSet.consIndices == s.consIndices
      ensures Holds(s, builtJac)
    {
      hide Sets.WellFormed, Fits, Assembled;
      AssembledOfIndices(Rows(), matrix, builtSet, s, builtJac, fact.lower);
    }

    lemma HoldsFrom(s: Sets, jac: Mat, T: Mat)
      requires s.WellFormed() && s.NumVars() == numVars && s.NumCons() == numCons
      requires numRows == s.Size() && numWorkingCons == s.Size() - s.numActiveVars && T == Rows() && numNnz == |T.rows|
      requires Assembled(T, matrix, s, jac, fact.lower) && fact.matrix == matrix
      ensures Holds(s, jac)
    {
    }

    // ----- the three solves

    /** The stored system is the one of A, and the factorisation is exact. */
    ghost predicate CanSolve(A: Matrix)
      reads this`numRows, this`rowCounts, this`colIndices, this`values, this`matrix, rowCounts, colIndices, values
      reads fact`matrix
    {
      && numRows == |A| && cache.Length == numVars && cache != values && HoldsRows(Rows(), A) && fact.Exact()
      && fact.matrix.numRows == |A| && Meaning(fact.matrix, fact.lower) == Gram(A, numVars)
    }

    lemma SetCanSolve(s: Sets, jac: Mat)
      requires IsSet(s, jac) && fact.Exact()
      ensures Fits(s, jac) && CanSolve(WorkingMatrix(s, jac))
    {
      RowFormHoldsRows(Rows(), s, jac);
      GramMeaning(matrix, Rows(), fact.lower, WorkingMatrix(s, jac));
    }

    /** compute_trans_product: the loop is the one of sleqp_mat_mult_vec */
    method ComputeTransProduct(y: Vec, ghost A: Matrix)
      requires CanSolve(A) && y.Valid() && y.dim == |A|
      modifies cache
      ensures CanSolve(A) && cache[..] == TransVec(A, y.Dense(), numVars)
    {
      var T := Mat(numVars, numRows, rowCounts[..], colIndices[..], values[..]);
      assert T == Rows() && HoldsRows(T, A) && T.numCols == |A| && T.Valid();
      ProductIsTransVec(T, A, y.Dense());
      hide HoldsRows, Mat.Valid, Gram, Fact.Exact, TransVec;
      MultVec(T, y, cache);
      assert cache[..] == cache[..numVars];
    }

    lemma SystemShape(A: Matrix)
      requires CanSolve(A)
      ensures IsMatrix(A, |A|, numVars) && IsMatrix(Gram(A, numVars), |A|, |A|) && fact.Exact()
      ensures numRows == |A| == fact.matrix.numRows && Meaning(fact.matrix, fact.lower) == Gram(A, numVars)
      ensures cache.Length == numVars && cache != values
    {
    }

    /** The solution y of (A*A^T)*y = b, left in rhs. */
    method SolveSystem(b: Vec, ghost A: Matrix) returns (y: Vec)
      requires CanSolve(A) && b.Valid() && b.dim == |A|
      modifies fact`solution
      ensures CanSolve(A) && IsMatrix(A, |A|, numVars) && y.Valid() && y.dim == |A|
      ensures MatVec(Gram(A, numVars), y.Dense()) == b.Dense()
    {
      hide *;
      SystemShape(A);
      fact.Solve(b);
      y := fact.Solution(0, numRows);
      assert fact.solution[0..numRows] == fact.solution;
    }

    /** solve_min_norm */
    method SolveMinNorm(b: Vec, ghost A: Matrix) returns (sol: Vec)
      requires CanSolve(A) && b.Valid() && b.dim == |A|
      modifies this`rhs, fact`solution, cache
      ensures old(Valid()) ==> Valid()
      ensures CanSolve(A) && sol.Valid() && sol.dim == numVars && IsMatrix(A, |A|, numVars)
      ensures IsMinNorm(A, b.Dense(), sol.Dense())
    {
      hide *;
      SystemShape(A);
      rhs := SolveSystem(b, A);
      ComputeTransProduct(rhs, A);
      sol := SetFromRaw(cache, numVars);
      assert cache[..numVars] == cache[..];
      ReducedMinNorm(A, b.Dense(), rhs.Dense(), numVars);
      if old(Valid()) { SolveKeepsValid(); }
    }

    /** compute_product with the stored rows */
    method RowsTimes(r: Vec, ghost A: Matrix) returns (product: Vec)
      requires CanSolve(A) && r.Valid() && r.dim == numVars
      ensures product.Valid() && product.dim == |A| && IsMatrix(A, |A|, numVars)
      ensures product.Dense() == MatVec(A, r.Dense())
    {
      var T := Mat(numVars, numRows, rowCounts[..], colIndices[..], values[..]);
      assert T == Rows() && HoldsRows(T, A) && T.numCols == |A| && T.Valid();
      hide *;
      SystemShape(A);
      product := ComputeProduct(T, r);
      ProductIsMatVec(T, A, r.Dense(), product.Dense());
    }

    /** solve_lsq */
    method SolveLsq(r: Vec, ghost A: Matrix) returns (sol: Vec)
      requires CanSolve(A) && r.Valid() && r.dim == numVars
      modifies this`rhs, fact`solution
      ensures old(Valid()) ==> Valid()
      ensures CanSolve(A) && sol.Valid() && sol.dim == |A| && IsMatrix(A, |A|, numVars)
      ensures IsLeastSquares(A, r.Dense(), sol.Dense())
    {
      hide *;
      rhs := RowsTimes(r, A);
      sol := SolveSystem(rhs, A);
      ReducedProjection(A, r.Dense(), sol.Dense());
      if old(Valid()) { SolveKeepsValid(); }
    }

    /** project_nullspace */
    method ProjectNullspace(r: Vec, ghost A: Matrix) returns (sol: Vec)
      requires CanSolve(A) && r.Valid() && r.dim == numVars
      modifies this`rhs, this`direction, fact`solution, cache
      ensures old(Valid()) ==> Valid()
      ensures CanSolve(A) && sol.Valid() && sol.dim == numVars && IsMatrix(A, |A|, numVars)
      ensures IsNullProjection(A, r.Dense(), sol.Dense())
    {
      hide *;
      SystemShape(A);
      rhs := RowsTimes(r, A);
      rhs := SolveSystem(rhs, A);
      ghost var y := rhs.Dense();
      ComputeTransProduct(rhs, A);
      direction := SetFromRaw(cache, numVars);
      assert cache[..numVars] == cache[..];
      sol := AddScaled(r, direction, 1.0, -1.0);
      ReducedProjection(A, r.Dense(), y);
      SubIsLinComb(r.Dense(), direction.Dense());
      if old(Valid()) { SolveKeepsValid(); }
    }

    /** The solves touch nothing that the invariant of the cache speaks of. */
    twostate lemma SolveKeepsValid()
      requires old(Valid())
      requires unchanged(this`hasFactorization, this`builtSet, this`builtJac, this`numRows, this`numWorkingCons,
                         this`numNnz, this`matrix, this`rowCounts, this`rowOffsets, this`colIndices, this`values)
      requires unchanged(rowCounts, colIndices, values, fact`matrix)
      requires workingSet != null ==>
        unchanged(workingSet, workingSet.varStates, workingSet.consStates, workingSet.varIndices,
                  workingSet.consIndices, workingSet.content)
      ensures Valid()
    {
      hide Holds, WorkingSet.Valid, WorkingSet.View;
      assert old(Shaped()) && Shaped();
      if hasFactorization {
        assert old(Holds(builtSet, builtJac)) && Holds(builtSet, builtJac);
        if workingSet != null { assert old(workingSet.Valid()) && workingSet.Valid(); }
      }
    }
  }

  /** The cached working set, for problems with a constant Jacobian only. */
  method NewCache(numVars: nat, numCons: nat, fixedJacobian: bool) returns (cached: WorkingSet?)
    ensures cached != null <==> fixedJacobian
    ensures cached != null ==>
      && fresh(cached.Repr()) && cached.Shaped()
      && cached.varStates.Length == numVars && cached.consStates.Length == numCons
  {
    cached := null;
    if fixedJacobian { cached := new WorkingSet(numVars, numCons); }
  }

  lemma SubIsLinComb(x: Vector, y: Vector)
    requires |x| == |y|
    ensures Sub(x, y) == LinComb(1.0, x, -1.0, y)
  {
  }

  /** compute_matrix */
  method ComputeMatrix(T: Mat, s: Sets, ghost jac: Mat, lower: bool) returns (matrix: Mat)
    requires s.WellFormed() && Fits(s, jac) && T.numRows == s.NumVars() && T.numCols == s.Size()
    requires AreOffsets(s, jac, T.cols) && |T.rows| == |T.data| == Offset(s, jac, s.Size(), |jac.rows|)
    requires Filled(s, jac, |jac.rows|, T.rows, T.data)
    ensures Assembled(T, matrix, s, jac, lower)
  {
    FilledAssembles(T, s, jac);
    hide *;
    if lower {
      matrix := MatrixLower(T, s.numActiveVars);
    } else {
      matrix := MatrixGeneral(T);
    }
    AssembledFrom(T, matrix, s, jac, lower);
  }

  lemma FilledAssembles(T: Mat, s: Sets, jac: Mat)
    requires s.WellFormed() && Fits(s, jac) && T.numRows == s.NumVars() && T.numCols == s.Size()
    requires AreOffsets(s, jac, T.cols) && |T.rows| == |T.data| == Offset(s, jac, s.Size(), |jac.rows|)
    requires Filled(s, jac, |jac.rows|, T.rows, T.data)
    ensures IsRowForm(T, s, jac) && T.Valid() && s.numActiveVars <= T.numCols
    ensures forall r :: 0 <= r < s.numActiveVars ==> RowDot(T, r, r) == 1.0
  {
    FilledIsRowForm(s, jac, T);
    hide Filled, AreOffsets, Mat.Valid;
    forall r | 0 <= r < s.numActiveVars ensures RowDot(T, r, r) == 1.0 {
      assert T.Col(r).Dense() == WorkingRow(s, jac, r) == Unit(s.NumVars(), s.content[r]);
      UnitSquare(s.NumVars(), s.content[r]);
    }
  }

  lemma UnitSquare(n: nat, j: nat)
    requires j < n
    ensures Dot(Unit(n, j), Unit(n, j)) == 1.0
  {
    var u := Unit(n, j);
    DotToZero(u, u, j);
    DotToAdvance(u, u, j, j);
    DotToSkip(u, u, j + 1, n);
  }

  lemma AssembledFrom(T: Mat, matrix: Mat, s: Sets, jac: Mat, lower: bool)
    requires IsRowForm(T, s, jac) && AreOffsets(s, jac, T.cols)
    requires |T.rows| == Offset(s, jac, s.Size(), |jac.rows|)
    requires Filled(s, jac, |jac.rows|, T.rows, T.data) && IsGramOf(matrix, T, lower)
    ensures Assembled(T, matrix, s, jac, lower)
  {
  }
}
