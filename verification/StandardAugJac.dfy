/** src/main/aug_jac/standard_aug_jac.c: the augmented Jacobian that factors [[I, A_W^T], [A_W, 0]]. */
module StandardAugJac {
  import opened LinearAlgebra
  import opened SparseVec
  import opened SparseMat
  import opened Problems
  import opened WorkingSets
  import opened WorkingMatrices
  import opened MatBuffers
  import opened AugMatrix
  import opened AugAssembly
  import opened Factorisations
  import opened AugJacSpec

  // ----- the right-hand sides, changed and restored in place

  predicate AllBelow(indices: seq<int>, bound: int)
  {
    forall k :: 0 <= k < |indices| ==> indices[k] < bound
  }

  /** A vector that several callers share. */
  class VecCell {
    var vec: Vec

    constructor (vec: Vec)
      ensures this.vec == vec
    {
      this.vec := vec;
    }

    /** Moves all entries by the given distance. */
    method ShiftIndices(distance: int)
      requires |vec.indices| == |vec.data|
      modifies this
      ensures vec.dim == old(vec.dim) && vec.data == old(vec.data) && |vec.indices| == |vec.data|
      ensures forall k :: 0 <= k < |vec.indices| ==> vec.indices[k] == old(vec.indices)[k] + distance
    {
      ghost var start := vec;
      for k := 0 to |vec.indices|
        invariant vec.dim == start.dim && vec.data == start.data && |vec.indices| == |start.indices|
        invariant forall l :: 0 <= l < k ==> vec.indices[l] == start.indices[l] + distance
        invariant forall l :: k <= l < |vec.indices| ==> vec.indices[l] == start.indices[l]
      {
        vec := vec.(indices := vec.indices[k := vec.indices[k] + distance]);
      }
    }

    /** sleqp_vec_resize: entries beyond the new dimension are dropped */
    method Resize(dim: nat)
      requires vec.Valid()
      modifies this
      ensures vec.Valid() && vec.dim == dim
      ensures old(vec.dim) <= dim || AllBelow(old(vec.indices), dim) ==> vec == old(vec).(dim := dim)
    {
      ghost var start := vec;
      var nnz := |vec.indices|;
      if dim < vec.dim {
        while nnz > 0 && vec.indices[nnz - 1] >= dim
          invariant 0 <= nnz <= |vec.indices| && vec == start
          invariant AllBelow(start.indices, dim) ==> nnz == |start.indices|
        {
          nnz := nnz - 1;
        }
      }
      vec := Vec(dim, vec.indices[..nnz], vec.data[..nnz]);
    }
  }

  lemma ShiftedDense(v: Vec, w: Vec, n: nat)
    requires v.Valid() && w.dim == v.dim + n && w.data == v.data && |w.indices| == |v.indices|
    requires forall k :: 0 <= k < |v.indices| ==> w.indices[k] == v.indices[k] + n
    ensures w.Valid() && w.Dense() == Zero(n) + v.Dense()
  {
    forall i | 0 <= i < w.dim ensures w.Dense()[i] == (Zero(n) + v.Dense())[i] {
      if k :| 0 <= k < |w.indices| && w.indices[k] == i {
        StoredAt(w, k);
        StoredAt(v, k);
      } else {
        AbsentAt(w, i);
        if i >= n { AbsentAt(v, i - n); }
      }
    }
  }

  lemma ExtendedDense(v: Vec, w: Vec, k: nat)
    requires v.Valid() && w == v.(dim := v.dim + k)
    ensures w.Valid() && w.Dense() == v.Dense() + Zero(k)
  {
    forall i | 0 <= i < w.dim ensures w.Dense()[i] == (v.Dense() + Zero(k))[i] {
      if i >= v.dim { AbsentAt(w, i); }
    }
  }

  // ----- what the solutions mean

  lemma MinNormOfSolution(A: Matrix, n: nat, b: Vector, z: Vector)
    requires IsMatrix(A, |A|, n) && |b| == |A| && |z| == n + |A|
    requires MatVec(KktMatrix(A, n), z) == Zero(n) + b
    ensures IsMinNorm(A, b, z[0..n])
  {
    var x, y := z[..n], z[n..];
    assert z == x + y && z[0..n] == x;
    KktMatrixVec(A, x, y);
    StandardMinNorm(A, b, x, y);
  }

  lemma ProjectionOfSolution(A: Matrix, n: nat, r: Vector, z: Vector)
    requires IsMatrix(A, |A|, n) && |r| == n && |z| == n + |A|
    requires MatVec(KktMatrix(A, n), z) == r + Zero(|A|)
    ensures IsNullProjection(A, r, z[0..n]) && IsLeastSquares(A, r, z[n..n + |A|])
  {
    var x, y := z[..n], z[n..];
    assert z == x + y && z[0..n] == x && z[n..n + |A|] == y;
    KktMatrixVec(A, x, y);
    StandardProjection(A, r, x, y);
  }

  // ----- the object

  class StandardAugJac {
    const numVars: nat
    const numCons: nat
    const fact: Fact
    const augmentedMatrix: MatBuffer
    const colIndices: array<int>
    /** The last working set, kept only for problems with a constant Jacobian. */
    const workingSet: WorkingSet?

    var hasFactorization: bool
    var workingSetSize: nat

    /** What the stored system was built from. */
    ghost var builtSet: Sets
    ghost var builtJac: Mat

    ghost predicate Shaped()
      reads augmentedMatrix
    {
      && augmentedMatrix.Shaped() && colIndices != augmentedMatrix.cols && colIndices != augmentedMatrix.rows
      && colIndices.Length == numVars + (numVars + numCons) + 1
      && (workingSet != null ==>
            && workingSet.Shaped() && workingSet.varStates.Length == numVars && workingSet.consStates.Length == numCons
            && Apart(workingSet))
    }

    /** The index arrays of a working set are not among the arrays of this object. */
    ghost predicate Apart(other: WorkingSet)
      reads augmentedMatrix
    {
      && other.varIndices != colIndices && other.consIndices != colIndices && other.content != colIndices
      && other.varIndices != augmentedMatrix.cols && other.consIndices != augmentedMatrix.cols
      && other.content != augmentedMatrix.cols
      && other.varIndices != augmentedMatrix.rows && other.consIndices != augmentedMatrix.rows
      && other.content != augmentedMatrix.rows
    }

    /** The factored matrix is the one of the given working set and Jacobian. */
    ghost predicate Holds(s: Sets, jac: Mat)
      reads this`workingSetSize, fact`matrix
    {
      && s.WellFormed() && s.NumVars() == numVars && s.NumCons() == numCons && workingSetSize == s.Size()
      && IsSystem(fact.matrix, fact.lower, s, jac)
    }

    /** The arrays behind this object. */
    ghost function Footprint(): set<object>
      reads augmentedMatrix
    {
      {augmentedMatrix, augmentedMatrix.cols, augmentedMatrix.rows, augmentedMatrix.data, colIndices}
    }

    ghost function CacheFootprint(): set<object>
    {
      if workingSet == null then {} else workingSet.Repr()
    }

    /** The invariant of every run. */
    ghost predicate Valid()
      reads this, augmentedMatrix, fact, CacheFootprint()
    {
      && Shaped()
      && (hasFactorization ==> Holds(builtSet, builtJac))
      && (hasFactorization && workingSet != null ==> workingSet.Valid() && workingSet.View() == builtSet)
    }

    /** aug_jac_data_create */
    constructor (numVars: nat, numCons: nat, fact: Fact, fixedJacobian: bool)
      ensures Valid() && !hasFactorization && this.fact == fact && this.numVars == numVars && this.numCons == numCons
      ensures (workingSet != null <==> fixedJacobian) && (workingSet != null ==> fresh(workingSet.Repr()))
      ensures fresh(augmentedMatrix) && fresh(colIndices)
    {
      this.numVars, this.numCons, this.fact := numVars, numCons, fact;
      hasFactorization := false;
      workingSetSize := 0;
      augmentedMatrix := new MatBuffer();
      colIndices := new int[numVars + (numVars + numCons) + 1];
      var cached: WorkingSet? := null;
      if fixedJacobian { cached := new WorkingSet(numVars, numCons); }
      workingSet := cached;
    }

    /** What set_iterate asks for. A problem whose Jacobian is constant presents the same Jacobian every time. */
    ghost predicate CanSet(jac: Mat, working: WorkingSet, s: Sets)
      reads this, augmentedMatrix, fact, CacheFootprint(), working, working.Repr()
    {
      && Valid() && working.Valid() && working.View() == s && Fits(s, jac) && s.OrderPreserving()
      && s.NumVars() == numVars && s.NumCons() == numCons
      && Apart(working) && CacheFootprint() !! working.Repr()
      && (workingSet != null && hasFactorization ==> jac == builtJac)
    }

    /** What set_iterate leaves behind. */
    ghost predicate IsSet(s: Sets, jac: Mat)
      reads this, augmentedMatrix, fact, CacheFootprint()
    {
      && Valid() && hasFactorization && Holds(s, jac) && builtJac == jac
      && builtSet.varIndices == s.varIndices && builtSet.consIndices == s.consIndices
    }

    /** set_iterate: nothing is rebuilt when the Jacobian is constant and the working set has the same index maps as
        before; what is factored afterwards is the matrix of the given working set and Jacobian in any case. */
    method SetIterate(jac: Mat, working: WorkingSet, ghost s: Sets)
      requires CanSet(jac, working, s)
      modifies this, Footprint(), fact`matrix, CacheFootprint()
      ensures IsSet(s, jac)
    {
      hide Sets.WellFormed, Sets.OrderPreserving, Fits, Holds, IsSet, CanRebuild;
      var same := IsUnchanged(jac, working, s);
      if same { return; }
      BeforeSetting(jac, working, s);
      if workingSet != null {
        CacheSet(jac, working, s);
      } else {
        Rebuildable(jac, s);
      }
      Rebuild(jac, working.View());
    }

    lemma BeforeSetting(jac: Mat, working: WorkingSet, s: Sets)
      requires CanSet(jac, working, s)
      ensures Shaped() && working.Valid() && working.View() == s && s.WellFormed() && Fits(s, jac)
      ensures s.NumVars() == numVars && s.NumCons() == numCons && s.OrderPreserving()
      ensures CacheFootprint() !! working.Repr()
      ensures workingSet != null ==> workingSet.varStates.Length == working.varStates.Length
      ensures workingSet != null ==> workingSet.consStates.Length == working.consStates.Length
    {
      hide Holds;
    }

    /** Whether the stored system can be kept. */
    method IsUnchanged(ghost jac: Mat, working: WorkingSet, ghost s: Sets) returns (same: bool)
      requires CanSet(jac, working, s)
      ensures same ==> IsSet(s, jac)
    {
      if workingSet == null { return false; }
      hide Sets.WellFormed, Sets.OrderPreserving, Fits, Holds, WorkingSet.View, WorkingSet.Valid, Valid, CanSet, IsSet;
      BeforeSetting(jac, working, s);
      same := working.Eq(workingSet);
      same := same && hasFactorization;
      if same { KeepSystem(jac, working, s); }
    }

    lemma KeepSystem(jac: Mat, working: WorkingSet, s: Sets)
      requires CanSet(jac, working, s) && workingSet != null && hasFactorization
      requires workingSet.varIndices[..] == working.varIndices[..]
      requires workingSet.consIndices[..] == working.consIndices[..]
      ensures IsSet(s, jac)
    {
      SystemForIndices(s);
    }

    lemma SystemForIndices(s: Sets)
      requires Holds(builtSet, builtJac) && s.WellFormed() && Fits(s, builtJac)
      requires s.NumVars() == numVars && s.NumCons() == numCons
      requires builtSet.varIndices == s.varIndices && builtSet.consIndices == s.consIndices
      ensures Holds(s, builtJac)
    {
      SameIndicesSameContent(builtSet, s);
      hide Sets.WellFormed, Fits, IsSystem;
      SystemOfIndices(fact.matrix, fact.lower, builtSet, s, builtJac);
    }

    /** The working set is copied before the system is rebuilt. */
    method CacheSet(ghost jac: Mat, working: WorkingSet, ghost s: Sets)
      requires workingSet != null && CanSet(jac, working, s)
      modifies workingSet, workingSet.Repr()
      ensures CanRebuild(jac, s) && working.Valid() && working.View() == s
    {
      hide Sets.WellFormed, Sets.OrderPreserving, Fits, Holds, WorkingSet.View, WorkingSet.Valid, Valid, CanSet,
           CanRebuild;
      BeforeSetting(jac, working, s);
      workingSet.CopyFrom(working);
      assert CanRebuild(jac, s) by { Rebuildable(jac, s); }
    }

    ghost predicate CanRebuild(jac: Mat, s: Sets)
      reads this, augmentedMatrix, CacheFootprint()
    {
      && Shaped() && s.WellFormed() && s.OrderPreserving() && Fits(s, jac)
      && s.NumVars() == numVars && s.NumCons() == numCons
      && (workingSet != null ==> workingSet.Valid() && workingSet.View() == s)
    }

    lemma Rebuildable(jac: Mat, s: Sets)
      requires Shaped() && s.WellFormed() && Fits(s, jac) && s.NumVars() == numVars && s.NumCons() == numCons
      requires s.OrderPreserving() && (workingSet != null ==> workingSet.Valid() && workingSet.View() == s)
      ensures CanRebuild(jac, s)
    {
    }

    method Rebuild(jac: Mat, s: Sets)
      requires CanRebuild(jac, s)
      modifies this, Footprint(), fact`matrix
      ensures IsSet(s, jac)
    {
      hide Sets.WellFormed, Sets.OrderPreserving, Fits, IsSystem, MatBuffer.Value, WorkingSet.View, WorkingSet.Valid,
           CanRebuild, IsSet;
      BeforeRebuilding(jac, s);
      FactorSystem(jac, s);
      hasFactorization := true;
      builtSet, builtJac := s, jac;
      assert IsSet(s, jac) by { AfterRebuilding(jac, s); }
    }

    method FactorSystem(jac: Mat, s: Sets)
      requires Shaped() && s.WellFormed() && s.OrderPreserving() && Fits(s, jac)
      requires s.NumVars() == numVars && s.NumCons() == numCons
      modifies this`workingSetSize, Footprint(), fact`matrix
      ensures Shaped() && workingSetSize == s.Size() && IsSystem(fact.matrix, fact.lower, s, jac)
    {
      SizeBound(s);
      hide Sets.WellFormed, Sets.OrderPreserving, Fits, IsSystem, MatBuffer.Value;
      workingSetSize := |s.content|;
      FillAugJac(augmentedMatrix, colIndices, s, jac, fact.lower);
      fact.SetMatrix(augmentedMatrix.Value());
    }

    lemma BeforeRebuilding(jac: Mat, s: Sets)
      requires CanRebuild(jac, s)
      ensures Shaped() && s.WellFormed() && s.OrderPreserving() && Fits(s, jac)
      ensures s.NumVars() == numVars && s.NumCons() == numCons
      ensures workingSet != null ==> workingSet.Valid() && workingSet.View() == s
    {
    }

    lemma AfterRebuilding(jac: Mat, s: Sets)
      requires Shaped() && s.WellFormed() && s.NumVars() == numVars && s.NumCons() == numCons
      requires workingSet != null ==> workingSet.Valid() && workingSet.View() == s
      requires workingSetSize == s.Size() && IsSystem(fact.matrix, fact.lower, s, jac)
      requires hasFactorization && builtSet == s && builtJac == jac
      ensures IsSet(s, jac)
    {
      hide IsSystem;
    }

    // ----- the three solves

    /** The factored system is the one of A, and the factorisation is exact. */
    ghost predicate CanSolve(A: Matrix)
      reads this`workingSetSize, fact`matrix
    {
      && IsMatrix(A, |A|, numVars) && workingSetSize == |A| && fact.Exact()
      && fact.matrix.numRows == numVars + |A| && Meaning(fact.matrix, fact.lower) == KktMatrix(A, numVars)
    }

    lemma SetCanSolve(s: Sets, jac: Mat)
      requires IsSet(s, jac) && fact.Exact()
      ensures Fits(s, jac) && CanSolve(WorkingMatrix(s, jac))
    {
      hide Sets.WellFormed, Mat.Valid, Fact.Exact;
    }

    /** solve_min_norm: the right-hand side is moved behind the variables and moved back */
    method SolveMinNorm(rhs: VecCell, ghost A: Matrix) returns (sol: Vec)
      requires CanSolve(A) && rhs.vec.Valid() && rhs.vec.dim == |A|
      modifies rhs, fact`solution
      ensures old(Valid()) ==> Valid()
      ensures rhs.vec == old(rhs.vec) && CanSolve(A) && sol.Valid() && sol.dim == numVars
      ensures IsMinNorm(A, old(rhs.vec.Dense()), sol.Dense())
    {
      ghost var b := rhs.vec;
      hide *;
      SystemShape(A);
      SolveShifted(rhs, A);
      sol := fact.Solution(0, numVars);
      MinNormOfSolution(A, numVars, b.Dense(), fact.solution);
      if old(Valid()) { SolveKeepsValid(); }
    }

    /** The solution of the system with right-hand side (0, b). */
    method SolveShifted(rhs: VecCell, ghost A: Matrix)
      requires CanSolve(A) && rhs.vec.Valid() && rhs.vec.dim == |A|
      modifies rhs, fact`solution
      ensures rhs.vec == old(rhs.vec) && CanSolve(A) && |fact.solution| == numVars + |A|
      ensures MatVec(KktMatrix(A, numVars), fact.solution) == Zero(numVars) + old(rhs.vec.Dense())
    {
      ghost var b := rhs.vec;
      assert |b.indices| == |b.data|;
      hide *;
      SystemShape(A);
      rhs.vec := rhs.vec.(dim := rhs.vec.dim + numVars);
      rhs.ShiftIndices(numVars);
      ShiftedDense(b, rhs.vec, numVars);
      fact.Solve(rhs.vec);
      rhs.vec := rhs.vec.(dim := rhs.vec.dim - numVars);
      var back: int := numVars;
      rhs.ShiftIndices(-back);
      assert rhs.vec == b;
    }

    /** The solution of the system with right-hand side (r, 0); the vector is enlarged and cut again. */
    method SolveExtended(rhs: VecCell, ghost A: Matrix)
      requires CanSolve(A) && rhs.vec.Valid() && rhs.vec.dim == numVars
      modifies rhs, fact`solution
      ensures rhs.vec == old(rhs.vec) && CanSolve(A) && |fact.solution| == numVars + |A|
      ensures MatVec(KktMatrix(A, numVars), fact.solution) == old(rhs.vec.Dense()) + Zero(|A|)
    {
      ghost var r := rhs.vec;
      assert AllBelow(r.indices, numVars);
      hide *;
      SystemShape(A);
      var totalSize := numVars + workingSetSize;
      rhs.Resize(totalSize);
      ExtendedDense(r, rhs.vec, |A|);
      fact.Solve(rhs.vec);
      rhs.Resize(numVars);
    }

    lemma SystemShape(A: Matrix)
      requires CanSolve(A)
      ensures IsMatrix(A, |A|, numVars) && IsMatrix(KktMatrix(A, numVars), numVars + |A|, numVars + |A|) && fact.Exact()
      ensures workingSetSize == |A| && fact.matrix.numRows == numVars + |A|
      ensures Meaning(fact.matrix, fact.lower) == KktMatrix(A, numVars)
    {
    }

    /** solve_lsq */
    method SolveLsq(rhs: VecCell, ghost A: Matrix) returns (sol: Vec)
      requires CanSolve(A) && rhs.vec.Valid() && rhs.vec.dim == numVars
      modifies rhs, fact`solution
      ensures old(Valid()) ==> Valid()
      ensures rhs.vec == old(rhs.vec) && CanSolve(A) && sol.Valid() && sol.dim == |A|
      ensures IsLeastSquares(A, old(rhs.vec.Dense()), sol.Dense())
    {
      hide *;
      SystemShape(A);
      ghost var r := rhs.vec.Dense();
      SolveExtended(rhs, A);
      ProjectionOfSolution(A, numVars, r, fact.solution);
      sol := fact.Solution(numVars, numVars + workingSetSize);
      if old(Valid()) { SolveKeepsValid(); }
    }

    /** project_nullspace */
    method ProjectNullspace(rhs: VecCell, ghost A: Matrix) returns (sol: Vec)
      requires CanSolve(A) && rhs.vec.Valid() && rhs.vec.dim == numVars
      modifies rhs, fact`solution
      ensures old(Valid()) ==> Valid()
      ensures rhs.vec == old(rhs.vec) && CanSolve(A) && sol.Valid() && sol.dim == numVars
      ensures IsNullProjection(A, old(rhs.vec.Dense()), sol.Dense())
    {
      hide *;
      SystemShape(A);
      ghost var r := rhs.vec.Dense();
      SolveExtended(rhs, A);
      ProjectionOfSolution(A, numVars, r, fact.solution);
      sol := fact.Solution(0, numVars);
      if old(Valid()) { SolveKeepsValid(); }
    }

    /** The solves touch nothing that the invariant of the cache speaks of. */
    twostate lemma SolveKeepsValid()
      requires old(Valid())
      requires unchanged(this, augmentedMatrix, fact`matrix)
      requires workingSet != null ==>
        unchanged(workingSet, workingSet.varStates, workingSet.consStates, workingSet.varIndices,
                  workingSet.consIndices, workingSet.content)
      ensures Valid()
    {
      hide Holds, WorkingSet.Valid, WorkingSet.View, IsSystem;
      assert old(Shaped()) && Shaped();
      if hasFactorization {
        assert old(Holds(builtSet, builtJac)) && Holds(builtSet, builtJac);
        if workingSet != null { assert old(workingSet.Valid()) && workingSet.Valid(); }
      }
    }
  }

  lemma SizeBound(s: Sets)
    requires s.WellFormed()
    ensures s.Size() <= s.NumVars() + s.NumCons()
  {
    CountBound(s.varStates, s.NumVars());
    CountBound(s.consStates, s.NumCons());
  }
}
