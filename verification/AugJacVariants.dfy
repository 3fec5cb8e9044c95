/** The reduced and the standard augmented Jacobian side by side, set to one working set and one Jacobian. */
module AugJacVariants {
  import opened LinearAlgebra
  import opened SparseVec
  import opened SparseMat
  import opened WorkingSets
  import opened WorkingMatrices
  import opened AugJacSpec
  import opened Factorisations
  import opened ReducedAugJac
  import opened StandardAugJac

  /** Both were set to the working set and the Jacobian, and their factorisations are exact. */
  ghost predicate AreSet(reduced: ReducedAugJac, standard: StandardAugJac, s: Sets, jac: Mat)
    reads reduced, reduced.Repr(), standard, standard.augmentedMatrix, standard.fact, standard.CacheFootprint()
  {
    && reduced.IsSet(s, jac) && reduced.fact.Exact() && standard.IsSet(s, jac) && standard.fact.Exact()
    && reduced.fact != standard.fact && reduced.numVars == standard.numVars == s.NumVars()
  }

  lemma BothCanSolve(reduced: ReducedAugJac, standard: StandardAugJac, s: Sets, jac: Mat)
    requires AreSet(reduced, standard, s, jac)
    ensures Fits(s, jac) && |WorkingMatrix(s, jac)| == s.Size()
    ensures IsMatrix(WorkingMatrix(s, jac), s.Size(), s.NumVars())
    ensures reduced.CanSolve(WorkingMatrix(s, jac)) && standard.CanSolve(WorkingMatrix(s, jac))
    ensures reduced.Valid() && standard.Valid() && reduced.fact != standard.fact
    ensures reduced.numVars == standard.numVars == s.NumVars()
  {
    reduced.SetCanSolve(s, jac);
    standard.SetCanSolve(s, jac);
  }

  /** Both variants return the same least-norm vector, leave the right-hand side as it was, and can be set again. */
  method SolveBothMinNorm(reduced: ReducedAugJac, standard: StandardAugJac, rhs: VecCell, ghost s: Sets, ghost jac: Mat)
    returns (x: Vec, y: Vec)
    requires AreSet(reduced, standard, s, jac) && rhs.vec.Valid() && rhs.vec.dim == s.Size()
    modifies reduced`rhs, reduced.fact`solution, reduced.cache, rhs, standard.fact`solution
    ensures x.Valid() && y.Valid() && x.Dense() == y.Dense() && rhs.vec == old(rhs.vec)
    ensures reduced.Valid() && standard.Valid()
  {
    hide ReducedAugJac.Valid, ReducedAugJac.CanSolve, StandardAugJac.Valid, StandardAugJac.CanSolve, AreSet, Fits,
         WorkingMatrix, IsMinNorm, IsNullProjection, Vec.Valid, Vec.At, Vec.Dense, Sets.Size, Sets.NumVars,
         ReducedAugJac.IsSet, StandardAugJac.IsSet, Fact.Exact, IsMatrix;
    BothCanSolve(reduced, standard, s, jac);
    ghost var A, b := WorkingMatrix(s, jac), rhs.vec.Dense();
    label Before:
    x := reduced.SolveMinNorm(rhs.vec, A);
    standard.SolveKeepsValid@Before();
    label Between:
    y := standard.SolveMinNorm(rhs, A);
    reduced.SolveKeepsValid@Between();
    MinNormUnique(A, b, x.Dense(), y.Dense());
  }

  /** Both variants return the same projection onto the null space of A_W. */
  method ProjectBoth(reduced: ReducedAugJac, standard: StandardAugJac, rhs: VecCell, ghost s: Sets, ghost jac: Mat)
    returns (x: Vec, y: Vec)
    requires AreSet(reduced, standard, s, jac) && rhs.vec.Valid() && rhs.vec.dim == s.NumVars()
    modifies reduced`rhs, reduced`direction, reduced.fact`solution, reduced.cache, rhs, standard.fact`solution
    ensures x.Valid() && y.Valid() && x.Dense() == y.Dense() && rhs.vec == old(rhs.vec)
    ensures reduced.Valid() && standard.Valid()
  {
    hide ReducedAugJac.Valid, ReducedAugJac.CanSolve, StandardAugJac.Valid, StandardAugJac.CanSolve, AreSet, Fits,
         WorkingMatrix, IsMinNorm, IsNullProjection, Vec.Valid, Vec.At, Vec.Dense, Sets.Size, Sets.NumVars,
         ReducedAugJac.IsSet, StandardAugJac.IsSet, Fact.Exact, IsMatrix;
    BothCanSolve(reduced, standard, s, jac);
    ghost var A, r := WorkingMatrix(s, jac), rhs.vec.Dense();
    label Before:
    x := reduced.ProjectNullspace(rhs.vec, A);
    standard.SolveKeepsValid@Before();
    label Between:
    y := standard.ProjectNullspace(rhs, A);
    reduced.SolveKeepsValid@Between();
    ProjectionUnique(A, r, x.Dense(), y.Dense());
  }
}
