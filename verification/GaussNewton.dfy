/** src/main/gauss_newton.c: the linear least-squares operator behind a Gauss-Newton step. The residual Jacobian that
    the user's callbacks multiply with is the matrix lsqJac. */
module GaussNewton {
  import opened LinearAlgebra
  import opened SparseVec
  import opened SparseMat
  import opened Problems
  import opened Feasibility
  import opened AugJacSpec
  import opened AugMatrix
  import opened ReducedAugJac
  import opened RowRemoval

  // ----- the two operators

  /** [F; V] after the projection onto the null space of A. */
  ghost predicate IsForward(A: Matrix, F: Matrix, V: Matrix, d: Vector, p: Vector)
    requires IsMatrix(A, |A|, |d|) && IsMatrix(F, |F|, |d|) && IsMatrix(V, |V|, |d|)
  {
    exists x :: |x| == |d| && IsNullProjection(A, d, x) && p == MatVec(F, x) + MatVec(V, x)
  }

  /** The projection of F^T and V^T applied to the two parts of y. */
  ghost predicate IsAdjoint(A: Matrix, F: Matrix, V: Matrix, n: nat, y: Vector, q: Vector)
    requires IsMatrix(A, |A|, n) && IsMatrix(F, |F|, n) && IsMatrix(V, |V|, n) && |y| == |F| + |V| && |q| == n
  {
    IsNullProjection(A, LinComb(1.0, TransVec(F, y[..|F|], n), 1.0, TransVec(V, y[|F|..], n)), q)
  }

  /** The two products are adjoint to each other: <forward(d), y> == <d, adjoint(y)>. */
  lemma ForwardAdjoint(A: Matrix, F: Matrix, V: Matrix, d: Vector, p: Vector, y: Vector, q: Vector)
    requires IsMatrix(A, |A|, |d|) && IsMatrix(F, |F|, |d|) && IsMatrix(V, |V|, |d|)
    requires |p| == |y| == |F| + |V| && |q| == |d|
    requires IsForward(A, F, V, d, p) && IsAdjoint(A, F, V, |d|, y, q)
    ensures Dot(p, y) == Dot(d, q)
  {
    var x :| |x| == |d| && IsNullProjection(A, d, x) && p == MatVec(F, x) + MatVec(V, x);
    hide *;
    AdjointThrough(A, F, V, d, x, p, y, q);
  }

  lemma AdjointThrough(A: Matrix, F: Matrix, V: Matrix, d: Vector, x: Vector, p: Vector, y: Vector, q: Vector)
    requires IsMatrix(A, |A|, |d|) && IsMatrix(F, |F|, |d|) && IsMatrix(V, |V|, |d|)
    requires |p| == |y| == |F| + |V| && |q| == |d| == |x|
    requires IsNullProjection(A, d, x) && p == MatVec(F, x) + MatVec(V, x) && IsAdjoint(A, F, V, |d|, y, q)
    ensures Dot(p, y) == Dot(d, q)
  {
    hide *;
    var y1, y2, n := y[..|F|], y[|F|..], |d|;
    var g1, g2 := TransVec(F, y1, n), TransVec(V, y2, n);
    assert y == y1 + y2;
    DotConcat(MatVec(F, x), MatVec(V, x), y1, y2);
    Adjoint(F, x, y1);
    Adjoint(V, x, y2);
    DotLinear(1.0, g1, 1.0, g2, x);
    AddOnce(Dot(x, g1), Dot(x, g2));
    AdjointProjects(A, F, V, n, y, q, y1, y2);
    ProjectionSymmetric(A, d, x, LinComb(1.0, g1, 1.0, g2), q);
  }

  lemma AddOnce(a: real, b: real)
    ensures Times(1.0, a) + Times(1.0, b) == a + b
  {
  }

  lemma AdjointProjects(A: Matrix, F: Matrix, V: Matrix, n: nat, y: Vector, q: Vector, y1: Vector, y2: Vector)
    requires IsMatrix(A, |A|, n) && IsMatrix(F, |F|, n) && IsMatrix(V, |V|, n) && |y| == |F| + |V| && |q| == n
    requires IsAdjoint(A, F, V, n, y, q) && y1 == y[..|F|] && y2 == y[|F|..]
    ensures |LinComb(1.0, TransVec(F, y1, n), 1.0, TransVec(V, y2, n))| == n
    ensures IsNullProjection(A, LinComb(1.0, TransVec(F, y1, n), 1.0, TransVec(V, y2, n)), q)
  {
  }

  /** On the null space of A the forward operator is [F; V] itself, and it vanishes on the row space of A; every
      vector is the sum of two such. */
  lemma ForwardOnParts(A: Matrix, F: Matrix, V: Matrix, d: Vector, p: Vector, y: Vector)
    requires IsMatrix(A, |A|, |d|) && IsMatrix(F, |F|, |d|) && IsMatrix(V, |V|, |d|) && |y| == |A|
    requires IsForward(A, F, V, d, p)
    ensures MatVec(A, d) == Zero(|A|) ==> p == MatVec(F, d) + MatVec(V, d)
    ensures d == TransVec(A, y, |d|) ==> p == Zero(|F| + |V|)
  {
    var x :| |x| == |d| && IsNullProjection(A, d, x) && p == MatVec(F, x) + MatVec(V, x);
    hide *;
    if MatVec(A, d) == Zero(|A|) {
      NullVectorStays(A, d);
      ProjectionUnique(A, d, x, d);
    }
    if d == TransVec(A, y, |d|) {
      RowVectorVanishes(A, d, y);
      ProjectionUnique(A, d, x, Zero(|d|));
      NothingMapped(F, V, |d|);
    }
  }

  lemma NullVectorStays(A: Matrix, d: Vector)
    requires IsMatrix(A, |A|, |d|) && MatVec(A, d) == Zero(|A|)
    ensures IsNullProjection(A, d, d)
  {
    SubZero(d, d);
    forall z | |z| == |d| && MatVec(A, z) == Zero(|A|) ensures z == d || NormSq(Sub(d, d)) < NormSq(Sub(z, d)) {
      SubZero(d, z);
    }
  }

  lemma MapsZero(A: Matrix, n: nat)
    requires IsMatrix(A, |A|, n)
    ensures |Zero(n)| == n && MatVec(A, Zero(n)) == Zero(|A|)
  {
    forall i | 0 <= i < |A| ensures MatVec(A, Zero(n))[i] == 0.0 { DotZero(A[i]); DotSymmetric(A[i], Zero(n)); }
  }

  lemma RowVectorVanishes(A: Matrix, d: Vector, y: Vector)
    requires IsMatrix(A, |A|, |d|) && |y| == |A| && d == TransVec(A, y, |d|)
    ensures |Zero(|d|)| == |d| && IsNullProjection(A, d, Zero(|d|))
  {
    MapsZero(A, |d|);
    assert Zero(|d|) == Sub(d, TransVec(A, y, |d|));
    SplitIsProjection(A, d, Zero(|d|), y);
  }

  lemma NothingMapped(F: Matrix, V: Matrix, n: nat)
    requires IsMatrix(F, |F|, n) && IsMatrix(V, |V|, n)
    ensures |Zero(n)| == n && MatVec(F, Zero(n)) + MatVec(V, Zero(n)) == Zero(|F| + |V|)
  {
    MapsZero(F, n);
    MapsZero(V, n);
  }

  // ----- what the least-squares problem means

  /** The constraints behind a Gauss-Newton step: values and Jacobian at the iterate, bounds, the indices of the
      violated constraints, and the penalty. */
  datatype Constraints = Constraints(c: Vector, J: Matrix, l: Vector, u: Vector, violated: seq<int>, penalty: real)
  {
    ghost predicate Fits(n: nat)
    {
      && IsMatrix(J, |J|, n) && |c| == |l| == |u| == |J|
      && forall p :: 0 <= p < |violated| ==> 0 <= violated[p] < |c|
    }

    /** The linearised value of constraint i after the step p. */
    ghost function ValueAt(p: Vector, i: nat): real
      requires Fits(|p|) && i < |c|
    {
      c[i] + Dot(J[i], p)
    }

    /** V holds the rows of the violated constraints times the penalty. */
    ghost predicate HoldsRows(V: Matrix, n: nat)
    {
      Fits(n) && |V| == |violated| && forall p :: 0 <= p < |V| ==> V[p] == Scale(penalty, J[violated[p]])
    }

    /** b holds the signed residuals after the step p0, none of which is zero, times minus the penalty. */
    ghost predicate HoldsRhs(b: Vector, p0: Vector)
    {
      && Fits(|p0|) && |b| == |violated|
      && forall p :: 0 <= p < |b| ==>
           var i := violated[p];
           var r := SignedResidual(ValueAt(p0, i), l[i], u[i]);
           r != 0.0 && b[p] == -1.0 * penalty * r
    }

    /** The penalty times the distance of the value after the step from the bound violated after p0. */
    ghost function Distance(p0: Vector, step: Vector, i: nat): real
      requires Fits(|p0|) && |step| == |p0| && i < |c|
    {
      Times(penalty, ValueAt(step, i) - (if ValueAt(p0, i) > u[i] then u[i] else l[i]))
    }

    ghost function Distances(p0: Vector, step: Vector): (z: Vector)
      requires Fits(|p0|) && |step| == |p0|
    {
      seq(|violated|, p requires 0 <= p < |violated| => Distance(p0, step, violated[p]))
    }
  }

  /** What the least-squares problem measures for a step x behind the initial step p0: the linearised residuals after
      both steps, and for every violated constraint its penalised distance from the violated bound. */
  lemma ResidualOfStep(F: Matrix, r: Vector, k: Constraints, V: Matrix, b: Vector, p0: Vector, x: Vector)
    requires IsMatrix(F, |F|, |p0|) && |x| == |p0| && |r| == |F|
    requires k.HoldsRows(V, |p0|) && k.HoldsRhs(b, p0)
    ensures var step := LinComb(1.0, p0, 1.0, x);
      && IsMatrix(V, |V|, |x|) && |V| == |b|
      && Sub(MatVec(F, x) + MatVec(V, x), LinComb(-1.0, r, -1.0, MatVec(F, p0)) + b)
         == LinComb(1.0, r, 1.0, MatVec(F, step)) + k.Distances(p0, step)
  {
    MatVecLinear(F, 1.0, p0, 1.0, x);
    var step := LinComb(1.0, p0, 1.0, x);
    hide Dot, Constraints.Distance, Constraints.HoldsRhs, SignedResidual, Times;
    forall p | 0 <= p < |V| ensures MatVec(V, x)[p] - b[p] == k.Distance(p0, step, k.violated[p]) {
      EntryOfStep(k, V, b, p0, x, p);
    }
    assert Sub(MatVec(V, x), b) == k.Distances(p0, step);
  }

  lemma EntryOfStep(k: Constraints, V: Matrix, b: Vector, p0: Vector, x: Vector, p: nat)
    requires |x| == |p0| && k.HoldsRows(V, |p0|) && k.HoldsRhs(b, p0) && p < |V|
    ensures |b| == |V| && |V[p]| == |x|
    ensures Dot(V[p], x) - b[p] == k.Distance(p0, LinComb(1.0, p0, 1.0, x), k.violated[p])
  {
    var i := k.violated[p];
    DotScale(k.penalty, k.J[i], x);
    DotLinear(1.0, p0, 1.0, x, k.J[i]);
    var d, c := Dot(k.J[i], x), k.ValueAt(p0, i);
    hide Dot;
    MeasuredDistance(k.penalty, c, d, k.l[i], k.u[i]);
  }

  lemma MeasuredDistance(penalty: real, c: real, d: real, l: real, u: real)
    requires SignedResidual(c, l, u) != 0.0
    ensures penalty * d - -1.0 * penalty * SignedResidual(c, l, u)
         == Times(penalty, c + d - (if c > u then u else l))
  {
    Distribute(penalty, SignedResidual(c, l, u), d);
  }

  // ----- the object

  class GaussNewtonSolver {
    const problem: Problem
    const lsqJac: Mat
    const jacobian: ReducedAugJac
    const removedCons: array<int>
    const denseCache: array<real>

    var numRemovedCons: nat
    var numViolatedCons: nat
    var adjointDim: nat
    var penaltyParameter: real
    var scaledViolatedConsJac: Mat
    var projectedDirection: Vec
    var scaledConsResiduals: Vec

    ghost predicate Shaped()
    {
      && problem.Shaped() && lsqJac.Valid() && lsqJac.numCols == problem.NumVars() == jacobian.numVars
      && removedCons.Length == problem.NumCons() && problem.NumCons() <= denseCache.Length
      && denseCache != jacobian.cache
    }

    /** The violated constraints are the indices of the multipliers; the array holds all others. */
    ghost predicate Removed(violated: seq<int>)
      reads this`numRemovedCons, this`numViolatedCons, this`adjointDim, removedCons
    {
      && Shaped() && numRemovedCons <= removedCons.Length
      && Complementary(violated, removedCons[..numRemovedCons], problem.NumCons())
      && numViolatedCons == |violated| && adjointDim == lsqJac.numRows + numViolatedCons
    }

    /** The stored matrix consists of the Jacobian rows of the violated constraints, times the penalty. */
    ghost predicate HoldsRows(violated: seq<int>, jac: Mat)
      reads this`penaltyParameter, this`scaledViolatedConsJac
    {
      && jac.Valid() && jac.numRows == problem.NumCons() && jac.numCols == problem.NumVars()
      && scaledViolatedConsJac.Valid() && scaledViolatedConsJac.numRows == |violated|
      && scaledViolatedConsJac.numCols == problem.NumVars()
      && forall p :: 0 <= p < |violated| ==>
           0 <= violated[p] < jac.numRows
           && scaledViolatedConsJac.Row(p) == Scale(penaltyParameter, jac.Row(violated[p]))
    }

    /** The stored residuals are those of the violated constraints outside the working set after the initial step, with
        the factor minus penalty. */
    ghost predicate HoldsRhs(violated: seq<int>, consVal: Vec, consJac: Mat, initialStep: Vec,
                             working: seq<ActiveState>)
      reads this`penaltyParameter, this`scaledConsResiduals
    {
      && problem.Shaped() && consVal.Valid() && consVal.dim == problem.NumCons() && |working| == problem.NumCons()
      && consJac.Valid() && consJac.numRows == problem.NumCons() && consJac.numCols == problem.NumVars()
      && initialStep.Valid() && initialStep.dim == problem.NumVars()
      && scaledConsResiduals.Valid() && scaledConsResiduals.dim == |violated|
      && forall p :: 0 <= p < |violated| ==>
           && 0 <= violated[p] < problem.NumCons()
           && var i := violated[p];
              var c := consVal.At(i) + MatVec(consJac.Dense(), initialStep.Dense())[i];
              scaledConsResiduals.At(p) == -1.0 * penaltyParameter
                * (if working[i] != Inactive then 0.0 else SignedResidual(c, problem.consLb.At(i),
                    problem.consUb.At(i)))
    }

    /** A violated constraint outside the working set, after the initial step. */
    ghost predicate IsViolated(i: int, consVal: Vec, consJac: Mat, initialStep: Vec, working: seq<ActiveState>)
      requires 0 <= i < problem.NumCons() == |working|
      requires problem.Shaped() && consVal.Valid() && consJac.Valid() && initialStep.Valid()
      requires consJac.numRows == problem.NumCons() && consJac.numCols == problem.NumVars() == initialStep.dim
    {
      var c := consVal.At(i) + MatVec(consJac.Dense(), initialStep.Dense())[i];
      working[i] == Inactive && SignedResidual(c, problem.consLb.At(i), problem.consUb.At(i)) != 0.0
    }

    constructor (problem: Problem, lsqJac: Mat, jacobian: ReducedAugJac)
      requires problem.Shaped() && lsqJac.Valid() && lsqJac.numCols == problem.NumVars() == jacobian.numVars
      ensures Shaped() && this.problem == problem && this.lsqJac == lsqJac && this.jacobian == jacobian
      ensures fresh(removedCons) && fresh(denseCache)
    {
      var m := problem.NumCons();
      this.problem, this.lsqJac, this.jacobian := problem, lsqJac, jacobian;
      removedCons := new int[m];
      denseCache := new real[m];
      numRemovedCons, numViolatedCons, adjointDim, penaltyParameter := 0, 0, 0, 0.0;
      scaledViolatedConsJac := Mat(0, problem.NumVars(), seq(problem.NumVars() + 1, c => 0), [], []);
      projectedDirection, scaledConsResiduals := Empty(problem.NumVars()), Empty(0);
    }

    /** compute_removed_cons and the dimensions that follow from it */
    method ComputeRemovedCons(violatedMultipliers: Vec)
      requires Shaped() && violatedMultipliers.Valid() && violatedMultipliers.dim == problem.NumCons()
      modifies this`numRemovedCons, this`numViolatedCons, this`adjointDim, removedCons
      ensures Removed(violatedMultipliers.indices)
    {
      hide Complementary, Problem.Shaped;
      numRemovedCons := FillRemoved(violatedMultipliers, removedCons);
      Sizes(violatedMultipliers.indices, removedCons[..numRemovedCons], removedCons.Length);
      numViolatedCons := removedCons.Length - numRemovedCons;
      adjointDim := lsqJac.numRows + numViolatedCons;
    }

    /** The loop of compute_removed_cons. */
    static method FillRemoved(multipliers: Vec, removed: array<int>) returns (count: nat)
      requires multipliers.Valid() && removed.Length == multipliers.dim
      modifies removed
      ensures count <= removed.Length && Complementary(multipliers.indices, removed[..count], removed.Length)
    {
      ghost var kept := multipliers.indices;
      count := 0;
      var k := 0;
      for i := 0 to removed.Length
        invariant multipliers.Cursor(k, i) && k + count == i
        invariant IsRemovedTo(kept, removed[..count], i)
      {
        ghost var before := removed[..count];
        if k < |multipliers.indices| && i == multipliers.indices[k] {
          assert i in kept;
          k := k + 1;
        } else {
          assert i !in kept;
          removed[count] := i;
          count := count + 1;
          assert removed[..count] == before + [i];
        }
      }
      RemovedIsComplement(multipliers, removed[..count]);
    }

    /** compute_cons_matrix */
    method ComputeConsMatrix(consJac: Mat, ghost violated: seq<int>)
      requires Removed(violated) && consJac.Valid()
      requires consJac.numRows == problem.NumCons() && consJac.numCols == problem.NumVars()
      modifies this`scaledViolatedConsJac
      ensures HoldsRows(violated, consJac)
    {
      hide Mat.Valid, Complementary, Scale, Mat.Row;
      var rows := RemoveRows(consJac, removedCons[..numRemovedCons], violated);
      scaledViolatedConsJac := ScaleMat(rows, penaltyParameter);
    }

    /** compute_cons_rhs: the weighted signed residuals of the violated constraints after the initial step */
    method ComputeConsRhs(consVal: Vec, consJac: Mat, initialStep: Vec, working: seq<ActiveState>,
                          ghost violated: seq<int>)
      requires Removed(violated) && problem.Valid() && consJac.Valid()
      requires consJac.numRows == problem.NumCons() && consJac.numCols == problem.NumVars()
      requires consVal.Valid() && consVal.dim == problem.NumCons() && |working| == problem.NumCons()
      requires initialStep.Valid() && initialStep.dim == problem.NumVars()
      modifies this`scaledConsResiduals, denseCache
      ensures HoldsRhs(violated, consVal, consJac, initialStep, working)
    {
      hide Vec.At, Vec.Valid, MatVec, Mat.Dense, Below, SignedResidual, Mat.Valid;
      MultVec(consJac, initialStep, denseCache);
      var product := SetFromRaw(denseCache, problem.NumCons());
      var linearConsVal := Add(consVal, product);
      var residuals := FeasibilityResiduals(problem, linearConsVal, Some(working), true);
      var thinned := RemoveEntries(residuals, removedCons[..numRemovedCons], violated);
      scaledConsResiduals := ScaleBy(thinned, -1.0 * penaltyParameter);
      ScaledResiduals(problem, consVal, product, linearConsVal, residuals, thinned, scaledConsResiduals, violated,
                      working, penaltyParameter);
    }

    /** The stored rows and the stored residuals are those of the violated constraints, so that the step solves the
        least-squares problem of ResidualOfStep. */
    lemma StoredConstraints(violated: seq<int>, consVal: Vec, consJac: Mat, p0: Vec, working: seq<ActiveState>,
                            k: Constraints)
      requires HoldsRows(violated, consJac) && HoldsRhs(violated, consVal, consJac, p0, working)
      requires forall p :: 0 <= p < |violated| ==> IsViolated(violated[p], consVal, consJac, p0, working)
      requires k == Constraints(consVal.Dense(), consJac.Dense(), problem.consLb.Dense(), problem.consUb.Dense(),
                                violated, penaltyParameter)
      ensures k.HoldsRows(scaledViolatedConsJac.Dense(), problem.NumVars())
      ensures k.HoldsRhs(scaledConsResiduals.Dense(), p0.Dense())
    {
      hide Vec.At, Dot, SignedResidual, Mat.Row;
      forall p | 0 <= p < |violated|
        ensures scaledViolatedConsJac.Dense()[p] == Scale(penaltyParameter, k.J[violated[p]])
        ensures var i := violated[p];
          var r := SignedResidual(k.ValueAt(p0.Dense(), i), k.l[i], k.u[i]);
          r != 0.0 && scaledConsResiduals.Dense()[p] == -1.0 * penaltyParameter * r
      {
        assert IsViolated(violated[p], consVal, consJac, p0, working);
      }
    }

    /** What the products need from set_iterate. */
    ghost predicate CanMultiply(A: Matrix)
      reads this`scaledViolatedConsJac, this`numViolatedCons, this`adjointDim
      reads jacobian, jacobian.rowCounts, jacobian.colIndices, jacobian.values, jacobian.fact
    {
      && Shaped() && jacobian.CanSolve(A) && denseCache != jacobian.values
      && scaledViolatedConsJac.Valid() && scaledViolatedConsJac.numRows == numViolatedCons
      && scaledViolatedConsJac.numCols == problem.NumVars() && numViolatedCons <= denseCache.Length
      && adjointDim == lsqJac.numRows + numViolatedCons
    }

    lemma MultiplyFacts(A: Matrix)
      requires CanMultiply(A)
      ensures jacobian.CanSolve(A)
      ensures problem.NumVars() == jacobian.numVars == lsqJac.numCols == scaledViolatedConsJac.numCols
      ensures lsqJac.Valid() && scaledViolatedConsJac.Valid() && scaledViolatedConsJac.numRows == numViolatedCons
      ensures numViolatedCons <= denseCache.Length && denseCache != jacobian.cache && denseCache != jacobian.values
      ensures adjointDim == lsqJac.numRows + numViolatedCons && IsMatrix(A, |A|, lsqJac.numCols)
      ensures IsMatrix(lsqJac.Dense(), lsqJac.numRows, lsqJac.numCols)
      ensures IsMatrix(scaledViolatedConsJac.Dense(), numViolatedCons, lsqJac.numCols)
    {
    }

    /** forward_product */
    method ForwardProduct(direction: Vec, ghost A: Matrix) returns (product: Vec)
      requires CanMultiply(A) && direction.Valid() && direction.dim == problem.NumVars()
      modifies this`projectedDirection, denseCache, jacobian`rhs, jacobian`direction, jacobian.fact`solution,
        jacobian.cache
      ensures product.Valid() && product.dim == adjointDim
      ensures IsForwardProduct(A, direction.Dense(), product.Dense())
    {
      hide *;
      MultiplyFacts(A);
      projectedDirection := jacobian.ProjectNullspace(direction, A);
      var values := new real[lsqJac.numRows];
      MultVec(lsqJac, projectedDirection, values);
      var lsqProduct := SetFromRaw(values, lsqJac.numRows);
      MultVec(scaledViolatedConsJac, projectedDirection, denseCache);
      var consProduct := SetFromRaw(denseCache, numViolatedCons);
      product := Concat(lsqProduct, consProduct);
      ForwardFrom(A, lsqJac.Dense(), scaledViolatedConsJac.Dense(), direction.Dense(), projectedDirection.Dense(),
                  product.Dense());
      IsForwardFrom(A, direction.Dense(), product.Dense());
    }

    ghost predicate IsForwardProduct(A: Matrix, d: Vector, p: Vector)
      reads this`scaledViolatedConsJac
    {
      && lsqJac.Valid() && scaledViolatedConsJac.Valid()
      && IsMatrix(A, |A|, |d|) && lsqJac.numCols == scaledViolatedConsJac.numCols == |d|
      && IsForward(A, lsqJac.Dense(), scaledViolatedConsJac.Dense(), d, p)
    }

    ghost predicate IsAdjointProduct(A: Matrix, y: Vector, q: Vector)
      reads this`scaledViolatedConsJac
    {
      && lsqJac.Valid() && scaledViolatedConsJac.Valid()
      && IsMatrix(A, |A|, |q|) && lsqJac.numCols == scaledViolatedConsJac.numCols == |q|
      && |y| == lsqJac.numRows + scaledViolatedConsJac.numRows
      && IsAdjoint(A, lsqJac.Dense(), scaledViolatedConsJac.Dense(), |q|, y, q)
    }

    lemma IsForwardFrom(A: Matrix, d: Vector, p: Vector)
      requires lsqJac.Valid() && scaledViolatedConsJac.Valid() && IsMatrix(A, |A|, |d|)
      requires lsqJac.numCols == scaledViolatedConsJac.numCols == |d|
      requires IsForward(A, lsqJac.Dense(), scaledViolatedConsJac.Dense(), d, p)
      ensures IsForwardProduct(A, d, p)
    {
    }

    lemma IsAdjointFrom(A: Matrix, y: Vector, q: Vector)
      requires lsqJac.Valid() && scaledViolatedConsJac.Valid() && IsMatrix(A, |A|, |q|)
      requires lsqJac.numCols == scaledViolatedConsJac.numCols == |q|
      requires |y| == lsqJac.numRows + scaledViolatedConsJac.numRows
      requires IsAdjoint(A, lsqJac.Dense(), scaledViolatedConsJac.Dense(), |q|, y, q)
      ensures IsAdjointProduct(A, y, q)
    {
    }

    /** adjoint_product */
    method AdjointProduct(direction: Vec, ghost A: Matrix) returns (product: Vec)
      requires CanMultiply(A) && direction.Valid() && direction.dim == adjointDim
      modifies jacobian`rhs, jacobian`direction, jacobian.fact`solution, jacobian.cache
      ensures product.Valid() && product.dim == problem.NumVars()
      ensures IsAdjointProduct(A, direction.Dense(), product.Dense())
    {
      hide *;
      MultiplyFacts(A);
      var lsqDirection, consDirection := SplitAt(direction, lsqJac.numRows);
      var lsqProduct := MultVecTrans(lsqJac, lsqDirection);
      var consProduct := MultVecTrans(scaledViolatedConsJac, consDirection);
      var sum := Add(lsqProduct, consProduct);
      product := jacobian.ProjectNullspace(sum, A);
      AdjointFrom(A, lsqJac.Dense(), scaledViolatedConsJac.Dense(), product.dim, direction.Dense(),
                  lsqDirection.Dense(), consDirection.Dense(), sum.Dense(), product.Dense());
      IsAdjointFrom(A, direction.Dense(), product.Dense());
    }

    /** The two methods compute adjoint products. */
    lemma ProductsAreAdjoint(A: Matrix, d: Vector, p: Vector, y: Vector, q: Vector)
      requires IsForwardProduct(A, d, p) && IsAdjointProduct(A, y, q) && |p| == |y| && |q| == |d|
      ensures Dot(p, y) == Dot(d, q)
    {
      ForwardAdjoint(A, lsqJac.Dense(), scaledViolatedConsJac.Dense(), d, p, y, q);
    }
  }

  lemma ForwardFrom(A: Matrix, F: Matrix, V: Matrix, d: Vector, x: Vector, p: Vector)
    requires IsMatrix(A, |A|, |d|) && IsMatrix(F, |F|, |d|) && IsMatrix(V, |V|, |d|)
    requires |x| == |d| && IsNullProjection(A, d, x) && p == MatVec(F, x) + MatVec(V, x)
    ensures IsForward(A, F, V, d, p)
  {
  }

  lemma AdjointFrom(A: Matrix, F: Matrix, V: Matrix, n: nat, y: Vector, y1: Vector, y2: Vector, g: Vector, q: Vector)
    requires IsMatrix(A, |A|, n) && IsMatrix(F, |F|, n) && IsMatrix(V, |V|, n) && |y| == |F| + |V| && |q| == n
    requires y1 == y[..|F|] && y2 == y[|F|..] && g == LinComb(1.0, TransVec(F, y1, n), 1.0, TransVec(V, y2, n))
    requires IsNullProjection(A, g, q)
    ensures IsAdjoint(A, F, V, n, y, q)
  {
  }

  lemma ScaledResiduals(problem: Problem, consVal: Vec, product: Vec, linear: Vec, residuals: Vec, thinned: Vec,
                        scaled: Vec, violated: seq<int>, working: seq<ActiveState>, penalty: real)
    requires problem.Shaped() && consVal.Valid() && product.Valid() && linear.Valid() && residuals.Valid()
      && scaled.Valid()
    requires consVal.dim == product.dim == linear.dim == residuals.dim == |working| == problem.NumCons()
    requires linear.Dense() == LinComb(1.0, consVal.Dense(), 1.0, product.Dense())
    requires forall i :: 0 <= i < |working| ==>
      residuals.At(i) == if working[i] != Inactive then 0.0
                         else SignedResidual(linear.At(i), problem.consLb.At(i), problem.consUb.At(i))
    requires forall p :: 0 <= p < |violated| ==> 0 <= violated[p] < |working|
    requires IsThinned(residuals, thinned, violated) && scaled.Dense() == Scale(-1.0 * penalty, thinned.Dense())
    requires scaled.dim == thinned.dim
    ensures forall p :: 0 <= p < |violated| ==>
      var i := violated[p];
      scaled.At(p) == -1.0 * penalty
        * (if working[i] != Inactive then 0.0
           else SignedResidual(consVal.At(i) + product.Dense()[i], problem.consLb.At(i), problem.consUb.At(i)))
  {
    hide Vec.At, SignedResidual;
    forall p | 0 <= p < |violated|
      ensures linear.At(violated[p]) == consVal.At(violated[p]) + product.Dense()[violated[p]]
      ensures scaled.At(p) == -1.0 * penalty * thinned.At(p)
    {
      assert linear.Dense()[violated[p]] == linear.At(violated[p]);
      assert scaled.Dense()[p] == scaled.At(p) && thinned.Dense()[p] == thinned.At(p);
    }
  }

  /** All indices below i that are not kept have been listed in order. */
  ghost predicate IsRemovedTo(kept: seq<int>, removed: seq<int>, i: int)
  {
    && Ascending(removed)
    && (forall p :: 0 <= p < |removed| ==> 0 <= removed[p] < i && removed[p] !in kept)
    && (forall j :: 0 <= j < i && j !in kept ==> j in removed)
  }

  lemma RemovedIsComplement(v: Vec, removed: seq<int>)
    requires v.Valid() && IsRemovedTo(v.indices, removed, v.dim)
    ensures Complementary(v.indices, removed, v.dim)
  {
  }
}
