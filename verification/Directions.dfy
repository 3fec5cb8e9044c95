/** Step directions with their linearised parts (src/main/direction.c) and the merit functions along them
    (src/main/merit.c). */
module Directions {
  import opened LinearAlgebra
  import opened SparseVec
  import opened SparseMat
  import opened Problems
  import opened Feasibility

  /** The values of an iterate that the step computations read. */
  datatype EvaluatedPoint = EvaluatedPoint(primal: Vec, objVal: real, objGrad: Vec, consVal: Vec, consJac: Mat)
  {
    ghost predicate Fits(problem: Problem)
    {
      && problem.Shaped()
      && primal.Valid() && primal.dim == problem.NumVars()
      && objGrad.Valid() && objGrad.dim == problem.NumVars()
      && consVal.Valid() && consVal.dim == problem.NumCons()
      && consJac.Valid() && consJac.numRows == problem.NumCons() && consJac.numCols == problem.NumVars()
    }
  }

  /** The dense view of a direction: the step, its objective slope, its constraint change and its Hessian product. */
  datatype Parts = Parts(primal: Vector, objGrad: real, consJac: Vector, hess: Vector)

  ghost predicate SameShape(a: Parts, b: Parts)
  {
    |a.primal| == |b.primal| == |a.hess| == |b.hess| && |a.consJac| == |b.consJac|
  }

  ghost function Combine(f: real, a: Parts, g: real, b: Parts): (c: Parts)
    requires SameShape(a, b)
    ensures SameShape(a, c)
  {
    Parts(LinComb(f, a.primal, g, b.primal), f * a.objGrad + g * b.objGrad,
          LinComb(f, a.consJac, g, b.consJac), LinComb(f, a.hess, g, b.hess))
  }

  /** All parts are the images of the step under the gradient, the Jacobian and the Hessian. */
  ghost predicate Linearises(d: Parts, grad: Vector, jac: Matrix, hessian: Matrix)
  {
    && |grad| == |d.primal| && IsMatrix(jac, |jac|, |d.primal|) && IsMatrix(hessian, |d.primal|, |d.primal|)
    && d.objGrad == Dot(grad, d.primal)
    && d.consJac == MatVec(jac, d.primal)
    && d.hess == MatVec(hessian, d.primal)
  }

  ghost predicate IsSymmetric(H: Matrix)
  {
    IsMatrix(H, |H|, |H|) && forall i, j :: 0 <= i < |H| && 0 <= j < |H| ==> H[i][j] == H[j][i]
  }

  /** Linear combinations of linearised directions are linearised. */
  lemma CombineLinearises(f: real, a: Parts, g: real, b: Parts, grad: Vector, jac: Matrix, hessian: Matrix)
    requires SameShape(a, b) && Linearises(a, grad, jac, hessian) && Linearises(b, grad, jac, hessian)
    ensures Linearises(Combine(f, a, g, b), grad, jac, hessian)
  {
    DotLinear(f, a.primal, g, b.primal, grad);
    MatVecLinear(jac, f, a.primal, g, b.primal);
    MatVecLinear(hessian, f, a.primal, g, b.primal);
  }

  lemma SymmetricProduct(H: Matrix, x: Vector, y: Vector)
    requires IsSymmetric(H) && |x| == |y| == |H|
    ensures Dot(x, MatVec(H, y)) == Dot(y, MatVec(H, x))
  {
    forall j | 0 <= j < |H| ensures TransVec(H, x, |H|)[j] == MatVec(H, x)[j] {
      TransVecEntry(H, x, |H|, j);
      assert Column(H, j) == H[j];
    }
    assert TransVec(H, x, |H|) == MatVec(H, x);
    Adjoint(H, y, x);
    DotSymmetric(x, MatVec(H, y));
  }

  // ----- merit functions

  /** What the merit functions need to know about the current iterate. */
  datatype MeritModel = MeritModel(objVal: real, consVal: Vector, lower: Vector, upper: Vector, penalty: real)
  {
    ghost predicate Fits(d: Parts)
    {
      |consVal| == |lower| == |upper| == |d.consJac| && |d.primal| == |d.hess|
    }

    ghost function Exact(): real
      requires |consVal| == |lower| == |upper|
    {
      objVal + Times(penalty, Total(consVal, lower, upper))
    }

    ghost function Linear(d: Parts): real
      requires Fits(d)
    {
      objVal + d.objGrad + Times(penalty, Total(LinComb(1.0, consVal, 1.0, d.consJac), lower, upper))
    }

    ghost function Quadratic(d: Parts): real
      requires Fits(d)
    {
      Linear(d) + 0.5 * Dot(d.primal, d.hess)
    }
  }

  ghost function ModelOf(problem: Problem, iterate: EvaluatedPoint, penalty: real): (m: MeritModel)
    requires iterate.Fits(problem)
    ensures |m.consVal| == |m.lower| == |m.upper| == problem.NumCons()
  {
    MeritModel(iterate.objVal, iterate.consVal.Dense(), problem.consLb.Dense(), problem.consUb.Dense(), penalty)
  }

  class Direction {
    var primal: Vec
    var objGrad: real
    var consJac: Vec
    var hess: Vec

    ghost predicate Valid()
      reads this
    {
      primal.Valid() && consJac.Valid() && hess.Valid() && hess.dim == primal.dim
    }

    ghost function View(): (p: Parts)
      requires Valid()
      reads this
      ensures |p.primal| == |p.hess| == primal.dim && |p.consJac| == consJac.dim
    {
      Parts(primal.Dense(), objGrad, consJac.Dense(), hess.Dense())
    }

    /** sleqp_direction_create */
    constructor (numVars: nat, numCons: nat)
      ensures Valid() && primal.dim == numVars && consJac.dim == numCons
    {
      primal := Empty(numVars);
      objGrad := 0.0;
      consJac := Empty(numCons);
      hess := Empty(numVars);
    }

    /** sleqp_direction_reset: recomputes the three images of the step; hessian is the matrix behind the Hessian
        product callback for the given multipliers */
    method Reset(problem: Problem, iterate: EvaluatedPoint, hessian: Mat, cache: array<real>)
      requires Valid() && iterate.Fits(problem) && primal.dim == problem.NumVars()
      requires hessian.Valid() && hessian.numRows == hessian.numCols == problem.NumVars()
      requires problem.NumCons() <= cache.Length && problem.NumVars() <= cache.Length
      modifies this, cache
      ensures Valid() && primal == old(primal) && consJac.dim == problem.NumCons()
      ensures Linearises(View(), iterate.objGrad.Dense(), iterate.consJac.Dense(), hessian.Dense())
    {
      objGrad := DotProduct(primal, iterate.objGrad);
      DotSymmetric(primal.Dense(), iterate.objGrad.Dense());
      if problem.NumCons() > 0 {
        MultVec(iterate.consJac, primal, cache);
        consJac := SetFromRaw(cache, problem.NumCons());
      } else {
        consJac := Empty(problem.NumCons());
        assert consJac.Dense() == MatVec(iterate.consJac.Dense(), primal.Dense());
      }
      MultVec(hessian, primal, cache);
      hess := SetFromRaw(cache, problem.NumVars());
    }

    /** sleqp_direction_scale */
    method ScaleBy(factor: real)
      requires Valid()
      modifies this
      ensures Valid() && primal.dim == old(primal.dim) && consJac.dim == old(consJac.dim)
      ensures View() == Combine(factor, old(View()), 0.0, old(View()))
    {
      primal := SparseVec.ScaleBy(primal, factor);
      consJac := SparseVec.ScaleBy(consJac, factor);
      hess := SparseVec.ScaleBy(hess, factor);
      objGrad := objGrad * factor;
      ScaleIsLinComb(factor, old(primal.Dense()));
      ScaleIsLinComb(factor, old(consJac.Dense()));
      ScaleIsLinComb(factor, old(hess.Dense()));
    }

    /** sleqp_direction_set_zero */
    method SetZero()
      requires Valid()
      modifies this
      ensures Valid() && primal.dim == old(primal.dim) && consJac.dim == old(consJac.dim)
      ensures View() == Combine(0.0, old(View()), 0.0, old(View()))
    {
      primal := Empty(primal.dim);
      consJac := Empty(consJac.dim);
      hess := Empty(hess.dim);
      objGrad := 0.0;
      assert primal.Dense() == LinComb(0.0, old(primal.Dense()), 0.0, old(primal.Dense()));
      assert consJac.Dense() == LinComb(0.0, old(consJac.Dense()), 0.0, old(consJac.Dense()));
      assert hess.Dense() == LinComb(0.0, old(hess.Dense()), 0.0, old(hess.Dense()));
    }

    /** sleqp_direction_add_scaled, with this as the result */
    method AddScaled(first: Direction, second: Direction, f: real, g: real)
      requires first.Valid() && second.Valid() && this != first && this != second
      requires first.primal.dim == second.primal.dim && first.consJac.dim == second.consJac.dim
      modifies this
      ensures Valid() && View() == Combine(f, first.View(), g, second.View())
      ensures primal.dim == first.primal.dim && consJac.dim == first.consJac.dim
    {
      primal := SparseVec.AddScaled(first.primal, second.primal, f, g);
      consJac := SparseVec.AddScaled(first.consJac, second.consJac, f, g);
      hess := SparseVec.AddScaled(first.hess, second.hess, f, g);
      objGrad := f * first.objGrad + g * second.objGrad;
    }

    /** sleqp_direction_copy, with this as the target */
    method CopyFrom(source: Direction)
      requires source.Valid() && this != source
      modifies this
      ensures Valid() && View() == source.View()
      ensures primal.dim == source.primal.dim && consJac.dim == source.consJac.dim
    {
      primal := source.primal;
      consJac := source.consJac;
      hess := source.hess;
      objGrad := source.objGrad;
    }
  }

  lemma ScaleIsLinComb(a: real, x: Vector)
    ensures Scale(a, x) == LinComb(a, x, 0.0, x)
  {
  }

  /** sleqp_merit_linear */
  method MeritLinear(problem: Problem, iterate: EvaluatedPoint, direction: Direction, penalty: real)
    returns (value: real)
    requires iterate.Fits(problem) && direction.Valid() && direction.consJac.dim == problem.NumCons()
    ensures value == ModelOf(problem, iterate, penalty).Linear(direction.View())
  {
    value := iterate.objVal + direction.objGrad;
    var combined := Add(direction.consJac, iterate.consVal);
    var total := TotalViolation(problem, combined);
    value := value + penalty * total;
    assert LinComb(1.0, direction.consJac.Dense(), 1.0, iterate.consVal.Dense())
        == LinComb(1.0, iterate.consVal.Dense(), 1.0, direction.consJac.Dense());
  }

  /** sleqp_merit_quadratic */
  method MeritQuadratic(problem: Problem, iterate: EvaluatedPoint, direction: Direction, penalty: real)
    returns (value: real)
    requires iterate.Fits(problem) && direction.Valid() && direction.consJac.dim == problem.NumCons()
    ensures value == ModelOf(problem, iterate, penalty).Quadratic(direction.View())
  {
    var linear := MeritLinear(problem, iterate, direction, penalty);
    var bilinear := DotProduct(direction.primal, direction.hess);
    value := linear + 0.5 * bilinear;
  }
}
