/** src/main/problem_scaling.c: the problem in scaled variables, which passes every evaluation on to the user's
    functions. */
module ProblemScaling {
  import opened LinearAlgebra
  import opened SparseVec
  import opened SparseMat
  import opened Problems
  import opened Directions
  import opened Optimality
  import opened Scaling
  import opened KktTransport
  import opened ScaledOperators

  /** The user's callbacks. The first argument is the point that was set last. */
  datatype Func = Func(
    objVal: Vec -> real, objGrad: Vec -> Vec, consVal: Vec -> Vec, consJac: Vec -> Mat,
    hessProd: (Vec, Vec, Vec) -> Vec, lsqResiduals: Vec -> Vec,
    lsqForward: (Vec, Vec) -> Vec, lsqAdjoint: (Vec, Vec) -> Vec)

  datatype Shape = Shape(numVars: nat, numCons: nat, numResiduals: nat)

  ghost predicate Sized(v: Vec, n: nat)
  {
    v.Valid() && v.dim == n
  }

  /** At the point x the callbacks return vectors of the right sizes; hess and lsqJac are the matrices behind the
      products, where hess is the Hessian of the Lagrangian for given multipliers. */
  ghost predicate Evaluates(f: Func, x: Vec, d: Shape, hess: Vector -> Matrix, lsqJac: Matrix)
  {
    && Sized(f.objGrad(x), d.numVars) && Sized(f.consVal(x), d.numCons) && Sized(f.lsqResiduals(x), d.numResiduals)
    && f.consJac(x).Valid() && f.consJac(x).numRows == d.numCons && f.consJac(x).numCols == d.numVars
    && IsMatrix(lsqJac, d.numResiduals, d.numVars)
    && (forall y: Vector :: |y| == d.numCons ==> IsMatrix(hess(y), d.numVars, d.numVars))
    && (forall p, y :: Sized(p, d.numVars) && Sized(y, d.numCons) ==>
          Sized(f.hessProd(x, p, y), d.numVars) && f.hessProd(x, p, y).Dense() == MatVec(hess(y.Dense()), p.Dense()))
    && (forall p :: Sized(p, d.numVars) ==>
          Sized(f.lsqForward(x, p), d.numResiduals) && f.lsqForward(x, p).Dense() == MatVec(lsqJac, p.Dense()))
    && (forall q :: Sized(q, d.numResiduals) ==>
          Sized(f.lsqAdjoint(x, q), d.numVars)
          && f.lsqAdjoint(x, q).Dense() == TransVec(lsqJac, q.Dense(), d.numVars))
  }

  /** What the scaled function reports at a scaled point. */
  ghost predicate IsScaledEvaluation(w: Weights, f: Func, t: State)
    requires Scalable(w, t)
  {
    var x := Stretched(t.primal, Up(w.vars, 0));
    && Sized(f.objGrad(x), t.primal.dim) && Sized(f.consVal(x), t.consVal.dim)
    && f.consJac(x).Valid() && f.consJac(x).numRows == t.consVal.dim && f.consJac(x).numCols == t.primal.dim
    && t.objVal == Ldexp(f.objVal(x), -1 * w.obj)
    && t.objGrad == Stretched(f.objGrad(x), Up(w.vars, -1 * w.obj))
    && t.consVal == Stretched(f.consVal(x), Down(w.cons, 0))
    && t.consJac == StretchedMat(f.consJac(x), Down(w.cons, 0), Up(w.vars, 0))
  }

  ghost predicate IsEvaluation(f: Func, s: State)
  {
    && s.objVal == f.objVal(s.primal) && s.objGrad == f.objGrad(s.primal)
    && s.consVal == f.consVal(s.primal) && s.consJac == f.consJac(s.primal)
  }

  /** Evaluating and scaling commute: the scaled form of an evaluated iterate is what the scaled function reports at
      the scaled point, and every iterate evaluated in the scaled space unscales to an evaluated one. */
  lemma EvaluationCommutes(w: Weights, f: Func, s: State)
    requires Scalable(w, s)
    ensures Scalable(w, Scaled(w, s, false)) && Scalable(w, Unscaled(w, s, false))
    ensures IsEvaluation(f, s) ==> IsScaledEvaluation(w, f, Scaled(w, s, false))
    ensures IsScaledEvaluation(w, f, s) ==> IsEvaluation(f, Unscaled(w, s, false))
  {
    hide Ldexp, Stretched, StretchedMat, Up, Down;
    ScaleRoundTrip(w, s, false);
    if IsScaledEvaluation(w, f, s) {
      var x := Stretched(s.primal, Up(w.vars, 0));
      VecsBack(f.objGrad(x), w.vars, w.obj);
      VecsBack(f.consVal(x), w.cons, 0);
      ReverseJac(w, f.consJac(x));
      LdexpTwice(f.objVal(x), -1 * w.obj, w.obj);
      LdexpZero(f.objVal(x), 0);
    }
  }

  lemma ReverseJac(w: Weights, jac: Mat)
    requires jac.Valid() && |w.cons| == jac.numRows && |w.vars| == jac.numCols
    ensures StretchedMat(jac, Down(w.cons, 0), Up(w.vars, 0)).Valid()
    ensures StretchedMat(StretchedMat(jac, Down(w.cons, 0), Up(w.vars, 0)), Up(w.cons, 0), Down(w.vars, 0)) == jac
  {
    StretchedMatBack(jac, Down(w.cons, 0), Up(w.vars, 0), Up(w.cons, 0), Down(w.vars, 0));
  }

  /** The product of the scaled Hessian, taken at the unscaled multipliers, with a direction. */
  ghost predicate IsScaledHessProduct(w: Weights, hess: Vector -> Matrix, direction: Vec, consDuals: Vec, product: Vec)
    requires Sized(direction, |w.vars|) && Sized(consDuals, |w.cons|)
  {
    var H := hess(Stretch(consDuals.Dense(), Down(w.cons, w.obj)));
    && IsMatrix(H, |w.vars|, |w.vars|) && product.Valid()
    && product.Dense() == MatVec(ScaledHessian(w, H), direction.Dense())
  }

  lemma UserProduct(f: Func, x: Vec, d: Shape, hess: Vector -> Matrix, lsqJac: Matrix, p: Vec, y: Vec)
    requires Evaluates(f, x, d, hess, lsqJac) && Sized(p, d.numVars) && Sized(y, d.numCons)
    ensures Sized(f.hessProd(x, p, y), d.numVars) && IsMatrix(hess(y.Dense()), d.numVars, d.numVars)
    ensures f.hessProd(x, p, y).Dense() == MatVec(hess(y.Dense()), p.Dense())
  {
  }

  lemma HessProductScaled(
      w: Weights, hess: Vector -> Matrix, direction: Vec, consDuals: Vec, unscaled: Vec, product: Vec)
    requires Sized(direction, |w.vars|) && Sized(consDuals, |w.cons|) && Sized(unscaled, |w.vars|)
    requires var p, y := Stretched(direction, Up(w.vars, 0)), Stretched(consDuals, Down(w.cons, w.obj));
      IsMatrix(hess(y.Dense()), |w.vars|, |w.vars|) && unscaled.Dense() == MatVec(hess(y.Dense()), p.Dense())
    requires product == Stretched(unscaled, Up(w.vars, -1 * w.obj))
    ensures IsScaledHessProduct(w, hess, direction, consDuals, product)
  {
    hide Stretched, Stretch, Ldexp, Vec.Dense, MatVec;
    StretchedDense(direction, Up(w.vars, 0));
    StretchedDense(consDuals, Down(w.cons, w.obj));
    StretchedDense(unscaled, Up(w.vars, -1 * w.obj));
    StretchedProduct(hess(Stretch(consDuals.Dense(), Down(w.cons, w.obj))), direction.Dense(),
                     Up(w.vars, -1 * w.obj), Up(w.vars, 0));
  }

  class ScaledProblem {
    const problem: Problem
    const weights: Weights
    const func: Func
    const shape: Shape

    var point: Vec
    var scaledDirection: Vec
    var scaledConsDuals: Vec
    var scaledProblem: Problem

    ghost predicate Fitting()
    {
      && problem.Shaped() && problem.NumVars() == shape.numVars && problem.NumCons() == shape.numCons
      && |weights.vars| == shape.numVars && |weights.cons| == shape.numCons
    }

    ghost predicate Ready(hess: Vector -> Matrix, lsqJac: Matrix)
      reads this`point
    {
      Fitting() && Evaluates(func, point, shape, hess, lsqJac)
    }

    constructor (problem: Problem, weights: Weights, func: Func, shape: Shape)
      ensures this.problem == problem && this.weights == weights && this.func == func && this.shape == shape
    {
      this.problem, this.weights, this.func, this.shape := problem, weights, func, shape;
      point, scaledDirection, scaledConsDuals := Empty(shape.numVars), Empty(shape.numVars), Empty(shape.numCons);
      scaledProblem := problem;
    }

    /** sleqp_problem_scaling_flush without linear constraints */
    method Flush()
      requires Fitting()
      modifies this`scaledProblem
      ensures scaledProblem == KktTransport.ScaledProblem(weights, problem)
    {
      hide Stretched;
      var varsLb := ApplyScaling(problem.varsLb, weights.vars, 0);
      var varsUb := ApplyScaling(problem.varsUb, weights.vars, 0);
      var consLb := ApplyScaling(problem.consLb, weights.cons, 0);
      var consUb := ApplyScaling(problem.consUb, weights.cons, 0);
      scaledProblem := Problem(varsLb, varsUb, consLb, consUb);
    }

    /** scaled_func_set_value */
    method SetValue(scaledValue: Vec)
      requires Fitting() && Sized(scaledValue, shape.numVars)
      modifies this`point
      ensures point == Stretched(scaledValue, Up(weights.vars, 0))
    {
      point := ApplyUnscaling(scaledValue, weights.vars, 0);
    }

    /** scaled_func_obj_val, scaled_func_obj_grad, scaled_func_cons_val and scaled_func_cons_jac, at the point that
        belongs to a scaled value */
    method Evaluate(ghost s: State, ghost hess: Vector -> Matrix, ghost lsqJac: Matrix)
      returns (objVal: real, objGrad: Vec, consVal: Vec, consJac: Mat)
      requires Ready(hess, lsqJac) && Scalable(weights, s)
      requires s.primal.dim == shape.numVars && s.consVal.dim == shape.numCons
      requires point == Stretched(s.primal, Up(weights.vars, 0))
      ensures var t := s.(objVal := objVal, objGrad := objGrad, consVal := consVal, consJac := consJac);
        Scalable(weights, t) && IsScaledEvaluation(weights, func, t)
    {
      hide Stretched, StretchedMat, Ldexp;
      objVal := Ldexp(func.objVal(point), -1 * weights.obj);
      objGrad := ApplyUnscaling(func.objGrad(point), weights.vars, -1 * weights.obj);
      consVal := ApplyScaling(func.consVal(point), weights.cons, 0);
      consJac := ScaleConsJac(weights, func.consJac(point));
      StretchedMatValid(func.consJac(point), Down(weights.cons, 0), Up(weights.vars, 0));
    }

    /** scaled_func_hess_prod: the product with the scaled Hessian at the unscaled multipliers */
    method HessProd(direction: Vec, consDuals: Vec, ghost hess: Vector -> Matrix, ghost lsqJac: Matrix)
      returns (product: Vec)
      requires Ready(hess, lsqJac) && Sized(direction, shape.numVars) && Sized(consDuals, shape.numCons)
      modifies this`scaledDirection, this`scaledConsDuals
      ensures IsScaledHessProduct(weights, hess, direction, consDuals, product)
    {
      hide Stretched, Ldexp, Evaluates;
      scaledDirection := ApplyUnscaling(direction, weights.vars, 0);
      scaledConsDuals := ApplyScaling(consDuals, weights.cons, weights.obj);
      var unscaled := func.hessProd(point, scaledDirection, scaledConsDuals);
      UserProduct(func, point, shape, hess, lsqJac, scaledDirection, scaledConsDuals);
      product := ApplyUnscaling(unscaled, weights.vars, -1 * weights.obj);
      HessProductScaled(weights, hess, direction, consDuals, unscaled, product);
    }

    /** scaled_lsq_func_residuals */
    method LsqResiduals(ghost hess: Vector -> Matrix, ghost lsqJac: Matrix) returns (residuals: Vec)
      requires Ready(hess, lsqJac)
      ensures residuals.Valid() && residuals.dim == shape.numResiduals && func.lsqResiduals(point).Valid()
      ensures residuals.Dense()
           == Stretch(func.lsqResiduals(point).Dense(), Const(|func.lsqResiduals(point).Dense()|, -1 * weights.obj))
    {
      hide Stretched, Stretch, Ldexp;
      var unscaled := func.lsqResiduals(point);
      residuals := ApplyConstUnscaling(unscaled, weights.obj);
      StretchedDense(unscaled, Const(unscaled.dim, -1 * weights.obj));
    }

    /** scaled_lsq_func_jac_forward */
    method LsqForward(direction: Vec, ghost hess: Vector -> Matrix, ghost lsqJac: Matrix) returns (product: Vec)
      requires Ready(hess, lsqJac) && Sized(direction, shape.numVars)
      modifies this`scaledDirection
      ensures IsMatrix(lsqJac, |lsqJac|, |weights.vars|) && direction.dim == |weights.vars|
      ensures product.Valid() && product.Dense() == MatVec(ScaledResidualJac(weights, lsqJac), direction.Dense())
    {
      hide Stretched, Stretch, Ldexp, Vec.Dense, MatVec;
      var a, b := Const(|lsqJac|, -1 * weights.obj), Up(weights.vars, 0);
      scaledDirection := ApplyUnscaling(direction, weights.vars, 0);
      var unscaled := func.lsqForward(point, scaledDirection);
      product := ApplyConstUnscaling(unscaled, weights.obj);
      StretchedDense(direction, b);
      StretchedDense(unscaled, a);
      StretchedProduct(lsqJac, direction.Dense(), a, b);
    }

    /** scaled_lsq_func_jac_adjoint */
    method LsqAdjoint(direction: Vec, ghost hess: Vector -> Matrix, ghost lsqJac: Matrix) returns (product: Vec)
      requires Ready(hess, lsqJac) && Sized(direction, shape.numResiduals)
      modifies this`scaledDirection
      ensures IsMatrix(lsqJac, |lsqJac|, |weights.vars|) && direction.dim == |lsqJac|
      ensures product.Valid()
      ensures product.Dense() == TransVec(ScaledResidualJac(weights, lsqJac), direction.Dense(), |weights.vars|)
    {
      hide Stretched, Stretch, Ldexp, Vec.Dense, TransVec;
      ghost var a, b := Const(|lsqJac|, -1 * weights.obj), Up(weights.vars, 0);
      scaledDirection := ApplyConstUnscaling(direction, weights.obj);
      var unscaled := func.lsqAdjoint(point, scaledDirection);
      product := ApplyUnscaling(unscaled, weights.vars, 0);
      StretchedDense(direction, a);
      StretchedDense(unscaled, b);
      StretchedTransProduct(lsqJac, direction.Dense(), a, b);
    }

    /** The two least-squares products are adjoint to each other. */
    method LsqProductsAreAdjoint(d: Vec, y: Vec, ghost hess: Vector -> Matrix, ghost lsqJac: Matrix)
      returns (forward: Vec, adjoint: Vec)
      requires Ready(hess, lsqJac) && Sized(d, shape.numVars) && Sized(y, shape.numResiduals)
      modifies this`scaledDirection
      ensures forward.Valid() && adjoint.Valid() && forward.dim == y.dim && adjoint.dim == d.dim
      ensures Dot(forward.Dense(), y.Dense()) == Dot(d.Dense(), adjoint.Dense())
    {
      hide Stretched, Stretch, Ldexp, TransVec, MatVec, Vec.Dense;
      forward := LsqForward(d, hess, lsqJac);
      adjoint := LsqAdjoint(y, hess, lsqJac);
      Adjoint(ScaledResidualJac(weights, lsqJac), d.Dense(), y.Dense());
    }
  }
}
