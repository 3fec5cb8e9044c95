/** The exact search of src/main/linesearch.c from two steps: the directions are built by resets, which is all the
    search asks for. */
module SearchRuns {
  import opened LinearAlgebra
  import opened SparseVec
  import opened SparseMat
  import opened Problems
  import opened Feasibility
  import opened Directions
  import opened ExactSearchTheory
  import opened SearchTails
  import opened LineSearch

  /** Directions that were reset at the iterate with one symmetric Hessian are what the exact search asks for. */
  lemma ResetDirectionsAreConsistent(search: LineSearch, cauchy: Direction, newton: Direction, hessian: Mat)
    requires search.Valid() && search.Fits(cauchy) && search.Fits(newton)
    requires hessian.Valid() && IsSymmetric(hessian.Dense())
    requires Linearises(cauchy.View(), search.iterate.objGrad.Dense(), search.iterate.consJac.Dense(), hessian.Dense())
    requires Linearises(newton.View(), search.iterate.objGrad.Dense(), search.iterate.consJac.Dense(), hessian.Dense())
    ensures Consistent(search.iterate.objGrad.Dense(), cauchy.View(), newton.View())
  {
    LinearisedAreConsistent(search.iterate.objGrad.Dense(), search.iterate.consJac.Dense(), hessian.Dense(),
                            cauchy.View(), newton.View());
  }

  ghost predicate IsStep(problem: Problem, step: Vec)
  {
    step.Valid() && step.dim == problem.NumVars()
  }

  ghost predicate IsHessian(problem: Problem, hessian: Mat)
  {
    hessian.Valid() && hessian.numRows == hessian.numCols == problem.NumVars() && IsSymmetric(hessian.Dense())
  }

  /** d is the linearised direction of the step. */
  ghost predicate IsDirectionOf(iterate: EvaluatedPoint, hessian: Mat, step: Vec, d: Parts)
  {
    && iterate.objGrad.Valid() && iterate.consJac.Valid() && hessian.Valid() && step.Valid()
    && d.primal == step.Dense() && Linearises(d, iterate.objGrad.Dense(), iterate.consJac.Dense(), hessian.Dense())
  }

  method DirectionOf(problem: Problem, iterate: EvaluatedPoint, hessian: Mat, step: Vec) returns (direction: Direction)
    requires iterate.Fits(problem) && IsStep(problem, step) && IsHessian(problem, hessian)
    ensures fresh(direction) && direction.Valid()
    ensures direction.primal.dim == problem.NumVars() && direction.consJac.dim == problem.NumCons()
    ensures IsDirectionOf(iterate, hessian, step, direction.View())
  {
    hide Linearises, IsSymmetric, Vec.At;
    direction := new Direction(problem.NumVars(), problem.NumCons());
    direction.primal := step;
    var cache := new real[problem.NumVars() + problem.NumCons()];
    direction.Reset(problem, iterate, hessian, cache);
  }

  /** The exact search between two steps: for every valid problem and iterate, all steps and every symmetric Hessian. */
  method SearchBetween(search: LineSearch, hessian: Mat, cauchyStep: Vec, newtonStep: Vec)
    returns (stepLength: real, trialMerit: real, ghost c: Parts, ghost n: Parts)
    requires search.Valid() && IsHessian(search.problem, hessian)
    requires IsStep(search.problem, cauchyStep) && IsStep(search.problem, newtonStep)
    modifies search, search.breakpoints
    ensures search.Valid() && search.problem == old(search.problem) && search.iterate == old(search.iterate)
    ensures IsDirectionOf(old(search.iterate), hessian, cauchyStep, c)
    ensures IsDirectionOf(old(search.iterate), hessian, newtonStep, n)
    ensures ExactOutcome(old(search.Model()), c, n, stepLength, trialMerit)
  {
    hide Linearises, IsSymmetric, Vec.At, ExactOutcome, Problem.Valid, Problem.Shaped, EvaluatedPoint.Fits;
    ghost var m := search.Model();
    assert search.iterate.Fits(search.problem);
    var cauchy := DirectionOf(search.problem, search.iterate, hessian, cauchyStep);
    var newton := DirectionOf(search.problem, search.iterate, hessian, newtonStep);
    var trial := new Direction(search.problem.NumVars(), search.problem.NumCons());
    c, n := cauchy.View(), newton.View();
    ResetDirectionsAreConsistent(search, cauchy, newton, hessian);
    stepLength, trialMerit := search.TrialStepExact(cauchy, newton, trial, m, c, n);
  }

  // ----- a problem on which the search is misled

  lemma OneStored(v: Vec, dim: nat, i: nat, x: real)
    requires i < dim && v == Vec(dim, [i], [x])
    ensures v.Valid() && |v.Dense()| == dim && v.Dense()[i] == x
    ensures forall j :: 0 <= j < dim && j != i ==> v.Dense()[j] == 0.0
  {
    StoredAt(v, 0);
    forall j | 0 <= j < dim && j != i ensures v.Dense()[j] == 0.0 { AbsentAt(v, j); }
  }

  lemma NoneStored(v: Vec, dim: nat)
    requires v == Vec(dim, [], [])
    ensures v.Valid() && v.Dense() == Zero(dim)
  {
    forall j | 0 <= j < dim ensures v.At(j) == 0.0 { AbsentAt(v, j); }
  }

  /** One variable, two constraints bounded above by zero; at the iterate the second is tight, and its Jacobian row is
      the only one that is not zero. */
  function TailProblem(): Problem
  {
    Problem(Vec(1, [0], [-10.0]), Vec(1, [0], [10.0]), Vec(2, [0, 1], [-10.0, -10.0]), Vec(2, [], []))
  }

  function TailIterate(): EvaluatedPoint
  {
    EvaluatedPoint(Vec(1, [], []), 0.0, Vec(1, [0], [-1.0]), Vec(2, [0], [-1.0]), Mat(2, 1, [0, 1], [1], [1.0]))
  }

  function ZeroHessian(): Mat { Mat(1, 1, [0, 0], [], []) }

  lemma PairStored(v: Vec, x: real, y: real)
    requires v == Vec(2, [0, 1], [x, y])
    ensures v.Valid() && v.Dense() == [x, y]
  {
    StoredAt(v, 0);
    StoredAt(v, 1);
  }

  lemma TailBounds()
    ensures TailProblem().Valid()
    ensures TailProblem().consLb.Dense() == [-10.0, -10.0] && TailProblem().consUb.Dense() == [0.0, 0.0]
  {
    var p := TailProblem();
    OneStored(p.varsLb, 1, 0, -10.0);
    OneStored(p.varsUb, 1, 0, 10.0);
    PairStored(p.consLb, -10.0, -10.0);
    NoneStored(p.consUb, 2);
    hide Vec.At, Vec.Valid;
    assert p.consUb.Dense() == [0.0, 0.0];
    OrderedFrom(p.varsLb, p.varsUb);
    OrderedFrom(p.consLb, p.consUb);
  }

  lemma OrderedFrom(l: Vec, u: Vec)
    requires l.Valid() && u.Valid() && l.dim == u.dim && forall i :: 0 <= i < l.dim ==> l.Dense()[i] <= u.Dense()[i]
    ensures forall i :: 0 <= i < l.dim ==> l.At(i) <= u.At(i)
  {
    hide Vec.At;
    forall i | 0 <= i < l.dim ensures l.At(i) <= u.At(i) { assert l.Dense()[i] <= u.Dense()[i]; }
  }

  lemma TailProblemFits()
    ensures TailProblem().Valid() && TailIterate().Fits(TailProblem())
    ensures TailIterate().consVal.Dense() == [-1.0, 0.0]
  {
    TailBounds();
    OneStored(TailIterate().consVal, 2, 0, -1.0);
    TailJacobian();
    hide Vec.At, Problem.Valid;
    assert TailProblem().Shaped();
  }

  /** A matrix with a single column. */
  lemma OneColumn(m: Mat, v: Vec)
    requires m.numCols == 1 && v.Valid() && v.dim == m.numRows
    requires m == Mat(m.numRows, 1, [0, |v.indices|], v.indices, v.data)
    ensures m.Valid() && m.Col(0) == v
    ensures forall i :: 0 <= i < m.numRows ==> m.Dense()[i] == [v.Dense()[i]]
  {
    assert m.Framed();
    assert m.Ascends(0);
    assert m.Col(0) == v;
    hide Vec.At;
    forall i | 0 <= i < m.numRows ensures m.Dense()[i] == [v.Dense()[i]] {
      assert m.At(i, 0) == v.Dense()[i];
    }
  }

  lemma TailJacobian()
    ensures TailIterate().consJac.Valid() && TailIterate().consJac.Dense() == [[0.0], [1.0]]
    ensures ZeroHessian().Valid() && ZeroHessian().Dense() == [[0.0]] && IsSymmetric(ZeroHessian().Dense())
    ensures TailIterate().objGrad.Valid() && TailIterate().objGrad.Dense() == [-1.0]
  {
    var j, h := Vec(2, [1], [1.0]), Vec(1, [], []);
    OneStored(j, 2, 1, 1.0);
    NoneStored(h, 1);
    OneColumn(TailIterate().consJac, j);
    OneColumn(ZeroHessian(), h);
    OneStored(TailIterate().objGrad, 1, 0, -1.0);
    hide Vec.At, Mat.At, Mat.Valid, Vec.Valid;
    var J, H := TailIterate().consJac.Dense(), ZeroHessian().Dense();
    assert J[0] == [0.0] && J[1] == [1.0] && H[0] == [0.0];
  }

  /** The directions of the steps 0 and 1 there are the two of the misleading input. */
  lemma TailDirection(step: Vec, d: Parts, x: real)
    requires IsDirectionOf(TailIterate(), ZeroHessian(), step, d) && step.Dense() == [x]
    ensures d == Parts([x], -x, [0.0, x], [0.0])
  {
    TailJacobian();
    DotOne([-1.0], d.primal);
    DotOne([0.0], d.primal);
    DotOne([1.0], d.primal);
  }

  lemma TailModel(m: MeritModel)
    requires TailIterate().Fits(TailProblem()) && m == ModelOf(TailProblem(), TailIterate(), 2.0)
    ensures m == MeritModel(0.0, [-1.0, 0.0], [-10.0, -10.0], [0.0, 0.0], 2.0)
  {
    TailBounds();
    TailProblemFits();
  }

  lemma TailSteps(hessian: Mat, zeroStep: Vec, unitStep: Vec)
    requires hessian == ZeroHessian() && zeroStep == Vec(1, [], []) && unitStep == Vec(1, [0], [1.0])
    ensures IsHessian(TailProblem(), hessian) && IsStep(TailProblem(), zeroStep) && IsStep(TailProblem(), unitStep)
    ensures zeroStep.Dense() == [0.0] && unitStep.Dense() == [1.0]
  {
    TailJacobian();
    NoneStored(zeroStep, 1);
    OneStored(unitStep, 1, 0, 1.0);
  }

  /** The full step is returned with the merit -1, although its merit is 1 and that of the Cauchy direction is 0. */
  ghost predicate IsMisled(m: MeritModel, c: Parts, n: Parts, stepLength: real, trialMerit: real)
  {
    && stepLength == 1.0 && trialMerit == -1.0
    && m.Fits(c) && m.Fits(n) && m.Quadratic(c) == 0.0 && m.Quadratic(n) == 1.0
  }

  lemma TailOutcome(m: MeritModel, c: Parts, n: Parts, zeroStep: Vec, unitStep: Vec, stepLength: real, trialMerit: real)
    requires m == MeritModel(0.0, [-1.0, 0.0], [-10.0, -10.0], [0.0, 0.0], 2.0)
    requires IsDirectionOf(TailIterate(), ZeroHessian(), zeroStep, c) && zeroStep.Dense() == [0.0]
    requires IsDirectionOf(TailIterate(), ZeroHessian(), unitStep, n) && unitStep.Dense() == [1.0]
    requires ExactOutcome(m, c, n, stepLength, trialMerit)
    ensures IsMisled(m, c, n, stepLength, trialMerit)
  {
    TailDirection(zeroStep, c, 0.0);
    TailDirection(unitStep, n, 1.0);
    hide MeritModel.Quadratic, MinimisesMerit, CollectedMerit;
    TailMisleads(m, c, n, stepLength, trialMerit);
  }

  /** The search on a valid problem between two linearised directions whose result is worse than the Cauchy
      direction. */
  method TailRun(settings: LineSettings)
    returns (stepLength: real, trialMerit: real, ghost m: MeritModel, ghost c: Parts, ghost n: Parts)
    ensures TailIterate().Fits(TailProblem()) && m == ModelOf(TailProblem(), TailIterate(), 2.0)
    ensures IsMisled(m, c, n, stepLength, trialMerit)
  {
    hide *;
    TailProblemFits();
    var hessian, zeroStep, unitStep := ZeroHessian(), Vec(1, [], []), Vec(1, [0], [1.0]);
    var search := new LineSearch(TailProblem(), settings, TailIterate());
    search.SetIterate(TailIterate(), 2.0, 1.0);
    m := search.Model();
    ModelIs(search);
    TailModel(m);
    TailSteps(hessian, zeroStep, unitStep);
    stepLength, trialMerit, c, n := SearchBetween(search, hessian, zeroStep, unitStep);
    TailOutcome(m, c, n, zeroStep, unitStep, stepLength, trialMerit);
  }

  lemma ModelIs(search: LineSearch)
    requires search.iterate.Fits(search.problem)
    ensures search.Model() == ModelOf(search.problem, search.iterate, search.penaltyParameter)
  {
  }
}
