/** The line searches of src/main/linesearch.c. */
module LineSearch {
  import opened LinearAlgebra
  import opened SparseVec
  import opened Problems
  import opened Feasibility
  import opened Directions
  import opened Hinges
  import opened Sweep
  import opened ExactSearchTheory
  import opened BacktrackTheory
  import opened CauchyOutcome
  import opened StepLength
  import opened TrialTheory
  import opened TrialSearches

  const LINESEARCH_MAX_IT: nat := 10000

  datatype LineSettings = LineSettings(eps: real, cauchyEta: real, cauchyTau: real,
                                       lineEta: real, lineTau: real, cutoff: real)

  /** The segment from the Cauchy to the Newton direction at an iterate: the merit model, the two directions, the
      current point and the variable bounds. */
  datatype Segment = Segment(m: MeritModel, c: Parts, n: Parts, x: Vector, l: Vector, u: Vector)
  {
    ghost predicate Fits() { m.Fits(c) && m.Fits(n) && SameShape(c, n) }

    ghost predicate AreProducts(cc: real, cn: real, nn: real)
    {
      && SameShape(c, n)
      && cc == Dot(c.primal, c.hess) && cn == Dot(c.primal, n.hess) && nn == Dot(n.primal, n.hess)
    }
  }

  /** Sorts the first n breakpoints by their points, in place; the source calls the C library for this. */
  method SortBreakpoints(a: array<BreakPoint>, n: nat)
    requires n <= a.Length
    modifies a
    ensures Sorted(a[..n]) && multiset(a[..n]) == multiset(old(a[..n]))
  {
    for i := 0 to n
      invariant forall p, q :: 0 <= p < q < i ==> a[p].point <= a[q].point
      invariant multiset(a[..n]) == multiset(old(a[..n]))
    {
      var j := i;
      while j > 0 && a[j].point < a[j - 1].point
        invariant 0 <= j <= i
        invariant forall p, q :: 0 <= p < q <= i && q != j ==> a[p].point <= a[q].point
        invariant multiset(a[..n]) == multiset(old(a[..n]))
      {
        SwapBelow(a, n, j);
        j := j - 1;
      }
    }
  }

  /** Exchanges the elements at j - 1 and j. */
  method SwapBelow(a: array<BreakPoint>, n: nat, j: nat)
    requires 0 < j < n <= a.Length
    modifies a
    ensures a[j] == old(a[j - 1]) && a[j - 1] == old(a[j])
    ensures forall p :: 0 <= p < a.Length && p != j && p != j - 1 ==> a[p] == old(a[p])
    ensures multiset(a[..n]) == multiset(old(a[..n]))
  {
    ghost var b := a[..n];
    a[j], a[j - 1] := a[j - 1], a[j];
    assert a[..n] == b[j := b[j - 1]][j - 1 := b[j]];
  }

  class LineSearch {
    var problem: Problem
    var iterate: EvaluatedPoint
    var settings: LineSettings
    var penaltyParameter: real
    var trustRadius: real

    var cauchyPoint: Vec
    var cauchyNewtonJacobianProd: Vec
    var cauchyConsVal: Vec
    var cauchyViolation: Vec
    var combinedConsVal: Vec
    var cauchyNewtonDirection: Vec
    var violatedMultipliers: Vec

    var numBreakpoints: nat
    var breakpoints: array<BreakPoint>

    ghost predicate Valid()
      reads this`problem, this`iterate, this`numBreakpoints, this`breakpoints
    {
      problem.Valid() && iterate.Fits(problem) && numBreakpoints <= breakpoints.Length
    }

    ghost predicate Fits(d: Direction)
      reads this`problem, d
    {
      d.Valid() && d.primal.dim == problem.NumVars() && d.consJac.dim == problem.NumCons()
    }

    ghost function Model(): (m: MeritModel)
      requires iterate.Fits(problem)
      reads this`problem, this`iterate, this`penaltyParameter
      ensures |m.consVal| == |m.lower| == |m.upper| == problem.NumCons()
    {
      ModelOf(problem, iterate, penaltyParameter)
    }

    constructor (problem: Problem, settings: LineSettings, iterate: EvaluatedPoint)
      requires problem.Valid() && iterate.Fits(problem)
      ensures Valid() && this.problem == problem && this.settings == settings && this.iterate == iterate
      ensures fresh(breakpoints)
    {
      this.problem, this.settings, this.iterate := problem, settings, iterate;
      penaltyParameter, trustRadius := 0.0, 0.0;
      var m, n := problem.NumCons(), problem.NumVars();
      cauchyPoint, cauchyNewtonDirection := Empty(n), Empty(n);
      cauchyNewtonJacobianProd, cauchyConsVal, cauchyViolation := Empty(m), Empty(m), Empty(m);
      combinedConsVal, violatedMultipliers := Empty(m), Empty(m);
      numBreakpoints := 0;
      breakpoints := new BreakPoint[0];
    }

    /** sleqp_linesearch_set_iterate */
    method SetIterate(iterate: EvaluatedPoint, penaltyParameter: real, trustRadius: real)
      requires Valid() && iterate.Fits(problem)
      modifies this
      ensures Valid() && problem == old(problem) && settings == old(settings) && breakpoints == old(breakpoints)
      ensures this.iterate == iterate && this.penaltyParameter == penaltyParameter && this.trustRadius == trustRadius
    {
      this.iterate, this.penaltyParameter, this.trustRadius := iterate, penaltyParameter, trustRadius;
    }

    // ----- the Cauchy search

    /** The first part of the Cauchy step: the factor that brings the direction inside the trust region, already
        applied to the products and the constraint part. */
    method ClipDirection(direction: Direction, sqrt: real -> real)
      returns (factor: real, hessianProduct: real, objectiveDot: real)
      requires direction.Valid() && IsSqrt(sqrt) && trustRadius > 0.0
      modifies direction`consJac
      ensures direction.Valid() && direction.consJac.dim == old(direction.consJac.dim)
      ensures direction.consJac.Dense() == Scale(factor, old(direction.consJac.Dense()))
      ensures ProductsAt(old(direction.View()), factor, objectiveDot, hessianProduct)
      ensures LargestInside(direction.primal.Dense(), trustRadius, factor)
    {
      hide Dot, Scale, Vec.At;
      hessianProduct := DotProduct(direction.primal, direction.hess);
      objectiveDot := direction.objGrad;
      factor := 1.0;
      ScaleOnce(direction.consJac.Dense());
      var normsq := NormSquared(direction.primal);
      NormSqNonneg(direction.primal.Dense());
      var norm := sqrt(normsq);
      if norm != 0.0 && trustRadius / norm < 1.0 {
        factor := trustRadius / norm;
        hessianProduct := hessianProduct * (factor * factor);
        objectiveDot := objectiveDot * factor;
        direction.consJac := ScaleBy(direction.consJac, factor);
      }
      ClippedIsLargest(direction.primal.Dense(), norm, trustRadius, factor);
    }

    /** The test of one step length: its quadratic merit and whether it is accepted. */
    method TestStep(consJac: Vec, objectiveDot: real, hessianProduct: real, exactViolation: real,
                    ghost m: MeritModel, ghost d: Parts, ghost factor: real)
      returns (quadraticMerit: real, accepted: bool)
      requires Valid() && m == Model() && m.Fits(d)
      requires consJac.Valid() && consJac.dim == problem.NumCons() && consJac.Dense() == Scale(factor, d.consJac)
      requires ProductsAt(d, factor, objectiveDot, hessianProduct)
      requires exactViolation == Total(m.consVal, m.lower, m.upper)
      modifies this`combinedConsVal
      ensures quadraticMerit == m.Quadratic(Scaled(d, factor))
      ensures accepted <==> Accepts(m, d, settings.cauchyEta, factor)
    {
      hide Dot, Scale, Total, LinComb, Accepts, Scaled, ProductsAt, Vec.At, MeritModel.Quadratic;
      combinedConsVal := AddScaled(iterate.consVal, consJac, 1.0, 1.0);
      var linearViolation := TotalViolation(problem, combinedConsVal);
      var linearMerit := iterate.objVal + objectiveDot + Times(penaltyParameter, linearViolation);
      quadraticMerit := linearMerit + 0.5 * hessianProduct;
      accepted := (penaltyParameter * (exactViolation - linearViolation) - objectiveDot) * (1.0 - settings.cauchyEta)
                  >= 0.5 * hessianProduct;
      LoopValues(m, d, settings.cauchyEta, factor, combinedConsVal.Dense(), linearViolation, objectiveDot,
                 hessianProduct);
      TestIsAccepts(m, d, settings.cauchyEta, factor, exactViolation, linearViolation, objectiveDot, hessianProduct);
    }

    /** The loop of the Cauchy step. */
    method Backtrack(direction: Direction, first: real, startHessian: real, startObjective: real, exactViolation: real,
                     ghost m: MeritModel, ghost d: Parts)
      returns (zeroDirection: bool, factor: real, objectiveDot: real, quadraticMerit: real,
               iterations: nat, ghost end: SearchEnd, ghost tested: real)
      requires Valid() && m == Model() && m.Fits(d) && exactViolation == Total(m.consVal, m.lower, m.upper)
      requires direction.Valid() && direction.consJac.dim == problem.NumCons()
      requires direction.consJac.Dense() == Scale(first, d.consJac)
      requires ProductsAt(d, first, startObjective, startHessian)
      modifies this`combinedConsVal, direction`consJac
      ensures direction.Valid() && direction.consJac.dim == problem.NumCons()
      ensures direction.consJac.Dense() == Scale(factor, d.consJac)
      ensures exists h :: ProductsAt(d, factor, objectiveDot, h)
      ensures factor == StepAt(first, settings.cauchyTau, iterations) && (zeroDirection <==> end == TooShort)
      ensures SearchOutcome(m, d, settings.cauchyEta, settings.cauchyTau, settings.eps, LINESEARCH_MAX_IT, first, end,
                            iterations, tested, if zeroDirection then 0.0 else factor, quadraticMerit)
    {
      hide Dot, Scale, Total, LinComb, Accepts, StepAt, Scaled, ProductsAt, Vec.At, Vec.Valid, MeritModel.Quadratic,
           Problem.Valid, Problem.Shaped, EvaluatedPoint.Fits;
      var tau := settings.cauchyTau;
      var hessianProduct := startHessian;
      objectiveDot, factor := startObjective, first;
      zeroDirection, quadraticMerit, tested, end := false, 0.0, first, LimitReached;
      iterations := 0;
      StepStart(first, tau);
      while iterations < LINESEARCH_MAX_IT
        invariant 0 <= iterations <= LINESEARCH_MAX_IT && end == LimitReached && !zeroDirection
        invariant factor == StepAt(first, tau, iterations)
        invariant direction.Valid() && direction.consJac.dim == problem.NumCons()
        invariant direction.consJac.Dense() == Scale(factor, d.consJac)
        invariant ProductsAt(d, factor, objectiveDot, hessianProduct)
        invariant Backtracked(m, d, settings.cauchyEta, first, tau, iterations)
        invariant LongEnough(first, tau, settings.eps, iterations + 1)
        invariant iterations > 0 ==>
          tested == StepAt(first, tau, iterations - 1) && quadraticMerit == m.Quadratic(Scaled(d, tested))
      {
        var accepted;
        quadraticMerit, accepted :=
          TestStep(direction.consJac, objectiveDot, hessianProduct, exactViolation, m, d, factor);
        tested := factor;
        if accepted {
          end := Accepted;
          break;
        }
        NextStep(first, tau, iterations, factor, d, objectiveDot, hessianProduct);
        hessianProduct := hessianProduct * (tau * tau);
        objectiveDot := objectiveDot * tau;
        direction.consJac := ScaleBy(direction.consJac, tau);
        ScaleTwice(factor, tau, d.consJac);
        factor := factor * tau;
        iterations := iterations + 1;
        if Abs(factor) <= settings.eps {
          zeroDirection, end := true, TooShort;
          break;
        }
      }
    }

    /** sleqp_linesearch_cauchy_step: clips the direction at the trust radius, then shortens it until its decrease
        in the quadratic merit is a fraction of the one in the linear merit. The direction ends up scaled by delta;
        first is the clipped factor, iterations counts rejected steps and tested is the last tested factor. */
    method CauchyStep(direction: Direction, sqrt: real -> real)
      returns (fullStep: bool, quadraticMerit: real, ghost end: SearchEnd,
               ghost delta: real, ghost first: real, ghost iterations: nat, ghost tested: real)
      requires Valid() && Fits(direction) && IsSqrt(sqrt)
      requires trustRadius > 0.0 && 0.0 < settings.cauchyTau < 1.0
      modifies this`combinedConsVal, direction
      ensures Fits(direction) && direction.View() == Scaled(old(direction.View()), delta)
      ensures LargestInside(old(direction.View()).primal, trustRadius, first)
      ensures Inside(direction.View().primal, trustRadius)
      ensures fullStep <==> iterations == 0
      ensures SearchOutcome(Model(), old(direction.View()), settings.cauchyEta, settings.cauchyTau, settings.eps,
                            LINESEARCH_MAX_IT, first, end, iterations, tested, delta, quadraticMerit)
      ensures penaltyParameter >= 0.0 && settings.cauchyEta <= 1.0 ==>
        SearchPromise(Model(), old(direction.View()), settings.cauchyEta, settings.cauchyTau, settings.eps,
                      LINESEARCH_MAX_IT, first, end, iterations, delta, quadraticMerit)
    {
      ghost var m, d := Model(), direction.View();
      assert m.Fits(d) && SameShape(d, d);
      hide Dot, Scale, Total, LinComb, Inside, ProductsAt, StepAt, Scaled, Vec.At, Vec.Valid, MeritModel.Quadratic,
           SearchOutcome, Problem.Valid, Problem.Shaped;
      var exactViolation := TotalViolation(problem, iterate.consVal);
      hide EvaluatedPoint.Fits;
      var factor, hessianProduct, objectiveDot := ClipDirection(direction, sqrt);
      first := factor;
      var zeroDirection, count;
      zeroDirection, factor, objectiveDot, quadraticMerit, count, end, tested :=
        Backtrack(direction, factor, hessianProduct, objectiveDot, exactViolation, m, d);
      iterations := count;
      fullStep := count == 0;
      StepsInside(d.primal, first, settings.cauchyTau, count, trustRadius);
      ShortInside(d.primal, trustRadius);
      delta := if zeroDirection then 0.0 else factor;
      FinishDirection(direction, zeroDirection, factor, objectiveDot, d);
      ScaledPrimal(d, delta);
      KeepsPromise(m, d, first, end, iterations, tested, delta, quadraticMerit);
    }

    lemma KeepsPromise(m: MeritModel, d: Parts, first: real, end: SearchEnd, iterations: nat, tested: real, delta: real,
                       merit: real)
      requires Valid() && m == Model() && 0.0 < settings.cauchyTau < 1.0
      requires SearchOutcome(m, d, settings.cauchyEta, settings.cauchyTau, settings.eps, LINESEARCH_MAX_IT, first, end,
                             iterations, tested, delta, merit)
      ensures penaltyParameter >= 0.0 && settings.cauchyEta <= 1.0 ==>
        SearchPromise(m, d, settings.cauchyEta, settings.cauchyTau, settings.eps, LINESEARCH_MAX_IT, first, end,
                      iterations, delta, merit)
    {
      assert forall i :: 0 <= i < |m.lower| ==> m.lower[i] <= m.upper[i];
      hide *;
      if penaltyParameter >= 0.0 && settings.cauchyEta <= 1.0 {
        OutcomeKeepsPromise(m, d, settings.cauchyEta, settings.cauchyTau, settings.eps, LINESEARCH_MAX_IT, first, end,
                            iterations, tested, delta, merit);
      }
    }

    /** The last part of the Cauchy step: the remaining parts of the direction follow the constraint part. */
    method FinishDirection(direction: Direction, zero: bool, factor: real, objectiveDot: real, ghost d: Parts)
      requires direction.Valid() && SameShape(d, d) && direction.consJac.dim == |d.consJac|
      requires direction.primal.Dense() == d.primal && direction.hess.Dense() == d.hess
      requires direction.consJac.Dense() == Scale(factor, d.consJac)
        && exists h :: ProductsAt(d, factor, objectiveDot, h)
      modifies direction
      ensures direction.Valid() && direction.View() == Scaled(d, if zero then 0.0 else factor)
      ensures direction.primal.dim == old(direction.primal.dim) && direction.consJac.dim == old(direction.consJac.dim)
    {
      hide Scale, Scaled, Vec.At;
      if zero {
        direction.SetZero();
        ZeroParts(d, direction.View(), old(direction.View()));
      } else {
        direction.primal := ScaleBy(direction.primal, factor);
        direction.hess := ScaleBy(direction.hess, factor);
        direction.objGrad := objectiveDot;
        ScaledFromParts(d, factor, direction.View());
      }
    }

    // ----- the approximate Cauchy-Newton search

    /** The segment between the two directions as the dense values it stands for. */
    ghost predicate IsSegment(cauchy: Direction, newton: Direction, s: Segment)
      reads this`problem, this`iterate, this`penaltyParameter, cauchy, newton
    {
      && problem.Valid() && iterate.Fits(problem) && Fits(cauchy) && Fits(newton)
      && s.m == Model() && s.c == cauchy.View() && s.n == newton.View()
      && s.x == iterate.primal.Dense() && s.l == problem.varsLb.Dense() && s.u == problem.varsUb.Dense()
      && Consistent(iterate.objGrad.Dense(), s.c, s.n)
    }

    /** The products the approximate search starts from, and the slope estimate of its test. */
    method SearchProducts(cauchy: Direction, newton: Direction, ghost s: Segment)
      returns (cc: real, cn: real, nn: real, gradientProduct: real)
      requires IsSegment(cauchy, newton, s)
      modifies this`cauchyConsVal, this`violatedMultipliers
      ensures s.AreProducts(cc, cn, nn) && s.Fits() && gradientProduct == SlopeEstimate(s.m, s.c, s.n)
    {
      cauchyConsVal := AddScaled(iterate.consVal, cauchy.consJac, 1.0, 1.0);
      violatedMultipliers := ViolatedMultipliers(problem, cauchyConsVal, None);
      SignsDense(violatedMultipliers, cauchyConsVal, problem, s.m, s.c);
      hide Dot, LinComb, Vec.At, SignsAt;
      cc := DotProduct(cauchy.primal, cauchy.hess);
      cn := DotProduct(cauchy.primal, newton.hess);
      nn := DotProduct(newton.primal, newton.hess);
      var jacobianDot := DotProduct(violatedMultipliers, cauchy.consJac);
      var gradientCauchy := cauchy.objGrad + jacobianDot + cc;
      jacobianDot := DotProduct(violatedMultipliers, newton.consJac);
      var gradientNewton := newton.objGrad + jacobianDot + cn;
      gradientProduct := gradientNewton - gradientCauchy;
    }

    /** The largest step length of the search. */
    method FirstStep(cauchy: Direction, newton: Direction, ghost s: Segment) returns (alpha: real)
      requires IsSegment(cauchy, newton, s)
      modifies this`cauchyPoint, this`cauchyNewtonDirection
      ensures LongestStart(s, alpha)
    {
      assert iterate.primal.dim == problem.NumVars();
      hide Vec.At, LinComb, Moved, Blocked, InBox;
      cauchyNewtonDirection := AddScaled(newton.primal, cauchy.primal, 1.0, -1.0);
      cauchyPoint := AddScaled(iterate.primal, cauchy.primal, 1.0, 1.0);
      hide Problem.Valid, EvaluatedPoint.Fits;
      alpha := MaxStepLength(cauchyPoint, cauchyNewtonDirection, problem.varsLb, problem.varsUb, 1.0);
    }

    /** The quadratic merit at step length alpha, from the products. */
    method MeritOfStep(cauchy: Direction, newton: Direction, alpha: real, cc: real, cn: real, nn: real,
                       ghost s: Segment)
      returns (quadraticMerit: real)
      requires IsSegment(cauchy, newton, s) && s.AreProducts(cc, cn, nn)
      modifies this`cauchyConsVal, this`combinedConsVal
      ensures s.Fits() && quadraticMerit == MeritAt(s.m, s.c, s.n, alpha)
    {
      hide *;
      SegmentValues(cauchy, newton, s, cc, cn, nn);
      var linearMerit := LinearPart(iterate.objVal, cauchy.objGrad, newton.objGrad, alpha);
      cauchyConsVal := AddScaled(iterate.consVal, cauchy.consJac, 1.0, 1.0 - alpha);
      combinedConsVal := AddScaled(cauchyConsVal, newton.consJac, 1.0, alpha);
      var total := TotalViolation(problem, combinedConsVal);
      var quadraticTerm := QuadraticPart(alpha, cc, cn, nn);
      quadraticMerit := linearMerit + Times(penaltyParameter, total) + quadraticTerm;
      StepMerit(s.m, s.c, s.n, alpha, combinedConsVal.Dense(), total, linearMerit, quadraticTerm);
    }

    /** The test of one step length. */
    method IsBelowLine(merit: real, cauchyMerit: real, alpha: real, slope: real) returns (passes: bool)
      ensures passes <==> BelowLine(merit, cauchyMerit, settings.lineEta, alpha, slope)
    {
      var scaledProduct := alpha * slope;
      passes := merit <= cauchyMerit + settings.lineEta * scaledProduct;
    }

    /** What the approximate search leaves in its trial direction, with the length and the merit it reports. */
    ghost predicate TrialEnds(trial: Direction, s: Segment, cauchyMerit: real, stepLength: real, merit: real)
      reads this`problem, this`settings, trial
    {
      && Fits(trial) && s.Fits()
      && TrialOutcome(s.m, s.c, s.n, cauchyMerit, settings.lineEta, settings.cutoff, stepLength, merit, trial.View())
      && TrialPromise(s.m, s.c, s.n, cauchyMerit, settings.lineEta, stepLength, merit, trial.View())
      && (stepLength > 0.0 ==> BoxedUnlessBlocked(s, trial.View().primal))
    }

    /** Ends the approximate search with the Cauchy direction. */
    method UseCauchy(cauchy: Direction, cauchyMerit: real, newton: Direction, trial: Direction, ghost s: Segment)
      returns (stepLength: real, trialMerit: real)
      requires IsSegment(cauchy, newton, s) && trial != cauchy && trial != newton
      modifies trial
      ensures stepLength == 0.0 && TrialEnds(trial, s, cauchyMerit, stepLength, trialMerit)
    {
      assert s.Fits();
      hide LinComb, Vec.At, Vec.Valid, TrialOutcome, Consistent, Problem.Valid, EvaluatedPoint.Fits;
      stepLength, trialMerit := 0.0, cauchyMerit;
      trial.CopyFrom(cauchy);
      OutcomeIsCauchy(s.m, s.c, s.n, cauchyMerit, settings.lineEta, settings.cutoff);
      OutcomeKeepsTrialPromise(s.m, s.c, s.n, cauchyMerit, settings.lineEta, settings.cutoff, 0.0, cauchyMerit,
                               trial.View());
    }

    /** Ends the approximate search with the step of length alpha. */
    method UseStep(cauchy: Direction, cauchyMerit: real, newton: Direction, trial: Direction, alpha: real, merit: real,
                   ghost s: Segment, ghost first: real)
      requires IsSegment(cauchy, newton, s) && trial != cauchy && trial != newton && s.Fits()
      requires 0.0 < alpha <= first <= 1.0 && settings.cutoff < alpha && merit == MeritAt(s.m, s.c, s.n, alpha)
      requires BelowLine(merit, cauchyMerit, settings.lineEta, alpha, SlopeEstimate(s.m, s.c, s.n))
      requires LongestStart(s, first)
      modifies trial
      ensures TrialEnds(trial, s, cauchyMerit, alpha, merit)
    {
      SegmentParts(cauchy, newton, s);
      hide *;
      MoveAlong(cauchy, newton, trial, alpha, s.c, s.n);
      OutcomeIsStep(s.m, s.c, s.n, cauchyMerit, settings.lineEta, settings.cutoff, alpha, merit);
      StepInBox(s, first, alpha);
      StepEnds(trial, s, cauchyMerit, alpha, merit);
    }

    /** What the merit of a step is computed from. */
    lemma SegmentValues(cauchy: Direction, newton: Direction, s: Segment, cc: real, cn: real, nn: real)
      requires IsSegment(cauchy, newton, s) && s.AreProducts(cc, cn, nn)
      ensures s.Fits() && s.m.Fits(s.c) && s.m.Fits(s.n) && SameShape(s.c, s.n)
      ensures iterate.consVal.Valid() && cauchy.consJac.Valid() && newton.consJac.Valid()
      ensures iterate.consVal.dim == cauchy.consJac.dim == newton.consJac.dim
      ensures forall v: Vec :: v.Valid() && v.dim == iterate.consVal.dim ==> Compatible(problem, v, None)
      ensures s.m == MeritModel(iterate.objVal, iterate.consVal.Dense(), problem.consLb.Dense(), problem.consUb.Dense(),
                                penaltyParameter)
      ensures s.c.objGrad == cauchy.objGrad && s.n.objGrad == newton.objGrad
      ensures s.c.consJac == cauchy.consJac.Dense() && s.n.consJac == newton.consJac.Dense()
      ensures cc == Dot(s.c.primal, s.c.hess) && cn == Dot(s.c.primal, s.n.hess) == Dot(s.n.primal, s.c.hess)
      ensures nn == Dot(s.n.primal, s.n.hess)
    {
      hide Vec.At, Vec.Valid, Dot;
    }

    lemma SegmentParts(cauchy: Direction, newton: Direction, s: Segment)
      requires IsSegment(cauchy, newton, s)
      ensures Fits(cauchy) && Fits(newton) && s.c == cauchy.View() && s.n == newton.View()
      ensures s.Fits() && s.m.Fits(s.c) && s.m.Fits(s.n) && SameShape(s.c, s.n)
    {
    }

    lemma StepEnds(trial: Direction, s: Segment, cauchyMerit: real, alpha: real, merit: real)
      requires s.Fits() && IsOnSegment(trial, s.c, s.n, alpha)
      requires TrialOutcome(s.m, s.c, s.n, cauchyMerit, settings.lineEta, settings.cutoff, alpha, merit,
                            Combine(1.0 - alpha, s.c, alpha, s.n))
      requires BoxedUnlessBlocked(s, Combine(1.0 - alpha, s.c, alpha, s.n).primal)
      ensures TrialEnds(trial, s, cauchyMerit, alpha, merit)
    {
      OutcomeKeepsTrialPromise(s.m, s.c, s.n, cauchyMerit, settings.lineEta, settings.cutoff, alpha, merit,
                               Combine(1.0 - alpha, s.c, alpha, s.n));
    }

    /** What the loop of the search does with this segment and these settings. */
    ghost predicate IsTrialLoop(s: Segment, cauchyMerit: real, first: real, iterations: nat, finished: bool,
                                stepLength: real)
      reads this`settings
    {
      TrialLoop(s.m, s.c, s.n, cauchyMerit, settings.lineEta, settings.lineTau, settings.cutoff, LINESEARCH_MAX_IT,
                first, iterations, finished, stepLength)
    }

    /** The first k steps have been tried without success. */
    ghost predicate HasRejected(s: Segment, cauchyMerit: real, first: real, k: nat)
      requires s.Fits()
      reads this`settings
    {
      Rejected(s.m, s.c, s.n, cauchyMerit, settings.lineEta, settings.lineTau, settings.cutoff, first, k)
    }

    /** sleqp_linesearch_trial_step: shortens the step until the merit falls below a line through the Cauchy merit, or
        returns the Cauchy direction once the step is below the cutoff. The search starts with the longest admissible
        step first and rejects iterations steps; finished is false only when the iteration limit ends the loop, and the
        other outputs then have no meaning. */
    method TrialStep(cauchy: Direction, cauchyMerit: real, newton: Direction, trial: Direction, ghost s: Segment)
      returns (stepLength: real, trialMerit: real, finished: bool, ghost first: real, ghost iterations: nat)
      requires IsSegment(cauchy, newton, s) && trial != cauchy && trial != newton
      requires 0.0 < settings.lineTau < 1.0
      modifies this`cauchyConsVal, this`violatedMultipliers, this`cauchyPoint, this`cauchyNewtonDirection,
               this`combinedConsVal, trial
      ensures LongestStart(s, first) && IsTrialLoop(s, cauchyMerit, first, iterations, finished, stepLength)
      ensures finished ==> TrialEnds(trial, s, cauchyMerit, stepLength, trialMerit)
    {
      hide *;
      var alpha := FirstStep(cauchy, newton, s);
      first, iterations := alpha, 0;
      LongestRange(s, first);
      var cc, cn, nn, gradientProduct := SearchProducts(cauchy, newton, s);
      SegmentParts(cauchy, newton, s);
      TryFirst(s, cauchyMerit, first);
      stepLength, trialMerit, finished := 0.0, cauchyMerit, false;
      if alpha <= settings.cutoff {
        stepLength, trialMerit := UseCauchy(cauchy, cauchyMerit, newton, trial, s);
        finished := true;
        GiveUp(s, cauchyMerit, first, 0);
        return;
      }
      var iteration := 0;
      while iteration < LINESEARCH_MAX_IT
        invariant 0 <= iteration <= LINESEARCH_MAX_IT && !finished && iterations == iteration
        invariant 0.0 < alpha <= first <= 1.0 && alpha > settings.cutoff
        invariant alpha == StepAt(first, settings.lineTau, iterations) && HasRejected(s, cauchyMerit, first, iterations)
      {
        var quadraticMerit := MeritOfStep(cauchy, newton, alpha, cc, cn, nn, s);
        var passes := IsBelowLine(quadraticMerit, cauchyMerit, alpha, gradientProduct);
        if passes {
          stepLength, trialMerit, finished := alpha, quadraticMerit, true;
          UseStep(cauchy, cauchyMerit, newton, trial, alpha, quadraticMerit, s, first);
          TakeStep(s, cauchyMerit, first, iterations, quadraticMerit, alpha);
          return;
        }
        Reject(s, cauchyMerit, first, iterations, quadraticMerit, alpha);
        iterations := iterations + 1;
        var shorter := alpha * settings.lineTau;
        ShrinkStep(alpha, settings.lineTau, shorter);
        alpha := shorter;
        if alpha <= settings.cutoff {
          stepLength, trialMerit := UseCauchy(cauchy, cauchyMerit, newton, trial, s);
          finished := true;
          GiveUp(s, cauchyMerit, first, iterations);
          return;
        }
        iteration := iteration + 1;
      }
      RunOut(s, cauchyMerit, first, stepLength);
    }

    lemma TryFirst(s: Segment, cauchyMerit: real, first: real)
      requires s.Fits()
      ensures StepAt(first, settings.lineTau, 0) == first && HasRejected(s, cauchyMerit, first, 0)
    {
      LoopStarts(s.m, s.c, s.n, cauchyMerit, settings.lineEta, settings.lineTau, settings.cutoff, first);
    }

    lemma Reject(s: Segment, cauchyMerit: real, first: real, k: nat, merit: real, alpha: real)
      requires s.Fits() && HasRejected(s, cauchyMerit, first, k)
      requires 0.0 < alpha == StepAt(first, settings.lineTau, k) && alpha > settings.cutoff
        && 0.0 < settings.lineTau < 1.0
      requires merit == MeritAt(s.m, s.c, s.n, alpha)
      requires !BelowLine(merit, cauchyMerit, settings.lineEta, alpha, SlopeEstimate(s.m, s.c, s.n))
      ensures HasRejected(s, cauchyMerit, first, k + 1)
      ensures StepAt(first, settings.lineTau, k + 1) == alpha * settings.lineTau
    {
      RejectNext(s.m, s.c, s.n, cauchyMerit, settings.lineEta, settings.lineTau, settings.cutoff, first, k, merit);
      NextShorter(first, settings.lineTau, k, k + 1);
    }

    lemma TakeStep(s: Segment, cauchyMerit: real, first: real, k: nat, merit: real, alpha: real)
      requires s.Fits() && HasRejected(s, cauchyMerit, first, k) && k < LINESEARCH_MAX_IT
      requires 0.0 < alpha == StepAt(first, settings.lineTau, k) && alpha > settings.cutoff
      requires merit == MeritAt(s.m, s.c, s.n, alpha)
      requires BelowLine(merit, cauchyMerit, settings.lineEta, alpha, SlopeEstimate(s.m, s.c, s.n))
      ensures IsTrialLoop(s, cauchyMerit, first, k, true, alpha)
    {
      LoopTakes(s.m, s.c, s.n, cauchyMerit, settings.lineEta, settings.lineTau, settings.cutoff, LINESEARCH_MAX_IT,
                first, k,
                merit, alpha);
    }

    lemma GiveUp(s: Segment, cauchyMerit: real, first: real, k: nat)
      requires s.Fits() && HasRejected(s, cauchyMerit, first, k) && k <= LINESEARCH_MAX_IT
      requires StepAt(first, settings.lineTau, k) <= settings.cutoff
      ensures IsTrialLoop(s, cauchyMerit, first, k, true, 0.0)
    {
      LoopGivesUp(s.m, s.c, s.n, cauchyMerit, settings.lineEta, settings.lineTau, settings.cutoff, LINESEARCH_MAX_IT,
                  first, k);
    }

    lemma RunOut(s: Segment, cauchyMerit: real, first: real, stepLength: real)
      requires s.Fits() && HasRejected(s, cauchyMerit, first, LINESEARCH_MAX_IT)
      requires StepAt(first, settings.lineTau, LINESEARCH_MAX_IT) > settings.cutoff
      ensures IsTrialLoop(s, cauchyMerit, first, LINESEARCH_MAX_IT, false, stepLength)
    {
      LoopRunsOut(s.m, s.c, s.n, cauchyMerit, settings.lineEta, settings.lineTau, settings.cutoff, LINESEARCH_MAX_IT,
                  first, stepLength);
    }

    // ----- breakpoints

    /** Records the breakpoint of one constraint, if it lies in [0, 1]. */
    method AddKink(v: real, d: real)
      requires numBreakpoints < breakpoints.Length
      modifies this`numBreakpoints, breakpoints
      ensures numBreakpoints <= old(numBreakpoints) + 1 && numBreakpoints <= breakpoints.Length
      ensures breakpoints[..numBreakpoints] == old(breakpoints[..numBreakpoints]) + Kink(v, d)
    {
      if v >= 0.0 {
        if d < 0.0 {
          var point := -1.0 * v / d;
          if point <= 1.0 {
            breakpoints[numBreakpoints] := BreakPoint(-1.0 * d, point);
            numBreakpoints := numBreakpoints + 1;
          }
        }
      } else if d > 0.0 {
        var point := -1.0 * v / d;
        if point <= 1.0 {
          breakpoints[numBreakpoints] := BreakPoint(d, point);
          numBreakpoints := numBreakpoints + 1;
        }
      }
    }

    /** collect_breakpoints */
    method CollectBreakpoints(violation: Vec, direction: Vec, violationSoFar: real, slopeSoFar: real)
      returns (initialViolation: real, initialSlope: real)
      requires violation.Valid() && direction.Valid() && violation.dim == direction.dim
      requires NonzeroData(violation) && NonzeroData(direction)
      requires numBreakpoints + violation.dim <= breakpoints.Length
      modifies this`numBreakpoints, breakpoints
      ensures numBreakpoints <= old(numBreakpoints) + violation.dim
      ensures var v, d := violation.Dense(), direction.Dense();
        && breakpoints[..numBreakpoints] == old(breakpoints[..numBreakpoints]) + Collected(v, d, Stop(v, d))
        && initialViolation == violationSoFar + ViolationTo(v, Stop(v, d))
        && initialSlope == slopeSoFar + SlopeTo(v, d, Stop(v, d))
    {
      hide Vec.At, Kink, Stop, Collected, ViolationTo, SlopeTo;
      ghost var v, d := violation.Dense(), direction.Dense();
      initialViolation, initialSlope := violationSoFar, slopeSoFar;
      var k, l := 0, 0;
      ghost var j := 0;
      ghost var start := breakpoints[..numBreakpoints];
      StopStart(violation, direction);
      CollectStart(v, d);
      while k < |violation.indices| && l < |direction.indices|
        invariant 0 <= j <= violation.dim && violation.Cursor(k, j) && direction.Cursor(l, j)
        invariant k == |violation.indices| || l == |direction.indices| ==> j == Stop(v, d)
        invariant numBreakpoints <= old(numBreakpoints) + j
        invariant breakpoints[..numBreakpoints] == start + Collected(v, d, j)
        invariant initialViolation == violationSoFar + ViolationTo(v, j)
        invariant initialSlope == slopeSoFar + SlopeTo(v, d, j)
        decreases |violation.indices| - k + |direction.indices| - l
      {
        var idx, vVal, dVal, k', l';
        idx, vVal, dVal, k', l' := Read2(violation, direction, k, l, j);
        StopStep(violation, direction, k, l, k', l', idx);
        CollectSkip(v, d, j, idx);
        CollectStep(v, d, idx);
        k, l, j := k', l', idx + 1;
        initialViolation := initialViolation + Max(vVal, 0.0);
        if vVal >= 0.0 { initialSlope := initialSlope + dVal; }
        AddKink(vVal, dVal);
      }
    }

    /** Makes room for the breakpoints of all constraints and starts with none. */
    method ReserveBreakpoints(count: nat)
      modifies this`breakpoints, this`numBreakpoints
      ensures breakpoints.Length >= count && numBreakpoints == 0
      ensures breakpoints == old(breakpoints) || fresh(breakpoints)
    {
      if breakpoints.Length < count { breakpoints := new BreakPoint[count]; }
      numBreakpoints := 0;
    }

    method PushLast()
      requires numBreakpoints < breakpoints.Length
      modifies this`numBreakpoints, breakpoints
      ensures numBreakpoints == old(numBreakpoints) + 1
      ensures breakpoints[..numBreakpoints] == old(breakpoints[..numBreakpoints]) + [BreakPoint(0.0, 1.0)]
    {
      breakpoints[numBreakpoints] := BreakPoint(0.0, 1.0);
      numBreakpoints := numBreakpoints + 1;
    }

    /** The two collections of compute_breakpoints, for the slacks s of the upper and the lower bounds. */
    method CollectBoth(ghost s: Slacks) returns (initialViolation: real, initialSlope: real)
      requires problem.Shaped() && s.Fits() && |s.upper| == problem.NumCons()
      requires cauchyConsVal.Valid() && cauchyConsVal.dim == problem.NumCons()
      requires s.upper == LinComb(1.0, cauchyConsVal.Dense(), -1.0, problem.consUb.Dense())
      requires s.lower == LinComb(-1.0, cauchyConsVal.Dense(), 1.0, problem.consLb.Dense())
      requires cauchyNewtonJacobianProd.Valid() && NonzeroData(cauchyNewtonJacobianProd)
      requires s.upperChange == cauchyNewtonJacobianProd.Dense() && s.lowerChange == Scale(-1.0, s.upperChange)
      requires numBreakpoints == 0 && 2 * problem.NumCons() + 1 <= breakpoints.Length
      modifies this`numBreakpoints, this`cauchyViolation, this`cauchyNewtonJacobianProd, breakpoints
      ensures initialViolation == s.Violation() && initialSlope == s.Slope()
      ensures numBreakpoints <= 2 * problem.NumCons() + 1
      ensures breakpoints[..numBreakpoints] == s.BreakPoints()
    {
      hide Stop, Collected, ViolationTo, SlopeTo, Slacks.Violation, Slacks.Slope, Slacks.BreakPoints, LinComb, Scale,
           Vec.At;
      SlacksSums(s);
      cauchyViolation := AddScaled(cauchyConsVal, problem.consUb, 1.0, -1.0);
      initialViolation, initialSlope := CollectBreakpoints(cauchyViolation, cauchyNewtonJacobianProd, 0.0, 0.0);
      assert breakpoints[..numBreakpoints] == Collected(s.upper, s.upperChange, Stop(s.upper, s.upperChange));

      cauchyViolation := AddScaled(cauchyConsVal, problem.consLb, -1.0, 1.0);
      cauchyNewtonJacobianProd := Negate(cauchyNewtonJacobianProd);
      initialViolation, initialSlope :=
        CollectBreakpoints(cauchyViolation, cauchyNewtonJacobianProd, initialViolation, initialSlope);
      PushLast();
    }

    /** compute_breakpoints */
    method ComputeBreakpoints(ghost s: Slacks) returns (initialViolation: real, initialSlope: real)
      requires problem.Shaped() && s.Fits() && |s.upper| == problem.NumCons()
      requires cauchyConsVal.Valid() && cauchyConsVal.dim == problem.NumCons()
      requires s.upper == LinComb(1.0, cauchyConsVal.Dense(), -1.0, problem.consUb.Dense())
      requires s.lower == LinComb(-1.0, cauchyConsVal.Dense(), 1.0, problem.consLb.Dense())
      requires cauchyNewtonJacobianProd.Valid() && NonzeroData(cauchyNewtonJacobianProd)
      requires s.upperChange == cauchyNewtonJacobianProd.Dense() && s.lowerChange == Scale(-1.0, s.upperChange)
      modifies this`breakpoints, this`numBreakpoints, this`cauchyViolation, this`cauchyNewtonJacobianProd, breakpoints
      ensures breakpoints == old(breakpoints) || fresh(breakpoints)
      ensures initialViolation == s.Violation() && initialSlope == s.Slope()
      ensures 0 < numBreakpoints <= breakpoints.Length && numBreakpoints <= 2 * problem.NumCons() + 1
      ensures multiset(breakpoints[..numBreakpoints]) == multiset(s.BreakPoints())
      ensures Sorted(breakpoints[..numBreakpoints]) && InUnit(breakpoints[..numBreakpoints])
      ensures breakpoints[numBreakpoints - 1].point == 1.0
    {
      hide *;
      ReserveBreakpoints(2 * problem.NumCons() + 1);
      initialViolation, initialSlope := CollectBoth(s);
      SortBreakpoints(breakpoints, numBreakpoints);
      ghost var b := breakpoints[..numBreakpoints];
      EndsAtOne(s, b);
      assert b[numBreakpoints - 1] == breakpoints[numBreakpoints - 1];
    }

    // ----- the exact search

    /** The coefficients of the merit along the segment that do not depend on the constraints. */
    method SegmentCoefficients(cauchy: Direction, newton: Direction)
      returns (offset: real, linear: real, quadratic: real)
      requires Valid() && Fits(cauchy) && Fits(newton)
      requires Consistent(iterate.objGrad.Dense(), cauchy.View(), newton.View())
      modifies this`cauchyConsVal, this`cauchyNewtonDirection, this`cauchyNewtonJacobianProd
      ensures Valid() && cauchyConsVal.Valid() && cauchyConsVal.dim == problem.NumCons()
      ensures cauchyConsVal.Dense() == LinComb(1.0, Model().consVal, 1.0, cauchy.View().consJac)
      ensures cauchyNewtonJacobianProd.Valid() && NonzeroData(cauchyNewtonJacobianProd)
      ensures cauchyNewtonJacobianProd.Dense() == LinComb(1.0, newton.View().consJac, -1.0, cauchy.View().consJac)
      ensures var c, n := cauchy.View(), newton.View(); var d := LinComb(1.0, n.primal, -1.0, c.primal);
        && offset == iterate.objVal + c.objGrad + 0.5 * Dot(c.primal, c.hess)
        && linear == n.objGrad - c.objGrad + Dot(d, c.hess)
        && quadratic == Dot(d, n.hess) - Dot(d, c.hess)
    {
      assert iterate.consVal.Valid() && iterate.consVal.dim == problem.NumCons();
      assert iterate.objGrad.Valid() && iterate.objGrad.dim == problem.NumVars();
      DotLinear(1.0, newton.primal.Dense(), -1.0, cauchy.primal.Dense(), iterate.objGrad.Dense());
      hide Vec.At, Dot, LinComb, Problem.Valid, Problem.Shaped, EvaluatedPoint.Fits;
      cauchyConsVal := AddScaled(iterate.consVal, cauchy.consJac, 1.0, 1.0);
      cauchyNewtonDirection := AddScaled(newton.primal, cauchy.primal, 1.0, -1.0);
      cauchyNewtonJacobianProd := AddScaled(newton.consJac, cauchy.consJac, 1.0, -1.0);

      offset := iterate.objVal;
      var objectiveDot := DotProduct(iterate.objGrad, cauchy.primal);
      offset := offset + objectiveDot;
      var cauchyHessianDot := DotProduct(cauchy.primal, cauchy.hess);
      offset := offset + 0.5 * cauchyHessianDot;

      linear := DotProduct(iterate.objGrad, cauchyNewtonDirection);
      var mixedDot := DotProduct(cauchyNewtonDirection, cauchy.hess);
      linear := linear + mixedDot;

      var newtonHessianDot := DotProduct(cauchyNewtonDirection, newton.hess);
      quadratic := newtonHessianDot - mixedDot;
    }

    /** Everything of the exact search but the update of the trial direction. */
    method MinimiseMerit(cauchy: Direction, newton: Direction, ghost m: MeritModel, ghost c: Parts, ghost n: Parts)
      returns (minAlpha: real, minValue: real)
      requires Valid() && Fits(cauchy) && Fits(newton)
      requires m == Model() && c == cauchy.View() && n == newton.View()
      requires Consistent(iterate.objGrad.Dense(), c, n)
      modifies this`cauchyConsVal, this`cauchyNewtonDirection, this`cauchyNewtonJacobianProd, this`cauchyViolation,
               this`breakpoints, this`numBreakpoints, breakpoints
      ensures breakpoints == old(breakpoints) || fresh(breakpoints)
      ensures numBreakpoints <= breakpoints.Length
      ensures MinimisesCollected(m, c, n, minAlpha, minValue)
    {
      SegmentFacts(cauchy, newton, m, c, n);
      hide *;
      ghost var d, s := LinComb(1.0, n.primal, -1.0, c.primal), SlacksOf(m, c, n);
      SlacksUnfold(m, c, n);
      var offset, linear, quadratic := SegmentCoefficients(cauchy, newton);
      var violationValue, violationSlope := ComputeBreakpoints(s);
      offset := offset + Times(penaltyParameter, violationValue);
      linear := linear + Times(penaltyParameter, violationSlope);
      minAlpha, minValue :=
        MinimiseOverBreakpoints(breakpoints, numBreakpoints, offset, linear, quadratic, penaltyParameter);
      MinimumOfMerit(m, c, n, d, breakpoints[..numBreakpoints], offset, linear, quadratic, minAlpha, minValue);
      CollectedFound(m, c, n, minAlpha, minValue);
    }

    /** The trial direction is the point at alpha between the Cauchy and the Newton direction. */
    ghost predicate IsOnSegment(trial: Direction, c: Parts, n: Parts, alpha: real)
      reads this`problem, trial
    {
      Fits(trial) && SameShape(c, n) && trial.View() == Combine(1.0 - alpha, c, alpha, n)
    }

    method MoveAlong(cauchy: Direction, newton: Direction, trial: Direction, alpha: real, ghost c: Parts,
                     ghost n: Parts)
      requires Fits(cauchy) && Fits(newton) && trial != cauchy && trial != newton
      requires c == cauchy.View() && n == newton.View()
      modifies trial
      ensures IsOnSegment(trial, c, n, alpha)
    {
      hide LinComb, Vec.At, Vec.Valid;
      trial.AddScaled(cauchy, newton, 1.0 - alpha, alpha);
    }

    /** sleqp_linesearch_trial_step_exact: without any assumption, the result is the global minimum over [0, 1] of
        the merit less the penalised violation of the constraints the breakpoint collection leaves out; with clean
        tails it is the global minimum of the merit itself. */
    method TrialStepExact(cauchy: Direction, newton: Direction, trial: Direction,
                          ghost m: MeritModel, ghost c: Parts, ghost n: Parts)
      returns (stepLength: real, trialMerit: real)
      requires Valid() && Fits(cauchy) && Fits(newton) && trial != cauchy && trial != newton
      requires m == Model() && c == cauchy.View() && n == newton.View() && Consistent(iterate.objGrad.Dense(), c, n)
      modifies this`cauchyConsVal, this`cauchyNewtonDirection, this`cauchyNewtonJacobianProd, this`cauchyViolation,
               this`breakpoints, this`numBreakpoints, breakpoints, trial
      ensures numBreakpoints <= breakpoints.Length && (breakpoints == old(breakpoints) || fresh(breakpoints))
      ensures ExactOutcome(m, c, n, stepLength, trialMerit) && IsOnSegment(trial, c, n, stepLength)
    {
      SegmentFacts(cauchy, newton, m, c, n);
      hide *;
      stepLength, trialMerit := MinimiseMerit(cauchy, newton, m, c, n);
      CollectedOutcome(m, c, n, stepLength, trialMerit);
      MoveAlong(cauchy, newton, trial, stepLength, c, n);
    }

    lemma SegmentFacts(cauchy: Direction, newton: Direction, m: MeritModel, c: Parts, n: Parts)
      requires Valid() && Fits(cauchy) && Fits(newton)
      requires m == Model() && c == cauchy.View() && n == newton.View()
      ensures problem.Shaped() && |m.consVal| == problem.NumCons() && |c.primal| == |n.primal|
      ensures m.Fits(c) && m.Fits(n) && SameShape(c, n)
      ensures m.lower == problem.consLb.Dense() && m.upper == problem.consUb.Dense()
      ensures forall i :: 0 <= i < |m.consVal| ==> m.lower[i] <= m.upper[i]
      ensures m.penalty == penaltyParameter && m.objVal == iterate.objVal
    {
    }
  }

  /** Clearing a direction gives the zero multiple of any direction of the same shape. */
  lemma ZeroParts(d: Parts, zero: Parts, e: Parts)
    requires SameShape(d, d) && SameShape(e, e) && |d.primal| == |e.primal| && |d.consJac| == |e.consJac|
    requires zero == Combine(0.0, e, 0.0, e)
    ensures zero == Scaled(d, 0.0)
  {
    ScaledParts(d, 0.0);
    assert zero.primal == Scale(0.0, d.primal);
    assert zero.consJac == Scale(0.0, d.consJac);
    assert zero.hess == Scale(0.0, d.hess);
    assert Scaled(d, 0.0) == Parts(Scale(0.0, d.primal), 0.0 * d.objGrad, Scale(0.0, d.consJac), Scale(0.0, d.hess));
  }

  /** From a boxed Cauchy point the trial point stays in the box exactly when no coordinate of the Cauchy point sits
      on a bound that the segment crosses. */
  ghost predicate BoxedUnlessBlocked(s: Segment, step: Vector)
  {
    && SameShape(s.c, s.n) && |s.x| == |s.c.primal| == |s.l| == |s.u| == |step|
    && var z, d, l, u := LinComb(1.0, s.x, 1.0, s.c.primal), LinComb(1.0, s.n.primal, -1.0, s.c.primal), s.l, s.u;
       InBox(z, l, u) ==> (InBox(LinComb(1.0, s.x, 1.0, step), l, u) <==> !Blocked(z, d, l, u))
  }

  /** first is an admissible start of the search, as long as possible. */
  ghost predicate LongestStart(s: Segment, first: real)
  {
    && SameShape(s.c, s.n) && |s.x| == |s.c.primal| == |s.l| == |s.u|
    && IsLongest(LinComb(1.0, s.x, 1.0, s.c.primal), LinComb(1.0, s.n.primal, -1.0, s.c.primal), s.l, s.u, 1.0, first)
  }

  lemma ShrinkStep(alpha: real, tau: real, shorter: real)
    requires 0.0 < alpha && 0.0 < tau < 1.0 && shorter == alpha * tau
    ensures 0.0 < shorter <= alpha
  {
    ScaleLe(alpha, tau, 1.0);
  }

  lemma SignsDense(v: Vec, x: Vec, problem: Problem, m: MeritModel, c: Parts)
    requires m.Fits(c) && v.Valid() && x.Valid() && problem.Shaped()
    requires v.dim == x.dim == problem.NumCons() == |m.consVal|
    requires x.Dense() == LinComb(1.0, m.consVal, 1.0, c.consJac)
    requires m.lower == problem.consLb.Dense() && m.upper == problem.consUb.Dense()
    requires forall i :: 0 <= i < x.dim ==>
      v.At(i) == Sign(SignedResidual(x.At(i), problem.consLb.At(i), problem.consUb.At(i)))
    ensures v.Dense() == SignsAt(m, c)
  {
    hide Vec.At, Sign, SignedResidual;
    forall i | 0 <= i < x.dim ensures v.Dense()[i] == SignsAt(m, c)[i] {
      assert x.Dense()[i] == x.At(i);
    }
  }

  /** The objective part of the merit of a step. */
  function LinearPart(objVal: real, cauchyGrad: real, newtonGrad: real, alpha: real): real
  {
    objVal + (1.0 - alpha) * cauchyGrad + alpha * newtonGrad
  }

  /** The curvature part of the merit of a step, from the three Hessian products. */
  function QuadraticPart(alpha: real, cc: real, cn: real, nn: real): real
  {
    0.5 * (1.0 - alpha) * (1.0 - alpha) * cc + alpha * ((1.0 - alpha) * cn + 0.5 * alpha * nn)
  }

  /** The merit of a step, as the search computes it from the products. */
  lemma StepMerit(m: MeritModel, c: Parts, n: Parts, alpha: real, cons: Vector, total: real,
                  linearMerit: real, quadraticTerm: real)
    requires m.Fits(c) && m.Fits(n) && SameShape(c, n) && Dot(c.primal, n.hess) == Dot(n.primal, c.hess)
    requires cons == LinComb(1.0, LinComb(1.0, m.consVal, 1.0 - alpha, c.consJac), alpha, n.consJac)
    requires total == Total(cons, m.lower, m.upper)
    requires linearMerit == LinearPart(m.objVal, c.objGrad, n.objGrad, alpha)
    requires quadraticTerm == QuadraticPart(alpha, Dot(c.primal, c.hess), Dot(c.primal, n.hess), Dot(n.primal, n.hess))
    ensures linearMerit + Times(m.penalty, total) + quadraticTerm == MeritAt(m, c, n, alpha)
  {
    var z := Combine(1.0 - alpha, c, alpha, n);
    assert cons == LinComb(1.0, m.consVal, 1.0, z.consJac);
    assert z.objGrad == (1.0 - alpha) * c.objGrad + alpha * n.objGrad;
    hide Dot, Total, LinComb, Times, QuadraticPart;
    StepCurvature(c, n, alpha, quadraticTerm);
  }

  lemma StepCurvature(c: Parts, n: Parts, alpha: real, quadraticTerm: real)
    requires SameShape(c, n) && Dot(c.primal, n.hess) == Dot(n.primal, c.hess)
    requires quadraticTerm == QuadraticPart(alpha, Dot(c.primal, c.hess), Dot(c.primal, n.hess), Dot(n.primal, n.hess))
    ensures var z := Combine(1.0 - alpha, c, alpha, n); quadraticTerm == 0.5 * Dot(z.primal, z.hess)
  {
    var z := Combine(1.0 - alpha, c, alpha, n);
    var cz, nz, zz := Dot(c.primal, z.hess), Dot(n.primal, z.hess), Dot(z.primal, z.hess);
    var a, b, e := Dot(c.primal, c.hess), Dot(c.primal, n.hess), Dot(n.primal, n.hess);
    hide Dot, LinComb, Times, QuadraticPart;
    DotLinear(1.0 - alpha, c.primal, alpha, n.primal, z.hess);
    DotLinear(1.0 - alpha, c.hess, alpha, n.hess, c.primal);
    DotLinear(1.0 - alpha, c.hess, alpha, n.hess, n.primal);
    StepCurvatureScalars(a, b, e, alpha, cz, nz, zz, quadraticTerm);
  }

  lemma StepCurvatureScalars(a: real, b: real, e: real, t: real, cz: real, nz: real, zz: real, q: real)
    requires cz == Times(1.0 - t, a) + Times(t, b) && nz == Times(1.0 - t, b) + Times(t, e)
    requires zz == Times(1.0 - t, cz) + Times(t, nz)
    requires q == QuadraticPart(t, a, b, e)
    ensures q == 0.5 * zz
  {
    assert (1.0 - t) * cz == (1.0 - t) * (1.0 - t) * a + (1.0 - t) * t * b;
    assert t * nz == t * (1.0 - t) * b + t * t * e;
  }

  /** The trial point is the Cauchy point moved along the segment. */
  lemma LongestRange(s: Segment, first: real)
    requires LongestStart(s, first)
    ensures 0.0 < first <= 1.0
  {
  }

  lemma StepInBox(s: Segment, first: real, alpha: real)
    requires LongestStart(s, first) && 0.0 < alpha <= first
    ensures BoxedUnlessBlocked(s, Combine(1.0 - alpha, s.c, alpha, s.n).primal)
  {
    var x, c, n, l, u := s.x, s.c, s.n, s.l, s.u;
    var z, d := LinComb(1.0, x, 1.0, c.primal), LinComb(1.0, n.primal, -1.0, c.primal);
    var y := LinComb(1.0, x, 1.0, Combine(1.0 - alpha, c, alpha, n).primal);
    forall i | 0 <= i < |x| ensures y[i] == Moved(z, d, alpha)[i] {
      PointIdentity(x[i], c.primal[i], n.primal[i], alpha);
    }
    assert y == Moved(z, d, alpha);
    if InBox(z, l, u) { ShorterStep(z, d, l, u, alpha, first); }
  }

  lemma PointIdentity(x: real, c: real, n: real, t: real)
    ensures 1.0 * x + 1.0 * ((1.0 - t) * c + t * n) == 1.0 * (1.0 * x + 1.0 * c) + t * (1.0 * n + -1.0 * c)
  {
  }

  lemma ScaledPrimal(d: Parts, delta: real)
    requires SameShape(d, d)
    ensures Scaled(d, delta).primal == Scale(delta, d.primal)
  {
  }

  lemma ShortInside(x: Vector, radius: real)
    ensures Inside(Scale(0.0, x), radius)
  {
    NormSqScale(0.0, x);
    var s := Square(radius);
  }

  lemma CollectedFound(m: MeritModel, c: Parts, n: Parts, alpha: real, value: real)
    requires m.Fits(c) && m.Fits(n) && SameShape(c, n) && 0.0 <= alpha <= 1.0
    requires value == CollectedMerit(m, c, n, alpha)
    requires forall t :: 0.0 <= t <= 1.0 ==> value <= CollectedMerit(m, c, n, t)
    ensures MinimisesCollected(m, c, n, alpha, value)
  {
  }

  lemma StopStart(v: Vec, d: Vec)
    requires v.Valid() && d.Valid() && v.dim == d.dim && NonzeroData(v) && NonzeroData(d)
    ensures |v.indices| == 0 || |d.indices| == 0 ==> Stop(v.Dense(), d.Dense()) == 0
  {
    SupportOfVec(v);
    SupportOfVec(d);
  }

  /** When one of the vectors runs out, the collection has reached its end. */
  lemma StopStep(v: Vec, d: Vec, k: int, l: int, k': int, l': int, idx: int)
    requires v.Valid() && d.Valid() && v.dim == d.dim && NonzeroData(v) && NonzeroData(d)
    requires 0 <= k < |v.indices| && 0 <= l < |d.indices| && idx <= v.indices[k] && idx <= d.indices[l]
    requires k' == if v.indices[k] == idx then k + 1 else k
    requires l' == if d.indices[l] == idx then l + 1 else l
    ensures k' == |v.indices| || l' == |d.indices| ==> Stop(v.Dense(), d.Dense()) == idx + 1
  {
    SupportOfVec(v);
    SupportOfVec(d);
    assert v.indices[k] <= v.indices[|v.indices| - 1] && d.indices[l] <= d.indices[|d.indices| - 1];
  }

  lemma CollectStart(v: Vector, d: Vector)
    ensures Collected(v, d, 0) == [] && ViolationTo(v, 0) == 0.0 && SlopeTo(v, d, 0) == 0.0
  {
  }

  lemma CollectStep(v: Vector, d: Vector, i: nat)
    requires i < |v| == |d|
    ensures Collected(v, d, i + 1) == Collected(v, d, i) + Kink(v[i], d[i])
    ensures ViolationTo(v, i + 1) == ViolationTo(v, i) + Max(v[i], 0.0)
    ensures SlopeTo(v, d, i + 1) == SlopeTo(v, d, i) + if v[i] >= 0.0 then d[i] else 0.0
  {
  }

  lemma SlacksUnfold(m: MeritModel, c: Parts, n: Parts)
    requires m.Fits(c) && m.Fits(n)
    ensures var s, x, d := SlacksOf(m, c, n), LinComb(1.0, m.consVal, 1.0, c.consJac),
      LinComb(1.0, n.consJac, -1.0, c.consJac);
      s == Slacks(LinComb(1.0, x, -1.0, m.upper), d, LinComb(-1.0, x, 1.0, m.lower), Scale(-1.0, d))
  {
  }

  lemma SlacksSums(s: Slacks)
    requires s.Fits()
    ensures var p, q := Stop(s.upper, s.upperChange), Stop(s.lower, s.lowerChange);
      && s.Violation() == ViolationTo(s.upper, p) + ViolationTo(s.lower, q)
      && s.Slope() == SlopeTo(s.upper, s.upperChange, p) + SlopeTo(s.lower, s.lowerChange, q)
      && s.BreakPoints() == Collected(s.upper, s.upperChange, p) + Collected(s.lower, s.lowerChange, q)
        + [BreakPoint(0.0, 1.0)]
  {
  }

  method Negate(v: Vec) returns (w: Vec)
    requires v.Valid() && NonzeroData(v)
    ensures w.Valid() && w.dim == v.dim && NonzeroData(w) && w.Dense() == Scale(-1.0, v.Dense())
  {
    w := ScaleBy(v, -1.0);
    forall k | 0 <= k < |w.data| ensures w.data[k] != 0.0 { assert w.data[k] == -1.0 * v.data[k]; }
  }

  /** The last of the sorted breakpoints is the end of the interval. */
  lemma EndsAtOne(s: Slacks, b: seq<BreakPoint>)
    requires s.Fits() && Sorted(b) && multiset(b) == multiset(s.BreakPoints())
    ensures |b| == |s.BreakPoints()| > 0 && InUnit(b) && b[|b| - 1].point == 1.0
  {
    BreakPointsBounded(s);
    var e := s.BreakPoints();
    assert e[|e| - 1] == BreakPoint(0.0, 1.0);
    UnitPermuted(e, b);
    hide *;
    assert BreakPoint(0.0, 1.0) in multiset(b);
    LastIsLargest(b);
  }

  lemma UnitPermuted(a: seq<BreakPoint>, b: seq<BreakPoint>)
    requires multiset(a) == multiset(b) && InUnit(a)
    ensures |a| == |b| && InUnit(b)
  {
    assert |b| == |multiset(b)| == |multiset(a)| == |a|;
    forall i | 0 <= i < |b| ensures 0.0 <= b[i].point <= 1.0 && b[i].slopeChange >= 0.0 {
      assert b[i] in multiset(a);
    }
  }

  lemma LastIsLargest(b: seq<BreakPoint>)
    requires Sorted(b) && InUnit(b) && BreakPoint(0.0, 1.0) in b
    ensures b[|b| - 1].point == 1.0
  {
    var k :| 0 <= k < |b| && b[k] == BreakPoint(0.0, 1.0);
    assert b[k].point <= b[|b| - 1].point;
  }
}
