/** The loop of the approximate search of src/main/linesearch.c: which step it takes, when it ends, and when its
    result is never worse than the Cauchy direction. */
module TrialSearches {
  import opened LinearAlgebra
  import opened Feasibility
  import opened Directions
  import opened ExactSearchTheory
  import opened BacktrackTheory
  import opened TrialTheory

  // ----- the loop

  /** The k-th step passes the test. */
  ghost predicate Passes(m: MeritModel, c: Parts, n: Parts, cauchyMerit: real, eta: real, tau: real, first: real,
                         k: nat)
    requires m.Fits(c) && m.Fits(n) && SameShape(c, n)
  {
    var t := StepAt(first, tau, k);
    BelowLine(MeritAt(m, c, n, t), cauchyMerit, eta, t, SlopeEstimate(m, c, n))
  }

  /** The steps before the k-th are above the cutoff and fail the test. */
  ghost predicate Rejected(m: MeritModel, c: Parts, n: Parts, cauchyMerit: real, eta: real, tau: real, cutoff: real,
                           first: real, k: nat)
    requires m.Fits(c) && m.Fits(n) && SameShape(c, n)
  {
    forall i: nat :: i < k ==> StepAt(first, tau, i) > cutoff && !Passes(m, c, n, cauchyMerit, eta, tau, first, i)
  }

  /** What the loop does: it rejects steps until one passes, which it takes, or one is not above the cutoff, which
      ends it with the step length zero; otherwise the iteration limit ends it. */
  ghost predicate TrialLoop(m: MeritModel, c: Parts, n: Parts, cauchyMerit: real, eta: real, tau: real, cutoff: real,
                            limit: nat, first: real, iterations: nat, finished: bool, stepLength: real)
  {
    && m.Fits(c) && m.Fits(n) && SameShape(c, n) && iterations <= limit
    && Rejected(m, c, n, cauchyMerit, eta, tau, cutoff, first, iterations)
    && var t := StepAt(first, tau, iterations);
       if !finished then iterations == limit && t > cutoff
       else if stepLength == 0.0 then t <= cutoff
       else
         && iterations < limit && stepLength == t && t > cutoff
         && Passes(m, c, n, cauchyMerit, eta, tau, first, iterations)
  }

  lemma {:induction false} StepsFall(first: real, tau: real, i: nat, j: nat)
    requires 0.0 < first && 0.0 < tau < 1.0 && i <= j
    ensures 0.0 < StepAt(first, tau, j) <= StepAt(first, tau, i)
  {
    if i < j {
      StepsFall(first, tau, i, j - 1);
      NextShorter(first, tau, j - 1, j);
    } else {
      PowerUnit(tau, j);
    }
  }

  lemma NextShorter(first: real, tau: real, k: nat, next: nat)
    requires 0.0 < StepAt(first, tau, k) && 0.0 < tau < 1.0 && next == k + 1
    ensures StepAt(first, tau, next) == StepAt(first, tau, k) * tau
    ensures 0.0 < StepAt(first, tau, next) <= StepAt(first, tau, k)
  {
    var p, t := Power(tau, k), StepAt(first, tau, k);
    assert first * (p * tau) == (first * p) * tau;
    ScaleLe(t, tau, 1.0);
    ProductSign(t, tau, t * tau);
  }

  /** The search takes a step exactly if one of those before the limit is above the cutoff and passes. */
  lemma TrialAcceptedIff(m: MeritModel, c: Parts, n: Parts, cauchyMerit: real, eta: real, tau: real, cutoff: real,
                         limit: nat, first: real, iterations: nat, finished: bool, stepLength: real)
    requires TrialLoop(m, c, n, cauchyMerit, eta, tau, cutoff, limit, first, iterations, finished, stepLength)
    requires 0.0 < first && 0.0 < tau < 1.0
    ensures finished && stepLength != 0.0
       <==> exists k: nat ::
              k < limit && StepAt(first, tau, k) > cutoff && Passes(m, c, n, cauchyMerit, eta, tau, first, k)
  {
    hide StepAt, Passes;
    if k: nat :| k < limit && StepAt(first, tau, k) > cutoff && Passes(m, c, n, cauchyMerit, eta, tau, first, k) {
      if k >= iterations { StepsFall(first, tau, iterations, k); }
    }
  }

  /** A step that has fallen to the cutoff bounds the number of rejections, and the search then ends by itself. */
  lemma TrialFinishedWithin(m: MeritModel, c: Parts, n: Parts, cauchyMerit: real, eta: real, tau: real, cutoff: real,
                            limit: nat, first: real, iterations: nat, finished: bool, stepLength: real, k: nat)
    requires TrialLoop(m, c, n, cauchyMerit, eta, tau, cutoff, limit, first, iterations, finished, stepLength)
    requires 0.0 < first && 0.0 < tau < 1.0 && k <= limit && StepAt(first, tau, k) <= cutoff
    ensures finished && iterations <= k
  {
    hide StepAt, Passes;
    if !finished { StepsFall(first, tau, k, limit); }
  }

  /** Every step the search rejects has a merit strictly above the line through the Cauchy merit whose slope is the
      fraction eta of the estimate. */
  lemma RejectedIsAbove(m: MeritModel, c: Parts, n: Parts, cauchyMerit: real, eta: real, tau: real, cutoff: real,
                        limit: nat, first: real, iterations: nat, finished: bool, stepLength: real, i: nat)
    requires TrialLoop(m, c, n, cauchyMerit, eta, tau, cutoff, limit, first, iterations, finished, stepLength)
    requires i < iterations
    ensures MeritAt(m, c, n, StepAt(first, tau, i))
          > cauchyMerit + eta * (StepAt(first, tau, i) * SlopeEstimate(m, c, n))
  {
    var t := StepAt(first, tau, i);
    hide StepAt, MeritAt, SlopeEstimate, BelowLine;
    assert !BelowLine(MeritAt(m, c, n, t), cauchyMerit, eta, t, SlopeEstimate(m, c, n)) by {
      assert !Passes(m, c, n, cauchyMerit, eta, tau, first, i);
    }
    hide *;
    NotBelow(MeritAt(m, c, n, t), cauchyMerit, eta, t, SlopeEstimate(m, c, n));
  }

  lemma NotBelow(merit: real, cauchyMerit: real, eta: real, alpha: real, slope: real)
    requires !BelowLine(merit, cauchyMerit, eta, alpha, slope)
    ensures merit > cauchyMerit + eta * (alpha * slope)
  {
  }

  /** The loop has only one result. */
  lemma TrialLoopDetermined(m: MeritModel, c: Parts, n: Parts, cauchyMerit: real, eta: real, tau: real, cutoff: real,
                            limit: nat, first: real, iterations: nat, finished: bool, stepLength: real,
                            iterations': nat, finished': bool, stepLength': real)
    requires TrialLoop(m, c, n, cauchyMerit, eta, tau, cutoff, limit, first, iterations, finished, stepLength)
    requires TrialLoop(m, c, n, cauchyMerit, eta, tau, cutoff, limit, first, iterations', finished', stepLength')
    requires 0.0 < first && 0.0 < tau < 1.0
    ensures iterations == iterations' && finished == finished' && (finished ==> stepLength == stepLength')
  {
    hide StepAt, Passes;
    StepsFall(first, tau, iterations, iterations);
    StepsFall(first, tau, iterations', iterations');
  }

  // ----- one pass of the loop

  lemma LoopStarts(m: MeritModel, c: Parts, n: Parts, cauchyMerit: real, eta: real, tau: real, cutoff: real,
                   first: real)
    requires m.Fits(c) && m.Fits(n) && SameShape(c, n)
    ensures StepAt(first, tau, 0) == first && Rejected(m, c, n, cauchyMerit, eta, tau, cutoff, first, 0)
  {
    assert Power(tau, 0) == 1.0;
  }

  lemma RejectNext(m: MeritModel, c: Parts, n: Parts, cauchyMerit: real, eta: real, tau: real, cutoff: real,
                   first: real, k: nat, merit: real)
    requires m.Fits(c) && m.Fits(n) && SameShape(c, n)
    requires Rejected(m, c, n, cauchyMerit, eta, tau, cutoff, first, k) && StepAt(first, tau, k) > cutoff
    requires merit == MeritAt(m, c, n, StepAt(first, tau, k))
    requires !BelowLine(merit, cauchyMerit, eta, StepAt(first, tau, k), SlopeEstimate(m, c, n))
    ensures Rejected(m, c, n, cauchyMerit, eta, tau, cutoff, first, k + 1)
  {
    hide StepAt, MeritAt, SlopeEstimate, BelowLine;
  }

  lemma LoopTakes(m: MeritModel, c: Parts, n: Parts, cauchyMerit: real, eta: real, tau: real, cutoff: real, limit: nat,
                  first: real, k: nat, merit: real, stepLength: real)
    requires m.Fits(c) && m.Fits(n) && SameShape(c, n) && k < limit
    requires Rejected(m, c, n, cauchyMerit, eta, tau, cutoff, first, k)
    requires stepLength == StepAt(first, tau, k) > cutoff && stepLength != 0.0 && merit == MeritAt(m, c, n, stepLength)
    requires BelowLine(merit, cauchyMerit, eta, stepLength, SlopeEstimate(m, c, n))
    ensures TrialLoop(m, c, n, cauchyMerit, eta, tau, cutoff, limit, first, k, true, stepLength)
  {
  }

  lemma LoopGivesUp(m: MeritModel, c: Parts, n: Parts, cauchyMerit: real, eta: real, tau: real, cutoff: real,
                    limit: nat, first: real, k: nat)
    requires m.Fits(c) && m.Fits(n) && SameShape(c, n) && k <= limit
    requires Rejected(m, c, n, cauchyMerit, eta, tau, cutoff, first, k) && StepAt(first, tau, k) <= cutoff
    ensures TrialLoop(m, c, n, cauchyMerit, eta, tau, cutoff, limit, first, k, true, 0.0)
  {
  }

  lemma LoopRunsOut(m: MeritModel, c: Parts, n: Parts, cauchyMerit: real, eta: real, tau: real, cutoff: real,
                    limit: nat, first: real, stepLength: real)
    requires m.Fits(c) && m.Fits(n) && SameShape(c, n)
    requires Rejected(m, c, n, cauchyMerit, eta, tau, cutoff, first, limit) && StepAt(first, tau, limit) > cutoff
    ensures TrialLoop(m, c, n, cauchyMerit, eta, tau, cutoff, limit, first, limit, false, stepLength)
  {
  }

  // ----- when the search is never worse than the Cauchy direction

  /** Directions with the same slopes, the same constraint changes and the same products at the Cauchy direction, and
      so with the same slope estimate. */
  ghost predicate SameEstimate(m: MeritModel, c: Parts, n: Parts, c': Parts, n': Parts)
  {
    && m.Fits(c) && m.Fits(n) && SameShape(c, n) && m.Fits(c') && m.Fits(n') && SameShape(c', n')
    && c'.objGrad == c.objGrad && n'.objGrad == n.objGrad && c'.consJac == c.consJac && n'.consJac == n.consJac
    && Dot(c'.primal, c'.hess) == Dot(c.primal, c.hess) && Dot(c'.primal, n'.hess) == Dot(c.primal, n.hess)
  }

  lemma EstimateIsSame(m: MeritModel, c: Parts, n: Parts, c': Parts, n': Parts)
    requires SameEstimate(m, c, n, c', n')
    ensures SlopeEstimate(m, c', n') == SlopeEstimate(m, c, n)
  {
    hide Dot;
    assert SignsAt(m, c') == SignsAt(m, c);
  }

  /** No search between directions with this estimate, from whatever first step, ends above the Cauchy merit. */
  ghost predicate NeverWorse(m: MeritModel, c: Parts, n: Parts, eta: real, tau: real, cutoff: real, limit: nat)
  {
    forall c': Parts, n': Parts, grad: Vector, first: real, iterations: nat, stepLength: real, merit: real,
      trial: Parts ::
      && SameEstimate(m, c, n, c', n') && Consistent(grad, c', n') && 0.0 < first <= 1.0
      && TrialLoop(m, c', n', m.Quadratic(c'), eta, tau, cutoff, limit, first, iterations, true, stepLength)
      && TrialOutcome(m, c', n', m.Quadratic(c'), eta, cutoff, stepLength, merit, trial)
      ==> merit <= m.Quadratic(c')
  }

  /** The result of the search is never worse than the Cauchy direction if and only if the slope estimate is no
      ascent. */
  lemma NeverWorseIff(m: MeritModel, c: Parts, n: Parts, eta: real, tau: real, cutoff: real, limit: nat)
    requires m.Fits(c) && m.Fits(n) && SameShape(c, n) && eta > 0.0 && cutoff < 1.0 && limit > 0
    ensures SlopeEstimate(m, c, n) <= 0.0 <==> NeverWorse(m, c, n, eta, tau, cutoff, limit)
  {
    if SlopeEstimate(m, c, n) <= 0.0 {
      NoAscentIsNeverWorse(m, c, n, eta, tau, cutoff, limit);
    } else {
      AscentIsWorse(m, c, n, eta, tau, cutoff, limit);
    }
  }

  lemma NoAscentIsNeverWorse(m: MeritModel, c: Parts, n: Parts, eta: real, tau: real, cutoff: real, limit: nat)
    requires m.Fits(c) && m.Fits(n) && SameShape(c, n) && eta > 0.0 && SlopeEstimate(m, c, n) <= 0.0
    ensures NeverWorse(m, c, n, eta, tau, cutoff, limit)
  {
    hide SlopeEstimate, MeritModel.Quadratic, TrialLoop, TrialOutcome, Consistent, Dot;
    forall c': Parts, n': Parts, grad: Vector, first: real, iterations: nat, stepLength: real, merit: real, trial: Parts
      | && SameEstimate(m, c, n, c', n') && Consistent(grad, c', n') && 0.0 < first <= 1.0
        && TrialLoop(m, c', n', m.Quadratic(c'), eta, tau, cutoff, limit, first, iterations, true, stepLength)
        && TrialOutcome(m, c', n', m.Quadratic(c'), eta, cutoff, stepLength, merit, trial)
      ensures merit <= m.Quadratic(c')
    {
      EstimateIsSame(m, c, n, c', n');
      OutcomeKeepsTrialPromise(m, c', n', m.Quadratic(c'), eta, cutoff, stepLength, merit, trial);
    }
  }

  /** Two unit steps with the given products, and a curvature q of the second. */
  ghost function UnitCauchy(c: Parts, n: Parts): Parts
    requires SameShape(c, n)
  {
    Parts([1.0, 0.0], c.objGrad, c.consJac, [Dot(c.primal, c.hess), Dot(c.primal, n.hess)])
  }

  ghost function UnitNewton(c: Parts, n: Parts, q: real): Parts
    requires SameShape(c, n)
  {
    Parts([0.0, 1.0], n.objGrad, n.consJac, [Dot(c.primal, n.hess), q])
  }

  lemma UnitsAreSame(m: MeritModel, c: Parts, n: Parts, q: real)
    requires m.Fits(c) && m.Fits(n) && SameShape(c, n)
    ensures SameEstimate(m, c, n, UnitCauchy(c, n), UnitNewton(c, n, q))
    ensures Consistent([c.objGrad, n.objGrad], UnitCauchy(c, n), UnitNewton(c, n, q))
  {
    var a, b, grad := UnitCauchy(c, n), UnitNewton(c, n, q), [c.objGrad, n.objGrad];
    DotTwo(a.primal, a.hess);
    DotTwo(a.primal, b.hess);
    DotTwo(b.primal, a.hess);
    DotTwo(grad, a.primal);
    DotTwo(grad, b.primal);
    hide Dot;
  }

  lemma UnitMerits(m: MeritModel, c: Parts, n: Parts, q: real)
    requires m.Fits(c) && m.Fits(n) && SameShape(c, n)
    ensures m.Fits(UnitCauchy(c, n)) && m.Fits(UnitNewton(c, n, q))
    ensures m.Quadratic(UnitCauchy(c, n)) == m.Quadratic(c)
    ensures m.Quadratic(UnitNewton(c, n, q)) == m.Linear(n) + 0.5 * q
  {
    var a, b := UnitCauchy(c, n), UnitNewton(c, n, q);
    DotTwo(a.primal, a.hess);
    DotTwo(b.primal, b.hess);
    hide Dot, Total, LinComb;
  }

  /** With an ascending estimate the curvature of the Newton step can be such that the full step passes with a merit
      above the Cauchy merit. */
  lemma AscentIsWorse(m: MeritModel, c: Parts, n: Parts, eta: real, tau: real, cutoff: real, limit: nat)
    requires m.Fits(c) && m.Fits(n) && SameShape(c, n) && eta > 0.0 && cutoff < 1.0 && limit > 0
    requires SlopeEstimate(m, c, n) > 0.0
    ensures !NeverWorse(m, c, n, eta, tau, cutoff, limit)
  {
    var rise := 0.5 * (eta * SlopeEstimate(m, c, n));
    var q := 2.0 * (m.Quadratic(c) + rise - m.Linear(n));
    var a, b := UnitCauchy(c, n), UnitNewton(c, n, q);
    var grad := [c.objGrad, n.objGrad];
    hide *;
    UnitsAreSame(m, c, n, q);
    UnitMerits(m, c, n, q);
    RiseIsPositive(eta, SlopeEstimate(m, c, n), rise);
    EstimateIsSame(m, c, n, a, b);
    FullStepTaken(m, c, n, a, b, eta, tau, cutoff, limit, rise);
    OneIsWorse(m, c, n, a, b, grad, eta, tau, cutoff, limit, rise);
  }

  lemma RiseIsPositive(eta: real, slope: real, rise: real)
    requires eta > 0.0 && slope > 0.0 && rise == 0.5 * (eta * slope)
    ensures rise > 0.0 && rise <= eta * (1.0 * slope)
  {
    ProductSign(eta, slope, eta * slope);
  }

  lemma FullStepTaken(m: MeritModel, c: Parts, n: Parts, a: Parts, b: Parts, eta: real, tau: real, cutoff: real,
                      limit: nat, rise: real)
    requires SameEstimate(m, c, n, a, b) && cutoff < 1.0 && limit > 0
    requires m.Quadratic(b) == m.Quadratic(a) + rise && SlopeEstimate(m, a, b) == SlopeEstimate(m, c, n)
    requires rise <= eta * (1.0 * SlopeEstimate(m, c, n))
    ensures TrialLoop(m, a, b, m.Quadratic(a), eta, tau, cutoff, limit, 1.0, 0, true, 1.0)
    ensures TrialOutcome(m, a, b, m.Quadratic(a), eta, cutoff, 1.0, m.Quadratic(a) + rise, b)
  {
    FullStep(a, b);
    var merit := m.Quadratic(a) + rise;
    assert BelowLine(merit, m.Quadratic(a), eta, 1.0, SlopeEstimate(m, a, b));
    assert MeritAt(m, a, b, 1.0) == merit;
    hide MeritModel.Quadratic, SlopeEstimate, BelowLine, Dot, MeritAt;
    LoopStarts(m, a, b, m.Quadratic(a), eta, tau, cutoff, 1.0);
    LoopTakes(m, a, b, m.Quadratic(a), eta, tau, cutoff, limit, 1.0, 0, merit, 1.0);
    OutcomeIsStep(m, a, b, m.Quadratic(a), eta, cutoff, 1.0, merit);
  }

  lemma OneIsWorse(m: MeritModel, c: Parts, n: Parts, a: Parts, b: Parts, grad: Vector, eta: real, tau: real,
                   cutoff: real, limit: nat, rise: real)
    requires SameEstimate(m, c, n, a, b) && Consistent(grad, a, b) && rise > 0.0
    requires TrialLoop(m, a, b, m.Quadratic(a), eta, tau, cutoff, limit, 1.0, 0, true, 1.0)
    requires TrialOutcome(m, a, b, m.Quadratic(a), eta, cutoff, 1.0, m.Quadratic(a) + rise, b)
    ensures !NeverWorse(m, c, n, eta, tau, cutoff, limit)
  {
    hide MeritModel.Quadratic, TrialLoop, TrialOutcome, SameEstimate, Consistent;
  }
}
