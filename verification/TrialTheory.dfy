/** The acceptance test of the approximate search of src/main/linesearch.c, and what its slope estimate is worth. */
module TrialTheory {
  import opened LinearAlgebra
  import opened Feasibility
  import opened Directions
  import opened ExactSearchTheory

  /** The signs of the residuals at the Cauchy point. */
  ghost function SignsAt(m: MeritModel, c: Parts): (s: Vector)
    requires m.Fits(c)
    ensures |s| == |m.consVal|
  {
    var x := LinComb(1.0, m.consVal, 1.0, c.consJac);
    seq(|x|, i requires 0 <= i < |x| => Sign(SignedResidual(x[i], m.lower[i], m.upper[i])))
  }

  /** The slope the approximate search expects along the segment; the constraint part carries no penalty factor. */
  ghost function SlopeEstimate(m: MeritModel, c: Parts, n: Parts): real
    requires m.Fits(c) && m.Fits(n) && SameShape(c, n)
  {
    n.objGrad + Dot(SignsAt(m, c), n.consJac) + Dot(c.primal, n.hess)
      - (c.objGrad + Dot(SignsAt(m, c), c.consJac) + Dot(c.primal, c.hess))
  }

  /** The acceptance test of the approximate search. */
  ghost predicate BelowLine(merit: real, cauchyMerit: real, eta: real, alpha: real, slope: real)
  {
    merit - cauchyMerit <= eta * (alpha * slope)
  }

  /** The result of the approximate search: either the Cauchy direction with its given merit and step length zero, or
      a step above the cutoff with its exact merit, below the line of the test. */
  ghost predicate TrialOutcome(m: MeritModel, c: Parts, n: Parts, cauchyMerit: real, eta: real, cutoff: real,
                               stepLength: real, merit: real, trial: Parts)
  {
    && m.Fits(c) && m.Fits(n) && SameShape(c, n)
    && if stepLength == 0.0 then trial == c && merit == cauchyMerit
       else
         && cutoff < stepLength && 0.0 < stepLength <= 1.0
         && trial == Combine(1.0 - stepLength, c, stepLength, n)
         && merit == MeritAt(m, c, n, stepLength)
         && BelowLine(merit, cauchyMerit, eta, stepLength, SlopeEstimate(m, c, n))
  }

  lemma OutcomeIsCauchy(m: MeritModel, c: Parts, n: Parts, cauchyMerit: real, eta: real, cutoff: real)
    requires m.Fits(c) && m.Fits(n) && SameShape(c, n)
    ensures TrialOutcome(m, c, n, cauchyMerit, eta, cutoff, 0.0, cauchyMerit, c)
  {
  }

  lemma OutcomeIsStep(m: MeritModel, c: Parts, n: Parts, cauchyMerit: real, eta: real, cutoff: real,
                      alpha: real, merit: real)
    requires m.Fits(c) && m.Fits(n) && SameShape(c, n) && 0.0 < alpha <= 1.0 && cutoff < alpha
    requires merit == MeritAt(m, c, n, alpha)
    requires BelowLine(merit, cauchyMerit, eta, alpha, SlopeEstimate(m, c, n))
    ensures TrialOutcome(m, c, n, cauchyMerit, eta, cutoff, alpha, merit, Combine(1.0 - alpha, c, alpha, n))
  {
  }

  // ----- the slope estimate

  /** The slope of the merit at the Cauchy point along the segment, with the penalty. */
  ghost function PenalisedSlope(m: MeritModel, c: Parts, n: Parts): real
    requires m.Fits(c) && m.Fits(n) && SameShape(c, n)
  {
    n.objGrad + Times(m.penalty, Dot(SignsAt(m, c), n.consJac)) + Dot(c.primal, n.hess)
      - (c.objGrad + Times(m.penalty, Dot(SignsAt(m, c), c.consJac)) + Dot(c.primal, c.hess))
  }

  /** The estimate of the search is the slope of the merit whose penalty is one. */
  lemma EstimateIsUnitSlope(m: MeritModel, c: Parts, n: Parts)
    requires m.Fits(c) && m.Fits(n) && SameShape(c, n)
    ensures SlopeEstimate(m, c, n) == PenalisedSlope(m.(penalty := 1.0), c, n)
  {
    assert SignsAt(m.(penalty := 1.0), c) == SignsAt(m, c);
    hide Dot, SignsAt;
  }

  /** The estimate of the search is the penalised slope exactly if the penalty is one or the violated constraints do
      not change to first order along the segment. */
  lemma EstimateIff(m: MeritModel, c: Parts, n: Parts)
    requires m.Fits(c) && m.Fits(n) && SameShape(c, n)
    ensures SlopeEstimate(m, c, n) == PenalisedSlope(m, c, n)
       <==> m.penalty == 1.0 || Dot(SignsAt(m, c), Sub(n.consJac, c.consJac)) == 0.0
  {
    var s := SignsAt(m, c);
    DotLinear(1.0, n.consJac, -1.0, c.consJac, s);
    var p, q := Dot(s, n.consJac), Dot(s, c.consJac);
    hide Dot, SignsAt;
    assert Dot(s, Sub(n.consJac, c.consJac)) == p - q;
    var lost := (m.penalty - 1.0) * (p - q);
    assert PenalisedSlope(m, c, n) - SlopeEstimate(m, c, n) == lost by { PenaltyDifference(m.penalty, p, q); }
    if lost == 0.0 && m.penalty != 1.0 { NoProduct(m.penalty - 1.0, p - q); }
  }

  lemma PenaltyDifference(r: real, p: real, q: real)
    ensures Times(r, p) - p - (Times(r, q) - q) == (r - 1.0) * (p - q)
  {
  }

  lemma NoProduct(a: real, b: real)
    requires a * b == 0.0 && a != 0.0
    ensures b == 0.0
  {
    ProductSign(a, b, a * b);
    ProductSign(-a, b, -(a * b));
  }

  /** The penalised slope and the curvature bound the merit along the whole segment from below. */
  lemma PenalisedSlopeBelow(m: MeritModel, c: Parts, n: Parts, t: real)
    requires m.Fits(c) && m.Fits(n) && SameShape(c, n) && m.penalty >= 0.0
    requires Dot(c.primal, n.hess) == Dot(n.primal, c.hess)
    requires forall i :: 0 <= i < |m.lower| ==> m.lower[i] <= m.upper[i]
    ensures var d := LinComb(1.0, n.primal, -1.0, c.primal);
      MeritAt(m, c, n, t)
      >= m.Quadratic(c) + Times(t, PenalisedSlope(m, c, n)) + Curve(Dot(d, n.hess) - Dot(d, c.hess), t)
  {
    var s, d := SignsAt(m, c), LinComb(1.0, n.primal, -1.0, c.primal);
    var x, z := LinComb(1.0, m.consVal, 1.0, c.consJac), Combine(1.0 - t, c, t, n);
    CurvatureAlong(c, n, t);
    ViolationAbove(m, c, n, t);
    DotLinear(1.0, n.primal, -1.0, c.primal, c.hess);
    SlopeAlong(c, n, t);
    var p, q := Dot(s, n.consJac), Dot(s, c.consJac);
    var v, w := Total(x, m.lower, m.upper), Total(LinComb(1.0, m.consVal, 1.0, z.consJac), m.lower, m.upper);
    var cc, cn, dc := Dot(c.primal, c.hess), Dot(c.primal, n.hess), Dot(d, c.hess);
    var bend := Curve(Dot(d, n.hess) - Dot(d, c.hess), t);
    hide Dot, Total, SignsAt, LinComb, Combine, Curve;
    PenalisedScalars(m.penalty, v, w, t, p, q, n.objGrad - c.objGrad, dc);
  }

  lemma PenalisedScalars(r: real, v: real, w: real, t: real, p: real, q: real, g: real, h: real)
    requires r >= 0.0 && w >= v + Times(t, p - q)
    ensures Times(r, w) + Times(t, g) + Times(t, h)
         >= Times(r, v) + Times(t, g + (Times(r, p) - Times(r, q)) + h)
  {
    var u := Times(t, p - q);
    ScaleLe(r, v + u, w);
    Distribute(r, v, u);
    assert r * u == t * (r * (p - q)) && r * (p - q) == r * p - r * q;
    assert t * (g + (r * p - r * q) + h) == t * g + t * (r * p - r * q) + t * h;
  }

  /** The signs at the Cauchy point bound the violation along the segment from below. */
  lemma ViolationAbove(m: MeritModel, c: Parts, n: Parts, t: real)
    requires m.Fits(c) && m.Fits(n) && SameShape(c, n)
    requires forall i :: 0 <= i < |m.lower| ==> m.lower[i] <= m.upper[i]
    ensures Total(LinComb(1.0, m.consVal, 1.0, Combine(1.0 - t, c, t, n).consJac), m.lower, m.upper)
         >= Total(LinComb(1.0, m.consVal, 1.0, c.consJac), m.lower, m.upper)
            + Times(t, Dot(SignsAt(m, c), n.consJac) - Dot(SignsAt(m, c), c.consJac))
  {
    var s, x := SignsAt(m, c), LinComb(1.0, m.consVal, 1.0, c.consJac);
    var p := LinComb(t, n.consJac, -t, c.consJac);
    var y := LinComb(1.0, m.consVal, 1.0, Combine(1.0 - t, c, t, n).consJac);
    assert y == LinComb(1.0, x, 1.0, p) by {
      forall i | 0 <= i < |x| ensures y[i] == LinComb(1.0, x, 1.0, p)[i] {
        MoveAlongEntry(m.consVal[i], c.consJac[i], n.consJac[i], t);
      }
    }
    SignsAreSubgradient(x, p, m.lower, m.upper, s, |x|);
    DotLinear(t, n.consJac, -t, c.consJac, s);
    hide Dot, Violations, SignsAt;
    SplitDifference(t, Dot(s, n.consJac), Dot(s, c.consJac));
  }

  lemma MoveAlongEntry(v: real, a: real, b: real, t: real)
    ensures 1.0 * v + 1.0 * ((1.0 - t) * a + t * b) == 1.0 * (1.0 * v + 1.0 * a) + 1.0 * (t * b + -t * a)
  {
    assert (1.0 - t) * a == a - t * a;
  }

  lemma SplitDifference(t: real, p: real, q: real)
    ensures Times(t, p) + Times(-t, q) == Times(t, p - q)
  {
  }

  // ----- the approximate search against the Cauchy direction

  /** What the result of the approximate search guarantees about its merit: it is exact, changes by at most the
      fraction eta of what the estimate expects from the step, and is not above the Cauchy merit where the estimate is
      no ascent. */
  ghost predicate TrialPromise(m: MeritModel, c: Parts, n: Parts, cauchyMerit: real, eta: real, stepLength: real,
                               merit: real, trial: Parts)
  {
    && m.Fits(c) && m.Fits(n) && SameShape(c, n) && m.Fits(trial)
    && (cauchyMerit == m.Quadratic(c) ==> merit == m.Quadratic(trial))
    && merit - cauchyMerit <= eta * (stepLength * SlopeEstimate(m, c, n))
    && (eta >= 0.0 && SlopeEstimate(m, c, n) <= 0.0 ==> merit <= cauchyMerit)
  }

  lemma OutcomeKeepsTrialPromise(m: MeritModel, c: Parts, n: Parts, cauchyMerit: real, eta: real, cutoff: real,
                                 stepLength: real, merit: real, trial: Parts)
    requires TrialOutcome(m, c, n, cauchyMerit, eta, cutoff, stepLength, merit, trial)
    ensures TrialPromise(m, c, n, cauchyMerit, eta, stepLength, merit, trial)
  {
    hide MeritModel.Quadratic, SlopeEstimate, Dot;
    assert stepLength == 0.0 ==> eta * (stepLength * SlopeEstimate(m, c, n)) == 0.0;
    if eta >= 0.0 && SlopeEstimate(m, c, n) <= 0.0 && stepLength != 0.0 {
      ScaleLe(stepLength, SlopeEstimate(m, c, n), 0.0);
      ScaleLe(eta, stepLength * SlopeEstimate(m, c, n), 0.0);
    }
  }

  /** The penalty is two, the objective rises by 3/2 and a violated constraint loses one along the segment, so that the
      penalised slope is negative while the estimate is positive. */
  ghost predicate IsAscent(m: MeritModel, c: Parts, n: Parts, eta: real)
  {
    && m == MeritModel(0.0, [1.0], [-1.0], [0.0], 2.0) && c == Parts([0.0], 0.0, [0.0], [0.0])
    && n == Parts([1.0], 1.5, [-1.0], [1.0 + 0.5 * eta])
  }

  lemma AscentSlopes(m: MeritModel, c: Parts, n: Parts, eta: real)
    requires IsAscent(m, c, n, eta)
    ensures m.Fits(c) && m.Fits(n) && SameShape(c, n) && Consistent([1.5], c, n)
    ensures SlopeEstimate(m, c, n) == 0.5 && PenalisedSlope(m, c, n) == -0.5
  {
    DotOne(c.primal, c.hess);
    DotOne(c.primal, n.hess);
    DotOne(n.primal, c.hess);
    DotOne([1.5], c.primal);
    DotOne([1.5], n.primal);
    var s := SignsAt(m, c);
    assert s == [1.0] by { assert LinComb(1.0, m.consVal, 1.0, c.consJac) == [1.0]; }
    DotOne(s, c.consJac);
    DotOne(s, n.consJac);
    hide Dot, SignsAt;
  }

  lemma AscentMerits(m: MeritModel, c: Parts, n: Parts, eta: real)
    requires IsAscent(m, c, n, eta)
    ensures m.Fits(c) && m.Fits(n) && m.Quadratic(c) == 2.0 && m.Quadratic(n) == 2.0 + 0.25 * eta
  {
    DotOne(c.primal, c.hess);
    DotOne(n.primal, n.hess);
    SingleTotal(1.0);
    SingleTotal(0.0);
    assert LinComb(1.0, m.consVal, 1.0, c.consJac) == [1.0] && LinComb(1.0, m.consVal, 1.0, n.consJac) == [0.0];
    hide Dot, Total, LinComb;
  }

  lemma SingleTotal(v: real)
    requires v >= 0.0
    ensures Total([v], [-1.0], [0.0]) == v
  {
    assert Violations([v], [-1.0], [0.0]) == [v];
    assert SumTo([v], 0) == 0.0;
  }

  /** There, for every eta > 0, the full step passes the test of the search although its merit is above the Cauchy
      merit. */
  lemma TrialMayBeWorse(m: MeritModel, c: Parts, n: Parts, eta: real, cutoff: real)
    requires IsAscent(m, c, n, eta) && eta > 0.0 && cutoff < 1.0
    ensures m.Fits(c) && TrialOutcome(m, c, n, m.Quadratic(c), eta, cutoff, 1.0, m.Quadratic(c) + 0.25 * eta, n)
  {
    AscentSlopes(m, c, n, eta);
    AscentMerits(m, c, n, eta);
    FullStep(c, n);
    hide *;
    TestHolds(eta);
    OutcomeIsStep(m, c, n, m.Quadratic(c), eta, cutoff, 1.0, m.Quadratic(c) + 0.25 * eta);
  }

  lemma FullStep(c: Parts, n: Parts)
    requires SameShape(c, n)
    ensures Combine(1.0 - 1.0, c, 1.0, n) == n
  {
  }

  lemma TestHolds(eta: real)
    requires eta > 0.0
    ensures BelowLine(2.0 + 0.25 * eta, 2.0, eta, 1.0, 0.5)
  {
  }
}
