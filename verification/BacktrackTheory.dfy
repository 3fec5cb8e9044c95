/** Why the backtracking Cauchy search of src/main/linesearch.c ends: the violation is convex, so the linear
    reduction shrinks at most in proportion to the step while the curvature term shrinks with its square. */
module BacktrackTheory {
  import opened LinearAlgebra
  import opened Feasibility
  import opened Directions

  /** How a backtracking loop ended: with an accepted step, with a step too short to go on, or at the iteration
      limit. */
  datatype SearchEnd = Accepted | TooShort | LimitReached

  function Power(tau: real, k: nat): real
  {
    if k == 0 then 1.0 else Power(tau, k - 1) * tau
  }

  lemma {:induction false} PowerUnit(tau: real, k: nat)
    requires 0.0 < tau <= 1.0
    ensures 0.0 < Power(tau, k) <= 1.0
  {
    if k > 0 {
      PowerUnit(tau, k - 1);
      var p := Power(tau, k - 1);
      ProductSign(p, tau, p * tau);
      ScaleLe(p, tau, 1.0);
    }
  }

  /** A direction with all its parts multiplied by one factor. */
  ghost function Scaled(d: Parts, delta: real): (e: Parts)
    requires SameShape(d, d)
    ensures SameShape(d, e)
  {
    Combine(delta, d, 0.0, d)
  }

  /** How much the linear merit falls along delta times the direction. */
  ghost function LinearReduction(m: MeritModel, d: Parts, delta: real): real
    requires m.Fits(d)
  {
    m.Exact() - m.Linear(Scaled(d, delta))
  }

  /** The test of the backtracking loop. */
  ghost predicate Accepts(m: MeritModel, d: Parts, eta: real, delta: real)
    requires m.Fits(d)
  {
    LinearReduction(m, d, delta) * (1.0 - eta) >= 0.5 * (delta * delta * Dot(d.primal, d.hess))
  }

  /** The products of the direction at step length delta. */
  ghost predicate ProductsAt(d: Parts, delta: real, objectiveDot: real, hessianProduct: real)
    requires SameShape(d, d)
  {
    objectiveDot == delta * d.objGrad && hessianProduct == delta * delta * Dot(d.primal, d.hess)
  }

  lemma ScaledParts(d: Parts, delta: real)
    requires SameShape(d, d)
    ensures Scaled(d, delta).objGrad == delta * d.objGrad
    ensures Scaled(d, delta).consJac == Scale(delta, d.consJac)
    ensures Scaled(d, delta).primal == Scale(delta, d.primal)
    ensures Scaled(d, delta).hess == Scale(delta, d.hess)
  {
  }

  /** An accepted step realises at least the fraction eta of its predicted linear decrease. */
  lemma AcceptedDecrease(m: MeritModel, d: Parts, eta: real, delta: real)
    requires m.Fits(d) && Accepts(m, d, eta, delta)
    ensures m.Exact() - m.Quadratic(Scaled(d, delta)) >= eta * LinearReduction(m, d, delta)
  {
    QuadraticScaled(m, d, delta);
  }

  lemma QuadraticScaled(m: MeritModel, d: Parts, delta: real)
    requires m.Fits(d)
    ensures m.Quadratic(Scaled(d, delta)) == m.Linear(Scaled(d, delta)) + 0.5 * (delta * delta * Dot(d.primal, d.hess))
  {
    ScaledParts(d, delta);
    DotScale(delta, d.primal, Scale(delta, d.hess));
    DotScale(delta, d.hess, d.primal);
  }

  /** Shrinking the step by s keeps at least the fraction s of the linear reduction. */
  lemma ReductionConcave(m: MeritModel, d: Parts, delta: real, s: real)
    requires m.Fits(d) && m.penalty >= 0.0 && 0.0 <= s <= 1.0
    requires forall i :: 0 <= i < |m.lower| ==> m.lower[i] <= m.upper[i]
    ensures LinearReduction(m, d, delta * s) >= Times(s, LinearReduction(m, d, delta))
  {
    hide *;
    var p, q := ReductionValue(m, d, delta);
    var p', r := ReductionValue(m, d, delta * s);
    TotalScaled(m, d, delta, s, p, q, r);
    ConcaveScalars(m.penalty, p, q, r, d.objGrad, delta, s,
                   LinearReduction(m, d, delta), LinearReduction(m, d, delta * s));
  }

  /** The constraint values linearised along delta times the direction. */
  ghost function LinearCons(m: MeritModel, d: Parts, delta: real): (c: Vector)
    requires m.Fits(d)
    ensures |c| == |m.consVal|
  {
    LinComb(1.0, m.consVal, 1.0, Scaled(d, delta).consJac)
  }

  lemma ReductionValue(m: MeritModel, d: Parts, delta: real) returns (p: real, q: real)
    requires m.Fits(d)
    ensures p == Total(m.consVal, m.lower, m.upper) && q == Total(LinearCons(m, d, delta), m.lower, m.upper)
    ensures LinearReduction(m, d, delta) == Times(m.penalty, p) - (Times(delta, d.objGrad) + Times(m.penalty, q))
  {
    p, q := Total(m.consVal, m.lower, m.upper), Total(LinearCons(m, d, delta), m.lower, m.upper);
    hide Total, Times;
    assert Scaled(d, delta).objGrad == Times(delta, d.objGrad) by { GradScaled(d, delta); }
  }

  lemma GradScaled(d: Parts, delta: real)
    requires SameShape(d, d)
    ensures Scaled(d, delta).objGrad == Times(delta, d.objGrad)
  {
  }

  lemma TotalScaled(m: MeritModel, d: Parts, delta: real, s: real, p: real, q: real, r: real)
    requires m.Fits(d) && 0.0 <= s <= 1.0
    requires forall i :: 0 <= i < |m.lower| ==> m.lower[i] <= m.upper[i]
    requires p == Total(m.consVal, m.lower, m.upper) && q == Total(LinearCons(m, d, delta), m.lower, m.upper)
    requires r == Total(LinearCons(m, d, delta * s), m.lower, m.upper)
    ensures r <= Times(1.0 - s, p) + Times(s, q)
  {
    var y, z := LinearCons(m, d, delta), LinearCons(m, d, delta * s);
    ScaledParts(d, delta);
    ScaledParts(d, delta * s);
    forall i | 0 <= i < |z| ensures z[i] == LinComb(1.0 - s, m.consVal, s, y)[i] {
      SegmentEntry(m.consVal[i], d.consJac[i], delta, s);
    }
    assert z == LinComb(1.0 - s, m.consVal, s, y);
    hide *;
    TotalConvex(m.consVal, y, m.lower, m.upper, 1.0 - s, s);
  }

  lemma SegmentEntry(c: real, j: real, delta: real, s: real)
    ensures 1.0 * c + 1.0 * (delta * s * j) == (1.0 - s) * c + s * (1.0 * c + 1.0 * (delta * j))
  {
  }

  lemma ConcaveScalars(penalty: real, p: real, q: real, r: real, g: real, delta: real, s: real, a: real, b: real)
    requires penalty >= 0.0 && r <= Times(1.0 - s, p) + Times(s, q)
    requires a == Times(penalty, p) - (Times(delta, g) + Times(penalty, q))
    requires b == Times(penalty, p) - (Times(delta * s, g) + Times(penalty, r))
    ensures b >= Times(s, a)
  {
    ScaleLe(penalty, r, (1.0 - s) * p + s * q);
    assert penalty * ((1.0 - s) * p + s * q) == penalty * p - s * (penalty * p) + s * (penalty * q);
    assert s * a == s * (penalty * p) - delta * s * g - s * (penalty * q);
  }

  /** A rejected step at delta*s means that the curvature still outweighs the predicted decrease. */
  lemma RejectedMeansCurved(m: MeritModel, d: Parts, eta: real, delta: real, s: real)
    requires m.Fits(d) && m.penalty >= 0.0 && 0.0 < s <= 1.0 && eta <= 1.0
    requires forall i :: 0 <= i < |m.lower| ==> m.lower[i] <= m.upper[i]
    requires !Accepts(m, d, eta, delta * s)
    ensures s * (delta * delta * Dot(d.primal, d.hess)) > 2.0 * (1.0 - eta) * LinearReduction(m, d, delta)
  {
    hide LinearReduction, Dot, Times;
    ReductionConcave(m, d, delta, s);
    RejectedScalars(LinearReduction(m, d, delta * s), LinearReduction(m, d, delta), Dot(d.primal, d.hess), eta, delta,
                    s);
  }

  lemma RejectedScalars(b: real, a: real, h: real, eta: real, delta: real, s: real)
    requires 0.0 < s && eta <= 1.0 && b >= Times(s, a)
    requires b * (1.0 - eta) < 0.5 * (delta * s * (delta * s) * h)
    ensures s * (delta * delta * h) > 2.0 * (1.0 - eta) * a
  {
    ScaleLe(1.0 - eta, s * a, b);
    var x, y := 2.0 * (1.0 - eta) * a, s * (delta * delta * h);
    assert (1.0 - eta) * (s * a) == 0.5 * (s * x);
    assert delta * s * (delta * s) * h == s * y;
    assert s * x < s * y;
    if x >= y { ScaleLe(s, y, x); }
  }

  /** The k-th step length the loop tries. */
  function StepAt(first: real, tau: real, k: nat): real { first * Power(tau, k) }

  /** The loop accepts no later than the first k at which tau^k times the curvature has fallen to twice the
      (1 - eta)-fold linear reduction of the first tested step. */
  lemma AcceptedBy(m: MeritModel, d: Parts, eta: real, first: real, tau: real, k: nat)
    requires m.Fits(d) && m.penalty >= 0.0 && 0.0 < tau <= 1.0 && eta <= 1.0
    requires forall i :: 0 <= i < |m.lower| ==> m.lower[i] <= m.upper[i]
    requires Power(tau, k) * (first * first * Dot(d.primal, d.hess)) <= 2.0 * (1.0 - eta) * LinearReduction(m, d, first)
    ensures Accepts(m, d, eta, StepAt(first, tau, k))
  {
    PowerUnit(tau, k);
    var s := Power(tau, k);
    assert StepAt(first, tau, k) == first * s;
    hide *;
    if !Accepts(m, d, eta, first * s) { RejectedMeansCurved(m, d, eta, first, s); }
  }

  /** The values the loop computes at step length delta: the linear merit, the quadratic merit and its test. */
  lemma LoopValues(m: MeritModel, d: Parts, eta: real, delta: real, cons: Vector, linearViolation: real,
                   objectiveDot: real, hessianProduct: real)
    requires m.Fits(d)
    requires cons == LinComb(1.0, m.consVal, 1.0, Scale(delta, d.consJac))
    requires linearViolation == Total(cons, m.lower, m.upper)
    requires ProductsAt(d, delta, objectiveDot, hessianProduct)
    ensures m.objVal + objectiveDot + Times(m.penalty, linearViolation) + 0.5 * hessianProduct
      == m.Quadratic(Scaled(d, delta))
    ensures Times(m.penalty, Total(m.consVal, m.lower, m.upper)) - Times(m.penalty, linearViolation) - objectiveDot
         == LinearReduction(m, d, delta)
  {
    ScaledParts(d, delta);
    QuadraticScaled(m, d, delta);
    hide Dot, Total, LinComb, Scale, Times;
  }

  lemma TestIsAccepts(m: MeritModel, d: Parts, eta: real, delta: real, p: real, q: real,
                      objectiveDot: real, hessianProduct: real)
    requires m.Fits(d)
    requires Times(m.penalty, p) - Times(m.penalty, q) - objectiveDot == LinearReduction(m, d, delta)
    requires ProductsAt(d, delta, objectiveDot, hessianProduct)
    ensures (m.penalty * (p - q) - objectiveDot) * (1.0 - eta) >= 0.5 * hessianProduct <==> Accepts(m, d, eta, delta)
  {
    hide LinearReduction, Dot;
    assert m.penalty * (p - q) - objectiveDot == LinearReduction(m, d, delta);
  }

  lemma ScaleTwice(a: real, b: real, x: Vector)
    ensures Scale(b, Scale(a, x)) == Scale(a * b, x)
  {
    forall i | 0 <= i < |x| ensures Scale(b, Scale(a, x))[i] == Scale(a * b, x)[i] {
      assert b * (a * x[i]) == a * b * x[i];
    }
  }

  lemma NextStep(first: real, tau: real, k: nat, delta: real, d: Parts, objectiveDot: real, hessianProduct: real)
    requires SameShape(d, d) && delta == StepAt(first, tau, k) && ProductsAt(d, delta, objectiveDot, hessianProduct)
    ensures delta * tau == StepAt(first, tau, k + 1)
    ensures ProductsAt(d, delta * tau, objectiveDot * tau, hessianProduct * (tau * tau))
  {
    var g, h := d.objGrad, Dot(d.primal, d.hess);
    assert delta * g * tau == delta * tau * g;
    assert delta * delta * h * (tau * tau) == delta * tau * (delta * tau) * h;
  }

  /** Every tried step is inside the trust region when the first one is. */
  lemma StepsInside(x: Vector, first: real, tau: real, k: nat, radius: real)
    requires 0.0 < tau <= 1.0 && Inside(Scale(first, x), radius)
    ensures Inside(Scale(StepAt(first, tau, k), x), radius)
  {
    PowerUnit(tau, k);
    var p := Power(tau, k);
    NormSqScale(first, x);
    NormSqScale(StepAt(first, tau, k), x);
    NormSqNonneg(Scale(first, x));
    var n := first * first * NormSq(x);
    assert StepAt(first, tau, k) * StepAt(first, tau, k) * NormSq(x) == p * p * n;
    ScaleLe(p, p, 1.0);
    ScaleLe(n, p * p, 1.0);
    assert n * (p * p) == p * p * n;
  }

  /** Clipping at the radius: the factor min(1, radius / norm). */
  lemma ClippedInside(x: Vector, norm: real, radius: real, factor: real)
    requires norm >= 0.0 && norm * norm == NormSq(x) && radius > 0.0
    requires factor == if norm != 0.0 && radius / norm < 1.0 then radius / norm else 1.0
    ensures 0.0 < factor <= 1.0 && Inside(Scale(factor, x), radius)
    ensures factor == 1.0 <==> norm <= radius
  {
    NormSqScale(factor, x);
    if norm != 0.0 {
      var q := radius / norm;
      assert q * norm == radius;
      assert q > 0.0;
      if q < 1.0 {
        assert q * q * (norm * norm) == (q * norm) * (q * norm);
        ScaleLe(norm, q, 1.0);
      } else {
        ScaleLe(norm, 1.0, q);
        ScaleLe(norm, norm, radius);
        ScaleLe(radius, norm, radius);
      }
    }
  }

  /** The factor is the largest one up to one that brings the vector inside the trust region; a vector that has to be
      shortened ends on the boundary. */
  ghost predicate LargestInside(x: Vector, radius: real, factor: real)
  {
    && 0.0 < factor <= 1.0 && Inside(Scale(factor, x), radius)
    && (factor == 1.0 <==> Inside(x, radius))
    && (!Inside(x, radius) ==> NormSq(Scale(factor, x)) == radius * radius)
    && forall t :: factor < t <= 1.0 ==> !Inside(Scale(t, x), radius)
  }

  lemma ClippedIsLargest(x: Vector, norm: real, radius: real, factor: real)
    requires norm >= 0.0 && norm * norm == NormSq(x) && radius > 0.0
    requires factor == if norm != 0.0 && radius / norm < 1.0 then radius / norm else 1.0
    ensures LargestInside(x, radius, factor)
  {
    ClippedInside(x, norm, radius, factor);
    RootOrder(norm, radius);
    NormSqScale(factor, x);
    if factor < 1.0 {
      assert factor * norm == radius;
      assert factor * factor * (norm * norm) == (factor * norm) * (factor * norm);
      forall t | factor < t <= 1.0 ensures !Inside(Scale(t, x), radius) {
        NormSqScale(t, x);
        LongerLeaves(norm, radius, factor, t);
      }
    }
  }

  lemma LongerLeaves(norm: real, radius: real, factor: real, t: real)
    requires norm >= 0.0 && radius > 0.0 && factor * norm == radius && factor < t
    ensures t * t * (norm * norm) > radius * radius
  {
    var w := (t - factor) * norm;
    ProductSign(t - factor, norm, w);
    assert t * norm == radius + w;
    assert t * t * (norm * norm) == (t * norm) * (t * norm);
    RootOrder(t * norm, radius);
  }

  lemma ScaleOnce(x: Vector)
    ensures Scale(1.0, x) == x
  {
  }

  lemma StepStart(first: real, tau: real)
    ensures StepAt(first, tau, 0) == first
  {
  }

  /** The view of a direction whose parts were scaled one by one. */
  lemma ScaledFromParts(d: Parts, delta: real, e: Parts)
    requires SameShape(d, d)
    requires e == Parts(Scale(delta, d.primal), delta * d.objGrad, Scale(delta, d.consJac), Scale(delta, d.hess))
    ensures e == Scaled(d, delta)
  {
    ScaledParts(d, delta);
  }

  /** No step before the k-th passes the test. */
  ghost predicate Backtracked(m: MeritModel, d: Parts, eta: real, first: real, tau: real, k: nat)
    requires m.Fits(d)
  {
    forall i: nat :: i < k ==> !Accepts(m, d, eta, StepAt(first, tau, i))
  }

  /** Between the first and the k-th step none is too short to go on. */
  ghost predicate LongEnough(first: real, tau: real, eps: real, k: nat)
  {
    forall i: nat :: 0 < i < k ==> Abs(StepAt(first, tau, i)) > eps
  }

  /** What the loop promises: the steps before the last were rejected, tested is the step length of the reported
      merit, delta is the factor left on the direction, and the loop went on as long as the steps were long enough. */
  ghost predicate SearchOutcome(m: MeritModel, d: Parts, eta: real, tau: real, eps: real, limit: nat,
                                first: real, end: SearchEnd, iterations: nat, tested: real, delta: real, merit: real)
  {
    && m.Fits(d) && iterations <= limit
    && Backtracked(m, d, eta, first, tau, iterations)
    && merit == m.Quadratic(Scaled(d, tested))
    && match end
       case Accepted =>
         && iterations < limit && delta == tested == StepAt(first, tau, iterations) && Accepts(m, d, eta, delta)
         && LongEnough(first, tau, eps, iterations + 1)
       case TooShort =>
         && 0 < iterations && delta == 0.0 && Abs(StepAt(first, tau, iterations)) <= eps
         && tested == StepAt(first, tau, iterations - 1) && LongEnough(first, tau, eps, iterations)
       case LimitReached =>
         && 0 < iterations == limit && delta == StepAt(first, tau, iterations)
         && tested == StepAt(first, tau, iterations - 1) && LongEnough(first, tau, eps, iterations + 1)
  }
}
