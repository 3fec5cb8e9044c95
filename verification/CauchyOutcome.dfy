/** What the outcome of the Cauchy search of src/main/linesearch.c means: when it accepts a step, after how many
    rejections, and when the reported merit is the merit of the direction it returns. */
module CauchyOutcome {
  import opened LinearAlgebra
  import opened Feasibility
  import opened Directions
  import opened BacktrackTheory

  // ----- acceptance

  /** The k-th step passes the test, and the loop gets there. */
  ghost predicate Acceptable(m: MeritModel, d: Parts, eta: real, tau: real, eps: real, first: real, k: nat)
    requires m.Fits(d)
  {
    Accepts(m, d, eta, StepAt(first, tau, k)) && LongEnough(first, tau, eps, k + 1)
  }

  /** The search accepts exactly if some step before the limit passes the test and no step up to it is too short. */
  lemma AcceptedIff(m: MeritModel, d: Parts, eta: real, tau: real, eps: real, limit: nat,
                    first: real, end: SearchEnd, iterations: nat, tested: real, delta: real, merit: real)
    requires SearchOutcome(m, d, eta, tau, eps, limit, first, end, iterations, tested, delta, merit)
    ensures end.Accepted? <==> exists k: nat :: k < limit && Acceptable(m, d, eta, tau, eps, first, k)
  {
    hide Accepts, StepAt, Scaled, MeritModel.Quadratic;
    if end.Accepted? { assert Acceptable(m, d, eta, tau, eps, first, iterations); }
  }

  /** The k-th step is the first one not above eps, and no step before it passes the test. */
  ghost predicate FallsShort(m: MeritModel, d: Parts, eta: real, tau: real, eps: real, first: real, k: nat)
    requires m.Fits(d)
  {
    && 0 < k && Abs(StepAt(first, tau, k)) <= eps
    && (forall i: nat :: 0 < i < k ==> Abs(StepAt(first, tau, i)) > eps)
    && (forall i: nat :: i < k ==> !Accepts(m, d, eta, StepAt(first, tau, i)))
  }

  /** The search gives up with the zero direction exactly if a step up to the limit falls short. */
  lemma TooShortIff(m: MeritModel, d: Parts, eta: real, tau: real, eps: real, limit: nat,
                    first: real, end: SearchEnd, iterations: nat, tested: real, delta: real, merit: real)
    requires SearchOutcome(m, d, eta, tau, eps, limit, first, end, iterations, tested, delta, merit)
    ensures end.TooShort? <==> exists k: nat :: k <= limit && FallsShort(m, d, eta, tau, eps, first, k)
  {
    hide Accepts, StepAt, Scaled, MeritModel.Quadratic;
    if end.TooShort? { assert FallsShort(m, d, eta, tau, eps, first, iterations); }
  }

  /** tau^k times the curvature has fallen to twice the (1 - eta)-fold linear reduction of the first tested step. */
  ghost predicate CurvatureFallen(m: MeritModel, d: Parts, eta: real, tau: real, first: real, k: nat)
    requires m.Fits(d)
  {
    Power(tau, k) * (first * first * Dot(d.primal, d.hess)) <= 2.0 * (1.0 - eta) * LinearReduction(m, d, first)
  }

  /** The loop rejects at most k steps when the curvature has fallen by then; it ends early only with a step that is
      too short, and if none up to the k-th is, with an accepted one. */
  lemma AcceptedWithin(m: MeritModel, d: Parts, eta: real, tau: real, eps: real, limit: nat,
                       first: real, end: SearchEnd, iterations: nat, tested: real, delta: real, merit: real, k: nat)
    requires SearchOutcome(m, d, eta, tau, eps, limit, first, end, iterations, tested, delta, merit)
    requires m.penalty >= 0.0 && 0.0 < tau <= 1.0 && eta <= 1.0
    requires forall i :: 0 <= i < |m.lower| ==> m.lower[i] <= m.upper[i]
    requires k < limit && CurvatureFallen(m, d, eta, tau, first, k)
    ensures iterations <= k && !end.LimitReached?
    ensures end.TooShort? ==> Abs(StepAt(first, tau, iterations)) <= eps
    ensures LongEnough(first, tau, eps, k + 1) ==> end.Accepted?
  {
    AcceptedBy(m, d, eta, first, tau, k);
    hide Accepts, StepAt, Scaled, MeritModel.Quadratic, LinearReduction;
  }

  // ----- the reported merit

  lemma ZeroMerit(m: MeritModel, d: Parts)
    requires m.Fits(d)
    ensures m.Quadratic(Scaled(d, 0.0)) == m.Exact()
  {
    ScaledParts(d, 0.0);
    QuadraticScaled(m, d, 0.0);
    assert LinComb(1.0, m.consVal, 1.0, Scale(0.0, d.consJac)) == m.consVal;
  }

  /** The merit at delta in terms of the reduction and the curvature. */
  lemma MeritFrom(m: MeritModel, d: Parts, delta: real)
    requires m.Fits(d)
    ensures m.Quadratic(Scaled(d, delta))
         == m.Exact() - LinearReduction(m, d, delta) + 0.5 * (delta * delta * Dot(d.primal, d.hess))
  {
    hide Scaled, MeritModel.Exact, MeritModel.Linear, MeritModel.Quadratic, Dot;
    QuadraticScaled(m, d, delta);
  }

  /** Unless the iteration limit is reached, the reported merit is that of the returned direction exactly if the step
      was accepted or the curvature of the last tested step makes up for its linear reduction. */
  lemma ReportedMeritIff(m: MeritModel, d: Parts, eta: real, tau: real, eps: real, limit: nat,
                         first: real, end: SearchEnd, iterations: nat, tested: real, delta: real, merit: real)
    requires SearchOutcome(m, d, eta, tau, eps, limit, first, end, iterations, tested, delta, merit)
    requires !end.LimitReached?
    ensures merit == m.Quadratic(Scaled(d, delta))
       <==> end.Accepted? || LinearReduction(m, d, tested) == 0.5 * (tested * tested * Dot(d.primal, d.hess))
  {
    hide MeritModel.Quadratic, MeritModel.Exact, LinearReduction, Accepts, Scaled, Dot;
    ZeroMerit(m, d);
    MeritFrom(m, d, tested);
  }

  /** The fraction of the predicted decrease that is lost at most by a step that fails the test. */
  lemma RejectedMerit(m: MeritModel, d: Parts, eta: real, delta: real)
    requires m.Fits(d) && !Accepts(m, d, eta, delta)
    ensures m.Quadratic(Scaled(d, delta)) > m.Exact() - Times(eta, LinearReduction(m, d, delta))
  {
    hide Scaled, MeritModel.Exact, MeritModel.Quadratic, Dot, Times, LinearReduction;
    MeritFrom(m, d, delta);
    RejectedStep(LinearReduction(m, d, delta), eta, 0.5 * (delta * delta * Dot(d.primal, d.hess)));
  }

  lemma RejectedStep(r: real, eta: real, h: real)
    requires r * (1.0 - eta) < h
    ensures h - r > -Times(eta, r)
  {
    assert r * (1.0 - eta) == r - eta * r;
  }

  // ----- the contract of the search

  /** With an accepted step the merit is exact and has fallen by the fraction eta of the linear decrease, and the
      number of rejections is bounded by the fall of the curvature. */
  ghost predicate SearchPromise(m: MeritModel, d: Parts, eta: real, tau: real, eps: real, limit: nat,
                                first: real, end: SearchEnd, iterations: nat, delta: real, merit: real)
  {
    && m.Fits(d)
    && (end.Accepted? ==>
          merit == m.Quadratic(Scaled(d, delta)) && m.Exact() - merit >= Times(eta, LinearReduction(m, d, delta)))
    && (forall k: nat :: k < limit && CurvatureFallen(m, d, eta, tau, first, k) ==>
          && iterations <= k && !end.LimitReached?
          && (LongEnough(first, tau, eps, k + 1) ==> end.Accepted?))
  }

  lemma OutcomeKeepsPromise(m: MeritModel, d: Parts, eta: real, tau: real, eps: real, limit: nat,
                            first: real, end: SearchEnd, iterations: nat, tested: real, delta: real, merit: real)
    requires SearchOutcome(m, d, eta, tau, eps, limit, first, end, iterations, tested, delta, merit)
    requires m.penalty >= 0.0 && 0.0 < tau <= 1.0 && eta <= 1.0
    requires forall i :: 0 <= i < |m.lower| ==> m.lower[i] <= m.upper[i]
    ensures SearchPromise(m, d, eta, tau, eps, limit, first, end, iterations, delta, merit)
  {
    hide MeritModel.Quadratic, MeritModel.Exact, LinearReduction, Accepts, Scaled, Dot, StepAt, CurvatureFallen,
         LongEnough;
    if end.Accepted? { AcceptedDecrease(m, d, eta, delta); }
    forall k: nat | k < limit && CurvatureFallen(m, d, eta, tau, first, k)
      ensures iterations <= k && !end.LimitReached? && (LongEnough(first, tau, eps, k + 1) ==> end.Accepted?)
    {
      AcceptedWithin(m, d, eta, tau, eps, limit, first, end, iterations, tested, delta, merit, k);
    }
  }

  // ----- a search that gives up

  /** One variable, no constraints, slope -1 and curvature h. */
  ghost predicate IsSteep(m: MeritModel, d: Parts, h: real)
  {
    m == MeritModel(0.0, [], [], [], 1.0) && d == Parts([1.0], -1.0, [], [h])
  }

  /** The curvature part of the merit. */
  function Bend(delta: real, h: real): real { 0.5 * (delta * delta * h) }

  lemma SteepMerit(m: MeritModel, d: Parts, h: real, delta: real)
    requires IsSteep(m, d, h)
    ensures m.Fits(d) && m.Exact() == 0.0 && LinearReduction(m, d, delta) == delta && Dot(d.primal, d.hess) == h
    ensures m.Quadratic(Scaled(d, delta)) == Bend(delta, h) - delta
  {
    assert Dot(d.primal, d.hess) == h by { assert DotTo(d.primal, d.hess, 0) == 0.0; }
    ScaledParts(d, delta);
    hide Dot;
    MeritFrom(m, d, delta);
  }

  lemma SteepRejects(delta: real, eps: real, eta: real, h: real)
    requires 0.0 < eps <= delta && 0.0 <= eta && eps * h == 4.0
    ensures delta * (1.0 - eta) < Bend(delta, h) && Bend(delta, h) - delta > 0.0
  {
    assert h > 0.0;
    var p, q := delta * h, delta * (delta * h);
    assert p >= 4.0 by { ScaleLe(h, eps, delta); }
    assert q >= delta * 4.0 by { ScaleLe(delta, 4.0, p); }
    assert delta * delta * h == q;
    assert delta * (1.0 - eta) <= delta by { ScaleLe(delta, 1.0 - eta, 1.0); }
  }

  /** Whatever eta, tau and the tolerance are: where the curvature is large against the slope no step is accepted,
      and when the loop gives up it reports a merit above the merit of the direction it returns. */
  lemma SteepSearchGivesUp(m: MeritModel, d: Parts, h: real, eta: real, tau: real, eps: real, limit: nat,
                           end: SearchEnd, iterations: nat, tested: real, delta: real, merit: real)
    requires IsSteep(m, d, h) && 0.0 < eps < 1.0 && eps * h == 4.0 && 0.0 <= eta && 0.0 < tau < 1.0
    requires SearchOutcome(m, d, eta, tau, eps, limit, 1.0, end, iterations, tested, delta, merit)
    ensures !end.Accepted?
    ensures end.TooShort? ==> merit > m.Quadratic(Scaled(d, delta))
  {
    if !end.LimitReached? {
      TestedStep(m, d, eta, tau, eps, limit, end, iterations, tested, delta, merit);
      hide *;
      SteepFails(m, d, h, eta, eps, tested);
      SteepMerit(m, d, h, 0.0);
      assert Bend(0.0, h) == 0.0 by { NoBend(h); }
    }
  }

  lemma NoBend(h: real)
    ensures Bend(0.0, h) == 0.0
  {
  }

  lemma SteepFails(m: MeritModel, d: Parts, h: real, eta: real, eps: real, delta: real)
    requires IsSteep(m, d, h) && 0.0 < eps <= delta && eps * h == 4.0 && 0.0 <= eta
    ensures m.Fits(d) && !Accepts(m, d, eta, delta) && m.Quadratic(Scaled(d, delta)) > 0.0
  {
    SteepMerit(m, d, h, delta);
    SteepRejects(delta, eps, eta, h);
    SteepTest(m, d, h, eta, delta);
    hide *;
  }

  lemma SteepTest(m: MeritModel, d: Parts, h: real, eta: real, delta: real)
    requires m.Fits(d) && LinearReduction(m, d, delta) == delta && Dot(d.primal, d.hess) == h
    ensures Accepts(m, d, eta, delta) <==> delta * (1.0 - eta) >= Bend(delta, h)
  {
  }

  lemma TestedStep(m: MeritModel, d: Parts, eta: real, tau: real, eps: real, limit: nat,
                   end: SearchEnd, iterations: nat, tested: real, delta: real, merit: real)
    requires SearchOutcome(m, d, eta, tau, eps, limit, 1.0, end, iterations, tested, delta, merit)
    requires !end.LimitReached? && 0.0 < tau < 1.0 && 0.0 < eps < 1.0
    ensures m.Fits(d) && eps <= tested && merit == m.Quadratic(Scaled(d, tested))
    ensures end.Accepted? ==> Accepts(m, d, eta, tested)
    ensures end.TooShort? ==> delta == 0.0
  {
    hide Accepts, StepAt, Scaled, MeritModel.Quadratic;
    StepIsLong(tau, eps, if end.Accepted? then iterations else iterations - 1);
  }

  lemma StepIsLong(tau: real, eps: real, k: nat)
    requires 0.0 < tau < 1.0 && 0.0 < eps < 1.0 && LongEnough(1.0, tau, eps, k + 1)
    ensures StepAt(1.0, tau, k) >= eps
  {
    PowerUnit(tau, k);
    if k == 0 { assert StepAt(1.0, tau, 0) == 1.0; } else { assert Abs(StepAt(1.0, tau, k)) > eps; }
  }

  /** Such a search exists with tau = 1/2 and a tolerance below it: two steps are rejected, the third is too short,
      the reported merit is 3/2 and the merit of the returned direction is 0. */
  lemma ReportedMeritMayDiffer(m: MeritModel, d: Parts, eta: real, limit: nat)
    requires IsSteep(m, d, 16.0) && 0.0 <= eta && 2 <= limit
    ensures SearchOutcome(m, d, eta, 0.5, 0.25, limit, 1.0, TooShort, 2, 0.5, 0.0, 1.5)
    ensures m.Quadratic(Scaled(d, 0.0)) == 0.0
  {
    hide *;
    SteepValues(m, d);
    SteepFails(m, d, 16.0, eta, 0.25, 1.0);
    SteepFails(m, d, 16.0, eta, 0.25, 0.5);
    HalfSteps();
    TooShortAfterTwo(m, d, eta, limit);
  }

  lemma SteepValues(m: MeritModel, d: Parts)
    requires IsSteep(m, d, 16.0)
    ensures m.Fits(d) && m.Quadratic(Scaled(d, 0.5)) == 1.5 && m.Quadratic(Scaled(d, 0.0)) == 0.0
  {
    hide MeritModel.Quadratic, LinearReduction, Scaled, Dot;
    SteepMerit(m, d, 16.0, 0.5);
    SteepMerit(m, d, 16.0, 0.0);
    assert Bend(0.5, 16.0) == 2.0 && Bend(0.0, 16.0) == 0.0;
  }

  lemma TooShortAfterTwo(m: MeritModel, d: Parts, eta: real, limit: nat)
    requires m.Fits(d) && !Accepts(m, d, eta, 1.0) && !Accepts(m, d, eta, 0.5) && 2 <= limit
    requires StepAt(1.0, 0.5, 0) == 1.0 && StepAt(1.0, 0.5, 1) == 0.5 && StepAt(1.0, 0.5, 2) == 0.25
    requires m.Quadratic(Scaled(d, 0.5)) == 1.5
    ensures SearchOutcome(m, d, eta, 0.5, 0.25, limit, 1.0, TooShort, 2, 0.5, 0.0, 1.5)
  {
    hide Accepts, StepAt, Scaled, MeritModel.Quadratic;
    forall i: nat | i < 2 ensures !Accepts(m, d, eta, StepAt(1.0, 0.5, i)) { assert i == 0 || i == 1; }
    forall i: nat | 0 < i < 2 ensures Abs(StepAt(1.0, 0.5, i)) > 0.25 { assert i == 1; }
    assert Backtracked(m, d, eta, 1.0, 0.5, 2) && LongEnough(1.0, 0.5, 0.25, 2);
  }

  lemma HalfSteps()
    ensures StepAt(1.0, 0.5, 0) == 1.0 && StepAt(1.0, 0.5, 1) == 0.5 && StepAt(1.0, 0.5, 2) == 0.25
  {
    assert Power(0.5, 0) == 1.0 && Power(0.5, 1) == 0.5;
  }
}
