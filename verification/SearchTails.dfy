/** When the exact search of src/main/linesearch.c minimises the merit itself: exactly when the breakpoint collection
    leaves no violated constraint out. */
module SearchTails {
  import opened LinearAlgebra
  import opened Feasibility
  import opened Directions
  import opened Hinges
  import opened ExactSearchTheory

  // ----- the collected violation changes at a bounded rate

  function AbsTo(d: Vector, k: nat): (r: real)
    requires k <= |d|
    ensures r >= 0.0
  {
    if k == 0 then 0.0 else AbsTo(d, k - 1) + Abs(d[k - 1])
  }

  lemma {:induction false} AlongRate(v: Vector, d: Vector, t: real, k: nat)
    requires k <= |v| && k <= |d| && 0.0 <= t <= 1.0
    ensures AlongTo(v, d, 1.0, k) <= AlongTo(v, d, t, k) + Times(1.0 - t, AbsTo(d, k))
  {
    hide EntryAt;
    if k > 0 {
      AlongRate(v, d, t, k - 1);
      EntryRate(v, d, t, k - 1);
      TimesAdd(1.0 - t, AbsTo(d, k - 1), Abs(d[k - 1]));
      hide Times;
    } else {
      TimesZero(1.0 - t);
    }
  }

  lemma EntryRate(v: Vector, d: Vector, t: real, i: nat)
    requires i < |v| && i < |d| && 0.0 <= t <= 1.0
    ensures EntryAt(v, d, 1.0, i) <= EntryAt(v, d, t, i) + Times(1.0 - t, Abs(d[i]))
  {
    var a := d[i];
    RateBounds(t, a);
    hide Times, Abs;
    PlusRate(v[i], Times(1.0, a), Times(t, a), Times(1.0 - t, Abs(a)));
  }

  lemma RateBounds(t: real, a: real)
    requires 0.0 <= t <= 1.0
    ensures Times(1.0, a) - Times(t, a) <= Times(1.0 - t, Abs(a)) && Times(1.0 - t, Abs(a)) >= 0.0
  {
    ScaleLe(1.0 - t, a, Abs(a));
    ScaleLe(1.0 - t, 0.0, Abs(a));
    assert (1.0 - t) * a == a - t * a;
  }

  lemma PlusRate(v: real, a: real, b: real, r: real)
    requires a - b <= r && r >= 0.0
    ensures Plus(v + a) <= Plus(v + b) + r
  {
  }

  ghost function Rate(s: Slacks): (r: real)
    requires s.Fits()
    ensures r >= 0.0
  {
    AbsTo(s.upperChange, Stop(s.upper, s.upperChange)) + AbsTo(s.lowerChange, Stop(s.lower, s.lowerChange))
  }

  lemma RepresentedRate(s: Slacks, t: real)
    requires s.Fits() && 0.0 <= t <= 1.0
    ensures s.Represented(1.0) <= s.Represented(t) + Times(1.0 - t, Rate(s))
  {
    var p, q := Stop(s.upper, s.upperChange), Stop(s.lower, s.lowerChange);
    AlongRate(s.upper, s.upperChange, t, p);
    AlongRate(s.lower, s.lowerChange, t, q);
    TimesAdd(1.0 - t, AbsTo(s.upperChange, p), AbsTo(s.lowerChange, q));
    hide Times, AlongTo, AbsTo, Stop;
  }

  // ----- an objective that pulls to the Newton direction

  /** Two steps with the given constraint changes, along which a linear objective has slope g. */
  ghost function PulledCauchy(c: Parts): Parts
  {
    Parts([1.0, 0.0], 0.0, c.consJac, [0.0, 0.0])
  }

  ghost function PulledNewton(n: Parts, g: real): Parts
  {
    Parts([0.0, 1.0], g, n.consJac, [0.0, 0.0])
  }

  lemma PulledIsConsistent(m: MeritModel, c: Parts, n: Parts, g: real)
    requires m.Fits(c) && m.Fits(n)
    ensures Consistent([0.0, g], PulledCauchy(c), PulledNewton(n, g))
    ensures m.Fits(PulledCauchy(c)) && m.Fits(PulledNewton(n, g))
    ensures SlacksOf(m, PulledCauchy(c), PulledNewton(n, g)) == SlacksOf(m, c, n)
  {
    var a, b := PulledCauchy(c), PulledNewton(n, g);
    DotTwo([0.0, g], a.primal);
    DotTwo([0.0, g], b.primal);
    DotTwo(a.primal, b.hess);
    DotTwo(b.primal, a.hess);
    hide Dot, LinComb, Scale;
  }

  /** The collected merit of these steps: the objective and the collected violation. */
  lemma PulledMerit(m: MeritModel, c: Parts, n: Parts, g: real, t: real)
    requires m.Fits(c) && m.Fits(n) && 0.0 <= t <= 1.0
    requires forall i :: 0 <= i < |m.consVal| ==> m.lower[i] <= m.upper[i]
    ensures var a, b := PulledCauchy(c), PulledNewton(n, g);
      m.Fits(a) && m.Fits(b) && SameShape(a, b)
      && CollectedMerit(m, a, b, t) == m.objVal + Times(t, g) + Times(m.penalty, SlacksOf(m, c, n).Represented(t))
  {
    var a, b := PulledCauchy(c), PulledNewton(n, g);
    PulledIsConsistent(m, c, n, g);
    PulledCurvature(a, b);
    var s := SlacksOf(m, c, n);
    FlatMerit(m, a, b, t);
    TimesAdd(m.penalty, s.Represented(t), s.Missing(t));
    hide Times, Dot, LinComb, MeritAt, SlacksOf, Slacks.Represented, Slacks.Missing;
  }

  /** No curvature in either direction. */
  ghost predicate IsFlat(a: Parts, b: Parts)
  {
    && SameShape(a, b)
    && Dot(a.primal, a.hess) == 0.0 && Dot(a.primal, b.hess) == Dot(b.primal, a.hess)
    && var d := LinComb(1.0, b.primal, -1.0, a.primal); Dot(d, a.hess) == 0.0 && Dot(d, b.hess) == 0.0
  }

  lemma FlatMerit(m: MeritModel, a: Parts, b: Parts, t: real)
    requires m.Fits(a) && m.Fits(b) && IsFlat(a, b) && 0.0 <= t <= 1.0
    requires forall i :: 0 <= i < |m.consVal| ==> m.lower[i] <= m.upper[i]
    ensures var s := SlacksOf(m, a, b);
      MeritAt(m, a, b, t) == m.objVal + (a.objGrad + Times(t, b.objGrad - a.objGrad))
                             + Times(m.penalty, s.Represented(t) + s.Missing(t))
  {
    var s := SlacksOf(m, a, b);
    BreakPointsRepresent(s, t);
    MeritUnfolds(m, a, b, t);
    TimesZero(t);
    NoCurve(t);
    hide Times, Dot, LinComb, MeritAt, SlacksOf, Curve, Hinge, Slacks.Represented, Slacks.Missing, Slacks.BreakPoints,
         Slacks.Violation, Slacks.Slope;
  }

  lemma NoCurve(t: real)
    ensures Curve(0.0, t) == 0.0
  {
  }

  lemma PulledCurvature(a: Parts, b: Parts)
    requires SameShape(a, b) && |a.primal| == 2 && a.hess == b.hess == [0.0, 0.0]
    ensures IsFlat(a, b)
  {
    DotTwo(a.primal, a.hess);
    DotTwo(b.primal, a.hess);
    DotTwo(LinComb(1.0, b.primal, -1.0, a.primal), a.hess);
  }

  /** With a slope that outweighs the rate of the violation the Newton end minimises the collected merit. */
  lemma PulledEnd(m: MeritModel, c: Parts, n: Parts, g: real)
    requires m.Fits(c) && m.Fits(n) && m.penalty > 0.0 && g == -Times(m.penalty, Rate(SlacksOf(m, c, n)))
    requires forall i :: 0 <= i < |m.consVal| ==> m.lower[i] <= m.upper[i]
    ensures var a, b := PulledCauchy(c), PulledNewton(n, g);
      m.Fits(a) && m.Fits(b) && SameShape(a, b)
      && MinimisesCollected(m, a, b, 1.0, CollectedMerit(m, a, b, 1.0))
  {
    var a, b, s := PulledCauchy(c), PulledNewton(n, g), SlacksOf(m, c, n);
    PulledMerit(m, c, n, g, 1.0);
    hide CollectedMerit, Slacks.Represented, Rate, PulledCauchy, PulledNewton, SlacksOf;
    forall t | 0.0 <= t <= 1.0 ensures CollectedMerit(m, a, b, 1.0) <= CollectedMerit(m, a, b, t) {
      PulledMerit(m, c, n, g, t);
      RepresentedRate(s, t);
      PulledScalars(m.penalty, s.Represented(1.0), s.Represented(t), t, Rate(s), g);
    }
  }

  lemma PulledScalars(r: real, v: real, w: real, t: real, rate: real, g: real)
    requires r > 0.0 && v <= w + Times(1.0 - t, rate) && g == -Times(r, rate)
    ensures Times(1.0, g) + Times(r, v) <= Times(t, g) + Times(r, w)
  {
    ScaleLe(r, v, w + (1.0 - t) * rate);
    Distribute(r, w, (1.0 - t) * rate);
    assert r * ((1.0 - t) * rate) == (1.0 - t) * (r * rate);
    assert (1.0 - t) * (r * rate) == r * rate - t * (r * rate);
    assert t * g == -(t * (r * rate));
  }

  // ----- the exact condition

  ghost predicate SameConstraints(m: MeritModel, c: Parts, n: Parts, m': MeritModel, c': Parts, n': Parts)
  {
    && m'.consVal == m.consVal && m'.lower == m.lower && m'.upper == m.upper && m'.penalty == m.penalty
    && c'.consJac == c.consJac && n'.consJac == n.consJac
  }

  /** For every objective, and all steps with the same constraint changes, each result of the exact search minimises
      the merit. */
  ghost predicate AlwaysMinimises(m: MeritModel, c: Parts, n: Parts)
  {
    forall m': MeritModel, c': Parts, n': Parts, grad: Vector, alpha: real, value: real ::
      SameConstraints(m, c, n, m', c', n') && Consistent(grad, c', n') && MinimisesCollected(m', c', n', alpha, value)
      ==> MinimisesMerit(m', c', n', alpha, value)
  }

  lemma CleanAlwaysMinimises(m: MeritModel, c: Parts, n: Parts)
    requires m.Fits(c) && m.Fits(n) && SlacksOf(m, c, n).CleanTails()
    ensures AlwaysMinimises(m, c, n)
  {
    hide MinimisesMerit, CollectedMerit, MeritAt, Dot, Slacks.CleanTails;
    forall m': MeritModel, c': Parts, n': Parts, grad: Vector, alpha: real, value: real
      | SameConstraints(m, c, n, m', c', n') && Consistent(grad, c', n') && MinimisesCollected(m', c', n', alpha, value)
      ensures MinimisesMerit(m', c', n', alpha, value)
    {
      assert SlacksOf(m', c', n') == SlacksOf(m, c, n);
      CleanMinimum(m', c', n', alpha, value);
    }
  }

  /** Given the constraints' values, bounds and changes, every exact search minimises the merit if and only if the
      tails are clean. */
  lemma AlwaysMinimisesIffCleanTails(m: MeritModel, c: Parts, n: Parts)
    requires m.Fits(c) && m.Fits(n) && m.penalty > 0.0
    requires forall i :: 0 <= i < |m.consVal| ==> m.lower[i] <= m.upper[i]
    ensures SlacksOf(m, c, n).CleanTails() <==> AlwaysMinimises(m, c, n)
  {
    if SlacksOf(m, c, n).CleanTails() {
      CleanAlwaysMinimises(m, c, n);
    } else {
      DirtyTailsMislead(m, c, n);
    }
  }

  lemma DirtyTailsMislead(m: MeritModel, c: Parts, n: Parts)
    requires m.Fits(c) && m.Fits(n) && m.penalty > 0.0 && !SlacksOf(m, c, n).CleanTails()
    requires forall i :: 0 <= i < |m.consVal| ==> m.lower[i] <= m.upper[i]
    ensures !AlwaysMinimises(m, c, n)
  {
    var s := SlacksOf(m, c, n);
    var g := -Times(m.penalty, Rate(s));
    var a, b := PulledCauchy(c), PulledNewton(n, g);
    assert SameConstraints(m, c, n, m, a, b);
    hide *;
    PulledIsConsistent(m, c, n, g);
    PulledEnd(m, c, n, g);
    RepresentsAllIffCleanTails(s);
    CollectedIsLess(m, a, b);
    Misled(m, c, n, a, b, [0.0, g], 1.0, CollectedMerit(m, a, b, 1.0));
  }

  lemma CollectedIsLess(m: MeritModel, a: Parts, b: Parts)
    requires m.Fits(a) && m.Fits(b) && SameShape(a, b) && m.penalty > 0.0
    requires SlacksOf(m, a, b).Missing(1.0) >= 0.0 && SlacksOf(m, a, b).Missing(1.0) != 0.0
    ensures CollectedMerit(m, a, b, 1.0) != MeritAt(m, a, b, 1.0)
  {
    var missing := SlacksOf(m, a, b).Missing(1.0);
    hide MeritAt, SlacksOf, Slacks.Missing;
    ProductSign(m.penalty, missing, Times(m.penalty, missing));
  }

  lemma Misled(m: MeritModel, c: Parts, n: Parts, a: Parts, b: Parts, grad: Vector, alpha: real, value: real)
    requires SameConstraints(m, c, n, m, a, b) && Consistent(grad, a, b) && MinimisesCollected(m, a, b, alpha, value)
    requires value != MeritAt(m, a, b, alpha)
    ensures !AlwaysMinimises(m, c, n)
  {
    hide MeritAt, SlacksOf, SameConstraints, Consistent, MinimisesCollected;
    assert !MinimisesMerit(m, a, b, alpha, value);
  }

  // ----- an input on which the search is misled

  /** Two constraints: the first is slack and does not move, the second is tight and moves out at rate one, which is
      penalised with two; the objective falls at rate one. */
  ghost predicate IsTailInput(m: MeritModel, c: Parts, n: Parts)
  {
    && m == MeritModel(0.0, [-1.0, 0.0], [-10.0, -10.0], [0.0, 0.0], 2.0)
    && c == Parts([0.0], 0.0, [0.0, 0.0], [0.0]) && n == Parts([1.0], -1.0, [0.0, 1.0], [0.0])
  }

  lemma TailSlacks(m: MeritModel, c: Parts, n: Parts)
    requires IsTailInput(m, c, n)
    ensures m.Fits(c) && m.Fits(n)
    ensures SlacksOf(m, c, n) == Slacks([-1.0, 0.0], [0.0, 1.0], [-9.0, -10.0], [0.0, -1.0])
  {
  }

  lemma TailRepresents(s: Slacks, t: real)
    requires s == Slacks([-1.0, 0.0], [0.0, 1.0], [-9.0, -10.0], [0.0, -1.0]) && 0.0 <= t <= 1.0
    ensures s.Fits() && s.Represented(t) == 0.0 && s.Missing(t) == t
  {
    TailStops(s);
    var v, d, w, e := s.upper, s.upperChange, s.lower, s.lowerChange;
    assert AlongTo(v, d, t, 1) == AlongTo(v, d, t, 0) + EntryAt(v, d, t, 0);
    assert AlongTo(v, d, t, 2) == AlongTo(v, d, t, 1) + EntryAt(v, d, t, 1);
    assert AlongTo(w, e, t, 1) == AlongTo(w, e, t, 0) + EntryAt(w, e, t, 0);
    assert AlongTo(w, e, t, 2) == AlongTo(w, e, t, 1) + EntryAt(w, e, t, 1);
    hide Stop;
  }

  lemma TailStops(s: Slacks)
    requires s == Slacks([-1.0, 0.0], [0.0, 1.0], [-9.0, -10.0], [0.0, -1.0])
    ensures Stop(s.upper, s.upperChange) == 1 && Stop(s.lower, s.lowerChange) == 2
  {
    SupportIs(s.upper, 1, 2);
    SupportIs(s.upperChange, 2, 2);
    SupportIs(s.lower, 2, 2);
    SupportIs(s.lowerChange, 2, 2);
  }

  lemma TailMerit(m: MeritModel, c: Parts, n: Parts, t: real)
    requires IsTailInput(m, c, n) && 0.0 <= t <= 1.0
    ensures m.Fits(c) && m.Fits(n) && SameShape(c, n)
    ensures CollectedMerit(m, c, n, t) == -t && MeritAt(m, c, n, t) == t
  {
    TailSlacks(m, c, n);
    TailCurvature(c, n);
    var s := SlacksOf(m, c, n);
    TailRepresents(s, t);
    FlatMerit(m, c, n, t);
    hide Dot, LinComb, SlacksOf, MeritAt, Slacks.Represented, Slacks.Missing;
    var value := MeritAt(m, c, n, t);
    assert value == Times(t, -1.0) + Times(2.0, 0.0 + t);
    assert value == t;
  }

  lemma TailCurvature(c: Parts, n: Parts)
    requires SameShape(c, n) && |c.primal| == 1 && c.hess == n.hess == [0.0]
    ensures IsFlat(c, n)
  {
    DotOne(c.primal, n.hess);
    DotOne(n.primal, c.hess);
    DotOne(LinComb(1.0, n.primal, -1.0, c.primal), c.hess);
  }

  /** Every result of the search on this input is the Newton direction, whose merit 1 is above the merit 0 of the Cauchy
      direction, while the search reports -1. */
  lemma TailMisleads(m: MeritModel, c: Parts, n: Parts, alpha: real, value: real)
    requires IsTailInput(m, c, n) && MinimisesCollected(m, c, n, alpha, value)
    ensures alpha == 1.0 && value == -1.0
    ensures m.Quadratic(c) == 0.0 && m.Quadratic(n) == 1.0
  {
    hide CollectedMerit, MeritAt, MeritModel.Quadratic;
    TailMerit(m, c, n, alpha);
    TailMerit(m, c, n, 0.0);
    TailMerit(m, c, n, 1.0);
    SegmentEnds(m, c, n);
  }
}
