/** sleqp_max_step_length in src/main/util.c: how far one can move along a direction inside a box. */
module StepLength {
  import opened LinearAlgebra
  import opened SparseVec

  /** The bound b stops the coordinate x on its way along d. */
  predicate Stops(x: real, d: real, b: real)
  {
    (d > 0.0 && b - x > 0.0) || (d < 0.0 && b - x < 0.0)
  }

  /** The least of start and the step lengths at which one of the first k coordinates meets its bound. */
  function CapTo(x: Vector, d: Vector, b: Vector, start: real, k: nat): real
    requires k <= |x| == |d| == |b|
  {
    if k == 0 then start
    else if Stops(x[k - 1], d[k - 1], b[k - 1])
    then Min(CapTo(x, d, b, start, k - 1), (b[k - 1] - x[k - 1]) / d[k - 1])
    else CapTo(x, d, b, start, k - 1)
  }

  lemma {:induction false} CapSkip(x: Vector, d: Vector, b: Vector, start: real, j: nat, k: nat)
    requires j <= k <= |x| == |d| == |b|
    requires forall i :: j <= i < k ==> x[i] == 0.0 && d[i] == 0.0 && b[i] == 0.0
    ensures CapTo(x, d, b, start, k) == CapTo(x, d, b, start, j)
  {
    if j < k { CapSkip(x, d, b, start, j, k - 1); }
  }

  ghost predicate InBox(x: Vector, l: Vector, u: Vector)
    requires |x| == |l| == |u|
  {
    forall i :: 0 <= i < |x| ==> l[i] <= x[i] <= u[i]
  }

  /** Some coordinate sits on a bound and moves out of the box. */
  ghost predicate Blocked(x: Vector, d: Vector, l: Vector, u: Vector)
    requires |x| == |d| == |l| == |u|
  {
    exists i :: 0 <= i < |x| && ((x[i] == u[i] && d[i] > 0.0) || (x[i] == l[i] && d[i] < 0.0))
  }

  function Moved(x: Vector, d: Vector, t: real): (z: Vector)
    requires |x| == |d|
    ensures |z| == |x|
  {
    LinComb(1.0, x, t, d)
  }

  /** Before its cap a coordinate stays on its side of the bound, after it it does not. */
  lemma CapOfOne(x: real, d: real, b: real, t: real, td: real)
    requires Stops(x, d, b) && td == t * d
    ensures (b - x) / d > 0.0
    ensures d > 0.0 ==> (x + td <= b <==> t <= (b - x) / d)
    ensures d < 0.0 ==> (x + td >= b <==> t <= (b - x) / d)
  {
    var c := (b - x) / d;
    var w := (t - c) * Abs(d);
    assert c * d == b - x;
    assert w == if d > 0.0 then td - (b - x) else (b - x) - td;
    ProductSign(t - c, Abs(d), w);
    ProductSign(c - t, Abs(d), -w);
  }

  lemma {:induction false} CapIsLeast(x: Vector, d: Vector, b: Vector, start: real, k: nat)
    requires k <= |x| == |d| == |b|
    ensures var c := CapTo(x, d, b, start, k);
      && c <= start && (start > 0.0 ==> c > 0.0)
      && (forall i :: 0 <= i < k && Stops(x[i], d[i], b[i]) ==> c <= (b[i] - x[i]) / d[i])
      && (c == start || exists i :: 0 <= i < k && Stops(x[i], d[i], b[i]) && c == (b[i] - x[i]) / d[i])
  {
    if k > 0 {
      CapIsLeast(x, d, b, start, k - 1);
      if Stops(x[k - 1], d[k - 1], b[k - 1]) { CapOfOne(x[k - 1], d[k - 1], b[k - 1], 0.0, 0.0); }
    }
  }

  lemma StaysScalar(x: real, d: real, l: real, u: real, t: real, td: real)
    requires t > 0.0 && l <= x <= u && td == t * d
    ensures l <= x + td <= u <==>
      && !((x == u && d > 0.0) || (x == l && d < 0.0))
      && (Stops(x, d, u) ==> t <= (u - x) / d)
      && (Stops(x, d, l) ==> t <= (l - x) / d)
  {
    ProductSign(t, d, td);
    ProductSign(t, -d, -td);
    if d == 0.0 { assert td == t * 0.0; }
    if Stops(x, d, u) { CapOfOne(x, d, u, t, td); }
    if Stops(x, d, l) { CapOfOne(x, d, l, t, td); }
  }

  /** A step from a boxed point stays in the box when no coordinate is blocked and no cap is exceeded. */
  lemma StaysInBox(x: Vector, d: Vector, l: Vector, u: Vector, t: real, i: int)
    requires |x| == |d| == |l| == |u| && 0 <= i < |x| && t > 0.0 && l[i] <= x[i] <= u[i]
    ensures l[i] <= Moved(x, d, t)[i] <= u[i] <==>
      && !((x[i] == u[i] && d[i] > 0.0) || (x[i] == l[i] && d[i] < 0.0))
      && (Stops(x[i], d[i], u[i]) ==> t <= (u[i] - x[i]) / d[i])
      && (Stops(x[i], d[i], l[i]) ==> t <= (l[i] - x[i]) / d[i])
  {
    assert Moved(x, d, t)[i] == x[i] + t * d[i];
    hide Moved, Stops;
    StaysScalar(x[i], d[i], l[i], u[i], t, t * d[i]);
  }

  /** From a boxed point, the computed length is admissible exactly when no coordinate is blocked, and then it is
      the largest admissible length up to the starting one. */
  lemma LargestAdmissible(x: Vector, d: Vector, l: Vector, u: Vector, start: real)
    requires |x| == |d| == |l| == |u| && InBox(x, l, u) && start > 0.0
    ensures var s := CapTo(x, d, l, CapTo(x, d, u, start, |x|), |x|);
      && 0.0 < s <= start
      && (InBox(Moved(x, d, s), l, u) <==> !Blocked(x, d, l, u))
      && (forall t :: s < t <= start ==> !InBox(Moved(x, d, t), l, u))
  {
    var c := CapTo(x, d, u, start, |x|);
    var s := CapTo(x, d, l, c, |x|);
    CapIsLeast(x, d, u, start, |x|);
    CapIsLeast(x, d, l, c, |x|);
    forall i | 0 <= i < |x|
      ensures l[i] <= Moved(x, d, s)[i] <= u[i] <==>
        !((x[i] == u[i] && d[i] > 0.0) || (x[i] == l[i] && d[i] < 0.0))
    {
      StaysInBox(x, d, l, u, s, i);
    }
    forall t | s < t <= start ensures !InBox(Moved(x, d, t), l, u) {
      var i :| 0 <= i < |x| && ((Stops(x[i], d[i], u[i]) && s == (u[i] - x[i]) / d[i])
                              || (Stops(x[i], d[i], l[i]) && s == (l[i] - x[i]) / d[i]));
      StaysInBox(x, d, l, u, t, i);
    }
  }

  /** A coordinate at x moving by td passes the bound b, which lies ahead of it. */
  ghost predicate Passes(x: real, td: real, b: real)
  {
    x < b < x + td || x + td < b < x
  }

  /** With step t no coordinate passes a bound. */
  ghost predicate PassesNone(x: Vector, d: Vector, l: Vector, u: Vector, t: real)
    requires |x| == |d| == |l| == |u|
  {
    forall i :: 0 <= i < |x| ==> !Passes(x[i], Times(t, d[i]), l[i]) && !Passes(x[i], Times(t, d[i]), u[i])
  }

  lemma PassesIff(x: real, d: real, b: real, t: real)
    requires t > 0.0
    ensures Passes(x, Times(t, d), b) <==> Stops(x, d, b) && t > (b - x) / d
  {
    ProductSign(t, d, t * d);
    ProductSign(t, -d, -(t * d));
    if d == 0.0 { assert t * d == 0.0; }
    if Stops(x, d, b) { CapOfOne(x, d, b, t, t * d); }
  }

  /** From any point, the computed length is the largest one up to the starting one that passes no bound. */
  lemma LargestUnpassed(x: Vector, d: Vector, l: Vector, u: Vector, start: real)
    requires |x| == |d| == |l| == |u| && start > 0.0
    ensures var s := CapTo(x, d, l, CapTo(x, d, u, start, |x|), |x|);
      && 0.0 < s <= start && PassesNone(x, d, l, u, s)
      && (forall t :: s < t <= start ==> !PassesNone(x, d, l, u, t))
  {
    var c := CapTo(x, d, u, start, |x|);
    var s := CapTo(x, d, l, c, |x|);
    CapIsLeast(x, d, u, start, |x|);
    CapIsLeast(x, d, l, c, |x|);
    hide Passes, Stops, CapTo;
    forall i | 0 <= i < |x| ensures !Passes(x[i], Times(s, d[i]), l[i]) && !Passes(x[i], Times(s, d[i]), u[i]) {
      PassesIff(x[i], d[i], l[i], s);
      PassesIff(x[i], d[i], u[i], s);
    }
    forall t | s < t <= start ensures !PassesNone(x, d, l, u, t) {
      var i :| 0 <= i < |x| && ((Stops(x[i], d[i], u[i]) && s == (u[i] - x[i]) / d[i])
                              || (Stops(x[i], d[i], l[i]) && s == (l[i] - x[i]) / d[i]));
      PassesIff(x[i], d[i], l[i], t);
      PassesIff(x[i], d[i], u[i], t);
    }
  }

  /** The length is the largest one up to start that passes no bound. From a point in the box it stays there exactly
      when no coordinate is blocked, and no longer one does. */
  ghost predicate IsLongest(x: Vector, d: Vector, l: Vector, u: Vector, start: real, length: real)
    requires |x| == |d| == |l| == |u|
  {
    && 0.0 < length <= start && PassesNone(x, d, l, u, length)
    && (forall t :: length < t <= start ==> !PassesNone(x, d, l, u, t))
    && (InBox(x, l, u) ==>
          && (InBox(Moved(x, d, length), l, u) <==> !Blocked(x, d, l, u))
          && (forall t :: length < t <= start ==> !InBox(Moved(x, d, t), l, u)))
  }

  lemma LongestFromCaps(x: Vector, d: Vector, l: Vector, u: Vector, start: real, length: real)
    requires |x| == |d| == |l| == |u| && start > 0.0
    requires length == CapTo(x, d, l, CapTo(x, d, u, start, |x|), |x|)
    ensures IsLongest(x, d, l, u, start, length)
  {
    hide CapTo, PassesNone, InBox, Blocked, Moved;
    LargestUnpassed(x, d, l, u, start);
    if InBox(x, l, u) { LargestAdmissible(x, d, l, u, start); }
  }

  /** A blocked coordinate leaves the box with every step, and a box that holds a step holds all shorter ones. */
  lemma ShorterStep(x: Vector, d: Vector, l: Vector, u: Vector, s: real, t: real)
    requires |x| == |d| == |l| == |u| && InBox(x, l, u) && 0.0 < s <= t
    ensures Blocked(x, d, l, u) ==> !InBox(Moved(x, d, s), l, u)
    ensures InBox(Moved(x, d, t), l, u) ==> InBox(Moved(x, d, s), l, u)
  {
    forall i | 0 <= i < |x|
      ensures l[i] <= Moved(x, d, t)[i] <= u[i] ==> l[i] <= Moved(x, d, s)[i] <= u[i]
      ensures l[i] <= Moved(x, d, s)[i] <= u[i] ==>
        !((x[i] == u[i] && d[i] > 0.0) || (x[i] == l[i] && d[i] < 0.0))
    {
      hide Moved, Stops;
      StaysInBox(x, d, l, u, s, i);
      StaysInBox(x, d, l, u, t, i);
    }
  }

  /** One of the two passes of sleqp_max_step_length, against the bounds b. */
  method CapByBound(x: Vec, d: Vec, b: Vec, start: real) returns (length: real)
    requires x.Valid() && d.Valid() && b.Valid() && x.dim == d.dim == b.dim
    ensures length == CapTo(x.Dense(), d.Dense(), b.Dense(), start, x.dim)
  {
    hide Vec.At;
    ghost var xs, ds, bs := x.Dense(), d.Dense(), b.Dense();
    length := start;
    var kx, kd, kb := 0, 0, 0;
    ghost var j := 0;
    while kx < |x.indices| || kd < |d.indices| || kb < |b.indices|
      invariant 0 <= j <= x.dim && x.Cursor(kx, j) && d.Cursor(kd, j) && b.Cursor(kb, j)
      invariant length == CapTo(xs, ds, bs, start, j)
      decreases |x.indices| - kx + |d.indices| - kd + |b.indices| - kb
    {
      var idx, xVal, dVal, bVal;
      idx, xVal, dVal, bVal, kx, kd, kb := Read3(x, d, b, kx, kd, kb, j);
      CapSkip(xs, ds, bs, start, j, idx);
      var diff := bVal - xVal;
      if (dVal > 0.0 && diff > 0.0) || (dVal < 0.0 && diff < 0.0) {
        length := Min(length, diff / dVal);
      }
      j := idx + 1;
    }
    CursorEnd(x, j);
    CursorEnd(d, j);
    CursorEnd(b, j);
    CapSkip(xs, ds, bs, start, j, x.dim);
  }

  /** sleqp_max_step_length */
  method MaxStepLength(x: Vec, d: Vec, l: Vec, u: Vec, start: real) returns (length: real)
    requires x.Valid() && d.Valid() && l.Valid() && u.Valid() && x.dim == d.dim == l.dim == u.dim
    requires start > 0.0
    ensures IsLongest(x.Dense(), d.Dense(), l.Dense(), u.Dense(), start, length)
  {
    hide Vec.At, IsLongest, CapTo;
    var upper := CapByBound(x, d, u, start);
    length := CapByBound(x, d, l, upper);
    LongestFromCaps(x.Dense(), d.Dense(), l.Dense(), u.Dense(), start, length);
  }

  /** A coordinate on its upper bound that moves up is not held back: the full step leaves the box. */
  lemma BlockedCoordinateEscapes()
    ensures var x, d, l, u := [1.0], [1.0], [0.0], [1.0];
      InBox(x, l, u) && CapTo(x, d, l, CapTo(x, d, u, 1.0, 1), 1) == 1.0 && !InBox(Moved(x, d, 1.0), l, u)
  {
    var x, d, l, u := [1.0], [1.0], [0.0], [1.0];
    assert CapTo(x, d, u, 1.0, 1) == CapTo(x, d, u, 1.0, 0);
    assert CapTo(x, d, l, 1.0, 1) == CapTo(x, d, l, 1.0, 0);
    assert Moved(x, d, 1.0)[0] == 2.0;
  }
}
