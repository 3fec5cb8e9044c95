/** Minimising a piecewise quadratic over [0, 1] by walking through its sorted breakpoints: the sweep of
    sleqp_linesearch_trial_step_exact in src/main/linesearch.c. */
module Sweep {
  import opened LinearAlgebra
  import opened Hinges

  /** The quadratic of one segment that starts at the point last. */
  function SegmentValue(offset: real, linear: real, quadratic: real, last: real, t: real): real
  {
    offset + linear * (t - last) + 0.5 * t * quadratic * t
  }

  /** The whole function: a quadratic plus weighted hinges. */
  function PieceValue(b: seq<BreakPoint>, offset: real, linear: real, quadratic: real, penalty: real, t: real): real
  {
    offset + t * linear + penalty * Hinge(b, t) + 0.5 * t * quadratic * t
  }

  function SlopesTo(b: seq<BreakPoint>, k: nat): real
    requires k <= |b|
  {
    if k == 0 then 0.0 else SlopesTo(b, k - 1) + b[k - 1].slopeChange
  }

  function MomentsTo(b: seq<BreakPoint>, k: nat): real
    requires k <= |b|
  {
    if k == 0 then 0.0 else MomentsTo(b, k - 1) + b[k - 1].slopeChange * b[k - 1].point
  }

  /** Hinges to the left of t are straight lines. */
  lemma {:induction false} HingesBelow(b: seq<BreakPoint>, t: real, k: nat)
    requires k <= |b| && forall i :: 0 <= i < k ==> b[i].point <= t
    ensures HingeTo(b, t, k) == SlopesTo(b, k) * t - MomentsTo(b, k)
  {
    if k > 0 {
      HingesBelow(b, t, k - 1);
      var s, p := b[k - 1].slopeChange, b[k - 1].point;
      assert s * Plus(t - p) == s * t - s * p;
      assert (SlopesTo(b, k - 1) + s) * t == SlopesTo(b, k - 1) * t + s * t;
    }
  }

  /** Hinges to the right of t are zero. */
  lemma {:induction false} HingesAbove(b: seq<BreakPoint>, t: real, j: nat, k: nat)
    requires j <= k <= |b| && forall i :: j <= i < k ==> t <= b[i].point
    ensures HingeTo(b, t, k) == HingeTo(b, t, j)
  {
    if j < k {
      HingesAbove(b, t, j, k - 1);
      assert b[k - 1].slopeChange * Plus(t - b[k - 1].point) == b[k - 1].slopeChange * 0.0;
    }
  }

  /** The state of the sweep after k breakpoints: offset and slope of the current segment. */
  ghost predicate AtBreakpoint(b: seq<BreakPoint>, offset: real, linear: real, penalty: real,
                               k: nat, last: real, off: real, lin: real)
    requires k <= |b|
  {
    && last == (if k == 0 then 0.0 else b[k - 1].point)
    && lin == linear + penalty * SlopesTo(b, k)
    && off == offset + last * linear + penalty * (SlopesTo(b, k) * last - MomentsTo(b, k))
  }

  lemma PieceOnSegment(b: seq<BreakPoint>, offset: real, linear: real, quadratic: real, penalty: real,
                       k: nat, last: real, off: real, lin: real, t: real)
    requires k < |b| && Sorted(b) && InUnit(b)
    requires AtBreakpoint(b, offset, linear, penalty, k, last, off, lin)
    requires last <= t <= b[k].point
    ensures PieceValue(b, offset, linear, quadratic, penalty, t) == SegmentValue(off, lin, quadratic, last, t)
  {
    hide Plus, SlopesTo, MomentsTo;
    HingesBelow(b, t, k);
    HingesAbove(b, t, k, |b|);
    LineThrough(offset, linear, penalty, SlopesTo(b, k), MomentsTo(b, k), last, off, lin, t, Hinge(b, t));
  }

  lemma LineThrough(offset: real, linear: real, penalty: real, s: real, m: real,
                    last: real, off: real, lin: real, t: real, h: real)
    requires h == s * t - m && lin == linear + penalty * s
    requires off == offset + last * linear + penalty * (s * last - m)
    ensures offset + t * linear + penalty * h == off + lin * (t - last)
  {
  }

  lemma NextBreakpoint(b: seq<BreakPoint>, offset: real, linear: real, penalty: real, k: nat,
                       last: real, off: real, lin: real, p: real, c: real, nextOff: real, nextLin: real)
    requires k < |b| && b[k] == BreakPoint(c, p)
    requires AtBreakpoint(b, offset, linear, penalty, k, last, off, lin)
    requires nextOff == off + (p - last) * lin && nextLin == lin + penalty * c
    ensures AtBreakpoint(b, offset, linear, penalty, k + 1, p, nextOff, nextLin)
  {
    var s, m := SlopesTo(b, k), MomentsTo(b, k);
    LineThrough(offset, linear, penalty, s, m, last, off, lin, p, s * p - m);
    assert (p - last) * lin == lin * (p - last);
    assert (s + c) * p - (m + c * p) == s * p - m;
    Distribute(penalty, s, c);
  }

  lemma SegmentDifference(offset: real, linear: real, quadratic: real, last: real, x: real, y: real, g: real)
    requires g == linear + 0.5 * quadratic * (x + y)
    ensures SegmentValue(offset, linear, quadratic, last, y) - SegmentValue(offset, linear, quadratic, last, x)
         == Times(y - x, g)
  {
    assert (y - x) * (quadratic * (x + y)) == y * quadratic * y - x * quadratic * x;
    assert (y - x) * (linear + 0.5 * quadratic * (x + y))
        == linear * (y - x) + 0.5 * ((y - x) * (quadratic * (x + y)));
  }

  lemma TimesSign(a: real, b: real)
    requires a >= 0.0
    ensures b >= 0.0 ==> Times(a, b) >= 0.0
    ensures b <= 0.0 ==> Times(a, b) <= 0.0
  {
    if b <= 0.0 { assert a * -b == -(a * b); }
  }

  /** On a segment a quadratic is bounded below by its values at the two ends and at its stationary point. */
  lemma SegmentMinimum(offset: real, linear: real, quadratic: real, last: real, current: real, m: real, t: real)
    requires last <= t <= current
    requires m <= SegmentValue(offset, linear, quadratic, last, last)
    requires m <= SegmentValue(offset, linear, quadratic, last, current)
    requires quadratic != 0.0 && last <= -1.0 * linear / quadratic <= current ==>
      m <= SegmentValue(offset, linear, quadratic, last, -1.0 * linear / quadratic)
    ensures m <= SegmentValue(offset, linear, quadratic, last, t)
  {
    var g := linear + 0.5 * quadratic * (last + t);
    var h := linear + 0.5 * quadratic * (t + current);
    hide SegmentValue, Times;
    SegmentDifference(offset, linear, quadratic, last, last, t, g);
    SegmentDifference(offset, linear, quadratic, last, t, current, h);
    TimesSign(t - last, g);
    TimesSign(current - t, h);
    if g < 0.0 && h > 0.0 {
      // the slope changes sign inside the segment, so the stationary point is a minimum in it
      var v := StationaryInside(linear, quadratic, last, current, t, g, h);
      SegmentDifference(offset, linear, quadratic, last, v, t, linear + 0.5 * quadratic * (v + t));
    }
  }

  lemma StationaryInside(linear: real, quadratic: real, last: real, current: real, t: real, g: real, h: real)
    returns (v: real)
    requires last <= t <= current
    requires g == linear + 0.5 * quadratic * (last + t) && h == linear + 0.5 * quadratic * (t + current)
    requires g < 0.0 < h
    ensures quadratic != 0.0 && v == -1.0 * linear / quadratic && last <= v <= current
    ensures Times(t - v, linear + 0.5 * quadratic * (v + t)) >= 0.0
  {
    var q := quadratic;
    assert h - g == Times(current - last, 0.5 * q) by { SlopeGain(linear, q, last, t, current); }
    assert q > 0.0 by {
      hide Times;
      TimesSign(current - last, 0.5 * q);
    }
    v := -1.0 * linear / q;
    var x, y := 0.5 * (last + t), 0.5 * (t + current);
    SlopeFromStationary(linear, q, v, x);
    SlopeFromStationary(linear, q, v, y);
    SlopeFromStationary(linear, q, v, 0.5 * (v + t));
    hide Times;
    // v lies between the two midpoints
    TimesSign(q, x - v);
    TimesSign(q, y - v);
    SquareSign(q, t - v);
  }

  lemma SlopeGain(linear: real, q: real, last: real, t: real, current: real)
    ensures linear + 0.5 * q * (t + current) - (linear + 0.5 * q * (last + t)) == Times(current - last, 0.5 * q)
  {
  }

  lemma SlopeFromStationary(linear: real, q: real, v: real, x: real)
    requires q > 0.0 && v == -1.0 * linear / q
    ensures linear + 0.5 * q * (2.0 * x) == Times(q, x - v)
  {
    assert q * v == -linear;
  }

  lemma SquareSign(q: real, d: real)
    requires q > 0.0
    ensures Times(d, Times(q, 0.5 * d)) >= 0.0
  {
    var s := Square(d);
    assert Times(d, Times(q, 0.5 * d)) == Times(0.5 * q, s);
    hide Times;
    TimesSign(0.5 * q, s);
  }

  /** The loop over the breakpoints: the point and value of the global minimum on [0, 1]. */
  method MinimiseOverBreakpoints(b: array<BreakPoint>, n: nat,
                                 offset: real, linear: real, quadratic: real, penalty: real)
    returns (minAlpha: real, minValue: real)
    requires 0 < n <= b.Length && Sorted(b[..n]) && InUnit(b[..n]) && b[n - 1].point == 1.0
    ensures 0.0 <= minAlpha <= 1.0
    ensures minValue == PieceValue(b[..n], offset, linear, quadratic, penalty, minAlpha)
    ensures forall t :: 0.0 <= t <= 1.0 ==> minValue <= PieceValue(b[..n], offset, linear, quadratic, penalty, t)
  {
    hide SegmentValue, PieceValue, AtBreakpoint;
    ghost var bs := b[..n];
    var off, lin := offset, linear;
    minValue := offset;
    minAlpha := 0.0;
    var last := 0.0;
    StartOfSweep(bs, offset, linear, quadratic, penalty);
    for k := 0 to n
      invariant last == if k == 0 then 0.0 else bs[k - 1].point
      invariant AtBreakpoint(bs, offset, linear, penalty, k, last, off, lin)
      invariant 0.0 <= minAlpha <= last <= 1.0
      invariant minValue == PieceValue(bs, offset, linear, quadratic, penalty, minAlpha)
      invariant forall t :: 0.0 <= t <= last ==> minValue <= PieceValue(bs, offset, linear, quadratic, penalty, t)
    {
      var current := b[k].point;
      assert bs[k] == b[k];
      assert last <= current;
      PieceOnSegment(bs, offset, linear, quadratic, penalty, k, last, off, lin, last);
      PieceOnSegment(bs, offset, linear, quadratic, penalty, k, last, off, lin, current);
      assert minValue <= PieceValue(bs, offset, linear, quadratic, penalty, last);
      ghost var before := minValue;
      if quadratic != 0.0 {
        var alpha := -1.0 * lin / quadratic;
        var value := SegmentValue(off, lin, quadratic, last, alpha);
        if last <= alpha && alpha <= current && value < minValue {
          minValue := value;
          minAlpha := alpha;
          PieceOnSegment(bs, offset, linear, quadratic, penalty, k, last, off, lin, alpha);
        }
      }
      var value := SegmentValue(off, lin, quadratic, last, current);
      if value < minValue {
        minValue := value;
        minAlpha := current;
      }
      forall t | 0.0 <= t <= current
        ensures minValue <= PieceValue(bs, offset, linear, quadratic, penalty, t)
      {
        if t > last {
          SegmentMinimum(off, lin, quadratic, last, current, minValue, t);
          PieceOnSegment(bs, offset, linear, quadratic, penalty, k, last, off, lin, t);
        }
      }
      var nextOff := off + (current - last) * lin;
      var nextLin := lin + penalty * b[k].slopeChange;
      NextBreakpoint(bs, offset, linear, penalty, k, last, off, lin, current, b[k].slopeChange, nextOff, nextLin);
      off, lin, last := nextOff, nextLin, current;
    }
  }

  lemma StartOfSweep(b: seq<BreakPoint>, offset: real, linear: real, quadratic: real, penalty: real)
    requires InUnit(b)
    ensures AtBreakpoint(b, offset, linear, penalty, 0, 0.0, offset, linear)
    ensures PieceValue(b, offset, linear, quadratic, penalty, 0.0) == offset
  {
    HingesAbove(b, 0.0, 0, |b|);
  }
}
