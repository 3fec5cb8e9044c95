/** Piecewise linear violations as lists of breakpoints: the theory behind collect_breakpoints and
    compute_breakpoints in src/main/linesearch.c. */
module Hinges {
  import opened LinearAlgebra

  datatype BreakPoint = BreakPoint(slopeChange: real, point: real)

  function Plus(a: real): real { if a > 0.0 then a else 0.0 }

  /** The value at t of the hinges of the first k breakpoints. */
  function HingeTo(b: seq<BreakPoint>, t: real, k: nat): real
    requires k <= |b|
  {
    if k == 0 then 0.0 else HingeTo(b, t, k - 1) + Times(b[k - 1].slopeChange, Plus(t - b[k - 1].point))
  }

  function Hinge(b: seq<BreakPoint>, t: real): real { HingeTo(b, t, |b|) }

  /** The breakpoint of t -> Plus(v + t*d) inside [0, 1], if there is one. */
  function Kink(v: real, d: real): seq<BreakPoint>
  {
    if v >= 0.0 then
      if d < 0.0 && -v / d <= 1.0 then [BreakPoint(-d, -v / d)] else []
    else
      if d > 0.0 && -v / d <= 1.0 then [BreakPoint(d, -v / d)] else []
  }

  function InitialSlope(v: real, d: real): real { if v >= 0.0 then d else 0.0 }

  /** The breakpoints, the violation and the slope that belong to the first k entries of v and d. */
  function Collected(v: Vector, d: Vector, k: nat): seq<BreakPoint>
    requires k <= |v| && k <= |d|
  {
    if k == 0 then [] else Collected(v, d, k - 1) + Kink(v[k - 1], d[k - 1])
  }

  function ViolationTo(v: Vector, k: nat): real
    requires k <= |v|
  {
    if k == 0 then 0.0 else ViolationTo(v, k - 1) + Plus(v[k - 1])
  }

  function SlopeTo(v: Vector, d: Vector, k: nat): real
    requires k <= |v| && k <= |d|
  {
    if k == 0 then 0.0 else SlopeTo(v, d, k - 1) + InitialSlope(v[k - 1], d[k - 1])
  }

  /** Entry i of Plus(v + t*d). */
  function EntryAt(v: Vector, d: Vector, t: real, i: nat): real
    requires i < |v| && i < |d|
  {
    Plus(v[i] + Times(t, d[i]))
  }

  /** The sum over the first k entries of Plus(v + t*d). */
  function AlongTo(v: Vector, d: Vector, t: real, k: nat): real
    requires k <= |v| && k <= |d|
  {
    if k == 0 then 0.0 else AlongTo(v, d, t, k - 1) + EntryAt(v, d, t, k - 1)
  }

  ghost predicate InUnit(b: seq<BreakPoint>)
  {
    forall i :: 0 <= i < |b| ==> 0.0 <= b[i].point <= 1.0 && b[i].slopeChange >= 0.0
  }

  ghost predicate Sorted(b: seq<BreakPoint>)
  {
    forall i, j :: 0 <= i < j < |b| ==> b[i].point <= b[j].point
  }

  // ----- one entry

  /** Where v + t*d changes sign: p = -v/d, seen through w = |d|*(t - p). */
  lemma Crossing(v: real, d: real, t: real, p: real, e: real) returns (w: real)
    requires d != 0.0 && p == -v / d && e == Abs(d)
    ensures w == e * (t - p)
    ensures w == if d < 0.0 then -(v + t * d) else v + t * d
    ensures t > p <==> w > 0.0
  {
    w := e * (t - p);
    var q := p * d;
    assert q == -v;
    assert w == if d < 0.0 then q - t * d else t * d - q;
    ProductSign(e, t - p, w);
    ProductSign(e, p - t, -w);
    if t == p { assert w == e * 0.0; }
  }

  lemma KinkInUnit(v: real, d: real)
    ensures |Kink(v, d)| <= 1 && InUnit(Kink(v, d))
  {
    if Kink(v, d) != [] {
      var w := Crossing(v, d, 0.0, -v / d, Abs(d));
    }
  }

  /** Within [0, 1] an entry is its starting value, its starting slope and its kink. */
  lemma KinkRepresents(v: real, d: real, t: real)
    requires 0.0 <= t <= 1.0
    ensures Plus(v + Times(t, d)) == Plus(v) + (if v >= 0.0 then Times(t, d) else 0.0) + Hinge(Kink(v, d), t)
  {
    if (v >= 0.0 && d < 0.0) || (v < 0.0 && d > 0.0) {
      var p, e := -v / d, Abs(d);
      var w := Crossing(v, d, t, p, e);
      if p <= 1.0 { HingeOne(BreakPoint(e, p), t, w); }
    } else if d > 0.0 {
      ScaleLe(t, 0.0, d);
    } else {
      ScaleLe(t, d, 0.0);
    }
  }

  lemma HingeOne(b: BreakPoint, t: real, w: real)
    requires w == b.slopeChange * (t - b.point)
    ensures Hinge([b], t) == if t > b.point then w else 0.0
  {
    assert HingeTo([b], t, 1) == HingeTo([b], t, 0) + b.slopeChange * Plus(t - b.point);
  }

  // ----- lists

  lemma {:induction false} HingeToAppend(a: seq<BreakPoint>, b: seq<BreakPoint>, t: real, k: nat)
    requires k <= |b|
    ensures HingeTo(a + b, t, |a| + k) == HingeTo(a, t, |a|) + HingeTo(b, t, k)
  {
    if k == 0 {
      HingeToPrefix(a, b, t, |a|);
    } else {
      HingeToAppend(a, b, t, k - 1);
    }
  }

  lemma {:induction false} HingeToPrefix(a: seq<BreakPoint>, b: seq<BreakPoint>, t: real, k: nat)
    requires k <= |a|
    ensures HingeTo(a + b, t, k) == HingeTo(a, t, k)
  {
    if k > 0 { HingeToPrefix(a, b, t, k - 1); }
  }

  lemma HingeAppend(a: seq<BreakPoint>, b: seq<BreakPoint>, t: real)
    ensures Hinge(a + b, t) == Hinge(a, t) + Hinge(b, t)
  {
    HingeToAppend(a, b, t, |b|);
  }

  lemma HingeSplit(b: seq<BreakPoint>, t: real, k: nat)
    requires k < |b|
    ensures Hinge(b, t) == Hinge(b[..k] + b[k + 1..], t) + Times(b[k].slopeChange, Plus(t - b[k].point))
  {
    var c := [b[k]];
    assert b == b[..k] + (c + b[k + 1..]);
    HingeAppend(b[..k], c + b[k + 1..], t);
    HingeAppend(c, b[k + 1..], t);
    HingeAppend(b[..k], b[k + 1..], t);
    assert Hinge(c, t) == HingeTo(c, t, 0) + Times(c[0].slopeChange, Plus(t - c[0].point));
  }

  /** The hinges do not depend on the order of the breakpoints. */
  lemma {:induction false} HingePermutation(a: seq<BreakPoint>, b: seq<BreakPoint>, t: real)
    requires multiset(a) == multiset(b)
    ensures Hinge(a, t) == Hinge(b, t)
    decreases |a|
  {
    hide Hinge, Plus, Times;
    assert |multiset(a)| == |a| && |multiset(b)| == |b|;
    if a != [] {
      assert a[0] in multiset(b);
      var k :| 0 <= k < |b| && b[k] == a[0];
      var rest := b[..k] + b[k + 1..];
      RemoveOne(a, 0);
      RemoveOne(b, k);
      HingePermutation(a[..0] + a[1..], rest, t);
      HingeSplit(a, t, 0);
      HingeSplit(b, t, k);
    }
  }

  lemma RemoveOne(a: seq<BreakPoint>, k: nat)
    requires k < |a|
    ensures multiset(a[..k] + a[k + 1..]) == multiset(a) - multiset{a[k]}
  {
    assert a == a[..k] + ([a[k]] + a[k + 1..]);
  }

  lemma {:induction false} CollectedInUnit(v: Vector, d: Vector, k: nat)
    requires k <= |v| && k <= |d|
    ensures |Collected(v, d, k)| <= k && InUnit(Collected(v, d, k))
  {
    if k > 0 {
      CollectedInUnit(v, d, k - 1);
      KinkInUnit(v[k - 1], d[k - 1]);
    }
  }

  /** Within [0, 1] the collected breakpoints, violation and slope represent the sum of the entries exactly. */
  lemma CollectedRepresents(v: Vector, d: Vector, t: real, k: nat)
    requires k <= |v| && k <= |d| && 0.0 <= t <= 1.0
    ensures AlongTo(v, d, t, k) == ViolationTo(v, k) + t * SlopeTo(v, d, k) + Hinge(Collected(v, d, k), t)
  {
    RepresentsTo(v, d, t, k);
    RiseIsSlope(v, d, t, k);
  }

  /** The contribution of the starting slopes at t. */
  function RiseTo(v: Vector, d: Vector, t: real, k: nat): real
    requires k <= |v| && k <= |d|
  {
    if k == 0 then 0.0 else RiseTo(v, d, t, k - 1) + if v[k - 1] >= 0.0 then Times(t, d[k - 1]) else 0.0
  }

  lemma {:induction false} RiseIsSlope(v: Vector, d: Vector, t: real, k: nat)
    requires k <= |v| && k <= |d|
    ensures RiseTo(v, d, t, k) == t * SlopeTo(v, d, k)
  {
    if k > 0 {
      RiseIsSlope(v, d, t, k - 1);
      Distribute(t, SlopeTo(v, d, k - 1), InitialSlope(v[k - 1], d[k - 1]));
    }
  }

  lemma {:induction false} RepresentsTo(v: Vector, d: Vector, t: real, k: nat)
    requires k <= |v| && k <= |d| && 0.0 <= t <= 1.0
    ensures AlongTo(v, d, t, k) == ViolationTo(v, k) + RiseTo(v, d, t, k) + Hinge(Collected(v, d, k), t)
  {
    if k > 0 {
      RepresentsTo(v, d, t, k - 1);
      hide Hinge, Kink, Plus, Times;
      KinkRepresents(v[k - 1], d[k - 1], t);
      HingeAppend(Collected(v, d, k - 1), Kink(v[k - 1], d[k - 1]), t);
    }
  }

  /** Entries where both vectors vanish contribute nothing. */
  lemma {:induction false} CollectSkip(v: Vector, d: Vector, j: nat, k: nat)
    requires j <= k <= |v| && k <= |d|
    requires forall i :: j <= i < k ==> v[i] == 0.0 && d[i] == 0.0
    ensures Collected(v, d, k) == Collected(v, d, j)
    ensures ViolationTo(v, k) == ViolationTo(v, j) && SlopeTo(v, d, k) == SlopeTo(v, d, j)
  {
    if j < k { CollectSkip(v, d, j, k - 1); }
  }

  // ----- entries beyond the end of the shorter vector

  /** What the entries from position k on add to the violation at t. */
  function Missed(v: Vector, d: Vector, t: real, k: nat): real
    requires k <= |v| == |d|
  {
    AlongTo(v, d, t, |v|) - AlongTo(v, d, t, k)
  }

  ghost predicate NoTail(v: Vector, d: Vector, k: nat)
    requires |v| == |d|
  {
    forall i :: k <= i < |v| ==> v[i] <= 0.0 && d[i] <= 0.0
  }

  lemma {:induction false} AlongMonotone(v: Vector, d: Vector, t: real, j: nat, k: nat)
    requires j <= k <= |v| && k <= |d|
    ensures AlongTo(v, d, t, j) <= AlongTo(v, d, t, k)
    ensures AlongTo(v, d, t, j) == AlongTo(v, d, t, k) <==>
      forall i :: j <= i < k ==> v[i] + t * d[i] <= 0.0
  {
    if j < k { AlongMonotone(v, d, t, j, k - 1); }
  }

  /** The represented violation is the whole violation on [0, 1] exactly when no tail entry is positive. */
  lemma NothingMissedIffNoTail(v: Vector, d: Vector, k: nat)
    requires k <= |v| == |d|
    requires forall i :: k <= i < |v| ==> v[i] == 0.0 || d[i] == 0.0
    ensures NoTail(v, d, k) ==> forall t :: 0.0 <= t <= 1.0 ==> Missed(v, d, t, k) == 0.0
    ensures Missed(v, d, 1.0, k) == 0.0 ==> NoTail(v, d, k)
  {
    if NoTail(v, d, k) {
      forall t | 0.0 <= t <= 1.0 ensures Missed(v, d, t, k) == 0.0 {
        forall i | k <= i < |v| ensures v[i] + t * d[i] <= 0.0 {
          ScaleLe(t, d[i], 0.0);
        }
        AlongMonotone(v, d, t, k, |v|);
      }
    }
    AlongMonotone(v, d, 1.0, k, |v|);
  }
}
