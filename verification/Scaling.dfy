/** src/main/scale.c: the scaling of points, multipliers and derivatives by powers of two. */
module Scaling {
  import opened LinearAlgebra
  import opened SparseVec
  import opened SparseMat
  import opened Optimality

  // ----- powers of two

  function Pow2(k: int): (r: real)
    ensures r > 0.0
    decreases if k >= 0 then k else -k
  {
    if k == 0 then 1.0 else if k > 0 then 2.0 * Pow2(k - 1) else Pow2(k + 1) / 2.0
  }

  lemma Pow2Next(k: int)
    ensures Pow2(k + 1) == 2.0 * Pow2(k)
  {
  }

  lemma Pow2Step(a: int, b: int)
    ensures Pow2(a + b) == Times(Pow2(a), Pow2(b)) <==> Pow2(a + 1 + b) == Times(Pow2(a + 1), Pow2(b))
  {
    Pow2Next(a + b);
    Pow2Next(a);
    assert a + 1 + b == a + b + 1;
    hide *;
    DoubleBoth(Pow2(a), Pow2(b), Pow2(a + b), Pow2(a + 1), Pow2(a + 1 + b));
  }

  lemma DoubleBoth(p: real, q: real, r: real, p': real, r': real)
    requires p' == 2.0 * p && r' == 2.0 * r
    ensures r == Times(p, q) <==> r' == Times(p', q)
  {
    assert (2.0 * p) * q == 2.0 * (p * q);
  }

  lemma {:induction false} Pow2Add(a: int, b: int)
    ensures Pow2(a + b) == Times(Pow2(a), Pow2(b))
    decreases if a >= 0 then a else -a
  {
    if a == 0 {
      assert Pow2(0) == 1.0;
    } else if a > 0 {
      hide *;
      Pow2Add(a - 1, b);
      Pow2Step(a - 1, b);
    } else {
      hide *;
      Pow2Add(a + 1, b);
      Pow2Step(a, b);
    }
  }

  /** x times two to the power k */
  function Ldexp(x: real, k: int): real
  {
    Times(x, Pow2(k))
  }

  lemma LdexpZero(x: real, k: int)
    ensures Ldexp(x, 0) == x && Ldexp(0.0, k) == 0.0
    ensures Ldexp(x, k) == 0.0 <==> x == 0.0
    ensures Ldexp(x, k) >= 0.0 <==> x >= 0.0
  {
    if x > 0.0 { ScaledPositive(x, Pow2(k)); } else if x < 0.0 { ScaledPositive(-x, Pow2(k)); }
  }

  lemma ScaledPositive(x: real, y: real)
    requires x > 0.0 && y > 0.0
    ensures x * y > 0.0
  {
  }

  lemma TimesAssociate(x: real, y: real, z: real)
    ensures Times(Times(x, y), z) == Times(x, Times(y, z))
  {
  }

  lemma TimesCommute(x: real, y: real)
    ensures Times(x, y) == Times(y, x)
  {
  }

  lemma LdexpTwice(x: real, a: int, b: int)
    ensures Ldexp(Ldexp(x, a), b) == Ldexp(x, a + b)
  {
    hide Pow2, Times;
    Pow2Add(a, b);
    TimesAssociate(x, Pow2(a), Pow2(b));
  }

  lemma LdexpProduct(x: real, y: real, a: int, b: int)
    ensures Times(Ldexp(x, a), Ldexp(y, b)) == Ldexp(Times(x, y), a + b)
  {
    hide Pow2, Times;
    Pow2Add(a, b);
    var p, q := Pow2(a), Pow2(b);
    TimesAssociate(x, p, Times(y, q));
    TimesAssociate(p, y, q);
    TimesCommute(p, y);
    TimesAssociate(y, p, q);
    TimesAssociate(x, y, Times(p, q));
  }

  lemma LdexpSum(x: real, y: real, k: int)
    ensures Ldexp(x + y, k) == Ldexp(x, k) + Ldexp(y, k)
    ensures Ldexp(x - y, k) == Ldexp(x, k) - Ldexp(y, k)
    ensures Ldexp(-x, k) == -Ldexp(x, k)
    ensures x <= y <==> Ldexp(x, k) <= Ldexp(y, k)
    ensures Ldexp(Max(x, y), k) == Max(Ldexp(x, k), Ldexp(y, k))
    ensures Ldexp(Abs(x), k) == Abs(Ldexp(x, k))
  {
    var p := Pow2(k);
    assert (x + y) * p == x * p + y * p && (x - y) * p == x * p - y * p && (-x) * p == -(x * p);
    LdexpZero(y - x, k);
    assert (y - x) * p == y * p - x * p;
    LdexpZero(x, k);
  }

  // ----- vectors

  /** Entry i times two to the power e[i]. */
  function Stretch(x: Vector, e: seq<int>): (z: Vector)
    requires |x| == |e|
    ensures |z| == |x|
  {
    seq(|x|, i requires 0 <= i < |x| => Ldexp(x[i], e[i]))
  }

  function Up(scales: seq<int>, offset: int): (e: seq<int>)
    ensures |e| == |scales|
  {
    seq(|scales|, i requires 0 <= i < |scales| => scales[i] + offset)
  }

  function Down(scales: seq<int>, offset: int): (e: seq<int>)
    ensures |e| == |scales|
  {
    seq(|scales|, i requires 0 <= i < |scales| => -1 * scales[i] + offset)
  }

  function Const(n: nat, value: int): (e: seq<int>)
    ensures |e| == n
  {
    seq(n, i => value)
  }

  /** The stored entries of v multiplied by the powers of two that belong to their indices. */
  ghost function Stretched(v: Vec, e: seq<int>): (w: Vec)
    requires v.Valid() && |e| == v.dim
    ensures w.Valid() && w.dim == v.dim && |w.data| == |v.data|
  {
    v.(data := seq(|v.data|, k requires 0 <= k < |v.data| => Ldexp(v.data[k], e[v.indices[k]])))
  }

  lemma StretchedAt(v: Vec, e: seq<int>, i: int)
    requires v.Valid() && |e| == v.dim && 0 <= i < v.dim
    ensures Stretched(v, e).At(i) == Ldexp(v.At(i), e[i])
  {
    var w := Stretched(v, e);
    if k :| 0 <= k < |v.indices| && v.indices[k] == i {
      StoredAt(v, k);
      StoredAt(w, k);
    } else {
      AbsentAt(v, i);
      AbsentAt(w, i);
      LdexpZero(0.0, e[i]);
    }
  }

  lemma StretchedDense(v: Vec, e: seq<int>)
    requires v.Valid() && |e| == v.dim
    ensures Stretched(v, e).Dense() == Stretch(v.Dense(), e)
  {
    forall i | 0 <= i < v.dim ensures Stretched(v, e).Dense()[i] == Stretch(v.Dense(), e)[i] { StretchedAt(v, e, i); }
  }

  /** Exponents that add up to zero cancel, entry by entry and without changing what is stored. */
  lemma StretchedBack(v: Vec, e: seq<int>, f: seq<int>)
    requires v.Valid() && |e| == |f| == v.dim && forall i :: 0 <= i < v.dim ==> e[i] + f[i] == 0
    ensures Stretched(Stretched(v, e), f) == v
  {
    var w := Stretched(Stretched(v, e), f);
    forall k | 0 <= k < |v.data| ensures w.data[k] == v.data[k] {
      var i := v.indices[k];
      LdexpTwice(v.data[k], e[i], f[i]);
      LdexpZero(v.data[k], 0);
    }
    assert w.data == v.data;
  }

  /** apply_scaling */
  method ApplyScaling(vec: Vec, scales: seq<int>, offset: int) returns (result: Vec)
    requires vec.Valid() && |scales| == vec.dim
    ensures result == Stretched(vec, Down(scales, offset))
  {
    hide Ldexp;
    result := vec;
    for k := 0 to |vec.data|
      invariant result == vec.(data := result.data) && |result.data| == |vec.data|
      invariant forall p :: 0 <= p < k ==> result.data[p] == Stretched(vec, Down(scales, offset)).data[p]
      invariant forall p :: k <= p < |vec.data| ==> result.data[p] == vec.data[p]
    {
      result := result.(data := result.data[k := Ldexp(result.data[k], -1 * scales[result.indices[k]] + offset)]);
    }
  }

  /** apply_unscaling */
  method ApplyUnscaling(vec: Vec, scales: seq<int>, offset: int) returns (result: Vec)
    requires vec.Valid() && |scales| == vec.dim
    ensures result == Stretched(vec, Up(scales, offset))
  {
    hide Ldexp;
    result := vec;
    for k := 0 to |vec.data|
      invariant result == vec.(data := result.data) && |result.data| == |vec.data|
      invariant forall p :: 0 <= p < k ==> result.data[p] == Stretched(vec, Up(scales, offset)).data[p]
      invariant forall p :: k <= p < |vec.data| ==> result.data[p] == vec.data[p]
    {
      result := result.(data := result.data[k := Ldexp(result.data[k], scales[result.indices[k]] + offset)]);
    }
  }

  /** apply_const_unscaling */
  method ApplyConstUnscaling(vec: Vec, value: int) returns (result: Vec)
    requires vec.Valid()
    ensures result == Stretched(vec, Const(vec.dim, -1 * value))
  {
    hide Ldexp;
    result := vec;
    for k := 0 to |vec.data|
      invariant result == vec.(data := result.data) && |result.data| == |vec.data|
      invariant forall p :: 0 <= p < k ==> result.data[p] == Stretched(vec, Const(vec.dim, -1 * value)).data[p]
      invariant forall p :: k <= p < |vec.data| ==> result.data[p] == vec.data[p]
    {
      result := result.(data := result.data[k := Ldexp(result.data[k], -1 * value)]);
    }
  }

  // ----- matrices

  /** The stored entries of a matrix multiplied by powers of two for their row and their column. */
  ghost function StretchedMat(m: Mat, rowExps: seq<int>, colExps: seq<int>): (r: Mat)
    requires m.Valid() && |rowExps| == m.numRows && |colExps| == m.numCols
    ensures r.Framed() && r.numRows == m.numRows && r.numCols == m.numCols && |r.data| == |m.data|
  {
    m.(data := seq(|m.data|, k requires 0 <= k < |m.data| =>
                     Ldexp(m.data[k], rowExps[m.rows[k]] + colExps[ColumnOf(m, k, m.numCols)])))
  }

  /** A position determines its column. */
  lemma ColumnUnique(m: Mat, k: nat, j: nat)
    requires m.Framed() && j < m.numCols && m.cols[j] <= k < m.cols[j + 1]
    ensures k < m.cols[m.numCols] && ColumnOf(m, k, m.numCols) == j
  {
    assert m.cols[j + 1] <= m.cols[m.numCols];
    assert m.cols[j + 1] <= m.cols[m.numCols];
    var c := ColumnOf(m, k, m.numCols);
  }

  lemma StretchedMatEnds(m: Mat, rowExps: seq<int>, colExps: seq<int>)
    requires m.Valid() && |rowExps| == m.numRows && |colExps| == m.numCols
    ensures |m.cols| == m.numCols + 1 && m.cols[0] == 0 && |m.rows| == |m.data|
    ensures StretchedMat(m, rowExps, colExps) == m.(data := StretchedMat(m, rowExps, colExps).data)
  {
  }

  lemma StretchedMatEntry(m: Mat, rowExps: seq<int>, colExps: seq<int>, k: nat, j: nat)
    requires m.Valid() && |rowExps| == m.numRows && |colExps| == m.numCols
    requires j < m.numCols < |m.cols| && m.cols[j] <= k < m.cols[j + 1]
    ensures k < |m.rows| && 0 <= m.rows[k] < m.numRows && |m.data| == |m.rows|
    ensures StretchedMat(m, rowExps, colExps).data[k] == Ldexp(m.data[k], rowExps[m.rows[k]] + colExps[j])
  {
    ColumnUnique(m, k, j);
  }

  lemma StretchedCol(m: Mat, rowExps: seq<int>, colExps: seq<int>, j: nat)
    requires m.Valid() && |rowExps| == m.numRows && |colExps| == m.numCols && j < m.numCols
    requires StretchedMat(m, rowExps, colExps).Valid()
    ensures StretchedMat(m, rowExps, colExps).Col(j) == Stretched(m.Col(j), Up(rowExps, colExps[j]))
  {
    var r := StretchedMat(m, rowExps, colExps);
    var v, w := Stretched(m.Col(j), Up(rowExps, colExps[j])), r.Col(j);
    ColumnsOrdered(m, j);
    ColumnsOrdered(r, j);
    assert w.indices == v.indices;
    assert |w.data| == |v.data|;
    forall p | 0 <= p < |v.data| ensures w.data[p] == v.data[p] {
      StretchedMatEntry(m, rowExps, colExps, m.cols[j] + p, j);
    }
    assert w.data == v.data;
  }

  lemma StretchedMatValid(m: Mat, rowExps: seq<int>, colExps: seq<int>)
    requires m.Valid() && |rowExps| == m.numRows && |colExps| == m.numCols
    ensures StretchedMat(m, rowExps, colExps).Valid()
  {
    var r := StretchedMat(m, rowExps, colExps);
    forall j | 0 <= j < m.numCols ensures r.Ascends(j) { assert m.Ascends(j); }
  }

  lemma StretchedMatAt(m: Mat, rowExps: seq<int>, colExps: seq<int>, i: nat, j: nat)
    requires m.Valid() && |rowExps| == m.numRows && |colExps| == m.numCols && i < m.numRows && j < m.numCols
    ensures StretchedMat(m, rowExps, colExps).Valid()
    ensures StretchedMat(m, rowExps, colExps).At(i, j) == Ldexp(m.At(i, j), rowExps[i] + colExps[j])
  {
    hide Stretched, StretchedMat, Vec.At, Mat.Valid;
    StretchedMatValid(m, rowExps, colExps);
    StretchedCol(m, rowExps, colExps, j);
    StretchedAt(m.Col(j), Up(rowExps, colExps[j]), i);
  }

  lemma StretchedMatBack(m: Mat, a: seq<int>, b: seq<int>, c: seq<int>, d: seq<int>)
    requires m.Valid() && |a| == |c| == m.numRows && |b| == |d| == m.numCols
    requires forall i :: 0 <= i < m.numRows ==> a[i] + c[i] == 0
    requires forall j :: 0 <= j < m.numCols ==> b[j] + d[j] == 0
    ensures StretchedMat(m, a, b).Valid()
    ensures StretchedMat(StretchedMat(m, a, b), c, d) == m
  {
    StretchedMatValid(m, a, b);
    var v := StretchedMat(m, a, b);
    var w := StretchedMat(v, c, d);
    assert w == m.(data := w.data) && |w.data| == |m.data|;
    forall k | 0 <= k < |m.data| ensures w.data[k] == m.data[k] { EntryBack(m, a, b, c, d, v, k); }
    assert w.data == m.data;
  }

  lemma EntryBack(m: Mat, a: seq<int>, b: seq<int>, c: seq<int>, d: seq<int>, v: Mat, k: nat)
    requires m.Valid() && |a| == |c| == m.numRows && |b| == |d| == m.numCols
    requires forall i :: 0 <= i < m.numRows ==> a[i] + c[i] == 0
    requires forall j :: 0 <= j < m.numCols ==> b[j] + d[j] == 0
    requires v == StretchedMat(m, a, b) && v.Valid() && k < |m.data|
    ensures k < |StretchedMat(v, c, d).data| && StretchedMat(v, c, d).data[k] == m.data[k]
  {
    var i, j := m.rows[k], ColumnOf(m, k, m.numCols);
    assert v.rows == m.rows && v.cols == m.cols && v.numCols == m.numCols;
    hide Ldexp, StretchedMat, Mat.Valid;
    StretchedMatEntry(m, a, b, k, j);
    StretchedMatEntry(v, c, d, k, j);
    LdexpTwice(m.data[k], a[i] + b[j], c[i] + d[j]);
    LdexpZero(m.data[k], 0);
  }

  // ----- the weights and what they do to an iterate

  datatype Weights = Weights(obj: int, vars: seq<int>, cons: seq<int>)

  ghost predicate Scalable(w: Weights, s: State)
  {
    s.Valid() && |w.vars| == s.primal.dim && |w.cons| == s.consVal.dim
  }

  ghost function Scaled(w: Weights, s: State, lsq: bool): State
    requires Scalable(w, s)
  {
    State(Stretched(s.primal, Down(w.vars, 0)),
          Ldexp(s.objVal, if lsq then -1 * 2 * w.obj else -1 * w.obj),
          Stretched(s.objGrad, Up(w.vars, -1 * w.obj)),
          Stretched(s.consVal, Down(w.cons, 0)),
          StretchedMat(s.consJac, Down(w.cons, 0), Up(w.vars, 0)),
          Stretched(s.consDual, Up(w.cons, -1 * w.obj)),
          Stretched(s.varsDual, Up(w.vars, -1 * w.obj)))
  }

  ghost function Unscaled(w: Weights, s: State, lsq: bool): State
    requires Scalable(w, s)
  {
    State(Stretched(s.primal, Up(w.vars, 0)),
          Ldexp(s.objVal, if lsq then 2 * w.obj else w.obj),
          Stretched(s.objGrad, Down(w.vars, w.obj)),
          Stretched(s.consVal, Up(w.cons, 0)),
          StretchedMat(s.consJac, Up(w.cons, 0), Down(w.vars, 0)),
          Stretched(s.consDual, Down(w.cons, w.obj)),
          Stretched(s.varsDual, Down(w.vars, w.obj)))
  }

  lemma ScaledIsScalable(w: Weights, s: State, lsq: bool)
    requires Scalable(w, s)
    ensures Scalable(w, Scaled(w, s, lsq)) && Scalable(w, Unscaled(w, s, lsq))
  {
    StretchedMatValid(s.consJac, Down(w.cons, 0), Up(w.vars, 0));
    StretchedMatValid(s.consJac, Up(w.cons, 0), Down(w.vars, 0));
  }

  /** Unscaling takes back scaling, and the other way round, down to every stored entry. */
  lemma ScaleRoundTrip(w: Weights, s: State, lsq: bool)
    requires Scalable(w, s)
    ensures Scalable(w, Scaled(w, s, lsq)) && Unscaled(w, Scaled(w, s, lsq), lsq) == s
    ensures Scalable(w, Unscaled(w, s, lsq)) && Scaled(w, Unscaled(w, s, lsq), lsq) == s
  {
    hide Ldexp, Stretched, StretchedMat;
    ScaledIsScalable(w, s, lsq);
    VecsBack(s.primal, w.vars, 0);
    VecsBack(s.objGrad, w.vars, w.obj);
    VecsBack(s.consVal, w.cons, 0);
    VecsBack(s.consDual, w.cons, w.obj);
    VecsBack(s.varsDual, w.vars, w.obj);
    StretchedMatBack(s.consJac, Down(w.cons, 0), Up(w.vars, 0), Up(w.cons, 0), Down(w.vars, 0));
    StretchedMatBack(s.consJac, Up(w.cons, 0), Down(w.vars, 0), Down(w.cons, 0), Up(w.vars, 0));
    var k := if lsq then 2 * w.obj else w.obj;
    LdexpTwice(s.objVal, -k, k);
    LdexpTwice(s.objVal, k, -k);
    LdexpZero(s.objVal, 0);
  }

  lemma LdexpMoves(x: real, a: int, b: int)
    ensures Times(Ldexp(x, a - b), Pow2(b)) == Times(x, Pow2(a))
  {
    hide Pow2, Times;
    LdexpTwice(x, a - b, b);
  }

  /** Entry by entry: values shrink by the weight of their variable or constraint, derivatives grow by the weight of
      their variable, and everything that measures the objective shrinks by its weight, twice for least squares. */
  ghost predicate IsWeighted(w: Weights, s: State, t: State, lsq: bool, i: nat, j: nat)
    requires Scalable(w, s) && Scalable(w, t) && i < |w.cons| && j < |w.vars|
  {
    var p, q, f := Pow2(w.vars[j]), Pow2(w.cons[i]), Pow2(w.obj);
    && s.primal.At(j) == Times(t.primal.At(j), p) && s.consVal.At(i) == Times(t.consVal.At(i), q)
    && s.objVal == Times(if lsq then Times(t.objVal, f) else t.objVal, f)
    && Times(t.objGrad.At(j), f) == Times(s.objGrad.At(j), p)
    && Times(t.consJac.At(i, j), q) == Times(s.consJac.At(i, j), p)
    && Times(t.consDual.At(i), f) == Times(s.consDual.At(i), q)
    && Times(t.varsDual.At(j), f) == Times(s.varsDual.At(j), p)
  }

  lemma ScaledEntries(w: Weights, s: State, lsq: bool, i: nat, j: nat)
    requires Scalable(w, s) && i < |w.cons| && j < |w.vars|
    ensures Scalable(w, Scaled(w, s, lsq)) && IsWeighted(w, s, Scaled(w, s, lsq), lsq, i, j)
  {
    hide Pow2, Times, Vec.At, Mat.At, Stretched, StretchedMat;
    ScaledIsScalable(w, s, lsq);
    var a, b, o := w.vars[j], w.cons[i], w.obj;
    StretchedAt(s.primal, Down(w.vars, 0), j);
    StretchedAt(s.objGrad, Up(w.vars, -1 * o), j);
    StretchedAt(s.consVal, Down(w.cons, 0), i);
    StretchedMatAt(s.consJac, Down(w.cons, 0), Up(w.vars, 0), i, j);
    StretchedAt(s.consDual, Up(w.cons, -1 * o), i);
    StretchedAt(s.varsDual, Up(w.vars, -1 * o), j);
    hide Ldexp;
    LdexpMoves(s.primal.At(j), 0, a);
    LdexpMoves(s.consVal.At(i), 0, b);
    LdexpMoves(s.objGrad.At(j), a, o);
    LdexpMoves(s.consJac.At(i, j), a, b);
    LdexpMoves(s.consDual.At(i), b, o);
    LdexpMoves(s.varsDual.At(j), a, o);
    LdexpMoves(s.objVal, 0, o);
    LdexpMoves(s.objVal, -o, o);
    PowOfZero(s.primal.At(j));
    PowOfZero(s.consVal.At(i));
    PowOfZero(s.objVal);
    PowOfMinus(s.objVal, o);
  }

  lemma PowOfZero(x: real)
    ensures Times(x, Pow2(0)) == x
  {
  }

  lemma PowOfMinus(x: real, k: int)
    ensures Times(Times(x, Pow2(-k)), Pow2(k)) == x
  {
    LdexpTwice(x, -k, k);
    LdexpZero(x, 0);
  }

  lemma VecsBack(v: Vec, scales: seq<int>, offset: int)
    requires v.Valid() && |scales| == v.dim
    ensures Stretched(Stretched(v, Down(scales, offset)), Up(scales, -1 * offset)) == v
    ensures Stretched(Stretched(v, Up(scales, -1 * offset)), Down(scales, offset)) == v
  {
    StretchedBack(v, Down(scales, offset), Up(scales, -1 * offset));
    StretchedBack(v, Up(scales, -1 * offset), Down(scales, offset));
  }

  /** One more entry of a matrix that has been stretched before position index. */
  lemma NextStretched(m: Mat, rowExps: seq<int>, colExps: seq<int>, index: nat, col: nat, result: Mat)
    requires m.Valid() && |rowExps| == m.numRows && |colExps| == m.numCols && index < |m.rows|
    requires col < m.numCols < |m.cols| && m.cols[col] <= index < m.cols[col + 1]
    requires result == m.(data := StretchedMat(m, rowExps, colExps).data[..index] + m.data[index..])
    ensures 0 <= m.rows[index] < m.numRows && index < |result.data|
    ensures var value := Ldexp(result.data[index], rowExps[m.rows[index]] + colExps[col]);
      && index < |m.data| == |StretchedMat(m, rowExps, colExps).data|
      && result.(data := result.data[index := value])
         == m.(data := StretchedMat(m, rowExps, colExps).data[..index + 1] + m.data[index + 1..])
  {
    var target := StretchedMat(m, rowExps, colExps).data;
    StretchedMatEntry(m, rowExps, colExps, index, col);
    hide Ldexp, StretchedMat, Mat.Valid;
    assert result.data[index := target[index]] == target[..index + 1] + m.data[index + 1..];
  }

  /** sleqp_scale_cons_jac */
  method ScaleConsJac(w: Weights, consJac: Mat) returns (result: Mat)
    requires consJac.Valid() && |w.cons| == consJac.numRows && |w.vars| == consJac.numCols
    ensures result == StretchedMat(consJac, Down(w.cons, 0), Up(w.vars, 0))
  {
    hide Ldexp, StretchedMat, Mat.Framed, Mat.Ascends;
    ghost var target := StretchedMat(consJac, Down(w.cons, 0), Up(w.vars, 0));
    result := consJac;
    var col := 0;
    StretchedMatEnds(consJac, Down(w.cons, 0), Up(w.vars, 0));
    for index := 0 to |consJac.rows|
      invariant 0 <= col <= consJac.numCols < |consJac.cols| && consJac.cols[col] <= index
      invariant result == consJac.(data := target.data[..index] + consJac.data[index..])
    {
      col := SkipColumns(consJac, col, index);
      NextStretched(consJac, Down(w.cons, 0), Up(w.vars, 0), index, col, result);
      var row := consJac.rows[index];
      result := result.(data := result.data[index := Ldexp(result.data[index], -1 * w.cons[row] + w.vars[col])]);
    }
  }

  /** sleqp_unscale_cons_jac */
  method UnscaleConsJac(w: Weights, consJac: Mat) returns (result: Mat)
    requires consJac.Valid() && |w.cons| == consJac.numRows && |w.vars| == consJac.numCols
    ensures result == StretchedMat(consJac, Up(w.cons, 0), Down(w.vars, 0))
  {
    hide Ldexp, StretchedMat, Mat.Framed, Mat.Ascends;
    ghost var target := StretchedMat(consJac, Up(w.cons, 0), Down(w.vars, 0));
    result := consJac;
    var col := 0;
    StretchedMatEnds(consJac, Up(w.cons, 0), Down(w.vars, 0));
    for index := 0 to |consJac.rows|
      invariant 0 <= col <= consJac.numCols < |consJac.cols| && consJac.cols[col] <= index
      invariant result == consJac.(data := target.data[..index] + consJac.data[index..])
    {
      col := SkipColumns(consJac, col, index);
      NextStretched(consJac, Up(w.cons, 0), Down(w.vars, 0), index, col, result);
      var row := consJac.rows[index];
      result := result.(data := result.data[index := Ldexp(result.data[index], -1 * w.vars[col] + w.cons[row])]);
    }
  }

  /** The inner loop of both: advance to the column that holds an entry. */
  method SkipColumns(m: Mat, start: nat, index: nat) returns (col: nat)
    requires m.Framed() && index < |m.rows| && start <= m.numCols < |m.cols| && m.cols[start] <= index
    ensures start <= col < m.numCols < |m.cols| && m.cols[col] <= index < m.cols[col + 1]
  {
    col := start;
    while index >= m.cols[col + 1]
      invariant start <= col < m.numCols && m.cols[col] <= index
      decreases m.numCols - col
    {
      col := col + 1;
    }
  }

  /** sleqp_scale_iterate */
  method ScaleIterate(w: Weights, iterate: Iterate, lsq: bool)
    requires Scalable(w, iterate.Contents())
    modifies iterate
    ensures iterate.Contents() == Scaled(w, old(iterate.Contents()), lsq)
  {
    hide Ldexp, Stretched, StretchedMat, Up, Down;
    iterate.primal := ApplyScaling(iterate.primal, w.vars, 0);
    iterate.objVal := Ldexp(iterate.objVal, if lsq then -1 * 2 * w.obj else -1 * w.obj);
    iterate.objGrad := ApplyUnscaling(iterate.objGrad, w.vars, -1 * w.obj);
    iterate.consVal := ApplyScaling(iterate.consVal, w.cons, 0);
    iterate.consJac := ScaleConsJac(w, iterate.consJac);
    iterate.consDual := ApplyUnscaling(iterate.consDual, w.cons, -1 * w.obj);
    iterate.varsDual := ApplyUnscaling(iterate.varsDual, w.vars, -1 * w.obj);
  }

  /** sleqp_unscale_iterate */
  method UnscaleIterate(w: Weights, iterate: Iterate, lsq: bool)
    requires Scalable(w, iterate.Contents())
    modifies iterate
    ensures iterate.Contents() == Unscaled(w, old(iterate.Contents()), lsq)
  {
    hide Ldexp, Stretched, StretchedMat, Up, Down;
    iterate.primal := ApplyUnscaling(iterate.primal, w.vars, 0);
    iterate.objVal := Ldexp(iterate.objVal, if lsq then 2 * w.obj else w.obj);
    iterate.objGrad := ApplyScaling(iterate.objGrad, w.vars, w.obj);
    iterate.consVal := ApplyUnscaling(iterate.consVal, w.cons, 0);
    iterate.consJac := UnscaleConsJac(w, iterate.consJac);
    iterate.consDual := ApplyScaling(iterate.consDual, w.cons, w.obj);
    iterate.varsDual := ApplyScaling(iterate.varsDual, w.vars, w.obj);
  }
}
