/** Sparse vectors: a dimension and a list of (index, value) entries with strictly increasing indices. */
module SparseVec {
  import opened LinearAlgebra

  /** The value stored for index i among the first n entries, zero when there is none. */
  function Lookup(indices: seq<int>, data: seq<real>, i: int, n: nat): real
    requires n <= |indices| && n <= |data|
  {
    if n == 0 then 0.0
    else if indices[n - 1] == i then data[n - 1]
    else Lookup(indices, data, i, n - 1)
  }

  lemma {:induction false} LookupAbsent(indices: seq<int>, data: seq<real>, i: int, n: nat)
    requires n <= |indices| && n <= |data|
    requires forall k :: 0 <= k < n ==> indices[k] != i
    ensures Lookup(indices, data, i, n) == 0.0
  {
    if n > 0 { LookupAbsent(indices, data, i, n - 1); }
  }

  lemma {:induction false} LookupPresent(indices: seq<int>, data: seq<real>, k: nat, n: nat)
    requires k < n <= |indices| && n <= |data|
    requires forall l :: k < l < n ==> indices[l] != indices[k]
    ensures Lookup(indices, data, indices[k], n) == data[k]
  {
    if k < n - 1 { LookupPresent(indices, data, k, n - 1); }
  }

  datatype Vec = Vec(dim: nat, indices: seq<int>, data: seq<real>)
  {
    ghost predicate Valid()
    {
      && |indices| == |data|
      && (forall k :: 0 <= k < |indices| ==> 0 <= indices[k] < dim)
      && (forall k, l :: 0 <= k < l < |indices| ==> indices[k] < indices[l])
    }

    /** The entry at index i; indices that are not stored hold zero. */
    ghost function At(i: int): real
      requires Valid()
    {
      Lookup(indices, data, i, |indices|)
    }

    ghost function Dense(): (x: Vector)
      requires Valid()
      ensures |x| == dim
    {
      seq(dim, i requires 0 <= i < dim => At(i))
    }

    /** Entries before position k have indices below j, the others have indices of at least j. */
    ghost predicate Cursor(k: int, j: int)
    {
      && 0 <= k <= |indices|
      && (forall p :: 0 <= p < k ==> indices[p] < j)
      && (forall p :: k <= p < |indices| ==> indices[p] >= j)
    }
  }

  function Empty(dim: nat): (v: Vec)
    ensures v.Valid() && v.dim == dim
    ensures forall i :: v.At(i) == 0.0
  {
    Vec(dim, [], [])
  }

  lemma StoredAt(v: Vec, k: int)
    requires v.Valid() && 0 <= k < |v.indices|
    ensures v.At(v.indices[k]) == v.data[k]
  {
    LookupPresent(v.indices, v.data, k, |v.indices|);
  }

  lemma AbsentAt(v: Vec, i: int)
    requires v.Valid() && forall k :: 0 <= k < |v.indices| ==> v.indices[k] != i
    ensures v.At(i) == 0.0
  {
    LookupAbsent(v.indices, v.data, i, |v.indices|);
  }

  /** sleqp_vec_push */
  function Push(v: Vec, idx: int, value: real): (w: Vec)
    requires v.Valid() && 0 <= idx < v.dim
    requires forall k :: 0 <= k < |v.indices| ==> v.indices[k] < idx
    ensures w.Valid() && w.dim == v.dim
    ensures w.indices == v.indices + [idx] && w.data == v.data + [value]
    ensures w.At(idx) == value
    ensures forall i :: i != idx ==> w.At(i) == v.At(i)
  {
    var w := Vec(v.dim, v.indices + [idx], v.data + [value]);
    assert w.At(idx) == value && forall i :: i != idx ==> w.At(i) == v.At(i) by {
      forall i ensures Lookup(w.indices, w.data, i, |v.indices|) == v.At(i) {
        LookupPrefix(v.indices, v.data, w.indices, w.data, i, |v.indices|);
      }
    }
    w
  }

  lemma {:induction false} LookupPrefix(
      indices: seq<int>, data: seq<real>, indices': seq<int>, data': seq<real>, i: int, n: nat)
    requires n <= |indices| && n <= |data| && n <= |indices'| && n <= |data'|
    requires forall k :: 0 <= k < n ==> indices'[k] == indices[k] && data'[k] == data[k]
    ensures Lookup(indices', data', i, n) == Lookup(indices, data, i, n)
  {
    if n > 0 { LookupPrefix(indices, data, indices', data', i, n - 1); }
  }

  /** Reading position k of a cursor at j: the entry j is the stored one or zero, and everything up to the
      next stored index is zero. */
  lemma CursorAt(v: Vec, k: int, j: int)
    requires v.Valid() && v.Cursor(k, j)
    ensures v.At(j) == (if k < |v.indices| && v.indices[k] == j then v.data[k] else 0.0)
    ensures v.Cursor(if k < |v.indices| && v.indices[k] == j then k + 1 else k, j + 1)
  {
    if k < |v.indices| && v.indices[k] == j { StoredAt(v, k); } else { AbsentAt(v, j); }
  }

  lemma CursorSkip(v: Vec, k: int, j: int, i: int)
    requires v.Valid() && v.Cursor(k, j) && j <= i
    requires k < |v.indices| ==> i <= v.indices[k]
    ensures v.Cursor(k, i)
    ensures forall l :: j <= l < i ==> v.At(l) == 0.0
  {
    forall l | j <= l < i ensures v.At(l) == 0.0 { AbsentAt(v, l); }
  }

  /** One step of the merge loops over three vectors: the least stored index not yet read, and the three
      entries there. */
  method Read3(a: Vec, b: Vec, c: Vec, ka: int, kb: int, kc: int, ghost j: int)
    returns (idx: int, aVal: real, bVal: real, cVal: real, la: int, lb: int, lc: int)
    requires a.Valid() && b.Valid() && c.Valid() && a.dim == b.dim == c.dim
    requires a.Cursor(ka, j) && b.Cursor(kb, j) && c.Cursor(kc, j)
    requires ka < |a.indices| || kb < |b.indices| || kc < |c.indices|
    ensures j <= idx < a.dim
    ensures aVal == a.At(idx) && bVal == b.At(idx) && cVal == c.At(idx)
    ensures a.Cursor(la, idx + 1) && b.Cursor(lb, idx + 1) && c.Cursor(lc, idx + 1)
    ensures forall i :: j <= i < idx ==> a.At(i) == 0.0 && b.At(i) == 0.0 && c.At(i) == 0.0
    ensures ka <= la && kb <= lb && kc <= lc && ka + kb + kc < la + lb + lc
  {
    var dim := a.dim;
    idx := if ka < |a.indices| then a.indices[ka] else dim + 1;
    if kb < |b.indices| && b.indices[kb] < idx { idx := b.indices[kb]; }
    if kc < |c.indices| && c.indices[kc] < idx { idx := c.indices[kc]; }
    aVal, la := ReadOne(a, ka, idx, j);
    bVal, lb := ReadOne(b, kb, idx, j);
    cVal, lc := ReadOne(c, kc, idx, j);
  }

  /** The same step over four vectors. */
  method Read4(a: Vec, b: Vec, c: Vec, d: Vec, ka: int, kb: int, kc: int, kd: int, ghost j: int)
    returns (idx: int, aVal: real, bVal: real, cVal: real, dVal: real, la: int, lb: int, lc: int, ld: int)
    requires a.Valid() && b.Valid() && c.Valid() && d.Valid() && a.dim == b.dim == c.dim == d.dim
    requires a.Cursor(ka, j) && b.Cursor(kb, j) && c.Cursor(kc, j) && d.Cursor(kd, j)
    requires ka < |a.indices| || kb < |b.indices| || kc < |c.indices| || kd < |d.indices|
    ensures j <= idx < a.dim
    ensures aVal == a.At(idx) && bVal == b.At(idx) && cVal == c.At(idx) && dVal == d.At(idx)
    ensures a.Cursor(la, idx + 1) && b.Cursor(lb, idx + 1) && c.Cursor(lc, idx + 1) && d.Cursor(ld, idx + 1)
    ensures forall i :: j <= i < idx ==> a.At(i) == 0.0 && b.At(i) == 0.0 && c.At(i) == 0.0 && d.At(i) == 0.0
    ensures ka <= la && kb <= lb && kc <= lc && kd <= ld && ka + kb + kc + kd < la + lb + lc + ld
  {
    var dim := a.dim;
    idx := if ka < |a.indices| then a.indices[ka] else dim + 1;
    if kb < |b.indices| && b.indices[kb] < idx { idx := b.indices[kb]; }
    if kc < |c.indices| && c.indices[kc] < idx { idx := c.indices[kc]; }
    if kd < |d.indices| && d.indices[kd] < idx { idx := d.indices[kd]; }
    aVal, la := ReadOne(a, ka, idx, j);
    bVal, lb := ReadOne(b, kb, idx, j);
    cVal, lc := ReadOne(c, kc, idx, j);
    dVal, ld := ReadOne(d, kd, idx, j);
  }

  /** The entry at an index that is not beyond the next stored one. */
  method ReadOne(v: Vec, k: int, idx: int, ghost j: int) returns (value: real, next: int)
    requires v.Valid() && v.Cursor(k, j) && j <= idx && (k < |v.indices| ==> idx <= v.indices[k])
    ensures value == v.At(idx) && v.Cursor(next, idx + 1)
    ensures next == if k < |v.indices| && v.indices[k] == idx then k + 1 else k
    ensures forall i :: j <= i < idx ==> v.At(i) == 0.0
  {
    CursorSkip(v, k, j, idx);
    CursorAt(v, k, idx);
    value, next := 0.0, k;
    if k < |v.indices| && v.indices[k] == idx { value, next := v.data[k], k + 1; }
  }

  /** The entry at the next index in turn. */
  method ReadNext(v: Vec, k: int, j: int) returns (value: real, next: int)
    requires v.Valid() && v.Cursor(k, j) && 0 <= j < v.dim
    ensures value == v.At(j) == v.Dense()[j] && v.Cursor(next, j + 1)
  {
    value, next := ReadOne(v, k, j, j);
  }

  /** The same step over two vectors. */
  method Read2(a: Vec, b: Vec, ka: int, kb: int, ghost j: int)
    returns (idx: int, aVal: real, bVal: real, la: int, lb: int)
    requires a.Valid() && b.Valid() && a.dim == b.dim
    requires a.Cursor(ka, j) && b.Cursor(kb, j)
    requires ka < |a.indices| || kb < |b.indices|
    ensures j <= idx < a.dim
    ensures aVal == a.At(idx) && bVal == b.At(idx)
    ensures la == (if ka < |a.indices| && a.indices[ka] == idx then ka + 1 else ka)
    ensures lb == (if kb < |b.indices| && b.indices[kb] == idx then kb + 1 else kb)
    ensures la > ka || lb > kb
    ensures a.Cursor(la, idx + 1) && b.Cursor(lb, idx + 1)
    ensures forall i :: j <= i < idx ==> a.At(i) == 0.0 && b.At(i) == 0.0
  {
    idx := if ka < |a.indices| then a.indices[ka] else a.dim + 1;
    if kb < |b.indices| && b.indices[kb] < idx { idx := b.indices[kb]; }
    aVal, la := ReadOne(a, ka, idx, j);
    bVal, lb := ReadOne(b, kb, idx, j);
  }

  /** An exhausted cursor has only zeros ahead of it. */
  lemma CursorEnd(v: Vec, j: int)
    requires v.Valid() && v.Cursor(|v.indices|, j)
    ensures forall i :: j <= i ==> v.At(i) == 0.0
  {
    forall i | j <= i ensures v.At(i) == 0.0 { AbsentAt(v, i); }
  }

  /** sleqp_vec_add_scaled with zero_eps = 0: exact zeros are not stored. */
  method AddScaled(first: Vec, second: Vec, f: real, g: real) returns (result: Vec)
    requires first.Valid() && second.Valid() && first.dim == second.dim
    ensures result.Valid() && result.dim == first.dim
    ensures result.Dense() == LinComb(f, first.Dense(), g, second.Dense())
    ensures forall k :: 0 <= k < |result.data| ==> result.data[k] != 0.0
  {
    hide Vec.At;
    result := Empty(first.dim);
    ghost var z := LinComb(f, first.Dense(), g, second.Dense());
    var k, l := 0, 0;
    ghost var j := 0;
    while k < |first.indices| || l < |second.indices|
      invariant 0 <= j <= first.dim && first.Cursor(k, j) && second.Cursor(l, j)
      invariant result.Valid() && result.dim == first.dim
      invariant forall p :: 0 <= p < |result.indices| ==> result.indices[p] < j
      invariant forall p :: 0 <= p < |result.data| ==> result.data[p] != 0.0
      invariant forall i :: 0 <= i < j ==> result.At(i) == z[i]
      invariant forall i :: j <= i ==> result.At(i) == 0.0
      decreases |first.indices| - k + |second.indices| - l
    {
      var idx, x, y;
      idx, x, y, k, l := Read2(first, second, k, l, j);
      var value := f * x + g * y;
      assert z[idx] == value;
      if value != 0.0 { result := Push(result, idx, value); }
      j := idx + 1;
    }
    CursorEnd(first, j);
    CursorEnd(second, j);
    assert result.Dense() == z;
  }

  /** sleqp_vec_add */
  method Add(first: Vec, second: Vec) returns (result: Vec)
    requires first.Valid() && second.Valid() && first.dim == second.dim
    ensures result.Valid() && result.dim == first.dim
    ensures result.Dense() == LinComb(1.0, first.Dense(), 1.0, second.Dense())
  {
    result := AddScaled(first, second, 1.0, 1.0);
  }

  /** sleqp_vec_dot */
  method DotProduct(first: Vec, second: Vec) returns (product: real)
    requires first.Valid() && second.Valid() && first.dim == second.dim
    ensures product == Dot(first.Dense(), second.Dense())
  {
    hide Vec.At;
    product := 0.0;
    ghost var x, y := first.Dense(), second.Dense();
    var k, l := 0, 0;
    ghost var j := 0;
    while k < |first.indices| && l < |second.indices|
      invariant 0 <= j <= first.dim && first.Cursor(k, j) && second.Cursor(l, j)
      invariant product == DotTo(x, y, j)
      decreases |first.indices| - k + |second.indices| - l
    {
      var p, q := first.indices[k], second.indices[l];
      ghost var i := if p <= q then p else q;
      CursorSkip(first, k, j, i);
      CursorSkip(second, l, j, i);
      CursorAt(first, k, i);
      CursorAt(second, l, i);
      DotToAdvance(x, y, j, i);
      if p == q {
        product := product + first.data[k] * second.data[l];
        k := k + 1;
        l := l + 1;
      } else if p < q {
        k := k + 1;
      } else {
        l := l + 1;
      }
      j := i + 1;
    }
    if k == |first.indices| { CursorEnd(first, j); } else { CursorEnd(second, j); }
    DotToSkip(x, y, j, |x|);
  }

  /** sleqp_vec_norm_sq */
  method NormSquared(v: Vec) returns (normsq: real)
    requires v.Valid()
    ensures normsq == NormSq(v.Dense())
  {
    normsq := 0.0;
    ghost var x := v.Dense();
    ghost var j := 0;
    for k := 0 to |v.indices|
      invariant 0 <= j <= v.dim && v.Cursor(k, j)
      invariant normsq == DotTo(x, x, j)
    {
      var value := v.data[k];
      ghost var i := v.indices[k];
      CursorSkip(v, k, j, i);
      CursorAt(v, k, i);
      DotToAdvance(x, x, j, i);
      normsq := normsq + value * value;
      j := i + 1;
    }
    CursorEnd(v, j);
    DotToSkip(x, x, j, |x|);
  }

  /** sleqp_vec_scale */
  method ScaleBy(v: Vec, factor: real) returns (result: Vec)
    requires v.Valid()
    ensures result.Valid() && result.dim == v.dim
    ensures result.Dense() == Scale(factor, v.Dense())
    ensures factor != 0.0 ==> |result.data| == |v.data|
    ensures factor != 0.0 ==> forall p :: 0 <= p < |v.data| ==> result.data[p] == factor * v.data[p]
  {
    if factor == 0.0 {
      result := Empty(v.dim);
      assert result.Dense() == Scale(factor, v.Dense());
      return;
    } else if factor == 1.0 {
      result := v;
      assert result.Dense() == Scale(factor, v.Dense());
      return;
    }
    result := v;
    for k := 0 to |v.indices|
      invariant result.indices == v.indices && result.dim == v.dim && |result.data| == |v.data|
      invariant forall p :: 0 <= p < k ==> result.data[p] == factor * v.data[p]
      invariant forall p :: k <= p < |v.data| ==> result.data[p] == v.data[p]
    {
      result := result.(data := result.data[k := result.data[k] * factor]);
    }
    MapStored(v, result, factor);
  }

  lemma MapStored(v: Vec, w: Vec, factor: real)
    requires v.Valid() && w.indices == v.indices && w.dim == v.dim && |w.data| == |v.data|
    requires forall p :: 0 <= p < |v.data| ==> w.data[p] == factor * v.data[p]
    ensures w.Valid() && w.Dense() == Scale(factor, v.Dense())
  {
    forall i | 0 <= i < v.dim
      ensures w.Dense()[i] == Scale(factor, v.Dense())[i]
    {
      if k :| 0 <= k < |v.indices| && v.indices[k] == i {
        StoredAt(v, k);
        StoredAt(w, k);
      } else {
        AbsentAt(v, i);
        AbsentAt(w, i);
      }
    }
  }

  /** sleqp_vec_set_from_raw with zero_eps = 0 */
  method SetFromRaw(values: array<real>, dim: nat) returns (result: Vec)
    requires dim <= values.Length
    ensures result.Valid() && result.dim == dim
    ensures result.Dense() == values[..dim]
  {
    result := Empty(dim);
    for i := 0 to dim
      invariant result.Valid() && result.dim == dim
      invariant forall p :: 0 <= p < |result.indices| ==> result.indices[p] < i
      invariant forall l :: 0 <= l < i ==> result.At(l) == values[l]
      invariant forall l :: i <= l ==> result.At(l) == 0.0
    {
      var v := values[i];
      if v != 0.0 { result := Push(result, i, v); }
    }
    assert result.Dense() == values[..dim];
  }

  /** sleqp_vec_concat */
  method Concat(first: Vec, second: Vec) returns (result: Vec)
    requires first.Valid() && second.Valid()
    ensures result.Valid() && result.dim == first.dim + second.dim
    ensures result.Dense() == first.Dense() + second.Dense()
  {
    result := Empty(first.dim + second.dim);
    for k := 0 to |first.indices|
      invariant result == Vec(first.dim + second.dim, first.indices[..k], first.data[..k])
    {
      result := Vec(result.dim, result.indices + [first.indices[k]], result.data + [first.data[k]]);
    }
    assert first.indices[..|first.indices|] == first.indices && first.data[..|first.data|] == first.data;
    for k := 0 to |second.indices|
      invariant result == Vec(first.dim + second.dim, first.indices + Shifted(second.indices[..k], first.dim),
                              first.data + second.data[..k])
    {
      result := Vec(result.dim, result.indices + [second.indices[k] + first.dim], result.data + [second.data[k]]);
      assert second.indices[..k + 1] == second.indices[..k] + [second.indices[k]];
    }
    assert second.indices[..|second.indices|] == second.indices && second.data[..|second.data|] == second.data;
    ConcatDense(first, second, result);
  }

  function Shifted(indices: seq<int>, distance: int): (r: seq<int>)
    ensures |r| == |indices|
  {
    seq(|indices|, k requires 0 <= k < |indices| => indices[k] + distance)
  }

  lemma ConcatDense(first: Vec, second: Vec, v: Vec)
    requires first.Valid() && second.Valid()
    requires v == Vec(first.dim + second.dim, first.indices + Shifted(second.indices, first.dim),
                      first.data + second.data)
    ensures v.Valid() && v.Dense() == first.Dense() + second.Dense()
  {
    assert v.Valid();
    forall i | 0 <= i < v.dim ensures v.Dense()[i] == (first.Dense() + second.Dense())[i] {
      if i < first.dim { ConcatFront(first, second, v, i); } else { ConcatBack(first, second, v, i - first.dim); }
    }
  }

  lemma ConcatFront(first: Vec, second: Vec, v: Vec, i: nat)
    requires first.Valid() && second.Valid() && v.Valid() && i < first.dim
    requires v == Vec(first.dim + second.dim, first.indices + Shifted(second.indices, first.dim),
                      first.data + second.data)
    ensures v.At(i) == first.At(i)
  {
    if k :| 0 <= k < |first.indices| && first.indices[k] == i {
      StoredAt(first, k);
      assert v.indices[k] == i && v.data[k] == first.data[k];
      StoredAt(v, k);
    } else {
      AbsentAt(first, i);
      AbsentAt(v, i);
    }
  }

  lemma ConcatBack(first: Vec, second: Vec, v: Vec, i: nat)
    requires first.Valid() && second.Valid() && v.Valid() && i < second.dim
    requires v == Vec(first.dim + second.dim, first.indices + Shifted(second.indices, first.dim),
                      first.data + second.data)
    ensures v.At(first.dim + i) == second.At(i)
  {
    if k :| 0 <= k < |second.indices| && second.indices[k] == i {
      StoredAt(second, k);
      var l := |first.indices| + k;
      assert v.indices[l] == first.dim + i && v.data[l] == second.data[k];
      StoredAt(v, l);
    } else {
      AbsentAt(second, i);
      forall k | 0 <= k < |v.indices| ensures v.indices[k] != first.dim + i {
        if k >= |first.indices| { assert v.indices[k] == second.indices[k - |first.indices|] + first.dim; }
      }
      AbsentAt(v, first.dim + i);
    }
  }

  /** The loop that distributes a vector over a front part of dimension n and the rest. */
  method SplitAt(v: Vec, n: nat) returns (front: Vec, back: Vec)
    requires v.Valid() && n <= v.dim
    ensures front.Valid() && back.Valid() && front.dim == n && back.dim == v.dim - n
    ensures v.Dense() == front.Dense() + back.Dense()
    ensures front.Dense() == v.Dense()[..n] && back.Dense() == v.Dense()[n..]
  {
    front, back := Empty(n), Empty(v.dim - n);
    hide Vec.At;
    ghost var j := 0;
    for k := 0 to |v.indices|
      invariant 0 <= j <= v.dim && v.Cursor(k, j)
      invariant front.Valid() && back.Valid() && front.dim == n && back.dim == v.dim - n
      invariant forall p :: 0 <= p < |front.indices| ==> front.indices[p] < j
      invariant forall p :: 0 <= p < |back.indices| ==> back.indices[p] + n < j
      invariant forall i :: 0 <= i < n ==> front.At(i) == if i < j then v.At(i) else 0.0
      invariant forall i :: 0 <= i < v.dim - n ==> back.At(i) == if i + n < j then v.At(i + n) else 0.0
    {
      var i, value := v.indices[k], v.data[k];
      CursorSkip(v, k, j, i);
      CursorAt(v, k, i);
      if i < n { front := Push(front, i, value); } else { back := Push(back, i - n, value); }
      j := i + 1;
    }
    CursorEnd(v, j);
    assert front.Dense() == v.Dense()[..n] && back.Dense() == v.Dense()[n..];
  }
}
