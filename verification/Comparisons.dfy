/** The tolerance comparisons of src/main/cmp.c that the kernels use. */
module Comparisons {
  import opened LinearAlgebra

  /** rel_diff */
  function RelDiff(x: real, y: real): real
  {
    (x - y) / Max(Max(Abs(x), Abs(y)), 1.0)
  }

  /** sleqp_is_eq */
  predicate IsEq(x: real, y: real, eps: real)
  {
    Abs(RelDiff(x, y)) <= eps
  }

  /** Two values are equal up to the tolerance exactly if their distance is at most the tolerance times the larger of
      their absolute values and one. */
  lemma IsEqMeans(x: real, y: real, eps: real)
    ensures IsEq(x, y, eps) <==> Abs(x - y) <= eps * Max(Max(Abs(x), Abs(y)), 1.0)
  {
    QuotientWithin(x - y, Max(Max(Abs(x), Abs(y)), 1.0), RelDiff(x, y), eps);
  }

  lemma QuotientWithin(a: real, s: real, q: real, eps: real)
    requires s >= 1.0 && q == a / s
    ensures Abs(q) <= eps <==> Abs(a) <= eps * s
  {
    assert q * s == a;
    if Abs(q) <= eps {
      ScaleLe(s, q, eps);
      ScaleLe(s, -q, eps);
    } else if q > eps {
      var w := (q - eps) * s;
      ProductSign(q - eps, s, w);
      assert w == q * s - eps * s;
    } else {
      var w := (-q - eps) * s;
      ProductSign(-q - eps, s, w);
      assert w == -(q * s) - eps * s;
    }
  }
}
