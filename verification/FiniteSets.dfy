/** Sizes of finite sets of integers. */
module FiniteSets {
  ghost predicate Within(p: set<int>, low: int, high: int)
  {
    forall x :: x in p ==> low <= x < high
  }

  lemma {:induction false} SizeWithin(p: set<int>, low: int, high: int)
    requires low <= high && Within(p, low, high)
    ensures |p| <= high - low
    decreases high - low
  {
    if low == high {
      forall x ensures x in p <==> x in {} {}
      assert p == {};
    } else {
      SizeWithin(p - {high - 1}, low, high - 1);
    }
  }

  /** As many distinct integers as an interval has contain all of the interval. */
  lemma FillsInterval(p: set<int>, low: int, high: int, k: int)
    requires low <= k < high && Within(p, low, high) && |p| == high - low
    ensures k in p
  {
    if k !in p { SizeWithin(p + {k}, low, high); }
  }
}
