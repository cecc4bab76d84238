/** Finite-set facts used by the proofs about handles and namespaces. */
module Sets {
  lemma {:induction false} HasElement<T>(s: set<T>)
    requires s != {}
    ensures exists x :: x in s
  {
  }

  lemma {:induction false} SubsetCardinality<T>(a: set<T>, b: set<T>)
    requires a <= b
    ensures |a| <= |b|
    ensures |a| == |b| ==> a == b
  {
    assert b == a + (b - a);
    assert |b| == |a| + |b - a|;
  }

  predicate Between(lo: int, k: int, hi: int) {
    lo <= k < hi
  }

  function Interval(lo: int, hi: int): set<int> {
    set k | lo <= k < hi && Between(lo, k, hi)
  }

  lemma {:induction false} IntervalCardinality(lo: int, hi: int)
    requires lo <= hi
    ensures |Interval(lo, hi)| == hi - lo
    decreases hi - lo
  {
    if lo < hi {
      IntervalCardinality(lo, hi - 1);
      assert Interval(lo, hi) == Interval(lo, hi - 1) + {hi - 1};
    }
  }
}
