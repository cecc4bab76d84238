/** Facts about finite sequences that are built from the right. */
module Sequences {
  lemma SplitLast<T>(s: seq<T>) returns (front: seq<T>, last: T)
    requires |s| > 0
    ensures s == front + [last]
  {
    front, last := s[..|s| - 1], s[|s| - 1];
  }

  predicate Distinct<T(==)>(s: seq<T>) {
    forall i, j :: 0 <= i < j < |s| ==> s[i] != s[j]
  }

  function Elements<T>(s: seq<T>): set<T> {
    set x | x in s
  }

  lemma {:induction false} DistinctCardinality<T>(s: seq<T>)
    requires Distinct(s)
    ensures |Elements(s)| == |s|
  {
    if |s| > 0 {
      var n := |s| - 1;
      DistinctCardinality(s[..n]);
      assert s == s[..n] + [s[n]];
      assert Elements(s) == Elements(s[..n]) + {s[n]};
    }
  }

  lemma {:induction false} AsManyAsElements<T>(s: seq<T>)
    requires |Elements(s)| == |s|
    ensures Distinct(s)
  {
    if |s| > 0 {
      var n := |s| - 1;
      assert s == s[..n] + [s[n]];
      assert Elements(s) == Elements(s[..n]) + {s[n]};
      NoMoreElements(s[..n]);
      AsManyAsElements(s[..n]);
      assert s[n] !in s[..n];
      forall i, j | 0 <= i < j < |s| ensures s[i] != s[j] {
        assert s[i] == s[..n][i];
      }
    }
  }

  lemma {:induction false} NoMoreElements<T>(s: seq<T>)
    ensures |Elements(s)| <= |s|
  {
    if |s| > 0 {
      var n := |s| - 1;
      NoMoreElements(s[..n]);
      assert s == s[..n] + [s[n]];
      assert Elements(s) == Elements(s[..n]) + {s[n]};
    }
  }

  /** Cutting one element out of the tail. */
  lemma {:induction false} CutFromTail<T>(s: seq<T>, k: nat)
    requires |s| > 0 && k < |s[1..]|
    ensures [s[0]] + (s[1..][..k] + s[1..][k + 1..]) == s[..k + 1] + s[k + 2..]
  {
    assert s[1..][..k] == s[1..k + 1] && s[1..][k + 1..] == s[k + 2..];
    assert [s[0]] + s[1..k + 1] == s[..k + 1];
  }
}
