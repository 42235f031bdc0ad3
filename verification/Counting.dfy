/**
 Counting without repetition.
 */
module Counting {
  predicate Distinct<T(==)>(s: seq<T>) { forall i, j :: 0 <= i < j < |s| ==> s[i] != s[j] }

  lemma {:induction false} DistinctCount<T>(s: seq<T>, elements: set<T>)
    requires Distinct(s) && elements == set x | x in s
    ensures |elements| == |s|
  {
    if s == [] {
      assert elements == {};
    } else {
      var others := set x | x in s[1..];
      DistinctCount(s[1..], others);
      assert s[0] !in others;
      assert elements == others + {s[0]};
    }
  }

  lemma {:induction false} AtMostOneEach<T>(s: seq<T>, elements: set<T>)
    requires elements == set x | x in s
    ensures |elements| <= |s|
  {
    if s == [] {
      assert elements == {};
    } else {
      var others := set x | x in s[1..];
      AtMostOneEach(s[1..], others);
      assert elements == others + {s[0]};
    }
  }

  lemma SubsetOfSameSize<T>(a: set<T>, b: set<T>)
    requires a <= b && |a| == |b|
    ensures a == b
  {
    assert b == a + (b - a);
    assert |b| == |a| + |b - a|;
  }

  lemma SubsetIsSmaller<T>(a: set<T>, b: set<T>)
    requires a <= b
    ensures |a| <= |b|
  {
    assert b == a + (b - a);
    assert |b| == |a| + |b - a|;
  }

  // Pigeonhole: a sequence without repetition fits into any sequence that has all its elements.
  lemma DistinctFits<T>(s: seq<T>, t: seq<T>)
    requires Distinct(s) && forall x :: x in s ==> x in t
    ensures |s| <= |t|
  {
    var a, b := set x | x in s, set x | x in t;
    DistinctCount(s, a);
    AtMostOneEach(t, b);
    SubsetIsSmaller(a, b);
  }
}
