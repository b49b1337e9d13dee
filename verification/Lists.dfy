/** Lists without repetition. */
module Lists {
  predicate Distinct<T(==)>(s: seq<T>) {
    forall i, j | 0 <= i < j < |s| :: s[i] != s[j]
  }

  lemma {:induction false} DistinctCount<T>(s: seq<T>, all: set<T>)
    requires Distinct(s) && forall x :: x in s <==> x in all
    ensures |s| == |all|
    decreases |s|
  {
    if s == [] {
      assert all == {};
    } else {
      forall x ensures x in s[1..] <==> x in all - {s[0]} {
        assert x in s <==> x == s[0] || x in s[1..];
      }
      DistinctCount(s[1..], all - {s[0]});
      assert s[0] in all;
    }
  }
}
