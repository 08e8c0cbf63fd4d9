/** Sequences without repetition. */
module Sequences {

  predicate Distinct<T(==)>(s: seq<T>) {
    forall i, j :: 0 <= i < j < |s| ==> s[i] != s[j]
  }

  /** The set of a sequence's elements is as large as the sequence exactly when none repeats. */
  lemma {:induction false} DistinctSize<T>(s: seq<T>, all: set<T>)
    requires forall x :: x in all <==> x in s
    ensures |all| <= |s|
    ensures |all| == |s| <==> Distinct(s)
  {
    if s == [] {
      assert all == {};
    } else {
      var before, last := s[..|s| - 1], s[|s| - 1];
      assert s == before + [last];
      if last in before {
        DistinctSize(before, all);
        var i :| 0 <= i < |before| && before[i] == last;
        assert s[i] == last;
      } else {
        DistinctSize(before, all - {last});
        assert |all| == |all - {last}| + 1;
      }
    }
  }
}
