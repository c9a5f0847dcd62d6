/** Sequences without repeated elements. */
module Sequences {
  predicate NoRepeats<T(==)>(s: seq<T>) {
    forall i, j | 0 <= i < j < |s| :: s[i] != s[j]
  }

  lemma OneMoreIsDistinct<T>(s: seq<T>, x: T)
    requires NoRepeats(s) && x !in s
    ensures NoRepeats(s + [x])
  {
  }

  lemma {:induction false} DistinctAreFew<T>(s: seq<T>, among: set<T>)
    requires NoRepeats(s) && forall x | x in s :: x in among
    ensures |s| <= |among|
  {
    if s != [] {
      var init, last := s[..|s| - 1], s[|s| - 1];
      assert last !in init;
      DistinctAreFew(init, among - {last});
    }
  }

  lemma {:induction false} DistinctFillTheirSet<T(!new)>(s: seq<T>, all: set<T>)
    requires NoRepeats(s) && forall x :: x in s <==> x in all
    ensures |s| == |all|
  {
    if s == [] {
      assert all == {};
    } else {
      var init, last := s[..|s| - 1], s[|s| - 1];
      assert s == init + [last] && last !in init;
      DistinctFillTheirSet(init, all - {last});
    }
  }
}
