/** What the other modules share: optional values, identities, and duplicate-free and
    concatenated sequences. */
module Basics {

  datatype Option<+T> = None | Some(value: T)

  /** An ObjectId; only ever compared for equality. */
  type Id = nat

  predicate Distinct<T(==)>(s: seq<T>) {
    forall i, j :: 0 <= i < j < |s| ==> s[i] != s[j]
  }

  function ToSet<T>(s: seq<T>): set<T> {
    set x | x in s
  }

  /** A sequence is free of duplicates exactly when its set of elements is as large as itself. */
  lemma {:induction false} DistinctSize<T>(s: seq<T>)
    ensures |ToSet(s)| <= |s|
    ensures Distinct(s) <==> |ToSet(s)| == |s|
  {
    if s != [] {
      var init, last := s[..|s| - 1], s[|s| - 1];
      DistinctSize(init);
      assert s == init + [last];
      assert ToSet(s) == ToSet(init) + {last};
      if last in init {
        assert ToSet(s) == ToSet(init);
      } else {
        assert |ToSet(s)| == |ToSet(init)| + 1;
      }
      if Distinct(s) {
        assert last !in init;
      }
    }
  }

  lemma SubsetOfSameSize<T>(a: set<T>, b: set<T>)
    requires a <= b && |b| <= |a|
    ensures a == b
  {
    assert |b - a| == |b| - |a|;
    assert b - a == {};
  }

  function Concat<T>(parts: seq<seq<T>>): seq<T> {
    if parts == [] then [] else Concat(parts[..|parts| - 1]) + parts[|parts| - 1]
  }
}
