// Shared vocabulary: the failure-compatible datatypes every component returns.

module Prelude {

  datatype Option<+T> = None | Some(value: T)

  // A transaction body either commits with a value or throws, in which case it
  // rolls back; `Err` carries the kind of exception.
  datatype Result<+T, +E> = Ok(value: T) | Err(error: E)
}

module Collections {
  ghost predicate NoDuplicates<T>(s: seq<T>) {
    forall i, j | 0 <= i < j < |s| :: s[i] != s[j]
  }

  lemma SubsetIsSmaller<T>(a: set<T>, b: set<T>)
    requires a <= b
    ensures |a| <= |b|
  {
    assert b == a + (b - a);
  }

  lemma DistinctListSize<T>(s: seq<T>)
    requires NoDuplicates(s)
    ensures |set x | x in s| == |s|
  {
    if s != [] {
      var n := |s| - 1;
      DistinctListSize(s[..n]);
      assert s == s[..n] + [s[n]];
      assert (set x | x in s) == (set x | x in s[..n]) + {s[n]};
    }
  }
}
