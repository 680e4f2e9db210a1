/** Order and repetition in sequences. */
module Sequences {
  predicate Ascending(xs: seq<int>) { forall i, j :: 0 <= i < j < |xs| ==> xs[i] < xs[j] }

  predicate Distinct<T(==)>(xs: seq<T>) { forall i, j :: 0 <= i < j < |xs| ==> xs[i] != xs[j] }

  predicate DistinctBy<T, K(==)>(xs: seq<T>, key: T -> K) {
    forall i, j :: 0 <= i < j < |xs| ==> key(xs[i]) != key(xs[j])
  }
}
