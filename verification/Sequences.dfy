/** Facts about sequences that several modules speak of. */
module Sequences {
  /** No element stands twice. */
  predicate NoRepeats<T(==)>(s: seq<T>) { forall i, j :: 0 <= i < j < |s| ==> s[i] != s[j] }
}
