/** A property of sequences that several modules speak of. */
module Sequences {
  /** No element occurs at two positions. */
  predicate NoRepeats<T(==)>(s: seq<T>)
  {
    forall i, j | 0 <= i < j < |s| :: s[i] != s[j]
  }
}
