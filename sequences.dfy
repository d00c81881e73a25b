/** Relations between sequences used by the filters of the model. */
module Sequences {

  /** a is a subsequence of b: b with some elements left out. */
  ghost predicate IsSubsequence<T>(a: seq<T>, b: seq<T>) {
    a == [] || (b != [] && ((a[0] == b[0] && IsSubsequence(a[1..], b[1..])) || IsSubsequence(a, b[1..])))
  }
}
