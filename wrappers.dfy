/** Shared helpers: the optional-value datatype and a sequence lemma. */
module Wrappers {
  datatype Option<+T> = None | Some(value: T)

  /** A non-empty sequence is its prefix followed by its last element. */
  lemma SplitLast<T>(s: seq<T>)
    requires s != []
    ensures s == s[..|s| - 1] + [s[|s| - 1]]
  {
  }
}
