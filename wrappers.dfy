/** Optional values, used for lookups and for the partial decoders. */
module Wrappers {

  datatype Option<+T> = None | Some(value: T)

  /** A non-empty sequence is its first element followed by the rest. */
  lemma ConsTail<T>(s: seq<T>)
    requires s != []
    ensures [s[0]] + s[1..] == s
  {
  }

  /** A prefix one element longer is the prefix followed by that element. */
  lemma PrefixSnoc<T>(s: seq<T>, i: int)
    requires 0 <= i < |s|
    ensures s[..i + 1] == s[..i] + [s[i]]
  {
  }
}
