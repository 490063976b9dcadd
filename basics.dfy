/** Small shared definitions: an optional value and integer minimum/maximum. */
module Basics {

  /** A value that may be absent, as Python's `None` or a falsy entry. */
  datatype Option<+T> = None | Some(value: T)

  function Min(a: int, b: int): int { if a <= b then a else b }

  function Max(a: int, b: int): int { if a >= b then a else b }

  /** A prefix one longer is the prefix followed by the next element. */
  lemma PrefixExtend<T>(s: seq<T>, i: nat)
    requires i < |s|
    ensures s[..i] + [s[i]] == s[..i + 1]
  {
  }
}
