/**
 * Facts about splitting a sequence at its last element, used by the
 * snoc-recursive definitions of the other modules. Stating them once, in a
 * context that mentions nothing else, keeps those proofs small.
 */
module Sequences {

  lemma InitThenLast<T>(s: seq<T>)
    requires s != []
    ensures s[..|s| - 1] + [s[|s| - 1]] == s
  {
  }

  lemma SnocParts<T>(s: seq<T>, x: T)
    ensures (s + [x])[..|s|] == s
    ensures (s + [x])[|s|] == x
  {
  }

  lemma ConcatInit<T>(a: seq<T>, b: seq<T>)
    requires b != []
    ensures (a + b)[..|a + b| - 1] == a + b[..|b| - 1]
    ensures (a + b)[|a + b| - 1] == b[|b| - 1]
  {
  }

  lemma PairParts<T>(x: T, y: T)
    ensures [x, y] == [x] + [y]
    ensures [x] == [] + [x]
    ensures [x] + [] == [x]
  {
  }
}
