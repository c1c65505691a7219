/** A fact about sequence concatenation that the verifier does not apply on its own. */
module Sequences {
  lemma ConcatAssociates<T>(a: seq<T>, b: seq<T>, c: seq<T>)
    ensures a + b + c == a + (b + c)
  {
  }
}
