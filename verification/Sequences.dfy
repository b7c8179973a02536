/** Facts about sequences that the verifier must be reminded of. */
module Sequences {
  lemma Associates<T>(a: seq<T>, b: seq<T>, c: seq<T>)
    ensures a + b + c == a + (b + c)
  {
  }

  lemma EmptyFirst<T>(a: seq<T>, b: seq<T>)
    requires a == []
    ensures a + b == b
  {
  }
}
