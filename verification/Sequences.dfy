/** Facts about sequences that the solver has to be told. */
module Sequences {
  lemma Associate<T>(a: seq<T>, b: seq<T>, c: seq<T>)
    ensures a + b + c == a + (b + c)
  {
  }

  lemma PrefixBehind<T>(before: seq<T>, a: seq<T>, b: seq<T>)
    requires a <= b
    ensures before + a <= before + b
  {
  }
}
