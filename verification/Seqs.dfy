/** Facts about concatenation. */
module Seqs {
  lemma AppendNil<T>(a: seq<T>)
    ensures [] + a == a && a + [] == a
  {
  }

  lemma Assoc<T>(a: seq<T>, b: seq<T>, c: seq<T>)
    ensures (a + b) + c == a + (b + c)
  {
  }
}
