/** A fact about sequence concatenation that the proofs about the written
    text and the appended children both lean on. */
module Seqs {

  /** Concatenation is associative. */
  lemma ConcatAssoc<T>(a: seq<T>, b: seq<T>, c: seq<T>)
    ensures a + b + c == a + (b + c)
  {
  }
}
