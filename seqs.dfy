/** Facts about sequences that the proofs of the other modules share. */
module Seqs {

  /** Concatenation is associative; stated once so that proofs can name
      the regrouping they need instead of leaving the solver to find it. */
  lemma SeqAssoc<T>(a: seq<T>, b: seq<T>, c: seq<T>)
    ensures a + b + c == a + (b + c)
  {
  }
}
