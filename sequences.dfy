/** General facts about sequences shared by the other modules. */
module Sequences {

  /** Concatenation is associative. Stated as a lemma so that a proof can
      regroup a long concatenation without the solver searching for it. */
  lemma AppendAssoc<T>(a: seq<T>, b: seq<T>, c: seq<T>)
    ensures (a + b) + c == a + (b + c)
  {
  }
}
