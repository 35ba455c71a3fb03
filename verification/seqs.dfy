/**
  Facts about sequences that the trace proofs use in several places.
 */
module Seqs {

  /** Regrouping a sequence built in steps: `t` followed by what came after it. */
  lemma Regroup<T>(t: seq<T>, a: seq<T>, b: seq<T>, c: seq<T>)
    ensures (t + a) + b + c == t + (a + b + c)
    ensures (t + a) + b == t + (a + b)
    ensures (t + a + b)[|t|..] == a + b
  {
  }

  /** A common prefix does not make different tails equal. */
  lemma Cancel<T>(p: seq<T>, a: seq<T>, b: seq<T>)
    requires a != b
    ensures p + a != p + b
  {
    assert (p + a)[|p|..] == a && (p + b)[|p|..] == b;
  }
}
