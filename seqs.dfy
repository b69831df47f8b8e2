/** Two facts about sequence concatenation that the solver is given explicitly in long proofs. */
module Seqs {
  /** A prefix splits at any point inside it. */
  lemma TakeSplit<T>(s: seq<T>, i: int, k: int)
    requires 0 <= i <= k <= |s|
    ensures s[..k] == s[..i] + s[i..k]
  {
  }

  /** Concatenation is associative. */
  lemma AppendAssoc<T>(a: seq<T>, b: seq<T>, c: seq<T>)
    ensures (a + b) + c == a + (b + c)
  {
  }
}
