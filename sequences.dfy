/** Facts about sequence concatenation the proofs of the other modules share. */
module Sequences {
  /** Regrouping a concatenation that ends in one element. */
  lemma AppendSnoc<T>(a: seq<T>, init: seq<T>, last: T)
    ensures a + (init + [last]) == (a + init) + [last]
  {
  }

  /** Regrouping a concatenation of three sequences. */
  lemma AppendAssoc<T>(a: seq<T>, b: seq<T>, c: seq<T>)
    ensures a + b + c == a + (b + c)
  {
  }

  /** A non-empty sequence is all but its last element, then the last one. */
  lemma InitLast<T>(s: seq<T>)
    requires |s| > 0
    ensures s == s[..|s| - 1] + [s[|s| - 1]]
  {
  }

  /** Membership in a non-empty sequence: in all but its last element, or the last one. */
  lemma InInitOrLast<T>(s: seq<T>, x: T)
    requires |s| > 0
    ensures x in s <==> x in s[..|s| - 1] || x == s[|s| - 1]
  {
    InitLast(s);
  }
}
