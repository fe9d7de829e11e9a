/** Sequences of indices without repetition. */
module Sequences {

  predicate Distinct(s: seq<nat>) {
    forall i, j :: 0 <= i < j < |s| ==> s[i] != s[j]
  }

  lemma AppendKeepsDistinct(s: seq<nat>, x: nat)
    requires Distinct(s) && x !in s
    ensures Distinct(s + [x])
  {
  }

  predicate Apart(s: seq<nat>, t: seq<nat>) {
    forall x :: x in s ==> x !in t
  }
}
