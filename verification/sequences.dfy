/** Regrouping facts about sequences shared by the proofs. */
module Sequences {

  /** Appending one element after a concatenation. */
  lemma Snoc<T>(a: seq<T>, b: seq<T>, x: T)
    ensures a + b + [x] == a + (b + [x])
  {
  }

  /** Three appends in a row append their concatenation. */
  lemma Appended<T>(log0: seq<T>, log1: seq<T>, log2: seq<T>, log3: seq<T>, p: seq<T>, q: seq<T>, z: seq<T>)
    requires log1 == log0 + p && log2 == log1 + q && log3 == log2 + z
    ensures log3 == log0 + (p + q + z)
  {
  }

  /** A sequence split around its element at `i`. */
  lemma Regrouped<T>(s: seq<T>, i: nat)
    requires i < |s|
    ensures s == s[..i] + [s[i]] + s[i + 1..]
  {
  }

  /** The first element of a non-empty sequence is one of its members. */
  lemma FirstIsMember<T>(s: seq<T>)
    requires s != []
    ensures s[0] in s
  {
  }

  /** A sequence without members is empty. */
  lemma NoMembers<T>(s: seq<T>)
    requires forall x :: x !in s
    ensures s == []
  {
    if s != [] {
      FirstIsMember(s);
      assert false;
    }
  }
}
