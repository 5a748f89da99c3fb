/**
 * Facts about sequences shared by the proofs: concatenation, and the
 * multiset of a sequence, which shows that an iteration order does not
 * change what is collected or summed.
 */
module Seqs {
  /** Concatenation is associative; proved here, away from any other function's axioms. */
  lemma AppendAssoc<T>(x: seq<T>, y: seq<T>, z: seq<T>)
    ensures x + (y + z) == (x + y) + z
  {
  }

  /** A non-empty sequence is its front followed by its last element. */
  lemma FrontLast<T>(s: seq<T>)
    requires s != []
    ensures s == s[..|s| - 1] + [s[|s| - 1]]
  {
  }

  /** Adding the same element to two multisets keeps them equal only if they were equal. */
  lemma AddSameCancels<T>(m1: multiset<T>, m2: multiset<T>, x: T)
    requires m1 + multiset{x} == m2 + multiset{x}
    ensures m1 == m2
  {
    forall y ensures m1[y] == m2[y] {
      assert (m1 + multiset{x})[y] == (m2 + multiset{x})[y];
    }
  }

  /** Removing the element at `j` removes one occurrence of it from the multiset. */
  lemma RemoveAt<T>(b: seq<T>, j: nat)
    requires j < |b|
    ensures multiset(b) == multiset(b[..j] + b[j + 1..]) + multiset{b[j]}
  {
    assert b == b[..j] + [b[j]] + b[j + 1..];
  }

  /**
   * When `a` and `b` have the same elements, the last element of `a` occurs
   * in `b` at some `j`, and dropping it from both keeps them equal as multisets.
   */
  lemma MatchLast<T>(a: seq<T>, b: seq<T>) returns (j: nat)
    requires a != []
    requires multiset(a) == multiset(b)
    ensures j < |b| && b[j] == a[|a| - 1]
    ensures multiset(a[..|a| - 1]) == multiset(b[..j] + b[j + 1..])
  {
    var x := a[|a| - 1];
    var a' := a[..|a| - 1];
    assert a == a' + [x];
    assert multiset(a) == multiset(a') + multiset{x};
    assert x in multiset(b);
    j :| 0 <= j < |b| && b[j] == x;
    RemoveAt(b, j);
    AddSameCancels(multiset(a'), multiset(b[..j] + b[j + 1..]), x);
  }
}
