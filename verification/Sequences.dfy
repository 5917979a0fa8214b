/** What several modules say of sequences, and the smaller of two numbers. */
module Sequences {
  function Min(n: nat, m: nat): (r: nat)
    ensures r <= n && r <= m
  {
    if n < m then n else m
  }

  /** All but the element at `k`. */
  function Without<T>(s: seq<T>, k: nat): (r: seq<T>)
    requires k < |s|
  {
    s[..k] + s[k + 1..]
  }

  ghost predicate NoDuplicates<T>(s: seq<T>) {
    forall i, j :: 0 <= i < j < |s| ==> s[i] != s[j]
  }

  lemma Assoc<T>(a: seq<T>, b: seq<T>, c: seq<T>)
    ensures a + (b + c) == a + b + c
  {
  }
}
