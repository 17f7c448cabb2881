/** Facts about sequences that proofs call on by name, so that they stay apart from the functions being unfolded. */
module Sequences {

  lemma Snoc<T>(s: seq<T>)
    requires s != []
    ensures s == s[..|s| - 1] + [s[|s| - 1]]
  {
  }

  lemma All<T>(s: seq<T>)
    ensures s[..|s|] == s
  {
  }

  lemma Taken<T>(s: seq<T>, k: nat)
    requires k < |s|
    ensures s[..k + 1][..k] == s[..k] && s[..k + 1][k] == s[k] && |s[..k + 1]| == k + 1
  {
  }

  lemma Shorter<T>(s: seq<T>, n: nat, k: nat)
    requires k <= n <= |s|
    ensures s[..n][..k] == s[..k]
    ensures s[..|s|] == s
  {
  }

  lemma Grown<T>(before: seq<T>, some: seq<T>, more: seq<T>)
    ensures before + some + more == before + (some + more)
  {
  }

  lemma CountsAppend<T>(a: seq<T>, b: seq<T>, x: T)
    ensures multiset(a + b)[x] == multiset(a)[x] + multiset(b)[x]
  {
  }
}
