/** Facts about slices of concatenated sequences, stated once so that the
    proofs using them stay small. */
module Seqs {

  lemma SliceOfMiddle<T>(a: seq<T>, b: seq<T>, c: seq<T>)
    ensures (a + b + c)[|a|..|a| + |b|] == b
  {
  }

  lemma SliceOfLeft<T>(a: seq<T>, b: seq<T>, lo: nat, hi: nat)
    requires lo <= hi <= |a|
    ensures (a + b)[lo..hi] == a[lo..hi]
  {
  }

  lemma SliceOfRight<T>(a: seq<T>, b: seq<T>)
    ensures (a + b)[|a|..] == b
  {
  }

  /** Element `j` of a block `s[lo..hi]` is element `lo + j` of `s`. */
  lemma IndexInBlock<T>(s: seq<T>, lo: nat, hi: nat, block: seq<T>, j: nat)
    requires lo <= hi <= |s| && s[lo..hi] == block && j < |block|
    ensures lo + j < |s| && s[lo + j] == block[j]
  {
  }

  /** Dropping element `i` and putting it back. */
  lemma SplitAt<T>(s: seq<T>, i: nat)
    requires i < |s|
    ensures s == s[..i] + [s[i]] + s[i + 1..]
  {
  }

  /** Dropping element `i` drops one occurrence of it from the multiset. */
  lemma MultisetRemove<T>(s: seq<T>, i: nat)
    requires i < |s|
    ensures multiset(s[..i] + s[i + 1..]) == multiset(s) - multiset{s[i]}
  {
    SplitAt(s, i);
    assert multiset(s) == multiset(s[..i]) + multiset{s[i]} + multiset(s[i + 1..]);
  }

  /** Two multisets holding `k` that agree once `k` is taken out agree. */
  lemma MultisetCancel<T>(a: multiset<T>, b: multiset<T>, k: T)
    requires k in a && k in b
    requires a - multiset{k} == b - multiset{k}
    ensures a == b
  {
    assert a == (a - multiset{k}) + multiset{k};
    assert b == (b - multiset{k}) + multiset{k};
  }
}
