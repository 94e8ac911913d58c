/** The one sequence edit the plugin performs on every tree, `splice(i, 1)`, and a splitting
    fact the proofs about it use. */
module Sequences {

  /** `s` without its element at index `i`; the others keep their order. */
  function Remove<T>(s: seq<T>, i: nat): (r: seq<T>)
    requires i < |s|
    ensures |r| == |s| - 1
    ensures forall k :: 0 <= k < i ==> r[k] == s[k]
    ensures forall k :: i <= k < |r| ==> r[k] == s[k + 1]
    ensures multiset(r) + multiset{s[i]} == multiset(s)
  {
    assert s == s[..i] + [s[i]] + s[i + 1..];
    s[..i] + s[i + 1..]
  }

  /** A sequence is its prefix of length `n` followed by the rest. */
  lemma SplitAt<T>(s: seq<T>, n: nat)
    requires n <= |s|
    ensures s == s[..n] + s[n..]
  {
  }

  /** The two elements at `i - 1` and `i` with what comes before and after them. */
  lemma SplitPair<T>(s: seq<T>, i: nat)
    requires 0 < i < |s|
    ensures s == s[..i - 1] + ([s[i - 1], s[i]] + s[i + 1..])
  {
  }

  /** Replacing the element before `i` and then removing the one at `i`. */
  lemma RemoveAfterUpdate<T>(s: seq<T>, i: nat, x: T)
    requires 0 < i < |s|
    ensures Remove(s[i - 1 := x], i) == s[..i - 1] + ([x] + s[i + 1..])
  {
    var u := s[i - 1 := x];
    assert u[..i] == s[..i - 1] + [x] && u[i + 1..] == s[i + 1..];
  }

  /** A split of a split is a split in three. */
  lemma Regroup<T>(s: seq<T>, a: seq<T>, m: seq<T>, b: seq<T>, c: seq<T>)
    requires s == a + m && m == b + c
    ensures s == a + b + c
  {
  }
}
