/** Small facts about slices and concatenation, for the proofs about cursors. */
module Sequences {

  lemma DropDrop<T>(s: seq<T>, m: nat, n: nat)
    requires m + n <= |s|
    ensures s[m..][n..] == s[m + n..]
  {
  }

  lemma DropTake<T>(s: seq<T>, m: nat, n: nat)
    requires m + n <= |s|
    ensures s[m..][..n] == s[m..m + n]
  {
  }

  lemma DropSlice<T>(s: seq<T>, m: nat, i: nat, j: nat)
    requires i <= j && m + j <= |s|
    ensures s[m..][i..j] == s[m + i..m + j]
  {
  }

  lemma SliceSlice<T>(s: seq<T>, m: nat, n: nat, i: nat, j: nat)
    requires m <= n <= |s| && i <= j <= n - m
    ensures s[m..n][i..j] == s[m + i..m + j]
  {
    var inner, outer := s[m..n][i..j], s[m + i..m + j];
    assert |inner| == |outer|;
    assert forall k :: 0 <= k < |inner| ==> inner[k] == outer[k];
  }

  lemma DropPrefix<T>(a: seq<T>, b: seq<T>)
    ensures (a + b)[|a|..] == b
  {
  }

  lemma AppendAssociates<T>(a: seq<T>, b: seq<T>, c: seq<T>)
    ensures a + (b + c) == a + b + c
  {
  }

  lemma EmptyInFront<T>(s: seq<T>)
    ensures [] + s == s
  {
  }

  lemma TakeThenDrop<T>(s: seq<T>, n: nat)
    requires n <= |s|
    ensures s[..n] + s[n..] == s
  {
  }
}
