/**
 * Facts about slices and concatenation, stated once for any element type so
 * that the proofs about token lists do not have to compare strings to get
 * them.
 */
module Sequences {

  lemma SnocParts<T>(a: seq<T>, x: T)
    ensures (a + [x])[..|a|] == a && (a + [x])[|a|] == x
  {
  }

  lemma SnocSplit<T>(s: seq<T>)
    requires |s| > 0
    ensures s == s[..|s| - 1] + [s[|s| - 1]]
  {
  }

  lemma ConsParts<T>(a: seq<T>, b: seq<T>)
    requires |a| > 0
    ensures (a + b)[0] == a[0] && (a + b)[1..] == a[1..] + b
  {
  }

  lemma PrefixOfPrefix<T>(s: seq<T>, n: nat, m: nat)
    requires n <= m <= |s|
    ensures s[..m][..n] == s[..n]
  {
  }

  lemma SliceCons<T>(a: seq<T>, s: seq<T>, i: nat, j: nat)
    requires i < j <= |s|
    ensures (a + [s[i]]) + s[i + 1..j] == a + s[i..j]
  {
    assert s[i..j] == [s[i]] + s[i + 1..j];
  }

  lemma FirstOfRest<T>(a: seq<T>, rest: seq<T>)
    requires |rest| > 0
    ensures (a + [rest[0]]) + rest[1..] == a + rest
    ensures (a + rest)[..|a| + 1] == a + [rest[0]]
  {
    assert rest == [rest[0]] + rest[1..];
  }

  lemma DropCons<T>(a: seq<T>, s: seq<T>, i: nat)
    requires i < |s|
    ensures (a + [s[i]]) + s[i + 1..] == a + s[i..]
  {
    assert s[i..] == [s[i]] + s[i + 1..];
  }

  lemma ConsAssoc<T>(a: seq<T>, b: seq<T>, c: seq<T>)
    ensures a + (b + c) == (a + b) + c
  {
  }
}
