/** Sequence facts used in several places, stated once for any element type. */
module Seqs {

  lemma TakeSnoc<T>(s: seq<T>, i: nat)
    requires i < |s|
    ensures s[..i + 1] == s[..i] + [s[i]]
  {
  }

  lemma HeadTail<T>(s: seq<T>)
    requires s != []
    ensures s == [s[0]] + s[1..]
  {
  }

  lemma TakeDrop<T>(s: seq<T>, i: nat)
    requires i <= |s|
    ensures s == s[..i] + s[i..]
  {
  }

  /** Moving n elements from a remainder to the part already taken. */
  lemma SliceGrow<T>(s: seq<T>, j: nat, n: nat)
    requires j + n <= |s|
    ensures s[..j] + s[j..][..n] == s[..j + n] && s[j..][n..] == s[j + n..]
  {
  }

  lemma SnocTake<T>(s: seq<T>, x: T)
    ensures (s + [x])[..|s|] == s
  {
  }

  lemma Assoc<T>(a: seq<T>, b: seq<T>, c: seq<T>)
    ensures a + (b + c) == (a + b) + c
  {
  }

  /** Dropping the head of a concatenation. */
  lemma TailOfConcat<T>(a: seq<T>, b: seq<T>)
    ensures a == [] ==> a + b == b
    ensures a != [] ==> (a + b)[0] == a[0] && (a + b)[1..] == a[1..] + b
  {
  }

  lemma TakeTail<T>(s: seq<T>, k: nat)
    requires 0 < k <= |s|
    ensures s[..k][1..] == s[1..][..k - 1] && s[1..][k - 1..] == s[k..]
  {
  }
}
