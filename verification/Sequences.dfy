/** Sequence facts that several modules lean on. */
module Sequences {
  lemma Regroup<T>(a: seq<T>, b: seq<T>, c: seq<T>)
    ensures (a + b) + c == a + (b + c)
  {
  }

  lemma SplitConcat<T>(x: seq<T>, y: seq<T>)
    ensures (x + y)[..|x|] == x && (x + y)[|x|..] == y
  {
  }

  lemma SliceTwice<T>(s: seq<T>, i: nat, end: nat)
    requires i <= end <= |s|
    ensures s[..i] + s[i..] == s && s[i..][..end - i] == s[i..end] && s[i..][end - i..] == s[end..]
  {
  }

  lemma SliceWhole<T>(s: seq<T>)
    ensures s[..|s|] == s && s[|s|..] == []
  {
  }

  function Repeated<T>(x: T, n: nat): (r: seq<T>)
    ensures |r| == n && forall i :: 0 <= i < n ==> r[i] == x
  {
    seq(n, _ => x)
  }
}
