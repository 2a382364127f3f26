/** The library's stable sort, as the program calls it with a comparison, and the lexicographic order
    it is called with. */
module Sorting {
  import opened Machine

  ghost predicate TotalPreorder<T(!new)>(leq: (T, T) -> bool) {
    && (forall x, y :: leq(x, y) || leq(y, x))
    && (forall x, y, z :: leq(x, y) && leq(y, z) ==> leq(x, z))
  }

  ghost predicate Sorted<T>(s: seq<T>, leq: (T, T) -> bool) {
    forall i, j :: 0 <= i < j < |s| ==> leq(s[i], s[j])
  }

  /** Places `x` before the first element it may precede, so equal elements keep their order. */
  function Insert<T>(x: T, s: seq<T>, leq: (T, T) -> bool): seq<T> {
    if s == [] || leq(x, s[0]) then [x] + s else [s[0]] + Insert(x, s[1..], leq)
  }

  function SortBy<T>(s: seq<T>, leq: (T, T) -> bool): seq<T> {
    if s == [] then [] else Insert(s[0], SortBy(s[1..], leq), leq)
  }

  lemma HeadAndTail<T>(s: seq<T>)
    requires s != []
    ensures multiset(s) == multiset{s[0]} + multiset(s[1..])
    ensures multiset(s[1..]) == multiset(s) - multiset{s[0]}
  {
    assert s == [s[0]] + s[1..];
  }

  lemma {:induction false} InsertPermutes<T>(x: T, s: seq<T>, leq: (T, T) -> bool)
    ensures multiset(Insert(x, s, leq)) == multiset{x} + multiset(s)
    ensures |Insert(x, s, leq)| == |s| + 1
  {
    if s != [] && !leq(x, s[0]) {
      InsertPermutes(x, s[1..], leq);
      HeadAndTail(s);
    }
  }

  lemma ConsSorted<T>(x: T, s: seq<T>, leq: (T, T) -> bool)
    requires Sorted(s, leq) && forall y :: y in s ==> leq(x, y)
    ensures Sorted([x] + s, leq)
  {
  }

  lemma {:induction false} InsertMembers<T>(x: T, s: seq<T>, leq: (T, T) -> bool)
    ensures forall y :: y in Insert(x, s, leq) ==> y == x || y in s
  {
    if s != [] && !leq(x, s[0]) {
      InsertMembers(x, s[1..], leq);
    }
  }

  lemma HeadIsLeast<T(!new)>(x: T, s: seq<T>, leq: (T, T) -> bool)
    requires TotalPreorder(leq) && Sorted(s, leq) && s != [] && leq(x, s[0])
    ensures forall y :: y in s ==> leq(x, y)
  {
    forall j | 0 < j < |s|
      ensures leq(x, s[j])
    {
      assert leq(s[0], s[j]);
    }
  }

  lemma {:induction false} InsertKeepsSorted<T(!new)>(x: T, s: seq<T>, leq: (T, T) -> bool)
    requires TotalPreorder(leq) && Sorted(s, leq)
    ensures Sorted(Insert(x, s, leq), leq)
  {
    if s == [] {
    } else if leq(x, s[0]) {
      HeadIsLeast(x, s, leq);
      ConsSorted(x, s, leq);
    } else {
      InsertKeepsSorted(x, s[1..], leq);
      InsertMembers(x, s[1..], leq);
      ConsSorted(s[0], Insert(x, s[1..], leq), leq);
    }
  }

  lemma {:induction false} SortPermutes<T>(s: seq<T>, leq: (T, T) -> bool)
    ensures multiset(SortBy(s, leq)) == multiset(s)
    ensures |SortBy(s, leq)| == |s|
  {
    if s != [] {
      SortPermutes(s[1..], leq);
      InsertPermutes(s[0], SortBy(s[1..], leq), leq);
      HeadAndTail(s);
    }
  }

  lemma {:induction false} SortSorts<T(!new)>(s: seq<T>, leq: (T, T) -> bool)
    requires TotalPreorder(leq)
    ensures Sorted(SortBy(s, leq), leq)
    ensures multiset(SortBy(s, leq)) == multiset(s)
  {
    SortPermutes(s, leq);
    if s != [] {
      SortSorts(s[1..], leq);
      InsertKeepsSorted(s[0], SortBy(s[1..], leq), leq);
    }
  }

  lemma {:induction false} SortedStays<T(!new)>(s: seq<T>, leq: (T, T) -> bool)
    requires Sorted(s, leq)
    ensures SortBy(s, leq) == s
  {
    if s != [] {
      SortedStays(s[1..], leq);
      assert s == [s[0]] + s[1..];
    }
  }

  lemma SameMembers<T>(s: seq<T>, t: seq<T>, x: T)
    requires multiset(s) == multiset(t)
    ensures x in s <==> x in t
  {
    assert x in s <==> x in multiset(s);
    assert x in t <==> x in multiset(t);
  }

  lemma SameLength<T>(s: seq<T>, t: seq<T>)
    requires multiset(s) == multiset(t)
    ensures |s| == |t|
  {
    assert |multiset(s)| == |s| && |multiset(t)| == |t|;
  }

  lemma AllPermuted<T>(s: seq<T>, t: seq<T>, holds: T -> bool)
    requires multiset(s) == multiset(t)
    requires forall i :: 0 <= i < |s| ==> holds(s[i])
    ensures forall i :: 0 <= i < |t| ==> holds(t[i])
  {
    forall i | 0 <= i < |t|
      ensures holds(t[i])
    {
      SameMembers(s, t, t[i]);
      var j :| 0 <= j < |s| && s[j] == t[i];
    }
  }

  /** What holds of every element holds of every element once sorted. */
  lemma SortKeepsAll<T>(s: seq<T>, leq: (T, T) -> bool, holds: T -> bool)
    requires forall i :: 0 <= i < |s| ==> holds(s[i])
    ensures |SortBy(s, leq)| == |s| && forall i :: 0 <= i < |s| ==> holds(SortBy(s, leq)[i])
  {
    SortPermutes(s, leq);
    AllPermuted(s, SortBy(s, leq), holds);
  }

  /** Where the order separates the elements, a sorted arrangement is unique. */
  lemma {:induction false} SortedIsUnique<T(!new)>(s: seq<T>, t: seq<T>, leq: (T, T) -> bool)
    requires Sorted(s, leq) && Sorted(t, leq) && multiset(s) == multiset(t)
    requires forall x, y :: x in s && y in s && leq(x, y) && leq(y, x) ==> x == y
    ensures s == t
  {
    SameLength(s, t);
    if s != [] {
      assert s[0] == t[0] by {
        SameMembers(s, t, s[0]);
        SameMembers(s, t, t[0]);
      }
      HeadAndTail(s);
      HeadAndTail(t);
      assert multiset(s[1..]) == multiset(t[1..]);
      SortedIsUnique(s[1..], t[1..], leq);
      assert s == [s[0]] + s[1..] && t == [t[0]] + t[1..];
    }
  }

  method Overwrite<T>(a: array<T>, lo: nat, s: seq<T>)
    requires lo + |s| <= a.Length
    modifies a
    ensures a[..] == old(a[..lo]) + s + old(a[lo + |s|..])
  {
    for k := 0 to |s|
      invariant forall i :: 0 <= i < lo || lo + k <= i < a.Length ==> a[i] == old(a[i])
      invariant forall i :: 0 <= i < k ==> a[lo + i] == s[i]
    {
      a[lo + k] := s[k];
    }
    assert a[..lo] == old(a[..lo]);
    assert a[lo..lo + |s|] == s;
    assert a[lo + |s|..] == old(a[lo + |s|..]);
  }

  /** The library's stable sort of a slice in place. */
  method SortSlice<T>(a: array<T>, lo: nat, hi: nat, leq: (T, T) -> bool)
    requires lo <= hi <= a.Length
    modifies a
    ensures a[..] == old(a[..lo]) + SortBy(old(a[lo..hi]), leq) + old(a[hi..])
  {
    SortPermutes(a[lo..hi], leq);
    Overwrite(a, lo, SortBy(a[lo..hi], leq));
  }

  function Mapped<T, U>(s: seq<T>, f: T -> U): (m: seq<U>)
    ensures |m| == |s|
  {
    seq(|s|, i requires 0 <= i < |s| => f(s[i]))
  }

  function Without<T>(s: seq<T>, k: nat): (r: seq<T>)
    requires k < |s|
    ensures |r| == |s| - 1
  {
    s[..k] + s[k + 1..]
  }

  lemma WithoutMultiset<T>(s: seq<T>, k: nat)
    requires k < |s|
    ensures multiset(s) == multiset{s[k]} + multiset(Without(s, k))
    ensures multiset(Without(s, k)) == multiset(s) - multiset{s[k]}
  {
    assert s == s[..k] + [s[k]] + s[k + 1..];
  }

  lemma MappedWithout<T, U>(s: seq<T>, k: nat, f: T -> U)
    requires k < |s|
    ensures multiset(Mapped(s, f)) == multiset{f(s[k])} + multiset(Mapped(Without(s, k), f))
  {
    WithoutMultiset(Mapped(s, f), k);
    assert Without(Mapped(s, f), k) == Mapped(Without(s, k), f);
  }

  lemma {:induction false} MappedPermutes<T, U>(s: seq<T>, t: seq<T>, f: T -> U)
    requires multiset(s) == multiset(t)
    ensures multiset(Mapped(s, f)) == multiset(Mapped(t, f))
  {
    SameLength(s, t);
    if s != [] {
      SameMembers(s, t, s[0]);
      var k :| 0 <= k < |t| && t[k] == s[0];
      assert multiset(Without(s, 0)) == multiset(Without(t, k)) by {
        WithoutMultiset(s, 0);
        WithoutMultiset(t, k);
      }
      MappedPermutes(Without(s, 0), Without(t, k), f);
      MappedWithout(s, 0, f);
      MappedWithout(t, k, f);
    }
  }

  ghost predicate Distinct<T>(s: seq<T>) {
    forall i, j :: 0 <= i < j < |s| ==> s[i] != s[j]
  }

  lemma {:induction false} DistinctOccurOnce<T>(s: seq<T>, x: T)
    requires Distinct(s)
    ensures multiset(s)[x] <= 1
  {
    if s != [] {
      DistinctOccurOnce(s[1..], x);
      HeadAndTail(s);
      if x == s[0] {
        assert x !in s[1..];
        assert multiset(s[1..])[x] == 0;
      }
    }
  }

  /** What is listed in any order, with anything left out, stays distinct. */
  lemma DistinctIgnoresOrder<T>(s: seq<T>, t: seq<T>)
    requires multiset(t) <= multiset(s) && Distinct(s)
    ensures Distinct(t)
  {
    forall i, j | 0 <= i < j < |t|
      ensures t[i] != t[j]
    {
      DistinctOccurOnce(s, t[i]);
      WithoutMultiset(t, i);
      assert Without(t, i)[j - 1] == t[j];
      assert t[j] in multiset(Without(t, i));
    }
  }

  function Filter<T(!new)>(s: seq<T>, keep: T -> bool): (r: seq<T>)
    ensures forall x :: x in r <==> x in s && keep(x)
  {
    if s == [] then []
    else if keep(s[0]) then [s[0]] + Filter(s[1..], keep)
    else Filter(s[1..], keep)
  }

  lemma {:induction false} FilterKeepsAll<T(!new)>(s: seq<T>, keep: T -> bool)
    requires forall x :: x in s ==> keep(x)
    ensures Filter(s, keep) == s
  {
    if s != [] {
      FilterKeepsAll(s[1..], keep);
    }
  }

  lemma {:induction false} FilterMultiplicity<T(!new)>(s: seq<T>, keep: T -> bool, x: T)
    ensures multiset(Filter(s, keep))[x] == if keep(x) then multiset(s)[x] else 0
  {
    if s != [] {
      FilterMultiplicity(s[1..], keep, x);
      HeadAndTail(s);
    }
  }

  /** Elements that may stand either way keep the order they came in. */
  lemma {:induction false} SortIsStable<T(!new)>(s: seq<T>, leq: (T, T) -> bool, like: T -> bool)
    requires TotalPreorder(leq) && forall x, y :: like(x) && like(y) ==> leq(x, y)
    ensures Filter(SortBy(s, leq), like) == Filter(s, like)
  {
    if s != [] {
      SortIsStable(s[1..], leq, like);
      InsertIsStable(s[0], SortBy(s[1..], leq), leq, like);
    }
  }

  lemma {:induction false} InsertIsStable<T(!new)>(x: T, s: seq<T>, leq: (T, T) -> bool, like: T -> bool)
    requires forall x, y :: like(x) && like(y) ==> leq(x, y)
    ensures Filter(Insert(x, s, leq), like) == (if like(x) then [x] else []) + Filter(s, like)
  {
    if s == [] || leq(x, s[0]) {
      assert ([x] + s)[1..] == s;
    } else {
      InsertIsStable(x, s[1..], leq, like);
      assert ([s[0]] + Insert(x, s[1..], leq))[1..] == Insert(x, s[1..], leq);
    }
  }

  // ----- lexicographic order -----

  /** Lexicographic order, comparing elements by rank. */
  predicate LexLe<T>(a: seq<T>, b: seq<T>, rank: T -> int) {
    a == [] ||
    (b != [] && (rank(a[0]) < rank(b[0]) || (rank(a[0]) == rank(b[0]) && LexLe(a[1..], b[1..], rank))))
  }

  lemma {:induction false} LexLeTotal<T>(a: seq<T>, b: seq<T>, rank: T -> int)
    ensures LexLe(a, b, rank) || LexLe(b, a, rank)
  {
    if a != [] && b != [] {
      LexLeTotal(a[1..], b[1..], rank);
    }
  }

  lemma {:induction false} LexLeTransitive<T>(a: seq<T>, b: seq<T>, c: seq<T>, rank: T -> int)
    requires LexLe(a, b, rank) && LexLe(b, c, rank)
    ensures LexLe(a, c, rank)
  {
    if a != [] && rank(a[0]) == rank(b[0]) == rank(c[0]) {
      LexLeTransitive(a[1..], b[1..], c[1..], rank);
    }
  }

  lemma {:induction false} LexLeAntisymmetric<T>(a: seq<T>, b: seq<T>, rank: T -> int)
    requires LexLe(a, b, rank) && LexLe(b, a, rank)
    requires forall x, y :: x in a && y in b && rank(x) == rank(y) ==> x == y
    ensures a == b
  {
    if a != [] && b != [] {
      LexLeAntisymmetric(a[1..], b[1..], rank);
      assert a == [a[0]] + a[1..] && b == [b[0]] + b[1..];
    }
  }

  /** Where two sequences first differ. */
  ghost predicate FirstDiffer<T>(a: seq<T>, b: seq<T>, k: nat) {
    k < |a| && k < |b| && a[k] != b[k] && forall i :: 0 <= i < k ==> a[i] == b[i]
  }

  lemma {:induction false} LexLeAtDifference<T>(a: seq<T>, b: seq<T>, rank: T -> int, k: nat)
    requires FirstDiffer(a, b, k) && rank(a[k]) != rank(b[k])
    ensures LexLe(a, b, rank) <==> rank(a[k]) < rank(b[k])
    decreases k
  {
    if k > 0 {
      assert a[0] == b[0];
      LexLeAtDifference(a[1..], b[1..], rank, k - 1);
    }
  }

  lemma {:induction false} LexLeOfPrefix<T>(a: seq<T>, b: seq<T>, rank: T -> int)
    requires a <= b
    ensures LexLe(a, b, rank) && (LexLe(b, a, rank) ==> a == b)
  {
    if a != [] {
      LexLeOfPrefix(a[1..], b[1..], rank);
    }
  }

  lemma {:induction false} PrefixOrDiffer<T>(a: seq<T>, b: seq<T>) returns (k: nat)
    ensures a <= b || b <= a || FirstDiffer(a, b, k)
  {
    k := 0;
    if a != [] && b != [] && a[0] == b[0] {
      var n := PrefixOrDiffer(a[1..], b[1..]);
      k := n + 1;
      assert a == [a[0]] + a[1..] && b == [b[0]] + b[1..];
    }
  }

  /** What the order is: a prefix comes first, and otherwise the sequence with the smaller element where they first
      differ. */
  lemma LexLeMeans<T>(a: seq<T>, b: seq<T>, rank: T -> int)
    requires forall x, y :: x in a && y in b && rank(x) == rank(y) ==> x == y
    ensures LexLe(a, b, rank) <==> a <= b || exists k: nat :: FirstDiffer(a, b, k) && rank(a[k]) < rank(b[k])
  {
    var k := PrefixOrDiffer(a, b);
    if a <= b {
      LexLeOfPrefix(a, b, rank);
    } else if b <= a {
      LexLeOfPrefix(b, a, rank);
    } else {
      assert a[k] in a && b[k] in b;
      LexLeAtDifference(a, b, rank, k);
    }
    forall j: nat | FirstDiffer(a, b, j)
      ensures rank(a[j]) != rank(b[j])
      ensures LexLe(a, b, rank) <==> rank(a[j]) < rank(b[j])
    {
      assert a[j] in a && b[j] in b;
      LexLeAtDifference(a, b, rank, j);
    }
  }

  function ByteRank(b: Byte): int {
    b
  }

  function CharRank(c: char): int {
    c as int
  }

  /** The order of strings: by scalar values, which is also the order of their UTF-8 bytes. */
  predicate StringLe(a: string, b: string) {
    LexLe(a, b, CharRank)
  }

  lemma StringLeIsTotalOrder(a: string, b: string, c: string)
    ensures StringLe(a, b) || StringLe(b, a)
    ensures StringLe(a, b) && StringLe(b, c) ==> StringLe(a, c)
    ensures StringLe(a, b) && StringLe(b, a) ==> a == b
  {
    LexLeTotal(a, b, CharRank);
    if StringLe(a, b) && StringLe(b, c) {
      LexLeTransitive(a, b, c, CharRank);
    }
    if StringLe(a, b) && StringLe(b, a) {
      LexLeAntisymmetric(a, b, CharRank);
    }
  }

  lemma StringLeMeans(a: string, b: string)
    ensures StringLe(a, b) <==> a <= b || exists k: nat :: FirstDiffer(a, b, k) && a[k] < b[k]
  {
    LexLeMeans(a, b, CharRank);
  }

  lemma ByteLeMeans(a: Bytes, b: Bytes)
    ensures LexLe(a, b, ByteRank) <==> a <= b || exists k: nat :: FirstDiffer(a, b, k) && a[k] < b[k]
  {
    LexLeMeans(a, b, ByteRank);
  }
}
