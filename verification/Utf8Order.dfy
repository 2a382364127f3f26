/** Strings and their UTF-8 bytes: equal bytes mean equal strings, and bytes compare as scalar values do. So comparing
    strings, sorting them, and putting them into preimages can be modelled on either. */
module Utf8Order {
  import opened Machine
  import opened Sequences
  import opened Sorting
  import opened Text

  /** The bytes differ, and where they first do the left one is smaller. */
  ghost predicate Before(x: Bytes, y: Bytes) {
    exists k :: Differ(x, y, k)
  }

  ghost predicate Differ(x: Bytes, y: Bytes, k: int) {
    0 <= k < |x| && k < |y| && x[..k] == y[..k] && x[k] < y[k]
  }

  lemma {:induction false} FirstDifferenceDecides(x: Bytes, y: Bytes, s: Bytes, t: Bytes, k: nat)
    requires Differ(x, y, k)
    ensures LexLe(x + s, y + t, ByteRank) && !LexLe(y + t, x + s, ByteRank)
    decreases k
  {
    assert (x + s)[0] == x[0] && (y + t)[0] == y[0];
    if k > 0 {
      assert x[0] == x[..k][0] == y[..k][0] == y[0];
      assert (x + s)[1..] == x[1..] + s && (y + t)[1..] == y[1..] + t;
      assert x[1..][..k - 1] == x[..k][1..] == y[..k][1..] == y[1..][..k - 1];
      FirstDifferenceDecides(x[1..], y[1..], s, t, k - 1);
    }
  }

  lemma {:induction false} SameFrontCancels(x: Bytes, s: Bytes, t: Bytes)
    ensures LexLe(x + s, x + t, ByteRank) <==> LexLe(s, t, ByteRank)
  {
    if x == [] {
      assert x + s == s && x + t == t;
    } else {
      assert (x + s)[1..] == x[1..] + s && (x + t)[1..] == x[1..] + t;
      SameFrontCancels(x[1..], s, t);
    }
  }

  // ----- one character -----

  lemma DigitsOf(n: nat, m: nat)
    requires n < m
    ensures n / 0x40 < m / 0x40 || (n / 0x40 == m / 0x40 && n % 0x40 < m % 0x40)
  {
  }

  lemma TwiceDivided(n: nat)
    ensures n / 0x40 / 0x40 == n / 0x1000 && n / 0x1000 / 0x40 == n / 0x4_0000
  {
  }

  lemma ShortBefore(c: char, d: char)
    requires c < d && |Utf8Char(c)| == |Utf8Char(d)| <= 2
    ensures Before(Utf8Char(c), Utf8Char(d))
  {
    var x, y := Utf8Char(c), Utf8Char(d);
    DigitsOf(c as int, d as int);
    assert Differ(x, y, 0) || Differ(x, y, 1);
  }

  lemma ThreeBefore(c: char, d: char)
    requires c < d && |Utf8Char(c)| == |Utf8Char(d)| == 3
    ensures Before(Utf8Char(c), Utf8Char(d))
  {
    var n, m, x, y := c as int, d as int, Utf8Char(c), Utf8Char(d);
    DigitsOf(n, m);
    TwiceDivided(n);
    TwiceDivided(m);
    if n / 0x40 == m / 0x40 {
      assert Differ(x, y, 2);
    } else {
      DigitsOf(n / 0x40, m / 0x40);
      assert Differ(x, y, 0) || Differ(x, y, 1);
    }
  }

  lemma FourBefore(c: char, d: char)
    requires c < d && |Utf8Char(c)| == |Utf8Char(d)| == 4
    ensures Before(Utf8Char(c), Utf8Char(d))
  {
    var n, m, x, y := c as int, d as int, Utf8Char(c), Utf8Char(d);
    DigitsOf(n, m);
    TwiceDivided(n);
    TwiceDivided(m);
    if n / 0x40 == m / 0x40 {
      assert Differ(x, y, 3);
    } else {
      DigitsOf(n / 0x40, m / 0x40);
      if n / 0x1000 == m / 0x1000 {
        assert Differ(x, y, 2);
      } else {
        DigitsOf(n / 0x1000, m / 0x1000);
        assert Differ(x, y, 0) || Differ(x, y, 1);
      }
    }
  }

  lemma ShorterBefore(c: char, d: char)
    requires c < d && |Utf8Char(c)| != |Utf8Char(d)|
    ensures Before(Utf8Char(c), Utf8Char(d))
  {
    assert Differ(Utf8Char(c), Utf8Char(d), 0);
  }

  lemma SmallerBefore(c: char, d: char)
    requires c < d
    ensures Before(Utf8Char(c), Utf8Char(d))
  {
    if |Utf8Char(c)| != |Utf8Char(d)| {
      ShorterBefore(c, d);
    } else if |Utf8Char(c)| <= 2 {
      ShortBefore(c, d);
    } else if |Utf8Char(c)| == 3 {
      ThreeBefore(c, d);
    } else {
      FourBefore(c, d);
    }
  }

  // ----- strings -----

  lemma SmallerFirst(a: string, b: string)
    requires a != "" && b != "" && a[0] < b[0]
    ensures LexLe(Utf8(a), Utf8(b), ByteRank) && !LexLe(Utf8(b), Utf8(a), ByteRank)
  {
    SmallerBefore(a[0], b[0]);
    var k :| Differ(Utf8Char(a[0]), Utf8Char(b[0]), k);
    FirstDifferenceDecides(Utf8Char(a[0]), Utf8Char(b[0]), Utf8(a[1..]), Utf8(b[1..]), k);
  }

  /** Strings compare by scalar values exactly as their UTF-8 bytes compare. */
  lemma {:induction false} OrderIsByteOrder(a: string, b: string)
    ensures StringLe(a, b) <==> LexLe(Utf8(a), Utf8(b), ByteRank)
    decreases |a|
  {
    if a != "" && b != "" {
      if a[0] == b[0] {
        OrderIsByteOrder(a[1..], b[1..]);
        SameFrontCancels(Utf8Char(a[0]), Utf8(a[1..]), Utf8(b[1..]));
      } else if a[0] < b[0] {
        SmallerFirst(a, b);
      } else {
        SmallerFirst(b, a);
      }
    }
  }

  /** Strings with the same bytes are the same. */
  lemma Utf8Injective(a: string, b: string)
    requires Utf8(a) == Utf8(b)
    ensures a == b
  {
    OrderIsByteOrder(a, b);
    OrderIsByteOrder(b, a);
    LexLeTotal(Utf8(a), Utf8(a), ByteRank);
    StringLeIsTotalOrder(a, b, "");
  }
}
