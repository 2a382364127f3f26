/** The byte encodings shared by digest preimages and rendered frames: big-endian integers,
    length-prefixed byte strings, ASCII words and decimal numbers. */
module Encoding {
  import opened Machine
  import opened Sequences
  import opened Wrappers

  /** The low `width` bytes of `n`, most significant first. */
  function BigEndian(n: nat, width: nat): (b: Bytes)
    ensures |b| == width
  {
    if width == 0 then [] else BigEndian(n / 256, width - 1) + [n % 256]
  }

  ghost function Pow256(width: nat): nat {
    if width == 0 then 1 else 256 * Pow256(width - 1)
  }

  /** What a number is worth whose bytes are written most significant first. */
  ghost function PlaceValue(b: Bytes): nat {
    if b == [] then 0 else b[0] * Pow256(|b| - 1) + PlaceValue(b[1..])
  }

  lemma {:induction false} PlaceValueOfLast(b: Bytes, last: Byte)
    ensures PlaceValue(b + [last]) == 256 * PlaceValue(b) + last
  {
    var s := b + [last];
    if b == [] {
      assert s[1..] == [];
    } else {
      assert s[1..] == b[1..] + [last];
      PlaceValueOfLast(b[1..], last);
      assert s[0] * Pow256(|s| - 1) == 256 * (b[0] * Pow256(|b| - 1));
    }
  }

  /** The bytes are worth the number, whenever it fits them. */
  lemma {:induction false} BigEndianValue(n: nat, width: nat)
    requires n < Pow256(width)
    ensures PlaceValue(BigEndian(n, width)) == n
  {
    if width > 0 {
      BigEndianValue(n / 256, width - 1);
      PlaceValueOfLast(BigEndian(n / 256, width - 1), n % 256);
    }
  }

  lemma {:induction false} BigEndianInjective(m: nat, n: nat, width: nat)
    requires m < Pow256(width) && n < Pow256(width)
    requires BigEndian(m, width) == BigEndian(n, width)
    ensures m == n
  {
    if width > 0 {
      var a, b := BigEndian(m, width), BigEndian(n, width);
      assert a[width - 1] == b[width - 1];
      assert a[..width - 1] == BigEndian(m / 256, width - 1) && b[..width - 1] == BigEndian(n / 256, width - 1);
      BigEndianInjective(m / 256, n / 256, width - 1);
    }
  }

  function U64Bytes(n: nat): (b: Bytes)
    ensures |b| == 8
  {
    BigEndian(n, 8)
  }

  lemma U64BytesInjective(m: U64, n: U64)
    requires U64Bytes(m) == U64Bytes(n)
    ensures m == n
  {
    assert Pow256(8) == U64_MAX + 1 by {
      assert Pow256(2) == 0x1_0000;
      assert Pow256(4) == 0x1_0000_0000;
      assert Pow256(6) == 0x1_0000_0000_0000;
    }
    BigEndianInjective(m, n, 8);
  }

  lemma U32BytesInjective(m: U32, n: U32)
    requires BigEndian(m, 4) == BigEndian(n, 4)
    ensures m == n
  {
    assert Pow256(2) == 0x1_0000;
    BigEndianInjective(m, n, 4);
  }

  /** Eight bytes of length, then the bytes. */
  function Prefixed(b: Bytes): Bytes {
    U64Bytes(|b|) + b
  }

  predicate Fits(b: Bytes) {
    |b| <= U64_MAX
  }

  /** The codes of a list of items, one after the other. */
  function Coded<T>(items: seq<T>, code: T -> Bytes): Bytes {
    if items == [] then [] else Coded(items[..|items| - 1], code) + code(items[|items| - 1])
  }

  lemma CodedNone<T>(start: Bytes, items: seq<T>, code: T -> Bytes)
    ensures start + Coded(items[..0], code) == start
  {
  }

  lemma CodedStep<T>(start: Bytes, items: seq<T>, code: T -> Bytes, k: nat)
    requires k < |items|
    ensures start + Coded(items[..k + 1], code) == start + Coded(items[..k], code) + code(items[k])
    ensures |Coded(items[..k + 1], code)| == |Coded(items[..k], code)| + |code(items[k])|
  {
    assert items[..k + 1][..k] == items[..k];
  }

  lemma {:induction false} CodedGrows<T>(items: seq<T>, code: T -> Bytes, k: nat)
    requires k <= |items|
    ensures |Coded(items[..k], code)| <= |Coded(items, code)|
    decreases |items| - k
  {
    if k == |items| {
      assert items[..k] == items;
    } else {
      CodedStep([], items, code, k);
      CodedGrows(items, code, k + 1);
    }
  }

  lemma {:induction false} CodedConcat<T>(a: seq<T>, b: seq<T>, code: T -> Bytes)
    ensures Coded(a + b, code) == Coded(a, code) + Coded(b, code)
  {
    if b == [] {
      assert a + b == a;
    } else {
      var front, last := b[..|b| - 1], b[|b| - 1];
      assert (a + b)[..|a + b| - 1] == a + front;
      CodedConcat(a, front, code);
      Regroup(Coded(a, code), Coded(front, code), code(last));
    }
  }

  lemma CodedHead<T>(items: seq<T>, code: T -> Bytes)
    requires items != []
    ensures Coded(items, code) == code(items[0]) + Coded(items[1..], code)
  {
    CodedConcat([items[0]], items[1..], code);
    assert items == [items[0]] + items[1..];
    assert Coded([items[0]], code) == Coded([], code) + code(items[0]);
  }

  /** Neither of two different codes is a prefix of the other. */
  predicate PrefixApart(a: Bytes, b: Bytes) {
    a <= b || b <= a ==> a == b
  }

  lemma CancelApart(a: Bytes, b: Bytes, x: Bytes, y: Bytes)
    requires PrefixApart(a, b) && a + x == b + y
    ensures a == b && x == y
  {
    var whole := a + x;
    assert a == whole[..|a|] && b == whole[..|b|];
    assert |a| <= |b| ==> a == b[..|a|];
    assert |b| <= |a| ==> b == a[..|b|];
    assert x == whole[|a|..] && y == whole[|b|..];
  }

  lemma CodedTail<T>(items: seq<T>, code: T -> Bytes, rest: Bytes)
    requires items != []
    ensures var n := |items| - 1;
            Coded(items, code) + rest == Coded(items[..n], code) + (code(items[n]) + rest)
  {
    Regroup(Coded(items[..|items| - 1], code), code(items[|items| - 1]), rest);
  }

  /** Two lists of equally many items can be taken off the front when their codes are prefix-apart. */
  lemma {:induction false} CancelCoded<T>(a: seq<T>, b: seq<T>, code: T -> Bytes, x: Bytes, y: Bytes)
    requires |a| == |b| && forall i :: 0 <= i < |a| ==> PrefixApart(code(a[i]), code(b[i]))
    requires Coded(a, code) + x == Coded(b, code) + y
    ensures x == y && forall i :: 0 <= i < |a| ==> code(a[i]) == code(b[i])
  {
    if a == [] {
      assert Coded(a, code) + x == x && Coded(b, code) + y == y;
    } else {
      var n := |a| - 1;
      CodedTail(a, code, x);
      CodedTail(b, code, y);
      assert forall i :: 0 <= i < n ==> a[..n][i] == a[i] && b[..n][i] == b[i];
      CancelCoded(a[..n], b[..n], code, code(a[n]) + x, code(b[n]) + y);
      CancelApart(code(a[n]), code(b[n]), x, y);
    }
  }

  predicate AllFit(items: seq<Bytes>) {
    forall i :: 0 <= i < |items| ==> Fits(items[i])
  }

  /** A count, then that many length-prefixed strings. */
  function ItemList(items: seq<Bytes>): Bytes {
    U64Bytes(|items|) + Coded(items, Prefixed)
  }

  predicate ItemsFit(items: seq<Bytes>) {
    |items| <= U64_MAX && AllFit(items)
  }

  /** Parts of equal length can be taken off the front of equal strings. */
  lemma CancelFixed(a: Bytes, b: Bytes, x: Bytes, y: Bytes)
    requires |a| == |b| && a + x == b + y
    ensures a == b && x == y
  {
    assert a == (a + x)[..|a|] && b == (b + y)[..|b|];
    assert x == (a + x)[|a|..] && y == (b + y)[|b|..];
  }

  lemma CancelU64(m: U64, n: U64, x: Bytes, y: Bytes)
    requires U64Bytes(m) + x == U64Bytes(n) + y
    ensures m == n && x == y
  {
    CancelFixed(U64Bytes(m), U64Bytes(n), x, y);
    U64BytesInjective(m, n);
  }

  /** A length-prefixed string can be taken off the front: its length says where it ends. */
  lemma CancelPrefixed(a: Bytes, b: Bytes, x: Bytes, y: Bytes)
    requires Fits(a) && Fits(b) && Prefixed(a) + x == Prefixed(b) + y
    ensures a == b && x == y
  {
    assert Prefixed(a) + x == U64Bytes(|a|) + (a + x) && Prefixed(b) + y == U64Bytes(|b|) + (b + y);
    CancelU64(|a|, |b|, a + x, b + y);
    CancelFixed(a, b, x, y);
  }

  lemma PrefixedApart(a: Bytes, b: Bytes)
    requires Fits(a) && Fits(b)
    ensures PrefixApart(Prefixed(a), Prefixed(b))
    ensures Prefixed(a) == Prefixed(b) ==> a == b
  {
    if Prefixed(a) <= Prefixed(b) {
      CancelPrefixed(a, b, Prefixed(b)[|Prefixed(a)|..], []);
    } else if Prefixed(b) <= Prefixed(a) {
      CancelPrefixed(b, a, Prefixed(a)[|Prefixed(b)|..], []);
    }
  }

  lemma CancelItemList(a: seq<Bytes>, b: seq<Bytes>, x: Bytes, y: Bytes)
    requires ItemsFit(a) && ItemsFit(b) && ItemList(a) + x == ItemList(b) + y
    ensures a == b && x == y
  {
    Regroup(U64Bytes(|a|), Coded(a, Prefixed), x);
    Regroup(U64Bytes(|b|), Coded(b, Prefixed), y);
    CancelU64(|a|, |b|, Coded(a, Prefixed) + x, Coded(b, Prefixed) + y);
    CancelItems(a, b, x, y);
  }

  lemma CancelItems(a: seq<Bytes>, b: seq<Bytes>, x: Bytes, y: Bytes)
    requires ItemsFit(a) && ItemsFit(b) && |a| == |b| && Coded(a, Prefixed) + x == Coded(b, Prefixed) + y
    ensures a == b && x == y
  {
    forall i | 0 <= i < |a|
      ensures PrefixApart(Prefixed(a[i]), Prefixed(b[i])) && (Prefixed(a[i]) == Prefixed(b[i]) ==> a[i] == b[i])
    {
      PrefixedApart(a[i], b[i]);
    }
    CancelCoded(a, b, Prefixed, x, y);
  }

  /** Three length-prefixed strings in a row can be taken off the front. */
  lemma CancelTriple(a: Bytes, a': Bytes, b: Bytes, b': Bytes, c: Bytes, c': Bytes, x: Bytes, y: Bytes)
    requires Fits(a) && Fits(a') && Fits(b) && Fits(b') && Fits(c) && Fits(c')
    requires Triple(a, b, c) + x == Triple(a', b', c') + y
    ensures a == a' && b == b' && c == c' && x == y
  {
    assert Triple(a, b, c) + x == Prefixed(a) + (Prefixed(b) + (Prefixed(c) + x));
    assert Triple(a', b', c') + y == Prefixed(a') + (Prefixed(b') + (Prefixed(c') + y));
    CancelPrefixed(a, a', Prefixed(b) + (Prefixed(c) + x), Prefixed(b') + (Prefixed(c') + y));
    CancelPrefixed(b, b', Prefixed(c) + x, Prefixed(c') + y);
    CancelPrefixed(c, c', x, y);
  }

  function Triple(a: Bytes, b: Bytes, c: Bytes): Bytes {
    Prefixed(a) + (Prefixed(b) + Prefixed(c))
  }

  lemma TripleApart(a: Bytes, a': Bytes, b: Bytes, b': Bytes, c: Bytes, c': Bytes)
    requires Fits(a) && Fits(a') && Fits(b) && Fits(b') && Fits(c) && Fits(c')
    ensures PrefixApart(Triple(a, b, c), Triple(a', b', c'))
    ensures Triple(a, b, c) == Triple(a', b', c') ==> a == a' && b == b' && c == c'
  {
    var x, y := Triple(a, b, c), Triple(a', b', c');
    if x <= y {
      CancelTriple(a, a', b, b', c, c', y[|x|..], []);
    } else if y <= x {
      CancelTriple(a', a, b', b, c', c, x[|y|..], []);
    }
  }

  /** A growing output buffer, as the program's `&mut Vec<u8>`. */
  class Buffer {
    var content: Bytes

    constructor (start: Bytes)
      ensures content == start
    {
      content := start;
    }

    /** Appends `b`; with `rest` still to come, the whole stays what it was going to be. */
    method Extend(b: Bytes, ghost rest: Bytes)
      modifies this
      ensures content == old(content) + b
      ensures content + rest == old(content) + (b + rest)
    {
      content := content + b;
    }

    /** Appends a length-prefixed string, unless its length does not fit 64 bits. */
    method PutBytes(b: Bytes, ghost rest: Bytes) returns (ok: bool)
      modifies this
      ensures ok <==> Fits(b)
      ensures content == if ok then old(content) + Prefixed(b) else old(content)
      ensures ok ==> content + rest == old(content) + (Prefixed(b) + rest)
    {
      ok := |b| <= U64_MAX;
      if ok {
        Extend(U64Bytes(|b|), b);
        Extend(b, rest);
        assert content == old(content) + Prefixed(b);
      }
    }

    method PutAll(items: seq<Bytes>) returns (ok: bool)
      modifies this
      ensures ok <==> AllFit(items)
      ensures ok ==> content == old(content) + Coded(items, Prefixed)
    {
      CodedNone(content, items, Prefixed);
      for i := 0 to |items|
        invariant forall k :: 0 <= k < i ==> Fits(items[k])
        invariant content == old(content) + Coded(items[..i], Prefixed)
      {
        ok := PutBytes(items[i], []);
        if !ok {
          return;
        }
        CodedStep(old(content), items, Prefixed, i);
      }
      assert items[..|items|] == items;
      ok := true;
    }

    /** Appends a count and that many length-prefixed strings. */
    method PutItems(items: seq<Bytes>, ghost rest: Bytes) returns (ok: bool)
      modifies this
      ensures ok <==> ItemsFit(items)
      ensures ok ==> content + rest == old(content) + (ItemList(items) + rest)
    {
      if |items| > U64_MAX {
        return false;
      }
      Extend(U64Bytes(|items|), Coded(items, Prefixed));
      ok := PutAll(items);
      if ok {
        assert content == old(content) + ItemList(items);
        assert content + rest == old(content) + (ItemList(items) + rest);
      }
    }
  }

  // ----- words and numbers in text -----

  /** The bytes of a word of ASCII characters, each of which is its own byte. */
  function Ascii(s: string): (b: Bytes)
    ensures |b| == |s|
  {
    seq(|s|, i requires 0 <= i < |s| => s[i] as int % 256)
  }

  const LF: Byte := 10
  const SPACE: Byte := 32

  predicate IsDigit(b: Byte) {
    48 <= b <= 57
  }

  /** The decimal digits of a number, as `to_string` prints them. */
  function Decimal(n: nat): (b: Bytes)
    ensures b != [] && forall i :: 0 <= i < |b| ==> IsDigit(b[i])
  {
    if n < 10 then [48 + n] else Decimal(n / 10) + [48 + n % 10]
  }

  function DecimalValue(b: Bytes): nat
    requires forall i :: 0 <= i < |b| ==> IsDigit(b[i])
  {
    if b == [] then 0
    else
      assert IsDigit(b[|b| - 1]);
      10 * DecimalValue(b[..|b| - 1]) + (b[|b| - 1] as int - 48)
  }

  lemma {:induction false} DecimalRoundTrip(n: nat)
    ensures DecimalValue(Decimal(n)) == n
  {
    var b := Decimal(n);
    if n >= 10 {
      DecimalRoundTrip(n / 10);
      assert b[..|b| - 1] == Decimal(n / 10);
    } else {
      assert b[..|b| - 1] == [];
    }
  }
}
