/** Characters and strings: the fixed character classes the program uses, trimming, and UTF-8. */
module Text {
  import opened Machine

  predicate IsAsciiAlphanumeric(c: char) {
    '0' <= c <= '9' || 'A' <= c <= 'Z' || 'a' <= c <= 'z'
  }

  predicate IsAsciiAlphabetic(c: char) {
    'A' <= c <= 'Z' || 'a' <= c <= 'z'
  }

  /** The characters with the Unicode property White_Space. */
  predicate IsWhitespace(c: char) {
    var n := c as int;
    || 0x09 <= n <= 0x0D || n == 0x20 || n == 0x85 || n == 0xA0 || n == 0x1680
    || 0x2000 <= n <= 0x200A || n == 0x2028 || n == 0x2029 || n == 0x202F || n == 0x205F || n == 0x3000
  }

  /** The control characters: Unicode general category Cc. */
  predicate IsControl(c: char) {
    var n := c as int;
    n < 0x20 || 0x7F <= n < 0xA0
  }

  function TrimStart(s: string): string {
    if s != "" && IsWhitespace(s[0]) then TrimStart(s[1..]) else s
  }

  function TrimEnd(s: string): string {
    if s != "" && IsWhitespace(s[|s| - 1]) then TrimEnd(s[..|s| - 1]) else s
  }

  function Trim(s: string): string {
    TrimEnd(TrimStart(s))
  }

  predicate Blank(s: string) {
    forall i :: 0 <= i < |s| ==> IsWhitespace(s[i])
  }

  /** `t` is `s` without the white space at its end. */
  predicate IsTrimmed(t: string, s: string) {
    t <= s && Blank(s[|t|..]) && (t != "" ==> !IsWhitespace(t[|t| - 1]))
  }

  lemma {:induction false} TrimEndTrims(s: string)
    ensures IsTrimmed(TrimEnd(s), s) && (TrimEnd(s) == "" <==> Blank(s))
  {
    if s != "" && IsWhitespace(s[|s| - 1]) {
      var front, t := s[..|s| - 1], TrimEnd(s[..|s| - 1]);
      TrimEndTrims(front);
      assert s[|t|..] == front[|t|..] + [s[|s| - 1]];
      if Blank(front) {
        assert s == front + [s[|s| - 1]];
      }
    } else if s != "" {
      assert !IsWhitespace(s[|s| - 1]);
    }
  }

  lemma {:induction false} TrimStartKeepsBlank(s: string)
    ensures Blank(TrimStart(s)) <==> Blank(s)
  {
    if s != "" && IsWhitespace(s[0]) {
      TrimStartKeepsBlank(s[1..]);
      assert s == [s[0]] + s[1..];
    }
  }

  /** Trimming leaves nothing exactly of white space. */
  lemma TrimOfBlank(s: string)
    ensures Trim(s) == "" <==> Blank(s)
  {
    TrimEndTrims(TrimStart(s));
    TrimStartKeepsBlank(s);
  }

  function Join(parts: seq<string>, separator: string): string {
    if parts == [] then "" else if |parts| == 1 then parts[0] else parts[0] + separator + Join(parts[1..], separator)
  }

  predicate Contains(s: string, part: string) {
    exists i :: 0 <= i <= |s| && part <= s[i..]
  }

  lemma ContainsMiddle(before: string, part: string, after: string)
    ensures Contains(before + part + after, part)
  {
    assert (before + part + after)[|before|..] == part + after;
  }

  lemma PartAt(s: string, part: string) returns (at: nat)
    requires Contains(s, part)
    ensures at + |part| <= |s| && (part != "" ==> s[at] == part[0])
    ensures forall k :: 0 <= k < |part| ==> s[at + k] == part[k]
  {
    at :| at <= |s| && part <= s[at..];
    forall k | 0 <= k < |part|
      ensures s[at + k] == part[k]
    {
      assert s[at..][k] == part[k];
    }
  }

  /** A string that lacks a letter of a part does not contain it. */
  lemma MissingLetter(s: string, part: string, k: nat)
    requires k < |part| && part[k] !in s
    ensures !Contains(s, part)
  {
    if Contains(s, part) {
      var at := PartAt(s, part);
      assert false;
    }
  }

  /** The UTF-8 encoding of one scalar value. */
  function Utf8Char(c: char): (b: Bytes)
    ensures 1 <= |b| <= 4
    ensures c as int < 0x80 ==> b == [c as int]
    ensures c as int >= 0x80 ==> forall i :: 0 <= i < |b| ==> b[i] >= 0x80
  {
    var n := c as int;
    if n < 0x80 then [n]
    else if n < 0x800 then [0xC0 + n / 0x40, 0x80 + n % 0x40]
    else if n < 0x1_0000 then [0xE0 + n / 0x1000, 0x80 + n / 0x40 % 0x40, 0x80 + n % 0x40]
    else [0xF0 + n / 0x4_0000, 0x80 + n / 0x1000 % 0x40, 0x80 + n / 0x40 % 0x40, 0x80 + n % 0x40]
  }

  function Utf8(s: string): Bytes {
    if s == "" then [] else Utf8Char(s[0]) + Utf8(s[1..])
  }

  /** The number of bytes a string takes, without building them. */
  function Utf8Len(s: string): nat {
    if s == "" then 0
    else
      var n := s[0] as int;
      (if n < 0x80 then 1 else if n < 0x800 then 2 else if n < 0x1_0000 then 3 else 4) + Utf8Len(s[1..])
  }

  /** The length by which identities are bounded is that of their bytes. */
  lemma {:induction false} Utf8LenCounts(s: string)
    ensures |Utf8(s)| == Utf8Len(s)
  {
    if s != "" {
      Utf8LenCounts(s[1..]);
    }
  }
}
