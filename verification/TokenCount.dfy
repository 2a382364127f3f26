/** Counting tokens (tokens.rs): the lexical counter with its ASCII fast path, and the average-width
    estimate for registered tokenizer families. */
module TokenCount {
  import opened Machine
  import opened Text

  predicate IsWord(c: char) {
    IsAsciiAlphanumeric(c) || c == '_'
  }

  /** The classes of the byte table. */
  datatype ByteClass = Separator | InToken | Blank

  function ClassOf(b: Byte): ByteClass {
    if 0x30 <= b <= 0x39 || 0x41 <= b <= 0x5A || 0x61 <= b <= 0x7A || b == 0x5F then InToken
    else if b == 0x20 || 0x09 <= b <= 0x0D then Blank
    else Separator
  }

  predicate IsAscii(b: Byte) {
    b < 0x80
  }

  predicate EndsInToken(bytes: Bytes) {
    bytes != [] && ClassOf(bytes[|bytes| - 1]).InToken?
  }

  /** The count of the byte-level pass. */
  function CountBytes(bytes: Bytes): nat {
    if bytes == [] then 0
    else
      var front, class_ := bytes[..|bytes| - 1], ClassOf(bytes[|bytes| - 1]);
      CountBytes(front) + if class_.Separator? || (class_.InToken? && !EndsInToken(front)) then 1 else 0
  }

  /** The length of the leading run of ASCII bytes. */
  function AsciiLength(bytes: Bytes): (n: nat)
    ensures n <= |bytes|
    ensures forall i :: 0 <= i < n ==> IsAscii(bytes[i])
    ensures n < |bytes| ==> !IsAscii(bytes[n])
  {
    if bytes != [] && IsAscii(bytes[0]) then 1 + AsciiLength(bytes[1..]) else 0
  }

  lemma {:induction false} AsciiLengthIs(bytes: Bytes, n: nat)
    requires n <= |bytes| && forall i :: 0 <= i < n ==> IsAscii(bytes[i])
    requires n < |bytes| ==> !IsAscii(bytes[n])
    ensures AsciiLength(bytes) == n
  {
    if n > 0 {
      AsciiLengthIs(bytes[1..], n - 1);
    }
  }

  method CountAscii(bytes: Bytes, stopAtNonAscii: bool) returns (tokens: nat, index: nat)
    ensures index == if stopAtNonAscii then AsciiLength(bytes) else |bytes|
    ensures index <= |bytes| && tokens == CountBytes(bytes[..index])
    ensures stopAtNonAscii ==>
            (forall i :: 0 <= i < index ==> bytes[i] < 128) && (index < |bytes| ==> bytes[index] >= 128)
  {
    tokens := 0;
    var inToken := false;
    for i := 0 to |bytes|
      invariant tokens == CountBytes(bytes[..i]) && inToken == EndsInToken(bytes[..i])
      invariant stopAtNonAscii ==> forall k :: 0 <= k < i ==> IsAscii(bytes[k])
    {
      if stopAtNonAscii && !IsAscii(bytes[i]) {
        AsciiLengthIs(bytes, i);
        return tokens, i;
      }
      assert bytes[..i + 1][..i] == bytes[..i];
      var class_ := ClassOf(bytes[i]);
      tokens := tokens + if class_.Separator? || (class_.InToken? && !inToken) then 1 else 0;
      inToken := class_.InToken?;
    }
    if stopAtNonAscii {
      AsciiLengthIs(bytes, |bytes|);
    }
    index := |bytes|;
  }

  // ----- the count, character by character -----

  predicate EndsInWord(s: string) {
    s != "" && IsWord(s[|s| - 1])
  }

  /** The one-pass count: every character that is neither whitespace nor inside a word it does not begin. */
  function Count(s: string): nat {
    if s == "" then 0
    else
      var front, ch := s[..|s| - 1], s[|s| - 1];
      Count(front) + if !IsWhitespace(ch) && (!IsWord(ch) || !EndsInWord(front)) then 1 else 0
  }

  /** Whether a token starts at index `i`. */
  predicate StartsToken(s: string, i: nat)
    requires i < |s|
  {
    !IsWhitespace(s[i]) && (!IsWord(s[i]) || i == 0 || !IsWord(s[i - 1]))
  }

  function TokenStarts(s: string): set<nat> {
    set i: nat | i < |s| && StartsToken(s, i)
  }

  lemma StartsUpTo(s: string)
    requires s != ""
    ensures var n := |s| - 1;
            TokenStarts(s) == TokenStarts(s[..n]) + (if StartsToken(s, n) then {n} else {}) && n !in TokenStarts(s[..n])
  {
    var n := |s| - 1;
    forall i: nat | i < n
      ensures StartsToken(s[..n], i) <==> StartsToken(s, i)
    {
      assert s[..n][i] == s[i];
    }
  }

  /** What the count means: the number of positions at which a token starts. */
  lemma {:induction false} CountIsTokenStarts(s: string)
    ensures Count(s) == |TokenStarts(s)|
  {
    if s == "" {
      assert TokenStarts(s) == {};
    } else {
      CountIsTokenStarts(s[..|s| - 1]);
      StartsUpTo(s);
    }
  }

  lemma CountStep(s: string, k: nat)
    requires k < |s|
    ensures Count(s[..k + 1]) == Count(s[..k]) + if !IsWhitespace(s[k]) && (!IsWord(s[k]) || !EndsInWord(s[..k]))
            then 1 else 0
    ensures EndsInWord(s[..k + 1]) == IsWord(s[k])
  {
    assert s[..k + 1][..k] == s[..k];
  }

  lemma {:induction false} CountGrows(s: string, j: nat, k: nat)
    requires j <= k <= |s|
    ensures Count(s[..j]) <= Count(s[..k])
    decreases k
  {
    if j < k {
      CountStep(s, k - 1);
      CountGrows(s, j, k - 1);
    }
  }

  /** A word that spans the seam is counted on both sides. */
  predicate SeamInWord(a: string, b: string) {
    EndsInWord(a) && b != "" && IsWord(b[0])
  }

  lemma {:induction false} CountConcat(a: string, b: string)
    ensures Count(a) + Count(b) == Count(a + b) + if SeamInWord(a, b) then 1 else 0
  {
    if b == "" {
      assert a + b == a;
    } else {
      var front := b[..|b| - 1];
      assert (a + b)[..|a + b| - 1] == a + front;
      CountConcat(a, front);
      if front == "" {
        assert a + front == a;
      }
    }
  }

  // ----- the fast path counts the same -----

  predicate AllAscii(s: string) {
    forall i :: 0 <= i < |s| ==> s[i] as int < 0x80
  }

  lemma ClassesAgree(c: char)
    requires c as int < 0x80
    ensures ClassOf(c as int).InToken? <==> IsWord(c)
    ensures ClassOf(c as int).Blank? <==> IsWhitespace(c)
  {
  }

  /** Past ASCII nothing is a word character. */
  lemma NonAsciiIsNoWord(c: char)
    requires c as int >= 0x80
    ensures !IsWord(c)
  {
  }

  lemma {:induction false} Utf8Snoc(s: string, c: char)
    ensures Utf8(s + [c]) == Utf8(s) + Utf8Char(c)
    decreases |s|
  {
    if s == "" {
      assert s + [c] == [c] && [c][1..] == "";
    } else {
      assert (s + [c])[1..] == s[1..] + [c];
      Utf8Snoc(s[1..], c);
    }
  }

  lemma {:induction false} Utf8Concat(a: string, b: string)
    ensures Utf8(a + b) == Utf8(a) + Utf8(b)
    decreases |a|
  {
    if a == "" {
      assert a + b == b;
    } else {
      assert (a + b)[1..] == a[1..] + b;
      Utf8Concat(a[1..], b);
    }
  }

  /** The bytes of an ASCII string are its characters. */
  lemma {:induction false} AsciiBytes(s: string)
    requires AllAscii(s)
    ensures |Utf8(s)| == |s| && forall i :: 0 <= i < |s| ==> Utf8(s)[i] == s[i] as int
  {
    if s != "" {
      AsciiBytes(s[1..]);
    }
  }

  lemma {:induction false} AsciiCount(s: string)
    requires AllAscii(s)
    ensures CountBytes(Utf8(s)) == Count(s) && EndsInToken(Utf8(s)) == EndsInWord(s)
  {
    if s != "" {
      var front, c := s[..|s| - 1], s[|s| - 1];
      assert s == front + [c];
      AsciiCount(front);
      Utf8Snoc(front, c);
      ClassesAgree(c);
    }
  }

  /** The number of leading ASCII characters. */
  function AsciiPrefix(s: string): (n: nat)
    ensures n <= |s| && AllAscii(s[..n])
    ensures n < |s| ==> s[n] as int >= 0x80
  {
    if s != "" && s[0] as int < 0x80 then 1 + AsciiPrefix(s[1..]) else 0
  }

  lemma AsciiPrefixInBytes(s: string)
    ensures var n := AsciiPrefix(s);
            AsciiLength(Utf8(s)) == n && n <= |Utf8(s)| && Utf8(s)[..n] == Utf8(s[..n]) &&
            (n == |Utf8(s)| <==> n == |s|)
  {
    var n := AsciiPrefix(s);
    var head, tail := s[..n], s[n..];
    assert s == head + tail;
    Utf8Concat(head, tail);
    AsciiBytes(head);
    var bytes := Utf8(s);
    assert forall i :: 0 <= i < n ==> bytes[i] == head[i] as int;
    if n < |s| {
      assert tail[0] == s[n];
      assert bytes[n] == Utf8Char(s[n])[0];
    }
    AsciiLengthIs(bytes, n);
  }

  /** The tail pass: the bytes before the offset, then the characters after it, from outside a word. */
  function CountedFrom(s: string, k: nat): nat
    requires k <= |s|
  {
    CountBytes(Utf8(s[..k])) + Count(s[k..])
  }

  /** `count_tokens_tail`, with the byte offset given as the number of characters before it. */
  method CountTokensTail(text: string, start: nat) returns (tokens: nat)
    requires start <= |text|
    ensures tokens == CountedFrom(text, start)
  {
    var before, index := CountAscii(Utf8(text[..start]), false);
    assert Utf8(text[..start])[..index] == Utf8(text[..start]);
    tokens := before;
    var inToken := false;
    var rest := text[start..];
    for i := 0 to |rest|
      invariant tokens == before + Count(rest[..i]) && inToken == EndsInWord(rest[..i])
    {
      CountStep(rest, i);
      var word := IsWord(rest[i]);
      tokens := tokens + if !IsWhitespace(rest[i]) && (!word || !inToken) then 1 else 0;
      inToken := word;
    }
    assert rest[..|rest|] == rest;
  }

  /** Restarting at an offset after ASCII characters counts a word that the offset cuts twice, and nothing else. */
  lemma TailCountsSeamTwice(text: string, start: nat)
    requires start <= |text| && AllAscii(text[..start])
    ensures CountedFrom(text, start) == Count(text) + if SeamInWord(text[..start], text[start..]) then 1 else 0
  {
    AsciiCount(text[..start]);
    CountConcat(text[..start], text[start..]);
    assert text == text[..start] + text[start..];
  }

  /** The fast counter gives the character-level count on every text. */
  method CountTokensLexical(text: string) returns (tokens: nat)
    ensures tokens == Count(text)
  {
    var bytes := Utf8(text);
    AsciiPrefixInBytes(text);
    var asciiTokens, asciiEnd := CountAscii(bytes, true);
    AsciiCount(text[..asciiEnd]);
    if asciiEnd == |bytes| {
      assert text[..asciiEnd] == text;
      return asciiTokens;
    }
    TailCountsSeamTwice(text, asciiEnd);
    NonAsciiIsNoWord(text[asciiEnd]);
    tokens := CountTokensTail(text, asciiEnd);
  }
}
