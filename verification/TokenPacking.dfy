/** Packing a text into a token budget (tokens.rs): the average-width boundary of registered tokenizer
    families, and the lexical fallback. */
module TokenPacking {
  import opened Machine
  import opened Text
  import opened TokenCount
  import opened Wrappers

  datatype TokenizerFamily = Cl100k | O200k | SentencePiece
  {
    function CharsPerTokenMilli(): (n: nat)
      ensures n > 0
    {
      if SentencePiece? then 3_500 else 4_000
    }
  }

  function Min(a: nat, b: nat): nat {
    if a <= b then a else b
  }

  function SaturatingMul(a: nat, b: nat): nat {
    Saturated(a * b)
  }

  function DivCeil(a: nat, b: nat): nat
    requires b > 0
  {
    (a + b - 1) / b
  }

  /** The estimate for a text of `chars` characters. */
  function ApproximateTokens(chars: nat, family: TokenizerFamily): nat {
    DivCeil(SaturatingMul(chars, 1_000), family.CharsPerTokenMilli())
  }

  /** The estimate is the characters at three and a half to a token, or at four, rounded up. */
  lemma EstimateMeans(chars: nat, family: TokenizerFamily)
    requires chars * 1_000 <= USIZE_MAX
    ensures var e := ApproximateTokens(chars, family);
            if family == SentencePiece then 2 * chars <= 7 * e < 2 * chars + 7 else chars <= 4 * e < chars + 4
  {
  }

  /** Whether the first `k` characters fit both caps. */
  predicate EstimateFits(k: nat, family: TokenizerFamily, maxTokens: nat, maxChars: nat) {
    k <= maxChars && ApproximateTokens(k, family) <= maxTokens
  }

  ghost predicate LongestEstimated(chars: nat, k: nat, family: TokenizerFamily, maxTokens: nat, maxChars: nat) {
    && k <= chars && EstimateFits(k, family, maxTokens, maxChars)
    && forall j: nat :: k < j <= chars ==> !EstimateFits(j, family, maxTokens, maxChars)
  }

  /** The width the code packs to. */
  function BudgetChars(family: TokenizerFamily, maxTokens: nat): nat {
    SaturatingMul(maxTokens, family.CharsPerTokenMilli()) / 1_000
  }

  function CharPrefix(text: string, chars: nat): string {
    if chars < |text| then text[..chars] else text
  }

  // ----- registered families -----

  lemma DivCeilWithin(a: nat, b: nat, bound: nat)
    requires b > 0
    ensures DivCeil(a, b) <= bound <==> a <= bound * b
  {
    var q := DivCeil(a, b);
    assert q * b <= a + b - 1 < q * b + b;
    if q <= bound {
      assert q * b <= bound * b;
    } else {
      assert (bound + 1) * b <= q * b;
    }
  }

  lemma FitsIffWithin(k: nat, family: TokenizerFamily, maxTokens: nat)
    ensures ApproximateTokens(k, family) <= maxTokens <==>
            SaturatingMul(k, 1_000) <= maxTokens * family.CharsPerTokenMilli()
  {
    DivCeilWithin(SaturatingMul(k, 1_000), family.CharsPerTokenMilli(), maxTokens);
  }

  /** When the multiplication of the budget saturates and there are more characters than the saturated width. */
  predicate Saturates(chars: nat, family: TokenizerFamily, maxTokens: nat, maxChars: nat) {
    maxTokens * family.CharsPerTokenMilli() >= USIZE_MAX && Min(chars, maxChars) > USIZE_MAX / 1_000
  }

  /** For a registered family packing gives the longest prefix within both caps, exactly unless it saturates. */
  lemma PackIsLongestIff(chars: nat, family: TokenizerFamily, maxTokens: nat, maxChars: nat)
    ensures LongestEstimated(chars, Min(chars, Min(maxChars, BudgetChars(family, maxTokens))), family, maxTokens,
                             maxChars)
            <==> !Saturates(chars, family, maxTokens, maxChars)
  {
    forall k: nat
      ensures ApproximateTokens(k, family) <= maxTokens <==> WithinWidth(k, family, maxTokens)
    {
      EstimateWidth(k, family, maxTokens);
    }
    if Saturates(chars, family, maxTokens, maxChars) {
      assert EstimateFits(USIZE_MAX / 1_000 + 1, family, maxTokens, maxChars);
    }
  }

  /** How many characters a token budget allows: any number once the multiplication saturates. */
  predicate WithinWidth(k: nat, family: TokenizerFamily, maxTokens: nat) {
    maxTokens * family.CharsPerTokenMilli() >= USIZE_MAX || k <= BudgetChars(family, maxTokens)
  }

  lemma EstimateWidth(k: nat, family: TokenizerFamily, maxTokens: nat)
    ensures ApproximateTokens(k, family) <= maxTokens <==> WithinWidth(k, family, maxTokens)
  {
    FitsIffWithin(k, family, maxTokens);
    var budget := maxTokens * family.CharsPerTokenMilli();
    if budget < USIZE_MAX {
      assert SaturatingMul(k, 1_000) <= budget <==> k * 1_000 <= budget;
      assert k * 1_000 <= budget <==> k <= budget / 1_000;
    }
  }

  // ----- the lexical fallback -----

  predicate LexicalFits(text: string, k: nat, maxTokens: nat, maxChars: nat) {
    k <= |text| && k <= maxChars && Count(text[..k]) <= maxTokens
  }

  /** Where the fallback may cut: nowhere, after a character outside words, or at the end. */
  predicate LexicalCandidate(text: string, k: nat) {
    k <= |text| && (k == 0 || k == |text| || !IsWord(text[k - 1]))
  }

  /** The longest fitting prefix among those the fallback may cut. */
  ghost predicate LongestCandidate(text: string, k: nat, maxTokens: nat, maxChars: nat) {
    && LexicalCandidate(text, k) && LexicalFits(text, k, maxTokens, maxChars)
    && forall j: nat :: k < j <= |text| && LexicalCandidate(text, j) ==> !LexicalFits(text, j, maxTokens, maxChars)
  }

  /** The longest fitting prefix of all. */
  ghost predicate LongestFitting(text: string, k: nat, maxTokens: nat, maxChars: nat) {
    && LexicalFits(text, k, maxTokens, maxChars)
    && forall j: nat :: k < j <= |text| ==> !LexicalFits(text, j, maxTokens, maxChars)
  }

  /** A cut that goes through no word. */
  predicate CutsNoWord(text: string, k: nat) {
    k <= |text| && (k == 0 || k == |text| || !IsWord(text[k - 1]) || !IsWord(text[k]))
  }

  /** The longest fitting prefix that cuts no word. */
  ghost predicate LongestUncut(text: string, k: nat, maxTokens: nat, maxChars: nat) {
    && CutsNoWord(text, k) && LexicalFits(text, k, maxTokens, maxChars)
    && forall j: nat :: k < j <= |text| && CutsNoWord(text, j) ==> !LexicalFits(text, j, maxTokens, maxChars)
  }

  lemma FitsDownward(text: string, j: nat, k: nat, maxTokens: nat, maxChars: nat)
    requires j <= k && LexicalFits(text, k, maxTokens, maxChars)
    ensures LexicalFits(text, j, maxTokens, maxChars)
  {
    CountGrows(text, j, k);
  }

  method LexicalBoundaryPrefix(text: string, maxTokens: nat, maxChars: nat) returns (packed: string)
    ensures packed <= text
    ensures LongestCandidate(text, |packed|, maxTokens, maxChars)
  {
    var tokens, inWord, boundary := 0, false, 0;
    for seen := 0 to |text|
      invariant tokens == Count(text[..seen]) <= maxTokens && seen <= maxChars
      invariant inWord == EndsInWord(text[..seen])
      invariant boundary <= seen && LexicalCandidate(text, boundary) && LexicalFits(text, boundary, maxTokens, maxChars)
      invariant forall k :: boundary <= k < seen ==> IsWord(text[k])
    {
      CountStep(text, seen);
      var ch := text[seen];
      var word := IsWord(ch);
      var starts := if word then !inWord else !IsWhitespace(ch);
      if seen == maxChars || (starts && tokens == maxTokens) {
        StopsHere(text, boundary, seen, maxTokens, maxChars);
        return text[..boundary];
      }
      if starts {
        tokens := tokens + 1;
      }
      inWord := word;
      if !inWord {
        boundary := seen + 1;
      }
    }
    assert text[..|text|] == text;
    packed := text;
  }

  /** Once the next character does not fit, the last boundary is the longest candidate. */
  lemma StopsHere(text: string, boundary: nat, seen: nat, maxTokens: nat, maxChars: nat)
    requires boundary <= seen < |text| && LexicalCandidate(text, boundary) &&
             LexicalFits(text, boundary, maxTokens, maxChars)
    requires forall k :: boundary <= k < seen ==> IsWord(text[k])
    requires !LexicalFits(text, seen + 1, maxTokens, maxChars)
    ensures LongestCandidate(text, boundary, maxTokens, maxChars)
  {
    forall j: nat | boundary < j <= |text|
      ensures !(LexicalCandidate(text, j) && LexicalFits(text, j, maxTokens, maxChars))
    {
      if seen < j && LexicalFits(text, j, maxTokens, maxChars) {
        FitsDownward(text, seen + 1, j, maxTokens, maxChars);
      }
    }
  }

  /** A zero token budget drops leading whitespace, which costs nothing. */
  predicate DropsFreeSpace(text: string, maxTokens: nat, maxChars: nat) {
    maxTokens == 0 && maxChars > 0 && text != "" && IsWhitespace(text[0])
  }

  /** Through the packing function the fallback gives the longest candidate, except that a zero token budget
      drops leading whitespace that costs nothing. */
  lemma FallbackIsLongestIff(text: string, maxTokens: nat, maxChars: nat, packed: nat)
    requires if text == "" || maxTokens == 0 || maxChars == 0 then packed == 0
             else LongestCandidate(text, packed, maxTokens, maxChars)
    ensures LongestCandidate(text, packed, maxTokens, maxChars)
            <==> !DropsFreeSpace(text, maxTokens, maxChars)
  {
    assert Count(text[..0]) == 0;
    if text != "" && maxTokens == 0 && maxChars > 0 {
      CountStep(text, 0);
      if IsWhitespace(text[0]) {
        assert LexicalCandidate(text, 1) && LexicalFits(text, 1, maxTokens, maxChars);
      } else {
        forall j: nat | 0 < j <= |text|
          ensures !LexicalFits(text, j, maxTokens, maxChars)
        {
          if LexicalFits(text, j, maxTokens, maxChars) {
            FitsDownward(text, 1, j, maxTokens, maxChars);
          }
        }
      }
    }
  }

  /** The length of the longest fitting prefix of at most `k` characters. */
  function ReachUpTo(text: string, maxTokens: nat, maxChars: nat, k: nat): (reach: nat)
    requires k <= |text|
    ensures reach <= k && LexicalFits(text, reach, maxTokens, maxChars)
    ensures forall j: nat :: reach < j <= k ==> !LexicalFits(text, j, maxTokens, maxChars)
  {
    assert Count(text[..0]) == 0;
    if k == 0 || LexicalFits(text, k, maxTokens, maxChars) then k else ReachUpTo(text, maxTokens, maxChars, k - 1)
  }

  /** The length of the longest fitting prefix. */
  function Reach(text: string, maxTokens: nat, maxChars: nat): (reach: nat)
    ensures LongestFitting(text, reach, maxTokens, maxChars)
  {
    ReachUpTo(text, maxTokens, maxChars, |text|)
  }

  /** The fitting characters end just behind a word that is whole. */
  predicate EndsBehindWord(text: string, reach: nat) {
    0 < reach < |text| && IsWord(text[reach - 1]) && !IsWord(text[reach])
  }

  lemma CandidateIsUncutIff(text: string, maxTokens: nat, maxChars: nat, packed: nat)
    requires LongestCandidate(text, packed, maxTokens, maxChars)
    ensures LongestUncut(text, packed, maxTokens, maxChars) <==> !EndsBehindWord(text, Reach(text, maxTokens, maxChars))
  {
    var reach := Reach(text, maxTokens, maxChars);
    forall j: nat | packed < j <= |text| && CutsNoWord(text, j) && LexicalFits(text, j, maxTokens, maxChars)
      ensures j == reach && EndsBehindWord(text, reach)
    {
      assert !LexicalCandidate(text, j);
      var next: nat := j + 1;
      assert LexicalCandidate(text, next);
      assert !LexicalFits(text, next, maxTokens, maxChars);
      if next <= reach {
        FitsDownward(text, next, reach, maxTokens, maxChars);
      }
    }
    if EndsBehindWord(text, reach) {
      assert !LexicalCandidate(text, reach);
      assert packed < reach && CutsNoWord(text, reach);
    }
  }

  /** The documented promise, the largest fitting prefix that cuts no word, is kept by what the packing function
      returns without a family exactly unless the fitting characters end just behind a word, or a zero token budget
      drops leading whitespace that costs nothing. */
  lemma FallbackMeetsPromiseIff(text: string, maxTokens: nat, maxChars: nat, packed: nat)
    requires if text == "" || maxTokens == 0 || maxChars == 0 then packed == 0
             else LongestCandidate(text, packed, maxTokens, maxChars)
    ensures LongestUncut(text, packed, maxTokens, maxChars) <==>
            !DropsFreeSpace(text, maxTokens, maxChars) && !EndsBehindWord(text, Reach(text, maxTokens, maxChars))
  {
    FallbackIsLongestIff(text, maxTokens, maxChars, packed);
    if DropsFreeSpace(text, maxTokens, maxChars) {
      CountStep(text, 0);
      assert Count(text[..0]) == 0;
      assert CutsNoWord(text, 1) && LexicalFits(text, 1, maxTokens, maxChars);
    } else {
      CandidateIsUncutIff(text, maxTokens, maxChars, packed);
    }
  }

  /** Packing for an explicit family, or with the lexical fallback. */
  method PackForModel(text: string, maxTokens: nat, maxChars: nat, family: Option<TokenizerFamily>)
    returns (packed: string)
    ensures packed <= text
    ensures match family
            case Some(f) => LongestEstimated(|text|, |packed|, f, maxTokens, maxChars) <==>
                            !Saturates(|text|, f, maxTokens, maxChars)
            case None => LongestCandidate(text, |packed|, maxTokens, maxChars) <==>
                         !DropsFreeSpace(text, maxTokens, maxChars)
    ensures match family
            case Some(f) => |packed| == Min(|text|, Min(maxChars, BudgetChars(f, maxTokens)))
            case None =>
              LongestUncut(text, |packed|, maxTokens, maxChars) <==>
              !DropsFreeSpace(text, maxTokens, maxChars) && !EndsBehindWord(text, Reach(text, maxTokens, maxChars))
  {
    if family.Some? {
      PackIsLongestIff(|text|, family.value, maxTokens, maxChars);
    }
    if text == "" || maxTokens == 0 || maxChars == 0 {
      FallbackIsLongestIff(text, maxTokens, maxChars, 0);
      FallbackMeetsPromiseIff(text, maxTokens, maxChars, 0);
      return "";
    }
    if family.None? {
      packed := LexicalBoundaryPrefix(text, maxTokens, maxChars);
      FallbackMeetsPromiseIff(text, maxTokens, maxChars, |packed|);
      return;
    }
    var textChars := |text|;
    var budgetChars := SaturatingMul(maxTokens, family.value.CharsPerTokenMilli()) / 1_000;
    if textChars <= budgetChars && textChars <= maxChars {
      return text;
    }
    packed := CharPrefix(text, Min(maxChars, budgetChars));
  }

  /** For example `ab.` with a budget of one token: `ab` fits and cuts no word, but nothing is kept. */
  lemma FallbackDropsFittingWord()
    ensures LexicalFits("ab.", 2, 1, 3) && CutsNoWord("ab.", 2)
    ensures LongestCandidate("ab.", 0, 1, 3)
  {
    var text := "ab.";
    CountStep(text, 0);
    CountStep(text, 1);
    CountStep(text, 2);
    assert text[..0] == "" && text[..3] == text;
  }

  /** And a blank before `x` with no tokens at all: it costs nothing and is dropped. */
  lemma FallbackDropsBlank()
    ensures DropsFreeSpace(" x", 0, 2) && LexicalFits(" x", 1, 0, 2) && CutsNoWord(" x", 1)
    ensures !LongestUncut(" x", 0, 0, 2)
  {
    CountStep(" x", 0);
    assert " x"[..0] == "";
    assert LexicalFits(" x", 1, 0, 2) && CutsNoWord(" x", 1);
  }
}
