/** Two texts of which no capsule can be made (lib.rs, tokens.rs): one whose view says `mode=lossy`, and one whose
    view does not, where JSON elision undoes an escape and brings the words out. Tokens are counted by the estimate
    of a registered tokenizer family. */
module CapsuleEscapes {
  import opened CapsuleMaking
  import opened Capsules
  import opened LineText
  import opened Machine
  import opened Sequences
  import opened Text
  import opened TokenBudget
  import opened TokenPacking
  import opened Wrappers

  import SummaryText

  const KEY_TEXT := "\"__tokenzero_elision__\""

  const SENTINEL := "{\"lossy\":true," + ("\"reason\":\"visible-budget\"," + "\"recovery_ref\":null}")

  /** An array of two strings, as written: the first holds the words with one letter escaped. */
  const ESCAPED_HEAD := "[\"mod\\u0065=lossy\",\""

  function LongString(): (s: string)
    ensures |s| == 400
  {
    Repeated('a', 400)
  }

  function EscapedText(): string {
    ESCAPED_HEAD + (LongString() + "\"]")
  }

  /** Its first string as serialized again. */
  const PLAIN_ITEM := "\"" + MODE_LOSSY + "\""

  /** What is needed of a JSON parser: what it makes of that text. */
  function ParseEscaped(s: string): Parsed {
    if s == EscapedText() then Array([PLAIN_ITEM, "\"" + LongString() + "\""]) else NotJson
  }

  function Estimate(s: string): nat {
    ApproximateTokens(|s|, Cl100k)
  }

  function EstimateKernel(): Kernel {
    Kernel(Estimate, ParseEscaped, _ => SENTINEL, KEY_TEXT, VISIBLE_BUDGET_LOSSY_DECLARATION)
  }

  lemma EscapedLength()
    ensures |ESCAPED_HEAD| == 20 && |EscapedText()| == 422
  {
  }

  /** Neither the beginning nor the end of the declaration is that of the text. */
  lemma EscapedIsNoDeclaration(s: string)
    ensures VISIBLE_BUDGET_LOSSY_DECLARATION <= s ==> s != EscapedText()
    ensures s + "\n" + VISIBLE_BUDGET_LOSSY_DECLARATION != EscapedText()
  {
    EscapedLength();
    var text := EscapedText();
    assert text[1] == '\"' && text[420] == '\"';
    DeclarationEnds();
    var d := VISIBLE_BUDGET_LOSSY_DECLARATION;
    assert (s + "\n" + d)[|s| + 1 + |d| - 2] == d[|d| - 2];
  }

  lemma DeclarationEnds()
    ensures var d := VISIBLE_BUDGET_LOSSY_DECLARATION; |d| > 2 && d[1] == 'm' && d[|d| - 2] == ']'
  {
    assert |LOSSY_SPANS| > 2 && LOSSY_SPANS[|LOSSY_SPANS| - 2] == ']';
    assert MODE_LOSSY[0] == 'm';
  }

  lemma EscapedRejectsDeclaration()
    ensures RejectsDeclaration(EstimateKernel())
  {
    var kernel := EstimateKernel();
    forall s: string | kernel.declaration <= s
      ensures kernel.parse(s) == NotJson
    {
      EscapedIsNoDeclaration(s);
    }
    forall s: string
      ensures kernel.parse(s + "\n" + kernel.declaration) == NotJson
    {
      EscapedIsNoDeclaration(s);
    }
  }

  /** The text as written does not say `mode=lossy`. */
  lemma EscapedIsFree()
    ensures !Contains(EscapedText(), MODE_LOSSY)
  {
    var text := EscapedText();
    EscapedLength();
    assert forall i :: 0 <= i < |text| && text[i] == 'm' ==> i == 2 by {
      assert forall i :: 0 <= i < 20 && ESCAPED_HEAD[i] == 'm' ==> i == 2;
      assert text[420] != 'm' && text[421] != 'm';
      assert forall i :: 20 <= i < 420 ==> text[i] == 'a';
    }
    assert text[5] == '\\' && MODE_LOSSY[0] == 'm' && MODE_LOSSY[3] == 'e';
    if Contains(text, MODE_LOSSY) {
      var at := PartAt(text, MODE_LOSSY);
      assert false;
    }
  }

  const ELIDED_OPEN := "[{" + (KEY_TEXT + ":" + SENTINEL) + "}"

  function ElidedEscape(): string {
    ELIDED_OPEN + "," + PLAIN_ITEM + "]"
  }

  lemma ElidedLengths()
    ensures |ELIDED_OPEN| == 87 && |ElidedEscape()| == 101
  {
  }

  lemma QuotedIsContained(open: string, words: string, close: string)
    ensures Contains(open + "," + ("\"" + words + "\"") + close, words)
  {
    var before, after := open + "," + "\"", "\"" + close;
    ContainsMiddle(before, words, after);
    assert open + "," + ("\"" + words + "\"") + close == before + words + after;
  }

  /** Eliding the text says the words plainly, and names no policy. */
  lemma ElidedSaysLossy()
    ensures Contains(ElidedEscape(), MODE_LOSSY) && !Contains(ElidedEscape(), LOSSY_POLICY)
  {
    QuotedIsContained(ELIDED_OPEN, MODE_LOSSY, "]");
    NoPolicyLetter();
    assert LOSSY_POLICY[6] == 'p';
    MissingLetter(ElidedEscape(), LOSSY_POLICY, 6);
  }

  lemma NoPolicyLetter()
    ensures 'p' !in ElidedEscape()
  {
    assert 'p' !in KEY_TEXT && 'p' !in MODE_LOSSY;
    SentinelHasNoP();
    assert 'p' !in PLAIN_ITEM;
    assert 'p' !in ELIDED_OPEN;
  }

  lemma SentinelHasNoP()
    ensures 'p' !in SENTINEL
  {
    assert 'p' !in "\"reason\":\"visible-budget\"," + "\"recovery_ref\":null}";
  }

  lemma EscapedIsElided()
    ensures !Fits(Estimate, 30, EscapedText())
    ensures Elided(EstimateKernel(), EscapedText(), 30, None) == Some(ElidedEscape())
  {
    EscapedLength();
    ElidedLengths();
    var items := [PLAIN_ITEM, "\"" + LongString() + "\""];
    var shape := Shape("[{" + (KEY_TEXT + ":" + SENTINEL) + "}", items, "]");
    assert ShapeOf(EstimateKernel(), EstimateKernel().parse(EscapedText()), None) == Some(shape);
    assert ElidedWith(shape, 0) == ELIDED_OPEN + "]";
    assert ElidedWith(shape, 1) == ElidedEscape();
    assert Fits(Estimate, 30, ElidedWith(shape, 0)) && Fits(Estimate, 30, ElidedWith(shape, 1));
    assert ElidedCount(EstimateKernel(), shape, 30) == 1;
  }

  lemma EscapedHasNoFeed()
    ensures NoFeed(EscapedText()) && TrimEnd(EscapedText()) == EscapedText()
  {
    EscapedLength();
    assert NoFeed(ESCAPED_HEAD);
  }

  lemma EscapedIsOneLine()
    ensures |Lines(EscapedText())| == 1 && TrimEnd(EscapedText()) == EscapedText()
  {
    EscapedLength();
    EscapedHasNoFeed();
    WholeLine(EscapedText());
  }

  lemma OneLineView(source: Source, text: string, rawTokens: nat)
    requires source.prefix == "" && rawTokens > 30 && |text| <= USIZE_MAX
    requires |Lines(text)| == 1 && TrimEnd(text) == text
    ensures ModeView(source, text, rawTokens, Auto, 30) == text
  {
    assert "" + text == text;
  }

  lemma EscapedView(source: Source, rawTokens: nat)
    requires source.prefix == "" && rawTokens > 30
    ensures |EscapedText()| <= USIZE_MAX && ModeView(source, EscapedText(), rawTokens, Auto, 30) == EscapedText()
  {
    EscapedLength();
    EscapedIsOneLine();
    OneLineView(source, EscapedText(), rawTokens);
  }

  lemma EscapedCapsuleFails(rawTokens: nat, hasSelector: string -> bool, lines: string -> nat)
    requires Declares(VISIBLE_BUDGET_LOSSY_DECLARATION)
    ensures var text := EscapedText();
            !OmissionRule(Made(EstimateKernel(), text, rawTokens, Auto, text, 30, None, hasSelector, lines), text,
                          hasSelector)
  {
    EscapedRejectsDeclaration();
    EscapedLength();
    EscapedIsOneLine();
    EscapedIsFree();
    EscapedIsElided();
    ElidedSaysLossy();
    ElidedLengths();
    ShorterHasNoPart(ElidedEscape(), EscapedText());
    FreeSummaryFailsIff(EstimateKernel(), EscapedText(), rawTokens, Auto, EscapedText(), 30, None, hasSelector, lines);
  }

  /** Of a text within a budget of 30 tokens, with no words `mode=lossy` in the view of its mode, no capsule can be
      made: elision says the words, and no reference can recover the rest. */
  lemma EscapedTextFails(source: Source, hasSelector: string -> bool, lines: string -> nat)
    requires source.prefix == ""
    ensures var kernel, text := EstimateKernel(), EscapedText();
            |text| <= USIZE_MAX &&
            var view := ModeView(source, text, Estimate(text), Auto, 30);
            && !Contains(view, MODE_LOSSY)
            && !OmissionRule(Made(kernel, text, Estimate(text), Auto, view, 30, None, hasSelector, lines), text,
                             hasSelector)
  {
    ProgramDeclarationDeclares();
    EscapedLength();
    EscapedView(source, Estimate(EscapedText()));
    EscapedIsFree();
    EscapedCapsuleFails(Estimate(EscapedText()), hasSelector, lines);
  }

  lemma ShorterHasNoPart(s: string, part: string)
    requires |s| < |part|
    ensures !Contains(s, part)
  {
  }

  // ----- a label that says the words -----

  const LOSSY_LABEL := "# " + MODE_LOSSY + "\n"

  lemma StubParts()
    ensures EXACT_STUB == "[exact payload stored;" + " use expand for raw bytes]"
  {
  }

  lemma StubHasNoUnderscore()
    ensures '_' !in EXACT_STUB
  {
    StubParts();
    assert '_' !in "[exact payload stored;" && '_' !in " use expand for raw bytes]";
  }

  lemma LabelledStubSaysLossy()
    ensures var view := LOSSY_LABEL + EXACT_STUB;
            |view| < 100 && Contains(view, MODE_LOSSY) && !Contains(view, LOSSY_POLICY)
  {
    var view := LOSSY_LABEL + EXACT_STUB;
    ContainsMiddle("# ", MODE_LOSSY, "\n" + EXACT_STUB);
    assert view == "# " + MODE_LOSSY + ("\n" + EXACT_STUB);
    StubHasNoUnderscore();
    assert '_' !in MODE_LOSSY;
    assert '_' !in view;
    assert LOSSY_POLICY[5] == '_';
    MissingLetter(view, LOSSY_POLICY, 5);
  }

  lemma LabelledCapsuleFails(rawTokens: nat, hasSelector: string -> bool, lines: string -> nat)
    requires Declares(VISIBLE_BUDGET_LOSSY_DECLARATION) && rawTokens >= 100
    ensures var view, text := LOSSY_LABEL + EXACT_STUB, LongString();
            !OmissionRule(Made(EstimateKernel(), text, rawTokens, Exact, view, 30, None, hasSelector, lines), text,
                          hasSelector)
  {
    var view, text := LOSSY_LABEL + EXACT_STUB, LongString();
    EscapedRejectsDeclaration();
    LabelledStubSaysLossy();
    assert TrimEnd(text) == text;
    ShorterHasNoPart(view, text);
    assert Enforced(EstimateKernel(), view, 30, None) == view;
    MakingFailsIff(EstimateKernel(), text, rawTokens, Exact, view, 30, None, hasSelector, lines);
  }

  lemma LabelledView(source: Source, text: string, rawTokens: nat)
    requires source.prefix == LOSSY_LABEL && |text| <= USIZE_MAX
    ensures ModeView(source, text, rawTokens, Exact, 30) == LOSSY_LABEL + EXACT_STUB
  {
  }

  /** Storing a long text exactly under a label that says `mode=lossy` fails as well. */
  lemma LabelledTextFails(source: Source, hasSelector: string -> bool, lines: string -> nat)
    requires source.prefix == LOSSY_LABEL
    ensures var kernel, text := EstimateKernel(), LongString();
            |text| <= USIZE_MAX &&
            var view := ModeView(source, text, Estimate(text), Exact, 30);
            !OmissionRule(Made(kernel, text, Estimate(text), Exact, view, 30, None, hasSelector, lines), text,
                          hasSelector)
  {
    ProgramDeclarationDeclares();
    LabelledView(source, LongString(), Estimate(LongString()));
    LabelledCapsuleFails(Estimate(LongString()), hasSelector, lines);
  }
}
