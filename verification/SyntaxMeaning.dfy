/** When a value needs a shell (shell_quote.rs), on what the value spells: an operator, a line feed, a variable or a
    home directory that the shell would expand, or a leading assignment. */
module SyntaxMeaning {
  import opened OperatorReading
  import opened Sequences
  import opened ShellSplit
  import opened ShellSyntax
  import opened Text
  import opened Wrappers

  /** What follows a dollar sign that is expanded. */
  predicate Expands(next: Option<char>) {
    next.Some? &&
    (next.value == '(' || next.value == '{' || next.value == '_' || 'A' <= next.value <= 'Z' ||
     'a' <= next.value <= 'z')
  }

  /** Something between double quotes is expanded. */
  predicate PartsExpand(parts: seq<Part>, end: string) {
    parts != [] &&
    ((parts[0] == Itself('$') && Expands(First(PartsText(parts[1..]) + end))) || PartsExpand(parts[1..], end))
  }

  /** What follows a tilde that names a home directory. */
  predicate NamesHome(next: Option<char>) {
    next.None? || next.value == '/' || IsWhitespace(next.value) || '0' <= next.value <= '9'
    || 'A' <= next.value <= 'Z' || 'a' <= next.value <= 'z'
  }

  predicate IsGap(t: Token) {
    t.Other? && IsWhitespace(t.c)
  }

  /** A token that a shell would act on, where `starts` tells whether a word starts with it. */
  predicate NeedsShell(t: Token, rest: string, starts: bool) {
    match t
    case Op(_) => true
    case Other(c) => c == '\n' || (c == '$' && Expands(First(rest))) || (c == '~' && starts && NamesHome(First(rest)))
    case Double(parts) => PartsExpand(parts, "\"")
    case _ => false
  }

  predicate EndingNeedsShell(ending: Ending) {
    ending.OpenDouble? && PartsExpand(ending.parts, if ending.dangling then "\\" else "")
  }

  predicate SomeNeedsShell(tokens: seq<Token>, ending: Ending, starts: bool) {
    if tokens == [] then EndingNeedsShell(ending)
    else
      || NeedsShell(tokens[0], TokensText(tokens[1..], EndingText(ending)), starts)
      || SomeNeedsShell(tokens[1..], ending, IsGap(tokens[0]))
  }

  /** The token at a position needs a shell; a word starts there at the front and behind white space. */
  predicate NeedsAt(tokens: seq<Token>, end: string, starts: bool, i: nat)
    requires i < |tokens|
  {
    NeedsShell(tokens[i], TokensText(tokens[i + 1..], end), if i == 0 then starts else IsGap(tokens[i - 1]))
  }

  ghost predicate SomeAt(tokens: seq<Token>, end: string, starts: bool) {
    exists i: nat :: i < |tokens| && NeedsAt(tokens, end, starts, i)
  }

  lemma SomeAtStep(tokens: seq<Token>, end: string, starts: bool)
    requires tokens != []
    ensures SomeAt(tokens, end, starts) <==>
            NeedsAt(tokens, end, starts, 0) || SomeAt(tokens[1..], end, IsGap(tokens[0]))
  {
    var rest, gap := tokens[1..], IsGap(tokens[0]);
    forall i: nat | i < |rest|
      ensures NeedsAt(rest, end, gap, i) <==> NeedsAt(tokens, end, starts, i + 1)
    {
      assert rest[i] == tokens[i + 1] && rest[i + 1..] == tokens[i + 2..];
      assert i > 0 ==> rest[i - 1] == tokens[i];
    }
    if i: nat :| i < |tokens| && NeedsAt(tokens, end, starts, i) {
      if i > 0 {
        assert NeedsAt(rest, end, gap, i - 1);
      }
    }
    if i: nat :| i < |rest| && NeedsAt(rest, end, gap, i) {
      assert NeedsAt(tokens, end, starts, i + 1);
    }
  }

  lemma {:induction false} SomeNeedsShellMeans(tokens: seq<Token>, ending: Ending, starts: bool)
    ensures SomeNeedsShell(tokens, ending, starts) <==>
            EndingNeedsShell(ending) || SomeAt(tokens, EndingText(ending), starts)
    decreases |tokens|
  {
    if tokens != [] {
      SomeNeedsShellMeans(tokens[1..], ending, IsGap(tokens[0]));
      SomeAtStep(tokens, EndingText(ending), starts);
    }
  }

  // ----- the scan finds what needs a shell -----

  function Scanned(s: string, quote: Option<char>, escaped: bool, starts: bool): bool {
    SyntaxFrom(true, s, quote, escaped, starts)
  }

  lemma OneOn(c: char, rest: string, quote: Option<char>, escaped: bool, starts: bool)
    ensures var toggled := ToggleQuote(quote, c, true);
            Scanned([c] + rest, quote, escaped, starts) ==
            if escaped then Scanned(rest, quote, false, false)
            else if c == '\\' && quote != Some('\'') then Scanned(rest, quote, true, false)
            else if toggled.0 then Scanned(rest, toggled.1, false, false)
            else StartsSyntax(quote, c, First(rest), starts) ||
                 Scanned(rest, quote, false, quote == None && IsWhitespace(c))
  {
    assert ([c] + rest)[1..] == rest;
  }

  lemma {:induction false} SingleIsSkipped(s: string, rest: string)
    requires '\'' !in s
    ensures Scanned(s + rest, Some('\''), false, false) == Scanned(rest, Some('\''), false, false)
  {
    if s == "" {
      assert s + rest == rest;
    } else {
      assert s + rest == [s[0]] + (s[1..] + rest);
      OneOn(s[0], s[1..] + rest, Some('\''), false, false);
      SingleIsSkipped(s[1..], rest);
    }
  }

  lemma PartIsScanned(part: Part, rest: string)
    requires PartsAllowed([part])
    ensures Scanned(PartText(part) + rest, Some('"'), false, false) <==>
            (part == Itself('$') && Expands(First(rest))) || Scanned(rest, Some('"'), false, false)
  {
    assert [part][0] == part;
    match part
    case Itself(c) => OneOn(c, rest, Some('"'), false, false);
    case Behind(c) =>
      assert ['\\', c] + rest == ['\\'] + ([c] + rest);
      OneOn('\\', [c] + rest, Some('"'), false, false);
      OneOn(c, rest, Some('"'), true, false);
  }

  lemma FirstOfConcat(a: string, b: string)
    ensures First(a + b) == if a == "" then First(b) else First(a)
  {
    if a == "" {
      assert a + b == b;
    }
  }

  lemma {:induction false} PartsAreScanned(parts: seq<Part>, end: string, rest: string)
    requires PartsAllowed(parts) && (end == "" ==> rest == "")
    ensures Scanned(PartsText(parts) + (end + rest), Some('"'), false, false) <==>
            PartsExpand(parts, end) || Scanned(end + rest, Some('"'), false, false)
  {
    if parts == [] {
      assert "" + (end + rest) == end + rest;
    } else {
      var others := PartsText(parts[1..]);
      assert PartsAllowed([parts[0]]);
      Regroup(PartText(parts[0]), others, end + rest);
      PartIsScanned(parts[0], others + (end + rest));
      PartsAreScanned(parts[1..], end, rest);
      Regroup(others, end, rest);
      FirstOfConcat(others + end, rest);
    }
  }

  lemma SingleIsScanned(s: string, rest: string, starts: bool)
    requires '\'' !in s
    ensures Scanned("'" + s + rest, None, false, starts) == Scanned(rest, Some('\''), false, false)
  {
    Regroup("'", s, rest);
    OneOn('\'', s + rest, None, false, starts);
    SingleIsSkipped(s, rest);
  }

  lemma DoubleIsScanned(parts: seq<Part>, end: string, rest: string, starts: bool)
    requires PartsAllowed(parts) && (end == "" ==> rest == "")
    ensures Scanned("\"" + PartsText(parts) + (end + rest), None, false, starts) <==>
            PartsExpand(parts, end) || Scanned(end + rest, Some('"'), false, false)
  {
    Regroup("\"", PartsText(parts), end + rest);
    OneOn('"', PartsText(parts) + (end + rest), None, false, starts);
    PartsAreScanned(parts, end, rest);
  }

  lemma OperatorIsScanned(op: Operator, rest: string, starts: bool)
    ensures Scanned(OperatorText(op) + rest, None, false, starts)
  {
    var text := OperatorText(op);
    if |text| == 1 {
      OneOn(text[0], rest, None, false, starts);
    } else {
      assert text + rest == [text[0]] + ([text[1]] + rest);
      OneOn(text[0], [text[1]] + rest, None, false, starts);
    }
  }

  lemma TokenIsScanned(t: Token, rest: string, starts: bool)
    requires Allowed(t) && MayStandBefore(t, rest)
    ensures Scanned(TokenText(t) + rest, None, false, starts) <==>
            NeedsShell(t, rest, starts) || Scanned(rest, None, false, IsGap(t))
  {
    match t
    case Op(op) => OperatorIsScanned(op, rest, starts);
    case Other(c) =>
      assert c !in {'\'', '"', '\\', '|', ';', '<', '>', '`'};
      OneOn(c, rest, None, false, starts);
    case Backslashed(c) =>
      assert ['\\', c] + rest == ['\\'] + ([c] + rest);
      OneOn('\\', [c] + rest, None, false, starts);
      OneOn(c, rest, None, true, false);
    case Single(s) =>
      Regroup("'" + s, "'", rest);
      SingleIsScanned(s, "'" + rest, starts);
      OneOn('\'', rest, Some('\''), false, false);
    case Double(parts) =>
      Regroup("\"" + PartsText(parts), "\"", rest);
      DoubleIsScanned(parts, "\"", rest, starts);
      OneOn('"', rest, Some('"'), false, false);
  }

  lemma EndingIsScanned(ending: Ending, starts: bool)
    requires EndingAllowed(ending)
    ensures Scanned(EndingText(ending), None, false, starts) <==> EndingNeedsShell(ending)
  {
    match ending
    case Whole =>
      assert EndingText(ending) == "";
    case Dangling =>
      OneOn('\\', "", None, false, starts);
      assert EndingText(ending) == ['\\'] + "";
    case OpenSingle(s) =>
      assert "'" + s + "" == "'" + s;
      SingleIsScanned(s, "", starts);
    case OpenDouble(parts, dangling) =>
      var end := if dangling then "\\" else "";
      assert end + "" == end;
      DoubleIsScanned(parts, end, "", starts);
      assert end == "" || end == ['\\'] + "";
      OneOn('\\', "", Some('"'), false, false);
  }

  lemma {:induction false} TokensAreScanned(tokens: seq<Token>, ending: Ending, starts: bool)
    requires EndingAllowed(ending) && TokensAllowed(tokens, EndingText(ending))
    ensures Scanned(TokensText(tokens, EndingText(ending)), None, false, starts) <==>
            SomeNeedsShell(tokens, ending, starts)
    decreases |tokens|
  {
    if tokens == [] {
      EndingIsScanned(ending, starts);
    } else {
      TokenIsScanned(tokens[0], TokensText(tokens[1..], EndingText(ending)), starts);
      TokensAreScanned(tokens[1..], ending, IsGap(tokens[0]));
    }
  }

  predicate IsIdentifier(name: string) {
    && name != "" && !('0' <= name[0] <= '9')
    && forall i :: 0 <= i < |name| ==>
         name[i] == '_' || '0' <= name[i] <= '9' || 'A' <= name[i] <= 'Z' || 'a' <= name[i] <= 'z'
  }

  /** A word assigns a variable when it is an identifier, an equals sign and anything. */
  lemma AssignmentMeans(word: string)
    ensures IsPosixEnvAssignment(word) <==> exists name, rest :: word == name + "=" + rest && IsIdentifier(name)
  {
    if IsPosixEnvAssignment(word) {
      var n :| 0 < n < |word| && word[n] == '='
               && forall i :: 0 < i < n ==> word[i] == '_' || IsAsciiAlphanumeric(word[i]);
      var name, rest := word[..n], word[n + 1..];
      assert word == name + "=" + rest && IsIdentifier(name);
    }
    forall name, rest | word == name + "=" + rest && IsIdentifier(name)
      ensures IsPosixEnvAssignment(word)
    {
      assert word[|name|] == '=' && forall i :: 0 <= i < |name| ==> word[i] == name[i];
    }
  }

  /** A value counts as shell syntax exactly when it spells something that needs a shell, or its first of several
      words assigns a variable. */
  lemma SyntaxMeans(value: string, tokens: seq<Token>, ending: Ending)
    requires EndingAllowed(ending) && TokensAllowed(tokens, EndingText(ending))
    requires value == TokensText(tokens, EndingText(ending))
    ensures ContainsShellSyntax(value) <==>
            || StartsWithPosixEnvAssignment(value)
            || EndingNeedsShell(ending)
            || SomeAt(tokens, EndingText(ending), true)
  {
    TokensAreScanned(tokens, ending, true);
    SomeNeedsShellMeans(tokens, ending, true);
  }
}
