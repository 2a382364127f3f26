/** When the hook routes a command (hook.rs), on what the command spells: no operator in the background, and no
    segment that is empty or starts with a program on the lists. */
module HookMeaning {
  import opened HookRewrite
  import opened HookSegments
  import opened OperatorReading
  import opened Sequences
  import opened ShellOperators
  import opened ShellSplit
  import opened Text
  import opened Wrappers

  /** A single `&` that is not part of a redirection: no `>` stands next to it. `behindAngle` tells whether one stands
      before the first token. */
  ghost predicate InBackground(tokens: seq<Token>, end: string, behindAngle: bool, i: nat)
    requires i < |tokens|
  {
    && tokens[i] == Other('&')
    && !(if i == 0 then behindAngle else EndsWith(TokenText(tokens[i - 1]), '>'))
    && First(TokensText(tokens[i + 1..], end)) != Some('>')
  }

  ghost predicate NoneInBackground(tokens: seq<Token>, end: string, behindAngle: bool) {
    forall i: nat :: i < |tokens| ==> !InBackground(tokens, end, behindAngle, i)
  }

  lemma {:induction false} TopLevelToBare(s: string, q: Quoting, current: string)
    ensures var n := BareAt(s, q);
            TopLevel(s, q, current) == if n == |s| then Some([current + s])
            else TopLevel(s[n..], OPEN, current + s[..n])
    decreases |s|
  {
    if s == "" {
      assert current + s == current;
    } else if Bare(q, s[0]) {
      assert s[0..] == s && current + s[..0] == current;
    } else {
      var rest, q' := s[1..], Advance(q, s[0]);
      TopLevelToBare(rest, q', current + [s[0]]);
      assert current + [s[0]] + rest == current + s;
      var n := BareAt(rest, q');
      assert current + [s[0]] + rest[..n] == current + s[..n + 1] && rest[n..] == s[n + 1..];
    }
  }

  lemma PassedIsRead(hidden: string, rest: string, current: string)
    requires BareAt(hidden + rest, OPEN) == |hidden| + BareAt(rest, OPEN)
    ensures TopLevel(hidden + rest, OPEN, current) == TopLevel(rest, OPEN, current + hidden)
  {
    var m := BareAt(rest, OPEN);
    TopLevelToBare(hidden + rest, OPEN, current);
    TopLevelToBare(rest, OPEN, current + hidden);
    SliceBehind(hidden, rest, m);
    Regroup(current, hidden, rest);
    Regroup(current, hidden, rest[..m]);
  }

  lemma CharIsRead(c: char, rest: string, current: string)
    requires Bare(OPEN, c) && MoveAt(current, c, First(rest)) == Keep
    ensures TopLevel([c] + rest, OPEN, current) == TopLevel(rest, OPEN, current + [c])
  {
    assert ([c] + rest)[1..] == rest;
  }

  lemma OperatorEnds(op: Operator, rest: string, current: string)
    requires MayStandBefore(Op(op), rest) && Cuts(Segments, Op(op))
    ensures TopLevel(OperatorText(op) + rest, OPEN, current) == Onto([current], TopLevel(rest, OPEN, ""))
  {
    var text := OperatorText(op);
    assert (text + rest)[0] == text[0] && (text + rest)[|text|..] == rest;
    if |text| == 1 {
      assert (text + rest)[1..] == rest;
    } else {
      assert (text + rest)[1] == text[1];
    }
  }

  lemma OperatorIsRead(op: Operator, rest: string, current: string)
    requires MayStandBefore(Op(op), rest) && !Cuts(Segments, Op(op))
    ensures TopLevel(OperatorText(op) + rest, OPEN, current) == TopLevel(rest, OPEN, current + OperatorText(op))
  {
    if op == DollarParen {
      assert "$(" + rest == ['$'] + (['('] + rest);
      CharIsRead('$', ['('] + rest, current);
      CharIsRead('(', rest, current + ['$']);
      assert current + ['$'] + ['('] == current + "$(";
    } else {
      CharIsRead(OperatorText(op)[0], rest, current);
    }
  }

  lemma TokenIsRead(t: Token, rest: string, current: string)
    requires Allowed(t) && MayStandBefore(t, rest)
    ensures TopLevel(TokenText(t) + rest, OPEN, current) ==
            if t == Other('&') && !EndsWith(current, '>') && First(rest) != Some('>') then None
            else if Cuts(Segments, t) then Onto([current], TopLevel(rest, OPEN, ""))
            else TopLevel(rest, OPEN, current + TokenText(t))
  {
    match t
    case Op(op) =>
      if Cuts(Segments, t) {
        OperatorEnds(op, rest, current);
      } else {
        OperatorIsRead(op, rest, current);
      }
    case Other(c) =>
      assert c !in {'\'', '"', '\\', '|', ';'};
      assert ([c] + rest)[1..] == rest;
    case _ =>
      HiddenIsPassed(t, rest);
      PassedIsRead(TokenText(t), rest, current);
  }

  lemma BackgroundStep(tokens: seq<Token>, end: string, behindAngle: bool)
    requires tokens != []
    ensures NoneInBackground(tokens, end, behindAngle) <==>
            && !InBackground(tokens, end, behindAngle, 0)
            && NoneInBackground(tokens[1..], end, EndsWith(TokenText(tokens[0]), '>'))
  {
    var rest, angle := tokens[1..], EndsWith(TokenText(tokens[0]), '>');
    forall i: nat | i < |rest|
      ensures InBackground(rest, end, angle, i) <==> InBackground(tokens, end, behindAngle, i + 1)
    {
      assert rest[i] == tokens[i + 1] && rest[i + 1..] == tokens[i + 2..];
      assert i > 0 ==> rest[i - 1] == tokens[i];
    }
    if NoneInBackground(rest, end, angle) && !InBackground(tokens, end, behindAngle, 0) {
      forall i: nat | i < |tokens|
        ensures !InBackground(tokens, end, behindAngle, i)
      {
        if i > 0 {
          assert !InBackground(rest, end, angle, i - 1);
        }
      }
    }
  }

  lemma OntoPieces(current: string, pieces: seq<string>)
    requires pieces != []
    ensures Onto([current], Some(Prepend("", pieces))) == Some(Prepend(current, [""] + pieces))
  {
    PrependNothing(pieces);
    PrependToCut(current, pieces);
  }

  lemma EndsWithLast(a: string, b: string, c: char)
    requires b != ""
    ensures EndsWith(a + b, c) <==> EndsWith(b, c)
  {
    assert (a + b)[|a + b| - 1] == b[|b| - 1];
  }

  /** The text of the tokens between the operators, the first of it behind `current`, unless one is in the
      background. */
  ghost function Reading(tokens: seq<Token>, end: string, current: string, behindAngle: bool): Option<seq<string>> {
    if NoneInBackground(tokens, end, behindAngle) then Some(Prepend(current, Stretches(Segments, tokens, end)))
    else None
  }

  lemma ReadingStep(tokens: seq<Token>, end: string, current: string, behindAngle: bool)
    requires tokens != []
    ensures var (t, rest) := (tokens[0], tokens[1..]);
            Reading(tokens, end, current, behindAngle) ==
            if InBackground(tokens, end, behindAngle, 0) then None
            else if Cuts(Segments, t) then Onto([current], Reading(rest, end, "", false))
            else Reading(rest, end, current + TokenText(t), EndsWith(TokenText(t), '>'))
  {
    var t, pieces := tokens[0], Stretches(Segments, tokens[1..], end);
    BackgroundStep(tokens, end, behindAngle);
    if Cuts(Segments, t) {
      OntoPieces(current, pieces);
    } else {
      PrependTwice(current, TokenText(t), pieces);
    }
  }

  /** The hook's segments are what stands between the operators, unless one is in the background. */
  lemma {:induction false} TopLevelReads(tokens: seq<Token>, ending: Ending, current: string)
    requires EndingAllowed(ending) && TokensAllowed(tokens, EndingText(ending))
    ensures TopLevel(TokensText(tokens, EndingText(ending)), OPEN, current) ==
            Reading(tokens, EndingText(ending), current, EndsWith(current, '>'))
    decreases |tokens|
  {
    var end := EndingText(ending);
    if tokens == [] {
      EndingIsPassed(ending);
      TopLevelToBare(end, OPEN, current);
      assert Prepend(current, [end]) == [current + end];
    } else {
      var t, rest := tokens[0], tokens[1..];
      ReadingStep(tokens, end, current, EndsWith(current, '>'));
      TokenIsRead(t, TokensText(rest, end), current);
      EndsWithLast(current, TokenText(t), '>');
      TopLevelReads(rest, ending, if Cuts(Segments, t) then "" else current + TokenText(t));
    }
  }

  /** A segment that is left alone: blank, or begun by a program on the lists, which ends there or before white
      space. */
  ghost predicate IsLeftAlone(segment: string, programs: seq<string>) {
    Blank(segment) || exists i :: 0 <= i < |programs| && StartsWith(Trim(segment), programs[i])
  }

  ghost predicate StartsWith(s: string, program: string) {
    exists rest :: s == program + rest && (rest == "" || IsWhitespace(rest[0]))
  }

  lemma StartsMeans(s: string, program: string)
    ensures StartsWithProgram(s, program) <==> StartsWith(s, program)
  {
    if StartsWithProgram(s, program) {
      var rest := s[|program|..];
      assert s == program + rest;
    }
    forall rest | s == program + rest && (rest == "" || IsWhitespace(rest[0]))
      ensures StartsWithProgram(s, program)
    {
      assert rest != "" ==> s[|program|] == rest[0];
    }
  }

  lemma LeftAloneMeans(segment: string, programs: seq<string>)
    ensures LeftAlone(segment, programs) <==> IsLeftAlone(segment, programs)
  {
    TrimOfBlank(segment);
    forall i | 0 <= i < |programs|
      ensures StartsWithProgram(Trim(segment), programs[i]) <==> StartsWith(Trim(segment), programs[i])
    {
      StartsMeans(Trim(segment), programs[i]);
    }
  }

  ghost predicate SomeLeftAlone(segments: seq<string>, programs: seq<string>) {
    exists i :: 0 <= i < |segments| && IsLeftAlone(segments[i], programs)
  }

  lemma SomeLeftAloneMeans(segments: seq<string>, programs: seq<string>)
    ensures (exists i :: 0 <= i < |segments| && LeftAlone(segments[i], programs)) <==> SomeLeftAlone(segments, programs)
  {
    forall i | 0 <= i < |segments|
      ensures LeftAlone(segments[i], programs) <==> IsLeftAlone(segments[i], programs)
    {
      LeftAloneMeans(segments[i], programs);
    }
  }

  lemma SegmentsOf(tokens: seq<Token>, ending: Ending)
    requires EndingAllowed(ending) && TokensAllowed(tokens, EndingText(ending))
    ensures TopLevel(TokensText(tokens, EndingText(ending)), OPEN, "") ==
            if NoneInBackground(tokens, EndingText(ending), false)
            then Some(Stretches(Segments, tokens, EndingText(ending))) else None
  {
    TopLevelReads(tokens, ending, "");
    PrependNothing(Stretches(Segments, tokens, EndingText(ending)));
  }

  /** A command is routed exactly when it says something, names neither the program nor its switch, holds no here
      document, puts nothing in the background, and has no segment that is left alone. */
  lemma RoutedIff(command: string, selfExe: string, programs: seq<string>, tokens: seq<Token>, ending: Ending)
    requires EndingAllowed(ending) && TokensAllowed(tokens, EndingText(ending))
    requires Trim(command) == TokensText(tokens, EndingText(ending))
    ensures RewriteDecision(command, selfExe, programs).Some? <==>
            && !Blank(command) && !Contains(Trim(command), "tokenzero") && !Contains(Trim(command), "<<")
            && !("TOKENZERO_NO_WRAP=" <= Trim(command))
            && NoneInBackground(tokens, EndingText(ending), false)
            && !SomeLeftAlone(Stretches(Segments, tokens, EndingText(ending)), programs)
  {
    TrimOfBlank(command);
    SegmentsOf(tokens, ending);
    SomeLeftAloneMeans(Stretches(Segments, tokens, EndingText(ending)), programs);
  }
}
