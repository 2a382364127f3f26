/** The hook's decision to route a command through `tokenzero run` (hook.rs). The lists of programs it leaves
    alone are a parameter. */
module HookRewrite {
  import opened HookSegments
  import opened ShellHiding
  import opened ShellOperators
  import opened ShellQuote
  import opened ShellSplit
  import opened ShellSyntax
  import opened Text
  import opened Wrappers

  const SELF_NAME := "tokenzero"

  predicate StartsWithProgram(command: string, program: string) {
    program <= command && (|command| == |program| || IsWhitespace(command[|program|]))
  }

  /** Segments the hook does not route: empty ones, and those that start with a program on its lists. */
  ghost predicate LeftAlone(segment: string, programs: seq<string>) {
    Trim(segment) == "" || exists i :: 0 <= i < |programs| && StartsWithProgram(Trim(segment), programs[i])
  }

  ghost predicate ShouldSkip(command: string, programs: seq<string>) {
    var trimmed := Trim(command);
    || trimmed == ""
    || Contains(trimmed, SELF_NAME)
    || "TOKENZERO_NO_WRAP=" <= trimmed
    || Contains(trimmed, "<<")
    || match TopLevel(trimmed, OPEN, "")
       case None => true
       case Some(segments) => exists i :: 0 <= i < |segments| && LeftAlone(segments[i], programs)
  }

  function Rewritten(command: string, selfExe: string): string {
    Print(SingleQuote, selfExe) + " run -- sh -c " + Print(SingleQuote, command)
  }

  ghost function RewriteDecision(command: string, selfExe: string, programs: seq<string>): Option<string> {
    if ShouldSkip(command, programs) then None else Some(Rewritten(command, selfExe))
  }

  lemma WordAndSpace(p: Printer, arg: string, rest: string, out: seq<string>)
    requires p.Target() == Posix
    ensures Run(GrammarOf(Posix), Print(p, arg) + ([' '] + rest), Idle(out)) ==
            Run(GrammarOf(Posix), rest, Idle(out + [arg]))
  {
    ImagedIsSame(p, arg);
    PrintedReadsBack(p, arg, [' '] + rest, out);
    SpaceEndsWord(GrammarOf(Posix), rest, arg, out);
  }

  /** A bare word, as the hook writes the words between the two quoted ones. */
  lemma BareWordAndSpace(arg: string, rest: string, out: seq<string>)
    requires arg != "" && AllSafe(QuoteAs(Posix), arg)
    ensures Run(GrammarOf(Posix), arg + ([' '] + rest), Idle(out)) == Run(GrammarOf(Posix), rest, Idle(out + [arg]))
  {
    WordAndSpace(QuoteAs(Posix), arg, rest, out);
  }

  /** Bare words, each followed by a space, and a last part. */
  function Line(bare: seq<string>, last: string): string {
    if bare == [] then last else bare[0] + ([' '] + Line(bare[1..], last))
  }

  lemma LastReadsBack(command: string, out: seq<string>)
    ensures Run(GrammarOf(Posix), Print(SingleQuote, command), Idle(out)) == out + [command]
  {
    PrintedReadsBack(SingleQuote, command, "", out);
    ImagedIsSame(SingleQuote, command);
    assert Print(SingleQuote, command) + "" == Print(SingleQuote, command);
  }

  /** If each bare word and its space are read as one word, the line is read as those words and its last part. */
  lemma {:induction false} LineReads<R>(read: (string, seq<string>) -> R, bare: seq<string>, last: string,
                                        out: seq<string>)
    requires forall word, rest, before | word in bare ::
               read(word + ([' '] + rest), before) == read(rest, before + [word])
    ensures read(Line(bare, last), out) == read(last, out + bare)
    decreases |bare|
  {
    if bare == [] {
      assert out + bare == out;
    } else {
      LineReads(read, bare[1..], last, out + [bare[0]]);
      assert out + bare == out + [bare[0]] + bare[1..];
    }
  }

  lemma LineReadsBack(bare: seq<string>, last: string, out: seq<string>)
    requires forall i :: 0 <= i < |bare| ==> bare[i] != "" && AllSafe(QuoteAs(Posix), bare[i])
    ensures Run(GrammarOf(Posix), Line(bare, last), Idle(out)) == Run(GrammarOf(Posix), last, Idle(out + bare))
  {
    var read := (text, before) => Run(GrammarOf(Posix), text, Idle(before));
    forall word, rest, before | word in bare
      ensures read(word + ([' '] + rest), before) == read(rest, before + [word])
    {
      BareWordAndSpace(word, rest, before);
    }
    LineReads(read, bare, last, out);
  }

  const FIXED_WORDS: seq<string> := ["run", "--", "sh", "-c"]

  lemma FixedLine(last: string)
    ensures [' '] + Line(FIXED_WORDS, last) == " run -- sh -c " + last
  {
    var three := ["--", "sh", "-c"];
    var two := ["sh", "-c"];
    var one := ["-c"];
    assert FIXED_WORDS[1..] == three && three[1..] == two && two[1..] == one && one[1..] == [];
    assert Line(one, last) == "-c" + ([' '] + last);
    assert Line(two, last) == "sh" + ([' '] + Line(one, last));
    assert Line(three, last) == "--" + ([' '] + Line(two, last));
    assert Line(FIXED_WORDS, last) == "run" + ([' '] + Line(three, last));
  }

  /** The rewritten command splits into exactly the executable, the fixed words and the original command. */
  lemma RewriteSplits(command: string, selfExe: string)
    ensures Words(Posix, Rewritten(command, selfExe)) == [selfExe] + FIXED_WORDS + [command]
  {
    var last := Print(SingleQuote, command);
    FixedLine(last);
    assert Rewritten(command, selfExe) == Print(SingleQuote, selfExe) + ([' '] + Line(FIXED_WORDS, last));
    RewriteSplitsAs(Print(SingleQuote, selfExe), Line(FIXED_WORDS, last), command, selfExe);
  }

  lemma RewriteSplitsAs(exe: string, line: string, command: string, selfExe: string)
    requires exe == Print(SingleQuote, selfExe) && line == Line(FIXED_WORDS, Print(SingleQuote, command))
    ensures Words(Posix, exe + ([' '] + line)) == [selfExe] + FIXED_WORDS + [command]
  {
    WordAndSpace(SingleQuote, selfExe, line, []);
    assert [] + [selfExe] == [selfExe];
    LineReadsBack(FIXED_WORDS, Print(SingleQuote, command), [selfExe]);
    LastReadsBack(command, [selfExe] + FIXED_WORDS);
  }

  lemma InertMiddle()
    ensures Inert(" run -- sh -c ", OPEN) && After(" run -- sh -c ", OPEN) == OPEN
  {
    assert forall c :: c in " run -- sh -c " ==> Inert([c], OPEN) && After([c], OPEN) == OPEN by {
      forall c | c in " run -- sh -c "
        ensures Inert([c], OPEN) && After([c], OPEN) == OPEN
      {
        InertOne(c, OPEN);
      }
    }
    InertCodes(" run -- sh -c ", c => [c], OPEN);
    FlatMapSame(" run -- sh -c ");
  }

  /** Whatever operators the original command holds, the rewritten one shows none. */
  lemma RewriteHidesOperators(command: string, selfExe: string)
    ensures var rewritten := Rewritten(command, selfExe);
            Collect([], rewritten, OPEN) == [] && TopLevel(rewritten, OPEN, "") == Some([rewritten])
  {
    var exe, middle, last := Print(SingleQuote, selfExe), " run -- sh -c ", Print(SingleQuote, command);
    InertWord(SingleQuote, selfExe);
    InertMiddle();
    InertWord(SingleQuote, command);
    InertConcat(exe, middle, OPEN);
    InertConcat(exe + middle, last, OPEN);
    var rewritten := Rewritten(command, selfExe);
    InertHasNoFeature(rewritten, OPEN);
    InertIsOneSegment(rewritten, OPEN, "");
    assert "" + rewritten == rewritten;
  }

  // ----- rewriting once -----

  lemma {:induction false} EscapedConcat(p: Printer, a: string, b: string)
    ensures Escaped(p, a + b) == Escaped(p, a) + Escaped(p, b)
  {
    if a == "" {
      assert a + b == b;
    } else {
      assert (a + b)[1..] == a[1..] + b;
      EscapedConcat(p, a[1..], b);
    }
  }

  lemma {:induction false} EscapedPlain(p: Printer, a: string)
    requires p == SingleQuote && '\'' !in a
    ensures Escaped(p, a) == a
  {
    if a != "" {
      assert a == [a[0]] + a[1..];
      EscapedPlain(p, a[1..]);
    }
  }

  lemma NothingIsSafe(arg: string)
    ensures Print(SingleQuote, arg) == ['\''] + Escaped(SingleQuote, arg) + ['\'']
  {
    if arg != "" {
      assert !SingleQuote.Safe(arg[0]);
    }
  }

  lemma EscapedAround(before: string, part: string, after: string)
    requires '\'' !in part
    ensures Escaped(SingleQuote, before + part + after) ==
            Escaped(SingleQuote, before) + part + Escaped(SingleQuote, after)
  {
    EscapedConcat(SingleQuote, before, part);
    EscapedConcat(SingleQuote, before + part, after);
    EscapedPlain(SingleQuote, part);
  }

  lemma Around(quote: string, a: string, part: string, b: string)
    ensures Contains(quote + (a + part + b) + quote, part)
  {
    ContainsMiddle(quote + a, part, b + quote);
    assert quote + (a + part + b) + quote == (quote + a) + part + (b + quote);
  }

  lemma QuotingKeepsPart(arg: string, part: string)
    requires Contains(arg, part) && '\'' !in part
    ensures Contains(Print(SingleQuote, arg), part)
  {
    var i :| 0 <= i <= |arg| && part <= arg[i..];
    var before, after := arg[..i], arg[i + |part|..];
    assert arg == before + part + after;
    NothingIsSafe(arg);
    EscapedAround(before, part, after);
    Around(['\''], Escaped(SingleQuote, before), part, Escaped(SingleQuote, after));
  }

  /** A command routed through an executable that bears the program's name is not routed again. */
  lemma RewriteOnce(command: string, selfExe: string, otherExe: string, programs: seq<string>)
    requires Contains(selfExe, SELF_NAME)
    ensures RewriteDecision(Rewritten(command, selfExe), otherExe, programs) == None
  {
    var rewritten, exe := Rewritten(command, selfExe), Print(SingleQuote, selfExe);
    QuotingKeepsPart(selfExe, SELF_NAME);
    var i :| 0 <= i <= |exe| && SELF_NAME <= exe[i..];
    assert rewritten[i..][..|SELF_NAME|] == exe[i..][..|SELF_NAME|];
    assert Contains(rewritten, SELF_NAME);
    QuotedStaysTrimmed(rewritten);
  }

  lemma QuotedStaysTrimmed(s: string)
    requires s != "" && !IsWhitespace(s[0]) && !IsWhitespace(s[|s| - 1])
    ensures Trim(s) == s
  {
  }

  // ----- exactly when a rewritten command is routed again -----

  /** Words that no quoting can write: not empty, and free of quotes and whitespace. */
  ghost predicate IsPlain(part: string) {
    part != "" && forall i :: 0 <= i < |part| ==> part[i] != '\'' && part[i] != '\"' && !IsWhitespace(part[i])
  }

  ghost predicate Foreign(block: string, part: string) {
    block != "" && forall i :: 0 <= i < |block| ==> block[i] !in part
  }

  lemma LetterOfPart(s: string, part: string, i: nat, k: nat)
    requires i <= k < i + |part| && i <= |s| && part <= s[i..]
    ensures k < |s| && s[k] in part
  {
    assert s[i..][k - i] == part[k - i];
  }

  /** What occurs around characters foreign to it occurs on one side of them. */
  lemma ForeignSplits(x: string, block: string, y: string, part: string)
    requires part != "" && Foreign(block, part) && Contains(x + block + y, part)
    ensures Contains(x, part) || Contains(y, part)
  {
    var s := x + block + y;
    var i :| 0 <= i <= |s| && part <= s[i..];
    if i + |part| <= |x| {
      assert x[i..][..|part|] == s[i..][..|part|];
    } else if i >= |x| + |block| {
      assert y[i - |x| - |block|..] == s[i..];
    } else {
      LetterOfPart(s, part, i, if i > |x| then i else |x|);
      assert false;
    }
  }

  lemma ContainsAround(before: string, s: string, after: string, part: string)
    requires Contains(s, part)
    ensures Contains(before + s + after, part)
  {
    var i :| 0 <= i <= |s| && part <= s[i..];
    assert (before + s + after)[|before| + i..] == s[i..] + after;
  }

  /** Quoting brings no plain words out, whatever stands before. */
  lemma {:induction false} EscapingAddsNothing(before: string, arg: string, part: string)
    requires IsPlain(part) && Contains(before + Escaped(SingleQuote, arg), part)
    ensures Contains(before + arg, part)
    decreases |arg|
  {
    if arg == "" {
      assert Escaped(SingleQuote, arg) == arg;
    } else {
      var rest := Escaped(SingleQuote, arg[1..]);
      assert before + arg == before + [arg[0]] + arg[1..];
      if arg[0] == '\'' {
        var code := SingleQuote.Escape(arg[0]);
        assert before + Escaped(SingleQuote, arg) == before + code + rest;
        ForeignSplits(before, code, rest, part);
        if Contains(before, part) {
          ContainsAround("", before, arg, part);
          assert "" + before + arg == before + arg;
        } else {
          assert "" + rest == rest && "" + arg[1..] == arg[1..];
          EscapingAddsNothing("", arg[1..], part);
          ContainsAround(before + [arg[0]], arg[1..], "", part);
          assert before + [arg[0]] + arg[1..] + "" == before + arg;
        }
      } else {
        assert before + Escaped(SingleQuote, arg) == before + [arg[0]] + rest;
        EscapingAddsNothing(before + [arg[0]], arg[1..], part);
      }
    }
  }

  lemma QuotesAround(s: string, part: string)
    requires IsPlain(part) && Contains(['\''] + s + ['\''], part)
    ensures Contains(s, part)
  {
    var closed := s + ['\''];
    assert ['\''] + s + ['\''] == "" + ['\''] + closed;
    ForeignSplits("", ['\''], closed, part);
    assert closed == s + ['\''] + "";
    ForeignSplits(s, ['\''], "", part);
  }

  lemma QuotingAddsNothing(arg: string, part: string)
    requires IsPlain(part) && Contains(Print(SingleQuote, arg), part)
    ensures Contains(arg, part)
  {
    var escaped := Escaped(SingleQuote, arg);
    NothingIsSafe(arg);
    QuotesAround(escaped, part);
    assert "" + escaped == escaped && "" + arg == arg;
    EscapingAddsNothing("", arg, part);
  }

  lemma {:induction false} TrimmedStartContains(s: string, part: string)
    requires IsPlain(part) && Contains(s, part)
    ensures Contains(TrimStart(s), part)
  {
    if s != "" && IsWhitespace(s[0]) {
      assert s == "" + [s[0]] + s[1..];
      ForeignSplits("", [s[0]], s[1..], part);
      TrimmedStartContains(s[1..], part);
    }
  }

  lemma {:induction false} TrimmedEndContains(s: string, part: string)
    requires IsPlain(part) && Contains(s, part)
    ensures Contains(TrimEnd(s), part)
  {
    if s != "" && IsWhitespace(s[|s| - 1]) {
      assert s == s[..|s| - 1] + [s[|s| - 1]] + "";
      ForeignSplits(s[..|s| - 1], [s[|s| - 1]], "", part);
      TrimmedEndContains(s[..|s| - 1], part);
    }
  }

  const MIDDLE := " run -- sh -c "

  lemma EndsShow(a: string, middle: string, b: string, part: string)
    requires Contains(a, part) || Contains(b, part)
    ensures Contains(a + middle + b, part)
  {
    if Contains(a, part) {
      ContainsAround("", a, middle + b, part);
      assert "" + a + (middle + b) == a + middle + b;
    } else {
      ContainsAround(a + middle, b, "", part);
      assert a + middle + b + "" == a + middle + b;
    }
  }

  lemma RewrittenShows(command: string, selfExe: string, part: string)
    requires IsPlain(part) && (Contains(selfExe, part) || Contains(command, part))
    ensures Contains(Rewritten(command, selfExe), part)
  {
    if Contains(selfExe, part) {
      QuotingKeepsPart(selfExe, part);
    } else {
      QuotingKeepsPart(command, part);
    }
    EndsShow(Print(SingleQuote, selfExe), MIDDLE, Print(SingleQuote, command), part);
  }

  /** Plain words that the middle of a rewritten command does not hold come from its executable or its command. */
  lemma RewrittenHolds(command: string, selfExe: string, part: string)
    requires IsPlain(part) && (forall word :: word in FIXED_WORDS ==> !Contains(word, part))
    ensures Contains(Rewritten(command, selfExe), part) <==> Contains(selfExe, part) || Contains(command, part)
  {
    if Contains(selfExe, part) || Contains(command, part) {
      RewrittenShows(command, selfExe, part);
    } else if Contains(Rewritten(command, selfExe), part) {
      MiddleHoldsNothing(Print(SingleQuote, selfExe), Print(SingleQuote, command), part);
      if Contains(Print(SingleQuote, selfExe), part) {
        QuotingAddsNothing(selfExe, part);
      } else {
        QuotingAddsNothing(command, part);
      }
    }
  }

  lemma MiddleHoldsNothing(exe: string, last: string, part: string)
    requires IsPlain(part) && (forall word :: word in FIXED_WORDS ==> !Contains(word, part))
    requires Contains(exe + MIDDLE + last, part)
    ensures Contains(exe, part) || Contains(last, part)
  {
    FixedLine(last);
    assert exe + MIDDLE + last == exe + ([' '] + Line(FIXED_WORDS, last));
    assert exe + ([' '] + Line(FIXED_WORDS, last)) == exe + [' '] + Line(FIXED_WORDS, last);
    ForeignSplits(exe, [' '], Line(FIXED_WORDS, last), part);
    if !Contains(exe, part) {
      LineHolds(FIXED_WORDS, last, part);
    }
  }

  lemma {:induction false} LineHolds(bare: seq<string>, last: string, part: string)
    requires IsPlain(part) && Contains(Line(bare, last), part)
    ensures Contains(last, part) || exists word :: word in bare && Contains(word, part)
    decreases |bare|
  {
    if bare != [] {
      var rest := Line(bare[1..], last);
      assert Line(bare, last) == bare[0] + [' '] + rest;
      ForeignSplits(bare[0], [' '], rest, part);
      if Contains(bare[0], part) {
        assert bare[0] in bare;
      } else {
        LineHolds(bare[1..], last, part);
      }
    }
  }

  lemma FixedWordsAreFree()
    ensures forall word :: word in FIXED_WORDS ==> !Contains(word, SELF_NAME) && !Contains(word, "<<")
  {
    forall word | word in FIXED_WORDS
      ensures !Contains(word, SELF_NAME) && !Contains(word, "<<")
    {
      assert 't' !in word && '<' !in word;
      MissingLetter(word, SELF_NAME, 0);
      MissingLetter(word, "<<", 0);
    }
  }

  lemma TrimmedContains(s: string, part: string)
    requires IsPlain(part) && Contains(s, part)
    ensures Contains(Trim(s), part)
  {
    TrimmedStartContains(s, part);
    TrimmedEndContains(TrimStart(s), part);
  }

  /** Once routed, a command is routed again exactly unless the executable bears the program's name or two less-than
      signs; the programs on the hook's lists are bare words. */
  lemma RewriteAgainIff(command: string, selfExe: string, otherExe: string, programs: seq<string>)
    requires RewriteDecision(command, selfExe, programs).Some?
    requires forall i :: 0 <= i < |programs| ==> programs[i] != "" && programs[i][0] != '\''
    ensures RewriteDecision(Rewritten(command, selfExe), otherExe, programs) == None <==>
            Contains(selfExe, SELF_NAME) || Contains(selfExe, "<<")
  {
    var rewritten := Rewritten(command, selfExe);
    FixedWordsAreFree();
    RewrittenHolds(command, selfExe, SELF_NAME);
    RewrittenHolds(command, selfExe, "<<");
    if Contains(command, SELF_NAME) {
      TrimmedContains(command, SELF_NAME);
    }
    if Contains(command, "<<") {
      TrimmedContains(command, "<<");
    }
    NothingIsSafe(selfExe);
    NothingIsSafe(command);
    QuotedStaysTrimmed(rewritten);
    RewriteHidesOperators(command, selfExe);
    assert rewritten[0] == '\'';
  }
}
