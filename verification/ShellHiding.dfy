/** Quoting hides every operator: what the posix printers write is inert to every detector and splitter. */
module ShellHiding {
  import opened HookSegments
  import opened ShellOperators
  import opened ShellQuote
  import opened ShellSplit
  import opened ShellSyntax
  import opened Sorting
  import opened Text
  import opened Wrappers

  predicate IsSpecial(ch: char) {
    ch in {'&', '|', ';', '>', '<', '$', '`', '\n', '~'}
  }

  /** No special character stands where a detector would look at it. */
  predicate Inert(s: string, q: Quoting) {
    s == "" || ((q.escaped || q.quote == Some('\'') || !IsSpecial(s[0])) && Inert(s[1..], Advance(q, s[0])))
  }

  /** The state after scanning `s`. */
  function After(s: string, q: Quoting): Quoting {
    if s == "" then q else After(s[1..], Advance(q, s[0]))
  }

  lemma {:induction false} InertConcat(a: string, b: string, q: Quoting)
    ensures Inert(a + b, q) <==> Inert(a, q) && Inert(b, After(a, q))
    ensures After(a + b, q) == After(b, After(a, q))
    decreases |a|
  {
    if a == "" {
      assert a + b == b;
    } else {
      assert (a + b)[1..] == a[1..] + b;
      InertConcat(a[1..], b, Advance(q, a[0]));
    }
  }

  /** Codes that are inert and leave the state as it was, in a row. */
  lemma {:induction false} InertCodes(arg: string, code: char -> string, q: Quoting)
    requires forall c :: c in arg ==> Inert(code(c), q) && After(code(c), q) == q
    ensures Inert(FlatMap(arg, code), q) && After(FlatMap(arg, code), q) == q
  {
    if arg != "" {
      InertCodes(arg[1..], code, q);
      InertConcat(code(arg[0]), FlatMap(arg[1..], code), q);
    }
  }

  lemma InertOne(c: char, q: Quoting)
    requires q.escaped || q.quote == Some('\'') || !IsSpecial(c)
    ensures Inert([c], q) && After([c], q) == Advance(q, c)
  {
    assert [c][1..] == "";
  }

  const QUOTED := Quoting(Some('\''), false)

  lemma InertSplice()
    ensures Inert("'\\''", QUOTED) && After("'\\''", QUOTED) == QUOTED
    ensures Inert("'\"'\"'", QUOTED) && After("'\"'\"'", QUOTED) == QUOTED
  {
    var backslash := Quoting(None, true);
    var double := Quoting(Some('"'), false);
    InertOne('\'', QUOTED);
    InertOne('\\', OPEN);
    InertOne('\'', backslash);
    InertOne('\'', OPEN);
    InertOne('"', OPEN);
    InertOne('\'', double);
    InertOne('"', double);
    InertConcat("'", "\\", QUOTED);
    InertConcat("'\\", "'", QUOTED);
    InertConcat("'\\'", "'", QUOTED);
    assert "'" + "\\" == "'\\" && "'\\" + "'" == "'\\'" && "'\\'" + "'" == "'\\''";
    InertConcat("'", "\"", QUOTED);
    InertConcat("'\"", "'", QUOTED);
    InertConcat("'\"'", "\"", QUOTED);
    InertConcat("'\"'\"", "'", QUOTED);
    assert "'" + "\"" == "'\"" && "'\"" + "'" == "'\"'" && "'\"'" + "\"" == "'\"'\"" && "'\"'\"" + "'" == "'\"'\"'";
  }

  lemma InertEscape(p: Printer, c: char)
    requires p.Target() == Posix
    ensures Inert(p.Escape(c), QUOTED) && After(p.Escape(c), QUOTED) == QUOTED
  {
    if c == '\'' {
      InertSplice();
    } else {
      InertOne(c, QUOTED);
    }
  }

  lemma InertQuoted(p: Printer, arg: string)
    requires p.Target() == Posix
    ensures var printed := ['\''] + Escaped(p, arg) + ['\''];
            Inert(printed, OPEN) && After(printed, OPEN) == OPEN
  {
    forall c | c in arg
      ensures Inert(p.Escape(c), QUOTED) && After(p.Escape(c), QUOTED) == QUOTED
    {
      InertEscape(p, c);
    }
    InertCodes(arg, p.Escape, QUOTED);
    InertOne('\'', OPEN);
    InertOne('\'', QUOTED);
    InertConcat(['\''], Escaped(p, arg), OPEN);
    InertConcat(['\''] + Escaped(p, arg), ['\''], OPEN);
  }

  lemma SafeIsInert(p: Printer, c: char)
    requires p.Target() == Posix && p.Safe(c)
    ensures !IsSpecial(c) && Advance(OPEN, c) == OPEN
  {
  }

  lemma InertBare(p: Printer, arg: string)
    requires p.Target() == Posix && AllSafe(p, arg)
    ensures Inert(arg, OPEN) && After(arg, OPEN) == OPEN
  {
    forall c | c in arg
      ensures Inert([c], OPEN) && After([c], OPEN) == OPEN
    {
      var i :| 0 <= i < |arg| && arg[i] == c;
      SafeIsInert(p, arg[i]);
      InertOne(c, OPEN);
    }
    InertCodes(arg, c => [c], OPEN);
    FlatMapSame(arg);
  }

  /** A printed word is inert, and ends where it began: outside quotes. */
  lemma InertWord(p: Printer, arg: string)
    requires p.Target() == Posix
    ensures Inert(Print(p, arg), OPEN) && After(Print(p, arg), OPEN) == OPEN
  {
    if arg != "" && AllSafe(p, arg) {
      InertBare(p, arg);
    } else {
      InertQuoted(p, arg);
    }
  }

  lemma {:induction false} InertCommand(p: Printer, args: seq<string>)
    requires p.Target() == Posix
    ensures Inert(PrintAll(p, args), OPEN)
  {
    if args != [] {
      PrintFirst(p, args);
      InertWord(p, args[0]);
      if |args| > 1 {
        InertCommand(p, args[1..]);
        InertOne(' ', OPEN);
        InertConcat([' '], PrintAll(p, args[1..]), OPEN);
        InertConcat(Print(p, args[0]), [' '] + PrintAll(p, args[1..]), OPEN);
      }
    }
  }

  // ----- what inert strings do -----

  lemma {:induction false} InertHasNoFeature(s: string, q: Quoting)
    requires Inert(s, q)
    ensures Collect([], s, q) == []
  {
    if s != "" {
      InertHasNoFeature(s[1..], Advance(q, s[0]));
    }
  }

  lemma {:induction false} InertIsOnePiece(mode: Mode, s: string, q: Quoting)
    requires Inert(s, q)
    ensures Pieces(mode, s, q) == [s]
  {
    if s != "" {
      assert CutAt(mode, s, q) == 0;
      InertIsOnePiece(mode, s[1..], Advance(q, s[0]));
      assert [s[0]] + s[1..] == s;
    }
  }

  lemma {:induction false} InertIsOneSegment(s: string, q: Quoting, current: string)
    requires Inert(s, q)
    ensures TopLevel(s, q, current) == Some([current + s])
    decreases |s|
  {
    if s == "" {
      assert current + s == current;
    } else {
      InertIsOneSegment(s[1..], Advance(q, s[0]), current + [s[0]]);
      assert current + [s[0]] + s[1..] == current + s;
    }
  }

  lemma {:induction false} InertHasNoSyntax(s: string, q: Quoting, atWordStart: bool)
    requires Inert(s, q)
    ensures !SyntaxFrom(true, s, q.quote, q.escaped, atWordStart)
    decreases |s|
  {
    if s != "" {
      var after := Advance(q, s[0]);
      forall start: bool
        ensures !SyntaxFrom(true, s[1..], after.quote, after.escaped, start)
      {
        InertHasNoSyntax(s[1..], after, start);
      }
    }
  }

  /** Whatever the arguments hold, no operator of the posix command line is seen: no feature is reported, and
      all three splitters leave the line in one piece. */
  lemma PrintingHidesOperators(p: Printer, argv: seq<string>)
    requires p.Target() == Posix
    ensures var command := PrintAll(p, argv);
            && Collect([], command, OPEN) == []
            && Split(Segments, command) == Split(Elements, command) == Kept([command])
            && TopLevel(command, OPEN, "") == Some([command])
  {
    var command := PrintAll(p, argv);
    InertCommand(p, argv);
    InertHasNoFeature(command, OPEN);
    InertIsOnePiece(Segments, command, OPEN);
    InertIsOnePiece(Elements, command, OPEN);
    InertIsOneSegment(command, OPEN, "");
    assert "" + command == command;
  }

  /** A printed posix command line needs a shell exactly when its first of several words assigns a variable. */
  lemma SyntaxOfPrinted(p: Printer, argv: seq<string>)
    requires p.Target() == Posix
    ensures ContainsShellSyntax(PrintAll(p, argv)) <==> |argv| > 1 && IsPosixEnvAssignment(argv[0])
  {
    SplitUndoesPrint(p, argv);
    InertCommand(p, argv);
    InertHasNoSyntax(PrintAll(p, argv), OPEN, true);
  }

  /** So a single quoted value never looks like shell syntax. */
  lemma QuotedValueHasNoSyntax(p: Printer, value: string)
    requires p.Target() == Posix
    ensures !ContainsShellSyntax(Print(p, value))
  {
    SyntaxOfPrinted(p, [value]);
    PrintFirst(p, [value]);
  }
}
