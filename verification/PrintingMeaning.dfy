/** How words are printed (shell_quote.rs, shell_display.rs, hook.rs): bare where only listed characters occur, and
    otherwise between marks, with every mark inside replaced. */
module PrintingMeaning {
  import opened Sequences
  import opened ShellQuote
  import opened ShellSplit
  import opened Text

  /** What stands between the occurrences of a character. */
  function Between(s: string, c: char): (parts: seq<string>)
    ensures parts != []
  {
    if s == "" then [""]
    else if s[0] == c then [""] + Between(s[1..], c)
    else [[s[0]] + Between(s[1..], c)[0]] + Between(s[1..], c)[1..]
  }

  /** The text with every occurrence of a character replaced. */
  function Replaced(s: string, c: char, code: string): string {
    Join(Between(s, c), code)
  }

  function CodeFor(c: char, code: string): char -> string {
    (x: char) => if x == c then code else [x]
  }

  lemma JoinBehind(first: string, parts: seq<string>, code: string)
    requires parts != []
    ensures Join([first + parts[0]] + parts[1..], code) == first + Join(parts, code)
  {
    var longer := [first + parts[0]] + parts[1..];
    assert longer[1..] == parts[1..];
    if |parts| > 1 {
      Regroup(first, parts[0], code);
      Regroup(first, parts[0] + code, Join(parts[1..], code));
    }
  }

  lemma {:induction false} ReplacedIsFlatMap(s: string, c: char, code: string)
    ensures Replaced(s, c, code) == FlatMap(s, CodeFor(c, code))
  {
    if s != "" {
      var parts := Between(s[1..], c);
      ReplacedIsFlatMap(s[1..], c, code);
      if s[0] == c {
        assert ([""] + parts)[1..] == parts;
        assert Join([""] + parts, code) == "" + code + Join(parts, code);
        assert "" + code == code;
      } else {
        JoinBehind([s[0]], parts, code);
      }
    }
  }

  lemma {:induction false} SameCodes(s: string, f: char -> string, g: char -> string)
    requires forall c :: c in s ==> f(c) == g(c)
    ensures FlatMap(s, f) == FlatMap(s, g)
  {
    if s != "" {
      assert s[0] in s && forall c :: c in s[1..] ==> c in s;
      SameCodes(s[1..], f, g);
    }
  }

  /** The characters that a printer leaves bare, besides ASCII letters and digits. */
  function BareMarks(p: Printer): string {
    match p
    case QuoteAs(Posix) => "-_./:@%+="
    case QuoteAs(Cmd) => "-_./:\\@+="
    case DisplayAs(Posix) => "-_./:,=@%"
    case DisplayAs(_) => "-_./:,=@\\"
    case _ => ""
  }

  /** A word that is printed bare: printers for PowerShell and the hook quote everything. */
  predicate StaysBare(p: Printer, arg: string) {
    && arg != "" && p != QuoteAs(PowerShell) && p != SingleQuote
    && forall i :: 0 <= i < |arg| ==>
         || '0' <= arg[i] <= '9' || 'A' <= arg[i] <= 'Z' || 'a' <= arg[i] <= 'z'
         || arg[i] in BareMarks(p)
  }

  /** What a quotation mark inside the quotes is replaced with. */
  function MarkCode(p: Printer): string {
    match p
    case QuoteAs(Posix) => "'\"'\"'"
    case SingleQuote => "'\"'\"'"
    case DisplayAs(Posix) => "'\\''"
    case QuoteAs(Cmd) => "\"\""
    case DisplayAs(Cmd) => "\"\""
    case _ => "''"
  }

  lemma SafeIsBare(p: Printer, arg: string)
    ensures StaysBare(p, arg) <==> arg != "" && AllSafe(p, arg)
  {
    forall i | 0 <= i < |arg| && p != QuoteAs(PowerShell) && p != SingleQuote
      ensures p.Safe(arg[i]) <==>
              || '0' <= arg[i] <= '9' || 'A' <= arg[i] <= 'Z' || 'a' <= arg[i] <= 'z'
              || arg[i] in BareMarks(p)
    {
    }
    if arg != "" {
      assert p == QuoteAs(PowerShell) || p == SingleQuote ==> !p.Safe(arg[0]);
    }
  }

  lemma EscapedIsReplaced(p: Printer, arg: string)
    requires p != QuoteAs(Cmd)
    ensures Escaped(p, arg) == Replaced(arg, if p.Target() == Cmd then '"' else '\'', MarkCode(p))
  {
    var mark := if p.Target() == Cmd then '"' else '\'';
    ReplacedIsFlatMap(arg, mark, MarkCode(p));
    SameCodes(arg, p.Escape, CodeFor(mark, MarkCode(p)));
  }

  /** How a word is printed, by all printers but that for execution on cmd. */
  lemma PrintMeans(p: Printer, arg: string)
    requires p != QuoteAs(Cmd)
    ensures var mark := if p.Target() == Cmd then '"' else '\'';
            Print(p, arg) == if StaysBare(p, arg) then arg else [mark] + Replaced(arg, mark, MarkCode(p)) + [mark]
  {
    SafeIsBare(p, arg);
    EscapedIsReplaced(p, arg);
  }

  lemma {:induction false} FlatMapTwice(s: string, f: char -> string, g: char -> string)
    ensures FlatMap(FlatMap(s, f), g) == FlatMap(s, (c: char) => FlatMap(f(c), g))
  {
    if s != "" {
      FlatMapTwice(s[1..], f, g);
      FlatMapConcat(f(s[0]), FlatMap(s[1..], f), g);
    }
  }

  lemma {:induction false} FlatMapConcat(a: string, b: string, f: char -> string)
    ensures FlatMap(a + b, f) == FlatMap(a, f) + FlatMap(b, f)
  {
    if a == "" {
      assert a + b == b;
    } else {
      assert (a + b)[1..] == a[1..] + b;
      FlatMapConcat(a[1..], b, f);
    }
  }

  /** On cmd, for execution, quotation marks, percent signs and carets are doubled. */
  lemma CmdPrintMeans(arg: string)
    ensures Print(QuoteAs(Cmd), arg) ==
            if StaysBare(QuoteAs(Cmd), arg) then arg
            else "\"" + Replaced(Replaced(Replaced(arg, '"', "\"\""), '%', "%%"), '^', "^^") + "\""
  {
    var quotes, percents, carets := CodeFor('"', "\"\""), CodeFor('%', "%%"), CodeFor('^', "^^");
    SafeIsBare(QuoteAs(Cmd), arg);
    ReplacedIsFlatMap(arg, '"', "\"\"");
    var once := FlatMap(arg, quotes);
    ReplacedIsFlatMap(once, '%', "%%");
    var twice := FlatMap(once, percents);
    ReplacedIsFlatMap(twice, '^', "^^");
    FlatMapTwice(arg, quotes, percents);
    var both := (c: char) => FlatMap(quotes(c), percents);
    FlatMapTwice(arg, both, carets);
    forall c | c in arg
      ensures FlatMap(both(c), carets) == QuoteAs(Cmd).Escape(c)
    {
      CodesOnce(c);
    }
    SameCodes(arg, (c: char) => FlatMap(both(c), carets), QuoteAs(Cmd).Escape);
  }

  lemma FlatMapOne(c: char, f: char -> string)
    ensures FlatMap([c], f) == f(c) && FlatMap([c, c], f) == f(c) + f(c)
  {
    assert [c][1..] == [] && [c, c][1..] == [c];
    assert FlatMap([c], f) == f(c) + "" == f(c);
  }

  lemma CodesOnce(c: char)
    ensures var (quotes, percents, carets) := (CodeFor('"', "\"\""), CodeFor('%', "%%"), CodeFor('^', "^^"));
            FlatMap(FlatMap(quotes(c), percents), carets) == QuoteAs(Cmd).Escape(c)
  {
    var quotes, percents, carets := CodeFor('"', "\"\""), CodeFor('%', "%%"), CodeFor('^', "^^");
    FlatMapOne(c, percents);
    FlatMapOne(c, carets);
  }
}
