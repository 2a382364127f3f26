/** The printers of shell words (shell_quote.rs, shell_display.rs, hook.rs), and the round trips between
    them and the splitter. */
module ShellQuote {
  import opened Sequences
  import opened ShellSplit
  import opened Sorting
  import opened Text
  import opened Wrappers

  /** The seven ways the program writes a word: three for execution, three for display, and the hook's own. */
  datatype Printer = QuoteAs(platform: Platform) | DisplayAs(platform: Platform) | SingleQuote
  {
    function Target(): Platform {
      if SingleQuote? then Posix else platform
    }

    function Mark(): char {
      if Target() == Cmd then '"' else '\''
    }

    /** The characters that may stand outside quotes. */
    predicate Safe(c: char) {
      match this
      case QuoteAs(Posix) => IsAsciiAlphanumeric(c) || c in {'-', '_', '.', '/', ':', '@', '%', '+', '='}
      case QuoteAs(Cmd) => IsAsciiAlphanumeric(c) || c in {'-', '_', '.', '/', ':', '\\', '@', '+', '='}
      case QuoteAs(PowerShell) => false
      case DisplayAs(Posix) => IsAsciiAlphanumeric(c) || c in {'-', '_', '.', '/', ':', ',', '=', '@', '%'}
      case DisplayAs(_) => IsAsciiAlphanumeric(c) || c in {'-', '_', '.', '/', ':', ',', '=', '@', '\\'}
      case SingleQuote => false
    }

    /** What a character becomes inside the quotes. */
    function Escape(c: char): string {
      match this
      case QuoteAs(Cmd) => if c == '"' || c == '%' || c == '^' then [c, c] else [c]
      case DisplayAs(Cmd) => if c == '"' then "\"\"" else [c]
      case DisplayAs(Posix) => if c == '\'' then "'\\''" else [c]
      case QuoteAs(Posix) => if c == '\'' then "'\"'\"'" else [c]
      case SingleQuote => if c == '\'' then "'\"'\"'" else [c]
      case _ => if c == '\'' then "''" else [c]
    }

    /** What the splitter makes of it again. */
    function Image(c: char): string {
      if this == QuoteAs(Cmd) && (c == '%' || c == '^') then [c, c] else [c]
    }
  }

  predicate AllSafe(p: Printer, arg: string) {
    forall i :: 0 <= i < |arg| ==> p.Safe(arg[i])
  }

  /** The codes of the characters, one after the other. */
  function FlatMap(arg: string, code: char -> string): string {
    if arg == "" then "" else code(arg[0]) + FlatMap(arg[1..], code)
  }

  function Escaped(p: Printer, arg: string): string {
    FlatMap(arg, p.Escape)
  }

  /** A word as written by a printer: bare when it is not empty and safe, quoted otherwise. */
  function Print(p: Printer, arg: string): string {
    if arg != "" && AllSafe(p, arg) then arg else [p.Mark()] + Escaped(p, arg) + [p.Mark()]
  }

  /** The command line for a list of words. */
  function PrintAll(p: Printer, args: seq<string>): string {
    Join(Mapped(args, (arg: string) => Print(p, arg)), " ")
  }

  function QuoteFor(platform: Platform, args: seq<string>): string {
    PrintAll(QuoteAs(platform), args)
  }

  function DisplayCommand(argv: seq<string>, platform: Platform): string {
    PrintAll(DisplayAs(platform), argv)
  }

  method QuoteWindowsCmd(value: string) returns (quoted: string)
    ensures quoted == Print(QuoteAs(Cmd), value)
  {
    if value == "" {
      return "\"\"";
    }
    if AllSafe(QuoteAs(Cmd), value) {
      return value;
    }
    quoted := "\"";
    for i := 0 to |value|
      invariant quoted + Escaped(QuoteAs(Cmd), value[i..]) == "\"" + Escaped(QuoteAs(Cmd), value)
    {
      assert value[i..][1..] == value[i + 1..];
      match value[i]
      case '"' => quoted := quoted + "\"\"";
      case '%' => quoted := quoted + "%%";
      case '^' => quoted := quoted + "^^";
      case ch => quoted := quoted + [ch];
    }
    quoted := quoted + "\"";
  }

  // ----- splitting undoes printing -----

  /** A whole word as the splitter reads it back. */
  function Imaged(p: Printer, arg: string): string {
    FlatMap(arg, p.Image)
  }

  function Grammatical(p: Printer): Grammar {
    GrammarOf(p.Target())
  }

  /** Nothing read yet after the words `out`. */
  function Idle(out: seq<string>): Scan {
    Scan(None, false, "", false, out)
  }

  function InWord(current: string, out: seq<string>): Scan {
    Scan(None, false, current, true, out)
  }

  function InQuotes(p: Printer, current: string, out: seq<string>): Scan {
    Scan(Some(p.Mark()), false, current, true, out)
  }

  predicate EndsWord(rest: string) {
    rest == "" || rest[0] == ' '
  }

  /** If each code is read back as the image of its character, codes in a row are read back as the images. */
  lemma {:induction false} CodesReadBack<R>(read: (string, string) -> R, arg: string, code: char -> string,
                                            image: char -> string,
                                            rest: string, current: string)
    requires forall c, after, before | c in arg :: read(code(c) + after, before) == read(after, before + image(c))
    ensures read(FlatMap(arg, code) + rest, current) == read(rest, current + FlatMap(arg, image))
  {
    if arg == "" {
      assert FlatMap(arg, code) + rest == rest && current + FlatMap(arg, image) == current;
    } else {
      Regroup(code(arg[0]), FlatMap(arg[1..], code), rest);
      Regroup(current, image(arg[0]), FlatMap(arg[1..], image));
      CodesReadBack(read, arg[1..], code, image, rest, current + image(arg[0]));
    }
  }

  /** A step that takes one character. */
  lemma StepTo(g: Grammar, ch: char, rest: string, scan: Scan, after: Scan)
    requires Step(g, scan, ch, First(rest)) == (after, 1)
    ensures Run(g, [ch] + rest, scan) == Run(g, rest, after)
  {
    RunOne(g, ch, rest, scan);
  }

  lemma SafeInWord(p: Printer, c: char, rest: string, current: string, out: seq<string>)
    requires p.Safe(c)
    ensures Run(Grammatical(p), [c] + rest, InWord(current, out)) ==
            Run(Grammatical(p), rest, InWord(current + [c], out))
  {
    StepTo(Grammatical(p), c, rest, InWord(current, out), InWord(current + [c], out));
  }

  lemma SafeOpensWord(p: Printer, c: char, rest: string, out: seq<string>)
    requires p.Safe(c)
    ensures Run(Grammatical(p), [c] + rest, Idle(out)) == Run(Grammatical(p), rest, InWord([c], out))
  {
    assert "" + [c] == [c];
    StepTo(Grammatical(p), c, rest, Idle(out), InWord([c], out));
  }

  lemma {:induction false} FlatMapSame(arg: string)
    ensures FlatMap(arg, c => [c]) == arg
  {
    if arg != "" {
      FlatMapSame(arg[1..]);
    }
  }

  lemma {:induction false} SafeImages(p: Printer, arg: string)
    requires AllSafe(p, arg)
    ensures Imaged(p, arg) == arg
  {
    if arg != "" {
      assert p.Safe(arg[0]) && p.Image(arg[0]) == [arg[0]];
      SafeImages(p, arg[1..]);
    }
  }

  lemma BareTailReadsBack(p: Printer, tail: string, rest: string, current: string, out: seq<string>)
    requires forall c :: c in tail ==> p.Safe(c)
    ensures Run(Grammatical(p), tail + rest, InWord(current, out)) ==
            Run(Grammatical(p), rest, InWord(current + tail, out))
  {
    var g := Grammatical(p);
    var read := (text, before) => Run(g, text, InWord(before, out));
    forall c, after, before | c in tail
      ensures read([c] + after, before) == read(after, before + [c])
    {
      SafeInWord(p, c, after, before, out);
    }
    CodesReadBack(read, tail, c => [c], c => [c], rest, current);
    FlatMapSame(tail);
  }

  lemma SafeRest(p: Printer, arg: string)
    requires arg != "" && AllSafe(p, arg)
    ensures p.Safe(arg[0]) && forall c :: c in arg[1..] ==> p.Safe(c)
  {
    forall c | c in arg[1..]
      ensures p.Safe(c)
    {
      var i :| 0 <= i < |arg[1..]| && arg[1..][i] == c;
      assert arg[i + 1] == c;
    }
  }

  lemma BareFromReadsBack(p: Printer, head: char, tail: string, rest: string, out: seq<string>)
    requires p.Safe(head) && forall c :: c in tail ==> p.Safe(c)
    ensures Run(Grammatical(p), [head] + tail + rest, Idle(out)) ==
            Run(Grammatical(p), rest, InWord([head] + tail, out))
  {
    Regroup([head], tail, rest);
    SafeOpensWord(p, head, tail + rest, out);
    BareTailReadsBack(p, tail, rest, [head], out);
  }

  lemma BareReadsBack(p: Printer, arg: string, rest: string, out: seq<string>)
    requires arg != "" && AllSafe(p, arg)
    ensures Run(Grammatical(p), arg + rest, Idle(out)) == Run(Grammatical(p), rest, InWord(arg, out))
  {
    SafeRest(p, arg);
    assert arg == [arg[0]] + arg[1..];
    BareFromReadsBack(p, arg[0], arg[1..], rest, out);
  }

  /** An ordinary character inside quotes. */
  lemma PlainInQuotes(p: Printer, c: char, rest: string, current: string, out: seq<string>)
    requires c != p.Mark()
    ensures Run(Grammatical(p), [c] + rest, InQuotes(p, current, out)) ==
            Run(Grammatical(p), rest, InQuotes(p, current + [c], out))
  {
    StepTo(Grammatical(p), c, rest, InQuotes(p, current, out), InQuotes(p, current + [c], out));
  }

  /** A doubled quotation mark inside quotes. */
  lemma DoubledMark(p: Printer, rest: string, current: string, out: seq<string>)
    requires p.Target() != Posix
    ensures Run(Grammatical(p), [p.Mark(), p.Mark()] + rest, InQuotes(p, current, out)) ==
            Run(Grammatical(p), rest, InQuotes(p, current + [p.Mark()], out))
  {
    var m := p.Mark();
    assert [m, m] + rest == [m] + ([m] + rest);
    RunOne(Grammatical(p), m, [m] + rest, InQuotes(p, current, out));
    assert ([m] + ([m] + rest))[2..] == rest;
  }

  /** Closing the quotes, an escaped apostrophe, and opening them again. */
  lemma EscapedApostrophe(rest: string, current: string, out: seq<string>)
    ensures Run(GrammarOf(Posix), "'\\''" + rest, Scan(Some('\''), false, current, true, out)) ==
            Run(GrammarOf(Posix), rest, Scan(Some('\''), false, current + "'", true, out))
  {
    var g := GrammarOf(Posix);
    var bare, after := InWord(current, out), InWord(current + "'", out);
    var open := ['\''] + rest;
    var escaped := ['\''] + open;
    var closed := ['\\'] + escaped;
    assert "'\\''" + rest == ['\''] + closed;
    StepTo(g, '\'', closed, bare.(quote := Some('\'')), bare);
    StepTo(g, '\\', escaped, bare, bare.(escaped := true));
    StepTo(g, '\'', open, bare.(escaped := true), after);
    StepTo(g, '\'', rest, after, after.(quote := Some('\'')));
  }

  lemma IntoDoubleQuotes(rest: string, current: string, out: seq<string>)
    ensures Run(GrammarOf(Posix), ['\''] + (['"'] + rest), Scan(Some('\''), false, current, true, out)) ==
            Run(GrammarOf(Posix), rest, Scan(Some('"'), false, current, true, out))
  {
    var g, bare := GrammarOf(Posix), InWord(current, out);
    StepTo(g, '\'', ['"'] + rest, bare.(quote := Some('\'')), bare);
    StepTo(g, '"', rest, bare, bare.(quote := Some('"')));
  }

  lemma OutOfDoubleQuotes(rest: string, current: string, out: seq<string>)
    ensures Run(GrammarOf(Posix), ['"'] + (['\''] + rest), Scan(Some('"'), false, current, true, out)) ==
            Run(GrammarOf(Posix), rest, Scan(Some('\''), false, current, true, out))
  {
    var g, bare := GrammarOf(Posix), InWord(current, out);
    StepTo(g, '"', ['\''] + rest, bare.(quote := Some('"')), bare);
    StepTo(g, '\'', rest, bare, bare.(quote := Some('\'')));
  }

  /** Closing the quotes, a double-quoted apostrophe, and opening them again. */
  lemma SplicedApostrophe(rest: string, current: string, out: seq<string>)
    ensures Run(GrammarOf(Posix), "'\"'\"'" + rest, Scan(Some('\''), false, current, true, out)) ==
            Run(GrammarOf(Posix), rest, Scan(Some('\''), false, current + "'", true, out))
  {
    var after := ['"'] + (['\''] + rest);
    var inner := ['\''] + after;
    assert "'\"'\"'" + rest == ['\''] + (['"'] + inner);
    IntoDoubleQuotes(inner, current, out);
    StepTo(GrammarOf(Posix), '\'', after,
           Scan(Some('"'), false, current, true, out), Scan(Some('"'), false, current + "'", true, out));
    OutOfDoubleQuotes(rest, current + "'", out);
  }

  /** The characters `quote_windows_cmd` doubles besides the quotation mark. */
  predicate DoubledByCmd(p: Printer, c: char) {
    p == QuoteAs(Cmd) && (c == '%' || c == '^')
  }

  lemma PairInQuotes(p: Printer, c: char, rest: string, current: string, out: seq<string>)
    requires c != p.Mark()
    ensures Run(Grammatical(p), [c, c] + rest, InQuotes(p, current, out)) ==
            Run(Grammatical(p), rest, InQuotes(p, current + [c, c], out))
  {
    assert [c, c] + rest == [c] + ([c] + rest);
    assert current + [c] + [c] == current + [c, c];
    PlainInQuotes(p, c, [c] + rest, current, out);
    PlainInQuotes(p, c, rest, current + [c], out);
  }

  lemma EscapeForms(p: Printer, c: char)
    ensures c != p.Mark() ==> p.Escape(c) == p.Image(c) == if DoubledByCmd(p, c) then [c, c] else [c]
    ensures c == p.Mark() && p.Target() != Posix ==> p.Escape(c) == [c, c]
    ensures c == p.Mark() ==> p.Image(c) == [c]
  {
  }

  lemma MarkReadsBack(p: Printer, rest: string, current: string, out: seq<string>)
    ensures Run(Grammatical(p), p.Escape(p.Mark()) + rest, InQuotes(p, current, out)) ==
            Run(Grammatical(p), rest, InQuotes(p, current + [p.Mark()], out))
  {
    if p.Target() != Posix {
      EscapeForms(p, p.Mark());
      DoubledMark(p, rest, current, out);
    } else if p == DisplayAs(Posix) {
      EscapedApostrophe(rest, current, out);
    } else {
      SplicedApostrophe(rest, current, out);
    }
  }

  lemma EscapeReadsBack(p: Printer, c: char, rest: string, current: string, out: seq<string>)
    ensures Run(Grammatical(p), p.Escape(c) + rest, InQuotes(p, current, out)) ==
            Run(Grammatical(p), rest, InQuotes(p, current + p.Image(c), out))
  {
    EscapeForms(p, c);
    if c == p.Mark() {
      MarkReadsBack(p, rest, current, out);
    } else if DoubledByCmd(p, c) {
      PairInQuotes(p, c, rest, current, out);
    } else {
      PlainInQuotes(p, c, rest, current, out);
    }
  }

  lemma EscapedReadsBack(p: Printer, arg: string, rest: string, out: seq<string>)
    ensures Run(Grammatical(p), Escaped(p, arg) + rest, InQuotes(p, "", out)) ==
            Run(Grammatical(p), rest, InQuotes(p, Imaged(p, arg), out))
  {
    var g := Grammatical(p);
    var read := (text, current) => Run(g, text, InQuotes(p, current, out));
    forall c, after, before | c in arg
      ensures read(p.Escape(c) + after, before) == read(after, before + p.Image(c))
    {
      EscapeReadsBack(p, c, after, before, out);
    }
    CodesReadBack(read, arg, p.Escape, p.Image, rest, "");
    assert "" + Imaged(p, arg) == Imaged(p, arg);
  }

  lemma QuotedReadsBack(p: Printer, arg: string, rest: string, out: seq<string>)
    requires EndsWord(rest)
    ensures Run(Grammatical(p), [p.Mark()] + Escaped(p, arg) + [p.Mark()] + rest, Idle(out)) ==
            Run(Grammatical(p), rest, InWord(Imaged(p, arg), out))
  {
    var m, g, inner := p.Mark(), Grammatical(p), Escaped(p, arg);
    var close := [m] + rest;
    assert [m] + inner + [m] + rest == [m] + (inner + close);
    StepTo(g, m, inner + close, Idle(out), InQuotes(p, "", out));
    EscapedReadsBack(p, arg, close, out);
    StepTo(g, m, rest, InQuotes(p, Imaged(p, arg), out), InWord(Imaged(p, arg), out));
  }

  /** A printed word at the front of a command line is read as one word. */
  lemma PrintedReadsBack(p: Printer, arg: string, rest: string, out: seq<string>)
    requires EndsWord(rest)
    ensures Run(Grammatical(p), Print(p, arg) + rest, Idle(out)) ==
            Run(Grammatical(p), rest, InWord(Imaged(p, arg), out))
  {
    if arg != "" && AllSafe(p, arg) {
      SafeImages(p, arg);
      BareReadsBack(p, arg, rest, out);
    } else {
      QuotedReadsBack(p, arg, rest, out);
    }
  }

  lemma PrintFirst(p: Printer, args: seq<string>)
    requires args != []
    ensures PrintAll(p, args) == if |args| == 1 then Print(p, args[0])
            else Print(p, args[0]) + ([' '] + PrintAll(p, args[1..]))
  {
    var words := Mapped(args, (arg: string) => Print(p, arg));
    assert words[1..] == Mapped(args[1..], (arg: string) => Print(p, arg));
    if |args| > 1 {
      Regroup(words[0], " ", Join(words[1..], " "));
    }
  }

  function AllImaged(p: Printer, args: seq<string>): seq<string> {
    Mapped(args, (arg: string) => Imaged(p, arg))
  }

  lemma AllImagedFirst(p: Printer, args: seq<string>)
    requires args != []
    ensures AllImaged(p, args) == [Imaged(p, args[0])] + AllImaged(p, args[1..])
  {
  }

  lemma SpaceEndsWord(g: Grammar, rest: string, current: string, out: seq<string>)
    ensures Run(g, [' '] + rest, InWord(current, out)) == Run(g, rest, Idle(out + [current]))
  {
    StepTo(g, ' ', rest, InWord(current, out), Idle(out + [current]));
  }

  lemma {:induction false} AllReadBack(p: Printer, args: seq<string>, out: seq<string>)
    ensures Run(Grammatical(p), PrintAll(p, args), Idle(out)) == out + AllImaged(p, args)
    decreases |args|
  {
    if args != [] {
      var read := Imaged(p, args[0]);
      PrintFirst(p, args);
      AllImagedFirst(p, args);
      if |args| == 1 {
        PrintedReadsBack(p, args[0], "", out);
        assert Print(p, args[0]) + "" == PrintAll(p, args);
      } else {
        var rest := PrintAll(p, args[1..]);
        PrintedReadsBack(p, args[0], [' '] + rest, out);
        SpaceEndsWord(Grammatical(p), rest, read, out);
        AllReadBack(p, args[1..], out + [read]);
      }
    }
  }

  lemma {:induction false} ImagedIsSame(p: Printer, arg: string)
    requires p != QuoteAs(Cmd)
    ensures Imaged(p, arg) == arg
  {
    if arg != "" {
      ImagedIsSame(p, arg[1..]);
    }
  }

  /** Splitting undoes printing, for every list of strings and every printer but the quoting one of `cmd`. */
  lemma SplitUndoesPrint(p: Printer, args: seq<string>)
    requires p != QuoteAs(Cmd)
    ensures Words(p.Target(), PrintAll(p, args)) == args
  {
    AllReadBack(p, args, []);
    forall i | 0 <= i < |args|
      ensures Imaged(p, args[i]) == args[i]
    {
      ImagedIsSame(p, args[i]);
    }
  }

  /** The words with each `%` and `^` doubled. */
  function Doubled(arg: string): string {
    if arg == "" then ""
    else (if arg[0] == '%' || arg[0] == '^' then [arg[0], arg[0]] else [arg[0]]) + Doubled(arg[1..])
  }

  lemma {:induction false} ImagedIsDoubled(arg: string)
    ensures Imaged(QuoteAs(Cmd), arg) == Doubled(arg)
  {
    if arg != "" {
      ImagedIsDoubled(arg[1..]);
    }
  }

  predicate HasDoubled(arg: string) {
    '%' in arg || '^' in arg
  }

  lemma HeadOrTail(arg: string, c: char)
    requires arg != ""
    ensures c in arg <==> c == arg[0] || c in arg[1..]
  {
    assert arg == [arg[0]] + arg[1..];
  }

  lemma {:induction false} DoubledGrows(arg: string)
    ensures |Doubled(arg)| >= |arg| && (|Doubled(arg)| > |arg| <==> HasDoubled(arg))
    ensures !HasDoubled(arg) ==> Doubled(arg) == arg
  {
    if arg != "" {
      DoubledGrows(arg[1..]);
      HeadOrTail(arg, '%');
      HeadOrTail(arg, '^');
    }
  }

  /** On `cmd` splitting gives the words back with every `%` and `^` doubled: the splitter does not undo that. */
  lemma SplitUndoesCmdQuote(args: seq<string>)
    ensures Words(Cmd, QuoteFor(Cmd, args)) == Mapped(args, Doubled)
  {
    AllReadBack(QuoteAs(Cmd), args, []);
    forall i | 0 <= i < |args|
      ensures Imaged(QuoteAs(Cmd), args[i]) == Doubled(args[i])
    {
      ImagedIsDoubled(args[i]);
    }
  }

  /** So quoting for `cmd` round-trips exactly when no word holds `%` or `^`. */
  lemma CmdRoundTripIff(args: seq<string>)
    ensures Words(Cmd, QuoteFor(Cmd, args)) == args <==> forall i :: 0 <= i < |args| ==> !HasDoubled(args[i])
  {
    SplitUndoesCmdQuote(args);
    forall i | 0 <= i < |args|
      ensures Doubled(args[i]) == args[i] <==> !HasDoubled(args[i])
    {
      DoubledGrows(args[i]);
    }
    if Mapped(args, Doubled) == args {
      forall i | 0 <= i < |args|
        ensures !HasDoubled(args[i])
      {
        assert Mapped(args, Doubled)[i] == args[i];
      }
    }
  }

  /** The command line a display printer shows can be split into the arguments it shows. */
  lemma SplitUndoesDisplay(argv: seq<string>, platform: Platform)
    ensures Words(platform, DisplayCommand(argv, platform)) == argv
  {
    SplitUndoesPrint(DisplayAs(platform), argv);
  }
}
