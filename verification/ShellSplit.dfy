/** The command-string splitter (shell_quote.rs) on the platforms `posix`, `cmd` and `powershell`. */
module ShellSplit {
  import opened Text
  import opened Wrappers

  datatype Platform = Posix | Cmd | PowerShell

  /** What distinguishes the platforms for the splitter. */
  datatype Grammar = Grammar(preserveBackslashes: bool, singleQuoteGroups: bool, doubledQuoteEscape: Option<char>)

  function GrammarOf(platform: Platform): Grammar {
    match platform
    case Posix => Grammar(false, true, None)
    case Cmd => Grammar(true, false, Some('"'))
    case PowerShell => Grammar(true, true, Some('\''))
  }

  predicate OpensQuote(ch: char, singleQuoteGroups: bool) {
    ch == '"' || (ch == '\'' && singleQuoteGroups)
  }

  /** Whether a character opens or closes a quote, and the quote afterwards. */
  function ToggleQuote(quote: Option<char>, ch: char, singleQuoteGroups: bool): (r: (bool, Option<char>)) {
    if quote == Some(ch) then (true, None)
    else if quote == None && OpensQuote(ch, singleQuoteGroups) then (true, Some(ch))
    else (false, quote)
  }

  /** Where the scan stands: the open quote, a pending escape, and the word being built. */
  datatype Scan = Scan(quote: Option<char>, escaped: bool, current: string, tokenStarted: bool, out: seq<string>)

  const NOTHING_READ := Scan(None, false, "", false, [])

  function Push(scan: Scan, text: string): Scan {
    scan.(escaped := false, current := scan.current + text, tokenStarted := true)
  }

  function First(s: string): Option<char> {
    if s == "" then None else Some(s[0])
  }

  predicate EscapableInDouble(next: Option<char>) {
    next in {Some('$'), Some('`'), Some('"'), Some('\\')}
  }

  /** One pass of the loop over a non-empty rest: the new state, and how many characters it took. */
  function Step(g: Grammar, scan: Scan, ch: char, next: Option<char>): (r: (Scan, nat))
    ensures 1 <= r.1 <= 2 && (r.1 == 2 ==> next.Some?)
  {
    if scan.escaped then (Push(scan, [ch]), 1)
    else if ch == '\\' && scan.quote != Some('\'') && !g.preserveBackslashes then
      if scan.quote == Some('"') && !EscapableInDouble(next) then (Push(scan, "\\"), 1)
      else (scan.(escaped := true, tokenStarted := true), 1)
    else if scan.quote == Some(ch) && g.doubledQuoteEscape == Some(ch) && next == Some(ch) then (Push(scan, [ch]), 2)
    else if ToggleQuote(scan.quote, ch, g.singleQuoteGroups).0 then
      (scan.(quote := ToggleQuote(scan.quote, ch, g.singleQuoteGroups).1, tokenStarted := true), 1)
    else if scan.quote == None && IsWhitespace(ch) then
      (if scan.tokenStarted then Scan(None, false, "", false, scan.out + [scan.current]) else scan, 1)
    else (Push(scan, [ch]), 1)
  }

  function Finish(scan: Scan): seq<string> {
    var current := if scan.escaped then scan.current + "\\" else scan.current;
    if scan.tokenStarted then scan.out + [current] else scan.out
  }

  function Run(g: Grammar, rest: string, scan: Scan): seq<string>
    decreases |rest|
  {
    if rest == "" then Finish(scan)
    else
      var step := Step(g, scan, rest[0], First(rest[1..]));
      Run(g, rest[step.1..], step.0)
  }

  /** The words of a command string. */
  function Words(platform: Platform, command: string): seq<string> {
    Run(GrammarOf(platform), command, NOTHING_READ)
  }

  method SplitCommandString(command: string, platform: Platform) returns (out: seq<string>)
    ensures out == Words(platform, command)
  {
    var preserveBackslashes := platform != Posix;
    var singleQuoteGroups := platform != Cmd;
    var doubledQuoteEscape := match platform case Posix => None case Cmd => Some('"') case PowerShell => Some('\'');
    out := [];
    var current := "";
    var quote: Option<char> := None;
    var escaped, tokenStarted := false, false;
    var i := 0;
    while i < |command|
      invariant i <= |command|
      invariant Run(GrammarOf(platform), command[i..], Scan(quote, escaped, current, tokenStarted, out)) ==
                Words(platform, command)
    {
      var ch := command[i];
      i := i + 1;
      assert command[i - 1..][1..] == command[i..];
      var next := First(command[i..]);
      var toggled := ToggleQuote(quote, ch, singleQuoteGroups);
      if escaped {
        current := current + [ch];
        escaped := false;
      } else if ch == '\\' && quote != Some('\'') && !preserveBackslashes {
        if quote == Some('"') && !EscapableInDouble(next) {
          current := current + "\\";
        } else {
          escaped := true;
        }
      } else if quote == Some(ch) && doubledQuoteEscape == Some(ch) && next == Some(ch) {
        current := current + [ch];
        i := i + 1;
        assert command[i - 2..][2..] == command[i..];
      } else if toggled.0 {
        quote := toggled.1;
      } else if quote == None && IsWhitespace(ch) {
        if tokenStarted {
          out := out + [current];
          current := "";
          tokenStarted := false;
        }
        continue;
      } else {
        current := current + [ch];
      }
      tokenStarted := true;
    }
    if escaped {
      current := current + "\\";
    }
    if tokenStarted {
      out := out + [current];
    }
  }

  /** One step of the scan, for a character at the front of a rest. */
  lemma RunOne(g: Grammar, ch: char, rest: string, scan: Scan)
    ensures var step := Step(g, scan, ch, First(rest));
            Run(g, [ch] + rest, scan) == Run(g, ([ch] + rest)[step.1..], step.0) &&
            (step.1 == 1 ==> Run(g, [ch] + rest, scan) == Run(g, rest, step.0))
  {
    assert ([ch] + rest)[1..] == rest;
  }
}
