/** Detecting shell operators (shell_parse.rs) and shell syntax (shell_quote.rs) in a command. */
module ShellSyntax {
  import opened ShellOperators
  import opened ShellSplit
  import opened Text
  import opened Wrappers

  datatype Feature = AndList | OrList | Pipeline | Sequence | Redirect | Subshell

  /** The operator at a bare character, and whether it takes the next character as well. */
  function FeatureAt(ch: char, next: Option<char>): (r: (Option<Feature>, nat))
    ensures r.1 <= 1 && (r.1 == 1 ==> next.Some?)
  {
    if ch == '&' && next == Some('&') then (Some(AndList), 1)
    else if ch == '|' && next == Some('|') then (Some(OrList), 1)
    else if ch == '|' then (Some(Pipeline), 0)
    else if ch == ';' then (Some(Sequence), 0)
    else if ch == '>' || ch == '<' then (Some(Redirect), 0)
    else if ch == '$' && next == Some('(') then (Some(Subshell), 1)
    else if ch == '`' then (Some(Subshell), 0)
    else (None, 0)
  }

  function AddNew(features: seq<Feature>, f: Option<Feature>): seq<Feature> {
    if f.None? || f.value in features then features else features + [f.value]
  }

  /** The operators of `s` added to those found before, each once, in order of first appearance. */
  function Collect(features: seq<Feature>, s: string, q: Quoting): seq<Feature>
    decreases |s|
  {
    if s == "" then features
    else if Bare(q, s[0]) then
      var (f, extra) := FeatureAt(s[0], First(s[1..]));
      Collect(AddNew(features, f), s[1 + extra..], OPEN)
    else Collect(features, s[1..], Advance(q, s[0]))
  }

  lemma {:induction false} CollectToBare(features: seq<Feature>, s: string, q: Quoting)
    ensures var n := BareAt(s, q);
            Collect(features, s, q) == if n == |s| then features else Collect(features, s[n..], OPEN)
    decreases |s|
  {
    if s == "" {
    } else if Bare(q, s[0]) {
      assert s[0..] == s;
    } else {
      CollectToBare(features, s[1..], Advance(q, s[0]));
    }
  }

  /** What the cursor's answer means for the features still to be found, when the next bare character is `n`
      characters on and `whole` is what the rest gives from there. */
  lemma CollectAt(whole: seq<Feature>, features: seq<Feature>, command: string, pos: nat, n: nat,
                  found: Option<(nat, char, Option<char>)>)
    requires pos + n <= |command| && IsBareAt(command, pos + n, found)
    requires whole == if n == |command[pos..]| then features else Collect(features, command[pos..][n..], OPEN)
    ensures CollectedTo(whole, features, command, found)
  {
    if found.Some? {
      var s := command[pos..][n..];
      assert s[0] == command[pos + n] && s[1..] == command[pos + n + 1..];
      var (f, extra) := FeatureAt(found.value.1, found.value.2);
      assert s[1 + extra..] == command[pos + n + 1 + extra..];
    }
  }

  ghost predicate CollectedTo(whole: seq<Feature>, features: seq<Feature>, command: string,
                              found: Option<(nat, char, Option<char>)>)
  {
    match found
    case None => whole == features
    case Some((at, ch, next)) =>
      var (f, extra) := FeatureAt(ch, next);
      at + 1 + extra <= |command| && whole == Collect(AddNew(features, f), command[at + 1 + extra..], OPEN)
  }

  lemma CollectAnswer(features: seq<Feature>, command: string, pos: nat, found: Option<(nat, char, Option<char>)>)
    requires pos <= |command| && Reports(command, pos, OPEN, found)
    ensures CollectedTo(Collect(features, command[pos..], OPEN), features, command, found)
  {
    CollectToBare(features, command[pos..], OPEN);
    CollectAt(Collect(features, command[pos..], OPEN), features, command, pos, BareAt(command[pos..], OPEN), found);
  }

  method RawShellOperatorFeatures(command: string) returns (features: seq<Feature>)
    ensures features == Collect([], command, OPEN)
  {
    ghost var whole := Collect([], command, OPEN);
    features := [];
    var cursor := new QuoteCursor(command);
    assert command[0..] == command;
    while true
      invariant fresh(cursor) && cursor.Valid() && cursor.command == command && cursor.State() == OPEN
      invariant whole == Collect(features, command[cursor.pos..], OPEN)
      decreases |command| - cursor.pos
    {
      ghost var pos := cursor.pos;
      var found := cursor.NextUnquoted();
      CollectAnswer(features, command, pos, found);
      if found.None? {
        return;
      }
      var (f, extra) := FeatureAt(found.value.1, found.value.2);
      if extra == 1 {
        cursor.Skip();
      }
      features := AddNew(features, f);
    }
  }

  // ----- shell syntax -----

  /** Whether a character that neither quotes nor is quoted away makes the value need a shell. */
  predicate StartsSyntax(quote: Option<char>, ch: char, next: Option<char>, atWordStart: bool) {
    || (quote != Some('\'') && ch == '$' && next.Some? &&
        (next.value == '(' || next.value == '{' || next.value == '_' || IsAsciiAlphabetic(next.value)))
    || (quote == None && (ch == '|' || ch == ';' || ch == '>' || ch == '<' || ch == '`' || ch == '\n'))
    || (quote == None && ch == '&' && next == Some('&'))
    || (quote == None && ch == '~' && atWordStart &&
        (next.None? || next.value == '/' || IsWhitespace(next.value) || IsAsciiAlphanumeric(next.value)))
  }

  function SyntaxFrom(groups: bool, s: string, quote: Option<char>, escaped: bool, atWordStart: bool): bool {
    if s == "" then false
    else
      var ch, rest := s[0], s[1..];
      var toggled := ToggleQuote(quote, ch, groups);
      if escaped then SyntaxFrom(groups, rest, quote, false, false)
      else if ch == '\\' && quote != Some('\'') then SyntaxFrom(groups, rest, quote, true, false)
      else if toggled.0 then SyntaxFrom(groups, rest, toggled.1, false, false)
      else if StartsSyntax(quote, ch, First(rest), atWordStart) then true
      else SyntaxFrom(groups, rest, quote, false, quote == None && IsWhitespace(ch))
  }

  predicate IsNameStart(c: char) {
    c == '_' || IsAsciiAlphabetic(c)
  }

  /** `NAME=...` where the name is a shell identifier that ends at the first `=`. */
  predicate IsPosixEnvAssignment(word: string) {
    word != "" && IsNameStart(word[0]) &&
    exists n :: 0 < n < |word| && word[n] == '=' &&
                forall i :: 0 < i < n ==> word[i] == '_' || IsAsciiAlphanumeric(word[i])
  }

  predicate StartsWithPosixEnvAssignment(value: string) {
    var words := Words(Posix, value);
    |words| > 1 && IsPosixEnvAssignment(words[0])
  }

  /** `contains_shell_syntax` on a posix host. */
  predicate ContainsShellSyntax(value: string) {
    StartsWithPosixEnvAssignment(value) || SyntaxFrom(true, value, None, false, true)
  }

  method CheckPosixEnvAssignment(word: string) returns (r: bool)
    ensures r == IsPosixEnvAssignment(word)
  {
    var n := 0;
    while n < |word| && word[n] != '='
      invariant n <= |word| && forall i :: 0 <= i < n ==> word[i] != '='
    {
      n := n + 1;
    }
    if n == |word| || n == 0 || !IsNameStart(word[0]) {
      return false;
    }
    r := true;
    for k := 1 to n
      invariant r ==> forall i :: 0 < i < k ==> word[i] == '_' || IsAsciiAlphanumeric(word[i])
      invariant !r ==> exists i :: 0 < i < n && !(word[i] == '_' || IsAsciiAlphanumeric(word[i]))
    {
      if !(word[k] == '_' || IsAsciiAlphanumeric(word[k])) {
        r := false;
      }
    }
  }

  method DetectShellSyntax(value: string) returns (r: bool)
    ensures r == ContainsShellSyntax(value)
  {
    var words := SplitCommandString(value, Posix);
    if |words| > 1 {
      var assignment := CheckPosixEnvAssignment(words[0]);
      if assignment {
        return true;
      }
    }
    r := ScanForSyntax(value, true);
  }

  method ScanForSyntax(value: string, groups: bool) returns (r: bool)
    ensures r == SyntaxFrom(groups, value, None, false, true)
  {
    var quote: Option<char> := None;
    var escaped, atWordStart := false, true;
    var i := 0;
    assert value[0..] == value;
    while i < |value|
      invariant i <= |value|
      invariant SyntaxFrom(groups, value[i..], quote, escaped, atWordStart) ==
                SyntaxFrom(groups, value, None, false, true)
    {
      var ch := value[i];
      assert value[i..][1..] == value[i + 1..];
      i := i + 1;
      var toggled := ToggleQuote(quote, ch, groups);
      if escaped {
        escaped := false;
      } else if ch == '\\' && quote != Some('\'') {
        escaped := true;
      } else if toggled.0 {
        quote := toggled.1;
      } else {
        var next := First(value[i..]);
        if StartsSyntax(quote, ch, next, atWordStart) {
          return true;
        }
        if quote == None {
          atWordStart := IsWhitespace(ch);
          continue;
        }
      }
      atWordStart := false;
    }
    r := false;
  }
}
