/** The language in which operators are looked for (shell_parse.rs), written as a grammar: every command is spelled by
    it, its features are those of the operators spelled, and it is split at them. */
module OperatorReading {
  import opened Sequences
  import opened ShellOperators
  import opened ShellSplit
  import opened ShellSyntax
  import opened Wrappers

  datatype Operator = AndIf | OrIf | Pipe | Semicolon | Less | Greater | DollarParen | Backquote

  function OperatorText(op: Operator): string {
    match op
    case AndIf => "&&"
    case OrIf => "||"
    case Pipe => "|"
    case Semicolon => ";"
    case Less => "<"
    case Greater => ">"
    case DollarParen => "$("
    case Backquote => "`"
  }

  function FeatureOf(op: Operator): Feature {
    match op
    case AndIf => AndList
    case OrIf => OrList
    case Pipe => Pipeline
    case Semicolon => Sequence
    case Less => Redirect
    case Greater => Redirect
    case DollarParen => Subshell
    case Backquote => Subshell
  }

  /** What stands between double quotes: a character by itself, or behind a backslash. */
  datatype Part = Itself(c: char) | Behind(c: char)

  /** What a command consists of: operators, other characters outside quotes, characters behind a backslash, and
      quotes. */
  datatype Token = Op(op: Operator) | Other(c: char) | Backslashed(c: char) | Single(s: string) |
      Double(parts: seq<Part>)

  function PartText(part: Part): string {
    match part case Itself(c) => [c] case Behind(c) => ['\\', c]
  }

  function PartsText(parts: seq<Part>): string {
    if parts == [] then "" else PartText(parts[0]) + PartsText(parts[1..])
  }

  function TokenText(t: Token): string {
    match t
    case Op(op) => OperatorText(op)
    case Other(c) => [c]
    case Backslashed(c) => ['\\', c]
    case Single(s) => "'" + s + "'"
    case Double(parts) => "\"" + PartsText(parts) + "\""
  }

  predicate PartsAllowed(parts: seq<Part>) {
    forall i :: 0 <= i < |parts| && parts[i].Itself? ==> parts[i].c != '"' && parts[i].c != '\\'
  }

  predicate Allowed(t: Token) {
    match t
    case Op(_) => true
    case Other(c) => c !in "'\"\\|;<>`"
    case Backslashed(_) => true
    case Single(s) => '\'' !in s
    case Double(parts) => PartsAllowed(parts)
  }

  /** A token is not the beginning of an operator that goes on behind it. */
  predicate MayStandBefore(t: Token, rest: string) {
    && (t == Op(Pipe) ==> First(rest) != Some('|'))
    && (t == Other('&') ==> First(rest) != Some('&'))
    && (t == Other('$') ==> First(rest) != Some('('))
  }

  /** How a command breaks off: outside quotes, behind a backslash, or inside quotes. */
  datatype Ending = Whole | Dangling | OpenSingle(s: string) | OpenDouble(parts: seq<Part>, dangling: bool)

  function EndingText(ending: Ending): string {
    match ending
    case Whole => ""
    case Dangling => "\\"
    case OpenSingle(s) => "'" + s
    case OpenDouble(parts, dangling) => "\"" + PartsText(parts) + if dangling then "\\" else ""
  }

  predicate EndingAllowed(ending: Ending) {
    match ending
    case Whole => true
    case Dangling => true
    case OpenSingle(s) => '\'' !in s
    case OpenDouble(parts, _) => PartsAllowed(parts)
  }

  function TokensText(tokens: seq<Token>, end: string): string {
    if tokens == [] then end else TokenText(tokens[0]) + TokensText(tokens[1..], end)
  }

  predicate TokensAllowed(tokens: seq<Token>, end: string) {
    tokens == [] ||
    (Allowed(tokens[0]) && MayStandBefore(tokens[0], TokensText(tokens[1..], end)) && TokensAllowed(tokens[1..], end))
  }

  // ----- no operator is found in quotes -----

  lemma Onward(q: Quoting, c: char, rest: string)
    requires !Bare(q, c)
    ensures BareAt([c] + rest, q) == 1 + BareAt(rest, Advance(q, c))
  {
    assert ([c] + rest)[1..] == rest;
  }

  lemma {:induction false} SingleIsPassed(s: string, rest: string)
    requires '\'' !in s
    ensures BareAt(s + rest, Quoting(Some('\''), false)) == |s| + BareAt(rest, Quoting(Some('\''), false))
  {
    if s == "" {
      assert s + rest == rest;
    } else {
      assert s + rest == [s[0]] + (s[1..] + rest);
      Onward(Quoting(Some('\''), false), s[0], s[1..] + rest);
      SingleIsPassed(s[1..], rest);
    }
  }

  lemma PartIsPassed(part: Part, rest: string)
    requires PartsAllowed([part])
    ensures BareAt(PartText(part) + rest, Quoting(Some('"'), false)) ==
            |PartText(part)| + BareAt(rest, Quoting(Some('"'), false))
  {
    var q := Quoting(Some('"'), false);
    assert [part][0] == part;
    match part
    case Itself(c) => Onward(q, c, rest);
    case Behind(c) =>
      assert ['\\', c] + rest == ['\\'] + ([c] + rest);
      Onward(q, '\\', [c] + rest);
      Onward(Quoting(Some('"'), true), c, rest);
  }

  lemma {:induction false} PartsArePassed(parts: seq<Part>, rest: string)
    requires PartsAllowed(parts)
    ensures BareAt(PartsText(parts) + rest, Quoting(Some('"'), false)) ==
            |PartsText(parts)| + BareAt(rest, Quoting(Some('"'), false))
  {
    if parts == [] {
      assert "" + rest == rest;
    } else {
      Regroup(PartText(parts[0]), PartsText(parts[1..]), rest);
      assert PartsAllowed([parts[0]]);
      PartIsPassed(parts[0], PartsText(parts[1..]) + rest);
      PartsArePassed(parts[1..], rest);
    }
  }

  lemma OpenSingleIsPassed(s: string, rest: string)
    requires '\'' !in s
    ensures BareAt("'" + s + rest, OPEN) == 1 + |s| + BareAt(rest, Quoting(Some('\''), false))
  {
    Regroup("'", s, rest);
    Onward(OPEN, '\'', s + rest);
    SingleIsPassed(s, rest);
  }

  lemma OpenDoubleIsPassed(parts: seq<Part>, rest: string)
    requires PartsAllowed(parts)
    ensures BareAt("\"" + PartsText(parts) + rest, OPEN) ==
            1 + |PartsText(parts)| + BareAt(rest, Quoting(Some('"'), false))
  {
    Regroup("\"", PartsText(parts), rest);
    Onward(OPEN, '"', PartsText(parts) + rest);
    PartsArePassed(parts, rest);
  }

  /** Quotes and characters behind a backslash. */
  predicate Hides(t: Token) {
    t.Backslashed? || t.Single? || t.Double?
  }

  lemma HiddenIsPassed(t: Token, rest: string)
    requires Hides(t) && Allowed(t)
    ensures BareAt(TokenText(t) + rest, OPEN) == |TokenText(t)| + BareAt(rest, OPEN)
  {
    match t
    case Backslashed(c) =>
      assert ['\\', c] + rest == ['\\'] + ([c] + rest);
      Onward(OPEN, '\\', [c] + rest);
      Onward(Quoting(None, true), c, rest);
    case Single(s) =>
      Regroup("'" + s, "'", rest);
      OpenSingleIsPassed(s, "'" + rest);
      Onward(Quoting(Some('\''), false), '\'', rest);
    case Double(parts) =>
      Regroup("\"" + PartsText(parts), "\"", rest);
      OpenDoubleIsPassed(parts, "\"" + rest);
      Onward(Quoting(Some('"'), false), '"', rest);
  }

  lemma EndingIsPassed(ending: Ending)
    requires EndingAllowed(ending)
    ensures BareAt(EndingText(ending), OPEN) == |EndingText(ending)|
  {
    match ending
    case Whole =>
    case Dangling => Onward(OPEN, '\\', "");
    case OpenSingle(s) =>
      OpenSingleIsPassed(s, "");
      assert "'" + s + "" == "'" + s;
    case OpenDouble(parts, dangling) =>
      var end := if dangling then "\\" else "";
      OpenDoubleIsPassed(parts, end);
      if dangling {
        Onward(Quoting(Some('"'), false), '\\', "");
      }
  }

  // ----- the features are those of the operators -----

  /** The features of the operators, each once, in order of first appearance. */
  function Features(found: seq<Feature>, tokens: seq<Token>): seq<Feature>
    decreases |tokens|
  {
    if tokens == [] then found
    else if tokens[0].Op? && FeatureOf(tokens[0].op) !in found then
      Features(found + [FeatureOf(tokens[0].op)], tokens[1..])
    else Features(found, tokens[1..])
  }

  lemma HiddenShowsNothing(found: seq<Feature>, t: Token, rest: string)
    requires Hides(t) && Allowed(t)
    ensures Collect(found, TokenText(t) + rest, OPEN) == Collect(found, rest, OPEN)
  {
    var text := TokenText(t) + rest;
    HiddenIsPassed(t, rest);
    CollectToBare(found, text, OPEN);
    CollectToBare(found, rest, OPEN);
    assert text[BareAt(text, OPEN)..] == rest[BareAt(rest, OPEN)..];
  }

  lemma OperatorShows(found: seq<Feature>, op: Operator, rest: string)
    requires MayStandBefore(Op(op), rest)
    ensures Collect(found, OperatorText(op) + rest, OPEN) == Collect(AddNew(found, Some(FeatureOf(op))), rest, OPEN)
  {
    var text := OperatorText(op);
    assert (text + rest)[0] == text[0];
    assert (text + rest)[|text|..] == rest;
    if |text| == 1 {
      assert (text + rest)[1..] == rest;
    } else {
      assert (text + rest)[1] == text[1];
    }
  }

  lemma OtherShowsNothing(found: seq<Feature>, c: char, rest: string)
    requires Allowed(Other(c)) && MayStandBefore(Other(c), rest)
    ensures Collect(found, [c] + rest, OPEN) == Collect(found, rest, OPEN)
  {
    assert ([c] + rest)[1..] == rest;
    assert c !in {'\'', '"', '\\', '|', ';', '<', '>', '`'};
  }

  lemma TokenShows(found: seq<Feature>, t: Token, rest: string)
    requires Allowed(t) && MayStandBefore(t, rest)
    ensures Collect(found, TokenText(t) + rest, OPEN) ==
            Collect(AddNew(found, if t.Op? then Some(FeatureOf(t.op)) else None), rest, OPEN)
  {
    match t
    case Op(op) => OperatorShows(found, op, rest);
    case Other(c) => OtherShowsNothing(found, c, rest);
    case _ => HiddenShowsNothing(found, t, rest);
  }

  lemma {:induction false} TokensShow(found: seq<Feature>, tokens: seq<Token>, ending: Ending)
    requires EndingAllowed(ending) && TokensAllowed(tokens, EndingText(ending))
    ensures Collect(found, TokensText(tokens, EndingText(ending)), OPEN) == Features(found, tokens)
    decreases |tokens|
  {
    if tokens == [] {
      EndingIsPassed(ending);
      CollectToBare(found, EndingText(ending), OPEN);
    } else {
      var t := tokens[0];
      TokenShows(found, t, TokensText(tokens[1..], EndingText(ending)));
      TokensShow(AddNew(found, if t.Op? then Some(FeatureOf(t.op)) else None), tokens[1..], ending);
    }
  }

  /** A feature is listed exactly when an operator of its kind is spelled, and none is listed twice. */
  lemma {:induction false} FeaturesMeaning(found: seq<Feature>, tokens: seq<Token>, f: Feature)
    requires forall i, k :: 0 <= i < k < |found| ==> found[i] != found[k]
    ensures var all := Features(found, tokens);
            && (f in all <==>
                f in found || exists i :: 0 <= i < |tokens| && tokens[i].Op? && FeatureOf(tokens[i].op) == f)
            && forall i, k :: 0 <= i < k < |all| ==> all[i] != all[k]
    decreases |tokens|
  {
    if tokens != [] {
      var t := tokens[0];
      FeaturesMeaning(AddNew(found, if t.Op? then Some(FeatureOf(t.op)) else None), tokens[1..], f);
      assert forall i :: 0 < i < |tokens| ==> tokens[i] == tokens[1..][i - 1];
    }
  }

  // ----- the pieces are what stands between the operators -----

  predicate Cuts(mode: Mode, t: Token) {
    t == Op(AndIf) || t == Op(OrIf) || t == Op(Semicolon) || (t == Op(Pipe) && mode == Segments)
  }

  /** The text of the tokens between operators that cut. */
  function Stretches(mode: Mode, tokens: seq<Token>, end: string): (r: seq<string>)
    ensures r != []
  {
    if tokens == [] then [end]
    else if Cuts(mode, tokens[0]) then [""] + Stretches(mode, tokens[1..], end)
    else Prepend(TokenText(tokens[0]), Stretches(mode, tokens[1..], end))
  }

  lemma SliceBehind(hidden: string, rest: string, m: nat)
    requires m <= |rest|
    ensures (hidden + rest)[|hidden| + m..] == rest[m..] && (hidden + rest)[..|hidden| + m] == hidden + rest[..m]
  {
  }

  lemma PassedIsKept(mode: Mode, hidden: string, rest: string)
    requires BareAt(hidden + rest, OPEN) == |hidden| + BareAt(rest, OPEN)
    ensures Pieces(mode, hidden + rest, OPEN) == Prepend(hidden, Pieces(mode, rest, OPEN))
  {
    var m := BareAt(rest, OPEN);
    PiecesToBare(mode, hidden + rest, OPEN);
    PiecesToBare(mode, rest, OPEN);
    SliceBehind(hidden, rest, m);
    if m < |rest| {
      PrependTwice(hidden, rest[..m], Pieces(mode, rest[m..], OPEN));
    }
  }

  lemma CharIsKept(mode: Mode, c: char, rest: string)
    requires Bare(OPEN, c) && CutLength(mode, c, First(rest)) == 0
    ensures Pieces(mode, [c] + rest, OPEN) == Prepend([c], Pieces(mode, rest, OPEN))
  {
    assert ([c] + rest)[1..] == rest;
  }

  lemma CutIsMade(mode: Mode, op: string, rest: string)
    requires op != "" && Bare(OPEN, op[0]) && CutLength(mode, op[0], First((op + rest)[1..])) == |op|
    ensures Pieces(mode, op + rest, OPEN) == [""] + Pieces(mode, rest, OPEN)
  {
    assert (op + rest)[|op|..] == rest;
  }

  lemma OperatorCuts(mode: Mode, op: Operator, rest: string)
    requires MayStandBefore(Op(op), rest) && Cuts(mode, Op(op))
    ensures Pieces(mode, OperatorText(op) + rest, OPEN) == [""] + Pieces(mode, rest, OPEN)
  {
    var text := OperatorText(op);
    if |text| == 1 {
      assert (text + rest)[1..] == rest;
    } else {
      assert (text + rest)[1] == text[1];
    }
    CutIsMade(mode, text, rest);
  }

  lemma OperatorIsKept(mode: Mode, op: Operator, rest: string)
    requires MayStandBefore(Op(op), rest) && !Cuts(mode, Op(op))
    ensures Pieces(mode, OperatorText(op) + rest, OPEN) == Prepend(OperatorText(op), Pieces(mode, rest, OPEN))
  {
    if op == DollarParen {
      assert "$(" + rest == ['$'] + (['('] + rest);
      CharIsKept(mode, '$', ['('] + rest);
      CharIsKept(mode, '(', rest);
      PrependTwice("$", "(", Pieces(mode, rest, OPEN));
      assert "$" + "(" == "$(";
    } else {
      CharIsKept(mode, OperatorText(op)[0], rest);
    }
  }

  lemma TokenInPieces(mode: Mode, t: Token, rest: string)
    requires Allowed(t) && MayStandBefore(t, rest)
    ensures Pieces(mode, TokenText(t) + rest, OPEN) ==
            if Cuts(mode, t) then [""] + Pieces(mode, rest, OPEN) else Prepend(TokenText(t), Pieces(mode, rest, OPEN))
  {
    match t
    case Op(op) =>
      if Cuts(mode, t) {
        OperatorCuts(mode, op, rest);
      } else {
        OperatorIsKept(mode, op, rest);
      }
    case Other(c) =>
      assert c !in {'\'', '"', '\\', '|', ';'};
      CharIsKept(mode, c, rest);
    case _ =>
      HiddenIsPassed(t, rest);
      PassedIsKept(mode, TokenText(t), rest);
  }

  lemma {:induction false} PiecesAreStretches(mode: Mode, tokens: seq<Token>, ending: Ending)
    requires EndingAllowed(ending) && TokensAllowed(tokens, EndingText(ending))
    ensures Pieces(mode, TokensText(tokens, EndingText(ending)), OPEN) == Stretches(mode, tokens, EndingText(ending))
  {
    if tokens == [] {
      EndingIsPassed(ending);
      PiecesToBare(mode, EndingText(ending), OPEN);
    } else {
      TokenInPieces(mode, tokens[0], TokensText(tokens[1..], EndingText(ending)));
      PiecesAreStretches(mode, tokens[1..], ending);
    }
  }

  // ----- every command is spelled -----

  lemma {:induction false} ReadParts(s: string) returns (parts: seq<Part>, n: nat)
    ensures PartsAllowed(parts) && n <= |s| && s[..n] == PartsText(parts)
    ensures s[n..] == "" || s[n..] == "\\" || s[n] == '"'
    decreases |s|
  {
    if s == "" || s[0] == '"' || s == "\\" {
      parts, n := [], 0;
    } else {
      var part := if s[0] == '\\' then Behind(s[1]) else Itself(s[0]);
      var m := |PartText(part)|;
      var others, k := ReadParts(s[m..]);
      parts, n := [part] + others, m + k;
      assert s[..n] == s[..m] + s[m..][..k];
      assert parts[1..] == others && s[n..] == s[m..][k..];
    }
  }

  lemma ReadSingle(s: string) returns (n: nat)
    ensures n <= |s| && '\'' !in s[..n] && (n < |s| ==> s[n] == '\'')
  {
    n := 0;
    while n < |s| && s[n] != '\''
      invariant n <= |s| && '\'' !in s[..n]
    {
      assert s[..n + 1] == s[..n] + [s[n]];
      n := n + 1;
    }
  }

  /** The token at the front of a text, or how the text breaks off when it holds no whole token. */
  datatype Front = Next(t: Token) | Last(ending: Ending)

  predicate IsFront(front: Front, s: string) {
    match front
    case Next(t) => Allowed(t) && TokenText(t) <= s && MayStandBefore(t, s[|TokenText(t)|..])
    case Last(ending) => EndingAllowed(ending) && EndingText(ending) == s
  }

  lemma FrontSingle(s: string) returns (front: Front)
    ensures IsFront(front, ['\''] + s)
  {
    var n := ReadSingle(s);
    if n == |s| {
      assert s[..n] == s;
      front := Last(OpenSingle(s));
    } else {
      front := Next(Single(s[..n]));
      assert ['\''] + s == "'" + s[..n] + "'" + s[n + 1..];
    }
  }

  lemma FrontDouble(s: string) returns (front: Front)
    ensures IsFront(front, ['"'] + s)
  {
    var parts, n := ReadParts(s);
    assert s == s[..n] + s[n..];
    if n == |s| || s[n..] == "\\" {
      front := Last(OpenDouble(parts, n < |s|));
      assert ['"'] + s == "\"" + s[..n] + s[n..];
    } else {
      front := Next(Double(parts));
      assert ['"'] + s == "\"" + s[..n] + "\"" + s[n + 1..];
    }
  }

  function CharToken(c: char): Token {
    match c
    case '|' => Op(Pipe)
    case ';' => Op(Semicolon)
    case '<' => Op(Less)
    case '>' => Op(Greater)
    case '`' => Op(Backquote)
    case _ => Other(c)
  }

  lemma FrontPlain(c: char, s: string) returns (front: Front)
    requires c != '\'' && c != '"'
    ensures IsFront(front, [c] + s)
  {
    var text, next := [c] + s, First(s);
    assert text[1..] == s && (s != "" ==> text == [c, s[0]] + s[1..] && text[..2] == [c, s[0]]);
    if c == '\\' {
      front := if s == "" then Last(Dangling) else Next(Backslashed(s[0]));
    } else if c == '|' && next == Some('|') {
      front := Next(Op(OrIf));
    } else if c == '&' && next == Some('&') {
      front := Next(Op(AndIf));
    } else if c == '$' && next == Some('(') {
      front := Next(Op(DollarParen));
    } else {
      front := Next(CharToken(c));
      assert TokenText(CharToken(c)) == [c];
    }
  }

  /** There is no other kind of command, so the grammar says for each what its features and its pieces are. */
  lemma EveryCommandIsSpelled(command: string) returns (tokens: seq<Token>, ending: Ending)
    ensures EndingAllowed(ending) && TokensAllowed(tokens, EndingText(ending))
    ensures command == TokensText(tokens, EndingText(ending))
    ensures Collect([], command, OPEN) == Features([], tokens)
    ensures forall mode :: Pieces(mode, command, OPEN) == Stretches(mode, tokens, EndingText(ending))
  {
    tokens, ending := Tokens(command);
    TokensShow([], tokens, ending);
    forall mode
      ensures Pieces(mode, command, OPEN) == Stretches(mode, tokens, EndingText(ending))
    {
      PiecesAreStretches(mode, tokens, ending);
    }
  }

  lemma {:induction false} Tokens(s: string) returns (tokens: seq<Token>, ending: Ending)
    ensures EndingAllowed(ending) && TokensAllowed(tokens, EndingText(ending))
    ensures s == TokensText(tokens, EndingText(ending))
    decreases |s|
  {
    if s == "" {
      tokens, ending := [], Whole;
    } else {
      var front;
      assert s == [s[0]] + s[1..];
      if s[0] == '\'' {
        front := FrontSingle(s[1..]);
      } else if s[0] == '"' {
        front := FrontDouble(s[1..]);
      } else {
        front := FrontPlain(s[0], s[1..]);
      }
      if front.Last? {
        tokens, ending := [], front.ending;
      } else {
        var n := |TokenText(front.t)|;
        var others, end := Tokens(s[n..]);
        tokens, ending := [front.t] + others, end;
        assert tokens[1..] == others && s == TokenText(front.t) + s[n..];
      }
    }
  }
}
