/** The hook's own splitter at top-level operators (hook.rs), and its agreement with the splitter of the
    shell analysis. */
module HookSegments {
  import opened ShellOperators
  import opened ShellSplit
  import opened Text
  import opened Wrappers

  predicate EndsWith(s: string, c: char) {
    s != "" && s[|s| - 1] == c
  }

  /** What the next characters do outside quotes. */
  datatype Move = Keep | Cut(length: nat) | Refuse

  function MoveAt(current: string, ch: char, next: Option<char>): (m: Move)
    ensures m.Cut? ==> 1 <= m.length <= 2 && (m.length == 2 ==> next.Some?)
  {
    if ch == '&' then
      if next == Some('&') then Cut(2)
      else if EndsWith(current, '>') || next == Some('>') then Keep
      else Refuse
    else if ch == '|' then Cut(if next == Some('|') then 2 else 1)
    else if ch == ';' then Cut(1)
    else Keep
  }

  function Onto(segments: seq<string>, rest: Option<seq<string>>): Option<seq<string>> {
    if rest.None? then None else Some(segments + rest.value)
  }

  /** The segments of `s`, of which `current` has been read already; refused at a lone background `&`. */
  function TopLevel(s: string, q: Quoting, current: string): Option<seq<string>>
    decreases |s|
  {
    if s == "" then Some([current])
    else if !Bare(q, s[0]) then TopLevel(s[1..], Advance(q, s[0]), current + [s[0]])
    else
      match MoveAt(current, s[0], First(s[1..]))
      case Keep => TopLevel(s[1..], q, current + [s[0]])
      case Cut(n) => Onto([current], TopLevel(s[n..], OPEN, ""))
      case Refuse => None
  }

  function StateOf(single: bool, double: bool): Quoting {
    if single then Quoting(Some('\''), false) else if double then Quoting(Some('"'), false) else OPEN
  }

  /** The whole result is the segments so far and those of the rest. */
  ghost predicate SplitTo(whole: Option<seq<string>>, segments: seq<string>, rest: string, q: Quoting,
                          current: string) {
    whole == Onto(segments, TopLevel(rest, q, current))
  }

  lemma OntoNothing(rest: Option<seq<string>>)
    ensures Onto([], rest) == rest
  {
    if rest.Some? {
      assert [] + rest.value == rest.value;
    }
  }

  /** A character that is kept. */
  lemma KeepOne(whole: Option<seq<string>>, segments: seq<string>, rest: string, q: Quoting, current: string)
    requires SplitTo(whole, segments, rest, q, current) && rest != ""
    requires Bare(q, rest[0]) ==> MoveAt(current, rest[0], First(rest[1..])) == Keep
    ensures SplitTo(whole, segments, rest[1..], Advance(q, rest[0]), current + [rest[0]])
  {
  }

  lemma CutOne(whole: Option<seq<string>>, segments: seq<string>, rest: string, current: string)
    requires SplitTo(whole, segments, rest, OPEN, current) && rest != "" && Bare(OPEN, rest[0])
    requires MoveAt(current, rest[0], First(rest[1..])).Cut?
    ensures var n := MoveAt(current, rest[0], First(rest[1..])).length;
            SplitTo(whole, segments + [current], rest[n..], OPEN, "")
  {
    var n := MoveAt(current, rest[0], First(rest[1..])).length;
    var after := TopLevel(rest[n..], OPEN, "");
    if after.Some? {
      assert segments + ([current] + after.value) == (segments + [current]) + after.value;
    }
  }

  /** A backslash outside single quotes, with the character it escapes if there is one. */
  lemma KeepEscape(whole: Option<seq<string>>, segments: seq<string>, rest: string, q: Quoting, current: string)
    requires SplitTo(whole, segments, rest, q, current) && rest != "" && rest[0] == '\\'
    requires !q.escaped && q.quote != Some('\'')
    ensures |rest| == 1 ==> SplitTo(whole, segments, "", q, current + [rest[0]])
    ensures |rest| > 1 ==> SplitTo(whole, segments, rest[2..], q, current + [rest[0], rest[1]])
  {
    KeepOne(whole, segments, rest, q, current);
    var after := rest[1..];
    if after != "" {
      KeepOne(whole, segments, after, Advance(q, rest[0]), current + [rest[0]]);
      assert after[1..] == rest[2..] && current + [rest[0]] + [rest[1]] == current + [rest[0], rest[1]];
    }
  }

  method TopLevelSegments(command: string) returns (r: Option<seq<string>>)
    ensures r == TopLevel(command, OPEN, "")
  {
    ghost var whole := TopLevel(command, OPEN, "");
    var segments: seq<string>, current := [], "";
    var single, double := false, false;
    var pos := 0;
    assert command[0..] == command;
    OntoNothing(whole);
    while pos < |command|
      invariant pos <= |command| && !(single && double)
      invariant SplitTo(whole, segments, command[pos..], StateOf(single, double), current)
    {
      ghost var rest := command[pos..];
      var ch := command[pos];
      pos := pos + 1;
      var next := if pos < |command| then Some(command[pos]) else None;
      assert rest[1..] == command[pos..] && next == First(rest[1..]);
      if single {
        KeepOne(whole, segments, rest, StateOf(single, double), current);
        single := ch != '\'';
        current := current + [ch];
      } else if ch == '\\' {
        KeepEscape(whole, segments, rest, StateOf(single, double), current);
        current := current + [ch];
        if next.Some? {
          assert current + [next.value] == current[..|current| - 1] + [ch, next.value];
          assert rest[2..] == command[pos + 1..];
          current := current + [next.value];
          pos := pos + 1;
        }
      } else if double {
        KeepOne(whole, segments, rest, StateOf(single, double), current);
        double := ch != '"';
        current := current + [ch];
      } else if ch == '\'' || ch == '"' {
        KeepOne(whole, segments, rest, OPEN, current);
        single, double := ch == '\'', ch == '"';
        current := current + [ch];
      } else {
        match MoveAt(current, ch, next) {
          case Keep =>
            KeepOne(whole, segments, rest, OPEN, current);
            current := current + [ch];
          case Cut(n) =>
            CutOne(whole, segments, rest, current);
            assert rest[n..] == command[pos + n - 1..];
            segments := segments + [current];
            current := "";
            pos := pos + n - 1;
          case Refuse =>
            return None;
        }
      }
    }
    r := Some(segments + [current]);
  }

  // ----- agreement with the analysis -----

  /** Where the hook's splitter gives segments, the untrimmed pieces of the analysis are the same strings. */
  lemma {:induction false} TopLevelPieces(s: string, q: Quoting, current: string)
    requires TopLevel(s, q, current).Some?
    ensures TopLevel(s, q, current).value == Prepend(current, Pieces(Segments, s, q))
    decreases |s|
  {
    if s == "" {
      assert current + "" == current;
    } else {
      var n := CutAt(Segments, s, q);
      if n > 0 {
        TopLevelPieces(s[n..], OPEN, "");
        PrependNothing(Pieces(Segments, s[n..], OPEN));
        PrependToCut(current, Pieces(Segments, s[n..], OPEN));
      } else {
        TopLevelPieces(s[1..], Advance(q, s[0]), current + [s[0]]);
        PrependTwice(current, [s[0]], Pieces(Segments, s[1..], Advance(q, s[0])));
      }
    }
  }

  /** The two operator splitters agree: whenever the hook's gives segments, trimming them and dropping the
      empty ones gives exactly the segments of the analysis. */
  lemma TopLevelAgrees(command: string)
    requires TopLevel(command, OPEN, "").Some?
    ensures Kept(TopLevel(command, OPEN, "").value) == Split(Segments, command)
  {
    TopLevelPieces(command, OPEN, "");
    PrependNothing(Pieces(Segments, command, OPEN));
  }
}
