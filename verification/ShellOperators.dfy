/** Shell operators outside quotes: the quote-aware cursor and the splitters built on it (shell_parse.rs),
    and the hook's own top-level splitter (hook.rs). Commands are taken as they are analysed, after any
    `sh -c` wrapper has been removed. */
module ShellOperators {
  import opened Sequences
  import opened ShellSplit
  import opened Text
  import opened Wrappers

  /** Where a quote-aware scan stands. */
  datatype Quoting = Quoting(quote: Option<char>, escaped: bool)

  const OPEN := Quoting(None, false)

  function Advance(q: Quoting, ch: char): Quoting {
    if q.escaped then Quoting(q.quote, false)
    else if q.quote != Some('\'') && ch == '\\' then Quoting(q.quote, true)
    else if q.quote == Some(ch) then Quoting(None, false)
    else if q.quote == None && (ch == '\'' || ch == '"') then Quoting(Some(ch), false)
    else q
  }

  /** Whether a character stands outside quotes and is neither escaped nor a quoting character itself. */
  predicate Bare(q: Quoting, ch: char) {
    q == OPEN && ch != '\\' && ch != '\'' && ch != '"'
  }

  /** How many characters come before the first bare one. */
  function BareAt(s: string, q: Quoting): (n: nat)
    ensures n <= |s|
  {
    if s == "" || Bare(q, s[0]) then 0 else 1 + BareAt(s[1..], Advance(q, s[0]))
  }

  /** What the cursor reports when it stands at `pos`: the first bare character from there on. */
  ghost predicate Reports(command: string, pos: nat, q: Quoting, found: Option<(nat, char, Option<char>)>)
    requires pos <= |command|
  {
    IsBareAt(command, pos + BareAt(command[pos..], q), found)
  }

  ghost predicate IsBareAt(command: string, at: nat, found: Option<(nat, char, Option<char>)>)
    requires at <= |command|
  {
    if at == |command| then found == None
    else found == Some((at, command[at], First(command[at + 1..]))) && Bare(OPEN, command[at])
  }

  class QuoteCursor {
    const command: string
    var pos: nat
    var quote: Option<char>
    var escaped: bool

    ghost predicate Valid()
      reads this
    {
      pos <= |command|
    }

    function State(): Quoting
      reads this
    {
      Quoting(quote, escaped)
    }

    function Rest(): string
      reads this
      requires Valid()
    {
      command[pos..]
    }

    constructor (command: string)
      ensures Valid() && this.command == command && pos == 0 && State() == OPEN
    {
      this.command := command;
      pos := 0;
      quote := None;
      escaped := false;
    }

    method Peek() returns (next: Option<char>)
      requires Valid()
      ensures next == First(Rest())
    {
      next := if pos < |command| then Some(command[pos]) else None;
    }

    method Skip()
      requires Valid() && pos < |command|
      modifies this`pos
      ensures Valid() && pos == old(pos) + 1
    {
      pos := pos + 1;
    }

    /** The next character outside quotes, with its index and the character after it. */
    method NextUnquoted() returns (r: Option<(nat, char, Option<char>)>)
      requires Valid()
      modifies this`pos, this`quote, this`escaped
      ensures Valid() && Reports(command, old(pos), old(State()), r)
      ensures r.Some? ==> pos == r.value.0 + 1 && State() == OPEN
    {
      while pos < |command|
        invariant pos <= |command|
        invariant old(pos) + BareAt(old(Rest()), old(State())) == pos + BareAt(Rest(), State())
      {
        var ch := command[pos];
        assert Rest()[1..] == command[pos + 1..];
        pos := pos + 1;
        if escaped {
          escaped := false;
        } else if quote != Some('\'') && ch == '\\' {
          escaped := true;
        } else if quote == Some(ch) {
          quote := None;
        } else if quote == None && (ch == '\'' || ch == '"') {
          quote := Some(ch);
        } else if quote == None {
          var next := Peek();
          return Some((pos - 1, ch, next));
        }
      }
      r := None;
    }
  }

  // ----- splitting -----

  /** Into list elements, at `&&`, `||` and `;`, or into segments, at pipes as well. */
  datatype Mode = Elements | Segments

  /** The length of the operator at a bare character, or 0 when there is none to split at. */
  function CutLength(mode: Mode, ch: char, next: Option<char>): (n: nat)
    ensures n > 0 ==> ch in {'&', '|', ';'}
    ensures n <= 2 && (n == 2 <==> (ch == '&' || ch == '|') && next == Some(ch))
  {
    if (ch == '&' || ch == '|') && next == Some(ch) then 2
    else if ch == ';' || (ch == '|' && mode == Segments) then 1
    else 0
  }

  function CutAt(mode: Mode, s: string, q: Quoting): (n: nat)
    requires s != ""
    ensures n <= |s|
    ensures n > 0 ==> q == OPEN
  {
    if Bare(q, s[0]) then CutLength(mode, s[0], First(s[1..])) else 0
  }

  function Prepend(head: string, pieces: seq<string>): (r: seq<string>)
    requires pieces != []
    ensures |r| == |pieces|
  {
    [head + pieces[0]] + pieces[1..]
  }

  /** The stretches between operators, as they stand. */
  function Pieces(mode: Mode, s: string, q: Quoting): (r: seq<string>)
    ensures r != []
    decreases |s|
  {
    if s == "" then [""]
    else
      var n := CutAt(mode, s, q);
      if n > 0 then [""] + Pieces(mode, s[n..], OPEN)
      else Prepend([s[0]], Pieces(mode, s[1..], Advance(q, s[0])))
  }

  /** Trimmed, and without those that are empty then. */
  function Kept(pieces: seq<string>): seq<string> {
    if pieces == [] then []
    else
      var piece := Trim(pieces[0]);
      (if piece == "" then [] else [piece]) + Kept(pieces[1..])
  }

  /** What a command splits into. */
  function Split(mode: Mode, command: string): seq<string> {
    Kept(Pieces(mode, command, OPEN))
  }

  lemma PrependNothing(pieces: seq<string>)
    requires pieces != []
    ensures Prepend("", pieces) == pieces
  {
    assert "" + pieces[0] == pieces[0];
  }

  lemma PrependToCut(head: string, rest: seq<string>)
    ensures Prepend(head, [""] + rest) == [head] + rest
  {
    assert head + "" == head;
    assert ([""] + rest)[1..] == rest;
  }

  lemma PrependTwice(a: string, b: string, pieces: seq<string>)
    requires pieces != []
    ensures Prepend(a, Prepend(b, pieces)) == Prepend(a + b, pieces)
  {
    assert a + (b + pieces[0]) == (a + b) + pieces[0];
  }

  /** Up to the first bare character nothing is split. */
  lemma {:induction false} PiecesToBare(mode: Mode, s: string, q: Quoting)
    ensures var n := BareAt(s, q);
            Pieces(mode, s, q) == if n == |s| then [s] else Prepend(s[..n], Pieces(mode, s[n..], OPEN))
    decreases |s|
  {
    if s == "" {
    } else if Bare(q, s[0]) {
      assert s[0..] == s;
      PrependNothing(Pieces(mode, s, OPEN));
    } else {
      var q', rest := Advance(q, s[0]), s[1..];
      PiecesToBare(mode, rest, q');
      var n := BareAt(rest, q');
      if n == |rest| {
        assert [s[0]] + rest == s;
      } else {
        PrependTwice([s[0]], rest[..n], Pieces(mode, rest[n..], OPEN));
        assert [s[0]] + rest[..n] == s[..n + 1] && rest[n..] == s[n + 1..];
      }
    }
  }

  lemma {:induction false} KeptConcat(a: seq<string>, b: seq<string>)
    ensures Kept(a + b) == Kept(a) + Kept(b)
  {
    if a == [] {
      assert a + b == b;
    } else {
      assert (a + b)[1..] == a[1..] + b;
      KeptConcat(a[1..], b);
    }
  }

  /** The whole split is the pieces so far and those still to come: `before` is the piece being read, and the
      scan stands outside quotes at the front of `rest`. */
  ghost predicate SplitSoFar(mode: Mode, whole: seq<string>, pieces: seq<string>, before: string, rest: string) {
    whole == pieces + Kept(Prepend(before, Pieces(mode, rest, OPEN)))
  }

  lemma FirstTurn(mode: Mode, command: string)
    ensures SplitSoFar(mode, Split(mode, command), [], "", command)
  {
    PrependNothing(Pieces(mode, command, OPEN));
  }

  /** Scanning on to the next bare character changes nothing. */
  lemma ScanOn(mode: Mode, whole: seq<string>, pieces: seq<string>, before: string, rest: string)
    requires SplitSoFar(mode, whole, pieces, before, rest)
    ensures var n := BareAt(rest, OPEN);
            if n == |rest| then whole == pieces + Kept([before + rest])
            else SplitSoFar(mode, whole, pieces, before + rest[..n], rest[n..])
  {
    var n := BareAt(rest, OPEN);
    PiecesToBare(mode, rest, OPEN);
    if n < |rest| {
      PrependTwice(before, rest[..n], Pieces(mode, rest[n..], OPEN));
    }
  }

  /** Cutting at an operator moves the piece before it from what is to come to what is done. */
  lemma CutTurn(mode: Mode, whole: seq<string>, pieces: seq<string>, before: string, rest: string)
    requires SplitSoFar(mode, whole, pieces, before, rest) && rest != "" && CutAt(mode, rest, OPEN) > 0
    ensures SplitSoFar(mode, whole, pieces + Kept([before]), "", rest[CutAt(mode, rest, OPEN)..])
  {
    var after := Pieces(mode, rest[CutAt(mode, rest, OPEN)..], OPEN);
    PrependToCut(before, after);
    KeptConcat([before], after);
    Regroup(pieces, Kept([before]), Kept(after));
    PrependNothing(after);
  }

  lemma PassTurn(mode: Mode, whole: seq<string>, pieces: seq<string>, before: string, rest: string)
    requires SplitSoFar(mode, whole, pieces, before, rest) && rest != "" && Bare(OPEN, rest[0]) &&
             CutAt(mode, rest, OPEN) == 0
    ensures SplitSoFar(mode, whole, pieces, before + [rest[0]], rest[1..])
  {
    PrependTwice(before, [rest[0]], Pieces(mode, rest[1..], OPEN));
  }

  lemma Slices(s: string, start: nat, pos: nat, n: nat)
    requires start <= pos <= pos + n <= |s|
    ensures s[start..pos] + s[pos..] == s[start..]
    ensures s[start..pos] + s[pos..][..n] == s[start..pos + n]
    ensures s[pos..][n..] == s[pos + n..]
  {
  }

  method KeepTrimmed(pieces: seq<string>, piece: string) returns (r: seq<string>)
    ensures r == pieces + Kept([piece])
  {
    var trimmed := Trim(piece);
    r := if trimmed == "" then pieces else pieces + [trimmed];
  }

  /** One pass of the splitting loop, for the bare character found at `idx`. */
  method Turn(mode: Mode, cursor: QuoteCursor, pieces: seq<string>, start: nat, idx: nat, ch: char, next: Option<char>,
              ghost whole: seq<string>)
    returns (pieces': seq<string>, start': nat)
    requires cursor.Valid() && start <= idx < |cursor.command|
    requires SplitSoFar(mode, whole, pieces, cursor.command[start..idx], cursor.command[idx..])
    requires ch == cursor.command[idx] && next == First(cursor.command[idx + 1..])
    requires Bare(OPEN, ch) && cursor.pos == idx + 1
    modifies cursor`pos
    ensures cursor.Valid() && idx < cursor.pos && start' <= cursor.pos
    ensures SplitSoFar(mode, whole, pieces', cursor.command[start'..cursor.pos], cursor.Rest())
  {
    ghost var before, rest := cursor.command[start..idx], cursor.command[idx..];
    var len := CutLength(mode, ch, next);
    Slices(cursor.command, start, idx, 1);
    if len == 0 {
      PassTurn(mode, whole, pieces, before, rest);
      assert before + [rest[0]] == cursor.command[start..idx + 1];
      return pieces, start;
    }
    CutTurn(mode, whole, pieces, before, rest);
    Slices(cursor.command, start, idx, len);
    if len == 2 {
      cursor.Skip();
    }
    pieces' := KeepTrimmed(pieces, cursor.command[start..idx]);
    start' := idx + len;
    assert cursor.command[start'..cursor.pos] == "";
  }

  /** What is known once the cursor has answered. */
  ghost predicate Asked(mode: Mode, command: string, pieces: seq<string>, start: nat, whole: seq<string>,
                        found: Option<(nat, char, Option<char>)>)
  {
    match found
    case None => start <= |command| && whole == pieces + Kept([command[start..]])
    case Some((idx, ch, next)) =>
      && start <= idx < |command| && ch == command[idx] && next == First(command[idx + 1..]) && Bare(OPEN, ch)
      && SplitSoFar(mode, whole, pieces, command[start..idx], command[idx..])
  }

  lemma Answer(mode: Mode, command: string, pieces: seq<string>, start: nat, pos: nat, whole: seq<string>,
               found: Option<(nat, char, Option<char>)>)
    requires start <= pos <= |command| && Reports(command, pos, OPEN, found)
    requires SplitSoFar(mode, whole, pieces, command[start..pos], command[pos..])
    ensures Asked(mode, command, pieces, start, whole, found)
  {
    var before, rest := command[start..pos], command[pos..];
    ScanOn(mode, whole, pieces, before, rest);
    AnswerAt(mode, command, pieces, start, pos, BareAt(rest, OPEN), whole, found);
  }

  lemma AnswerAt(mode: Mode, command: string, pieces: seq<string>, start: nat, pos: nat, n: nat, whole: seq<string>,
                 found: Option<(nat, char, Option<char>)>)
    requires start <= pos <= pos + n <= |command| && IsBareAt(command, pos + n, found)
    requires pos + n == |command| ==> whole == pieces + Kept([command[start..pos] + command[pos..]])
    requires pos + n < |command| ==>
               SplitSoFar(mode, whole, pieces, command[start..pos] + command[pos..][..n], command[pos..][n..])
    ensures Asked(mode, command, pieces, start, whole, found)
  {
    Slices(command, start, pos, n);
  }

  /** Asks the cursor, which stands outside quotes, for the next bare character. */
  method Ask(mode: Mode, cursor: QuoteCursor, ghost pieces: seq<string>, ghost start: nat, ghost whole: seq<string>)
    returns (found: Option<(nat, char, Option<char>)>)
    requires cursor.Valid() && start <= cursor.pos && cursor.State() == OPEN
    requires SplitSoFar(mode, whole, pieces, cursor.command[start..cursor.pos], cursor.Rest())
    modifies cursor`pos, cursor`quote, cursor`escaped
    ensures cursor.Valid() && Asked(mode, cursor.command, pieces, start, whole, found)
    ensures found.Some? ==> old(cursor.pos) <= found.value.0 == cursor.pos - 1 && cursor.State() == OPEN
  {
    ghost var pos := cursor.pos;
    found := cursor.NextUnquoted();
    Answer(mode, cursor.command, pieces, start, pos, whole, found);
  }

  /** `split_shell_list_elements` and `split_shell_segments`: the same loop, without and with cuts at pipes. */
  method SplitShell(mode: Mode, command: string) returns (pieces: seq<string>)
    ensures pieces == Split(mode, command)
  {
    ghost var whole := Split(mode, command);
    pieces := [];
    var start: nat := 0;
    var cursor := new QuoteCursor(command);
    FirstTurn(mode, command);
    assert cursor.Rest() == command && command[0..0] == "";
    var found := Ask(mode, cursor, pieces, start, whole);
    while found.Some?
      invariant fresh(cursor) && cursor.Valid() && cursor.command == command
      invariant Asked(mode, command, pieces, start, whole, found)
      invariant found.Some? ==> cursor.pos == found.value.0 + 1 && cursor.State() == OPEN
      decreases if found.Some? then |command| - found.value.0 else 0
    {
      pieces, start := Turn(mode, cursor, pieces, start, found.value.0, found.value.1, found.value.2, whole);
      found := Ask(mode, cursor, pieces, start, whole);
    }
    pieces := KeepTrimmed(pieces, command[start..]);
  }
}
