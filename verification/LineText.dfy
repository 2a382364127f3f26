/** Lines and the text made of them: splitting a text into lines, joining lines with line feeds, and the markers
    that carry a number in decimal. */
module LineText {
  import opened Encoding
  import opened Machine
  import opened Sequences
  import opened Text
  import opened Wrappers

  predicate NoFeed(s: string) {
    forall i :: 0 <= i < |s| ==> s[i] != '\n'
  }

  predicate NoFeeds(lines: seq<string>) {
    forall i :: 0 <= i < |lines| ==> NoFeed(lines[i])
  }

  // ----- the lines of a text -----

  function LineLength(s: string): (n: nat)
    requires s != ""
    ensures 0 < n <= |s| && NoFeed(s[..n - 1]) && (n < |s| ==> s[n - 1] == '\n')
  {
    if s[0] == '\n' || |s| == 1 then 1 else 1 + LineLength(s[1..])
  }

  /** The lines, each with the line feed that ends it. */
  function SplitInclusive(s: string): seq<string> {
    if s == "" then [] else [s[..LineLength(s)]] + SplitInclusive(s[LineLength(s)..])
  }

  function Concat(parts: seq<string>): string {
    if parts == [] then "" else parts[0] + Concat(parts[1..])
  }

  lemma {:induction false} LinesSpellText(s: string)
    ensures Concat(SplitInclusive(s)) == s
  {
    if s != "" {
      var n := LineLength(s);
      LinesSpellText(s[n..]);
      var rest := SplitInclusive(s[n..]);
      assert ([s[..n]] + rest)[1..] == rest;
      assert s == s[..n] + s[n..];
    }
  }

  /** The lines of a text: each but the last ends with the only line feed in it, and the last is not empty. */
  ghost predicate AreLines(lines: seq<string>, text: string) {
    && Concat(lines) == text
    && (forall i :: 0 <= i < |lines| ==> lines[i] != "" && NoFeed(lines[i][..|lines[i]| - 1]))
    && (forall i :: 0 <= i < |lines| - 1 ==> lines[i][|lines[i]| - 1] == '\n')
  }

  lemma OneMoreLine(line: string, lines: seq<string>, rest: string)
    requires AreLines(lines, rest) && line != "" && NoFeed(line[..|line| - 1])
    requires lines != [] ==> line[|line| - 1] == '\n'
    ensures AreLines([line] + lines, line + rest)
  {
    assert ([line] + lines)[1..] == lines;
  }

  lemma {:induction false} SplitGivesLines(text: string)
    ensures AreLines(SplitInclusive(text), text)
  {
    if text != "" {
      var n := LineLength(text);
      SplitGivesLines(text[n..]);
      assert text == text[..n] + text[n..];
      OneMoreLine(text[..n], SplitInclusive(text[n..]), text[n..]);
    }
  }

  lemma FirstLineSettled(lines: seq<string>, other: seq<string>, text: string)
    requires AreLines(lines, text) && AreLines(other, text) && lines != [] && other != []
    ensures |lines[0]| <= |other[0]|
  {
    var line, n := lines[0], |other[0]| - 1;
    assert text == line + Concat(lines[1..]) && text == other[0] + Concat(other[1..]);
    assert |other| == 1 ==> text == other[0];
    assert text[n] == other[0][n];
    assert forall i :: 0 <= i < |line| - 1 ==> line[..|line| - 1][i] == text[i];
  }

  /** A text has its lines in one way only. */
  lemma {:induction false} LinesSettled(lines: seq<string>, other: seq<string>, text: string)
    requires AreLines(lines, text) && AreLines(other, text)
    ensures lines == other
  {
    if lines != [] && other != [] {
      FirstLineSettled(lines, other, text);
      FirstLineSettled(other, lines, text);
      var rest := text[|lines[0]|..];
      assert text == lines[0] + Concat(lines[1..]) && text == other[0] + Concat(other[1..]);
      assert Concat(lines[1..]) == rest && Concat(other[1..]) == rest;
      LinesSettled(lines[1..], other[1..], rest);
      assert lines == [lines[0]] + lines[1..] && other == [other[0]] + other[1..];
    }
  }

  predicate EndsWith(s: string, c: char) {
    s != "" && s[|s| - 1] == c
  }

  /** A line without the line feed, or the carriage return and line feed, that ends it. */
  function Chomped(line: string): string {
    if !EndsWith(line, '\n') then line
    else if EndsWith(line[..|line| - 1], '\r') then line[..|line| - 2]
    else line[..|line| - 1]
  }

  function Lines(s: string): (lines: seq<string>)
    ensures |lines| <= |s|
  {
    if s == "" then [] else [Chomped(s[..LineLength(s)])] + Lines(s[LineLength(s)..])
  }

  lemma {:induction false} LinesHoldNoFeed(s: string)
    ensures NoFeeds(Lines(s))
  {
    if s != "" {
      LinesHoldNoFeed(s[LineLength(s)..]);
    }
  }

  /** What is left of a line without its ending: a line feed, or a carriage return and a line feed. */
  ghost predicate IsChomped(line: string, whole: string) {
    || (line == whole && !EndsWith(whole, '\n'))
    || (line + "\n" == whole && !EndsWith(line, '\r'))
    || line + "\r\n" == whole
  }

  lemma ChompedDropsEnding(whole: string)
    ensures IsChomped(Chomped(whole), whole)
  {
    if EndsWith(whole, '\n') {
      var front := whole[..|whole| - 1];
      assert whole == front + "\n";
      if EndsWith(front, '\r') {
        assert front == front[..|front| - 1] + "\r";
      }
    }
  }

  /** The lines of a text are those that spell it, without their endings. */
  lemma {:induction false} LinesDropEndings(s: string)
    ensures |Lines(s)| == |SplitInclusive(s)|
    ensures forall i :: 0 <= i < |Lines(s)| ==> IsChomped(Lines(s)[i], SplitInclusive(s)[i])
  {
    if s != "" {
      ChompedDropsEnding(s[..LineLength(s)]);
      LinesDropEndings(s[LineLength(s)..]);
    }
  }

  // ----- reading a text back as lines -----

  /** What stands between the line feeds of a text. */
  function SplitLines(s: string): (lines: seq<string>)
    ensures lines != []
  {
    if s == "" then [""]
    else
      var rest := SplitLines(s[1..]);
      if s[0] == '\n' then [""] + rest else [[s[0]] + rest[0]] + rest[1..]
  }

  lemma {:induction false} SplitAfterLine(line: string, rest: string)
    requires NoFeed(line)
    ensures SplitLines(line + rest) == [line + SplitLines(rest)[0]] + SplitLines(rest)[1..]
  {
    var split := SplitLines(rest);
    if line == "" {
      assert line + rest == rest && line + split[0] == split[0];
      assert split == [split[0]] + split[1..];
    } else {
      assert (line + rest)[1..] == line[1..] + rest;
      SplitAfterLine(line[1..], rest);
      assert [line[0]] + (line[1..] + split[0]) == line + split[0];
    }
  }

  lemma SplitAtFeed(line: string, rest: string)
    requires NoFeed(line)
    ensures SplitLines(line + "\n" + rest) == [line] + SplitLines(rest)
  {
    var after := "\n" + rest;
    assert after[1..] == rest;
    Regroup(line, "\n", rest);
    SplitAfterLine(line, after);
    assert SplitLines(after) == [""] + SplitLines(rest);
    assert line + "" == line;
  }

  lemma SplitOneLine(line: string)
    requires NoFeed(line)
    ensures SplitLines(line) == [line]
  {
    SplitAfterLine(line, "");
    assert line + "" == line;
  }

  /** Joining lines with line feeds loses nothing: splitting the text gives them back. */
  lemma {:induction false} SplitUndoesJoin(lines: seq<string>)
    requires lines != [] && NoFeeds(lines)
    ensures SplitLines(Join(lines, "\n")) == lines
  {
    if |lines| == 1 {
      SplitOneLine(lines[0]);
    } else {
      SplitUndoesJoin(lines[1..]);
      SplitAtFeed(lines[0], Join(lines[1..], "\n"));
    }
  }

  lemma {:induction false} JoinAppends(a: seq<string>, b: seq<string>)
    requires a != [] && b != []
    ensures Join(a + b, "\n") == Join(a, "\n") + "\n" + Join(b, "\n")
  {
    assert (a + b)[1..] == a[1..] + b;
    if |a| > 1 {
      JoinAppends(a[1..], b);
      Regroup(a[0] + "\n", Join(a[1..], "\n") + "\n", Join(b, "\n"));
      Regroup(a[0] + "\n", Join(a[1..], "\n"), "\n");
    }
  }

  lemma JoinSetOff(line: string)
    ensures Join(["", line, ""], "\n") == "\n" + line + "\n"
  {
    var rest := [line, ""];
    assert rest[1..] == [""];
    assert Join(rest, "\n") == line + "\n" + Join([""], "\n");
    assert line + "\n" + "" == line + "\n";
    assert ["", line, ""][1..] == rest;
    Regroup("\n", line, "\n");
  }

  lemma {:induction false} FirstLineOf(line: string, rest: string)
    requires NoFeed(line) && rest != ""
    ensures LineLength(line + "\n" + rest) == |line| + 1
  {
    var s := line + "\n" + rest;
    if line == "" {
      assert s[0] == '\n';
    } else {
      assert s[1..] == line[1..] + "\n" + rest;
      FirstLineOf(line[1..], rest);
    }
  }

  lemma WholeLine(line: string)
    requires NoFeed(line) && line != ""
    ensures Lines(line) == [Chomped(line)]
  {
    assert LineLength(line) == |line|;
    assert line[|line|..] == "" && line[..|line|] == line;
  }

  /** Lines that end in no carriage return, the last of them not empty, are the lines of the text they join to. */
  lemma {:induction false} LinesUndoJoin(lines: seq<string>)
    requires lines != [] && NoFeeds(lines) && lines[|lines| - 1] != ""
    requires forall i :: 0 <= i < |lines| ==> !EndsWith(lines[i], '\r')
    ensures Join(lines, "\n") != "" && Lines(Join(lines, "\n")) == lines
  {
    if |lines| == 1 {
      WholeLine(lines[0]);
    } else {
      assert lines == [lines[0]] + lines[1..];
      LinesUndoJoin(lines[1..]);
      FirstOfLines(lines[0], Join(lines[1..], "\n"));
    }
  }

  lemma FirstOfLines(line: string, rest: string)
    requires NoFeed(line) && rest != "" && !EndsWith(line, '\r')
    ensures Lines(line + "\n" + rest) == [line] + Lines(rest)
  {
    var s := line + "\n" + rest;
    FirstLineOf(line, rest);
    var first := s[..|line| + 1];
    assert first[..|first| - 1] == line && s[|line| + 1..] == rest;
  }

  lemma {:induction false} JoinOfShort(lines: seq<string>)
    requires forall i :: 0 <= i < |lines| ==> |lines[i]| < 100
    ensures |Join(lines, "\n")| <= 100 * |lines|
  {
    if |lines| > 1 {
      JoinOfShort(lines[1..]);
    }
  }

  // ----- markers -----

  function NumberText(n: nat): (s: string)
    ensures s != "" && forall i :: 0 <= i < |s| ==> '0' <= s[i] <= '9'
  {
    var digits := Decimal(n);
    seq(|digits|, i requires 0 <= i < |digits| => assert IsDigit(digits[i]); digits[i] as char)
  }

  predicate AllDigits(s: string) {
    forall i :: 0 <= i < |s| ==> '0' <= s[i] <= '9'
  }

  function Codes(s: string): (b: Bytes)
    requires AllDigits(s)
    ensures |b| == |s| && forall i :: 0 <= i < |b| ==> IsDigit(b[i])
  {
    seq(|s|, i requires 0 <= i < |s| => s[i] as int)
  }

  function ReadNumber(s: string): Option<nat> {
    if AllDigits(s) && NumberText(DecimalValue(Codes(s))) == s then Some(DecimalValue(Codes(s))) else None
  }

  lemma ReadNumberInverts(s: string, n: nat)
    ensures ReadNumber(s) == Some(n) <==> s == NumberText(n)
  {
    assert Codes(NumberText(n)) == Decimal(n);
    DecimalRoundTrip(n);
  }

  /** The fixed words around the number of a marker. */
  datatype Marker = Marker(before: string, after: string)

  function MarkerText(m: Marker, n: nat): string {
    m.before + NumberText(n) + m.after
  }

  function ReadMarker(m: Marker, line: string): Option<nat> {
    var end := |line| - |m.after|;
    if |m.before| <= end && m.before <= line && line[end..] == m.after then ReadNumber(line[|m.before|..end]) else None
  }

  /** A line reads as a marker exactly when it is that marker. */
  lemma ReadMarkerInverts(m: Marker, line: string, n: nat)
    ensures ReadMarker(m, line) == Some(n) <==> line == MarkerText(m, n)
  {
    var end := |line| - |m.after|;
    if ReadMarker(m, line) == Some(n) {
      ReadNumberInverts(line[|m.before|..end], n);
      assert line[..|m.before|] == m.before;
      assert line == line[..|m.before|] + line[|m.before|..end] + line[end..];
    }
    if line == MarkerText(m, n) {
      assert line[|m.before|..end] == NumberText(n);
      ReadNumberInverts(NumberText(n), n);
    }
  }

  lemma MarkerHasNoFeed(m: Marker, n: nat)
    requires NoFeed(m.before) && NoFeed(m.after)
    ensures NoFeed(MarkerText(m, n)) && MarkerText(m, n) != ""
  {
  }
}
