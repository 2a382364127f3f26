/** Splitting in two steps, first into list elements and then each of them at its pipes, gives the same
    segments as splitting at once. */
module ShellSplitLaws {
  import opened ShellOperators
  import opened ShellSplit
  import opened Text
  import opened Wrappers

  /** The pieces of several stretches, each scanned from outside quotes. */
  function AllPieces(stretches: seq<string>): seq<string> {
    if stretches == [] then [] else Pieces(Segments, stretches[0], OPEN) + AllPieces(stretches[1..])
  }

  lemma {:induction false} FirstPieceIsPrefix(mode: Mode, s: string, q: Quoting)
    ensures Pieces(mode, s, q)[0] <= s
    decreases |s|
  {
    if s != "" && CutAt(mode, s, q) == 0 {
      FirstPieceIsPrefix(mode, s[1..], Advance(q, s[0]));
      assert s == [s[0]] + s[1..];
    }
  }

  lemma FirstOfPrefix(p: string, s: string)
    requires p <= s
    ensures First(p) == None || First(p) == First(s)
  {
  }

  /** Looking no further than the end of its list element does not change what the scan does with a character
      that ends no element. */
  lemma SameCutInElement(s: string, q: Quoting)
    requires s != "" && CutAt(Elements, s, q) == 0
    ensures var head := [s[0]] + Pieces(Elements, s[1..], Advance(q, s[0]))[0];
            CutAt(Segments, head, q) == CutAt(Segments, s, q) <= 1
  {
    var rest := Pieces(Elements, s[1..], Advance(q, s[0]))[0];
    FirstPieceIsPrefix(Elements, s[1..], Advance(q, s[0]));
    FirstOfPrefix(rest, s[1..]);
    assert ([s[0]] + rest)[1..] == rest;
  }

  lemma AllPiecesOf(first: string, rest: seq<string>)
    ensures AllPieces([first] + rest) == Pieces(Segments, first, OPEN) + AllPieces(rest)
  {
    assert ([first] + rest)[1..] == rest;
  }

  lemma PrependConcat(head: string, a: seq<string>, b: seq<string>)
    requires a != []
    ensures Prepend(head, a) + b == Prepend(head, a + b)
  {
    assert (a + b)[1..] == a[1..] + b;
    assert [head + a[0]] + a[1..] + b == [head + a[0]] + (a[1..] + b);
  }

  /** One character in front of an element that it does not end. */
  lemma StepInElement(s: string, q: Quoting)
    requires s != "" && CutAt(Elements, s, q) == 0
    ensures var rest := Pieces(Elements, s[1..], Advance(q, s[0]))[0];
            Pieces(Segments, [s[0]] + rest, q) ==
            if CutAt(Segments, s, q) == 1 then [""] + Pieces(Segments, rest, OPEN)
            else Prepend([s[0]], Pieces(Segments, rest, Advance(q, s[0])))
  {
    var rest := Pieces(Elements, s[1..], Advance(q, s[0]))[0];
    SameCutInElement(s, q);
    assert ([s[0]] + rest)[1..] == rest;
  }

  /** Splitting at once is splitting every list element, the first of them from the state the scan is in. */
  lemma {:induction false} SplitInTwoSteps(s: string, q: Quoting)
    ensures var stretches := Pieces(Elements, s, q);
            Pieces(Segments, s, q) == Pieces(Segments, stretches[0], q) + AllPieces(stretches[1..])
    decreases |s|
  {
    if s != "" {
      var n := CutAt(Elements, s, q);
      if n > 0 {
        var after := Pieces(Elements, s[n..], OPEN);
        SplitInTwoSteps(s[n..], OPEN);
        assert after == [after[0]] + after[1..];
        AllPiecesOf(after[0], after[1..]);
        assert ([""] + after)[1..] == after;
      } else {
        var q' := Advance(q, s[0]);
        var after := Pieces(Elements, s[1..], q');
        SplitInTwoSteps(s[1..], q');
        StepInElement(s, q);
        StepTogether(s[0], Pieces(Segments, after[0], q'), AllPieces(after[1..]));
      }
    }
  }

  lemma StepTogether(ch: char, a: seq<string>, b: seq<string>)
    requires a != []
    ensures Prepend([ch], a) + b == Prepend([ch], a + b)
    ensures [""] + a + b == [""] + (a + b)
  {
    PrependConcat([ch], a, b);
  }

  // ----- trimming an element first changes nothing -----

  lemma WhitespaceIsBare(w: char)
    requires IsWhitespace(w)
    ensures Bare(OPEN, w) && CutLength(Segments, w, None) == 0 && w != '&' && w != '|' && w != ';'
  {
  }

  lemma TrimFirst(w: char, s: string)
    requires IsWhitespace(w)
    ensures Trim([w] + s) == Trim(s)
  {
    assert ([w] + s)[1..] == s;
  }

  lemma {:induction false} TrimStartEnd(s: string, w: char)
    requires IsWhitespace(w)
    ensures TrimStart(s + [w]) == (if TrimStart(s) == "" then "" else TrimStart(s) + [w])
    decreases |s|
  {
    if s == "" {
      assert s + [w] == [w] && [w][1..] == "";
    } else if IsWhitespace(s[0]) {
      assert (s + [w])[1..] == s[1..] + [w];
      TrimStartEnd(s[1..], w);
    }
  }

  lemma TrimLast(s: string, w: char)
    requires IsWhitespace(w)
    ensures Trim(s + [w]) == Trim(s)
  {
    TrimStartEnd(s, w);
    var t := TrimStart(s);
    assert (t + [w])[..|t|] == t;
  }

  lemma KeptIgnoresFront(w: char, pieces: seq<string>)
    requires IsWhitespace(w) && pieces != []
    ensures Kept(Prepend([w], pieces)) == Kept(pieces)
  {
    TrimFirst(w, pieces[0]);
    assert Prepend([w], pieces)[1..] == pieces[1..];
  }

  lemma {:induction false} SplitIgnoresFront(s: string)
    ensures Split(Segments, TrimStart(s)) == Split(Segments, s)
  {
    if s != "" && IsWhitespace(s[0]) {
      WhitespaceIsBare(s[0]);
      SplitIgnoresFront(s[1..]);
      KeptIgnoresFront(s[0], Pieces(Segments, s[1..], OPEN));
    }
  }

  /** The last piece with a character added. */
  function Append(pieces: seq<string>, w: char): (r: seq<string>)
    requires pieces != []
    ensures |r| == |pieces|
  {
    pieces[..|pieces| - 1] + [pieces[|pieces| - 1] + [w]]
  }

  lemma AppendLater(first: string, pieces: seq<string>, w: char)
    requires pieces != []
    ensures Append([first] + pieces, w) == [first] + Append(pieces, w)
  {
  }

  lemma AppendPrepend(head: string, pieces: seq<string>, w: char)
    requires pieces != []
    ensures Append(Prepend(head, pieces), w) == Prepend(head, Append(pieces, w))
  {
    if |pieces| == 1 {
      assert head + (pieces[0] + [w]) == (head + pieces[0]) + [w];
    }
  }

  /** A trailing whitespace character only lengthens the last piece. */
  lemma {:induction false} TrailingSpace(s: string, q: Quoting, w: char)
    requires IsWhitespace(w)
    ensures Pieces(Segments, s + [w], q) == Append(Pieces(Segments, s, q), w)
    decreases |s|
  {
    WhitespaceIsBare(w);
    if s == "" {
      assert s + [w] == [w] && [w][1..] == "" && [w] + "" == [w];
      assert Append([""], w) == [[w]];
    } else {
      var n := CutAt(Segments, s, q);
      assert (s + [w])[1..] == s[1..] + [w];
      assert CutAt(Segments, s + [w], q) == n;
      if n > 0 {
        assert (s + [w])[n..] == s[n..] + [w];
        TrailingSpace(s[n..], OPEN, w);
        AppendLater("", Pieces(Segments, s[n..], OPEN), w);
      } else {
        TrailingSpace(s[1..], Advance(q, s[0]), w);
        AppendPrepend([s[0]], Pieces(Segments, s[1..], Advance(q, s[0])), w);
      }
    }
  }

  lemma KeptIgnoresBack(pieces: seq<string>, w: char)
    requires IsWhitespace(w) && pieces != []
    ensures Kept(Append(pieces, w)) == Kept(pieces)
  {
    var front, last := pieces[..|pieces| - 1], pieces[|pieces| - 1];
    assert pieces == front + [last];
    KeptConcat(front, [last]);
    KeptConcat(front, [last + [w]]);
    TrimLast(last, w);
  }

  lemma {:induction false} SplitIgnoresBack(s: string)
    ensures Split(Segments, TrimEnd(s)) == Split(Segments, s)
    decreases |s|
  {
    if s != "" && IsWhitespace(s[|s| - 1]) {
      var front, w := s[..|s| - 1], s[|s| - 1];
      assert s == front + [w];
      SplitIgnoresBack(front);
      TrailingSpace(front, OPEN, w);
      KeptIgnoresBack(Pieces(Segments, front, OPEN), w);
    }
  }

  lemma SplitIgnoresTrim(s: string)
    ensures Split(Segments, Trim(s)) == Split(Segments, s)
  {
    SplitIgnoresFront(s);
    SplitIgnoresBack(TrimStart(s));
  }

  /** The segments of each command in turn. */
  function SplitEach(commands: seq<string>): seq<string> {
    if commands == [] then [] else Split(Segments, commands[0]) + SplitEach(commands[1..])
  }

  lemma NothingToSplit()
    ensures Split(Segments, "") == []
  {
    assert Kept([""]) == [] by {
      assert Trim("") == "";
    }
  }

  lemma SplitEachStep(piece: string, rest: seq<string>)
    ensures SplitEach((if piece == "" then [] else [piece]) + rest) == Split(Segments, piece) + SplitEach(rest)
  {
    if piece == "" {
      NothingToSplit();
      assert [] + rest == rest && [] + SplitEach(rest) == SplitEach(rest);
    } else {
      assert ([piece] + rest)[1..] == rest;
    }
  }

  lemma {:induction false} SplitEachKept(stretches: seq<string>)
    ensures SplitEach(Kept(stretches)) == Kept(AllPieces(stretches))
  {
    if stretches != [] {
      var first, rest := stretches[0], stretches[1..];
      SplitEachKept(rest);
      SplitEachStep(Trim(first), Kept(rest));
      SplitIgnoresTrim(first);
      KeptConcat(Pieces(Segments, first, OPEN), AllPieces(rest));
    }
  }

  /** Splitting each list element at its pipes gives the segments of the whole command, in order. */
  lemma ElementsThenSegments(command: string)
    ensures SplitEach(Split(Elements, command)) == Split(Segments, command)
  {
    var stretches := Pieces(Elements, command, OPEN);
    SplitInTwoSteps(command, OPEN);
    SplitEachKept(stretches);
    AllPiecesOf(stretches[0], stretches[1..]);
    assert stretches == [stretches[0]] + stretches[1..];
  }
}
