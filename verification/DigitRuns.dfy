/** The normal form that forgets digits (lib.rs): every maximal run of ASCII digits becomes one `#`. */
module DigitRuns {
  import opened Sequences

  predicate IsDigitChar(c: char) {
    '0' <= c <= '9'
  }

  /** The normal form of what is left of a line, inside a run of digits or not. */
  function NormalFrom(line: string, inRun: bool): string {
    if line == "" then ""
    else if !IsDigitChar(line[0]) then [line[0]] + NormalFrom(line[1..], false)
    else if inRun then NormalFrom(line[1..], true)
    else ['#'] + NormalFrom(line[1..], true)
  }

  function Normal(line: string): string {
    NormalFrom(line, false)
  }

  method NormalizeDigitRuns(line: string) returns (out: string)
    ensures out == Normal(line)
  {
    out := "";
    var inRun := false;
    for i := 0 to |line|
      invariant out + NormalFrom(line[i..], inRun) == Normal(line)
    {
      var c := line[i];
      ghost var before, rest := out, line[i..];
      assert rest[0] == c && rest[1..] == line[i + 1..];
      if IsDigitChar(c) {
        if !inRun {
          out := out + ['#'];
          inRun := true;
          Regroup(before, ['#'], NormalFrom(rest[1..], true));
        }
      } else {
        inRun := false;
        out := out + [c];
        Regroup(before, [c], NormalFrom(rest[1..], false));
      }
    }
  }

  lemma DigitChars(c: char)
    ensures IsDigitChar(c) <==> c in "0123456789"
  {
  }

  // ----- what the normal form means -----

  /** A stretch of a line: a maximal run of digits, or one other character. */
  datatype Piece = Run(digits: string) | Other(c: char)

  function RunLength(line: string): (n: nat)
    ensures n <= |line| && (forall i :: 0 <= i < n ==> IsDigitChar(line[i])) && (n < |line| ==> !IsDigitChar(line[n]))
  {
    if line != "" && IsDigitChar(line[0]) then 1 + RunLength(line[1..]) else 0
  }

  function Pieces(line: string): seq<Piece>
    decreases |line|
  {
    if line == "" then []
    else if IsDigitChar(line[0]) then [Run(line[..RunLength(line)])] + Pieces(line[RunLength(line)..])
    else [Other(line[0])] + Pieces(line[1..])
  }

  function PieceText(p: Piece): string {
    match p case Run(digits) => digits case Other(c) => [c]
  }

  function Spell(pieces: seq<Piece>): string {
    if pieces == [] then "" else PieceText(pieces[0]) + Spell(pieces[1..])
  }

  /** Runs are whole: not empty, only digits, and never next to each other; no other piece is a digit. */
  ghost predicate RunsWhole(pieces: seq<Piece>) {
    && (forall i :: 0 <= i < |pieces| && pieces[i].Run? ==>
          pieces[i].digits != "" && forall k :: 0 <= k < |pieces[i].digits| ==> IsDigitChar(pieces[i].digits[k]))
    && (forall i :: 0 <= i < |pieces| && pieces[i].Other? ==> !IsDigitChar(pieces[i].c))
    && (forall i, j :: 0 <= i && j == i + 1 && j < |pieces| && pieces[i].Run? ==> pieces[j].Other?)
  }

  lemma RunsWholeMore(piece: Piece, rest: seq<Piece>)
    requires RunsWhole(rest) && RunsWhole([piece]) && (piece.Run? && rest != [] ==> rest[0].Other?)
    ensures RunsWhole([piece] + rest)
  {
    var all := [piece] + rest;
    assert [piece][0] == piece;
    forall i, j | 0 <= i && j == i + 1 && j < |all| && all[i].Run?
      ensures all[j].Other?
    {
      assert i > 0 ==> rest[i - 1].Run? && all[j] == rest[i];
    }
  }

  /** A line is cut where its runs of digits begin and end. */
  lemma {:induction false} PiecesRunsWhole(line: string)
    ensures RunsWhole(Pieces(line))
    decreases |line|
  {
    if line != "" {
      var n := if IsDigitChar(line[0]) then RunLength(line) else 1;
      PiecesRunsWhole(line[n..]);
      RunsWholeMore(Pieces(line)[0], Pieces(line[n..]));
    }
  }

  lemma SpellFirst(piece: Piece, rest: seq<Piece>)
    ensures Spell([piece] + rest) == PieceText(piece) + Spell(rest)
  {
    assert ([piece] + rest)[1..] == rest;
  }

  /** The pieces are the line. */
  lemma {:induction false} PiecesSpell(line: string)
    ensures Spell(Pieces(line)) == line
    decreases |line|
  {
    if line != "" {
      var n := if IsDigitChar(line[0]) then RunLength(line) else 1;
      PiecesSpell(line[n..]);
      SpellFirst(if IsDigitChar(line[0]) then Run(line[..n]) else Other(line[0]), Pieces(line[n..]));
      assert line == line[..n] + line[n..];
    }
  }

  /** What a piece becomes. */
  function Sign(p: Piece): char {
    match p case Run(_) => '#' case Other(c) => c
  }

  lemma {:induction false} RunForgotten(line: string)
    ensures NormalFrom(line, true) == NormalFrom(line[RunLength(line)..], false)
  {
    if line != "" && IsDigitChar(line[0]) {
      RunForgotten(line[1..]);
      assert line[1..][RunLength(line[1..])..] == line[RunLength(line)..];
    }
  }

  lemma {:induction false} NormalIsSigns(line: string)
    ensures |Normal(line)| == |Pieces(line)| && forall i :: 0 <= i < |Pieces(line)| ==>
            Normal(line)[i] == Sign(Pieces(line)[i])
    decreases |line|
  {
    if line != "" {
      if IsDigitChar(line[0]) {
        RunForgotten(line[1..]);
        assert line[1..][RunLength(line[1..])..] == line[RunLength(line)..];
        NormalIsSigns(line[RunLength(line)..]);
      } else {
        NormalIsSigns(line[1..]);
      }
    }
  }

  /** Lines that differ only in the digits of their runs. */
  ghost predicate SameShape(a: string, b: string) {
    && |Pieces(a)| == |Pieces(b)|
    && forall i :: 0 <= i < |Pieces(a)| ==> Pieces(a)[i] == Pieces(b)[i] || (Pieces(a)[i].Run? && Pieces(b)[i].Run?)
  }

  /** Lines with equal normal forms agree piece by piece, up to the digits of runs and a literal `#` in the place
      of a run. */
  lemma NormalsEqualIff(a: string, b: string)
    ensures Normal(a) == Normal(b) <==>
            && |Pieces(a)| == |Pieces(b)|
            && forall i :: 0 <= i < |Pieces(a)| ==>
                 Pieces(a)[i] == Pieces(b)[i] || (Sign(Pieces(a)[i]) == '#' && Sign(Pieces(b)[i]) == '#')
  {
    NormalIsSigns(a);
    NormalIsSigns(b);
  }

  lemma {:induction false} NoHashPiece(line: string, i: nat)
    requires '#' !in line && i < |Pieces(line)|
    ensures Sign(Pieces(line)[i]) == '#' <==> Pieces(line)[i].Run?
    decreases |line|
  {
    if i > 0 {
      var n := if IsDigitChar(line[0]) then RunLength(line) else 1;
      NoHashPiece(line[n..], i - 1);
    }
  }

  /** Lines without `#` have equal normal forms exactly when they differ only in the digits of their runs. */
  lemma SameShapeIff(a: string, b: string)
    requires '#' !in a && '#' !in b
    ensures Normal(a) == Normal(b) <==> SameShape(a, b)
  {
    NormalsEqualIff(a, b);
    forall i | 0 <= i < |Pieces(a)|
      ensures Sign(Pieces(a)[i]) == '#' <==> Pieces(a)[i].Run?
    {
      NoHashPiece(a, i);
    }
    forall i | 0 <= i < |Pieces(b)|
      ensures Sign(Pieces(b)[i]) == '#' <==> Pieces(b)[i].Run?
    {
      NoHashPiece(b, i);
    }
  }

  /** A `#` in a line reads as a run of digits. */
  lemma HashReadsAsRun()
    ensures Normal("a1") == Normal("a#") && !SameShape("a1", "a#")
  {
    assert "a1"[1..] == "1" && "1"[1..] == "" && "a#"[1..] == "#" && "#"[1..] == "";
    assert Pieces("#") == [Other('#')] && Pieces("a#")[1] == Other('#');
    assert Pieces("1")[0].Run? && Pieces("a1")[1].Run?;
  }
}
