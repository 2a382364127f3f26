/** The language of command strings (shell_quote.rs), written as a grammar: every text is spelled by it, and splitting
    gives the words that it spells. */
module ShellReading {
  import opened Sequences
  import opened ShellQuote
  import opened ShellSplit
  import opened Sorting
  import opened Text
  import opened Wrappers

  predicate Opens(p: Platform, c: char) {
    c == '"' || (c == '\'' && p != Cmd)
  }

  /** Inside these quotes the mark is written twice. */
  predicate Doubles(p: Platform, mark: char) {
    (p == Cmd && mark == '"') || (p == PowerShell && mark == '\'')
  }

  /** Inside these quotes a backslash may protect a character. */
  predicate Protects(p: Platform, mark: char) {
    p == Posix && mark == '"'
  }

  predicate Special(c: char) {
    c == '$' || c == '`' || c == '"' || c == '\\'
  }

  /** What may stand inside quotes: a character by itself, a backslash in front of a special character or of another
      one, and the mark written twice. */
  datatype Part = Plain(c: char) | Protected(c: char) | Unprotected(c: char) | TwoMarks

  predicate PartAllowed(p: Platform, mark: char, part: Part) {
    match part
    case Plain(c) => c != mark && !(c == '\\' && Protects(p, mark))
    case Protected(c) => Protects(p, mark) && Special(c)
    case Unprotected(c) => Protects(p, mark) && !Special(c)
    case TwoMarks => Doubles(p, mark)
  }

  function PartText(mark: char, part: Part): string {
    match part
    case Plain(c) => [c]
    case Protected(c) => ['\\', c]
    case Unprotected(c) => ['\\', c]
    case TwoMarks => [mark, mark]
  }

  function PartValue(mark: char, part: Part): string {
    match part
    case Plain(c) => [c]
    case Protected(c) => [c]
    case Unprotected(c) => ['\\', c]
    case TwoMarks => [mark]
  }

  function PartsText(mark: char, parts: seq<Part>): string {
    if parts == [] then "" else PartText(mark, parts[0]) + PartsText(mark, parts[1..])
  }

  function PartsValue(mark: char, parts: seq<Part>): string {
    if parts == [] then "" else PartValue(mark, parts[0]) + PartsValue(mark, parts[1..])
  }

  predicate PartsAllowed(p: Platform, mark: char, parts: seq<Part>) {
    forall i :: 0 <= i < |parts| ==> PartAllowed(p, mark, parts[i])
  }

  /** What a word consists of: bare characters, characters behind a backslash, and quotes. */
  datatype Piece = Bare(c: char) | Backslashed(c: char) | Quoted(mark: char, parts: seq<Part>)

  predicate PieceAllowed(p: Platform, piece: Piece) {
    match piece
    case Bare(c) => !IsWhitespace(c) && !Opens(p, c) && !(c == '\\' && p == Posix)
    case Backslashed(_) => p == Posix
    case Quoted(mark, parts) => Opens(p, mark) && PartsAllowed(p, mark, parts)
  }

  /** Quotes whose mark is written twice inside cannot stand behind quotes of that kind. */
  predicate MayFollow(p: Platform, piece: Piece, next: Piece) {
    piece.Quoted? && next.Quoted? && Doubles(p, piece.mark) ==> next.mark != piece.mark
  }

  function PieceText(piece: Piece): string {
    match piece
    case Bare(c) => [c]
    case Backslashed(c) => ['\\', c]
    case Quoted(mark, parts) => [mark] + PartsText(mark, parts) + [mark]
  }

  function PieceValue(piece: Piece): string {
    match piece
    case Bare(c) => [c]
    case Backslashed(c) => [c]
    case Quoted(mark, parts) => PartsValue(mark, parts)
  }

  function PiecesText(pieces: seq<Piece>): string {
    if pieces == [] then "" else PieceText(pieces[0]) + PiecesText(pieces[1..])
  }

  function PiecesValue(pieces: seq<Piece>): string {
    if pieces == [] then "" else PieceValue(pieces[0]) + PiecesValue(pieces[1..])
  }

  predicate PiecesAllowed(p: Platform, pieces: seq<Piece>) {
    && (forall i :: 0 <= i < |pieces| ==> PieceAllowed(p, pieces[i]))
    && (forall i :: 0 < i < |pieces| ==> MayFollow(p, pieces[i - 1], pieces[i]))
  }

  /** A word and the white space behind it. */
  datatype Entry = Entry(pieces: seq<Piece>, gap: string)

  predicate EntryAllowed(p: Platform, entry: Entry) {
    entry.pieces != [] && PiecesAllowed(p, entry.pieces) && entry.gap != "" && Blank(entry.gap)
  }

  predicate EntriesAllowed(p: Platform, entries: seq<Entry>) {
    forall i :: 0 <= i < |entries| ==> EntryAllowed(p, entries[i])
  }

  function EntriesText(entries: seq<Entry>): string {
    if entries == [] then "" else PiecesText(entries[0].pieces) + entries[0].gap + EntriesText(entries[1..])
  }

  function EntriesValue(entries: seq<Entry>): seq<string> {
    if entries == [] then [] else [PiecesValue(entries[0].pieces)] + EntriesValue(entries[1..])
  }

  /** How a text breaks off: between characters, behind a backslash, or inside quotes, behind a backslash or not. */
  datatype Ending = Whole | Dangling | Unclosed(mark: char, parts: seq<Part>, dangling: bool)

  predicate EndingAllowed(p: Platform, pieces: seq<Piece>, ending: Ending) {
    match ending
    case Whole => true
    case Dangling => p == Posix
    case Unclosed(mark, parts, dangling) =>
      && PieceAllowed(p, Quoted(mark, parts)) && (dangling ==> Protects(p, mark))
      && (pieces != [] ==> MayFollow(p, pieces[|pieces| - 1], Quoted(mark, parts)))
  }

  function EndingText(ending: Ending): string {
    match ending
    case Whole => ""
    case Dangling => "\\"
    case Unclosed(mark, parts, dangling) => [mark] + PartsText(mark, parts) + (if dangling then "\\" else "")
  }

  function EndingValue(ending: Ending): string {
    match ending
    case Whole => ""
    case Dangling => "\\"
    case Unclosed(mark, parts, dangling) => PartsValue(mark, parts) + (if dangling then "\\" else "")
  }

  /** A whole text: white space, words with white space behind each, and a last word, which may be missing or break
      off. */
  datatype Spelling = Spelling(lead: string, entries: seq<Entry>, last: seq<Piece>, ending: Ending)
  {
    predicate Allowed(p: Platform) {
      Blank(lead) && EntriesAllowed(p, entries) && PiecesAllowed(p, last) && EndingAllowed(p, last, ending)
    }

    function Text(): string {
      lead + EntriesText(entries) + PiecesText(last) + EndingText(ending)
    }

    function Value(): seq<string> {
      EntriesValue(entries) +
      if last == [] && ending.Whole? then [] else [PiecesValue(last) + EndingValue(ending)]
    }
  }

  // ----- the splitter reads what is spelled -----

  function Outside(current: string, started: bool, out: seq<string>): Scan {
    Scan(None, false, current, started, out)
  }

  function Inside(mark: char, current: string, out: seq<string>): Scan {
    Scan(Some(mark), false, current, true, out)
  }

  lemma OneStep(p: Platform, ch: char, rest: string, scan: Scan, after: Scan)
    requires Step(GrammarOf(p), scan, ch, First(rest)) == (after, 1)
    ensures Run(GrammarOf(p), [ch] + rest, scan) == Run(GrammarOf(p), rest, after)
  {
    RunOne(GrammarOf(p), ch, rest, scan);
  }

  lemma TwoSteps(p: Platform, a: char, b: char, rest: string, scan: Scan, between: Scan, after: Scan)
    requires Step(GrammarOf(p), scan, a, Some(b)) == (between, 1)
    requires Step(GrammarOf(p), between, b, First(rest)) == (after, 1)
    ensures Run(GrammarOf(p), [a, b] + rest, scan) == Run(GrammarOf(p), rest, after)
  {
    assert [a, b] + rest == [a] + ([b] + rest);
    OneStep(p, a, [b] + rest, scan, between);
    OneStep(p, b, rest, between, after);
  }

  lemma PartReads(p: Platform, mark: char, part: Part, rest: string, current: string, out: seq<string>)
    requires Opens(p, mark) && PartAllowed(p, mark, part)
    ensures Run(GrammarOf(p), PartText(mark, part) + rest, Inside(mark, current, out)) ==
            Run(GrammarOf(p), rest, Inside(mark, current + PartValue(mark, part), out))
  {
    var scan, after := Inside(mark, current, out), Inside(mark, current + PartValue(mark, part), out);
    match part
    case Plain(c) => OneStep(p, c, rest, scan, after);
    case Protected(c) => TwoSteps(p, '\\', c, rest, scan, scan.(escaped := true), after);
    case Unprotected(c) =>
      assert current + ['\\'] + [c] == current + ['\\', c];
      TwoSteps(p, '\\', c, rest, scan, Inside(mark, current + "\\", out), after);
    case TwoMarks =>
      assert [mark, mark] + rest == [mark] + ([mark] + rest);
      RunOne(GrammarOf(p), mark, [mark] + rest, scan);
      assert ([mark] + ([mark] + rest))[2..] == rest;
  }

  lemma {:induction false} PartsRead(p: Platform, mark: char, parts: seq<Part>, rest: string, current: string,
                                     out: seq<string>)
    requires Opens(p, mark) && PartsAllowed(p, mark, parts)
    ensures Run(GrammarOf(p), PartsText(mark, parts) + rest, Inside(mark, current, out)) ==
            Run(GrammarOf(p), rest, Inside(mark, current + PartsValue(mark, parts), out))
  {
    if parts == [] {
      assert "" + rest == rest && current + "" == current;
    } else {
      Regroup(PartText(mark, parts[0]), PartsText(mark, parts[1..]), rest);
      Regroup(current, PartValue(mark, parts[0]), PartsValue(mark, parts[1..]));
      PartReads(p, mark, parts[0], PartsText(mark, parts[1..]) + rest, current, out);
      PartsRead(p, mark, parts[1..], rest, current + PartValue(mark, parts[0]), out);
    }
  }

  lemma UnclosedReads(p: Platform, mark: char, parts: seq<Part>, rest: string, current: string, started: bool,
                      out: seq<string>)
    requires PieceAllowed(p, Quoted(mark, parts))
    ensures Run(GrammarOf(p), [mark] + PartsText(mark, parts) + rest, Outside(current, started, out)) ==
            Run(GrammarOf(p), rest, Inside(mark, current + PartsValue(mark, parts), out))
  {
    var text := PartsText(mark, parts) + rest;
    Regroup([mark], PartsText(mark, parts), rest);
    OneStep(p, mark, text, Outside(current, started, out), Inside(mark, current, out));
    PartsRead(p, mark, parts, rest, current, out);
  }

  /** What stands behind a quote is not read as its mark written twice. */
  predicate MayStandBefore(p: Platform, piece: Piece, rest: string) {
    piece.Quoted? && Doubles(p, piece.mark) ==> First(rest) != Some(piece.mark)
  }

  lemma PieceReads(p: Platform, piece: Piece, rest: string, current: string, started: bool, out: seq<string>)
    requires PieceAllowed(p, piece) && MayStandBefore(p, piece, rest)
    ensures Run(GrammarOf(p), PieceText(piece) + rest, Outside(current, started, out)) ==
            Run(GrammarOf(p), rest, Outside(current + PieceValue(piece), true, out))
  {
    var scan, after := Outside(current, started, out), Outside(current + PieceValue(piece), true, out);
    match piece
    case Bare(c) => OneStep(p, c, rest, scan, after);
    case Backslashed(c) => TwoSteps(p, '\\', c, rest, scan, Scan(None, true, current, true, out), after);
    case Quoted(mark, parts) =>
      Regroup([mark] + PartsText(mark, parts), [mark], rest);
      UnclosedReads(p, mark, parts, [mark] + rest, current, started, out);
      OneStep(p, mark, rest, Inside(mark, current + PartsValue(mark, parts), out), after);
  }

  /** What may stand behind a word. */
  predicate Ends(p: Platform, pieces: seq<Piece>, rest: string) {
    pieces != [] ==> MayStandBefore(p, pieces[|pieces| - 1], rest)
  }

  lemma PieceStandsBefore(p: Platform, piece: Piece, next: Piece, rest: string)
    requires PieceAllowed(p, piece) && PieceAllowed(p, next) && MayFollow(p, piece, next)
    ensures MayStandBefore(p, piece, PieceText(next) + rest)
  {
    var text := PieceText(next) + rest;
    assert text[0] == PieceText(next)[0];
  }

  lemma {:induction false} PiecesRead(p: Platform, pieces: seq<Piece>, rest: string, current: string, started: bool,
                                      out: seq<string>)
    requires PiecesAllowed(p, pieces) && Ends(p, pieces, rest)
    ensures Run(GrammarOf(p), PiecesText(pieces) + rest, Outside(current, started, out)) ==
            Run(GrammarOf(p), rest, Outside(current + PiecesValue(pieces), started || pieces != [], out))
  {
    if pieces == [] {
      assert "" + rest == rest && current + "" == current;
    } else {
      var others := pieces[1..];
      Regroup(PieceText(pieces[0]), PiecesText(others), rest);
      Regroup(current, PieceValue(pieces[0]), PiecesValue(others));
      if others == [] {
        assert PiecesText(others) + rest == rest;
      } else {
        Regroup(PieceText(others[0]), PiecesText(others[1..]), rest);
        PieceStandsBefore(p, pieces[0], pieces[1], PiecesText(others[1..]) + rest);
      }
      PieceReads(p, pieces[0], PiecesText(others) + rest, current, started, out);
      PiecesRead(p, others, rest, current + PieceValue(pieces[0]), true, out);
    }
  }

  lemma {:induction false} LeadReads(p: Platform, lead: string, rest: string, out: seq<string>)
    requires Blank(lead)
    ensures Run(GrammarOf(p), lead + rest, Outside("", false, out)) == Run(GrammarOf(p), rest, Outside("", false, out))
  {
    if lead == "" {
      assert "" + rest == rest;
    } else {
      assert lead + rest == [lead[0]] + (lead[1..] + rest);
      OneStep(p, lead[0], lead[1..] + rest, Outside("", false, out), Outside("", false, out));
      LeadReads(p, lead[1..], rest, out);
    }
  }

  lemma GapReads(p: Platform, c: char, gap: string, rest: string, word: string, out: seq<string>)
    requires IsWhitespace(c) && Blank(gap)
    ensures Run(GrammarOf(p), [c] + gap + rest, Outside(word, true, out)) ==
            Run(GrammarOf(p), rest, Outside("", false, out + [word]))
  {
    Regroup([c], gap, rest);
    OneStep(p, c, gap + rest, Outside(word, true, out), Outside("", false, out + [word]));
    LeadReads(p, gap, rest, out + [word]);
  }

  lemma GapStandsBehind(p: Platform, pieces: seq<Piece>, gap: string, rest: string)
    requires PiecesAllowed(p, pieces) && gap != "" && Blank(gap)
    ensures Ends(p, pieces, gap + rest)
  {
    assert (gap + rest)[0] == gap[0];
  }

  lemma WordReads(p: Platform, pieces: seq<Piece>, rest: string, out: seq<string>)
    requires PiecesAllowed(p, pieces) && Ends(p, pieces, rest)
    ensures Run(GrammarOf(p), PiecesText(pieces) + rest, Outside("", false, out)) ==
            Run(GrammarOf(p), rest, Outside(PiecesValue(pieces), pieces != [], out))
  {
    PiecesRead(p, pieces, rest, "", false, out);
    assert "" + PiecesValue(pieces) == PiecesValue(pieces);
  }

  lemma EntryReads(p: Platform, pieces: seq<Piece>, gap: string, rest: string, out: seq<string>)
    requires pieces != [] && PiecesAllowed(p, pieces) && gap != "" && Blank(gap)
    ensures Run(GrammarOf(p), PiecesText(pieces) + gap + rest, Outside("", false, out)) ==
            Run(GrammarOf(p), rest, Outside("", false, out + [PiecesValue(pieces)]))
  {
    Regroup(PiecesText(pieces), gap, rest);
    GapStandsBehind(p, pieces, gap, rest);
    WordReads(p, pieces, gap + rest, out);
    assert gap == [gap[0]] + gap[1..];
    GapReads(p, gap[0], gap[1..], rest, PiecesValue(pieces), out);
  }

  lemma {:induction false} EntriesRead(p: Platform, entries: seq<Entry>, rest: string, out: seq<string>)
    requires EntriesAllowed(p, entries)
    ensures Run(GrammarOf(p), EntriesText(entries) + rest, Outside("", false, out)) ==
            Run(GrammarOf(p), rest, Outside("", false, out + EntriesValue(entries)))
  {
    if entries == [] {
      assert "" + rest == rest && out + [] == out;
    } else {
      var head, text := entries[0], PiecesText(entries[0].pieces) + entries[0].gap;
      Regroup(text, EntriesText(entries[1..]), rest);
      Regroup(out, [PiecesValue(head.pieces)], EntriesValue(entries[1..]));
      EntryReads(p, head.pieces, head.gap, EntriesText(entries[1..]) + rest, out);
      EntriesRead(p, entries[1..], rest, out + [PiecesValue(head.pieces)]);
    }
  }

  lemma InsideEnds(p: Platform, mark: char, dangling: bool, current: string, out: seq<string>)
    requires dangling ==> Protects(p, mark)
    ensures Run(GrammarOf(p), if dangling then "\\" else "", Inside(mark, current, out)) ==
            out + [current + if dangling then "\\" else ""]
  {
    if dangling {
      OneStep(p, '\\', "", Inside(mark, current, out), Inside(mark, current + "\\", out));
    } else {
      assert current + "" == current;
    }
  }

  lemma UnclosedEnds(p: Platform, mark: char, parts: seq<Part>, dangling: bool, current: string, started: bool,
                     out: seq<string>)
    requires PieceAllowed(p, Quoted(mark, parts)) && (dangling ==> Protects(p, mark))
    ensures Run(GrammarOf(p), EndingText(Unclosed(mark, parts, dangling)), Outside(current, started, out)) ==
            out + [current + EndingValue(Unclosed(mark, parts, dangling))]
  {
    var end := if dangling then "\\" else "";
    UnclosedReads(p, mark, parts, end, current, started, out);
    InsideEnds(p, mark, dangling, current + PartsValue(mark, parts), out);
    Regroup(current, PartsValue(mark, parts), end);
  }

  lemma EndingReads(p: Platform, pieces: seq<Piece>, ending: Ending, current: string, started: bool, out: seq<string>)
    requires EndingAllowed(p, pieces, ending)
    ensures Run(GrammarOf(p), EndingText(ending), Outside(current, started, out)) ==
            out + if started || !ending.Whole? then [current + EndingValue(ending)] else []
  {
    match ending
    case Whole => assert current + "" == current && out + [] == out;
    case Dangling => OneStep(p, '\\', "", Outside(current, started, out), Scan(None, true, current, true, out));
    case Unclosed(mark, parts, dangling) => UnclosedEnds(p, mark, parts, dangling, current, started, out);
  }

  lemma EndingStandsBehind(p: Platform, pieces: seq<Piece>, ending: Ending)
    requires PiecesAllowed(p, pieces) && EndingAllowed(p, pieces, ending)
    ensures Ends(p, pieces, EndingText(ending))
  {
    if ending.Unclosed? {
      assert EndingText(ending)[0] == ending.mark;
    }
  }

  /** The last word, as it stands or breaks off. */
  lemma LastReads(p: Platform, last: seq<Piece>, ending: Ending, out: seq<string>)
    requires PiecesAllowed(p, last) && EndingAllowed(p, last, ending)
    ensures Run(GrammarOf(p), PiecesText(last) + EndingText(ending), Outside("", false, out)) ==
            out + if last == [] && ending.Whole? then [] else [PiecesValue(last) + EndingValue(ending)]
  {
    EndingStandsBehind(p, last, ending);
    WordReads(p, last, EndingText(ending), out);
    EndingReads(p, last, ending, PiecesValue(last), last != [], out);
  }

  lemma RegroupFour(a: string, b: string, c: string, d: string)
    ensures a + b + c + d == a + (b + (c + d))
  {
  }

  /** Splitting a text gives the words that it spells. */
  lemma SplitReadsSpelling(p: Platform, spelling: Spelling)
    requires spelling.Allowed(p)
    ensures Words(p, spelling.Text()) == spelling.Value()
  {
    var Spelling(lead, entries, last, ending) := spelling;
    RegroupFour(lead, EntriesText(entries), PiecesText(last), EndingText(ending));
    LeadReads(p, lead, EntriesText(entries) + (PiecesText(last) + EndingText(ending)), []);
    EntriesRead(p, entries, PiecesText(last) + EndingText(ending), []);
    assert [] + EntriesValue(entries) == EntriesValue(entries);
    LastReads(p, last, ending, EntriesValue(entries));
  }

  // ----- every text is spelled -----

  lemma {:induction false} PartsAppend(mark: char, parts: seq<Part>, part: Part)
    ensures PartsText(mark, parts + [part]) == PartsText(mark, parts) + PartText(mark, part)
  {
    if parts == [] {
      assert PartsText(mark, [part][1..]) == "";
    } else {
      assert (parts + [part])[1..] == parts[1..] + [part];
      PartsAppend(mark, parts[1..], part);
    }
  }

  lemma {:induction false} PiecesAppend(pieces: seq<Piece>, piece: Piece)
    ensures PiecesText(pieces + [piece]) == PiecesText(pieces) + PieceText(piece)
  {
    if pieces == [] {
      assert PiecesText([piece][1..]) == "";
    } else {
      assert (pieces + [piece])[1..] == pieces[1..] + [piece];
      PiecesAppend(pieces[1..], piece);
    }
  }

  lemma {:induction false} EntriesAppend(entries: seq<Entry>, entry: Entry)
    ensures EntriesText(entries + [entry]) == EntriesText(entries) + (PiecesText(entry.pieces) + entry.gap)
  {
    if entries == [] {
      assert EntriesText([entry][1..]) == "";
    } else {
      assert (entries + [entry])[1..] == entries[1..] + [entry];
      EntriesAppend(entries[1..], entry);
    }
  }

  lemma PieceAppended(p: Platform, pieces: seq<Piece>, piece: Piece)
    requires PiecesAllowed(p, pieces) && PieceAllowed(p, piece)
    requires pieces != [] ==> MayFollow(p, pieces[|pieces| - 1], piece)
    ensures PiecesAllowed(p, pieces + [piece])
  {
  }

  lemma PiecesInFront(p: Platform, pieces: seq<Piece>, piece: Piece)
    requires PiecesAllowed(p, pieces + [piece])
    ensures PiecesAllowed(p, pieces) && PieceAllowed(p, piece)
    ensures pieces != [] ==> MayFollow(p, pieces[|pieces| - 1], piece)
  {
    var all := pieces + [piece];
    assert forall i :: 0 <= i < |pieces| ==> pieces[i] == all[i];
    assert all[|pieces|] == piece;
  }

  lemma PartAppended(p: Platform, mark: char, parts: seq<Part>, part: Part)
    requires PartsAllowed(p, mark, parts) && PartAllowed(p, mark, part)
    ensures PartsAllowed(p, mark, parts + [part])
  {
  }

  lemma EntryAppended(p: Platform, entries: seq<Entry>, entry: Entry)
    ensures EntriesAllowed(p, entries + [entry]) <==> EntriesAllowed(p, entries) && EntryAllowed(p, entry)
  {
    var all := entries + [entry];
    assert forall i :: 0 <= i < |entries| ==> entries[i] == all[i];
    assert all[|entries|] == entry;
  }

  lemma BlankAppended(s: string, c: char)
    requires Blank(s) && IsWhitespace(c)
    ensures Blank(s + [c])
  {
  }

  function WordText(word: seq<Piece>, ending: Ending): string {
    PiecesText(word) + EndingText(ending)
  }

  predicate WordAllowed(p: Platform, word: seq<Piece>, ending: Ending) {
    PiecesAllowed(p, word) && EndingAllowed(p, word, ending)
  }

  lemma WithPiece(p: Platform, word: seq<Piece>, piece: Piece) returns (longer: seq<Piece>)
    requires PiecesAllowed(p, word) && PieceAllowed(p, piece)
    requires word != [] ==> MayFollow(p, word[|word| - 1], piece)
    ensures WordAllowed(p, longer, Whole) && WordText(longer, Whole) == PiecesText(word) + PieceText(piece)
  {
    longer := word + [piece];
    PieceAppended(p, word, piece);
    PiecesAppend(word, piece);
    assert PiecesText(longer) + "" == PiecesText(longer);
  }

  /** Another character where the text stands between characters, a mark excepted. */
  lemma ExtendWhole(p: Platform, word: seq<Piece>, c: char) returns (word': seq<Piece>, ending: Ending)
    requires PiecesAllowed(p, word) && !IsWhitespace(c) && !Opens(p, c)
    ensures WordAllowed(p, word', ending) && WordText(word', ending) == PiecesText(word) + [c]
  {
    if p == Posix && c == '\\' {
      word', ending := word, Dangling;
    } else {
      word' := WithPiece(p, word, Bare(c));
      ending := Whole;
    }
  }

  /** The quotes just read go on: their mark is written twice. */
  lemma ExtendTwoMarks(p: Platform, word: seq<Piece>, mark: char, parts: seq<Part>) returns (ending: Ending)
    requires PiecesAllowed(p, word + [Quoted(mark, parts)]) && Doubles(p, mark)
    ensures WordAllowed(p, word, ending)
    ensures WordText(word, ending) == PiecesText(word) + ([mark] + PartsText(mark, parts) + [mark] + [mark])
  {
    PiecesInFront(p, word, Quoted(mark, parts));
    ending := WithPart(p, word, mark, parts, TwoMarks);
    assert [mark] + PartsText(mark, parts) + [mark, mark] == [mark] + PartsText(mark, parts) + [mark] + [mark];
  }

  /** Another mark: it opens quotes, or turns out to be the second of two inside the quotes just read. */
  lemma ExtendMark(p: Platform, word: seq<Piece>, c: char) returns (word': seq<Piece>, ending: Ending)
    requires PiecesAllowed(p, word) && Opens(p, c)
    ensures WordAllowed(p, word', ending) && WordText(word', ending) == PiecesText(word) + [c]
  {
    var n := |word| - 1;
    if word == [] || MayFollow(p, word[n], Quoted(c, [])) {
      word', ending := word, Unclosed(c, [], false);
    } else {
      word' := word[..n];
      assert word == word' + [word[n]];
      ending := ExtendTwoMarks(p, word', c, word[n].parts);
      PiecesAppend(word', word[n]);
      Regroup(PiecesText(word'), PieceText(word[n]), [c]);
    }
  }

  lemma WithPart(p: Platform, word: seq<Piece>, mark: char, parts: seq<Part>, part: Part) returns (ending: Ending)
    requires PiecesAllowed(p, word) && EndingAllowed(p, word, Unclosed(mark, parts, false))
    requires PartAllowed(p, mark, part)
    ensures WordAllowed(p, word, ending)
    ensures WordText(word, ending) == PiecesText(word) + ([mark] + PartsText(mark, parts) + PartText(mark, part))
  {
    ending := Unclosed(mark, parts + [part], false);
    PartAppended(p, mark, parts, part);
    PartsAppend(mark, parts, part);
    Regroup([mark], PartsText(mark, parts), PartText(mark, part));
  }

  /** Another character inside quotes. */
  lemma ExtendUnclosed(p: Platform, word: seq<Piece>, mark: char, parts: seq<Part>, c: char)
    returns (word': seq<Piece>, ending: Ending)
    requires WordAllowed(p, word, Unclosed(mark, parts, false))
    ensures WordAllowed(p, word', ending)
    ensures WordText(word', ending) == PiecesText(word) + ([mark] + PartsText(mark, parts) + [c])
  {
    if c == mark {
      word' := WithPiece(p, word, Quoted(mark, parts));
      ending := Whole;
    } else if c == '\\' && Protects(p, mark) {
      word', ending := word, Unclosed(mark, parts, true);
    } else {
      word' := word;
      ending := WithPart(p, word, mark, parts, Plain(c));
    }
  }

  lemma ExtendDangling(p: Platform, word: seq<Piece>, mark: char, parts: seq<Part>, c: char) returns (ending: Ending)
    requires WordAllowed(p, word, Unclosed(mark, parts, true))
    ensures WordAllowed(p, word, ending)
    ensures WordText(word, ending) == PiecesText(word) + ([mark] + PartsText(mark, parts) + ['\\', c])
  {
    ending := WithPart(p, word, mark, parts, if Special(c) then Protected(c) else Unprotected(c));
  }

  /** Another character inside quotes, or behind a backslash inside quotes. */
  lemma ExtendInside(p: Platform, word: seq<Piece>, mark: char, parts: seq<Part>, dangling: bool, c: char)
    returns (word': seq<Piece>, ending: Ending)
    requires WordAllowed(p, word, Unclosed(mark, parts, dangling))
    ensures WordAllowed(p, word', ending)
    ensures WordText(word', ending) == WordText(word, Unclosed(mark, parts, dangling)) + [c]
  {
    var open := [mark] + PartsText(mark, parts);
    if dangling {
      word' := word;
      ending := ExtendDangling(p, word, mark, parts, c);
      assert open + ['\\', c] == (open + "\\") + [c];
      Regroup(PiecesText(word), open + "\\", [c]);
    } else {
      word', ending := ExtendUnclosed(p, word, mark, parts, c);
      assert open + "" == open;
      Regroup(PiecesText(word), open, [c]);
    }
  }

  /** Another character where no quotes are open. */
  lemma ExtendOutside(p: Platform, word: seq<Piece>, dangling: bool, c: char)
    returns (word': seq<Piece>, ending: Ending)
    requires PiecesAllowed(p, word) && (if dangling then p == Posix else !IsWhitespace(c))
    ensures WordAllowed(p, word', ending)
    ensures WordText(word', ending) == PiecesText(word) + if dangling then ['\\', c] else [c]
  {
    if dangling {
      word' := WithPiece(p, word, Backslashed(c));
      ending := Whole;
    } else if Opens(p, c) {
      word', ending := ExtendMark(p, word, c);
    } else {
      word', ending := ExtendWhole(p, word, c);
    }
  }

  lemma ExtendWord(p: Platform, word: seq<Piece>, ending: Ending, c: char) returns (word': seq<Piece>, ending': Ending)
    requires WordAllowed(p, word, ending) && !(ending.Whole? && IsWhitespace(c))
    ensures WordAllowed(p, word', ending') && WordText(word', ending') == WordText(word, ending) + [c]
  {
    match ending
    case Whole => word', ending' := ExtendOutside(p, word, false, c);
    case Dangling =>
      word', ending' := ExtendOutside(p, word, true, c);
      assert PiecesText(word) + ['\\', c] == PiecesText(word) + "\\" + [c];
    case Unclosed(mark, parts, dangling) => word', ending' := ExtendInside(p, word, mark, parts, dangling, c);
  }

  lemma LongerGapAllowed(p: Platform, before: seq<Entry>, pieces: seq<Piece>, gap: string, c: char)
    requires EntriesAllowed(p, before + [Entry(pieces, gap)]) && IsWhitespace(c)
    ensures EntriesAllowed(p, before + [Entry(pieces, gap + [c])])
  {
    EntryAppended(p, before, Entry(pieces, gap));
    BlankAppended(gap, c);
    EntryAppended(p, before, Entry(pieces, gap + [c]));
  }

  lemma LongerGapText(before: seq<Entry>, pieces: seq<Piece>, gap: string, c: char)
    ensures EntriesText(before + [Entry(pieces, gap + [c])]) == EntriesText(before + [Entry(pieces, gap)]) + [c]
  {
    EntriesAppend(before, Entry(pieces, gap));
    EntriesAppend(before, Entry(pieces, gap + [c]));
    Regroup(PiecesText(pieces), gap, [c]);
    Regroup(EntriesText(before), PiecesText(pieces) + gap, [c]);
  }

  lemma ExtendGap(p: Platform, lead: string, entries: seq<Entry>, c: char) returns (lead': string, entries': seq<Entry>)
    requires Blank(lead) && EntriesAllowed(p, entries) && IsWhitespace(c)
    ensures Blank(lead') && EntriesAllowed(p, entries')
    ensures lead' + EntriesText(entries') == lead + EntriesText(entries) + [c]
  {
    if entries == [] {
      BlankAppended(lead, c);
      lead', entries' := lead + [c], [];
    } else {
      var before, entry := entries[..|entries| - 1], entries[|entries| - 1];
      assert entries == before + [entry];
      LongerGapAllowed(p, before, entry.pieces, entry.gap, c);
      LongerGapText(before, entry.pieces, entry.gap, c);
      lead', entries' := lead, before + [Entry(entry.pieces, entry.gap + [c])];
      Regroup(lead, EntriesText(entries), [c]);
    }
  }

  lemma ExtendBlank(p: Platform, s: Spelling, c: char) returns (r: Spelling)
    requires s.Allowed(p) && s.ending.Whole? && IsWhitespace(c)
    ensures r.Allowed(p) && r.Text() == s.Text() + [c]
  {
    if s.last == [] {
      var lead, entries := ExtendGap(p, s.lead, s.entries, c);
      r := Spelling(lead, entries, [], Whole);
    } else {
      var entry := Entry(s.last, [c]);
      r := Spelling(s.lead, s.entries + [entry], [], Whole);
      EntryAppended(p, s.entries, entry);
      EntriesAppend(s.entries, entry);
      RegroupFour(s.lead, EntriesText(s.entries), PiecesText(s.last), [c]);
    }
  }

  lemma Extend(p: Platform, s: Spelling, c: char) returns (r: Spelling)
    requires s.Allowed(p)
    ensures r.Allowed(p) && r.Text() == s.Text() + [c]
  {
    if s.ending.Whole? && IsWhitespace(c) {
      r := ExtendBlank(p, s, c);
    } else {
      var last, ending := ExtendWord(p, s.last, s.ending, c);
      r := Spelling(s.lead, s.entries, last, ending);
      var front := s.lead + EntriesText(s.entries);
      Regroup(front, PiecesText(last), EndingText(ending));
      Regroup(front, PiecesText(s.last), EndingText(s.ending));
      Regroup(front, WordText(s.last, s.ending), [c]);
    }
  }

  /** There is no other kind of text, so the grammar says for each what splitting gives. */
  lemma {:induction false} EveryTextIsSpelled(p: Platform, text: string) returns (spelling: Spelling)
    ensures spelling.Allowed(p) && spelling.Text() == text && Words(p, text) == spelling.Value()
  {
    if text == "" {
      spelling := Spelling("", [], [], Whole);
    } else {
      var n := |text| - 1;
      spelling := EveryTextIsSpelled(p, text[..n]);
      spelling := Extend(p, spelling, text[n]);
      assert text[..n] + [text[n]] == text;
    }
    SplitReadsSpelling(p, spelling);
  }

  // ----- what follows for posix -----

  lemma WordAlone(p: Platform, pieces: seq<Piece>)
    requires pieces != [] && PiecesAllowed(p, pieces)
    ensures Words(p, PiecesText(pieces)) == [PiecesValue(pieces)]
  {
    WordReads(p, pieces, "", []);
    assert PiecesText(pieces) + "" == PiecesText(pieces);
  }

  lemma PieceAlone(p: Platform, piece: Piece)
    requires PieceAllowed(p, piece)
    ensures Words(p, PieceText(piece)) == [PieceValue(piece)]
  {
    WordAlone(p, [piece]);
    assert [piece][1..] == [];
    assert PiecesText([piece]) == PieceText(piece) + "" == PieceText(piece);
    assert PiecesValue([piece]) == PieceValue(piece) + "" == PieceValue(piece);
  }

  function Protect(c: char): Part {
    if Special(c) then Protected(c) else Plain(c)
  }

  /** A character as it is written between double quotes. */
  function Guarded(c: char): string {
    if c == '$' || c == '`' || c == '"' || c == '\\' then ['\\', c] else [c]
  }

  lemma {:induction false} ProtectedParts(s: string)
    ensures PartsText('"', Mapped(s, Protect)) == FlatMap(s, Guarded)
    ensures PartsValue('"', Mapped(s, Protect)) == s
  {
    if s != "" {
      assert Mapped(s, Protect)[1..] == Mapped(s[1..], Protect);
      ProtectedParts(s[1..]);
    }
  }

  lemma ProtectedAllowed(s: string)
    ensures PartsAllowed(Posix, '"', Mapped(s, Protect))
  {
    assert forall i :: 0 <= i < |s| ==> Mapped(s, Protect)[i] == Protect(s[i]);
  }

  /** Any text can stand between double quotes, with a backslash before each special character. */
  lemma DoubleQuotedReadsBack(s: string)
    ensures Words(Posix, ['"'] + FlatMap(s, Guarded) + ['"']) == [s]
  {
    var piece := Quoted('"', Mapped(s, Protect));
    ProtectedParts(s);
    ProtectedAllowed(s);
    PieceAlone(Posix, piece);
  }

  function Backslash(c: char): Piece {
    Backslashed(c)
  }

  function BehindBackslash(c: char): string {
    ['\\', c]
  }

  lemma {:induction false} BackslashedPieces(s: string)
    ensures PiecesText(Mapped(s, Backslash)) == FlatMap(s, BehindBackslash)
    ensures PiecesValue(Mapped(s, Backslash)) == s
  {
    if s != "" {
      assert Mapped(s, Backslash)[1..] == Mapped(s[1..], Backslash);
      BackslashedPieces(s[1..]);
    }
  }

  lemma BackslashesAllowed(s: string)
    ensures PiecesAllowed(Posix, Mapped(s, Backslash))
  {
    var pieces := Mapped(s, Backslash);
    assert forall i :: 0 <= i < |s| ==> pieces[i] == Backslashed(s[i]);
  }

  /** Any character behind a backslash stands for itself, white space and quotation marks included. */
  lemma BackslashedReadsBack(s: string)
    requires s != ""
    ensures Words(Posix, FlatMap(s, BehindBackslash)) == [s]
  {
    BackslashedPieces(s);
    BackslashesAllowed(s);
    WordAlone(Posix, Mapped(s, Backslash));
  }

  /** Between double quotes a backslash in front of any other character stays. */
  lemma OtherBackslashStays(c: char)
    requires c != '$' && c != '`' && c != '"' && c != '\\'
    ensures Words(Posix, ['"', '\\', c, '"']) == [['\\', c]]
  {
    var parts := [Unprotected(c)];
    assert parts[1..] == [];
    assert PartsText('"', parts) == ['\\', c] + "" == ['\\', c];
    assert PartsValue('"', parts) == ['\\', c] + "" == ['\\', c];
    assert PieceText(Quoted('"', parts)) == ['"', '\\', c, '"'];
    PieceAlone(Posix, Quoted('"', parts));
  }
}
