/** The text of a summary (lib.rs): the selected lines and the markers of the gaps, pushed one after another onto a
    prefix, or the head and the tail of the text when nothing is selected. */
module SummaryText {
  import opened LineSummary
  import opened LineText
  import opened LineViews
  import opened Machine
  import opened Sequences
  import opened Text
  import opened Wrappers

  // ----- pushing lines -----

  /** A text ready to take a line: empty, or ending in a line feed. */
  function Opened(out: string): string {
    if out == "" || EndsWith(out, '\n') then out else out + "\n"
  }

  function PushAll(out: string, texts: seq<string>): string
    decreases |texts|
  {
    if texts == [] then out else PushAll(Opened(out) + texts[0], texts[1..])
  }

  method PushSummaryLine(out: string, line: string) returns (r: string)
    ensures r == Opened(out) + line
  {
    r := out;
    if r != "" && r[|r| - 1] != '\n' {
      r := r + "\n";
    }
    r := r + line;
  }

  lemma {:induction false} PushOneMore(out: string, texts: seq<string>, t: string)
    ensures PushAll(out, texts + [t]) == Opened(PushAll(out, texts)) + t
    decreases |texts|
  {
    if texts == [] {
      assert (texts + [t])[1..] == [];
    } else {
      assert (texts + [t])[1..] == texts[1..] + [t];
      PushOneMore(Opened(out) + texts[0], texts[1..], t);
    }
  }

  /** The lines that can be seen in the text: every empty line but the last is lost. */
  function Shown(texts: seq<string>): (shown: seq<string>)
    requires texts != []
    ensures shown != []
  {
    if |texts| == 1 then texts
    else if texts[0] == "" then Shown(texts[1..])
    else [texts[0]] + Shown(texts[1..])
  }

  ghost predicate NoneEmptyBeforeLast(texts: seq<string>) {
    forall i :: 0 <= i < |texts| - 1 ==> texts[i] != ""
  }

  lemma {:induction false} ShownHoldNoFeed(texts: seq<string>)
    requires texts != [] && NoFeeds(texts)
    ensures NoFeeds(Shown(texts))
  {
    if |texts| > 1 {
      ShownHoldNoFeed(texts[1..]);
    }
  }

  lemma OpenedTwice(out: string, t: string)
    requires NoFeed(t)
    ensures Opened(Opened(out) + t) == if t == "" then Opened(out) else Opened(out) + t + "\n"
  {
  }

  /** Pushing lines one after another joins the lines shown onto the prefix. */
  lemma {:induction false} PushedIsJoined(out: string, texts: seq<string>)
    requires texts != [] && NoFeeds(texts)
    ensures PushAll(out, texts) == Opened(out) + Join(Shown(texts), "\n")
    decreases |texts|
  {
    if |texts| > 1 {
      var rest := Join(Shown(texts[1..]), "\n");
      OpenedTwice(out, texts[0]);
      PushedIsJoined(Opened(out) + texts[0], texts[1..]);
      if texts[0] != "" {
        assert Shown(texts)[1..] == Shown(texts[1..]);
        Regroup(Opened(out), texts[0] + "\n", rest);
        Regroup(Opened(out), texts[0], "\n");
      }
    }
  }

  /** Reading the pushed text back gives the lines shown. */
  lemma PushedReadsBack(out: string, texts: seq<string>)
    requires texts != [] && NoFeeds(texts)
    ensures Opened(out) <= PushAll(out, texts)
    ensures SplitLines(PushAll(out, texts)[|Opened(out)|..]) == Shown(texts)
  {
    PushedIsJoined(out, texts);
    ShownHoldNoFeed(texts);
    SplitUndoesJoin(Shown(texts));
    SplitConcat(Opened(out), Join(Shown(texts), "\n"));
  }

  /** The lines shown are the lines pushed exactly when no line but the last is empty. */
  lemma {:induction false} ShownIffNoneEmpty(texts: seq<string>)
    requires texts != []
    ensures |Shown(texts)| <= |texts|
    ensures Shown(texts) == texts <==> NoneEmptyBeforeLast(texts)
    ensures |Shown(texts)| == |texts| <==> NoneEmptyBeforeLast(texts)
  {
    if |texts| > 1 {
      ShownIffNoneEmpty(texts[1..]);
      assert texts == [texts[0]] + texts[1..];
      assert NoneEmptyBeforeLast(texts) <==> texts[0] != "" && NoneEmptyBeforeLast(texts[1..]) by {
        assert forall i :: 0 <= i < |texts| - 2 ==> texts[1..][i] == texts[i + 1];
      }
    }
  }

  // ----- the selected lines as text -----

  /** The marker of a gap in a selection. */
  const SUMMARY_GAP := Marker("... +", " lines" + EXACT_REF)

  lemma SummaryGapHasNoFeed()
    ensures NoFeed(SUMMARY_GAP.before) && NoFeed(SUMMARY_GAP.after)
  {
  }

  function SelectionText(prefix: string, lines: seq<string>, keep: seq<bool>): string
    requires |keep| == |lines|
  {
    PushAll(prefix, Texts(SUMMARY_GAP, Marked(lines, keep, 0)))
  }

  lemma PushItem(prefix: string, m: Marker, done: seq<Item>, item: Item)
    ensures PushAll(prefix, Texts(m, done + [item])) == Opened(PushAll(prefix, Texts(m, done))) + ItemText(m, item)
  {
    TextsAppend(m, done, item);
    PushOneMore(prefix, Texts(m, done), ItemText(m, item));
  }

  /** Pushes the kept lines, each after the marker of the gap before it. */
  method RenderSelection(prefix: string, lines: seq<string>, keep: seq<bool>) returns (out: string)
    requires |keep| == |lines|
    ensures out == SelectionText(prefix, lines, keep)
  {
    out := prefix;
    var omitted: nat := 0;
    ghost var done: seq<Item> := [];
    for idx := 0 to |lines|
      invariant out == PushAll(prefix, Texts(SUMMARY_GAP, done))
      invariant done + Marked(lines[idx..], keep[idx..], omitted) == Marked(lines, keep, 0)
    {
      if !keep[idx] {
        SkippedLine(lines, keep, idx, omitted);
        omitted := omitted + 1;
      } else {
        TakenAfterGap(lines, keep, idx, omitted, done);
        if omitted > 0 {
          PushItem(prefix, SUMMARY_GAP, done, Gap(omitted));
          out := PushSummaryLine(out, MarkerText(SUMMARY_GAP, omitted));
          done, omitted := done + [Gap(omitted)], 0;
        }
        PushItem(prefix, SUMMARY_GAP, done, Line(lines[idx]));
        out := PushSummaryLine(out, lines[idx]);
        done := done + [Line(lines[idx])];
      }
    }
    assert lines[|lines|..] == [];
    if omitted > 0 {
      PushItem(prefix, SUMMARY_GAP, done, Gap(omitted));
      out := PushSummaryLine(out, MarkerText(SUMMARY_GAP, omitted));
      done := done + [Gap(omitted)];
    }
    assert done == Marked(lines, keep, 0);
  }

  lemma TakenAfterGap(lines: seq<string>, keep: seq<bool>, idx: nat, omitted: nat, done: seq<Item>)
    requires |keep| == |lines| && idx < |lines| && keep[idx]
    ensures var rest := Marked(lines[idx + 1..], keep[idx + 1..], 0);
            done + Marked(lines[idx..], keep[idx..], omitted) ==
            (if omitted > 0 then done + [Gap(omitted)] else done) + [Line(lines[idx])] + rest
  {
    assert lines[idx..][1..] == lines[idx + 1..] && keep[idx..][1..] == keep[idx + 1..];
  }

  /** No kept line but the last line of all is empty. */
  ghost predicate NoneLost(lines: seq<string>, keep: seq<bool>)
    requires |keep| == |lines|
  {
    forall i :: 0 <= i < |lines| - 1 && keep[i] ==> lines[i] != ""
  }

  lemma NoneLostFirst(lines: seq<string>, keep: seq<bool>)
    requires |keep| == |lines| > 1
    ensures NoneLost(lines, keep) <==> (keep[0] ==> lines[0] != "") && NoneLost(lines[1..], keep[1..])
  {
    if NoneLost(lines[1..], keep[1..]) && (keep[0] ==> lines[0] != "") {
      forall i | 0 <= i < |lines| - 1 && keep[i]
        ensures lines[i] != ""
      {
        assert i > 0 ==> keep[1..][i - 1];
      }
    }
  }

  lemma {:induction false} EmptyTextsAreLines(m: Marker, lines: seq<string>, keep: seq<bool>, omitted: nat)
    requires |keep| == |lines| && m.before != "" && (lines != [] || omitted > 0)
    ensures var texts := Texts(m, Marked(lines, keep, omitted));
            texts != [] && (NoneEmptyBeforeLast(texts) <==> NoneLost(lines, keep))
    decreases |lines|
  {
    if |lines| > 1 {
      NoneLostFirst(lines, keep);
    }
    if lines != [] {
      var rest := Marked(lines[1..], keep[1..], if keep[0] then 0 else omitted + 1);
      if !keep[0] {
        EmptyTextsAreLines(m, lines[1..], keep[1..], omitted + 1);
      } else {
        if |lines| > 1 {
          EmptyTextsAreLines(m, lines[1..], keep[1..], 0);
        }
        NoneEmptyAfter(m, omitted, lines[0], rest);
      }
    }
  }

  lemma NoneEmptyAfter(m: Marker, omitted: nat, line: string, rest: seq<Item>)
    requires m.before != ""
    ensures NoneEmptyBeforeLast(Texts(m, PendingGap(omitted) + [Line(line)] + rest)) <==>
            rest == [] || (line != "" && NoneEmptyBeforeLast(Texts(m, rest)))
  {
    var items := PendingGap(omitted) + [Line(line)] + rest;
    var texts, gaps := Texts(m, items), |PendingGap(omitted)|;
    assert texts[gaps] == line;
    forall i | 0 <= i < |rest|
      ensures texts[gaps + 1 + i] == Texts(m, rest)[i]
    {
    }
    if rest != [] && NoneEmptyBeforeLast(texts) {
      forall i | 0 <= i < |rest| - 1
        ensures Texts(m, rest)[i] != ""
      {
        assert texts[gaps + 1 + i] != "";
      }
    }
  }

  lemma {:induction false} LostLinesShorten(m: Marker, texts: seq<string>)
    requires texts != [] && m.before != ""
    ensures |ReadBack(m, Shown(texts))| <= |ReadBack(m, texts)|
    ensures !NoneEmptyBeforeLast(texts) ==> |ReadBack(m, Shown(texts))| < |ReadBack(m, texts)|
  {
    if |texts| > 1 {
      LostLinesShorten(m, texts[1..]);
      if texts[0] != "" {
        assert Shown(texts)[1..] == Shown(texts[1..]);
        if !NoneEmptyBeforeLast(texts) {
          var i :| 0 <= i < |texts| - 1 && texts[i] == "";
          assert texts[1..][i - 1] == "";
        }
      }
    }
  }

  /** The text of a selection, after its prefix, gives back every kept line and counts every other line in place,
      exactly when no kept line reads as a marker and none but the last line of all is empty. */
  lemma SelectionReadsBackIff(prefix: string, lines: seq<string>, keep: seq<bool>)
    requires |keep| == |lines| > 0 && NoFeeds(lines)
    ensures var text := SelectionText(prefix, lines, keep);
            && Opened(prefix) <= text
            && var shown := ReadBack(SUMMARY_GAP, SplitLines(text[|Opened(prefix)|..]));
               && (shown == Blanked(lines, keep) <==> NoneMisread(SUMMARY_GAP, lines, keep) && NoneLost(lines, keep))
               && (NoneMisread(SUMMARY_GAP, lines, keep) && !NoneLost(lines, keep) ==> |shown| < |lines|)
  {
    var texts := Texts(SUMMARY_GAP, Marked(lines, keep, 0));
    SummaryGapHasNoFeed();
    MarkedHoldNoFeed(SUMMARY_GAP, lines, keep);
    EmptyTextsAreLines(SUMMARY_GAP, lines, keep, 0);
    PushedReadsBack(prefix, texts);
    ShownIffNoneEmpty(texts);
    LostLinesShorten(SUMMARY_GAP, texts);
    ViewReadsBackIff(SUMMARY_GAP, lines, keep);
    if !NoneMisread(SUMMARY_GAP, lines, keep) {
      MisreadNeverReadsBack(SUMMARY_GAP, Shown(texts), lines, keep);
    }
  }

  /** A kept line that is not empty is seen in the text. */
  lemma KeptIsSeen(prefix: string, lines: seq<string>, keep: seq<bool>, i: nat)
    requires |keep| == |lines| && NoFeeds(lines) && i < |lines| && keep[i] && lines[i] != ""
    ensures Opened(prefix) <= SelectionText(prefix, lines, keep)
    ensures lines[i] in SplitLines(SelectionText(prefix, lines, keep)[|Opened(prefix)|..])
  {
    var texts := Texts(SUMMARY_GAP, Marked(lines, keep, 0));
    SummaryGapHasNoFeed();
    MarkedHoldNoFeed(SUMMARY_GAP, lines, keep);
    KeptIsShown(SUMMARY_GAP, lines, keep, i);
    PushedReadsBack(prefix, texts);
    OnlyEmptyLost(texts, lines[i]);
  }

  lemma {:induction false} OnlyEmptyLost(texts: seq<string>, t: string)
    requires t in texts && t != ""
    ensures t in Shown(texts)
  {
    if |texts| > 1 && t != texts[0] {
      OnlyEmptyLost(texts[1..], t);
      assert texts[0] != "" ==> Shown(texts)[1..] == Shown(texts[1..]);
    }
  }

  // ----- head and tail -----

  /** The text whole when it has few lines, and otherwise its ends around the count of the lines between them. */
  function HeadTail(text: string, head: Usize, tail: Usize, prefix: string): string
    requires |text| <= USIZE_MAX
  {
    var lines := Lines(text);
    if |lines| <= Saturated(Saturated(head + tail) + 3) then prefix + TrimEnd(text)
    else
      prefix +
      EndsText(lines[..head], MarkerText(WINDOW_GAP, Without(|lines|, Saturated(head + tail))), lines[|lines| - tail..])
  }

  /** The ends of a text around a line of their own, set off by empty lines. */
  function EndsText(head: seq<string>, line: string, tail: seq<string>): string {
    Join(head, "\n") + "\n\n" + line + "\n\n" + Join(tail, "\n")
  }

  lemma RegroupEnds(front: string, line: string, back: string)
    ensures front + "\n" + ("\n" + line + "\n") + "\n" + back == front + "\n\n" + line + "\n\n" + back
  {
  }

  /** Reading the ends back gives them and the line between, set off by empty lines. */
  lemma EndsReadBack(prefix: string, head: seq<string>, line: string, tail: seq<string>)
    requires head != [] && tail != [] && NoFeeds(head) && NoFeeds(tail) && NoFeed(line)
    ensures (prefix + EndsText(head, line, tail))[|prefix|..] == EndsText(head, line, tail)
    ensures SplitLines(EndsText(head, line, tail)) == head + ["", line, ""] + tail
  {
    var middle := ["", line, ""];
    JoinSetOff(line);
    JoinAppends(head, middle);
    JoinAppends(head + middle, tail);
    SplitUndoesJoin(head + middle + tail);
    RegroupEnds(Join(head, "\n"), line, Join(tail, "\n"));
  }

  /** Lines as a text shows them: no lines leave an empty one. */
  function Padded(lines: seq<string>): seq<string> {
    if lines == [] then [""] else lines
  }

  /** A view that reads back, after its prefix, as the first and last lines of a text around the count of all others,
      set off by empty lines. An end without lines leaves an empty one. */
  ghost predicate ShowsEnds(view: string, prefix: string, lines: seq<string>, head: nat, tail: nat) {
    && head + tail < |lines| && prefix <= view
    && SplitLines(view[|prefix|..]) ==
       Padded(lines[..head]) + ["", MarkerText(WINDOW_GAP, |lines| - (head + tail)), ""]
       + Padded(lines[|lines| - tail..])
  }

  /** The ends of a long text around the marker of the lines between. */
  function EndsView(lines: seq<string>, head: nat, tail: nat, prefix: string): string
    requires head + tail < |lines|
  {
    prefix + EndsText(lines[..head], MarkerText(WINDOW_GAP, |lines| - (head + tail)), lines[|lines| - tail..])
  }

  /** The head-and-tail summary accounts for every line: those of the head and the tail are given back, and the
      marker counts the others, of which there are more than three. */
  lemma HeadTailConserves(text: string, head: Usize, tail: Usize, prefix: string)
    requires |text| <= USIZE_MAX && |Lines(text)| > Saturated(Saturated(head + tail) + 3)
    ensures |Lines(text)| - (head + tail) > 3
    ensures ShowsEnds(HeadTail(text, head, tail, prefix), prefix, Lines(text), head, tail)
  {
    LongTextShowsEnds(text, head, tail, prefix);
    LinesHoldNoFeed(text);
    ViewOfEnds(HeadTail(text, head, tail, prefix), Lines(text), head, tail, prefix);
  }

  lemma ViewOfEnds(view: string, lines: seq<string>, head: nat, tail: nat, prefix: string)
    requires NoFeeds(lines) && head + tail < |lines| && view == EndsView(lines, head, tail, prefix)
    ensures ShowsEnds(view, prefix, lines, head, tail)
  {
    EndsOfLinesReadBack(lines, head, tail, prefix);
  }

  lemma EndsOfLinesReadBack(lines: seq<string>, head: nat, tail: nat, prefix: string)
    requires NoFeeds(lines) && head + tail < |lines|
    ensures ShowsEnds(EndsView(lines, head, tail, prefix), prefix, lines, head, tail)
  {
    var front, back := lines[..head], lines[|lines| - tail..];
    var marker := MarkerText(WINDOW_GAP, |lines| - (head + tail));
    assert NoFeeds(front) && NoFeeds(back);
    WindowGapHasNoFeed();
    MarkerHasNoFeed(WINDOW_GAP, |lines| - (head + tail));
    PaddedEnds(prefix, front, marker, back);
  }

  lemma LongTextShowsEnds(text: string, head: Usize, tail: Usize, prefix: string)
    requires |text| <= USIZE_MAX && |Lines(text)| > Saturated(Saturated(head + tail) + 3)
    ensures |Lines(text)| - (head + tail) > 3
    ensures HeadTail(text, head, tail, prefix) == EndsView(Lines(text), head, tail, prefix)
  {
  }

  lemma PaddedEnds(prefix: string, head: seq<string>, line: string, tail: seq<string>)
    requires NoFeeds(head) && NoFeeds(tail) && NoFeed(line)
    ensures (prefix + EndsText(head, line, tail))[|prefix|..] == EndsText(head, line, tail)
    ensures SplitLines(EndsText(head, line, tail)) == Padded(head) + ["", line, ""] + Padded(tail)
  {
    assert Join(Padded(head), "\n") == Join(head, "\n") && Join(Padded(tail), "\n") == Join(tail, "\n");
    EndsReadBack(prefix, Padded(head), line, Padded(tail));
  }

  method SummarizeLines(text: string, head: Usize, tail: Usize, prefix: string) returns (view: string)
    requires |text| <= USIZE_MAX
    ensures view == HeadTail(text, head, tail, prefix)
  {
    var lines := Lines(text);
    if |lines| <= Saturated(Saturated(head + tail) + 3) {
      return prefix + TrimEnd(text);
    }
    var omitted := Without(|lines|, Saturated(head + tail));
    view := prefix + EndsText(lines[..head], MarkerText(WINDOW_GAP, omitted), lines[|lines| - tail..]);
  }

  // ----- the summary -----

  /** Whether a text is shown whole. */
  predicate StaysWhole(j: Judge, text: string, maxTokens: nat) {
    maxTokens == 0 || j.count(text) <= maxTokens || |Lines(text)| <= 4
  }

  predicate KeepsSome(j: Judge, text: string, maxTokens: nat) {
    exists i :: 0 <= i < |Lines(text)| && Kept(j, Lines(text), maxTokens)[i]
  }

  function Summary(j: Judge, text: string, maxTokens: nat, prefix: string): string
    requires |text| <= USIZE_MAX
  {
    if StaysWhole(j, text, maxTokens) then prefix + TrimEnd(text)
    else if KeepsSome(j, text, maxTokens) then
      SelectionText(prefix, Lines(text), Kept(j, Lines(text), maxTokens))
    else HeadTail(text, 8, 6, prefix)
  }

  method SummarizeTokens(j: Judge, text: string, maxTokens: nat, prefix: string) returns (r: string)
    requires |text| <= USIZE_MAX
    ensures r == Summary(j, text, maxTokens, prefix)
  {
    if maxTokens == 0 {
      return prefix + TrimEnd(text);
    }
    var lines := Lines(text);
    if j.count(text) <= maxTokens || |lines| <= 4 {
      return prefix + TrimEnd(text);
    }
    var kept := SelectLines(j, lines, maxTokens);
    if !(exists i :: 0 <= i < |lines| && kept[i]) {
      r := SummarizeLines(text, 8, 6, prefix);
      return;
    }
    r := RenderSelection(prefix, lines, kept);
  }

  /** What a reader takes from a summary: its lines after the prefix, with the markers read as counts. */
  function SummaryReading(prefix: string, summary: string): seq<Option<string>>
    requires Opened(prefix) <= summary
  {
    ReadBack(SUMMARY_GAP, SplitLines(summary[|Opened(prefix)|..]))
  }

  /** A summary of selected lines shows every critical line that is not empty. Read back, it gives every kept line
      and counts every other in place exactly when no kept line reads as a marker and no kept line before the last
      line of the text is empty; a kept empty line is neither shown nor counted. */
  lemma SummaryConserves(j: Judge, text: string, maxTokens: nat, prefix: string)
    requires |text| <= USIZE_MAX && maxTokens <= USIZE_MAX
    requires !StaysWhole(j, text, maxTokens) && KeepsSome(j, text, maxTokens)
    ensures var lines, kept, summary :=
            Lines(text), Kept(j, Lines(text), maxTokens), Summary(j, text, maxTokens, prefix);
            && Opened(prefix) <= summary
            && (forall i :: 0 <= i < |lines| && j.critical(lines[i]) && lines[i] != "" ==>
                  lines[i] in SplitLines(summary[|Opened(prefix)|..]))
            && (SummaryReading(prefix, summary) == Blanked(lines, kept) <==>
                NoneMisread(SUMMARY_GAP, lines, kept) && NoneLost(lines, kept))
            && (NoneMisread(SUMMARY_GAP, lines, kept) && !NoneLost(lines, kept) ==>
                  |SummaryReading(prefix, summary)| < |lines|)
  {
    var lines, kept := Lines(text), Kept(j, Lines(text), maxTokens);
    LinesHoldNoFeed(text);
    SelectionReadsBackIff(prefix, lines, kept);
    SelectionKeepsCritical(j, lines, maxTokens);
    forall i | 0 <= i < |lines| && j.critical(lines[i]) && lines[i] != ""
      ensures lines[i] in SplitLines(SelectionText(prefix, lines, kept)[|Opened(prefix)|..])
    {
      KeptIsSeen(prefix, lines, kept, i);
    }
  }

  /** A cheap line between two critical ones is kept. */
  lemma BetweenCriticalIsKept(j: Judge, lines: seq<string>, maxTokens: nat, i: nat)
    requires maxTokens <= USIZE_MAX && 0 < i < |lines| - 1 && j.count(lines[i]) <= MARKER_ALLOWANCE
    requires j.critical(lines[i - 1]) && j.critical(lines[i + 1])
    ensures Kept(j, lines, maxTokens)[i]
  {
    SelectionKeepsCritical(j, lines, maxTokens);
    assert !Fillable(Kept(j, lines, maxTokens), Costs(j, lines), i);
  }

  /** An empty line between two critical ones is kept, and lost in the text. */
  lemma EmptyBetweenCriticalIsLost(j: Judge, text: string, maxTokens: nat, prefix: string, i: nat)
    requires |text| <= USIZE_MAX && maxTokens <= USIZE_MAX && !StaysWhole(j, text, maxTokens)
    requires 0 < i < |Lines(text)| - 1 && Lines(text)[i] == "" && j.count("") <= MARKER_ALLOWANCE
    requires j.critical(Lines(text)[i - 1]) && j.critical(Lines(text)[i + 1])
    ensures Kept(j, Lines(text), maxTokens)[i]
    ensures var summary := Summary(j, text, maxTokens, prefix);
            Opened(prefix) <= summary &&
            SummaryReading(prefix, summary) != Blanked(Lines(text), Kept(j, Lines(text), maxTokens))
  {
    BetweenCriticalIsKept(j, Lines(text), maxTokens, i);
    SummaryConserves(j, text, maxTokens, prefix);
  }

  /** A line that reads as a marker between two critical ones is kept, and taken for lines left out. */
  lemma MarkerBetweenCriticalIsMisread(j: Judge, text: string, maxTokens: nat, prefix: string, i: nat)
    requires |text| <= USIZE_MAX && maxTokens <= USIZE_MAX && !StaysWhole(j, text, maxTokens)
    requires 0 < i < |Lines(text)| - 1 && ReadMarker(SUMMARY_GAP, Lines(text)[i]).Some?
    requires j.count(Lines(text)[i]) <= MARKER_ALLOWANCE
    requires j.critical(Lines(text)[i - 1]) && j.critical(Lines(text)[i + 1])
    ensures Kept(j, Lines(text), maxTokens)[i]
    ensures var summary := Summary(j, text, maxTokens, prefix);
            Opened(prefix) <= summary &&
            SummaryReading(prefix, summary) != Blanked(Lines(text), Kept(j, Lines(text), maxTokens))
  {
    BetweenCriticalIsKept(j, Lines(text), maxTokens, i);
    SummaryConserves(j, text, maxTokens, prefix);
  }

  /** A line between two critical ones, and two more. */
  function FiveLines(line: string): seq<string> {
    ["error", line, "error", "w", "w"]
  }

  lemma FiveLinesText(line: string)
    requires NoFeed(line) && !EndsWith(line, '\r') && |line| < 100
    ensures Lines(Join(FiveLines(line), "\n")) == FiveLines(line) && |Join(FiveLines(line), "\n")| <= USIZE_MAX
  {
    LinesUndoJoin(FiveLines(line));
    JoinOfShort(FiveLines(line));
  }

  /** For instance an empty line among five with a budget of one token. */
  lemma EmptyLineIsLost(j: Judge, prefix: string)
    requires j.critical("error") && j.count("") <= MARKER_ALLOWANCE && j.count(Join(FiveLines(""), "\n")) > 1
    ensures var lines, text := FiveLines(""), Join(FiveLines(""), "\n");
            Lines(text) == lines && |text| <= USIZE_MAX &&
            var summary := Summary(j, text, 1, prefix);
            && Kept(j, lines, 1)[1] && Opened(prefix) <= summary
            && SummaryReading(prefix, summary) != Blanked(lines, Kept(j, lines, 1))
  {
    FiveLinesText("");
    EmptyBetweenCriticalIsLost(j, Join(FiveLines(""), "\n"), 1, prefix, 1);
  }

  /** A line that says that two were left out. */
  function TwoLeftOut(): string {
    MarkerText(SUMMARY_GAP, 2)
  }

  lemma TwoLeftOutIsLine()
    ensures NoFeed(TwoLeftOut()) && !EndsWith(TwoLeftOut(), '\r') && |TwoLeftOut()| < 100
    ensures ReadMarker(SUMMARY_GAP, TwoLeftOut()).Some?
  {
    SummaryGapHasNoFeed();
    MarkerHasNoFeed(SUMMARY_GAP, 2);
    ReadMarkerInverts(SUMMARY_GAP, TwoLeftOut(), 2);
    assert |NumberText(2)| == 1;
  }

  /** For instance the marker of two lines left out, in the same place. */
  lemma MarkerLineIsMisread(j: Judge, prefix: string)
    requires j.critical("error") && j.count(TwoLeftOut()) <= MARKER_ALLOWANCE
    requires j.count(Join(FiveLines(TwoLeftOut()), "\n")) > 1
    ensures var lines, text := FiveLines(TwoLeftOut()), Join(FiveLines(TwoLeftOut()), "\n");
            Lines(text) == lines && |text| <= USIZE_MAX &&
            var summary := Summary(j, text, 1, prefix);
            && Kept(j, lines, 1)[1] && Opened(prefix) <= summary
            && SummaryReading(prefix, summary) != Blanked(lines, Kept(j, lines, 1))
  {
    TwoLeftOutIsLine();
    FiveLinesText(TwoLeftOut());
    MarkerBetweenCriticalIsMisread(j, Join(FiveLines(TwoLeftOut()), "\n"), 1, prefix, 1);
  }
}
