/** What the summary of a text shows (lib.rs), on its lines: all of a small text, and otherwise lines picked by what
    they say and where they stand, around counts of the others. */
module SummaryMeaning {
  import opened LineSummary
  import opened LineText
  import opened LineViews
  import opened Machine
  import opened ModeMeaning
  import opened SummaryText
  import opened Text
  import opened Wrappers

  /** After the prefix stand the kept lines that are not empty; read back, they are in place and all others counted,
      exactly when no kept line reads as a marker and none before the last is empty. */
  ghost predicate ShowsKept(view: string, prefix: string, lines: seq<string>, kept: seq<bool>)
    requires |kept| == |lines|
  {
    && Opened(prefix) <= view
    && var shown := SplitLines(view[|Opened(prefix)|..]);
       && (forall i :: 0 <= i < |lines| && kept[i] && lines[i] != "" ==> lines[i] in shown)
       && (ReadBack(SUMMARY_GAP, shown) == Blanked(lines, kept) <==>
           NoneMisread(SUMMARY_GAP, lines, kept) && NoneLost(lines, kept))
  }

  /** The lines that were picked, with the gaps filled, or the ends of the text when no line was picked. */
  ghost predicate ShowsPicked(j: Judge, view: string, text: string, maxTokens: nat, prefix: string, picked: seq<bool>,
                              kept: seq<bool>)
  {
    var lines := Lines(text);
    && WellPicked(j, lines, maxTokens, picked) && Fills(j, lines, picked, kept)
    && if exists i :: 0 <= i < |lines| && kept[i] then ShowsKept(view, prefix, lines, kept)
       else ShowsShortOrEnds(view, prefix, text, 8, 6)
  }

  /** What a summary shows: the whole text when there is no budget, or the text fits it, or has no more than four
      lines. */
  ghost predicate ShowsSummary(j: Judge, view: string, text: string, maxTokens: nat, prefix: string) {
    if maxTokens == 0 || j.count(text) <= maxTokens || |Lines(text)| <= 4 then ShowsTrimmed(view, prefix, text)
    else exists picked, kept :: ShowsPicked(j, view, text, maxTokens, prefix, picked, kept)
  }

  lemma SelectionShowsKept(prefix: string, lines: seq<string>, kept: seq<bool>)
    requires |kept| == |lines| > 0 && NoFeeds(lines)
    ensures ShowsKept(SelectionText(prefix, lines, kept), prefix, lines, kept)
  {
    SelectionReadsBackIff(prefix, lines, kept);
    forall i | 0 <= i < |lines| && kept[i] && lines[i] != ""
      ensures lines[i] in SplitLines(SelectionText(prefix, lines, kept)[|Opened(prefix)|..])
    {
      KeptIsSeen(prefix, lines, kept, i);
    }
  }

  lemma SummaryShows(j: Judge, text: string, maxTokens: nat, prefix: string)
    requires |text| <= USIZE_MAX && maxTokens <= USIZE_MAX
    ensures ShowsSummary(j, Summary(j, text, maxTokens, prefix), text, maxTokens, prefix)
  {
    var lines, kept, view := Lines(text), Kept(j, Lines(text), maxTokens), Summary(j, text, maxTokens, prefix);
    TrimmedIsShown(prefix, text);
    if !StaysWhole(j, text, maxTokens) {
      var picked := SelectionKeepsBudget(j, lines, maxTokens);
      LinesHoldNoFeed(text);
      SelectionShowsKept(prefix, lines, kept);
      HeadTailShows(text, 8, 6, prefix);
      assert ShowsPicked(j, view, text, maxTokens, prefix, picked, kept);
    }
  }
}
