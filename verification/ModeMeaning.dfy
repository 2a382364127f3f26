/** What the view of each mode shows, on the lines of the text (lib.rs): the windows around errors, the ends of a long
    text, the first lines of a diff, or all of it. */
module ModeMeaning {
  import opened CapsuleMaking
  import opened LineText
  import opened LineViews
  import opened Machine
  import opened Sequences
  import opened Text
  import opened Wrappers

  import Capsules
  import DedupeText
  import LineDedupe
  import Sorting
  import SummaryText

  // ----- lines behind the prefix -----

  /** After the prefix stands the text, without the white space at its end. */
  ghost predicate ShowsTrimmed(view: string, prefix: string, text: string) {
    prefix <= view && IsTrimmed(view[|prefix|..], text)
  }

  lemma TrimmedIsShown(prefix: string, text: string)
    ensures ShowsTrimmed(prefix + TrimEnd(text), prefix, text)
  {
    TrimEndTrims(text);
    assert (prefix + TrimEnd(text))[|prefix|..] == TrimEnd(text);
  }

  /** A short text whole, and otherwise so many lines of its head and tail around the count of the others. */
  ghost predicate ShowsShortOrEnds(view: string, prefix: string, text: string, head: nat, tail: nat) {
    var lines := Lines(text);
    if |lines| <= head + tail + 3 then ShowsTrimmed(view, prefix, text)
    else SummaryText.ShowsEnds(view, prefix, lines, head, tail)
  }

  lemma HeadTailShows(text: string, head: nat, tail: nat, prefix: string)
    requires |text| <= USIZE_MAX && head <= 100 && tail <= 100
    ensures ShowsShortOrEnds(SummaryText.HeadTail(text, head, tail, prefix), prefix, text, head, tail)
  {
    if |Lines(text)| <= head + tail + 3 {
      TrimmedIsShown(prefix, text);
    } else {
      SummaryText.HeadTailConserves(text, head, tail, prefix);
    }
  }

  /** The last line that is not blank. */
  ghost predicate IsLastSaying(texts: seq<string>, n: nat) {
    n < |texts| && !Blank(texts[n]) && forall k :: n < k < |texts| ==> Blank(texts[k])
  }

  /** The text `body` shows the lines up to the one at `n`, of which it shows `end`. */
  ghost predicate ShowsUpTo(body: string, texts: seq<string>, n: nat, end: string) {
    IsLastSaying(texts, n) && IsTrimmed(end, texts[n]) && SplitLines(body) == texts[..n] + [end]
  }

  /** A text shows these lines up to the last that is not blank, without the white space at the end of that one. */
  ghost predicate ShowsLines(body: string, texts: seq<string>) {
    if forall k :: 0 <= k < |texts| ==> Blank(texts[k]) then body == ""
    else exists n: nat, end :: ShowsUpTo(body, texts, n, end)
  }

  lemma JoinOne(line: string, rest: seq<string>)
    requires rest != []
    ensures Join([line] + rest, "\n") == line + "\n" + Join(rest, "\n")
  {
    assert ([line] + rest)[1..] == rest;
  }

  lemma BlankConcat(a: string, b: string)
    ensures Blank(a + b) <==> Blank(a) && Blank(b)
  {
    var s := a + b;
    assert forall i :: 0 <= i < |a| ==> a[i] == s[i];
    assert forall i :: 0 <= i < |b| ==> b[i] == s[|a| + i];
  }

  lemma {:induction false} JoinOfBlanks(texts: seq<string>)
    ensures Blank(Join(texts, "\n")) <==> forall k :: 0 <= k < |texts| ==> Blank(texts[k])
  {
    if |texts| > 1 {
      JoinOfBlanks(texts[1..]);
      BlankConcat(texts[0] + "\n", Join(texts[1..], "\n"));
      BlankConcat(texts[0], "\n");
      assert forall k :: 0 < k < |texts| ==> texts[k] == texts[1..][k - 1];
    }
  }

  lemma {:induction false} TrimEndOfConcat(a: string, b: string)
    ensures TrimEnd(a + b) == if Blank(b) then TrimEnd(a) else a + TrimEnd(b)
    decreases |b|
  {
    if b == "" {
      assert a + b == a;
    } else {
      var s, front, last := a + b, b[..|b| - 1], b[|b| - 1];
      assert b == front + [last] && s[..|s| - 1] == a + front;
      BlankConcat(front, [last]);
      if IsWhitespace(last) {
        TrimEndOfConcat(a, front);
      }
    }
  }

  lemma SaysNoMore(line: string, rest: seq<string>)
    requires NoFeed(line) && !Blank(line) && forall k :: 0 <= k < |rest| ==> Blank(rest[k])
    ensures ShowsUpTo(TrimEnd(line), [line] + rest, 0, TrimEnd(line))
  {
    var texts, end := [line] + rest, TrimEnd(line);
    TrimEndTrims(line);
    SplitOneLine(end);
    assert texts[..0] + [end] == [end];
    assert forall k :: 0 < k < |texts| ==> texts[k] == rest[k - 1];
  }

  lemma SaysMore(line: string, rest: seq<string>, tail: string, n: nat, end: string)
    requires NoFeed(line) && !Blank(tail) && ShowsUpTo(TrimEnd(tail), rest, n, end)
    ensures ShowsUpTo(TrimEnd(line + "\n" + tail), [line] + rest, n + 1, end)
  {
    var texts := [line] + rest;
    TrimEndOfConcat(line + "\n", tail);
    SplitAtFeed(line, TrimEnd(tail));
    assert texts[..n + 1] == [line] + rest[..n];
    assert forall k :: 0 < k < |texts| ==> texts[k] == rest[k - 1];
  }

  lemma BlankTail(line: string, tail: string)
    requires Blank(tail)
    ensures TrimEnd(line + "\n" + tail) == TrimEnd(line) && (Blank(line + "\n" + tail) <==> Blank(line))
  {
    TrimEndOfConcat(line + "\n", tail);
    TrimEndOfConcat(line, "\n");
    BlankConcat(line + "\n", tail);
    BlankConcat(line, "\n");
  }

  lemma BlankRest(line: string, rest: seq<string>)
    requires NoFeed(line) && rest != [] && Blank(Join(rest, "\n")) && !Blank(Join([line] + rest, "\n"))
    ensures ShowsUpTo(TrimEnd(Join([line] + rest, "\n")), [line] + rest, 0, TrimEnd(line))
  {
    JoinOne(line, rest);
    JoinOfBlanks(rest);
    BlankTail(line, Join(rest, "\n"));
    SaysNoMore(line, rest);
  }

  lemma {:induction false} TrimmedShowsLines(texts: seq<string>) returns (n: nat, end: string)
    requires NoFeeds(texts) && !Blank(Join(texts, "\n"))
    ensures ShowsUpTo(TrimEnd(Join(texts, "\n")), texts, n, end)
  {
    var line, rest := texts[0], texts[1..];
    assert texts == [line] + rest;
    n, end := 0, TrimEnd(line);
    if rest == [] {
      SaysNoMore(line, rest);
    } else if Blank(Join(rest, "\n")) {
      BlankRest(line, rest);
    } else {
      var m, e := TrimmedShowsLines(rest);
      JoinOne(line, rest);
      SaysMore(line, rest, Join(rest, "\n"), m, e);
      n, end := m + 1, e;
    }
  }

  lemma TrimShowsLines(texts: seq<string>)
    requires NoFeeds(texts)
    ensures ShowsLines(TrimEnd(Join(texts, "\n")), texts)
  {
    JoinOfBlanks(texts);
    if Blank(Join(texts, "\n")) {
      TrimEndTrims(Join(texts, "\n"));
    } else {
      var n, end := TrimmedShowsLines(texts);
    }
  }

  // ----- windows around errors -----

  /** A line at most three lines away from an error. */
  ghost predicate NearError(lines: seq<string>, isError: string -> bool, i: int) {
    exists j :: 0 <= j < |lines| && isError(lines[j]) && j - 3 <= i <= j + 3
  }

  /** Every line near an error in its place, and each stretch of others counted. */
  ghost predicate LaysOutErrors(items: seq<Item>, lines: seq<string>, isError: string -> bool) {
    && GapsWhole(items) && |Cover(items)| == |lines|
    && forall i :: 0 <= i < |lines| ==>
         Cover(items)[i] == if NearError(lines, isError, i) then Some(lines[i]) else None
  }

  /** A line near an error that is not blank, or a line that is not near one. */
  ghost predicate HasToSay(lines: seq<string>, isError: string -> bool) {
    exists i :: 0 <= i < |lines| && (Blank(lines[i]) ==> !NearError(lines, isError, i))
  }

  /** There is an error, and something to say about it. */
  ghost predicate SaysErrors(lines: seq<string>, isError: string -> bool) {
    (exists j :: 0 <= j < |lines| && isError(lines[j])) && HasToSay(lines, isError)
  }

  /** The text shows the lines so laid out, with markers for the stretches. */
  ghost predicate ShowsErrors(m: Marker, body: string, lines: seq<string>, isError: string -> bool) {
    exists items :: LaysOutErrors(items, lines, isError) && ShowsLines(body, Texts(m, items))
  }

  lemma {:induction false} GapsAreLeftOut(items: seq<Item>)
    requires GapsWhole(items)
    ensures None in Cover(items) <==> exists p :: 0 <= p < |items| && items[p].Gap?
  {
    if items != [] {
      assert items == [items[0]] + items[1..];
      GapsAreLeftOut(items[1..]);
      match items[0]
      case Line(s) =>
        assert None in Cover(items) <==> None in Cover(items[1..]);
        assert forall p :: 0 < p < |items| ==> items[p] == items[1..][p - 1];
      case Gap(n) => assert Cover(items)[0] == None;
    }
  }

  lemma WindowsLayOutErrors(lines: seq<string>, isError: string -> bool)
    ensures LaysOutErrors(Marked(lines, NearHits(lines, 3, isError), 0), lines, isError)
  {
    var keep := NearHits(lines, 3, isError);
    MarkedCovers(lines, keep, 0);
    MarkedGapsWhole(lines, keep, 0);
    assert Repeated(None, 0) + Blanked(lines, keep) == Blanked(lines, keep);
    forall i | 0 <= i < |lines|
      ensures keep[i] <==> NearError(lines, isError, i)
    {
    }
  }

  /** The markers of gaps are not blank. */
  ghost predicate SaysGaps(m: Marker) {
    forall n: nat :: !Blank(MarkerText(m, n))
  }

  lemma WindowGapSays()
    ensures SaysGaps(WINDOW_GAP)
  {
    forall n: nat
      ensures !Blank(MarkerText(WINDOW_GAP, n))
    {
      assert MarkerText(WINDOW_GAP, n)[0] == '.';
    }
  }

  lemma {:induction false} CoverShows(items: seq<Item>, line: string)
    ensures Some(line) in Cover(items) <==> Line(line) in items
  {
    if items != [] {
      assert items == [items[0]] + items[1..];
      CoverShows(items[1..], line);
      match items[0]
      case Line(s) => assert Some(line) in Cover(items) <==> s == line || Some(line) in Cover(items[1..]);
      case Gap(n) => assert Some(line) in Cover(items) <==> Some(line) in Cover(items[1..]);
    }
  }

  ghost predicate SomeSay(texts: seq<string>) {
    exists k :: 0 <= k < |texts| && !Blank(texts[k])
  }

  lemma TextsSayIff(m: Marker, items: seq<Item>)
    requires SaysGaps(m)
    ensures SomeSay(Texts(m, items)) <==> exists k :: 0 <= k < |items| && (items[k].Line? ==> !Blank(items[k].text))
  {
    var texts := Texts(m, items);
    assert forall k :: 0 <= k < |items| && items[k].Gap? ==> texts[k] == MarkerText(m, items[k].count);
    assert forall k :: 0 <= k < |items| && items[k].Line? ==> texts[k] == items[k].text;
  }

  lemma ItemForLine(items: seq<Item>, lines: seq<string>, isError: string -> bool, i: nat) returns (k: nat)
    requires LaysOutErrors(items, lines, isError) && i < |lines|
    ensures k < |items| && if NearError(lines, isError, i) then items[k] == Line(lines[i]) else items[k].Gap?
  {
    var cover := Cover(items);
    GapsAreLeftOut(items);
    CoverShows(items, lines[i]);
    if NearError(lines, isError, i) {
      assert cover[i] == Some(lines[i]);
      k :| 0 <= k < |items| && items[k] == Line(lines[i]);
    } else {
      assert cover[i] == None;
      k :| 0 <= k < |items| && items[k].Gap?;
    }
  }

  lemma LineForItem(items: seq<Item>, lines: seq<string>, isError: string -> bool, k: nat) returns (i: nat)
    requires LaysOutErrors(items, lines, isError) && k < |items|
    ensures i < |lines|
    ensures if items[k].Line? then NearError(lines, isError, i) && lines[i] == items[k].text
            else !NearError(lines, isError, i)
  {
    var cover := Cover(items);
    GapsAreLeftOut(items);
    if items[k].Line? {
      CoverShows(items, items[k].text);
      i :| 0 <= i < |cover| && cover[i] == Some(items[k].text);
    } else {
      i :| 0 <= i < |cover| && cover[i] == None;
    }
  }

  /** The lines laid out say something when one of them is not blank, or one was left out. */
  lemma LayoutSays(m: Marker, items: seq<Item>, lines: seq<string>, isError: string -> bool)
    requires SaysGaps(m) && LaysOutErrors(items, lines, isError)
    ensures SomeSay(Texts(m, items)) <==> HasToSay(lines, isError)
  {
    TextsSayIff(m, items);
    if i :| 0 <= i < |lines| && (Blank(lines[i]) ==> !NearError(lines, isError, i)) {
      var k := ItemForLine(items, lines, isError, i);
      assert items[k].Line? ==> !Blank(items[k].text);
    }
    if k :| 0 <= k < |items| && (items[k].Line? ==> !Blank(items[k].text)) {
      var i := LineForItem(items, lines, isError, k);
      assert Blank(lines[i]) ==> !NearError(lines, isError, i);
    }
  }

  /** Where there are errors to show they are shown, and otherwise the ends of the text. */
  ghost predicate ShowsDiagnosis(view: string, prefix: string, text: string, isError: string -> bool) {
    if SaysErrors(Lines(text), isError)
    then prefix <= view && ShowsErrors(WINDOW_GAP, view[|prefix|..], Lines(text), isError)
    else ShowsShortOrEnds(view, prefix, text, 8, 6)
  }

  lemma LayoutIsBlankIff(m: Marker, items: seq<Item>, lines: seq<string>, isError: string -> bool)
    requires SaysGaps(m) && LaysOutErrors(items, lines, isError)
    ensures Blank(Join(Texts(m, items), "\n")) <==> !HasToSay(lines, isError)
  {
    LayoutSays(m, items, lines, isError);
    JoinOfBlanks(Texts(m, items));
  }

  lemma LayoutShowsErrors(m: Marker, items: seq<Item>, lines: seq<string>, isError: string -> bool)
    requires NoFeeds(Texts(m, items)) && LaysOutErrors(items, lines, isError)
    ensures ShowsErrors(m, TrimEnd(Join(Texts(m, items), "\n")), lines, isError)
  {
    TrimShowsLines(Texts(m, items));
  }

  lemma MarkedShowErrors(m: Marker, lines: seq<string>, isError: string -> bool)
    requires SaysGaps(m) && NoFeed(m.before) && NoFeed(m.after) && NoFeeds(lines) && AnyHit(lines, isError)
    ensures var errors := Join(Texts(m, Marked(lines, NearHits(lines, 3, isError), 0)), "\n");
            && (Blank(errors) <==> !SaysErrors(lines, isError))
            && ShowsErrors(m, TrimEnd(errors), lines, isError)
  {
    var keep := NearHits(lines, 3, isError);
    MarkedHoldNoFeed(m, lines, keep);
    WindowsLayOutErrors(lines, isError);
    LayoutIsBlankIff(m, Marked(lines, keep, 0), lines, isError);
    LayoutShowsErrors(m, Marked(lines, keep, 0), lines, isError);
  }

  lemma WindowsShowErrors(text: string, isError: string -> bool)
    requires AnyHit(Lines(text), isError)
    ensures var errors := WindowView(text, 3, isError);
            && (Blank(errors) <==> !SaysErrors(Lines(text), isError))
            && ShowsErrors(WINDOW_GAP, TrimEnd(errors), Lines(text), isError)
  {
    LinesHoldNoFeed(text);
    WindowGapHasNoFeed();
    WindowGapSays();
    MarkedShowErrors(WINDOW_GAP, Lines(text), isError);
  }

  lemma DiagnosisShows(source: Source, text: string)
    requires |text| <= USIZE_MAX
    ensures ShowsDiagnosis(Diagnosis(source, text), source.prefix, text, source.isError)
  {
    var errors := WindowView(text, 3, source.isError);
    TrimOfBlank(errors);
    HeadTailShows(text, 8, 6, source.prefix);
    if AnyHit(Lines(text), source.isError) {
      WindowsShowErrors(text, source.isError);
      assert (source.prefix + TrimEnd(errors))[|source.prefix|..] == TrimEnd(errors);
    }
  }

  /** One of the lines shown, where only the last may lack white space at its end. */
  ghost predicate IsShown(body: string, line: string) {
    var shown := SplitLines(body);
    exists k :: 0 <= k < |shown| && (shown[k] == line || (k == |shown| - 1 && IsTrimmed(shown[k], line)))
  }

  lemma SayingLineIsShown(body: string, texts: seq<string>, p: nat)
    requires ShowsLines(body, texts) && p < |texts| && !Blank(texts[p])
    ensures IsShown(body, texts[p])
  {
    var n: nat, end :| ShowsUpTo(body, texts, n, end);
    assert SplitLines(body)[p] == if p < n then texts[p] else end;
  }

  /** Every line near an error is shown, unless it is blank. */
  lemma LineNearErrorIsShown(m: Marker, body: string, lines: seq<string>, isError: string -> bool, i: nat)
    requires ShowsErrors(m, body, lines, isError) && i < |lines| && NearError(lines, isError, i) && !Blank(lines[i])
    ensures IsShown(body, lines[i])
  {
    var items :| LaysOutErrors(items, lines, isError) && ShowsLines(body, Texts(m, items));
    var k := ItemForLine(items, lines, isError, i);
    assert Texts(m, items)[k] == lines[i];
    SayingLineIsShown(body, Texts(m, items), k);
  }

  // ----- the first lines of a diff -----

  /** The lines that belong to a diff, but no more than 120 of them, or the ends of a text without such lines. */
  ghost predicate ShowsDiff(view: string, prefix: string, text: string, isDiffLine: string -> bool) {
    var found := Sorting.Filter(Lines(text), isDiffLine);
    prefix <= view &&
    if found == [] then
      exists ends :: ShowsShortOrEnds(ends, "", text, 18, 12) && IsTrimmed(view[|prefix|..], ends)
    else ShowsLines(view[|prefix|..], if |found| > 120 then found[..120] else found)
  }

  lemma DiffShows(source: Source, text: string)
    requires |text| <= USIZE_MAX
    ensures ShowsDiff(source.prefix + TrimEnd(DiffSummary(source, text, 120)), source.prefix, text, source.isDiffLine)
  {
    var found := Sorting.Filter(Lines(text), source.isDiffLine);
    var summary := DiffSummary(source, text, 120);
    assert (source.prefix + TrimEnd(summary))[|source.prefix|..] == TrimEnd(summary);
    if found == [] {
      HeadTailShows(text, 18, 12, "");
      TrimEndTrims(summary);
    } else {
      LinesHoldNoFeed(text);
      assert forall i :: 0 <= i < |found| ==> found[i] in found;
      TrimShowsLines(if |found| > 120 then found[..120] else found);
    }
  }

  // ----- the modes -----

  /** What is shown in each mode, before budgeting. */
  ghost predicate ShowsAsMode(view: string, source: Source, text: string, rawTokens: nat, mode: Capsules.Mode,
                              budget: nat)
    requires |text| <= USIZE_MAX
  {
    match mode
    case Exact => view == source.prefix + EXACT_STUB
    case Passthrough => ShowsTrimmed(view, source.prefix, text)
    case Diagnostic => ShowsDiagnosis(view, source.prefix, text, source.isError)
    case Critical => ShowsDiagnosis(view, source.prefix, text, source.isError)
    case Structured => ShowsShortOrEnds(view, source.prefix, text, 24, 16)
    case Fidelity => ShowsShortOrEnds(view, source.prefix, text, 24, 16)
    case Lossy => ShowsShortOrEnds(view, source.prefix, text, 24, 16)
    case Dedupe =>
      ShowsTrimmed(view, source.prefix, DedupeText.Deduplicated(LineDedupe.Options(false, _ => false), text, 8))
    case DiffAware => ShowsDiff(view, source.prefix, text, source.isDiffLine)
    case Auto =>
      if budget > 0 && rawTokens > budget then ShowsShortOrEnds(view, source.prefix, text, 18, 12)
      else ShowsTrimmed(view, source.prefix, text)
    case Hybrid =>
      if budget > 0 && rawTokens > budget then ShowsShortOrEnds(view, source.prefix, text, 18, 12)
      else ShowsTrimmed(view, source.prefix, text)
  }

  lemma ModeShows(source: Source, text: string, rawTokens: nat, mode: Capsules.Mode, budget: nat)
    requires |text| <= USIZE_MAX
    ensures ShowsAsMode(ModeView(source, text, rawTokens, mode, budget), source, text, rawTokens, mode, budget)
  {
    match EffectivePolicy(mode)
    case Exact =>
    case Passthrough => TrimmedIsShown(source.prefix, text);
    case Diagnostic => DiagnosisShows(source, text);
    case Structured => HeadTailShows(text, 24, 16, source.prefix);
    case Dedupe =>
      TrimmedIsShown(source.prefix, DedupeText.Deduplicated(LineDedupe.Options(false, _ => false), text, 8));
    case DiffAware => DiffShows(source, text);
    case Auto =>
      TrimmedIsShown(source.prefix, text);
      HeadTailShows(text, 18, 12, source.prefix);
  }
}
