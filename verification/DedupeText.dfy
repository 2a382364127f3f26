/** The text that deduplication returns (lib.rs): how its lines can be read back, and when that gives the original. */
module DedupeText {
  import opened LineDedupe
  import opened LineText
  import opened LineViews
  import opened Machine
  import opened Sequences
  import opened Text
  import opened Wrappers

  // ----- reading lines as items -----

  /** A line of the output as an item: markers count at least the lines that are ever collapsed. */
  function ReadItem(o: Options, line: string): Dedupe {
    match ReadMarker(REPEATED, line)
    case Some(n) => if n >= 2 then More(n) else Plain(line)
    case None =>
      match ReadMarker(SIMILAR, line)
      case Some(n) => if o.structural && n >= 3 then Similar(n) else Plain(line)
      case None => Plain(line)
  }

  predicate ReadsAsMarker(o: Options, line: string) {
    !ReadItem(o, line).Plain?
  }

  /** The output as items: its first line is always a line of the original. */
  function Read(o: Options, out: seq<string>): (items: seq<Dedupe>)
    ensures |items| == |out| && (out != [] ==> items[0] == Plain(out[0]))
    ensures forall i :: 0 < i < |out| ==> items[i] == ReadItem(o, out[i])
  {
    seq(|out|, i requires 0 <= i < |out| => if i == 0 then Plain(out[i]) else ReadItem(o, out[i]))
  }

  /** The original as far as the output tells it. */
  function Expanded(o: Options, out: seq<string>): seq<Option<string>> {
    Restored(Read(o, out), "")
  }

  // ----- the items that are emitted -----

  /** Items as a pass emits them: a marker follows a line and counts two or more, or three or more similar ones. */
  predicate Emitted(o: Options, item: Dedupe) {
    match item
    case Plain(_) => true
    case More(n) => n >= 2
    case Similar(n) => o.structural && n >= 3
  }

  ghost predicate AllEmitted(o: Options, items: seq<Dedupe>) {
    (items != [] ==> items[0].Plain?) && forall i :: 0 <= i < |items| ==> Emitted(o, items[i])
  }

  lemma {:induction false} DedupedAreEmitted(o: Options, lines: seq<string>)
    ensures AllEmitted(o, Deduped(o, lines)) && (lines != [] ==> Deduped(o, lines) != [])
    ensures |Deduped(o, lines)| <= |lines|
    decreases |lines|
  {
    if lines != [] {
      DedupedAreEmitted(o, lines[FirstPass(o, lines).1..]);
    }
  }

  lemma SimilarIsNoRepeat(n: nat)
    ensures ReadMarker(REPEATED, MarkerText(SIMILAR, n)) == None
  {
    assert '0' <= MarkerText(SIMILAR, n)[4] <= '9';
    assert REPEATED.before[4] == 'r';
  }

  /** An emitted marker reads back as itself. */
  lemma MarkerReadsBack(o: Options, item: Dedupe)
    requires Emitted(o, item) && !item.Plain?
    ensures ReadItem(o, ItemLine(item)) == item
  {
    if item.More? {
      ReadMarkerInverts(REPEATED, ItemLine(item), item.count);
    } else {
      SimilarIsNoRepeat(item.count);
      ReadMarkerInverts(SIMILAR, ItemLine(item), item.count);
    }
  }

  // ----- how many lines items stand for -----

  function Weight(item: Dedupe): nat {
    if item.Plain? then 1 else item.count
  }

  function Weights(items: seq<Dedupe>): nat {
    if items == [] then 0 else Weight(items[0]) + Weights(items[1..])
  }

  lemma {:induction false} RestoredCount(items: seq<Dedupe>, last: string)
    ensures |Restored(items, last)| == Weights(items)
  {
    if items != [] {
      RestoredCount(items[1..], if items[0].Plain? then items[0].text else last);
    }
  }

  /** An emitted item is read as itself, or is a line read as a marker, which stands for more lines. */
  lemma OneReading(o: Options, item: Dedupe)
    requires Emitted(o, item)
    ensures var read := ReadItem(o, ItemLine(item));
            read == item || (item.Plain? && ReadsAsMarker(o, item.text) && Weight(read) > Weight(item))
    ensures item.Plain? && ReadsAsMarker(o, item.text) ==> ReadItem(o, ItemLine(item)) != item
  {
    if !item.Plain? {
      MarkerReadsBack(o, item);
    }
  }

  lemma {:induction false} HeavierItems(items: seq<Dedupe>, read: seq<Dedupe>)
    requires |read| == |items|
    requires forall i :: 0 <= i < |items| ==> read[i] == items[i] || Weight(read[i]) > Weight(items[i])
    ensures Weights(read) >= Weights(items)
    ensures read == items || Weights(read) > Weights(items)
  {
    if items != [] {
      HeavierItems(items[1..], read[1..]);
      assert read == [read[0]] + read[1..] && items == [items[0]] + items[1..];
    }
  }

  // ----- reading the output back -----

  /** No line of the output after the first is taken for a marker that is none. */
  ghost predicate NoneMistaken(o: Options, items: seq<Dedupe>) {
    forall i :: 0 < i < |items| && items[i].Plain? ==> !ReadsAsMarker(o, items[i].text)
  }

  lemma ReadIffNoneMistaken(o: Options, items: seq<Dedupe>)
    requires AllEmitted(o, items)
    ensures Read(o, Rendered(items)) == items <==> NoneMistaken(o, items)
    ensures Read(o, Rendered(items)) == items || Weights(Read(o, Rendered(items))) > Weights(items)
  {
    var read := Read(o, Rendered(items));
    forall i | 0 < i < |items|
      ensures read[i] == items[i] ||
              (items[i].Plain? && ReadsAsMarker(o, items[i].text) && Weight(read[i]) > Weight(items[i]))
      ensures items[i].Plain? && ReadsAsMarker(o, items[i].text) ==> read[i] != items[i]
    {
      OneReading(o, items[i]);
    }
    HeavierItems(items, read);
  }

  /** The output tells the original faithfully exactly when none of its lines is mistaken for a marker. */
  lemma FaithfulIffNoneMistaken(o: Options, lines: seq<string>)
    ensures var out := Rendered(Deduped(o, lines));
            && (Faithful(o, lines, Expanded(o, out)) <==> NoneMistaken(o, Deduped(o, lines)))
            && (NoneMistaken(o, Deduped(o, lines)) ==> Expanded(o, out) == Restored(Deduped(o, lines), ""))
  {
    var items := Deduped(o, lines);
    DedupedAreEmitted(o, lines);
    ReadIffNoneMistaken(o, items);
    ItemsAreFaithful(o, lines, "");
    RestoredCount(items, "");
    RestoredCount(Read(o, Rendered(items)), "");
  }

  // ----- the condition on the lines -----

  lemma {:induction false} PlainsAreRestored(items: seq<Dedupe>, last: string, t: string)
    requires Plain(t) in items
    ensures Some(t) in Restored(items, last)
  {
    if items[0] != Plain(t) {
      PlainsAreRestored(items[1..], if items[0].Plain? then items[0].text else last, t);
    }
  }

  lemma {:induction false} RestoredArePlains(items: seq<Dedupe>, last: string, t: string)
    requires Some(t) in Restored(items, last)
    ensures Plain(t) in items || (t == last && !items[0].Plain?)
  {
    if items[0] != Plain(t) && (items[0].Plain? || t != last) {
      RestoredArePlains(items[1..], if items[0].Plain? then items[0].text else last, t);
    }
  }

  /** Whether the first line of the output comes with a marker. */
  predicate BeginsMarked(o: Options, lines: seq<string>)
    requires lines != []
  {
    var items := FirstPass(o, lines).0;
    |items| == 2 && !items[1].Plain?
  }

  /** How many lines of the original the first line of the output stands for, with the marker after it. */
  function FirstStandsFor(o: Options, lines: seq<string>): (k: nat)
    requires lines != []
    ensures k <= |lines|
  {
    if BeginsMarked(o, lines) then FirstPass(o, lines).1 else 1
  }

  lemma RestoredAfterFirst(o: Options, lines: seq<string>)
    requires lines != []
    ensures var items, k := Deduped(o, lines), FirstStandsFor(o, lines);
            var j := if BeginsMarked(o, lines) then 2 else 1;
            && |items| >= j && |Restored(items, "")| >= k
            && Restored(items, "")[k..] == Restored(items[j..], lines[0])
            && (items[j..] != [] ==> items[j].Plain?)
            && (j == 2 ==> !items[1].Plain?)
  {
    var (first, taken) := FirstPass(o, lines);
    var rest := Deduped(o, lines[taken..]);
    DedupedAreEmitted(o, lines[taken..]);
    if BeginsMarked(o, lines) {
      RestoredPair(lines[0], first[1], rest, "");
      assert Deduped(o, lines)[2..] == rest;
    } else {
      RestoredHead(lines[0], Deduped(o, lines)[1..], "");
      assert Deduped(o, lines) == [Plain(lines[0])] + Deduped(o, lines)[1..];
    }
  }

  /** No line that the output shows, apart from its first one, reads as a marker. */
  ghost predicate NoneLooksLikeMarker(o: Options, lines: seq<string>)
    requires lines != []
  {
    forall i :: FirstStandsFor(o, lines) <= i < |lines| && IsShown(o, lines, i) ==> !ReadsAsMarker(o, lines[i])
  }

  /** Whether a line is given back: only the later lines of a run of similar ones are not. */
  predicate IsShown(o: Options, lines: seq<string>, i: nat) {
    i < |Restored(Deduped(o, lines), "")| && Restored(Deduped(o, lines), "")[i].Some?
  }

  /** The lines that some items show are those they give back. */
  lemma ShownAreGivenBack(items: seq<Dedupe>, last: string, given: seq<string>, restored: seq<Option<string>>,
                          p: string -> bool)
    requires restored == Restored(items, last) && |given| == |restored| && (items != [] ==> items[0].Plain?)
    requires forall i :: 0 <= i < |given| && restored[i].Some? ==> restored[i] == Some(given[i])
    ensures (forall k :: 0 <= k < |items| && items[k].Plain? ==> p(items[k].text)) <==>
            (forall i :: 0 <= i < |given| && restored[i].Some? ==> p(given[i]))
  {
    forall i | 0 <= i < |given| && restored[i].Some?
      ensures exists k :: 0 <= k < |items| && items[k] == Plain(given[i])
    {
      RestoredArePlains(items, last, given[i]);
    }
    forall k | 0 <= k < |items| && items[k].Plain?
      ensures exists i :: 0 <= i < |given| && restored[i] == Some(items[k].text)
    {
      PlainsAreRestored(items, last, items[k].text);
    }
    if forall i :: 0 <= i < |given| && restored[i].Some? ==> p(given[i]) {
      forall k | 0 <= k < |items| && items[k].Plain?
        ensures p(items[k].text)
      {
        var i :| 0 <= i < |given| && restored[i] == Some(items[k].text);
        assert p(given[i]);
      }
    }
  }

  lemma MistakenAfterFirst(o: Options, items: seq<Dedupe>, j: nat, plain: string -> bool)
    requires 1 <= j <= 2 && j <= |items| && (j == 2 ==> !items[1].Plain?)
    requires forall line :: plain(line) == !ReadsAsMarker(o, line)
    ensures var shown := items[j..];
            NoneMistaken(o, items) <==> forall p :: 0 <= p < |shown| && shown[p].Plain? ==> plain(shown[p].text)
  {
    var shown := items[j..];
    if forall p :: 0 <= p < |shown| && shown[p].Plain? ==> plain(shown[p].text) {
      forall i | 0 < i < |items| && items[i].Plain?
        ensures !ReadsAsMarker(o, items[i].text)
      {
        assert shown[i - j] == items[i];
      }
    }
  }

  lemma ShownFrom(lines: seq<string>, restored: seq<Option<string>>, k: nat, plain: string -> bool)
    requires |restored| == |lines| && k <= |lines|
    ensures var given, back := lines[k..], restored[k..];
            (forall i :: 0 <= i < |given| && back[i].Some? ==> plain(given[i])) <==>
            (forall i :: k <= i < |lines| && restored[i].Some? ==> plain(lines[i]))
  {
    var given, back := lines[k..], restored[k..];
    if forall i :: 0 <= i < |given| && back[i].Some? ==> plain(given[i]) {
      forall i | k <= i < |lines| && restored[i].Some?
        ensures plain(lines[i])
      {
        assert back[i - k] == restored[i] && given[i - k] == lines[i];
      }
    }
  }

  lemma NoneMistakenIff(o: Options, lines: seq<string>)
    requires lines != []
    ensures NoneMistaken(o, Deduped(o, lines)) <==> NoneLooksLikeMarker(o, lines)
  {
    var items, restored, k := Deduped(o, lines), Restored(Deduped(o, lines), ""), FirstStandsFor(o, lines);
    var j := if BeginsMarked(o, lines) then 2 else 1;
    var plain := (line: string) => !ReadsAsMarker(o, line);
    RestoredAfterFirst(o, lines);
    ItemsAreFaithful(o, lines, "");
    ShownAreGivenBack(items[j..], lines[0], lines[k..], restored[k..], plain);
    MistakenAfterFirst(o, items, j, plain);
    ShownFrom(lines, restored, k, plain);
  }

  /** The output accounts for every line of the original, in place, exactly when no line that it shows after the
      first reads as a marker: a line is given back, or was collapsed into a run of similar lines that are not
      critical and of which the first was kept. */
  lemma DedupeIsFaithfulIff(o: Options, lines: seq<string>)
    requires lines != []
    ensures Faithful(o, lines, Expanded(o, Rendered(Deduped(o, lines)))) <==> NoneLooksLikeMarker(o, lines)
  {
    FaithfulIffNoneMistaken(o, lines);
    NoneMistakenIff(o, lines);
  }

  /** A line that says it repeats the one before it. */
  predicate SaysRepeated(line: string) {
    match ReadMarker(REPEATED, line) case Some(n) => n >= 2 case None => false
  }

  /** Without structural collapsing the original can be expanded back from the output exactly when no line after
      the first run says that it repeats another: the first run is the first line, or three or more like it. */
  lemma PlainDedupeRoundTripsIff(o: Options, lines: seq<string>)
    requires !o.structural && lines != []
    ensures var run := RunOf(lines, SameAs(lines[0]));
            Expanded(o, Rendered(Deduped(o, lines))) == Givens(lines) <==>
            forall i :: (if run >= 3 then run else 1) <= i < |lines| ==> !SaysRepeated(lines[i])
  {
    var run := RunOf(lines, SameAs(lines[0]));
    DedupeIsFaithfulIff(o, lines);
    ItemsAreFaithful(o, lines, "");
    assert BeginsMarked(o, lines) <==> run >= 3;
    forall i | 0 <= i < |lines|
      ensures IsShown(o, lines, i)
      ensures ReadsAsMarker(o, lines[i]) <==> SaysRepeated(lines[i])
    {
    }
    var restored := Expanded(o, Rendered(Deduped(o, lines)));
    assert Faithful(o, lines, restored) <==> restored == Givens(lines);
  }

  /** Two originals with one output: three equal lines, and a line followed by words that say as much. */
  lemma TwoOriginals(o: Options, line: string)
    requires !o.structural
    ensures Rendered(Deduped(o, [line, line, line])) == Rendered(Deduped(o, [line, MarkerText(REPEATED, 2)]))
  {
    var marker := MarkerText(REPEATED, 2);
    var three, two := [line, line, line], [line, marker];
    RunOfIs(three, SameAs(line), 3);
    RunOfIs(two, SameAs(line), if line == marker then 2 else 1);
    RunOfIs([marker], SameAs(marker), 1);
    assert three[3..] == [] && two[1..] == [marker] && two[2..] == [] && [marker][1..] == [];
    assert Deduped(o, three) == [Plain(line), More(2)];
    assert Deduped(o, [marker]) == [Plain(marker)];
    assert Deduped(o, two) == [Plain(line), Plain(marker)];
  }

  /** A critical line is pushed, and never collapsed away. */
  lemma CriticalLinesStay(o: Options, lines: seq<string>, i: nat)
    requires i < |lines| && o.critical(lines[i])
    ensures IsShown(o, lines, i) && lines[i] in Rendered(Deduped(o, lines))
  {
    var items := Deduped(o, lines);
    ItemsAreFaithful(o, lines, "");
    DedupedAreEmitted(o, lines);
    RestoredArePlains(items, "", lines[i]);
    var p :| 0 <= p < |items| && items[p] == Plain(lines[i]);
    assert Rendered(items)[p] == lines[i];
  }

  // ----- the text returned -----

  /** Output longer than the bound keeps only its ends; the bound saturates, so a huge context keeps everything. */
  predicate KeptWhole(out: seq<string>, context: Usize) {
    |out| <= Saturated(Saturated(context * 2) + 20)
  }

  /** The text keeps up to twenty lines more than its two ends would hold, however large the context. */
  lemma KeptWholeMeans(out: seq<string>, context: Usize)
    requires |out| <= USIZE_MAX
    ensures KeptWhole(out, context) <==> |out| <= 2 * context + 20
  {
  }

  function Compacted(out: seq<string>, context: Usize): string
    requires |out| <= USIZE_MAX
  {
    if KeptWhole(out, context) then Join(out, "\n")
    else
      Join(out[..context], "\n") + "\n" + MarkerText(WINDOW_GAP, Without(|out|, Saturated(context * 2))) + "\n"
      + Join(out[|out| - context..], "\n")
  }

  function Deduplicated(o: Options, text: string, context: Usize): string
    requires |text| <= USIZE_MAX
  {
    DedupedAreEmitted(o, Lines(text));
    Compacted(Rendered(Deduped(o, Lines(text))), context)
  }

  method DedupeLinesImpl(o: Options, text: string, context: Usize) returns (r: string)
    requires |text| <= USIZE_MAX
    ensures r == Deduplicated(o, text, context)
  {
    var lines := Lines(text);
    if lines == [] {
      return "";
    }
    var out := DedupeLines(o, lines);
    DedupedAreEmitted(o, lines);
    r := Compacted(out, context);
  }

  /** Two stretches of lines around a line of their own. */
  function AroundLine(head: seq<string>, line: string, tail: seq<string>): string {
    Join(head, "\n") + "\n" + line + "\n" + Join(tail, "\n")
  }

  lemma JoinAround(head: seq<string>, line: string, tail: seq<string>)
    requires NoFeeds(head) && NoFeeds(tail) && NoFeed(line)
    requires head != [] <==> tail != []
    ensures SplitLines(AroundLine(head, line, tail)) ==
            if head != [] then head + [line] + tail else ["", line, ""]
  {
    if head != [] {
      JoinAppends(head, [line]);
      JoinAppends(head + [line], tail);
      SplitUndoesJoin(head + [line] + tail);
    } else {
      var text := Join(head, "\n") + "\n" + line + "\n" + Join(tail, "\n");
      JoinSetOff(line);
      assert text == "\n" + line + "\n";
      SplitUndoesJoin(["", line, ""]);
    }
  }

  /** The lines of the compacted text are those of the output, or its ends around a marker; the ends do not overlap,
      and their lines and the count of the marker add up to the output. Without context the ends leave two empty
      lines. */
  lemma CompactionReadsBack(out: seq<string>, context: Usize)
    requires out != [] && |out| <= USIZE_MAX && NoFeeds(out)
    ensures KeptWhole(out, context) ==> SplitLines(Compacted(out, context)) == out
    ensures !KeptWhole(out, context) ==>
              var omitted := |out| - 2 * context;
              && omitted > 20
              && (context > 0 <==>
                  SplitLines(Compacted(out, context)) ==
                  out[..context] + [MarkerText(WINDOW_GAP, omitted)] + out[|out| - context..])
              && (context == 0 ==> SplitLines(Compacted(out, context)) == ["", MarkerText(WINDOW_GAP, omitted), ""])
  {
    if KeptWhole(out, context) {
      SplitUndoesJoin(out);
    } else {
      CompactedEnds(out, context);
    }
  }

  lemma CompactedIs(out: seq<string>, context: Usize)
    requires |out| <= USIZE_MAX && !KeptWhole(out, context)
    ensures |out| - 2 * context > 20
    ensures Compacted(out, context) ==
            AroundLine(out[..context], MarkerText(WINDOW_GAP, |out| - 2 * context), out[|out| - context..])
  {
  }

  lemma CompactedEnds(out: seq<string>, context: Usize)
    requires |out| <= USIZE_MAX && NoFeeds(out) && !KeptWhole(out, context)
    ensures |out| - 2 * context > 20
    ensures SplitLines(Compacted(out, context)) ==
            if context > 0 then out[..context] + [MarkerText(WINDOW_GAP, |out| - 2 * context)] + out[|out| - context..]
            else ["", MarkerText(WINDOW_GAP, |out|), ""]
  {
    CompactedIs(out, context);
    WindowGapHasNoFeed();
    MarkerHasNoFeed(WINDOW_GAP, |out| - 2 * context);
    JoinAround(out[..context], MarkerText(WINDOW_GAP, |out| - 2 * context), out[|out| - context..]);
  }

  lemma RepeatedHasNoFeed()
    ensures NoFeed(REPEATED.before) && NoFeed(REPEATED.after)
  {
  }

  lemma SimilarHasNoFeed()
    ensures NoFeed(SIMILAR.before) && NoFeed(SIMILAR.after)
  {
    assert NoFeed(DIGITS_VARY) && NoFeed(EXACT_REF);
  }

  lemma DedupedHoldNoFeed(o: Options, lines: seq<string>)
    requires NoFeeds(lines)
    ensures NoFeeds(Rendered(Deduped(o, lines)))
  {
    var items := Deduped(o, lines);
    RepeatedHasNoFeed();
    SimilarHasNoFeed();
    ItemsAreFaithful(o, lines, "");
    forall p | 0 <= p < |items|
      ensures NoFeed(ItemLine(items[p]))
    {
      match items[p]
      case Plain(t) =>
        PlainsAreRestored(items, "", t);
      case More(n) => MarkerHasNoFeed(REPEATED, n);
      case Similar(n) => MarkerHasNoFeed(SIMILAR, n);
    }
  }

  /** Reading the returned text accounts for every line of the original exactly when no line shown after the first
      reads as a marker, unless the text was compacted to its ends. */
  lemma DedupeTextReadsBackIff(o: Options, text: string, context: Usize)
    requires |text| <= USIZE_MAX && Lines(text) != [] && KeptWhole(Rendered(Deduped(o, Lines(text))), context)
    ensures Faithful(o, Lines(text), Expanded(o, SplitLines(Deduplicated(o, text, context)))) <==>
            NoneLooksLikeMarker(o, Lines(text))
  {
    var lines := Lines(text);
    LinesHoldNoFeed(text);
    DedupedHoldNoFeed(o, lines);
    DedupedAreEmitted(o, lines);
    CompactionReadsBack(Rendered(Deduped(o, lines)), context);
    DedupeIsFaithfulIff(o, lines);
  }

  // ----- critical lines in the text -----

  /** The lines that the text shows: all that were pushed, or those of its ends and the marker between them. */
  predicate InCompacted(out: seq<string>, context: Usize, line: string)
    requires |out| <= USIZE_MAX
  {
    if KeptWhole(out, context) then line in out
    else
      || line in out[..context]
      || line == MarkerText(WINDOW_GAP, |out| - 2 * context)
      || line in out[|out| - context..]
      || (context == 0 && line == "")
  }

  lemma CompactedShows(out: seq<string>, context: Usize, line: string)
    requires out != [] && |out| <= USIZE_MAX && NoFeeds(out)
    ensures line in SplitLines(Compacted(out, context)) <==> InCompacted(out, context, line)
  {
    CompactionReadsBack(out, context);
    if !KeptWhole(out, context) && context > 0 {
      InAnyPart(out[..context], MarkerText(WINDOW_GAP, |out| - 2 * context), out[|out| - context..], line);
    }
  }

  lemma InAnyPart(a: seq<string>, middle: string, b: seq<string>, line: string)
    ensures line in a + [middle] + b <==> line in a || line == middle || line in b
  {
  }

  lemma DeduplicatedShows(o: Options, text: string, context: Usize, line: string)
    requires |text| <= USIZE_MAX && Lines(text) != []
    ensures |Rendered(Deduped(o, Lines(text)))| <= USIZE_MAX
    ensures line in SplitLines(Deduplicated(o, text, context)) <==>
            InCompacted(Rendered(Deduped(o, Lines(text))), context, line)
  {
    LinesHoldNoFeed(text);
    DedupedHoldNoFeed(o, Lines(text));
    DedupedAreEmitted(o, Lines(text));
    CompactedShows(Rendered(Deduped(o, Lines(text))), context, line);
  }

  /** A critical line is pushed; it is shown in the text that is returned exactly when the output is short enough to be
      kept whole, or holds it near one of its ends, or it is the very marker of the lines left out, or empty and no
      context is kept. */
  lemma CriticalLinesShownIff(o: Options, text: string, context: Usize, i: nat)
    requires |text| <= USIZE_MAX && i < |Lines(text)| && o.critical(Lines(text)[i])
    ensures var out, line := Rendered(Deduped(o, Lines(text))), Lines(text)[i];
            && |out| <= USIZE_MAX && line in out
            && (line in SplitLines(Deduplicated(o, text, context)) <==> InCompacted(out, context, line))
  {
    CriticalLinesStay(o, Lines(text), i);
    DeduplicatedShows(o, text, context, Lines(text)[i]);
  }

  /** Critical lines are pushed one by one. */
  lemma {:induction false} CriticalsPassThrough(o: Options, lines: seq<string>)
    requires o.structural && forall i :: 0 <= i < |lines| ==> o.critical(lines[i])
    ensures Rendered(Deduped(o, lines)) == lines
    decreases |lines|
  {
    if lines != [] {
      CriticalsPassThrough(o, lines[1..]);
      RenderedAppend([Plain(lines[0])], Deduped(o, lines[1..]));
      assert Rendered([Plain(lines[0])]) == [lines[0]];
    }
  }

  /** One line in the middle of many others. */
  function Amid(other: string, line: string, n: nat): seq<string> {
    Repeated(other, n) + [line] + Repeated(other, n)
  }

  ghost predicate IsLine(line: string) {
    line != "" && NoFeed(line) && !EndsWith(line, '\r')
  }

  lemma AmidIsNotInEnds(other: string, line: string, context: Usize)
    requires line != other && line != "" && line != MarkerText(WINDOW_GAP, 23) && 2 * context + 23 <= USIZE_MAX
    ensures var lines := Amid(other, line, context + 11);
            |lines| == 2 * context + 23 && lines[context + 11] == line && !InCompacted(lines, context, line)
  {
    var lines := Amid(other, line, context + 11);
    assert forall i :: 0 <= i < context ==> lines[i] == other;
    assert forall i :: context + 12 <= i < |lines| ==> lines[i] == other;
  }

  /** A critical line in the middle of enough others is dropped, for every context. */
  lemma CriticalAmidIsDropped(o: Options, other: string, line: string, context: Usize)
    requires o.structural && o.critical(other) && o.critical(line)
    requires IsLine(other) && IsLine(line) && line != other && line != MarkerText(WINDOW_GAP, 23)
    requires |Join(Amid(other, line, context + 11), "\n")| <= USIZE_MAX
    ensures var lines := Amid(other, line, context + 11);
            && Lines(Join(lines, "\n")) == lines && line in lines
            && line !in SplitLines(Deduplicated(o, Join(lines, "\n"), context))
  {
    var lines := Amid(other, line, context + 11);
    LinesUndoJoin(lines);
    assert |lines| == 2 * context + 23;
    AmidIsNotInEnds(other, line, context);
    CriticalsPassThrough(o, lines);
    DeduplicatedShows(o, Join(lines, "\n"), context, line);
  }

  lemma AmidOfShort(other: string, line: string, n: nat)
    requires |other| < 100 && |line| < 100
    ensures |Join(Amid(other, line, n), "\n")| <= 100 * (2 * n + 1)
  {
    JoinOfShort(Amid(other, line, n));
  }

  /** For instance among 35 lines, with the context that the shell view asks for. */
  lemma CriticalLineIsDropped(o: Options)
    requires o.structural && o.critical("error") && o.critical("fatal")
    ensures var lines := Amid("error", "fatal", 17);
            && |Join(lines, "\n")| <= USIZE_MAX && Lines(Join(lines, "\n")) == lines && "fatal" in lines
            && "fatal" !in SplitLines(Deduplicated(o, Join(lines, "\n"), 6))
  {
    AmidOfShort("error", "fatal", 17);
    assert MarkerText(WINDOW_GAP, 23)[0] == '.';
    CriticalAmidIsDropped(o, "error", "fatal", 6);
  }
}
