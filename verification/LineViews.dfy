/** Views that keep some lines and count the ones they leave out (lib.rs). A view is laid out as items, which are
    rendered as lines of text; which lines are hits is a parameter. */
module LineViews {
  import opened LineText
  import opened Sequences
  import opened Text
  import opened Wrappers

  datatype Item = Line(text: string) | Gap(count: nat)

  function PendingGap(omitted: nat): seq<Item> {
    if omitted > 0 then [Gap(omitted)] else []
  }

  /** The kept lines in order, with a gap for every stretch between them; `omitted` lines came just before. */
  function Marked(lines: seq<string>, keep: seq<bool>, omitted: nat): seq<Item>
    requires |keep| == |lines|
  {
    if lines == [] then PendingGap(omitted)
    else if !keep[0] then Marked(lines[1..], keep[1..], omitted + 1)
    else PendingGap(omitted) + [Line(lines[0])] + Marked(lines[1..], keep[1..], 0)
  }

  /** What the items say about each line of the original: the line itself, or that it was left out. */
  function Cover(items: seq<Item>): seq<Option<string>> {
    if items == [] then []
    else (match items[0] case Line(t) => [Some(t)] case Gap(n) => Repeated(None, n)) + Cover(items[1..])
  }

  /** The original with the lines that are not kept blanked out. */
  function Blanked(lines: seq<string>, keep: seq<bool>): (r: seq<Option<string>>)
    requires |keep| == |lines|
    ensures |r| == |lines|
  {
    seq(|lines|, i requires 0 <= i < |lines| => if keep[i] then Some(lines[i]) else None)
  }

  lemma {:induction false} CoverConcat(a: seq<Item>, b: seq<Item>)
    ensures Cover(a + b) == Cover(a) + Cover(b)
  {
    if a == [] {
      assert a + b == b;
    } else {
      assert (a + b)[1..] == a[1..] + b;
      CoverConcat(a[1..], b);
    }
  }

  lemma CoverOne(item: Item)
    ensures Cover([item]) == match item case Line(t) => [Some(t)] case Gap(n) => Repeated(None, n)
  {
    assert [item][1..] == [];
  }

  lemma BlankedHead(lines: seq<string>, keep: seq<bool>)
    requires |keep| == |lines| > 0
    ensures Blanked(lines, keep) == [if keep[0] then Some(lines[0]) else None] + Blanked(lines[1..], keep[1..])
  {
  }

  lemma OneMoreBlank<T>(x: T, n: nat, rest: seq<T>)
    ensures Repeated(x, n + 1) + rest == Repeated(x, n) + ([x] + rest)
  {
  }

  lemma CoverPendingGap(omitted: nat)
    ensures Cover(PendingGap(omitted)) == Repeated(None, omitted)
  {
    if omitted > 0 {
      CoverOne(Gap(omitted));
    }
  }

  lemma CoverGapAndLine(omitted: nat, line: string, rest: seq<Item>)
    ensures Cover(PendingGap(omitted) + [Line(line)] + rest) == Repeated(None, omitted) + ([Some(line)] + Cover(rest))
  {
    CoverPendingGap(omitted);
    CoverOne(Line(line));
    CoverConcat([Line(line)], rest);
    CoverConcat(PendingGap(omitted), [Line(line)] + rest);
    Regroup(PendingGap(omitted), [Line(line)], rest);
  }

  /** The items account for every line: each kept line stands at its own place, and each line in a gap is one
      that is not kept. */
  lemma {:induction false} MarkedCovers(lines: seq<string>, keep: seq<bool>, omitted: nat)
    requires |keep| == |lines|
    ensures Cover(Marked(lines, keep, omitted)) == Repeated(None, omitted) + Blanked(lines, keep)
    decreases |lines|
  {
    if lines == [] {
      CoverPendingGap(omitted);
      assert Blanked(lines, keep) == [];
    } else {
      BlankedHead(lines, keep);
      var rest := Blanked(lines[1..], keep[1..]);
      if !keep[0] {
        MarkedCovers(lines[1..], keep[1..], omitted + 1);
        OneMoreBlank(None, omitted, rest);
      } else {
        MarkedCovers(lines[1..], keep[1..], 0);
        CoverGapAndLine(omitted, lines[0], Marked(lines[1..], keep[1..], 0));
        assert Repeated(None, 0) + rest == rest;
      }
    }
  }

  /** Gaps are whole: none is empty, and no two stand next to each other. */
  ghost predicate GapsWhole(items: seq<Item>) {
    && (forall i :: 0 <= i < |items| && items[i].Gap? ==> items[i].count > 0)
    && (forall i, j :: 0 <= i && j == i + 1 && j < |items| && items[i].Gap? ==> items[j].Line?)
  }

  lemma {:induction false} MarkedGapsWhole(lines: seq<string>, keep: seq<bool>, omitted: nat)
    requires |keep| == |lines|
    ensures GapsWhole(Marked(lines, keep, omitted))
    decreases |lines|
  {
    if lines != [] {
      MarkedGapsWhole(lines[1..], keep[1..], if keep[0] then 0 else omitted + 1);
    }
  }

  // ----- items as lines of text -----

  function ItemText(m: Marker, item: Item): string {
    match item case Line(t) => t case Gap(n) => MarkerText(m, n)
  }

  function Texts(m: Marker, items: seq<Item>): (r: seq<string>)
    ensures |r| == |items| && forall i :: 0 <= i < |items| ==> r[i] == ItemText(m, items[i])
  {
    seq(|items|, i requires 0 <= i < |items| => ItemText(m, items[i]))
  }

  /** What lines of text say about the original: a line that reads as a marker stands for as many lines left out,
      any other for itself. */
  function ReadBack(m: Marker, shown: seq<string>): seq<Option<string>> {
    if shown == [] then []
    else
      (match ReadMarker(m, shown[0]) case None => [Some(shown[0])] case Some(n) => Repeated(None, n))
      + ReadBack(m, shown[1..])
  }

  /** No kept line reads as a marker. */
  ghost predicate NoneMisread(m: Marker, lines: seq<string>, keep: seq<bool>)
    requires |keep| == |lines|
  {
    forall i :: 0 <= i < |lines| && keep[i] ==> ReadMarker(m, lines[i]).None?
  }

  lemma {:induction false} OnlyPlainReadBack(m: Marker, shown: seq<string>, t: string)
    requires Some(t) in ReadBack(m, shown)
    ensures ReadMarker(m, t).None?
  {
    if ReadMarker(m, shown[0]) != None || t != shown[0] {
      OnlyPlainReadBack(m, shown[1..], t);
    }
  }

  lemma {:induction false} ItemsReadBack(m: Marker, items: seq<Item>)
    requires forall i :: 0 <= i < |items| && items[i].Line? ==> ReadMarker(m, items[i].text).None?
    ensures ReadBack(m, Texts(m, items)) == Cover(items)
  {
    if items != [] {
      assert Texts(m, items)[1..] == Texts(m, items[1..]);
      ItemsReadBack(m, items[1..]);
      if items[0].Gap? {
        ReadMarkerInverts(m, MarkerText(m, items[0].count), items[0].count);
      }
    }
  }

  lemma {:induction false} LinesOfMarked(lines: seq<string>, keep: seq<bool>, omitted: nat, i: nat)
    requires |keep| == |lines| && i < |Marked(lines, keep, omitted)| && Marked(lines, keep, omitted)[i].Line?
    ensures exists k :: 0 <= k < |lines| && keep[k] && lines[k] == Marked(lines, keep, omitted)[i].text
    decreases |lines|
  {
    if lines != [] {
      if !keep[0] {
        LinesOfMarked(lines[1..], keep[1..], omitted + 1, i);
      } else {
        var gaps := |PendingGap(omitted)|;
        if i > gaps {
          LinesOfMarked(lines[1..], keep[1..], 0, i - gaps - 1);
        }
      }
    }
  }

  lemma MisreadNeverReadsBack(m: Marker, shown: seq<string>, lines: seq<string>, keep: seq<bool>)
    requires |keep| == |lines| && !NoneMisread(m, lines, keep)
    ensures ReadBack(m, shown) != Blanked(lines, keep)
  {
    var i :| 0 <= i < |lines| && keep[i] && ReadMarker(m, lines[i]).Some?;
    if ReadBack(m, shown) == Blanked(lines, keep) {
      assert Blanked(lines, keep)[i] == Some(lines[i]);
      OnlyPlainReadBack(m, shown, lines[i]);
    }
  }

  /** The rendered items read back as what they stand for exactly when no kept line reads as a marker. */
  lemma ViewReadsBackIff(m: Marker, lines: seq<string>, keep: seq<bool>)
    requires |keep| == |lines|
    ensures ReadBack(m, Texts(m, Marked(lines, keep, 0))) == Blanked(lines, keep) <==> NoneMisread(m, lines, keep)
  {
    var items := Marked(lines, keep, 0);
    MarkedCovers(lines, keep, 0);
    assert Repeated(None, 0) + Blanked(lines, keep) == Blanked(lines, keep);
    if NoneMisread(m, lines, keep) {
      forall i | 0 <= i < |items| && items[i].Line?
        ensures ReadMarker(m, items[i].text).None?
      {
        LinesOfMarked(lines, keep, 0, i);
      }
      ItemsReadBack(m, items);
    } else {
      MisreadNeverReadsBack(m, Texts(m, items), lines, keep);
    }
  }

  lemma MarkedHoldNoFeed(m: Marker, lines: seq<string>, keep: seq<bool>)
    requires |keep| == |lines| && NoFeeds(lines) && NoFeed(m.before) && NoFeed(m.after)
    ensures NoFeeds(Texts(m, Marked(lines, keep, 0)))
  {
    var items := Marked(lines, keep, 0);
    forall i | 0 <= i < |items|
      ensures NoFeed(ItemText(m, items[i]))
    {
      if items[i].Line? {
        LinesOfMarked(lines, keep, 0, i);
      } else {
        MarkerHasNoFeed(m, items[i].count);
      }
    }
  }

  // ----- windows around hits -----

  /** Lines within `radius` of a hit. */
  predicate NearHit(lines: seq<string>, radius: nat, isHit: string -> bool, i: nat) {
    exists j :: 0 <= j < |lines| && isHit(lines[j]) && j - radius <= i <= j + radius
  }

  function NearHits(lines: seq<string>, radius: nat, isHit: string -> bool): (r: seq<bool>)
    ensures |r| == |lines|
  {
    seq(|lines|, i requires 0 <= i < |lines| => NearHit(lines, radius, isHit, i))
  }

  predicate AnyHit(lines: seq<string>, isHit: string -> bool) {
    exists i :: 0 <= i < |lines| && isHit(lines[i])
  }

  method KeepWindows(lines: seq<string>, radius: nat, isHit: string -> bool) returns (keep: array<bool>)
    ensures fresh(keep) && keep[..] == NearHits(lines, radius, isHit)
  {
    keep := new bool[|lines|](_ => false);
    for idx := 0 to |lines|
      invariant forall i :: 0 <= i < |lines| ==>
                  (keep[i] <==> exists j :: 0 <= j < idx && isHit(lines[j]) && j - radius <= i <= j + radius)
    {
      if isHit(lines[idx]) {
        var start := if idx >= radius then idx - radius else 0;
        var end := if idx + radius + 1 <= |lines| then idx + radius + 1 else |lines|;
        for k := start to end
          invariant forall i :: 0 <= i < |lines| ==>
                      (keep[i] <==>
                       start <= i < k || exists j :: 0 <= j < idx && isHit(lines[j]) && j - radius <= i <= j + radius)
        {
          keep[k] := true;
        }
      }
    }
  }

  /** How the markers of gaps end. */
  const EXACT_REF := "; exact ref available ..."

  /** The marker of a gap between windows. */
  const WINDOW_GAP := Marker("... omitted ", " lines" + EXACT_REF)

  lemma WindowGapHasNoFeed()
    ensures NoFeed(WINDOW_GAP.before) && NoFeed(WINDOW_GAP.after)
  {
  }

  lemma MarkedAfterGap(lines: seq<string>, keep: seq<bool>, omitted: nat)
    requires |keep| == |lines| && omitted > 0 && (lines == [] || keep[0])
    ensures Marked(lines, keep, omitted) == [Gap(omitted)] + Marked(lines, keep, 0)
  {
  }

  lemma SkippedLine(lines: seq<string>, keep: seq<bool>, idx: nat, omitted: nat)
    requires |keep| == |lines| && idx < |lines| && !keep[idx]
    ensures Marked(lines[idx..], keep[idx..], omitted) == Marked(lines[idx + 1..], keep[idx + 1..], omitted + 1)
  {
    assert lines[idx..][1..] == lines[idx + 1..] && keep[idx..][1..] == keep[idx + 1..];
  }

  lemma TakenLine(lines: seq<string>, keep: seq<bool>, idx: nat)
    requires |keep| == |lines| && idx < |lines| && keep[idx]
    ensures Marked(lines[idx..], keep[idx..], 0) == [Line(lines[idx])] + Marked(lines[idx + 1..], keep[idx + 1..], 0)
  {
    assert lines[idx..][1..] == lines[idx + 1..] && keep[idx..][1..] == keep[idx + 1..];
  }

  lemma TextsAppend(m: Marker, done: seq<Item>, item: Item)
    ensures Texts(m, done + [item]) == Texts(m, done) + [ItemText(m, item)]
  {
  }

  /** Passes the lines left out before the next kept one. */
  method SkipGap(lines: seq<string>, keep: seq<bool>, start: nat) returns (end: nat)
    requires |keep| == |lines| && start < |lines| && !keep[start]
    ensures start < end <= |lines|
    ensures Marked(lines[start..], keep[start..], 0) == [Gap(end - start)] + Marked(lines[end..], keep[end..], 0)
  {
    end := start;
    while end < |lines| && !keep[end]
      invariant start <= end <= |lines| && (end == start ==> end < |lines| && !keep[end])
      invariant Marked(lines[end..], keep[end..], end - start) == Marked(lines[start..], keep[start..], 0)
    {
      SkippedLine(lines, keep, end, end - start);
      end := end + 1;
    }
    MarkedAfterGap(lines[end..], keep[end..], end - start);
  }

  /** Walks the lines, taking a stretch of lines left out as one gap. */
  method WindowLines(m: Marker, lines: seq<string>, keep: seq<bool>) returns (out: seq<string>)
    requires |keep| == |lines|
    ensures out == Texts(m, Marked(lines, keep, 0))
  {
    out := [];
    var idx := 0;
    ghost var done: seq<Item> := [];
    while idx < |lines|
      invariant idx <= |lines| && out == Texts(m, done)
      invariant done + Marked(lines[idx..], keep[idx..], 0) == Marked(lines, keep, 0)
    {
      ghost var item;
      var end: nat;
      if keep[idx] {
        TakenLine(lines, keep, idx);
        out := out + [lines[idx]];
        end, item := idx + 1, Line(lines[idx]);
      } else {
        end := SkipGap(lines, keep, idx);
        out := out + [MarkerText(m, end - idx)];
        item := Gap(end - idx);
      }
      Regroup(done, [item], Marked(lines[end..], keep[end..], 0));
      TextsAppend(m, done, item);
      idx, done := end, done + [item];
    }
    assert lines[|lines|..] == [];
  }

  /** The lines near hits, with the gaps between them; nothing when there is no hit. */
  function WindowView(text: string, radius: nat, isHit: string -> bool): string {
    var lines := Lines(text);
    if AnyHit(lines, isHit) then Join(Texts(WINDOW_GAP, Marked(lines, NearHits(lines, radius, isHit), 0)), "\n") else ""
  }

  method KeywordWindowView(text: string, radius: nat, isHit: string -> bool) returns (view: string)
    ensures view == WindowView(text, radius, isHit)
  {
    var lines := Lines(text);
    var windows := KeepWindows(lines, radius, isHit);
    var keep := windows[..];
    KeepsIffHit(lines, radius, isHit);
    if !(exists i :: 0 <= i < |keep| && keep[i]) {
      return "";
    }
    var out := WindowLines(WINDOW_GAP, lines, keep);
    view := Join(out, "\n");
  }

  lemma KeepsIffHit(lines: seq<string>, radius: nat, isHit: string -> bool)
    ensures (exists i :: 0 <= i < |lines| && NearHits(lines, radius, isHit)[i]) <==> AnyHit(lines, isHit)
  {
    var keep := NearHits(lines, radius, isHit);
    if AnyHit(lines, isHit) {
      var i :| 0 <= i < |lines| && isHit(lines[i]);
      assert NearHit(lines, radius, isHit, i);
      assert keep[i];
    }
  }

  lemma KeptIsShown(m: Marker, lines: seq<string>, keep: seq<bool>, i: nat)
    requires |keep| == |lines| && i < |lines| && keep[i]
    ensures lines[i] in Texts(m, Marked(lines, keep, 0))
  {
    var items := Marked(lines, keep, 0);
    KeptIsMarked(lines, keep, 0, i);
    var k :| 0 <= k < |items| && items[k] == Line(lines[i]);
    assert Texts(m, items)[k] == lines[i];
  }

  lemma {:induction false} KeptIsMarked(lines: seq<string>, keep: seq<bool>, omitted: nat, i: nat)
    requires |keep| == |lines| && i < |lines| && keep[i]
    ensures Line(lines[i]) in Marked(lines, keep, omitted)
    decreases |lines|
  {
    if i > 0 {
      KeptIsMarked(lines[1..], keep[1..], if keep[0] then 0 else omitted + 1, i - 1);
    }
  }

  /** The text of a window view shows every hit, and tells of every line of the original whether it is near a hit,
      giving it back when it is: exactly when no line near a hit reads as a marker. */
  lemma WindowViewConserves(text: string, radius: nat, isHit: string -> bool)
    requires AnyHit(Lines(text), isHit)
    ensures var lines, shown := Lines(text), SplitLines(WindowView(text, radius, isHit));
            && (forall i :: 0 <= i < |lines| && isHit(lines[i]) ==> lines[i] in shown)
            && (ReadBack(WINDOW_GAP, shown) == Blanked(lines, NearHits(lines, radius, isHit)) <==>
                NoneMisread(WINDOW_GAP, lines, NearHits(lines, radius, isHit)))
  {
    var lines := Lines(text);
    var keep := NearHits(lines, radius, isHit);
    var texts := Texts(WINDOW_GAP, Marked(lines, keep, 0));
    LinesHoldNoFeed(text);
    WindowGapHasNoFeed();
    MarkedHoldNoFeed(WINDOW_GAP, lines, keep);
    KeepsIffHit(lines, radius, isHit);
    var hit :| 0 <= hit < |lines| && keep[hit];
    KeptIsShown(WINDOW_GAP, lines, keep, hit);
    SplitUndoesJoin(texts);
    ViewReadsBackIff(WINDOW_GAP, lines, keep);
    forall i | 0 <= i < |lines| && isHit(lines[i])
      ensures lines[i] in texts
    {
      assert NearHit(lines, radius, isHit, i);
      KeptIsShown(WINDOW_GAP, lines, keep, i);
    }
  }

  /** A hit, and after it a line that says that two were left out. */
  function HitAndMarker(): seq<string> {
    ["error", MarkerText(WINDOW_GAP, 2)]
  }

  lemma HitAndMarkerAreLines()
    ensures Lines(Join(HitAndMarker(), "\n")) == HitAndMarker()
  {
    WindowGapHasNoFeed();
    MarkerHasNoFeed(WINDOW_GAP, 2);
    LinesUndoJoin(HitAndMarker());
  }

  lemma BothNear(lines: seq<string>, radius: nat, isHit: string -> bool)
    requires |lines| == 2 && radius > 0 && isHit(lines[0])
    ensures AnyHit(lines, isHit) && NearHits(lines, radius, isHit) == [true, true]
    ensures Blanked(lines, [true, true]) == [Some(lines[0]), Some(lines[1])]
  {
    assert NearHit(lines, radius, isHit, 0) && NearHit(lines, radius, isHit, 1);
  }

  /** For instance, a line next to a hit can be the very words of a marker: the view shows both lines and reads as one
      line and two left out. */
  lemma MarkerLineIsMisread(radius: nat, isHit: string -> bool)
    requires radius > 0 && isHit("error")
    ensures var lines, text := HitAndMarker(), Join(HitAndMarker(), "\n");
            && Lines(text) == lines && AnyHit(lines, isHit) && NearHits(lines, radius, isHit) == [true, true]
            && ReadBack(WINDOW_GAP, SplitLines(WindowView(text, radius, isHit))) != Blanked(lines, [true, true])
  {
    var lines := HitAndMarker();
    HitAndMarkerAreLines();
    BothNear(lines, radius, isHit);
    ReadMarkerInverts(WINDOW_GAP, lines[1], 2);
    assert !NoneMisread(WINDOW_GAP, lines, [true, true]);
    WindowViewConserves(Join(lines, "\n"), radius, isHit);
  }
}
