/** What the rendering order is, on scores, kind names and payloads (decision_view.rs): inside a maximal run of scored
    sections of one class scores never rise, and ties stand in byte order; runs keep their sections to themselves. */
module SectionMeaning {
  import opened Machine
  import opened Sections
  import opened Sequences
  import opened Sorting
  import opened Wrappers

  /** Byte order: a proper prefix comes first, and otherwise the smaller byte where they first differ. */
  ghost predicate Precedes(a: Bytes, b: Bytes) {
    (a <= b && a != b) || exists k: nat :: FirstDiffer(a, b, k) && a[k] < b[k]
  }

  ghost predicate NamePrecedes(a: string, b: string) {
    (a <= b && a != b) || exists k: nat :: FirstDiffer(a, b, k) && a[k] < b[k]
  }

  /** Two scored sections in the order in which they are rendered. */
  ghost predicate InOrder(a: Section, b: Section)
    requires a.survivalScore.Some? && b.survivalScore.Some?
  {
    || a.survivalScore.value > b.survivalScore.value
    || (a.survivalScore.value == b.survivalScore.value
        && (|| NamePrecedes(KindName(a.kind), KindName(b.kind))
            || (a.kind == b.kind && (a.payload == b.payload || Precedes(a.payload, b.payload)))))
  }

  ghost predicate ScoredLike(s: Section, stable: bool) {
    s.survivalScore.Some? && s.kind.IsStable() == stable
  }

  /** A run of scored sections of one class, and neither neighbour belongs to it. */
  ghost predicate MaximalRun(before: seq<Section>, run: seq<Section>, after: seq<Section>) {
    && run != []
    && (forall k :: 0 <= k < |run| ==> ScoredLike(run[k], run[0].kind.IsStable()))
    && (before != [] ==> !ScoredLike(before[|before| - 1], run[0].kind.IsStable()))
    && (after != [] ==> !ScoredLike(after[0], run[0].kind.IsStable()))
  }

  lemma SectionLeMeans(a: Section, b: Section)
    requires a.survivalScore.Some? && b.survivalScore.Some? && SectionLe(a, b)
    ensures InOrder(a, b)
  {
    ByteLeMeans(a.payload, b.payload);
    StringLeMeans(KindName(a.kind), KindName(b.kind));
    NameOrder(a.kind, b.kind, a.kind);
  }

  lemma RunSortsAsOne(run: seq<Section>)
    requires run != [] && FirstRun(run) == |run|
    ensures SortRuns(run) == OrderedRun(run)
  {
    SliceWhole(run);
  }

  /** Exactly the sections of the run stand in its place, with falling scores and ties in byte order. */
  ghost predicate RenderedFrom(run: seq<Section>, ordered: seq<Section>) {
    && |ordered| == |run| && multiset(ordered) == multiset(run)
    && (forall k :: 0 <= k < |ordered| ==> ordered[k].survivalScore.Some?)
    && (forall j, k :: 0 <= j < k < |ordered| ==> InOrder(ordered[j], ordered[k]))
  }

  /** A higher score always goes first. */
  lemma HigherScoreFirst(a: Section, b: Section)
    requires a.survivalScore.Some? && b.survivalScore.Some? && a.survivalScore.value > b.survivalScore.value
    ensures SectionLe(a, b) && !SectionLe(b, a)
  {
  }

  lemma SortedMeans(ordered: seq<Section>)
    requires Sorted(ordered, SectionLe) && forall k :: 0 <= k < |ordered| ==> ordered[k].survivalScore.Some?
    ensures forall j, k :: 0 <= j < k < |ordered| ==> InOrder(ordered[j], ordered[k])
  {
    forall j, k | 0 <= j < k < |ordered|
      ensures InOrder(ordered[j], ordered[k])
    {
      assert SectionLe(ordered[j], ordered[k]);
      SectionLeMeans(ordered[j], ordered[k]);
    }
  }

  lemma SortedIsRendered(run: seq<Section>)
    requires run != [] && forall k :: 0 <= k < |run| ==> run[k].survivalScore.Some?
    ensures RenderedFrom(run, OrderedRun(run))
  {
    SectionOrder();
    SortSorts(run, SectionLe);
    SortKeepsAll(run, SectionLe, (x: Section) => x.survivalScore.Some?);
    SortedMeans(OrderedRun(run));
  }

  /** Wherever a maximal run stands, its sections are rendered there in order, and what stands before and after is
      rendered as if by itself. */
  lemma RunsAreOrdered(before: seq<Section>, run: seq<Section>, after: seq<Section>) returns (ordered: seq<Section>)
    requires MaximalRun(before, run, after)
    ensures SortRuns(before + (run + after)) == SortRuns(before) + (ordered + SortRuns(after))
    ensures |SortRuns(before)| == |before| && RenderedFrom(run, ordered)
  {
    ordered := OrderedRun(run);
    RunLengthIs(run, run[0].kind.IsStable(), |run|);
    RunSortsAsOne(run);
    RunsSortApart(run, after);
    RunsSortApart(before, run + after);
    SortRunsPermutes(before);
    SortedIsRendered(run);
  }
}
