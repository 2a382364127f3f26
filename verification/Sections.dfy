/** Decision View sections and the order they are rendered in (decision_view.rs): maximal runs of scored
    sections of one class are sorted canonically in place, everything else keeps its position. */
module Sections {
  import opened Encoding
  import opened Machine
  import opened Sequences
  import opened Sorting
  import opened Wrappers

  datatype SectionKind =
    | StableSystemToolContract
    | StableProjectCapsule
    | StableTaskFamilyCapsule
    | StableTypedEffectSchema
    | VolatileLocusEvidence
    | VolatileWorkingTreeDelta
    | VolatileUserTask
    | VolatileUncertaintyCoverage
    | VolatileRecoveryRoutes
  {
    predicate IsStable() {
      StableSystemToolContract? || StableProjectCapsule? || StableTaskFamilyCapsule? || StableTypedEffectSchema?
    }

    function Index(): nat {
      match this
      case StableSystemToolContract => 0
      case StableProjectCapsule => 1
      case StableTaskFamilyCapsule => 2
      case StableTypedEffectSchema => 3
      case VolatileLocusEvidence => 4
      case VolatileWorkingTreeDelta => 5
      case VolatileUserTask => 6
      case VolatileUncertaintyCoverage => 7
      case VolatileRecoveryRoutes => 8
    }
  }

  const KIND_NAMES: seq<string> := [
    "stable_system_tool_contract",
    "stable_project_capsule",
    "stable_task_family_capsule",
    "stable_typed_effect_schema",
    "volatile_locus_evidence",
    "volatile_working_tree_delta",
    "volatile_user_task",
    "volatile_uncertainty_coverage",
    "volatile_recovery_routes"]

  function KindName(kind: SectionKind): string {
    KIND_NAMES[kind.Index()]
  }

  datatype Section = Section(
    kind: SectionKind,
    payload: Bytes,
    tokenizerIdentity: Option<Digest>,
    toolSchema: Option<Digest>,
    sourceRoot: Option<Digest>,
    modelProfile: Option<Digest>,
    survivalScore: Option<U32>)

  /** What the comparison sees of a section. */
  datatype Key = Key(score: Option<U32>, kind: SectionKind, payload: Bytes)

  function KeyOf(s: Section): Key {
    Key(s.survivalScore, s.kind, s.payload)
  }

  predicate PayloadLe(a: Bytes, b: Bytes) {
    LexLe(a, b, ByteRank)
  }

  function ScoreOf(k: Key): U32 {
    if k.score.Some? then k.score.value else 0
  }

  /** Higher score first, then by kind name, then by payload. */
  predicate KeyLe(left: Key, right: Key) {
    || ScoreOf(left) > ScoreOf(right)
    || (ScoreOf(left) == ScoreOf(right) &&
        if left.kind == right.kind then PayloadLe(left.payload, right.payload)
        else StringLe(KindName(left.kind), KindName(right.kind)))
  }

  predicate SectionLe(left: Section, right: Section) {
    KeyLe(KeyOf(left), KeyOf(right))
  }

  /** The letters that tell the kind names apart, in a byte string that opens with the name of a kind. */
  ghost predicate Marks(y: Bytes, kind: SectionKind) {
    && |y| >= 18
    && y[0] == (if kind.IsStable() then 's' else 'v') as int
    && (kind.IsStable() ==>
          && y[7] == (if kind.StableSystemToolContract? then 's' else if kind.StableProjectCapsule? then 'p'
                      else 't') as int
          && (kind.StableTaskFamilyCapsule? ==> y[8] == 'a' as int)
          && (kind.StableTypedEffectSchema? ==> y[8] == 'y' as int))
    && (!kind.IsStable() ==>
          && y[9] == (if kind.VolatileLocusEvidence? then 'l' else if kind.VolatileWorkingTreeDelta? then 'w'
                      else if kind.VolatileRecoveryRoutes? then 'r' else 'u') as int
          && (kind.VolatileUserTask? ==> y[10] == 's' as int)
          && (kind.VolatileUncertaintyCoverage? ==> y[10] == 'n' as int))
  }

  lemma NameMarks(kind: SectionKind)
    ensures Marks(Ascii(KindName(kind)), kind)
  {
  }

  lemma MarksExtend(name: Bytes, y: Bytes, kind: SectionKind)
    requires Marks(name, kind) && name <= y
    ensures Marks(y, kind)
  {
    assert forall i :: 0 <= i < 18 ==> y[i] == name[i];
  }

  lemma MarksOnce(y: Bytes, a: SectionKind, b: SectionKind)
    requires Marks(y, a) && Marks(y, b)
    ensures a == b
  {
  }

  lemma KeyOrder(a: Key, b: Key, c: Key)
    ensures KeyLe(a, b) || KeyLe(b, a)
    ensures KeyLe(a, b) && KeyLe(b, c) ==> KeyLe(a, c)
    ensures KeyLe(a, b) && KeyLe(b, a) && a.score.Some? && b.score.Some? ==> a == b
  {
    NameOrder(a.kind, b.kind, c.kind);
    LexLeTotal(a.payload, b.payload, ByteRank);
    if PayloadLe(a.payload, b.payload) && PayloadLe(b.payload, c.payload) {
      LexLeTransitive(a.payload, b.payload, c.payload, ByteRank);
    }
    if PayloadLe(a.payload, b.payload) && PayloadLe(b.payload, a.payload) {
      LexLeAntisymmetric(a.payload, b.payload, ByteRank);
    }
  }

  lemma NameOrder(a: SectionKind, b: SectionKind, c: SectionKind)
    ensures var (x, y, z) := (KindName(a), KindName(b), KindName(c));
            && (StringLe(x, y) || StringLe(y, x))
            && (StringLe(x, y) && StringLe(y, z) ==> StringLe(x, z))
            && (StringLe(x, y) && StringLe(y, x) ==> a == b)
  {
    StringLeIsTotalOrder(KindName(a), KindName(b), KindName(c));
    if KindName(a) == KindName(b) {
      NameMarks(a);
      NameMarks(b);
      MarksOnce(Ascii(KindName(a)), a, b);
    }
  }

  lemma SectionOrder()
    ensures TotalPreorder(SectionLe)
  {
    forall x: Section, y: Section
      ensures SectionLe(x, y) || SectionLe(y, x)
    {
      KeyOrder(KeyOf(x), KeyOf(y), KeyOf(x));
    }
    forall x: Section, y: Section, z: Section | SectionLe(x, y) && SectionLe(y, z)
      ensures SectionLe(x, z)
    {
      KeyOrder(KeyOf(x), KeyOf(y), KeyOf(z));
    }
  }

  // ----- runs -----

  /** The length of the run of scored sections of the given class at the front. */
  function RunLength(s: seq<Section>, stable: bool): (n: nat)
    ensures n <= |s|
    ensures forall i :: 0 <= i < n ==> s[i].survivalScore.Some? && s[i].kind.IsStable() == stable
    ensures n < |s| ==> !(s[n].survivalScore.Some? && s[n].kind.IsStable() == stable)
  {
    if s != [] && s[0].survivalScore.Some? && s[0].kind.IsStable() == stable then 1 + RunLength(s[1..], stable) else 0
  }

  /** The length of the first run; an unscored section is a run by itself. */
  function FirstRun(s: seq<Section>): (n: nat)
    requires s != []
    ensures 0 < n <= |s|
  {
    if s[0].survivalScore.None? then 1 else RunLength(s, s[0].kind.IsStable())
  }

  function OrderedRun(run: seq<Section>): seq<Section>
    requires run != []
  {
    if run[0].survivalScore.None? then run else SortBy(run, SectionLe)
  }

  function SortRuns(s: seq<Section>): seq<Section> {
    if s == [] then [] else OrderedRun(s[..FirstRun(s)]) + SortRuns(s[FirstRun(s)..])
  }

  /** Where the run that starts at `index` ends. */
  method RunEnd(a: array<Section>, index: nat) returns (end: nat)
    requires index < a.Length && a[index].survivalScore.Some?
    ensures end == index + RunLength(a[index..], a[index].kind.IsStable()) && index < end <= a.Length
  {
    var isStable := a[index].kind.IsStable();
    end := index + 1;
    while end < a.Length && a[end].survivalScore.Some? && a[end].kind.IsStable() == isStable
      invariant index < end <= a.Length
      invariant forall i :: index <= i < end ==> a[i].survivalScore.Some? && a[i].kind.IsStable() == isStable
    {
      end := end + 1;
    }
    RunLengthIs(a[index..], isStable, end - index);
  }

  /** The list with its part from `i` on already in rendering order. */
  ghost function SortedFrom(s: seq<Section>, i: nat): seq<Section>
    requires i <= |s|
  {
    s[..i] + SortRuns(s[i..])
  }

  /** One pass of the outer loop: skips an unscored section, or sorts the run that starts here. */
  method SortRunAt(a: array<Section>, index: nat) returns (end: nat)
    requires index < a.Length
    modifies a
    ensures index < end <= a.Length
    ensures SortedFrom(a[..], end) == SortedFrom(old(a[..]), index)
  {
    ghost var s := a[..];
    if a[index].survivalScore.None? {
      KeepStepAt(s, index);
      return index + 1;
    }
    end := RunEnd(a, index);
    RunStepAt(s, index, end);
    SortSlice(a, index, end, SectionLe);
  }

  method SortCommutativeRuns(a: array<Section>)
    modifies a
    ensures a[..] == SortRuns(old(a[..]))
  {
    SortedFromStart(a[..]);
    var index := 0;
    while index < a.Length
      invariant index <= a.Length && SortedFrom(a[..], index) == SortRuns(old(a[..]))
    {
      index := SortRunAt(a, index);
    }
  }

  lemma SortedFromStart(s: seq<Section>)
    ensures SortedFrom(s, 0) == SortRuns(s)
  {
    assert s[0..] == s;
  }

  /** A list and its first run, taken apart. */
  lemma TakeRun(s: seq<Section>) returns (run: seq<Section>, tail: seq<Section>)
    requires s != []
    ensures s == run + tail && run != [] && |run| == FirstRun(s) && run[0] == s[0] && |tail| < |s|
    ensures SortRuns(s) == OrderedRun(run) + SortRuns(tail)
    ensures |OrderedRun(run)| == |run| && multiset(OrderedRun(run)) == multiset(run)
    ensures if s[0].survivalScore.None? then run == [s[0]]
            else forall i :: 0 <= i < |run| ==>
                 run[i].survivalScore.Some? && run[i].kind.IsStable() == s[0].kind.IsStable()
  {
    run, tail := s[..FirstRun(s)], s[FirstRun(s)..];
    SortPermutes(run, SectionLe);
  }

  lemma RunStep(head: seq<Section>, rest: seq<Section>)
    requires rest != []
    ensures var n := FirstRun(rest);
            var after := head + OrderedRun(rest[..n]) + rest[n..];
            && |OrderedRun(rest[..n])| == n
            && SortedFrom(after, |head| + n) == SortedFrom(head + rest, |head|)
  {
    var run, tail := TakeRun(rest);
    assert rest[..|run|] == run && rest[|run|..] == tail;
    SplitConcat(head, rest);
    SplitConcat(head + OrderedRun(run), tail);
    Regroup(head, OrderedRun(run), SortRuns(tail));
  }

  lemma RunStepAt(s: seq<Section>, i: nat, end: nat)
    requires i < |s| && end == i + FirstRun(s[i..])
    ensures var after := s[..i] + OrderedRun(s[i..end]) + s[end..];
            |after| == |s| && SortedFrom(after, end) == SortedFrom(s, i)
  {
    SliceTwice(s, i, end);
    RunStep(s[..i], s[i..]);
  }

  lemma KeepStepAt(s: seq<Section>, i: nat)
    requires i < |s| && s[i].survivalScore.None?
    ensures SortedFrom(s, i + 1) == SortedFrom(s, i)
  {
    RunStepAt(s, i, i + 1);
    assert s[..i] + s[i..i + 1] + s[i + 1..] == s;
  }

  lemma {:induction false} RunLengthIs(s: seq<Section>, stable: bool, n: nat)
    requires n <= |s|
    requires forall i :: 0 <= i < n ==> s[i].survivalScore.Some? && s[i].kind.IsStable() == stable
    requires n < |s| ==> !(s[n].survivalScore.Some? && s[n].kind.IsStable() == stable)
    ensures RunLength(s, stable) == n
  {
    if n > 0 {
      RunLengthIs(s[1..], stable, n - 1);
    }
  }

  // ----- what the order keeps, and what it forgets -----

  lemma {:induction false} SortRunsPermutes(s: seq<Section>)
    ensures multiset(SortRuns(s)) == multiset(s) && |SortRuns(s)| == |s|
    decreases |s|
  {
    if s != [] {
      var run, tail := TakeRun(s);
      SortRunsPermutes(tail);
    }
  }

  ghost predicate SamePlace(before: Section, after: Section) {
    && (before.survivalScore.None? ==> after == before)
    && after.kind.IsStable() == before.kind.IsStable()
    && after.survivalScore.Some? == before.survivalScore.Some?
  }

  ghost predicate SamePlaces(before: seq<Section>, after: seq<Section>) {
    |after| == |before| && forall i :: 0 <= i < |before| ==> SamePlace(before[i], after[i])
  }

  lemma RunKeepsPlaces(run: seq<Section>, stable: bool)
    requires forall i :: 0 <= i < |run| ==> run[i].survivalScore.Some? && run[i].kind.IsStable() == stable
    ensures SamePlaces(run, SortBy(run, SectionLe))
  {
    SortKeepsAll(run, SectionLe, (x: Section) => x.survivalScore.Some? && x.kind.IsStable() == stable);
  }

  lemma PlacesConcat(a: seq<Section>, a': seq<Section>, b: seq<Section>, b': seq<Section>)
    requires SamePlaces(a, a') && SamePlaces(b, b')
    ensures SamePlaces(a + b, a' + b')
  {
  }

  /** Unscored sections keep their positions, and each position keeps its class: stable sections that came
      before the volatile ones still do. */
  lemma {:induction false} SortRunsKeepsPlaces(s: seq<Section>)
    ensures SamePlaces(s, SortRuns(s))
    decreases |s|
  {
    if s != [] {
      var run, tail := TakeRun(s);
      if run[0].survivalScore.Some? {
        RunKeepsPlaces(run, s[0].kind.IsStable());
      }
      SortRunsKeepsPlaces(tail);
      PlacesConcat(run, OrderedRun(run), tail, SortRuns(tail));
    }
  }

  /** Two lists that differ only by permuting sections inside maximal runs. */
  ghost predicate RunsPermuted(s: seq<Section>, t: seq<Section>) {
    if s == [] || t == [] then s == t
    else
      var n := FirstRun(s);
      && FirstRun(t) == n
      && multiset(s[..n]) == multiset(t[..n])
      && RunsPermuted(s[n..], t[n..])
  }

  lemma KeysSorted(run: seq<Section>)
    ensures Sorted(Mapped(SortBy(run, SectionLe), KeyOf), KeyLe)
    ensures multiset(Mapped(SortBy(run, SectionLe), KeyOf)) == multiset(Mapped(run, KeyOf))
  {
    var sorted := SortBy(run, SectionLe);
    SectionOrder();
    SortSorts(run, SectionLe);
    MappedPermutes(sorted, run, KeyOf);
    forall i, j | 0 <= i < j < |sorted|
      ensures KeyLe(Mapped(sorted, KeyOf)[i], Mapped(sorted, KeyOf)[j])
    {
      assert SectionLe(sorted[i], sorted[j]);
    }
  }

  lemma ScoredKeys(run: seq<Section>)
    requires forall i :: 0 <= i < |run| ==> run[i].survivalScore.Some?
    ensures var keys := Mapped(SortBy(run, SectionLe), KeyOf);
            forall i :: 0 <= i < |keys| ==> keys[i].score.Some?
  {
    var sorted := SortBy(run, SectionLe);
    SortKeepsAll(run, SectionLe, (x: Section) => x.survivalScore.Some?);
    assert forall i :: 0 <= i < |sorted| ==>
           sorted[i].survivalScore.Some? && Mapped(sorted, KeyOf)[i] == KeyOf(sorted[i]);
  }

  /** Sorting a run forgets the order it came in, up to what the comparison does not see. */
  lemma RunKeysCanonical(run: seq<Section>, other: seq<Section>)
    requires multiset(run) == multiset(other)
    requires forall i :: 0 <= i < |run| ==> run[i].survivalScore.Some?
    ensures Mapped(SortBy(run, SectionLe), KeyOf) == Mapped(SortBy(other, SectionLe), KeyOf)
  {
    KeysSorted(run);
    KeysSorted(other);
    MappedPermutes(run, other, KeyOf);
    ScoredKeys(run);
    ScoredKeysUnique(Mapped(SortBy(run, SectionLe), KeyOf), Mapped(SortBy(other, SectionLe), KeyOf));
  }

  lemma ScoredKeysUnique(a: seq<Key>, b: seq<Key>)
    requires Sorted(a, KeyLe) && Sorted(b, KeyLe) && multiset(a) == multiset(b)
    requires forall i :: 0 <= i < |a| ==> a[i].score.Some?
    ensures a == b
  {
    forall x, y | x in a && y in a && KeyLe(x, y) && KeyLe(y, x)
      ensures x == y
    {
      KeyOrder(x, y, x);
    }
    SortedIsUnique(a, b, KeyLe);
  }

  lemma MappedConcat(a: seq<Section>, b: seq<Section>)
    ensures Mapped(a + b, KeyOf) == Mapped(a, KeyOf) + Mapped(b, KeyOf)
  {
  }

  lemma OrderedRunsAlike(run: seq<Section>, other: seq<Section>)
    requires run != [] && other != [] && multiset(run) == multiset(other)
    requires if run[0].survivalScore.None? then |run| == 1 else forall i :: 0 <= i < |run| ==>
             run[i].survivalScore.Some?
    ensures Mapped(OrderedRun(run), KeyOf) == Mapped(OrderedRun(other), KeyOf)
  {
    SameLength(run, other);
    SameMembers(run, other, other[0]);
    if run[0].survivalScore.None? {
      assert run == [run[0]] && other == [other[0]];
    } else {
      RunKeysCanonical(run, other);
    }
  }

  /** Lists that differ only inside runs come out with the same scores, kinds and payloads everywhere. */
  lemma {:induction false} PermutedRunsSortAlike(s: seq<Section>, t: seq<Section>)
    requires RunsPermuted(s, t)
    ensures Mapped(SortRuns(s), KeyOf) == Mapped(SortRuns(t), KeyOf)
    ensures multiset(s) == multiset(t)
    decreases |s|
  {
    if s != [] {
      var run, tail := TakeRun(s);
      var run', tail' := TakeRun(t);
      var n := FirstRun(s);
      assert s[..n] == run && s[n..] == tail && t[..n] == run' && t[n..] == tail';
      OrderedRunsAlike(run, run');
      PermutedRunsSortAlike(tail, tail');
      MappedConcat(OrderedRun(run), SortRuns(tail));
      MappedConcat(OrderedRun(run'), SortRuns(tail'));
    }
  }

  /** No run reaches from one list into the other. */
  ghost predicate Apart(a: seq<Section>, b: seq<Section>) {
    a != [] && b != [] && a[|a| - 1].survivalScore.Some? && b[0].survivalScore.Some? ==>
      a[|a| - 1].kind.IsStable() != b[0].kind.IsStable()
  }

  /** Sorting never carries a section over the end of its run. */
  lemma {:induction false} RunsSortApart(a: seq<Section>, b: seq<Section>)
    requires Apart(a, b)
    ensures SortRuns(a + b) == SortRuns(a) + SortRuns(b)
    decreases |a|
  {
    if a == [] {
      assert a + b == b;
    } else {
      var run, tail := TakeRun(a);
      assert (a + b)[0] == a[0];
      if a[0].survivalScore.Some? {
        RunLengthIs(a + b, a[0].kind.IsStable(), |run|);
      }
      RunsSortApart(tail, b);
      Regroup(run, tail, b);
      SplitConcat(run, tail + b);
      Regroup(OrderedRun(run), SortRuns(tail), SortRuns(b));
    }
  }

  /** Sections of the two classes never mix: sorting works on the stable front and the volatile rest apart. */
  lemma ClassesSortApart(a: seq<Section>, b: seq<Section>)
    requires forall i :: 0 <= i < |a| ==> a[i].kind.IsStable()
    requires forall i :: 0 <= i < |b| ==> !b[i].kind.IsStable()
    ensures SortRuns(a + b) == SortRuns(a) + SortRuns(b)
  {
    RunsSortApart(a, b);
  }
}
