/** The decision metadata of a view and the bytes hashed for it (decision_view.rs): the candidate choices, the
    supported decisions, the completeness grade and the baseline escape. */
module ViewMetadata {
  import opened DecisionFrames
  import opened Encoding
  import opened Machine
  import opened Sequences
  import opened Sorting
  import opened Text
  import opened Utf8Order
  import opened ViewDigests
  import opened ViewRecords
  import opened Wrappers

  datatype CandidateChoice = CandidateChoice(id: string, description: string)

  datatype CompletenessGrade = Proved | BoundedComplete | Observed | Unknown

  datatype Metadata = Metadata(
    choices: seq<CandidateChoice>, supported: seq<string>, grade: CompletenessGrade, escape: bool)

  const METADATA_TAG: Bytes := Ascii("TOKENZERO-DECISION-VIEW-METADATA-V1")

  function GradeName(grade: CompletenessGrade): string {
    match grade
    case Proved => "Proved"
    case BoundedComplete => "BoundedComplete"
    case Observed => "Observed"
    case Unknown => "Unknown"
  }

  function ChoiceItem(choice: CandidateChoice): Bytes {
    Record("choice_id", Utf8(choice.id)) + Record("choice_description", Utf8(choice.description))
  }

  function ChoicesHead(choices: seq<CandidateChoice>): Bytes {
    LabelHead("candidate_choices") + (Decimal(|choices|) + [LF])
  }

  function ChoiceList(choices: seq<CandidateChoice>): Bytes {
    ChoicesHead(choices) + Coded(choices, ChoiceItem)
  }

  function DecisionList(supported: seq<string>): Bytes {
    RecordList("supported_decisions", "item", Mapped(supported, Utf8))
  }

  /** Everything but the last byte, which must stay within the bound of a view. */
  function BoundedPart(m: Metadata): Bytes {
    METADATA_TAG + ChoiceList(m.choices) + DecisionList(m.supported) + Ascii(GradeName(m.grade))
  }

  function EscapeByte(escape: bool): Byte {
    if escape then 1 else 0
  }

  function MetadataPreimage(m: Metadata): Bytes {
    BoundedPart(m) + [EscapeByte(m.escape)]
  }

  predicate MetadataFits(m: Metadata) {
    |BoundedPart(m)| <= MAX_VIEW_BYTES
  }

  /** The last byte tells whether there is an escape. */
  lemma EscapeIsLast(m: Metadata)
    ensures |MetadataPreimage(m)| == |BoundedPart(m)| + 1
    ensures MetadataPreimage(m)[|BoundedPart(m)|] == if m.escape then 1 else 0
  {
  }

  // ----- building -----

  /** Appends bytes, unless they would outgrow the view's bound. */
  method AppendBounded(out: Buffer, value: Bytes) returns (ok: bool)
    modifies out
    ensures ok <==> |old(out.content)| + |value| <= MAX_VIEW_BYTES
    ensures out.content == if ok then old(out.content) + value else old(out.content)
  {
    ok := |out.content| + |value| <= MAX_VIEW_BYTES;
    if ok {
      out.Extend(value, []);
    }
  }

  method PutChoice(out: Buffer, choice: CandidateChoice) returns (ok: bool)
    modifies out
    ensures ok <==> |old(out.content)| + |ChoiceItem(choice)| <= MAX_VIEW_BYTES
    ensures ok ==> out.content == old(out.content) + ChoiceItem(choice)
  {
    ghost var given := out.content;
    ok := PutRecord(out, "choice_id", Utf8(choice.id));
    if ok {
      ok := PutRecord(out, "choice_description", Utf8(choice.description));
    }
    Regroup(given, Record("choice_id", Utf8(choice.id)), Record("choice_description", Utf8(choice.description)));
  }

  method PutChoices(out: Buffer, choices: seq<CandidateChoice>) returns (ok: bool)
    modifies out
    ensures ok <==> |old(out.content)| + |ChoiceList(choices)| <= MAX_VIEW_BYTES
    ensures ok ==> out.content == old(out.content) + ChoiceList(choices)
  {
    ghost var given := out.content;
    CodedGrows(choices, ChoiceItem, 0);
    ok := AppendBounded(out, ChoicesHead(choices));
    if !ok {
      return;
    }
    ghost var start := out.content;
    CodedNone(start, choices, ChoiceItem);
    for i := 0 to |choices|
      invariant out.content == start + Coded(choices[..i], ChoiceItem) && |out.content| <= MAX_VIEW_BYTES
    {
      CodedStep(start, choices, ChoiceItem, i);
      CodedGrows(choices, ChoiceItem, i + 1);
      ok := PutChoice(out, choices[i]);
      if !ok {
        return;
      }
    }
    assert choices[..|choices|] == choices;
    Regroup(given, ChoicesHead(choices), Coded(choices, ChoiceItem));
    ok := true;
  }

  /** The bytes hashed for metadata, unless they outgrow the bound. */
  method BuildMetadataPreimage(m: Metadata) returns (r: Option<Bytes>)
    ensures r == if MetadataFits(m) then Some(MetadataPreimage(m)) else None
  {
    var canonical := new Buffer(METADATA_TAG);
    var ok := PutChoices(canonical, m.choices);
    if !ok {
      return None;
    }
    ok := PutRecordList(canonical, "supported_decisions", "item", Mapped(m.supported, Utf8));
    if !ok {
      return None;
    }
    ok := AppendBounded(canonical, Ascii(GradeName(m.grade)));
    if !ok {
      return None;
    }
    canonical.Extend([EscapeByte(m.escape)], []);
    r := Some(canonical.content);
  }

  // ----- what the bytes determine -----

  lemma CancelRecord(name: string, a: Bytes, b: Bytes, x: Bytes, y: Bytes)
    requires Record(name, a) + x == Record(name, b) + y
    ensures a == b && x == y
  {
    TakeHead(LabelHead(name), FrameTail(a), x, FrameTail(b), y);
    CancelFrameTail(a, b, x, y);
  }

  lemma CancelChoice(a: CandidateChoice, b: CandidateChoice, x: Bytes, y: Bytes)
    requires ChoiceItem(a) + x == ChoiceItem(b) + y
    ensures a == b && x == y
  {
    var tail, tail' := Record("choice_description", Utf8(a.description)),
        Record("choice_description", Utf8(b.description));
    Regroup(Record("choice_id", Utf8(a.id)), tail, x);
    Regroup(Record("choice_id", Utf8(b.id)), tail', y);
    CancelRecord("choice_id", Utf8(a.id), Utf8(b.id), tail + x, tail' + y);
    CancelRecord("choice_description", Utf8(a.description), Utf8(b.description), x, y);
    Utf8Injective(a.id, b.id);
    Utf8Injective(a.description, b.description);
  }

  lemma ChoiceApart(a: CandidateChoice, b: CandidateChoice)
    ensures PrefixApart(ChoiceItem(a), ChoiceItem(b))
    ensures ChoiceItem(a) == ChoiceItem(b) ==> a == b
  {
    var x, y := ChoiceItem(a), ChoiceItem(b);
    if x <= y {
      var rest := Rest(x, y);
      CancelChoice(a, b, rest, []);
    } else if y <= x {
      var rest := Rest(y, x);
      CancelChoice(b, a, rest, []);
    }
  }

  lemma CancelChoices(a: seq<CandidateChoice>, b: seq<CandidateChoice>, x: Bytes, y: Bytes)
    requires ChoiceList(a) + x == ChoiceList(b) + y
    ensures a == b && x == y
  {
    var head := LabelHead("candidate_choices");
    var items, items' := Coded(a, ChoiceItem), Coded(b, ChoiceItem);
    CountedRest(head, |a|, items, x);
    CountedRest(head, |b|, items', y);
    CancelFixed(head, head, Decimal(|a|) + ([LF] + (items + x)), Decimal(|b|) + ([LF] + (items' + y)));
    CancelDecimal(|a|, |b|, items + x, items' + y);
    forall i | 0 <= i < |a|
      ensures PrefixApart(ChoiceItem(a[i]), ChoiceItem(b[i])) && (ChoiceItem(a[i]) == ChoiceItem(b[i]) ==> a[i] == b[i])
    {
      ChoiceApart(a[i], b[i]);
    }
    CancelCoded(a, b, ChoiceItem, x, y);
  }

  lemma CountedRest(head: Bytes, n: nat, items: Bytes, x: Bytes)
    ensures (head + (Decimal(n) + [LF]) + items) + x == head + (Decimal(n) + ([LF] + (items + x)))
  {
    Regroup(head + (Decimal(n) + [LF]), items, x);
    Regroup(head, Decimal(n) + [LF], items + x);
    Regroup(Decimal(n), [LF], items + x);
  }

  lemma MappedUtf8Injective(a: seq<string>, b: seq<string>)
    requires Mapped(a, Utf8) == Mapped(b, Utf8)
    ensures a == b
  {
    assert |Mapped(a, Utf8)| == |Mapped(b, Utf8)|;
    forall i | 0 <= i < |a|
      ensures a[i] == b[i]
    {
      assert Mapped(a, Utf8)[i] == Mapped(b, Utf8)[i];
      Utf8Injective(a[i], b[i]);
    }
  }

  lemma GradeAndEscape(g: CompletenessGrade, h: CompletenessGrade, e: bool, f: bool)
    requires Ascii(GradeName(g)) + [EscapeByte(e)] == Ascii(GradeName(h)) + [EscapeByte(f)]
    ensures g == h && e == f
  {
    var x, y := Ascii(GradeName(g)) + [EscapeByte(e)], Ascii(GradeName(h)) + [EscapeByte(f)];
    assert |x| == |GradeName(g)| + 1 && |y| == |GradeName(h)| + 1;
    assert x[|x| - 1] == y[|y| - 1];
  }

  lemma PreimageParts(m: Metadata)
    ensures MetadataPreimage(m) ==
            METADATA_TAG +
            (ChoiceList(m.choices) + (DecisionList(m.supported) + (Ascii(GradeName(m.grade)) + [EscapeByte(m.escape)])))
  {
    var tail := Ascii(GradeName(m.grade)) + [EscapeByte(m.escape)];
    Regroup(METADATA_TAG + ChoiceList(m.choices) + DecisionList(m.supported), Ascii(GradeName(m.grade)),
            [EscapeByte(m.escape)]);
    Regroup(METADATA_TAG + ChoiceList(m.choices), DecisionList(m.supported), tail);
    Regroup(METADATA_TAG, ChoiceList(m.choices), DecisionList(m.supported) + tail);
  }

  /** The hashed bytes determine the choices, the decisions, the grade and the escape. */
  lemma MetadataPreimageInjective(m: Metadata, n: Metadata)
    requires MetadataPreimage(m) == MetadataPreimage(n)
    ensures m == n
  {
    PreimageParts(m);
    PreimageParts(n);
    var last, last' := Ascii(GradeName(m.grade)) + [EscapeByte(m.escape)],
        Ascii(GradeName(n.grade)) + [EscapeByte(n.escape)];
    var tail, tail' := DecisionList(m.supported) + last, DecisionList(n.supported) + last';
    CancelFixed(METADATA_TAG, METADATA_TAG, ChoiceList(m.choices) + tail, ChoiceList(n.choices) + tail');
    CancelChoices(m.choices, n.choices, tail, tail');
    RecordListDetermines("supported_decisions", "item", Mapped(m.supported, Utf8), Mapped(n.supported, Utf8), last,
                         last');
    MappedUtf8Injective(m.supported, n.supported);
    GradeAndEscape(m.grade, n.grade, m.escape, n.escape);
  }

  lemma TagsDiffer()
    ensures |METADATA_TAG| == |VIEW_TAG| == |GEOMETRY_TAG|
    ensures METADATA_TAG != VIEW_TAG && METADATA_TAG != GEOMETRY_TAG
  {
    assert METADATA_TAG[24] == 'M' as int && VIEW_TAG[24] == 'I' as int;
    assert METADATA_TAG[10] == 'D' as int && GEOMETRY_TAG[10] == 'S' as int;
  }

  lemma TagsKeepApart(a: Bytes, b: Bytes, x: Bytes, y: Bytes)
    requires |a| == |b| && a != b
    ensures a + x != b + y
  {
    if a + x == b + y {
      CancelFixed(a, b, x, y);
    }
  }

  /** Metadata are never hashed to the bytes of a view or of a geometry. */
  lemma MetadataIsApart(m: Metadata, p: PrefixParts, v: ViewParts)
    ensures MetadataPreimage(m) != GeometryPreimage(p) && MetadataPreimage(m) != ViewPreimage(v)
  {
    PreimageParts(m);
    TagsDiffer();
    var rest := ChoiceList(m.choices) +
        (DecisionList(m.supported) + (Ascii(GradeName(m.grade)) + [EscapeByte(m.escape)]));
    TagsKeepApart(METADATA_TAG, GEOMETRY_TAG, rest, IdentityBytes(p.identity) + (p.bytesDigest + PrefixCounts(p)));
    TagsKeepApart(METADATA_TAG, VIEW_TAG, rest, v.geometry + (v.tokenMap + ViewMarks(v)));
  }
}
