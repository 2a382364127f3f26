/** The framing of a rendered Decision View (decision_view.rs): "section kind decimal-length LF payload LF"
    for each section, and a reader that takes any such rendering apart again. */
module DecisionFrames {
  import opened Encoding
  import opened Machine
  import opened Sections
  import opened Sequences
  import opened Wrappers

  const MAX_VIEW_BYTES := 16 * 1_048_576

  const MAGIC: Bytes := Ascii("TOKENZERO-DECISION-VIEW-V1\n")

  const SECTION_WORD: Bytes := Ascii("section ")

  datatype Frame = Frame(kind: SectionKind, payload: Bytes)

  function FrameOf(s: Section): Frame {
    Frame(s.kind, s.payload)
  }

  function KindHead(kind: SectionKind): Bytes {
    SECTION_WORD + (Ascii(KindName(kind)) + [SPACE])
  }

  function FrameTail(payload: Bytes): Bytes {
    Decimal(|payload|) + ([LF] + (payload + [LF]))
  }

  function FrameBytes(f: Frame): Bytes {
    KindHead(f.kind) + FrameTail(f.payload)
  }

  function Rendered(frames: seq<Frame>): Bytes {
    MAGIC + Coded(frames, FrameBytes)
  }

  lemma HeadSpelled(name: string)
    ensures SECTION_WORD + (Ascii(name) + [SPACE]) == Ascii("section " + name + " ")
  {
    var all := Ascii("section " + name + " ");
    assert all[..8] == SECTION_WORD && all[8..8 + |name|] == Ascii(name) && all[8 + |name|..] == [SPACE];
  }

  lemma RegroupParts(head: Bytes, digits: Bytes, payload: Bytes, feed: Bytes)
    ensures head + (digits + (feed + (payload + feed))) == head + digits + feed + payload + feed
  {
  }

  /** A frame is the word, the kind and the length on one line, and the payload closed by a line feed. */
  lemma FrameSpelled(kind: SectionKind, payload: Bytes)
    ensures FrameBytes(Frame(kind, payload)) ==
            Ascii("section " + KindName(kind) + " ") + Decimal(|payload|) + [10] + payload + [10]
  {
    HeadSpelled(KindName(kind));
    RegroupParts(KindHead(kind), Decimal(|payload|), payload, [LF]);
  }

  /** Appends one section, unless the view would outgrow its bound. */
  method AppendSection(rendered: Buffer, section: Section) returns (ok: bool)
    modifies rendered
    ensures ok <==> |old(rendered.content)| + |FrameBytes(FrameOf(section))| <= MAX_VIEW_BYTES
    ensures rendered.content == if ok then old(rendered.content) + FrameBytes(FrameOf(section))
            else old(rendered.content)
  {
    var header := KindHead(section.kind) + (Decimal(|section.payload|) + [LF]);
    var projected := |rendered.content| + |header| + |section.payload| + 1;
    HeaderOpensFrame(section.kind, section.payload);
    if projected > MAX_VIEW_BYTES {
      return false;
    }
    rendered.Extend(header, section.payload + [LF]);
    rendered.Extend(section.payload, [LF]);
    rendered.Extend([LF], []);
    ok := true;
  }

  lemma HeaderOpensFrame(kind: SectionKind, payload: Bytes)
    ensures KindHead(kind) + (Decimal(|payload|) + [LF]) + (payload + [LF]) == FrameBytes(Frame(kind, payload))
  {
    var head, digits, close := KindHead(kind), Decimal(|payload|), payload + [LF];
    Regroup(head, digits + [LF], close);
    Regroup(digits, [LF], close);
  }

  // ----- reading frames back -----

  /** The kind whose header a frame opens with. */
  ghost function ReadKind(b: Bytes): Option<SectionKind> {
    if exists k :: KindHead(k) <= b then
      var k :| KindHead(k) <= b;
      Some(k)
    else None
  }

  function LeadingDigits(b: Bytes): (n: nat)
    ensures n <= |b|
    ensures forall i :: 0 <= i < n ==> IsDigit(b[i])
    ensures n < |b| ==> !IsDigit(b[n])
  {
    if b != [] && IsDigit(b[0]) then 1 + LeadingDigits(b[1..]) else 0
  }

  datatype Reading = Reading(frame: Frame, rest: Bytes)

  /** Reads what follows the kind: digits up to a line feed, that many bytes, and a closing line feed. */
  function ReadPayload(b: Bytes): Option<(Bytes, Bytes)> {
    var d := LeadingDigits(b);
    if d == 0 || d == |b| || b[d] != LF then None
    else
      var length, body := DecimalValue(b[..d]), b[d + 1..];
      if length >= |body| || body[length] != LF then None
      else Some((body[..length], body[length + 1..]))
  }

  ghost function ReadFrame(b: Bytes): Option<Reading> {
    match ReadKind(b)
    case None => None
    case Some(kind) =>
      match ReadPayload(b[|KindHead(kind)|..])
      case None => None
      case Some((payload, rest)) => Some(Reading(Frame(kind, payload), rest))
  }

  ghost function ReadFrames(b: Bytes): Option<seq<Frame>>
    decreases |b|
  {
    if b == [] then Some([])
    else
      match ReadFrame(b)
      case None => None
      case Some(reading) =>
        if |reading.rest| >= |b| then None
        else
          match ReadFrames(reading.rest)
          case None => None
          case Some(frames) => Some([reading.frame] + frames)
  }

  ghost function ReadView(b: Bytes): Option<seq<Frame>> {
    if MAGIC <= b then ReadFrames(b[|MAGIC|..]) else None
  }

  /** A byte string opens with the header of at most one kind. */
  lemma KindHeadsApart(a: SectionKind, b: SectionKind, x: Bytes)
    requires KindHead(a) <= x && KindHead(b) <= x
    ensures a == b
  {
    HeadMarks(a, x);
    HeadMarks(b, x);
    MarksOnce(x[|SECTION_WORD|..], a, b);
  }

  lemma HeadMarks(kind: SectionKind, x: Bytes)
    requires KindHead(kind) <= x
    ensures |x| >= |SECTION_WORD| && Marks(x[|SECTION_WORD|..], kind)
  {
    var name, w := Ascii(KindName(kind)), |SECTION_WORD|;
    NamePrefix(SECTION_WORD, name, [SPACE], x);
    NameMarks(kind);
    MarksExtend(name, x[w..], kind);
  }

  lemma NamePrefix(word: Bytes, name: Bytes, after: Bytes, x: Bytes)
    requires word + (name + after) <= x
    ensures |word| <= |x| && name <= x[|word|..]
  {
    assert x[|word|..][..|name|] == (word + (name + after))[|word|..][..|name|] == name;
  }

  lemma {:induction false} LeadingDigitsStop(digits: Bytes, b: Bytes)
    requires forall i :: 0 <= i < |digits| ==> IsDigit(digits[i])
    requires b != [] && !IsDigit(b[0])
    ensures LeadingDigits(digits + b) == |digits|
  {
    if digits == [] {
      assert digits + b == b;
    } else {
      LeadingDigitsStop(digits[1..], b);
      assert (digits + b)[1..] == digits[1..] + b;
    }
  }

  lemma PayloadReadsBack(payload: Bytes, rest: Bytes)
    ensures ReadPayload(FrameTail(payload) + rest) == Some((payload, rest))
  {
    var digits, body := Decimal(|payload|), payload + [LF] + rest;
    var b := FrameTail(payload) + rest;
    assert b == digits + ([LF] + body);
    LeadingDigitsStop(digits, [LF] + body);
    DecimalRoundTrip(|payload|);
    assert b[..|digits|] == digits && b[|digits|] == LF && b[|digits| + 1..] == body;
    assert body[..|payload|] == payload && body[|payload|] == LF && body[|payload| + 1..] == rest;
  }

  lemma FrameReadsBack(f: Frame, rest: Bytes)
    ensures ReadFrame(FrameBytes(f) + rest) == Some(Reading(f, rest))
  {
    var b, head, tail := FrameBytes(f) + rest, KindHead(f.kind), FrameTail(f.payload) + rest;
    Regroup(head, FrameTail(f.payload), rest);
    SplitConcat(head, tail);
    assert head <= b;
    forall k | KindHead(k) <= b
      ensures k == f.kind
    {
      KindHeadsApart(k, f.kind, b);
    }
    PayloadReadsBack(f.payload, rest);
  }

  lemma {:induction false} FramesReadBack(frames: seq<Frame>)
    ensures ReadFrames(Coded(frames, FrameBytes)) == Some(frames)
  {
    if frames != [] {
      var rest := Coded(frames[1..], FrameBytes);
      FramesReadBack(frames[1..]);
      assert Coded(frames, FrameBytes) == FrameBytes(frames[0]) + rest by {
        CodedHead(frames, FrameBytes);
      }
      assert ReadFrame(FrameBytes(frames[0]) + rest) == Some(Reading(frames[0], rest)) by {
        FrameReadsBack(frames[0], rest);
      }
      assert frames == [frames[0]] + frames[1..];
    }
  }

  /** Reading a rendering gives back exactly the kinds and payloads rendered, in order, whatever bytes the
      payloads hold. */
  lemma ViewReadsBack(frames: seq<Frame>)
    ensures ReadView(Rendered(frames)) == Some(frames)
  {
    assert Rendered(frames)[|MAGIC|..] == Coded(frames, FrameBytes);
    FramesReadBack(frames);
  }

  /** So rendering is injective. */
  lemma RenderingInjective(frames: seq<Frame>, other: seq<Frame>)
    requires Rendered(frames) == Rendered(other)
    ensures frames == other
  {
    ViewReadsBack(frames);
    ViewReadsBack(other);
  }
}
