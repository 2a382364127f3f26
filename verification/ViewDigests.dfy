/** The byte strings hashed into the stable-prefix geometry digest and the view digest (decision_view.rs). */
module ViewDigests {
  import opened Encoding
  import opened Machine
  import opened Sections
  import opened Sequences
  import opened Wrappers

  datatype ViewIdentity = ViewIdentity(
    sourceRoot: Digest, modelProfile: Digest, tokenizer: Digest, toolSchema: Digest, rendererContract: Digest)

  const GEOMETRY_TAG: Bytes := Ascii("TOKENZERO-STABLE-PREFIX-GEOMETRY-V1")

  const VIEW_TAG: Bytes := Ascii("TOKENZERO-DECISION-VIEW-IDENTITY-V1")

  function IdentityBytes(identity: ViewIdentity): (b: Bytes)
    ensures |b| == 160
  {
    identity.sourceRoot +
    (identity.modelProfile + (identity.tokenizer + (identity.toolSchema + identity.rendererContract)))
  }

  lemma IdentityInjective(a: ViewIdentity, b: ViewIdentity)
    requires IdentityBytes(a) == IdentityBytes(b)
    ensures a == b
  {
    var a3, b3 := a.toolSchema + a.rendererContract, b.toolSchema + b.rendererContract;
    CancelFixed(a.sourceRoot, b.sourceRoot, a.modelProfile + (a.tokenizer + a3), b.modelProfile + (b.tokenizer + b3));
    CancelFixed(a.modelProfile, b.modelProfile, a.tokenizer + a3, b.tokenizer + b3);
    CancelFixed(a.tokenizer, b.tokenizer, a3, b3);
    CancelFixed(a.toolSchema, b.toolSchema, a.rendererContract, b.rendererContract);
  }

  // ----- geometry -----

  datatype PrefixParts = PrefixParts(
    identity: ViewIdentity, bytesDigest: Digest, byteCount: U64, tokenCount: U64, bytes: Bytes)

  function PrefixCounts(p: PrefixParts): Bytes {
    U64Bytes(p.byteCount) + (U64Bytes(p.tokenCount) + Prefixed(p.bytes))
  }

  function GeometryPreimage(p: PrefixParts): Bytes {
    GEOMETRY_TAG + (IdentityBytes(p.identity) + (p.bytesDigest + PrefixCounts(p)))
  }

  method BuildGeometryPreimage(p: PrefixParts) returns (r: Option<Bytes>)
    ensures r == if Fits(p.bytes) then Some(GeometryPreimage(p)) else None
  {
    var canonical := new Buffer(GEOMETRY_TAG);
    canonical.Extend(IdentityBytes(p.identity), p.bytesDigest + PrefixCounts(p));
    canonical.Extend(p.bytesDigest, PrefixCounts(p));
    canonical.Extend(U64Bytes(p.byteCount), U64Bytes(p.tokenCount) + Prefixed(p.bytes));
    canonical.Extend(U64Bytes(p.tokenCount), Prefixed(p.bytes));
    var ok := canonical.PutBytes(p.bytes, []);
    r := if ok then Some(canonical.content) else None;
  }

  lemma GeometryPreimageInjective(p: PrefixParts, q: PrefixParts)
    requires Fits(p.bytes) && Fits(q.bytes) && GeometryPreimage(p) == GeometryPreimage(q)
    ensures p == q
  {
    var ps, qs := p.bytesDigest + PrefixCounts(p), q.bytesDigest + PrefixCounts(q);
    CancelFixed(GEOMETRY_TAG, GEOMETRY_TAG, IdentityBytes(p.identity) + ps, IdentityBytes(q.identity) + qs);
    CancelFixed(IdentityBytes(p.identity), IdentityBytes(q.identity), ps, qs);
    IdentityInjective(p.identity, q.identity);
    CancelFixed(p.bytesDigest, q.bytesDigest, PrefixCounts(p), PrefixCounts(q));
    CancelU64(p.byteCount, q.byteCount, U64Bytes(p.tokenCount) + Prefixed(p.bytes),
              U64Bytes(q.tokenCount) + Prefixed(q.bytes));
    CancelU64(p.tokenCount, q.tokenCount, Prefixed(p.bytes), Prefixed(q.bytes));
    PrefixedApart(p.bytes, q.bytes);
  }

  // ----- views -----

  /** What the view digest sees of a section besides the rendering: its kind, and its score even where the
      order hides it. */
  datatype Mark = Mark(kind: SectionKind, score: Option<U32>)

  function MarkOf(s: Section): Mark {
    Mark(s.kind, s.survivalScore)
  }

  function ScoreBytes(score: Option<U32>): (b: Bytes)
    ensures |b| == 5
  {
    [if score.Some? then 1 else 0] + BigEndian(if score.Some? then score.value else 0, 4)
  }

  /** A score is a one and its four bytes; a missing score is five zeros. */
  lemma ScoreSpelled(score: Option<U32>)
    ensures ScoreBytes(score) == match score case None => Repeated(0, 5) case Some(n) => [1] + BigEndian(n, 4)
  {
    if score.None? {
      assert BigEndian(0, 1) == [] + [0] && BigEndian(0, 2) == BigEndian(0, 1) + [0];
      assert BigEndian(0, 3) == BigEndian(0, 2) + [0] && BigEndian(0, 4) == BigEndian(0, 3) + [0];
    }
  }

  function MarkItem(m: Mark): Bytes {
    Prefixed(Ascii(KindName(m.kind))) + ScoreBytes(m.score)
  }

  datatype ViewParts = ViewParts(
    geometry: Digest, tokenMap: Digest, marks: seq<Mark>, totalTokens: U64, volatileTokens: U64,
    rendered: Bytes, metadata: Digest)

  predicate ViewFits(v: ViewParts) {
    Fits(v.rendered) && |v.marks| <= U64_MAX
  }

  function ViewTail(v: ViewParts): Bytes {
    U64Bytes(v.totalTokens) + (U64Bytes(v.volatileTokens) + (Prefixed(v.rendered) + v.metadata))
  }

  function ViewMarks(v: ViewParts): Bytes {
    U64Bytes(|v.marks|) + (Coded(v.marks, MarkItem) + ViewTail(v))
  }

  function ViewPreimage(v: ViewParts): Bytes {
    VIEW_TAG + (v.geometry + (v.tokenMap + ViewMarks(v)))
  }

  lemma ShortNames(kind: SectionKind)
    ensures Fits(Ascii(KindName(kind)))
  {
  }

  method PutMarks(out: Buffer, marks: seq<Mark>, ghost rest: Bytes)
    modifies out
    ensures out.content == old(out.content) + Coded(marks, MarkItem)
    ensures out.content + rest == old(out.content) + (Coded(marks, MarkItem) + rest)
  {
    ghost var start := out.content;
    CodedNone(start, marks, MarkItem);
    for i := 0 to |marks|
      invariant out.content == start + Coded(marks[..i], MarkItem)
    {
      CodedStep(start, marks, MarkItem, i);
      PutMark(out, marks[i]);
    }
    assert marks[..|marks|] == marks;
    Regroup(start, Coded(marks, MarkItem), rest);
  }

  method PutMark(out: Buffer, mark: Mark)
    modifies out
    ensures out.content == old(out.content) + MarkItem(mark)
  {
    ShortNames(mark.kind);
    var ok := out.PutBytes(Ascii(KindName(mark.kind)), ScoreBytes(mark.score));
    out.Extend(ScoreBytes(mark.score), []);
  }

  method BuildViewPreimage(v: ViewParts) returns (r: Option<Bytes>)
    ensures r == if ViewFits(v) then Some(ViewPreimage(v)) else None
  {
    if |v.marks| > U64_MAX {
      return None;
    }
    var canonical := new Buffer(VIEW_TAG);
    canonical.Extend(v.geometry, v.tokenMap + ViewMarks(v));
    canonical.Extend(v.tokenMap, ViewMarks(v));
    canonical.Extend(U64Bytes(|v.marks|), Coded(v.marks, MarkItem) + ViewTail(v));
    PutMarks(canonical, v.marks, ViewTail(v));
    var ok := PutTail(canonical, v);
    r := if ok then Some(canonical.content) else None;
  }

  method PutTail(out: Buffer, v: ViewParts) returns (ok: bool)
    modifies out
    ensures ok <==> Fits(v.rendered)
    ensures ok ==> out.content == old(out.content) + ViewTail(v)
  {
    out.Extend(U64Bytes(v.totalTokens), U64Bytes(v.volatileTokens) + (Prefixed(v.rendered) + v.metadata));
    out.Extend(U64Bytes(v.volatileTokens), Prefixed(v.rendered) + v.metadata);
    ok := out.PutBytes(v.rendered, v.metadata);
    if ok {
      out.Extend(v.metadata, []);
    }
  }

  lemma CancelMark(a: Mark, b: Mark, x: Bytes, y: Bytes)
    requires MarkItem(a) + x == MarkItem(b) + y
    ensures a == b && x == y
  {
    var name, name' := Ascii(KindName(a.kind)), Ascii(KindName(b.kind));
    ShortNames(a.kind);
    ShortNames(b.kind);
    Regroup(Prefixed(name), ScoreBytes(a.score), x);
    Regroup(Prefixed(name'), ScoreBytes(b.score), y);
    CancelPrefixed(name, name', ScoreBytes(a.score) + x, ScoreBytes(b.score) + y);
    NameMarks(a.kind);
    NameMarks(b.kind);
    MarksOnce(name, a.kind, b.kind);
    CancelFixed(ScoreBytes(a.score), ScoreBytes(b.score), x, y);
    ScoreBytesInjective(a.score, b.score);
  }

  lemma ScoreBytesInjective(a: Option<U32>, b: Option<U32>)
    requires ScoreBytes(a) == ScoreBytes(b)
    ensures a == b
  {
    var m, n := if a.Some? then a.value else 0, if b.Some? then b.value else 0;
    CancelFixed([if a.Some? then 1 else 0], [if b.Some? then 1 else 0], BigEndian(m, 4), BigEndian(n, 4));
    U32BytesInjective(m, n);
  }

  lemma Rest(a: Bytes, b: Bytes) returns (rest: Bytes)
    requires a <= b
    ensures a + rest == b + []
  {
    rest := b[|a|..];
  }

  lemma MarkItemApart(a: Mark, b: Mark)
    ensures PrefixApart(MarkItem(a), MarkItem(b))
    ensures MarkItem(a) == MarkItem(b) ==> a == b
  {
    var x, y := MarkItem(a), MarkItem(b);
    if x <= y {
      var rest := Rest(x, y);
      CancelMark(a, b, rest, []);
    } else if y <= x {
      var rest := Rest(y, x);
      CancelMark(b, a, rest, []);
    }
  }

  lemma CancelMarks(a: seq<Mark>, b: seq<Mark>, x: Bytes, y: Bytes)
    requires |a| == |b| && Coded(a, MarkItem) + x == Coded(b, MarkItem) + y
    ensures a == b && x == y
  {
    forall i | 0 <= i < |a|
      ensures PrefixApart(MarkItem(a[i]), MarkItem(b[i])) && (MarkItem(a[i]) == MarkItem(b[i]) ==> a[i] == b[i])
    {
      MarkItemApart(a[i], b[i]);
    }
    CancelCoded(a, b, MarkItem, x, y);
  }

  lemma ViewTailInjective(v: ViewParts, w: ViewParts)
    requires Fits(v.rendered) && Fits(w.rendered) && ViewTail(v) == ViewTail(w)
    ensures v.totalTokens == w.totalTokens && v.volatileTokens == w.volatileTokens
    ensures v.rendered == w.rendered && v.metadata == w.metadata
  {
    var vs, ws := Prefixed(v.rendered) + v.metadata, Prefixed(w.rendered) + w.metadata;
    CancelU64(v.totalTokens, w.totalTokens, U64Bytes(v.volatileTokens) + vs, U64Bytes(w.volatileTokens) + ws);
    CancelU64(v.volatileTokens, w.volatileTokens, vs, ws);
    CancelPrefixed(v.rendered, w.rendered, v.metadata, w.metadata);
  }

  /** The hashed bytes of a view determine everything the digest is meant to cover, hidden scores included. */
  lemma ViewPreimageInjective(v: ViewParts, w: ViewParts)
    requires ViewFits(v) && ViewFits(w) && ViewPreimage(v) == ViewPreimage(w)
    ensures v == w
  {
    CancelFixed(VIEW_TAG, VIEW_TAG, v.geometry + (v.tokenMap + ViewMarks(v)), w.geometry + (w.tokenMap + ViewMarks(w)));
    CancelFixed(v.geometry, w.geometry, v.tokenMap + ViewMarks(v), w.tokenMap + ViewMarks(w));
    CancelFixed(v.tokenMap, w.tokenMap, ViewMarks(v), ViewMarks(w));
    CancelU64(|v.marks|, |w.marks|, Coded(v.marks, MarkItem) + ViewTail(v), Coded(w.marks, MarkItem) + ViewTail(w));
    CancelMarks(v.marks, w.marks, ViewTail(v), ViewTail(w));
    ViewTailInjective(v, w);
  }

  /** No geometry is hashed to the bytes of a view. */
  lemma GeometryIsNoView(p: PrefixParts, v: ViewParts)
    ensures GeometryPreimage(p) != ViewPreimage(v)
  {
    assert GeometryPreimage(p)[10] == GEOMETRY_TAG[10] == 'S' as int;
    assert ViewPreimage(v)[10] == VIEW_TAG[10] == 'D' as int;
  }
}
