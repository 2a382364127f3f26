/** Rendering a Decision View (decision_view.rs): the guards, the ordered and framed bytes, and the byte and
    token geometry of the stable prefix. The tokenizer is an adapter that may return anything; SHA-256 is foreign
    and enters as a parameter. */
module DecisionView {
  import opened DecisionFrames
  import opened Encoding
  import opened Machine
  import opened Preimages
  import opened Sections
  import opened Sequences
  import opened Sorting
  import opened TokenMap
  import opened ViewDigests
  import opened ViewMetadata
  import opened Wrappers

  const MAX_VIEW_SECTIONS := 1_024

  datatype ViewError =
    | MapRefused(error: MapError)
    | TooManySections(actual: nat)
    | TokenizerIdentityMismatch(section: SectionKind)
    | StableSectionAfterVolatile(index: nat)
    | ToolSchemaMismatch
    | SourceRootMismatch
    | ModelProfileMismatch
    | ViewByteLimit
    | PrefixNotTokenAligned(byteOffset: nat)

  datatype PrefixComparison = PrefixIdentical | IdentityChanged | PrefixBytesChanged

  datatype Geometry = Geometry(
    identity: ViewIdentity, bytes: Bytes, breakpointAfterBytes: nat, breakpointAfterTokens: nat, digest: Digest)
  {
    function Compare(other: Geometry): PrefixComparison {
      if identity != other.identity then IdentityChanged
      else if bytes == other.bytes then PrefixIdentical
      else PrefixBytesChanged
    }
  }

  datatype View = View(
    identity: ViewIdentity,
    sectionKinds: seq<SectionKind>,
    rendered: Bytes,
    tokenMapDigest: Digest,
    totalTokens: nat,
    volatileBytes: nat,
    volatileTokens: nat,
    stablePrefix: Geometry,
    digest: Digest)

  // ----- guards -----

  /** No stable section comes after a volatile one. */
  ghost predicate StableFirst(s: seq<Section>) {
    forall i, j :: 0 <= i < j < |s| && s[j].kind.IsStable() ==> s[i].kind.IsStable()
  }

  method CheckStableFirst(s: seq<Section>) returns (e: Option<ViewError>)
    ensures e.None? <==> StableFirst(s)
    ensures e.Some? ==>
              exists j :: 0 <= j < |s| && e == Some(StableSectionAfterVolatile(j)) &&
                          !StableFirst(s[..j + 1]) && StableFirst(s[..j])
  {
    var sawVolatile := false;
    for index := 0 to |s|
      invariant sawVolatile <==> exists i :: 0 <= i < index && !s[i].kind.IsStable()
      invariant StableFirst(s[..index])
    {
      if s[index].kind.IsStable() {
        if sawVolatile {
          var i :| 0 <= i < index && !s[i].kind.IsStable();
          assert s[..index + 1][i] == s[i] && s[..index + 1][index] == s[index];
          return Some(StableSectionAfterVolatile(index));
        }
      } else {
        sawVolatile := true;
      }
      assert s[..index + 1] == s[..index] + [s[index]];
    }
    assert s[..|s|] == s;
    e := None;
  }

  predicate Binds(claimed: Option<Digest>, actual: Digest) {
    claimed.None? || claimed.value == actual
  }

  /** Whether a section's digests agree with the identity the view is rendered under. */
  predicate Bound(identity: ViewIdentity, s: Section) {
    && Binds(s.tokenizerIdentity, identity.tokenizer)
    && Binds(s.toolSchema, identity.toolSchema)
    && Binds(s.sourceRoot, identity.sourceRoot)
    && Binds(s.modelProfile, identity.modelProfile)
  }

  /** The binding that is reported when several fail. */
  function FirstMismatch(identity: ViewIdentity, s: Section): (e: Option<ViewError>)
    ensures e.None? <==> Bound(identity, s)
  {
    if !Binds(s.tokenizerIdentity, identity.tokenizer) then Some(TokenizerIdentityMismatch(s.kind))
    else if !Binds(s.toolSchema, identity.toolSchema) then Some(ToolSchemaMismatch)
    else if !Binds(s.sourceRoot, identity.sourceRoot) then Some(SourceRootMismatch)
    else if !Binds(s.modelProfile, identity.modelProfile) then Some(ModelProfileMismatch)
    else None
  }

  /** A digest that a section does not give agrees with any. */
  ghost predicate Agrees(claimed: Option<Digest>, actual: Digest) {
    claimed == None || claimed == Some(actual)
  }

  /** Which error a section is refused with: that of the first digest, tokenizer, tool schema, source and model in turn,
      that it gives and the identity does not have. */
  lemma FirstMismatchMeans(identity: ViewIdentity, s: Section)
    ensures var tokenizer, tools :=
            Agrees(s.tokenizerIdentity, identity.tokenizer), Agrees(s.toolSchema, identity.toolSchema);
            var source, model := Agrees(s.sourceRoot, identity.sourceRoot),
                Agrees(s.modelProfile, identity.modelProfile);
            var e := FirstMismatch(identity, s);
            && (e == None <==> tokenizer && tools && source && model)
            && (e == Some(TokenizerIdentityMismatch(s.kind)) <==> !tokenizer)
            && (e == Some(ToolSchemaMismatch) <==> tokenizer && !tools)
            && (e == Some(SourceRootMismatch) <==> tokenizer && tools && !source)
            && (e == Some(ModelProfileMismatch) <==> tokenizer && tools && source && !model)
  {
  }

  method CheckBindings(identity: ViewIdentity, s: Section) returns (e: Option<ViewError>)
    ensures e == FirstMismatch(identity, s)
  {
    if !Binds(s.tokenizerIdentity, identity.tokenizer) {
      return Some(TokenizerIdentityMismatch(s.kind));
    }
    if !Binds(s.toolSchema, identity.toolSchema) {
      return Some(ToolSchemaMismatch);
    }
    if !Binds(s.sourceRoot, identity.sourceRoot) {
      return Some(SourceRootMismatch);
    }
    if !Binds(s.modelProfile, identity.modelProfile) {
      return Some(ModelProfileMismatch);
    }
    e := None;
  }

  // ----- rendering -----

  function Frames(s: seq<Section>): seq<Frame> {
    Mapped(s, FrameOf)
  }

  function Kinds(s: seq<Section>): seq<SectionKind> {
    Mapped(s, (x: Section) => x.kind)
  }

  /** The number of stable sections at the front. */
  function StableCount(s: seq<Section>): (n: nat)
    ensures n <= |s|
    ensures forall i :: 0 <= i < n ==> s[i].kind.IsStable()
    ensures n < |s| ==> !s[n].kind.IsStable()
  {
    if s != [] && s[0].kind.IsStable() then 1 + StableCount(s[1..]) else 0
  }

  function RenderedSections(s: seq<Section>): Bytes {
    Rendered(Frames(s))
  }

  /** The bytes of the stable prefix. */
  function StablePrefix(ordered: seq<Section>): Bytes {
    RenderedSections(ordered[..StableCount(ordered)])
  }

  lemma RenderedSnoc(s: seq<Section>, i: nat)
    requires i < |s|
    ensures RenderedSections(s[..i + 1]) == RenderedSections(s[..i]) + FrameBytes(FrameOf(s[i]))
  {
    var f := Frames(s[..i + 1]);
    assert f[..i] == Frames(s[..i]) && f[i] == FrameOf(s[i]);
    Regroup(MAGIC, Coded(f[..i], FrameBytes), FrameBytes(f[i]));
  }

  lemma {:induction false} RenderedPrefix(s: seq<Section>, i: nat)
    requires i <= |s|
    ensures RenderedSections(s[..i]) <= RenderedSections(s)
    decreases |s| - i
  {
    if i == |s| {
      assert s[..i] == s;
    } else {
      RenderedSnoc(s, i);
      RenderedPrefix(s, i + 1);
    }
  }

  lemma KindsSnoc(s: seq<Section>, i: nat)
    requires i < |s|
    ensures Kinds(s[..i + 1]) == Kinds(s[..i]) + [s[i].kind]
  {
  }

  lemma StableAt(s: seq<Section>, i: nat)
    requires StableFirst(s) && i < |s|
    ensures s[i].kind.IsStable() <==> i < StableCount(s)
  {
  }

  /** Why the section at `i` is refused, if the ones before it are not: for a binding, or for the size it brings. */
  function Refusal(identity: ViewIdentity, ordered: seq<Section>, i: nat): Option<ViewError>
    requires i < |ordered|
  {
    if FirstMismatch(identity, ordered[i]).Some? then FirstMismatch(identity, ordered[i])
    else if |RenderedSections(ordered[..i + 1])| > MAX_VIEW_BYTES then Some(ViewByteLimit)
    else None
  }

  /** A section is refused for its binding first, and for the size it brings only when its bindings hold. */
  lemma RefusalMeans(identity: ViewIdentity, ordered: seq<Section>, i: nat)
    requires i < |ordered|
    ensures var refusal, size := Refusal(identity, ordered, i), |RenderedSections(ordered[..i + 1])|;
            && (refusal == None <==> Bound(identity, ordered[i]) && size <= MAX_VIEW_BYTES)
            && (refusal == Some(ViewByteLimit) <==> Bound(identity, ordered[i]) && size > MAX_VIEW_BYTES)
            && (!Bound(identity, ordered[i]) ==> refusal == FirstMismatch(identity, ordered[i]))
  {
  }

  /** The first section that is refused is refused for the reason given. */
  ghost predicate RefusedFirst(identity: ViewIdentity, ordered: seq<Section>, e: ViewError) {
    exists i: nat :: i < |ordered| && Refusal(identity, ordered, i) == Some(e) &&
                     forall k: nat :: k < i ==> Refusal(identity, ordered, k).None?
  }

  /** Every section is bound to the identity, and all of them together stay within the bound. */
  ghost predicate AllAccepted(identity: ViewIdentity, ordered: seq<Section>) {
    && (forall i :: 0 <= i < |ordered| ==> Bound(identity, ordered[i]))
    && (ordered != [] ==> |RenderedSections(ordered)| <= MAX_VIEW_BYTES)
  }

  lemma RefusedSpoils(identity: ViewIdentity, ordered: seq<Section>, i: nat)
    requires i < |ordered| && Refusal(identity, ordered, i).Some?
    ensures !AllAccepted(identity, ordered)
  {
    RenderedPrefix(ordered, i + 1);
  }

  lemma RenderingGrows(s: seq<Section>, i: nat, j: nat)
    requires i <= j <= |s|
    ensures |RenderedSections(s[..i])| <= |RenderedSections(s[..j])|
  {
    RenderedPrefix(s[..j], i);
    assert s[..j][..i] == s[..i];
  }

  lemma AcceptedBefore(identity: ViewIdentity, ordered: seq<Section>, k: nat, i: nat)
    requires k < i <= |ordered| && Bound(identity, ordered[k]) && |RenderedSections(ordered[..i])| <= MAX_VIEW_BYTES
    ensures Refusal(identity, ordered, k).None?
  {
    RenderingGrows(ordered, k + 1, i);
  }

  lemma RefusedFirstAt(identity: ViewIdentity, ordered: seq<Section>, i: nat, e: ViewError)
    requires i < |ordered| && Refusal(identity, ordered, i) == Some(e)
    requires forall k :: 0 <= k < i ==> Bound(identity, ordered[k])
    requires i > 0 ==> |RenderedSections(ordered[..i])| <= MAX_VIEW_BYTES
    ensures RefusedFirst(identity, ordered, e)
  {
    forall k: nat | k < i
      ensures Refusal(identity, ordered, k).None?
    {
      AcceptedBefore(identity, ordered, k, i);
    }
  }

  /** Checks, frames and appends one of the ordered sections. */
  method RenderNext(identity: ViewIdentity, ordered: seq<Section>, i: nat, rendered: Buffer)
    returns (e: Option<ViewError>)
    requires i < |ordered| && rendered.content == RenderedSections(ordered[..i])
    modifies rendered
    ensures e == Refusal(identity, ordered, i)
    ensures e.None? ==> rendered.content == RenderedSections(ordered[..i + 1])
  {
    RenderedSnoc(ordered, i);
    e := CheckBindings(identity, ordered[i]);
    if e.Some? {
      return;
    }
    var ok := AppendSection(rendered, ordered[i]);
    e := if ok then None else Some(ViewByteLimit);
  }

  datatype Bytework = Bytework(rendered: Bytes, stableBoundary: nat, sectionKinds: seq<SectionKind>)

  /** Renders the ordered sections, tracking where the stable part ends. The bound checked again after each
      section has then been checked already. */
  method RenderOrdered(identity: ViewIdentity, ordered: seq<Section>) returns (r: Result<Bytework, ViewError>)
    requires StableFirst(ordered)
    ensures r.Ok? <==> AllAccepted(identity, ordered)
    ensures r.Ok? ==>
              r.value == Bytework(RenderedSections(ordered), |StablePrefix(ordered)|, Kinds(ordered))
    ensures r.Err? ==> RefusedFirst(identity, ordered, r.error)
  {
    var rendered := new Buffer(MAGIC);
    var stableBoundary := |MAGIC|;
    var kinds: seq<SectionKind> := [];
    ghost var stable := 0;
    NothingRendered(ordered[..0]);
    for i := 0 to |ordered|
      invariant fresh(rendered) && rendered.content == RenderedSections(ordered[..i])
      invariant forall k :: 0 <= k < i ==> Bound(identity, ordered[k])
      invariant i > 0 ==> |rendered.content| <= MAX_VIEW_BYTES
      invariant kinds == Kinds(ordered[..i])
      invariant stable == if i < StableCount(ordered) then i else StableCount(ordered)
      invariant stableBoundary == |RenderedSections(ordered[..stable])|
    {
      StableAt(ordered, i);
      KindsSnoc(ordered, i);
      var refused := RenderNext(identity, ordered, i, rendered);
      if refused.Some? {
        RefusedFirstAt(identity, ordered, i, refused.value);
        RefusedSpoils(identity, ordered, i);
        return Err(refused.value);
      }
      if ordered[i].kind.IsStable() {
        stableBoundary := |rendered.content|;
        stable := i + 1;
      }
      kinds := kinds + [ordered[i].kind];
    }
    assert ordered[..|ordered|] == ordered;
    r := Ok(Bytework(rendered.content, stableBoundary, kinds));
  }

  lemma NothingRendered(s: seq<Section>)
    requires s == []
    ensures RenderedSections(s) == MAGIC && Kinds(s) == []
  {
    assert Frames(s) == [];
  }

  // ----- the view -----

  /** The token index at which the given byte offset falls. */
  ghost function TokenIndex(tokens: seq<TokenPiece>, byteOffset: nat): (k: nat)
    requires IsBoundary(tokens, byteOffset)
    ensures k <= |tokens| && Offset(tokens, k) == byteOffset
  {
    var k: nat :| k <= |tokens| && Offset(tokens, k) == byteOffset;
    k
  }

  lemma TokenIndexIs(tokens: seq<TokenPiece>, k: nat)
    requires NoEmptyToken(tokens) && k <= |tokens|
    ensures IsBoundary(tokens, Offset(tokens, k)) && TokenIndex(tokens, Offset(tokens, k)) == k
  {
    var offset := Offset(tokens, k);
    assert IsBoundary(tokens, offset);
    RangesInvert(tokens, TokenRange(k, k), TokenRange(TokenIndex(tokens, offset), TokenIndex(tokens, offset)));
  }

  function ScoreMarks(ordered: seq<Section>): seq<Mark> {
    Mapped(ordered, MarkOf)
  }

  function GeometryOf(identity: ViewIdentity, prefix: Bytes, stableTokens: U64, sha: Bytes -> Digest): Geometry
    requires |prefix| <= MAX_VIEW_BYTES
  {
    Geometry(identity, prefix, |prefix|, stableTokens,
             sha(GeometryPreimage(PrefixParts(identity, sha(prefix), |prefix|, stableTokens, prefix))))
  }

  /** The view for a rendering with the given exact tokens, of which the first `stableTokens` spell the prefix. */
  function ViewOf(identity: ViewIdentity, kinds: seq<SectionKind>, marks: seq<Mark>, rendered: Bytes, prefix: Bytes,
                  tokens: seq<TokenPiece>, stableTokens: nat, metadata: Digest, sha: Bytes -> Digest): View
    requires stableTokens <= |tokens| <= |rendered| <= MAX_VIEW_BYTES && |prefix| <= |rendered|
  {
    var geometry := GeometryOf(identity, prefix, stableTokens, sha);
    var tokenMap := sha(TokenMapPreimage(identity.tokenizer, sha(rendered), tokens));
    View(identity, kinds, rendered, tokenMap, |tokens|, |rendered| - |prefix|, |tokens| - stableTokens, geometry,
         sha(ViewPreimage(ViewParts(geometry.digest, tokenMap, marks, |tokens|, |tokens| - stableTokens, rendered,
                                    metadata))))
  }

  /** When ordered sections can be measured: the tokenizer accepts the rendering, and no token straddles the
      end of the stable prefix. */
  ghost predicate Measurable(adapter: Adapter, ordered: seq<Section>) {
    var tokenized := Tokenized(adapter, RenderedSections(ordered));
    tokenized.Ok? && IsBoundary(tokenized.value, |StablePrefix(ordered)|)
  }

  /** Why ordered sections that were rendered give no view: the tokenizer, the end of the prefix, or the metadata. */
  ghost function Unmeasured(adapter: Adapter, ordered: seq<Section>): ViewError {
    var tokenized := Tokenized(adapter, RenderedSections(ordered));
    if tokenized.Err? then MapRefused(tokenized.error)
    else if !IsBoundary(tokenized.value, |StablePrefix(ordered)|) then PrefixNotTokenAligned(|StablePrefix(ordered)|)
    else ViewByteLimit
  }

  /** When the sections can be rendered at all. */
  ghost predicate Renderable(adapter: Adapter, identity: ViewIdentity, sections: seq<Section>, metadata: Metadata) {
    && |sections| <= MAX_VIEW_SECTIONS
    && adapter.identity == identity.tokenizer
    && StableFirst(sections)
    && (forall i :: 0 <= i < |sections| ==> Bound(identity, sections[i]))
    && (sections != [] ==> |RenderedSections(SortRuns(sections))| <= MAX_VIEW_BYTES)
    && Measurable(adapter, SortRuns(sections))
    && MetadataFits(metadata)
  }

  lemma TokensOfRendering(adapter: Adapter, ordered: seq<Section>)
    requires Tokenized(adapter, RenderedSections(ordered)).Ok? && |RenderedSections(ordered)| <= USIZE_MAX
    ensures var tokens := Tokenized(adapter, RenderedSections(ordered)).value;
            Exact(RenderedSections(ordered), tokens) && |tokens| <= |RenderedSections(ordered)|
  {
    var tokens := Tokenized(adapter, RenderedSections(ordered)).value;
    AcceptedIffExact(RenderedSections(ordered), tokens);
    TokensFewerThanBytes(tokens);
  }

  ghost function MeasuredView(adapter: Adapter, identity: ViewIdentity, ordered: seq<Section>, metadata: Digest,
                              sha: Bytes -> Digest): View
    requires Measurable(adapter, ordered) && |RenderedSections(ordered)| <= MAX_VIEW_BYTES
  {
    var tokens := Tokenized(adapter, RenderedSections(ordered)).value;
    TokensOfRendering(adapter, ordered);
    RenderedPrefix(ordered, StableCount(ordered));
    ViewOf(identity, Kinds(ordered), ScoreMarks(ordered), RenderedSections(ordered), StablePrefix(ordered), tokens,
           TokenIndex(tokens, |StablePrefix(ordered)|), metadata, sha)
  }

  /** What rendering gives, as a function of its inputs. */
  ghost function RenderedView(adapter: Adapter, identity: ViewIdentity, sections: seq<Section>, metadata: Metadata,
                              sha: Bytes -> Digest): Option<View> {
    if !Renderable(adapter, identity, sections, metadata) then None
    else
      SortRunsPermutes(sections);
      SmallWhenEmpty(SortRuns(sections));
      Some(MeasuredView(adapter, identity, SortRuns(sections), sha(MetadataPreimage(metadata)), sha))
  }

  lemma SmallWhenEmpty(ordered: seq<Section>)
    ensures ordered == [] ==> |RenderedSections(ordered)| <= MAX_VIEW_BYTES
  {
    if ordered == [] {
      NothingRendered(ordered);
    }
  }

  /** The error that is reported: the first guard that fails on the sections as given, then the first ordered section
      that is refused, then what keeps the rendering from being measured. */
  ghost predicate IsRenderError(adapter: Adapter, identity: ViewIdentity, sections: seq<Section>, e: ViewError) {
    if |sections| > MAX_VIEW_SECTIONS then e == TooManySections(|sections|)
    else if adapter.identity != identity.tokenizer then e == TokenizerIdentityMismatch(StableSystemToolContract)
    else if !StableFirst(sections) then
      exists j :: 0 <= j < |sections| && e == StableSectionAfterVolatile(j) &&
                  !StableFirst(sections[..j + 1]) && StableFirst(sections[..j])
    else if !AllAccepted(identity, SortRuns(sections)) then RefusedFirst(identity, SortRuns(sections), e)
    else e == Unmeasured(adapter, SortRuns(sections))
  }

  /** Sections in a stable-first order are accepted as they are accepted when sorted. */
  lemma GuardsWhenSorted(adapter: Adapter, identity: ViewIdentity, sections: seq<Section>, metadata: Metadata)
    requires |sections| <= MAX_VIEW_SECTIONS && adapter.identity == identity.tokenizer && StableFirst(sections)
    ensures |SortRuns(sections)| == |sections| && StableFirst(SortRuns(sections))
    ensures Renderable(adapter, identity, sections, metadata) <==>
            && AllAccepted(identity, SortRuns(sections)) && Measurable(adapter, SortRuns(sections))
            && MetadataFits(metadata)
  {
    OrderKeepsGuards(identity, sections);
  }

  method RenderWithMetadata(adapter: Adapter, identity: ViewIdentity, sections: array<Section>, metadata: Metadata,
                            sha: Bytes -> Digest)
    returns (r: Result<View, ViewError>)
    modifies sections
    ensures match RenderedView(adapter, identity, old(sections[..]), metadata, sha)
            case Some(view) => r == Ok(view)
            case None => r.Err? && IsRenderError(adapter, identity, old(sections[..]), r.error)
  {
    if sections.Length > MAX_VIEW_SECTIONS {
      return Err(TooManySections(sections.Length));
    }
    if adapter.identity != identity.tokenizer {
      return Err(TokenizerIdentityMismatch(StableSystemToolContract));
    }
    ghost var given := sections[..];
    var disorder := CheckStableFirst(sections[..]);
    if disorder.Some? {
      return Err(disorder.value);
    }
    SortCommutativeRuns(sections);
    GuardsWhenSorted(adapter, identity, given, metadata);
    r := RenderSorted(adapter, identity, sections[..], metadata, sha);
  }

  /** Renders and measures sections that are in their final order. */
  method RenderSorted(adapter: Adapter, identity: ViewIdentity, ordered: seq<Section>, metadata: Metadata,
                      sha: Bytes -> Digest)
    returns (r: Result<View, ViewError>)
    requires StableFirst(ordered) && |ordered| <= MAX_VIEW_SECTIONS
    ensures r.Ok? <==> AllAccepted(identity, ordered) && Measurable(adapter, ordered) && MetadataFits(metadata)
    ensures r.Err? ==>
              if AllAccepted(identity, ordered) then r.error == Unmeasured(adapter, ordered)
              else RefusedFirst(identity, ordered, r.error)
    ensures |RenderedSections(ordered)| <= MAX_VIEW_BYTES || r.Err?
    ensures r.Ok? ==> r.value == MeasuredView(adapter, identity, ordered, sha(MetadataPreimage(metadata)), sha)
  {
    SmallWhenEmpty(ordered);
    var work := RenderOrdered(identity, ordered);
    if work.Err? {
      return Err(work.error);
    }
    var digest := HashMetadata(metadata, sha);
    r := Measure(adapter, identity, ordered, work.value, digest, sha);
  }

  method HashMetadata(metadata: Metadata, sha: Bytes -> Digest) returns (digest: Option<Digest>)
    ensures digest == if MetadataFits(metadata) then Some(sha(MetadataPreimage(metadata))) else None
  {
    var preimage := BuildMetadataPreimage(metadata);
    digest := if preimage.Some? then Some(sha(preimage.value)) else None;
  }

  /** Tokenizes the rendering and finds the end of the stable prefix among the tokens. */
  method LocatePrefix(adapter: Adapter, ordered: seq<Section>, work: Bytework)
    returns (r: Result<seq<TokenPiece>, ViewError>, stableTokens: nat)
    requires work == Bytework(RenderedSections(ordered), |StablePrefix(ordered)|, Kinds(ordered))
    requires |work.rendered| <= MAX_VIEW_BYTES
    ensures r.Ok? <==> Measurable(adapter, ordered)
    ensures r.Err? ==> r.error == Unmeasured(adapter, ordered)
    ensures r.Ok? ==>
              && Tokenized(adapter, RenderedSections(ordered)) == Ok(r.value)
              && IsBoundary(r.value, |StablePrefix(ordered)|)
              && stableTokens == TokenIndex(r.value, |StablePrefix(ordered)|)
  {
    stableTokens := 0;
    var tokens := Tokenize(adapter, work.rendered);
    if tokens.Err? {
      return Err(MapRefused(tokens.error)), 0;
    }
    TokensOfRendering(adapter, ordered);
    RenderedPrefix(ordered, StableCount(ordered));
    var range := TokenRangeForBytes(tokens.value, 0, work.stableBoundary);
    StartIsBoundary(tokens.value);
    if range.Err? {
      return Err(PrefixRefusal(range.error)), 0;
    }
    TokenIndexIs(tokens.value, range.value.end);
    return Ok(tokens.value), range.value.end;
  }

  lemma PrefixIsPart(ordered: seq<Section>)
    ensures |StablePrefix(ordered)| <= |RenderedSections(ordered)|
    ensures RenderedSections(ordered)[..|StablePrefix(ordered)|] == StablePrefix(ordered)
  {
    RenderedPrefix(ordered, StableCount(ordered));
  }

  /** Measures the rendering and hashes. The length checks of the hashed strings cannot fail: the rendering is
      bounded. */
  method Measure(adapter: Adapter, identity: ViewIdentity, ordered: seq<Section>, work: Bytework,
                 metadata: Option<Digest>,
                 sha: Bytes -> Digest)
    returns (r: Result<View, ViewError>)
    requires work == Bytework(RenderedSections(ordered), |StablePrefix(ordered)|, Kinds(ordered))
    requires |work.rendered| <= MAX_VIEW_BYTES && |ordered| <= MAX_VIEW_SECTIONS
    ensures r.Ok? <==> Measurable(adapter, ordered) && metadata.Some?
    ensures r.Err? ==> r.error == Unmeasured(adapter, ordered)
    ensures r.Ok? ==> r.value == MeasuredView(adapter, identity, ordered, metadata.value, sha)
  {
    var tokens, stableTokens := LocatePrefix(adapter, ordered, work);
    if tokens.Err? {
      return Err(tokens.error);
    }
    if metadata.None? {
      return Err(ViewByteLimit);
    }
    TokensOfRendering(adapter, ordered);
    PrefixIsPart(ordered);
    var prefix := work.rendered[..work.stableBoundary];
    r := Assemble(identity, work.sectionKinds, ScoreMarks(ordered), work.rendered, prefix, tokens.value, stableTokens,
                  metadata.value, sha);
  }

  function PrefixRefusal(e: MapError): ViewError {
    match e
    case TokenBoundaryRequired(byteOffset) => PrefixNotTokenAligned(byteOffset)
    case other => MapRefused(other)
  }

  method HashTokenMap(tokenizer: Digest, rendered: Bytes, tokens: seq<TokenPiece>, sha: Bytes -> Digest)
    returns (digest: Digest)
    requires Exact(rendered, tokens) && |rendered| <= MAX_VIEW_BYTES
    ensures digest == sha(TokenMapPreimage(tokenizer, sha(rendered), tokens))
  {
    ExactTokensFit(rendered, tokens);
    var bytes := BuildTokenMapPreimage(tokenizer, sha(rendered), tokens);
    digest := sha(bytes.value);
  }

  method MakeGeometry(identity: ViewIdentity, prefix: Bytes, stableTokens: U64, sha: Bytes -> Digest)
    returns (r: Option<Geometry>)
    requires |prefix| <= MAX_VIEW_BYTES
    ensures r == Some(GeometryOf(identity, prefix, stableTokens, sha))
  {
    var bytes := BuildGeometryPreimage(PrefixParts(identity, sha(prefix), |prefix|, stableTokens, prefix));
    if bytes.None? {
      return None;
    }
    r := Some(Geometry(identity, prefix, |prefix|, stableTokens, sha(bytes.value)));
  }

  method HashView(parts: ViewParts, sha: Bytes -> Digest) returns (digest: Option<Digest>)
    ensures digest == if ViewFits(parts) then Some(sha(ViewPreimage(parts))) else None
  {
    var bytes := BuildViewPreimage(parts);
    digest := if bytes.Some? then Some(sha(bytes.value)) else None;
  }

  method Assemble(identity: ViewIdentity, kinds: seq<SectionKind>, marks: seq<Mark>, rendered: Bytes, prefix: Bytes,
                  tokens: seq<TokenPiece>, stableTokens: nat, metadata: Digest, sha: Bytes -> Digest)
    returns (r: Result<View, ViewError>)
    requires stableTokens <= |tokens| <= |rendered| <= MAX_VIEW_BYTES && |prefix| <= |rendered|
    requires |marks| <= MAX_VIEW_SECTIONS && Exact(rendered, tokens)
    ensures r == Ok(ViewOf(identity, kinds, marks, rendered, prefix, tokens, stableTokens, metadata, sha))
  {
    var geometry := MakeGeometry(identity, prefix, stableTokens, sha);
    if geometry.None? {
      return Err(MapRefused(LengthOverflow));
    }
    var tokenMap := HashTokenMap(identity.tokenizer, rendered, tokens, sha);
    var digest := HashView(
      ViewParts(geometry.value.digest, tokenMap, marks, |tokens|, |tokens| - stableTokens, rendered, metadata), sha);
    if digest.None? {
      return Err(MapRefused(LengthOverflow));
    }
    r := Ok(View(identity, kinds, rendered, tokenMap, |tokens|, |rendered| - |prefix|, |tokens| - stableTokens,
                 geometry.value, digest.value));
  }

  lemma ExactTokensFit(source: Bytes, tokens: seq<TokenPiece>)
    requires Exact(source, tokens) && |source| <= U64_MAX
    ensures TokensFit(tokens)
  {
    TokensFewerThanBytes(tokens);
    forall i | 0 <= i < |tokens|
      ensures Fits(tokens[i].bytes)
    {
      SpelledPrefix(tokens, i + 1);
      OffsetStep(tokens, i);
    }
  }

  lemma StartIsBoundary(tokens: seq<TokenPiece>)
    ensures IsBoundary(tokens, 0)
  {
    assert Offset(tokens, 0) == 0;
  }

  /** Ordering leaves the guards as they were: classes keep their positions, and sections are only permuted. */
  lemma OrderKeepsGuards(identity: ViewIdentity, sections: seq<Section>)
    ensures |SortRuns(sections)| == |sections|
    ensures StableFirst(sections) <==> StableFirst(SortRuns(sections))
    ensures (forall i :: 0 <= i < |sections| ==> Bound(identity, sections[i])) <==>
            (forall i :: 0 <= i < |sections| ==> Bound(identity, SortRuns(sections)[i]))
  {
    var ordered := SortRuns(sections);
    SortRunsKeepsPlaces(sections);
    assert forall i :: 0 <= i < |sections| ==> SamePlace(sections[i], ordered[i]);
    SortRunsPermutes(sections);
    BoundIsPermuted(identity, sections, ordered);
  }

  lemma BoundIsPermuted(identity: ViewIdentity, s: seq<Section>, t: seq<Section>)
    requires multiset(s) == multiset(t)
    ensures |s| == |t|
    ensures (forall i :: 0 <= i < |s| ==> Bound(identity, s[i])) <==>
            (forall i :: 0 <= i < |t| ==> Bound(identity, t[i]))
  {
    SameLength(s, t);
    if forall i :: 0 <= i < |s| ==> Bound(identity, s[i]) {
      AllPermuted(s, t, x => Bound(identity, x));
    }
    if forall i :: 0 <= i < |t| ==> Bound(identity, t[i]) {
      AllPermuted(t, s, x => Bound(identity, x));
    }
  }
}
