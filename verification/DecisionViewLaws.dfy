/** What a rendered Decision View promises: the same view for every order of its commutative runs, a stable
    prefix that no volatile section can disturb, and a geometry that splits bytes and tokens exactly. */
module DecisionViewLaws {
  import opened DecisionFrames
  import opened DecisionView
  import opened Encoding
  import opened Machine
  import opened Preimages
  import opened Sections
  import opened Sorting
  import opened TokenMap
  import opened ViewDigests
  import opened ViewMetadata
  import opened Wrappers

  lemma SameKeysAt(s: seq<Section>, t: seq<Section>, i: nat)
    requires Mapped(s, KeyOf) == Mapped(t, KeyOf) && i < |s|
    ensures |s| == |t| && KeyOf(s[i]) == KeyOf(t[i])
  {
    assert Mapped(s, KeyOf)[i] == Mapped(t, KeyOf)[i];
    assert |Mapped(s, KeyOf)| == |Mapped(t, KeyOf)|;
  }

  lemma SameKeysRenderAlike(s: seq<Section>, t: seq<Section>)
    requires Mapped(s, KeyOf) == Mapped(t, KeyOf)
    ensures Frames(s) == Frames(t) && Kinds(s) == Kinds(t) && ScoreMarks(s) == ScoreMarks(t)
  {
    assert |Mapped(s, KeyOf)| == |Mapped(t, KeyOf)|;
    forall i | 0 <= i < |s|
      ensures KeyOf(s[i]) == KeyOf(t[i])
    {
      SameKeysAt(s, t, i);
    }
    assert forall i :: 0 <= i < |s| ==> Frames(s)[i] == FrameOf(s[i]) == FrameOf(t[i]) == Frames(t)[i];
    assert forall i :: 0 <= i < |s| ==> ScoreMarks(s)[i] == MarkOf(s[i]) == MarkOf(t[i]) == ScoreMarks(t)[i];
  }

  lemma SameKinds(s: seq<Section>, t: seq<Section>)
    requires Kinds(s) == Kinds(t)
    ensures |s| == |t| && forall i :: 0 <= i < |s| ==> s[i].kind == t[i].kind
  {
    assert |Kinds(s)| == |Kinds(t)|;
    forall i | 0 <= i < |s|
      ensures s[i].kind == t[i].kind
    {
      assert Kinds(s)[i] == Kinds(t)[i];
    }
  }

  lemma SameKeysSamePrefix(s: seq<Section>, t: seq<Section>)
    requires Mapped(s, KeyOf) == Mapped(t, KeyOf)
    ensures RenderedSections(s) == RenderedSections(t) && StablePrefix(s) == StablePrefix(t)
  {
    SameKeysRenderAlike(s, t);
    SameKinds(s, t);
    var n := StableCount(s);
    assert StableCount(t) == n;
    assert Frames(s[..n]) == Frames(s)[..n] == Frames(t)[..n] == Frames(t[..n]);
  }

  lemma SameKeysSameView(adapter: Adapter, identity: ViewIdentity, s: seq<Section>, t: seq<Section>, metadata: Digest,
                         sha: Bytes -> Digest)
    requires Mapped(s, KeyOf) == Mapped(t, KeyOf)
    ensures Measurable(adapter, s) <==> Measurable(adapter, t)
    ensures Measurable(adapter, s) && |RenderedSections(s)| <= MAX_VIEW_BYTES ==>
              |RenderedSections(t)| <= MAX_VIEW_BYTES &&
              MeasuredView(adapter, identity, s, metadata, sha) == MeasuredView(adapter, identity, t, metadata, sha)
  {
    SameKeysSamePrefix(s, t);
    SameKeysRenderAlike(s, t);
  }

  lemma {:induction false} PermutedRunsKeepClasses(s: seq<Section>, t: seq<Section>)
    requires RunsPermuted(s, t)
    ensures |s| == |t| && (StableFirst(s) <==> StableFirst(t))
  {
    PermutedRunsSortAlike(s, t);
    SameKeysRenderAlike(SortRuns(s), SortRuns(t));
    SameKinds(SortRuns(s), SortRuns(t));
    ClassesKept(s);
    ClassesKept(t);
  }

  lemma ClassesKept(s: seq<Section>)
    ensures |SortRuns(s)| == |s|
    ensures StableFirst(s) <==> StableFirst(SortRuns(s))
    ensures forall i :: 0 <= i < |s| ==> SortRuns(s)[i].kind.IsStable() == s[i].kind.IsStable()
  {
    SortRunsKeepsPlaces(s);
    var ordered := SortRuns(s);
    forall i | 0 <= i < |s|
      ensures ordered[i].kind.IsStable() == s[i].kind.IsStable()
    {
      assert SamePlace(s[i], ordered[i]);
    }
  }

  /** Lists that differ only by permuting sections inside maximal same-class scored runs are rendered, or
      refused, alike: same bytes, same geometry, same digests. */
  lemma PermutedRunsSameView(adapter: Adapter, identity: ViewIdentity, s: seq<Section>, t: seq<Section>,
                             metadata: Metadata, sha: Bytes -> Digest)
    requires RunsPermuted(s, t)
    ensures RenderedView(adapter, identity, s, metadata, sha) == RenderedView(adapter, identity, t, metadata, sha)
  {
    PermutedRunsSortAlike(s, t);
    PermutedRunsKeepClasses(s, t);
    BoundIsPermuted(identity, s, t);
    SameKeysSamePrefix(SortRuns(s), SortRuns(t));
    SameKeysSameView(adapter, identity, SortRuns(s), SortRuns(t), sha(MetadataPreimage(metadata)), sha);
  }

  /** The stable sections at the front, as given. */
  function StablePart(s: seq<Section>): seq<Section> {
    s[..StableCount(s)]
  }

  lemma RestHas<T>(s: seq<T>, n: nat, holds: T -> bool)
    requires n <= |s| && forall i :: n <= i < |s| ==> holds(s[i])
    ensures forall i :: 0 <= i < |s[n..]| ==> holds(s[n..][i])
  {
    forall i | 0 <= i < |s[n..]|
      ensures holds(s[n..][i])
    {
      assert s[n..][i] == s[n + i];
    }
  }

  lemma StableFirstSplits(s: seq<Section>)
    requires StableFirst(s)
    ensures forall i :: 0 <= i < |s[StableCount(s)..]| ==> !s[StableCount(s)..][i].kind.IsStable()
  {
    var n := StableCount(s);
    forall i | n <= i < |s|
      ensures !s[i].kind.IsStable()
    {
      StableAt(s, i);
    }
    RestHas(s, n, (x: Section) => !x.kind.IsStable());
  }

  lemma {:induction false} StableCountOfSplit(a: seq<Section>, b: seq<Section>)
    requires forall i :: 0 <= i < |a| ==> a[i].kind.IsStable()
    requires forall i :: 0 <= i < |b| ==> !b[i].kind.IsStable()
    ensures StableCount(a + b) == |a| && (a + b)[..|a|] == a
  {
    if |a| < |a + b| {
      assert (a + b)[|a|] == b[0];
    }
    assert forall i :: 0 <= i < |a| ==> (a + b)[i] == a[i];
  }

  /** The bytes of the stable prefix are the rendering of the stable sections by themselves, whatever volatile
      sections follow them. */
  lemma PrefixIsStableRendering(s: seq<Section>)
    requires StableFirst(s)
    ensures StablePrefix(SortRuns(s)) == RenderedSections(SortRuns(StablePart(s)))
  {
    var n := StableCount(s);
    StableFirstSplits(s);
    assert s == s[..n] + s[n..];
    PrefixOfParts(s[..n], s[n..]);
  }

  lemma PrefixOfParts(a: seq<Section>, b: seq<Section>)
    requires forall i :: 0 <= i < |a| ==> a[i].kind.IsStable()
    requires forall i :: 0 <= i < |b| ==> !b[i].kind.IsStable()
    ensures StablePrefix(SortRuns(a + b)) == RenderedSections(SortRuns(a))
  {
    ClassesSortApart(a, b);
    ClassesKept(a);
    ClassesKept(b);
    StableCountOfSplit(SortRuns(a), SortRuns(b));
  }

  /** Two views compare as identical exactly when they have the same identity and their stable sections render
      to the same kinds and payloads: volatile sections, tokenizer and metadata play no part. */
  lemma IdenticalIffSameStableSections(
      adapter: Adapter, adapter': Adapter, identity: ViewIdentity, identity': ViewIdentity,
      s: seq<Section>, t: seq<Section>, metadata: Metadata, metadata': Metadata, sha: Bytes -> Digest)
    requires RenderedView(adapter, identity, s, metadata, sha).Some?
    requires RenderedView(adapter', identity', t, metadata', sha).Some?
    ensures var left := RenderedView(adapter, identity, s, metadata, sha).value.stablePrefix;
            var right := RenderedView(adapter', identity', t, metadata', sha).value.stablePrefix;
            left.Compare(right) == PrefixIdentical <==>
              identity == identity' && Frames(SortRuns(StablePart(s))) == Frames(SortRuns(StablePart(t)))
  {
    PrefixIsStableRendering(s);
    PrefixIsStableRendering(t);
    var f, g := Frames(SortRuns(StablePart(s))), Frames(SortRuns(StablePart(t)));
    if Rendered(f) == Rendered(g) {
      RenderingInjective(f, g);
    }
  }

  /** The geometry of a view: the prefix is the first bytes of the rendering and the first tokens of its exact
      token list, and stable and volatile counts add up to the totals. */
  lemma GeometrySplitsView(adapter: Adapter, identity: ViewIdentity, sections: seq<Section>, metadata: Metadata,
                           sha: Bytes -> Digest)
    requires RenderedView(adapter, identity, sections, metadata, sha).Some?
    ensures var view := RenderedView(adapter, identity, sections, metadata, sha).value;
            var tokens := Tokenized(adapter, view.rendered);
            var prefix := view.stablePrefix;
            && tokens.Ok? && Exact(view.rendered, tokens.value)
            && prefix.bytes <= view.rendered && |prefix.bytes| == prefix.breakpointAfterBytes
            && prefix.breakpointAfterTokens <= |tokens.value| == view.totalTokens
            && prefix.bytes == Spelled(tokens.value[..prefix.breakpointAfterTokens])
            && prefix.breakpointAfterTokens + view.volatileTokens == view.totalTokens
            && prefix.breakpointAfterBytes + view.volatileBytes == |view.rendered|
  {
    var ordered := SortRuns(sections);
    SmallWhenEmpty(ordered);
    SortRunsPermutes(sections);
    TokensOfRendering(adapter, ordered);
    RenderedPrefix(ordered, StableCount(ordered));
    TokensOfPrefix(Tokenized(adapter, RenderedSections(ordered)).value, RenderedSections(ordered),
                   StablePrefix(ordered));
  }

  /** The digests of a view are hashed from what the view itself holds: its identity, prefix, counts and rendering, with
      the kinds and scores of its ordered sections and the digest of the metadata. */
  lemma DigestsOfView(adapter: Adapter, identity: ViewIdentity, sections: seq<Section>, metadata: Metadata,
                      sha: Bytes -> Digest)
    requires RenderedView(adapter, identity, sections, metadata, sha).Some?
    ensures var view := RenderedView(adapter, identity, sections, metadata, sha).value;
            var prefix, tokens := view.stablePrefix, Tokenized(adapter, view.rendered);
            && view.identity == prefix.identity == identity && |prefix.bytes| <= U64_MAX && view.totalTokens <= U64_MAX
            && prefix.breakpointAfterTokens <= U64_MAX && view.volatileTokens <= U64_MAX && tokens.Ok?
            && view.tokenMapDigest == sha(TokenMapPreimage(identity.tokenizer, sha(view.rendered), tokens.value))
            && prefix.digest ==
               sha(GeometryPreimage(PrefixParts(identity, sha(prefix.bytes), |prefix.bytes|,
                                                prefix.breakpointAfterTokens, prefix.bytes)))
            && view.digest ==
               sha(ViewPreimage(ViewParts(prefix.digest, view.tokenMapDigest, Mapped(SortRuns(sections), MarkOf),
                                          view.totalTokens, view.volatileTokens, view.rendered,
                                          sha(MetadataPreimage(metadata)))))
  {
    var ordered := SortRuns(sections);
    SmallWhenEmpty(ordered);
    SortRunsPermutes(sections);
    TokensOfRendering(adapter, ordered);
    RenderedPrefix(ordered, StableCount(ordered));
  }

  lemma TokensOfPrefix(tokens: seq<TokenPiece>, rendered: Bytes, prefix: Bytes)
    requires Exact(rendered, tokens) && prefix <= rendered && IsBoundary(tokens, |prefix|)
    ensures Spelled(tokens[..TokenIndex(tokens, |prefix|)]) == prefix
  {
    SpelledPrefix(tokens, TokenIndex(tokens, |prefix|));
  }

  /** A view can be read back: its bytes give the ordered kinds and payloads, and those of its prefix give the
      stable ones. */
  lemma ViewReadsBackAsSections(adapter: Adapter, identity: ViewIdentity, sections: seq<Section>, metadata: Metadata,
                                sha: Bytes -> Digest)
    requires RenderedView(adapter, identity, sections, metadata, sha).Some?
    ensures var view := RenderedView(adapter, identity, sections, metadata, sha).value;
            && ReadView(view.rendered) == Some(Frames(SortRuns(sections)))
            && ReadView(view.stablePrefix.bytes) == Some(Frames(SortRuns(StablePart(sections))))
            && multiset(SortRuns(sections)) == multiset(sections)
  {
    PrefixIsStableRendering(sections);
    SortRunsPermutes(sections);
    ViewReadsBack(Frames(SortRuns(sections)));
    ViewReadsBack(Frames(SortRuns(StablePart(sections))));
  }
}
