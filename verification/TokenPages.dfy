/** Bounded pages of an exact token map (model_artifacts.rs): bound to the digests of the map and of themselves, and
    expanding to the source bytes they claim. The reference parser and SHA-256 are parameters. */
module TokenPages {
  import opened Machine
  import opened Preimages
  import opened Text
  import opened TokenMap
  import opened Wrappers

  /** What a page takes from its map. */
  datatype MapIdentity = MapIdentity(tokenizer: Digest, digest: Digest, sourceHash: string)

  /** What the reference parser reports about a source anchor. */
  datatype Anchor = Anchor(canonical: bool, wholeBlob: bool, hash: string)

  datatype TokenPage = TokenPage(identity: PageIdentity, digest: Digest)

  /** Why no page is made: the first check that fails. */
  ghost function PageRefusal(map_: MapIdentity, tokens: seq<TokenPiece>, parsed: Option<Anchor>,
                             range: TokenRange): Option<MapError> {
    if parsed.None? then Some(InvalidSourceAnchor)
    else if !parsed.value.canonical then Some(NoncanonicalSourceAnchor)
    else if !parsed.value.wholeBlob then Some(SourceAnchorMustBeWholeBlob)
    else if parsed.value.hash != map_.sourceHash then Some(SourceDigestMismatch)
    else if range.start == range.end then Some(EmptyTokenPage)
    else if range.start > range.end || range.end > |tokens|
            then Some(InvalidTokenRange(range.start, range.end, |tokens|))
    else if Offset(tokens, range.end) > USIZE_MAX then Some(LengthOverflow)
    else if range.end - range.start > MAX_TOKEN_PAGE_TOKENS then Some(TokenPageTokenLimit)
    else if Offset(tokens, range.end) - Offset(tokens, range.start) > MAX_TOKEN_PAGE_BYTES then Some(TokenPageByteLimit)
    else None
  }

  /** The page of a token range: the tokens, where they lie among the tokens and bytes of the map, and the digests. */
  ghost predicate IsPageOf(page: TokenPage, map_: MapIdentity, tokens: seq<TokenPiece>, sourceAnchor: string,
                           range: TokenRange,
                           sha: Bytes -> Digest) {
    var p := page.identity;
    && p.tokenizer == map_.tokenizer && p.map_ == map_.digest && p.sourceAnchor == Utf8(sourceAnchor)
    && range.start < range.end <= |tokens| && range == TokenRange(p.tokenStart, p.tokenEnd)
    && p.tokens == tokens[range.start..range.end] && |p.tokens| <= MAX_TOKEN_PAGE_TOKENS
    && ByteRangeOf(tokens, range) == ByteRange(p.byteStart, p.byteEnd)
    && |Spelled(p.tokens)| == p.byteEnd - p.byteStart <= MAX_TOKEN_PAGE_BYTES
    && PageFits(p) && page.digest == sha(PagePreimage(p))
  }

  lemma PiecesFit(tokens: seq<TokenPiece>)
    requires |Spelled(tokens)| <= U64_MAX && |tokens| <= U64_MAX
    ensures TokensFit(tokens)
  {
    forall i | 0 <= i < |tokens|
      ensures |tokens[i].bytes| <= U64_MAX
    {
      SpelledSplit(tokens, i, i + 1);
      SpelledPrefix(tokens, i + 1);
      OffsetStep(tokens, i);
    }
  }

  /** The limits of the hashed lengths cannot be reached: the page is bounded and the anchor is in memory. */
  method NewPage(map_: MapIdentity, tokens: seq<TokenPiece>, sourceAnchor: string, parsed: Option<Anchor>,
                 range: TokenRange,
                 sha: Bytes -> Digest)
    returns (r: Result<TokenPage, MapError>)
    requires |tokens| <= USIZE_MAX && |Utf8(sourceAnchor)| <= USIZE_MAX
    ensures r.Err? <==> PageRefusal(map_, tokens, parsed, range).Some?
    ensures r.Err? ==> Some(r.error) == PageRefusal(map_, tokens, parsed, range)
    ensures r.Ok? ==> IsPageOf(r.value, map_, tokens, sourceAnchor, range, sha)
  {
    if parsed.None? {
      return Err(InvalidSourceAnchor);
    }
    if !parsed.value.canonical {
      return Err(NoncanonicalSourceAnchor);
    }
    if !parsed.value.wholeBlob {
      return Err(SourceAnchorMustBeWholeBlob);
    }
    if parsed.value.hash != map_.sourceHash {
      return Err(SourceDigestMismatch);
    }
    if range.start == range.end {
      return Err(EmptyTokenPage);
    }
    var bytes := ByteRangeForTokens(tokens, range);
    if bytes.Err? {
      return Err(bytes.error);
    }
    if range.end - range.start > MAX_TOKEN_PAGE_TOKENS {
      return Err(TokenPageTokenLimit);
    }
    SpelledSplit(tokens, range.start, range.end);
    if bytes.value.end - bytes.value.start > MAX_TOKEN_PAGE_BYTES {
      return Err(TokenPageByteLimit);
    }
    var pieces := tokens[range.start..range.end];
    PiecesFit(pieces);
    var identity := PageIdentity(map_.tokenizer, map_.digest, Utf8(sourceAnchor), range.start, range.end,
                                 bytes.value.start, bytes.value.end, pieces);
    var preimage := BuildPagePreimage(identity);
    r := Ok(TokenPage(identity, sha(preimage.value)));
  }

  /** A page of an exact map expands to exactly the source bytes it claims to cover. */
  lemma PageExpandsToSlice(source: Bytes, page: TokenPage, map_: MapIdentity, tokens: seq<TokenPiece>,
                           sourceAnchor: string,
                           range: TokenRange, sha: Bytes -> Digest)
    requires Exact(source, tokens) && IsPageOf(page, map_, tokens, sourceAnchor, range, sha)
    ensures var p := page.identity;
            p.byteStart < p.byteEnd <= |source| && Spelled(p.tokens) == source[p.byteStart..p.byteEnd]
  {
    RangeSpellsSlice(source, tokens, range);
    OffsetsRise(tokens, range.start, range.end);
  }
}
