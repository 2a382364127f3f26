/** The exact token map and its pages (model_artifacts.rs): a token list whose bytes spell the source,
    the two range conversions over it, and bounded pages of it. */
module TokenMap {
  import opened Machine
  import opened Wrappers

  const MAX_TOKEN_PAGE_TOKENS := 4_096
  const MAX_TOKEN_PAGE_BYTES := 1_048_576

  datatype TokenPiece = TokenPiece(tokenId: U32, bytes: Bytes)

  datatype MapError =
    | TokenizerAdapter(message: string)
    | EmptyTokenBytes(tokenIndex: nat)
    | TokenBytesMismatch(tokenIndex: nat, byteOffset: nat)
    | TokenBytesLengthMismatch(expected: nat, actual: nat)
    | LengthOverflow
    | InvalidTokenRange(start: nat, end: nat, tokenCount: nat)
    | TokenBoundaryRequired(byteOffset: nat)
    | InvalidSourceAnchor
    | NoncanonicalSourceAnchor
    | SourceAnchorMustBeWholeBlob
    | SourceDigestMismatch
    | EmptyTokenPage
    | TokenPageTokenLimit
    | TokenPageByteLimit

  /** The bytes a token list spells. */
  function Spelled(tokens: seq<TokenPiece>): Bytes {
    if tokens == [] then [] else Spelled(tokens[..|tokens| - 1]) + tokens[|tokens| - 1].bytes
  }

  ghost predicate NoEmptyToken(tokens: seq<TokenPiece>) {
    forall i :: 0 <= i < |tokens| ==> tokens[i].bytes != []
  }

  /** The byte offset at which token `k` starts. */
  ghost function Offset(tokens: seq<TokenPiece>, k: nat): nat
    requires k <= |tokens|
  {
    |Spelled(tokens[..k])|
  }

  lemma OffsetStep(tokens: seq<TokenPiece>, k: nat)
    requires k < |tokens|
    ensures Offset(tokens, k + 1) == Offset(tokens, k) + |tokens[k].bytes|
    ensures Spelled(tokens[..k + 1]) == Spelled(tokens[..k]) + tokens[k].bytes
  {
    assert tokens[..k + 1][..k] == tokens[..k];
  }

  lemma {:induction false} SpelledConcat(a: seq<TokenPiece>, b: seq<TokenPiece>)
    ensures Spelled(a + b) == Spelled(a) + Spelled(b)
  {
    if b == [] {
      assert a + b == a;
    } else {
      var front := b[..|b| - 1];
      assert (a + b)[..|a + b| - 1] == a + front;
      SpelledConcat(a, front);
    }
  }

  lemma SpelledSplit(tokens: seq<TokenPiece>, start: nat, end: nat)
    requires start <= end <= |tokens|
    ensures Spelled(tokens[..end]) == Spelled(tokens[..start]) + Spelled(tokens[start..end])
  {
    SpelledConcat(tokens[..start], tokens[start..end]);
    assert tokens[..end] == tokens[..start] + tokens[start..end];
  }

  lemma SpelledPrefix(tokens: seq<TokenPiece>, k: nat)
    requires k <= |tokens|
    ensures Spelled(tokens[..k]) <= Spelled(tokens)
  {
    SpelledSplit(tokens, k, |tokens|);
    assert tokens[..|tokens|] == tokens;
  }

  lemma {:induction false} OffsetsRise(tokens: seq<TokenPiece>, k: nat, l: nat)
    requires NoEmptyToken(tokens) && k < l <= |tokens|
    ensures Offset(tokens, k) < Offset(tokens, l)
    decreases l - k
  {
    OffsetStep(tokens, l - 1);
    if k < l - 1 {
      OffsetsRise(tokens, k, l - 1);
    }
  }

  lemma {:induction false} TokensFewerThanBytes(tokens: seq<TokenPiece>)
    requires NoEmptyToken(tokens)
    ensures |tokens| <= |Spelled(tokens)|
  {
    if tokens != [] {
      TokensFewerThanBytes(tokens[..|tokens| - 1]);
    }
  }

  // ----- construction -----

  /** Why token `k` is refused, given that the tokens before it matched. */
  ghost function PieceError(source: Bytes, tokens: seq<TokenPiece>, k: nat): Option<MapError>
    requires k < |tokens|
  {
    var start := Offset(tokens, k);
    var end := start + |tokens[k].bytes|;
    if tokens[k].bytes == [] then Some(EmptyTokenBytes(k))
    else if end > USIZE_MAX then Some(LengthOverflow)
    else if end > |source| || source[start..end] != tokens[k].bytes then Some(TokenBytesMismatch(k, start))
    else None
  }

  /** A token list is exact for a source when it spells it out of non-empty pieces. */
  ghost predicate Exact(source: Bytes, tokens: seq<TokenPiece>) {
    NoEmptyToken(tokens) && Spelled(tokens) == source
  }

  /** The verdict on the tokens from `k` on: the first refused piece decides, then the total length. */
  ghost function Verdict(source: Bytes, tokens: seq<TokenPiece>, k: nat): Option<MapError>
    requires k <= |tokens|
    decreases |tokens| - k
  {
    if k == |tokens| then
      if |Spelled(tokens)| != |source| then Some(TokenBytesLengthMismatch(|source|, |Spelled(tokens)|)) else None
    else if PieceError(source, tokens, k).Some? then PieceError(source, tokens, k)
    else Verdict(source, tokens, k + 1)
  }

  method CheckPieces(source: Bytes, tokens: seq<TokenPiece>) returns (e: Option<MapError>)
    ensures e == Verdict(source, tokens, 0)
  {
    var cursor := 0;
    for k := 0 to |tokens|
      invariant Verdict(source, tokens, 0) == Verdict(source, tokens, k)
      invariant cursor == Offset(tokens, k)
    {
      OffsetStep(tokens, k);
      if tokens[k].bytes == [] {
        return Some(EmptyTokenBytes(k));
      }
      var end := cursor + |tokens[k].bytes|;
      if end > USIZE_MAX {
        return Some(LengthOverflow);
      }
      if end > |source| || source[cursor..end] != tokens[k].bytes {
        return Some(TokenBytesMismatch(k, cursor));
      }
      cursor := end;
    }
    assert tokens[..|tokens|] == tokens;
    if cursor != |source| {
      return Some(TokenBytesLengthMismatch(|source|, cursor));
    }
    e := None;
  }

  /** A piece is not refused exactly when it is not empty and continues what the pieces before it spell. */
  lemma PieceContinues(source: Bytes, tokens: seq<TokenPiece>, k: nat)
    requires k < |tokens| && |source| <= USIZE_MAX && Spelled(tokens[..k]) <= source
    ensures PieceError(source, tokens, k).None? <==> tokens[k].bytes != [] && Spelled(tokens[..k + 1]) <= source
  {
    OffsetStep(tokens, k);
    var start, end := Offset(tokens, k), Offset(tokens, k + 1);
    if end <= |source| {
      assert source[..end] == source[..start] + source[start..end];
    }
  }

  lemma {:induction false} AcceptedFrom(source: Bytes, tokens: seq<TokenPiece>, k: nat)
    requires k <= |tokens| && |source| <= USIZE_MAX
    requires Spelled(tokens[..k]) <= source && NoEmptyToken(tokens[..k])
    ensures Verdict(source, tokens, k) == None <==> Exact(source, tokens)
    decreases |tokens| - k
  {
    if k == |tokens| {
      assert tokens[..k] == tokens;
    } else {
      PieceContinues(source, tokens, k);
      SpelledPrefix(tokens, k + 1);
      if PieceError(source, tokens, k).None? {
        assert tokens[..k + 1] == tokens[..k] + [tokens[k]];
        AcceptedFrom(source, tokens, k + 1);
      }
    }
  }

  /** A map is built exactly for the token lists that spell the source out of non-empty pieces. */
  lemma AcceptedIffExact(source: Bytes, tokens: seq<TokenPiece>)
    requires |source| <= USIZE_MAX
    ensures Verdict(source, tokens, 0) == None <==> Exact(source, tokens)
  {
    assert tokens[..0] == [];
    AcceptedFrom(source, tokens, 0);
  }

  /** A tokenizer adapter: the provider's identity, its encoder, and the bytes of each token. Nothing is
      assumed about how the three fit together. */
  datatype Adapter = Adapter(
    identity: Digest, encode: Bytes -> Result<seq<U32>, string>, tokenBytes: U32 -> Result<Bytes, string>)

  /** The pieces for a list of token ids, unless the adapter refuses one of them. */
  ghost function Pieces(adapter: Adapter, ids: seq<U32>): Result<seq<TokenPiece>, MapError> {
    if ids == [] then Ok([])
    else
      var n := |ids| - 1;
      match Pieces(adapter, ids[..n])
      case Err(e) => Err(e)
      case Ok(before) =>
        match adapter.tokenBytes(ids[n])
        case Err(message) => Err(TokenizerAdapter(message))
        case Ok(bytes) => Ok(before + [TokenPiece(ids[n], bytes)])
  }

  /** What tokenizing a source gives: a function of the adapter and the source. */
  ghost function Tokenized(adapter: Adapter, source: Bytes): Result<seq<TokenPiece>, MapError> {
    match adapter.encode(source)
    case Err(message) => Err(TokenizerAdapter(message))
    case Ok(ids) =>
      match Pieces(adapter, ids)
      case Err(e) => Err(e)
      case Ok(tokens) =>
        match Verdict(source, tokens, 0)
        case Some(e) => Err(e)
        case None => Ok(tokens)
  }

  lemma {:induction false} RefusedPieceStays(adapter: Adapter, ids: seq<U32>, k: nat)
    requires k <= |ids| && Pieces(adapter, ids[..k]).Err?
    ensures Pieces(adapter, ids) == Pieces(adapter, ids[..k])
    decreases |ids| - k
  {
    if k == |ids| {
      assert ids[..k] == ids;
    } else {
      assert ids[..k + 1][..k] == ids[..k];
      RefusedPieceStays(adapter, ids, k + 1);
    }
  }

  method Tokenize(adapter: Adapter, source: Bytes) returns (r: Result<seq<TokenPiece>, MapError>)
    ensures r == Tokenized(adapter, source)
    ensures r.Ok? && |source| <= USIZE_MAX ==> Exact(source, r.value)
  {
    var encoded := adapter.encode(source);
    if encoded.Err? {
      return Err(TokenizerAdapter(encoded.error));
    }
    var ids := encoded.value;
    var tokens: seq<TokenPiece> := [];
    for k := 0 to |ids|
      invariant Pieces(adapter, ids[..k]) == Ok(tokens)
    {
      assert ids[..k + 1][..k] == ids[..k];
      var bytes := adapter.tokenBytes(ids[k]);
      if bytes.Err? {
        RefusedPieceStays(adapter, ids, k + 1);
        return Err(TokenizerAdapter(bytes.error));
      }
      tokens := tokens + [TokenPiece(ids[k], bytes.value)];
    }
    assert ids[..|ids|] == ids;
    var refused := CheckPieces(source, tokens);
    if refused.Some? {
      return Err(refused.value);
    }
    if |source| <= USIZE_MAX {
      AcceptedIffExact(source, tokens);
    }
    r := Ok(tokens);
  }

  // ----- range conversions -----

  datatype TokenRange = TokenRange(start: nat, end: nat)

  datatype ByteRange = ByteRange(start: nat, end: nat)

  ghost function ByteRangeOf(tokens: seq<TokenPiece>, range: TokenRange): ByteRange
    requires range.start <= range.end <= |tokens|
  {
    ByteRange(Offset(tokens, range.start), Offset(tokens, range.end))
  }

  /** The total of the byte lengths, refused when it does not fit a machine word. */
  method SumLengths(tokens: seq<TokenPiece>) returns (r: Option<nat>)
    ensures r == if |Spelled(tokens)| <= USIZE_MAX then Some(|Spelled(tokens)|) else None
  {
    var total := 0;
    for i := 0 to |tokens|
      invariant total == Offset(tokens, i) <= USIZE_MAX
    {
      OffsetStep(tokens, i);
      SpelledPrefix(tokens, i + 1);
      total := total + |tokens[i].bytes|;
      if total > USIZE_MAX {
        return None;
      }
    }
    assert tokens[..|tokens|] == tokens;
    r := Some(total);
  }

  method ByteRangeForTokens(tokens: seq<TokenPiece>, range: TokenRange) returns (r: Result<ByteRange, MapError>)
    ensures !(range.start <= range.end <= |tokens|) ==> r == Err(InvalidTokenRange(range.start, range.end, |tokens|))
    ensures range.start <= range.end <= |tokens| ==>
              r == if Offset(tokens, range.end) <= USIZE_MAX then Ok(ByteRangeOf(tokens, range))
              else Err(LengthOverflow)
  {
    if range.start > range.end || range.end > |tokens| {
      return Err(InvalidTokenRange(range.start, range.end, |tokens|));
    }
    SpelledSplit(tokens, range.start, range.end);
    var start := SumLengths(tokens[..range.start]);
    if start.None? {
      return Err(LengthOverflow);
    }
    var len := SumLengths(tokens[range.start..range.end]);
    if len.None? || start.value + len.value > USIZE_MAX {
      return Err(LengthOverflow);
    }
    r := Ok(ByteRange(start.value, start.value + len.value));
  }

  ghost predicate IsBoundary(tokens: seq<TokenPiece>, byteOffset: nat) {
    exists k: nat :: k <= |tokens| && Offset(tokens, k) == byteOffset
  }

  method TokenBoundary(tokens: seq<TokenPiece>, byteOffset: U64) returns (r: Result<nat, MapError>)
    requires NoEmptyToken(tokens) && |Spelled(tokens)| <= U64_MAX
    ensures r.Ok? ==> r.value <= |tokens| && Offset(tokens, r.value) == byteOffset
    ensures r.Err? ==> r.error == TokenBoundaryRequired(byteOffset) && !IsBoundary(tokens, byteOffset)
  {
    var cursor := 0;
    if byteOffset == 0 {
      return Ok(0);
    }
    for index := 0 to |tokens|
      invariant cursor == Offset(tokens, index) < byteOffset
    {
      OffsetStep(tokens, index);
      SpelledPrefix(tokens, index + 1);
      cursor := cursor + |tokens[index].bytes|;
      if cursor > U64_MAX {
        return Err(LengthOverflow);
      }
      if cursor == byteOffset {
        return Ok(index + 1);
      }
      if cursor > byteOffset {
        forall k: nat | k <= |tokens|
          ensures Offset(tokens, k) != byteOffset
        {
          if k < index {
            OffsetsRise(tokens, k, index);
          } else if k > index + 1 {
            OffsetsRise(tokens, index + 1, k);
          }
        }
        return Err(TokenBoundaryRequired(byteOffset));
      }
    }
    forall k: nat | k <= |tokens|
      ensures Offset(tokens, k) != byteOffset
    {
      if k < |tokens| {
        OffsetsRise(tokens, k, |tokens|);
      }
    }
    r := Err(TokenBoundaryRequired(byteOffset));
  }

  method TokenRangeForBytes(tokens: seq<TokenPiece>, start: U64, end: U64) returns (r: Result<TokenRange, MapError>)
    requires NoEmptyToken(tokens) && |Spelled(tokens)| <= U64_MAX
    ensures r.Ok? ==>
              && r.value.start <= r.value.end <= |tokens|
              && ByteRangeOf(tokens, r.value) == ByteRange(start, end)
    ensures r.Ok? <==> start <= end && IsBoundary(tokens, start) && IsBoundary(tokens, end)
    ensures r.Err? ==>
              r.error == TokenBoundaryRequired(if start > end || !IsBoundary(tokens, start) then start else end)
  {
    if start > end {
      return Err(TokenBoundaryRequired(start));
    }
    var first := TokenBoundary(tokens, start);
    if first.Err? {
      return Err(first.error);
    }
    var last := TokenBoundary(tokens, end);
    if last.Err? {
      return Err(last.error);
    }
    if last.value < first.value {
      OffsetsRise(tokens, last.value, first.value);
    }
    r := Ok(TokenRange(first.value, last.value));
  }

  /** The two conversions invert each other: a byte range on token boundaries comes from exactly one token range. */
  lemma RangesInvert(tokens: seq<TokenPiece>, range: TokenRange, other: TokenRange)
    requires NoEmptyToken(tokens)
    requires range.start <= range.end <= |tokens| && other.start <= other.end <= |tokens|
    ensures ByteRangeOf(tokens, range) == ByteRangeOf(tokens, other) <==> range == other
  {
    if range.start != other.start {
      OffsetsRise(tokens, if range.start < other.start then range.start else other.start,
                  if range.start < other.start then other.start else range.start);
    }
    if range.end != other.end {
      OffsetsRise(tokens, if range.end < other.end then range.end else other.end,
                  if range.end < other.end then other.end else range.end);
    }
  }

  /** The bytes of a token range are the source bytes of its byte range. */
  lemma RangeSpellsSlice(source: Bytes, tokens: seq<TokenPiece>, range: TokenRange)
    requires Exact(source, tokens) && range.start <= range.end <= |tokens|
    ensures var bytes := ByteRangeOf(tokens, range);
            bytes.start <= bytes.end <= |source| &&
            Spelled(tokens[range.start..range.end]) == source[bytes.start..bytes.end]
  {
    SpelledSplit(tokens, range.start, range.end);
    SpelledPrefix(tokens, range.end);
  }

  /** `expand` and `reconstruct`: append the bytes of each token in turn. */
  method Expand(tokens: seq<TokenPiece>) returns (bytes: Bytes)
    ensures bytes == Spelled(tokens)
  {
    bytes := [];
    for i := 0 to |tokens|
      invariant bytes == Spelled(tokens[..i])
    {
      OffsetStep(tokens, i);
      bytes := bytes + tokens[i].bytes;
    }
    assert tokens[..|tokens|] == tokens;
  }
}
