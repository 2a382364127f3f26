/** The canonical byte strings hashed into artifact identities (model_artifacts.rs): each starts with a
    domain tag of its own and length-prefixes every part of variable length. Strings are given by their
    UTF-8 bytes; SHA-256 is foreign and enters as a function parameter. */
module Preimages {
  import opened Encoding
  import opened Machine
  import opened TokenMap
  import opened Wrappers

  datatype Kind =
    TokenizerIdentity | TokenMapKind | TokenPageKind | CapsuleKind | CapsuleContract | FormationReceiptKind |
    CausalKeyContract

  function Tag(kind: Kind): string {
    match kind
    case TokenizerIdentity => "TOKENZERO-EXACT-TOKENIZER-IDENTITY-V1"
    case TokenMapKind => "TOKENZERO-EXACT-TOKEN-MAP-V1"
    case TokenPageKind => "TOKENZERO-TOKEN-PAGE-V1"
    case CapsuleKind => "TOKENZERO-MODEL-CAPSULE-V1"
    case CapsuleContract => "TOKENZERO-MODEL-CAPSULE-CONTRACT-V1"
    case FormationReceiptKind => "TOKENZERO-MODEL-CAPSULE-FORMATION-RECEIPT-V1"
    case CausalKeyContract => "TOKENZERO-CAPSULE-CONTRACT-V1"
  }

  function Tagged(kind: Kind, body: Bytes): Bytes {
    Ascii(Tag(kind)) + body
  }

  /** The letter of each tag right after its last part shared with other tags. */
  function TagLetter(kind: Kind): char {
    match kind
    case TokenizerIdentity => 'I'
    case TokenMapKind => '-'
    case TokenPageKind => 'T'
    case CapsuleKind => 'V'
    case CapsuleContract => 'C'
    case FormationReceiptKind => 'F'
    case CausalKeyContract => 'C'
  }

  function FamilyLetter(kind: Kind): char {
    match kind
    case TokenizerIdentity => 'E'
    case TokenMapKind => 'E'
    case TokenPageKind => 'T'
    case CausalKeyContract => 'C'
    case _ => 'M'
  }

  function LetterPosition(kind: Kind): nat {
    if FamilyLetter(kind) == 'E' then 21 else if FamilyLetter(kind) == 'M' then 24 else 10
  }

  lemma TagLetters(kind: Kind)
    ensures |Tag(kind)| > 22 && Tag(kind)[10] == FamilyLetter(kind)
    ensures |Tag(kind)| > LetterPosition(kind) && Tag(kind)[LetterPosition(kind)] == TagLetter(kind)
  {
  }

  /** The two letters of a tagged string that give its kind away. */
  ghost predicate Reveals(whole: Bytes, kind: Kind) {
    && |whole| > 22 && |whole| > LetterPosition(kind)
    && whole[10] == FamilyLetter(kind) as int
    && whole[LetterPosition(kind)] == TagLetter(kind) as int
  }

  lemma TaggedReveals(kind: Kind, body: Bytes)
    ensures Reveals(Tagged(kind, body), kind)
  {
    TagLetters(kind);
  }

  lemma RevealedOnce(whole: Bytes, a: Kind, b: Kind)
    requires Reveals(whole, a) && Reveals(whole, b)
    ensures a == b
  {
  }

  /** No preimage of one kind is a preimage of another, and the tag can be taken off. */
  lemma KindsApart(a: Kind, b: Kind, x: Bytes, y: Bytes)
    requires Tagged(a, x) == Tagged(b, y)
    ensures a == b && x == y
  {
    TaggedReveals(a, x);
    TaggedReveals(b, y);
    RevealedOnce(Tagged(a, x), a, b);
    CancelFixed(Ascii(Tag(a)), Ascii(Tag(b)), x, y);
  }

  // ----- token lists -----

  predicate TokensFit(tokens: seq<TokenPiece>) {
    |tokens| <= U64_MAX && forall i :: 0 <= i < |tokens| ==> Fits(tokens[i].bytes)
  }

  function TokenItem(token: TokenPiece): Bytes {
    BigEndian(token.tokenId, 4) + Prefixed(token.bytes)
  }

  function TokenList(tokens: seq<TokenPiece>): Bytes {
    U64Bytes(|tokens|) + Coded(tokens, TokenItem)
  }

  lemma CancelTokenItem(a: TokenPiece, b: TokenPiece, x: Bytes, y: Bytes)
    requires Fits(a.bytes) && Fits(b.bytes) && TokenItem(a) + x == TokenItem(b) + y
    ensures a == b && x == y
  {
    var ida, idb := BigEndian(a.tokenId, 4), BigEndian(b.tokenId, 4);
    assert TokenItem(a) + x == ida + (Prefixed(a.bytes) + x) && TokenItem(b) + y == idb + (Prefixed(b.bytes) + y);
    CancelFixed(ida, idb, Prefixed(a.bytes) + x, Prefixed(b.bytes) + y);
    U32BytesInjective(a.tokenId, b.tokenId);
    CancelPrefixed(a.bytes, b.bytes, x, y);
  }

  lemma TokenItemApart(a: TokenPiece, b: TokenPiece)
    requires Fits(a.bytes) && Fits(b.bytes)
    ensures PrefixApart(TokenItem(a), TokenItem(b))
    ensures TokenItem(a) == TokenItem(b) ==> a == b
  {
    if TokenItem(a) <= TokenItem(b) {
      CancelTokenItem(a, b, TokenItem(b)[|TokenItem(a)|..], []);
    } else if TokenItem(b) <= TokenItem(a) {
      CancelTokenItem(b, a, TokenItem(a)[|TokenItem(b)|..], []);
    }
  }

  lemma TokenListInjective(a: seq<TokenPiece>, b: seq<TokenPiece>)
    requires TokensFit(a) && TokensFit(b) && TokenList(a) == TokenList(b)
    ensures a == b
  {
    CancelU64(|a|, |b|, Coded(a, TokenItem), Coded(b, TokenItem));
    forall i | 0 <= i < |a|
      ensures PrefixApart(TokenItem(a[i]), TokenItem(b[i])) && (TokenItem(a[i]) == TokenItem(b[i]) ==> a[i] == b[i])
    {
      TokenItemApart(a[i], b[i]);
    }
    assert Coded(a, TokenItem) + [] == Coded(b, TokenItem) + [];
    CancelCoded(a, b, TokenItem, [], []);
  }

  method PutTokens(out: Buffer, tokens: seq<TokenPiece>) returns (ok: bool)
    modifies out
    ensures ok <==> TokensFit(tokens)
    ensures ok ==> out.content == old(out.content) + TokenList(tokens)
  {
    if |tokens| > U64_MAX {
      return false;
    }
    out.Extend(U64Bytes(|tokens|), Coded(tokens, TokenItem));
    ghost var start := out.content;
    CodedNone(start, tokens, TokenItem);
    for i := 0 to |tokens|
      invariant forall k :: 0 <= k < i ==> Fits(tokens[k].bytes)
      invariant out.content == start + Coded(tokens[..i], TokenItem)
    {
      ok := PutToken(out, tokens[i]);
      if !ok {
        return;
      }
      CodedStep(start, tokens, TokenItem, i);
    }
    assert tokens[..|tokens|] == tokens;
    ok := true;
  }

  method PutToken(out: Buffer, token: TokenPiece) returns (ok: bool)
    modifies out
    ensures ok <==> Fits(token.bytes)
    ensures ok ==> out.content == old(out.content) + TokenItem(token)
  {
    out.Extend(BigEndian(token.tokenId, 4), Prefixed(token.bytes));
    ok := out.PutBytes(token.bytes, []);
  }

  // ----- token maps and pages -----

  function TokenMapPreimage(tokenizer: Digest, source: Digest, tokens: seq<TokenPiece>): Bytes {
    Tagged(TokenMapKind, tokenizer + (source + TokenList(tokens)))
  }

  method BuildTokenMapPreimage(tokenizer: Digest, source: Digest, tokens: seq<TokenPiece>)
    returns (r: Result<Bytes, MapError>)
    ensures r == if TokensFit(tokens) then Ok(TokenMapPreimage(tokenizer, source, tokens)) else Err(LengthOverflow)
  {
    var bytes := new Buffer(Ascii(Tag(TokenMapKind)));
    bytes.Extend(tokenizer, source + TokenList(tokens));
    bytes.Extend(source, TokenList(tokens));
    var ok := PutTokens(bytes, tokens);
    if !ok {
      return Err(LengthOverflow);
    }
    r := Ok(bytes.content);
  }

  lemma TokenMapPreimageInjective(tokenizer: Digest, source: Digest, tokens: seq<TokenPiece>,
                                  tokenizer': Digest, source': Digest, tokens': seq<TokenPiece>)
    requires TokensFit(tokens) && TokensFit(tokens')
    requires TokenMapPreimage(tokenizer, source, tokens) == TokenMapPreimage(tokenizer', source', tokens')
    ensures tokenizer == tokenizer' && source == source' && tokens == tokens'
  {
    KindsApart(TokenMapKind, TokenMapKind, tokenizer + (source + TokenList(tokens)),
               tokenizer' + (source' + TokenList(tokens')));
    CancelFixed(tokenizer, tokenizer', source + TokenList(tokens), source' + TokenList(tokens'));
    CancelFixed(source, source', TokenList(tokens), TokenList(tokens'));
    TokenListInjective(tokens, tokens');
  }

  datatype PageIdentity = PageIdentity(
    tokenizer: Digest, map_: Digest, sourceAnchor: Bytes,
    tokenStart: U64, tokenEnd: U64, byteStart: U64, byteEnd: U64, tokens: seq<TokenPiece>)

  predicate PageFits(p: PageIdentity) {
    Fits(p.sourceAnchor) && TokensFit(p.tokens)
  }

  function PageNumbers(p: PageIdentity): (b: Bytes)
    ensures |b| == 32
  {
    U64Bytes(p.tokenStart) + (U64Bytes(p.tokenEnd) + (U64Bytes(p.byteStart) + U64Bytes(p.byteEnd)))
  }

  function PageBody(p: PageIdentity): Bytes {
    p.tokenizer + (p.map_ + (Prefixed(p.sourceAnchor) + (PageNumbers(p) + TokenList(p.tokens))))
  }

  function PagePreimage(p: PageIdentity): Bytes {
    Tagged(TokenPageKind, PageBody(p))
  }

  method BuildPagePreimage(p: PageIdentity) returns (r: Result<Bytes, MapError>)
    ensures r == if PageFits(p) then Ok(PagePreimage(p)) else Err(LengthOverflow)
  {
    var bytes := new Buffer(Ascii(Tag(TokenPageKind)));
    ghost var tail := PageNumbers(p) + TokenList(p.tokens);
    bytes.Extend(p.tokenizer, p.map_ + (Prefixed(p.sourceAnchor) + tail));
    bytes.Extend(p.map_, Prefixed(p.sourceAnchor) + tail);
    var ok := bytes.PutBytes(p.sourceAnchor, tail);
    if !ok {
      return Err(LengthOverflow);
    }
    PutPageNumbers(bytes, p, TokenList(p.tokens));
    ok := PutTokens(bytes, p.tokens);
    if !ok {
      return Err(LengthOverflow);
    }
    r := Ok(bytes.content);
  }

  method PutPageNumbers(out: Buffer, p: PageIdentity, ghost rest: Bytes)
    modifies out
    ensures out.content + rest == old(out.content) + (PageNumbers(p) + rest)
  {
    out.Extend(U64Bytes(p.tokenStart), U64Bytes(p.tokenEnd) + (U64Bytes(p.byteStart) + U64Bytes(p.byteEnd)));
    out.Extend(U64Bytes(p.tokenEnd), U64Bytes(p.byteStart) + U64Bytes(p.byteEnd));
    out.Extend(U64Bytes(p.byteStart), U64Bytes(p.byteEnd));
    out.Extend(U64Bytes(p.byteEnd), []);
    assert out.content == old(out.content) + PageNumbers(p);
    assert out.content + rest == old(out.content) + (PageNumbers(p) + rest);
  }

  lemma PageNumbersInjective(p: PageIdentity, q: PageIdentity)
    requires PageNumbers(p) == PageNumbers(q)
    ensures p.tokenStart == q.tokenStart && p.tokenEnd == q.tokenEnd
    ensures p.byteStart == q.byteStart && p.byteEnd == q.byteEnd
  {
    CancelU64(p.tokenStart, q.tokenStart, U64Bytes(p.tokenEnd) + (U64Bytes(p.byteStart) + U64Bytes(p.byteEnd)),
              U64Bytes(q.tokenEnd) + (U64Bytes(q.byteStart) + U64Bytes(q.byteEnd)));
    CancelU64(p.tokenEnd, q.tokenEnd, U64Bytes(p.byteStart) + U64Bytes(p.byteEnd),
              U64Bytes(q.byteStart) + U64Bytes(q.byteEnd));
    CancelU64(p.byteStart, q.byteStart, U64Bytes(p.byteEnd), U64Bytes(q.byteEnd));
    U64BytesInjective(p.byteEnd, q.byteEnd);
  }

  lemma PagePreimageInjective(p: PageIdentity, q: PageIdentity)
    requires PageFits(p) && PageFits(q) && PagePreimage(p) == PagePreimage(q)
    ensures p == q
  {
    KindsApart(TokenPageKind, TokenPageKind, PageBody(p), PageBody(q));
    var ps, qs := PageNumbers(p) + TokenList(p.tokens), PageNumbers(q) + TokenList(q.tokens);
    CancelFixed(p.tokenizer, q.tokenizer, p.map_ + (Prefixed(p.sourceAnchor) + ps),
                q.map_ + (Prefixed(q.sourceAnchor) + qs));
    CancelFixed(p.map_, q.map_, Prefixed(p.sourceAnchor) + ps, Prefixed(q.sourceAnchor) + qs);
    CancelPrefixed(p.sourceAnchor, q.sourceAnchor, ps, qs);
    CancelFixed(PageNumbers(p), PageNumbers(q), TokenList(p.tokens), TokenList(q.tokens));
    PageNumbersInjective(p, q);
    TokenListInjective(p.tokens, q.tokens);
  }

  // ----- formation receipts -----

  datatype FormationReceipt = FormationReceipt(
    receiptVersion: U16, constructorIdentity: Bytes, contractRoot: Digest,
    dependencyRoots: seq<Bytes>, payloadRoot: Digest, epoch: U64)

  predicate ReceiptFits(r: FormationReceipt) {
    Fits(r.constructorIdentity) && ItemsFit(r.dependencyRoots)
  }

  function ReceiptBody(r: FormationReceipt): Bytes {
    BigEndian(r.receiptVersion, 2) +
    (Prefixed(r.constructorIdentity) +
     (r.contractRoot + (ItemList(r.dependencyRoots) + (r.payloadRoot + U64Bytes(r.epoch)))))
  }

  function ReceiptPreimage(r: FormationReceipt): Bytes {
    Tagged(FormationReceiptKind, ReceiptBody(r))
  }

  method BuildReceiptPreimage(receipt: FormationReceipt) returns (r: Result<Bytes, MapError>)
    ensures r == if ReceiptFits(receipt) then Ok(ReceiptPreimage(receipt)) else Err(LengthOverflow)
  {
    var bytes := new Buffer(Ascii(Tag(FormationReceiptKind)));
    ghost var close := receipt.payloadRoot + U64Bytes(receipt.epoch);
    ghost var roots := receipt.contractRoot + (ItemList(receipt.dependencyRoots) + close);
    bytes.Extend(BigEndian(receipt.receiptVersion, 2), Prefixed(receipt.constructorIdentity) + roots);
    var ok := bytes.PutBytes(receipt.constructorIdentity, roots);
    if !ok {
      return Err(LengthOverflow);
    }
    bytes.Extend(receipt.contractRoot, ItemList(receipt.dependencyRoots) + close);
    ok := bytes.PutItems(receipt.dependencyRoots, close);
    if !ok {
      return Err(LengthOverflow);
    }
    bytes.Extend(receipt.payloadRoot, U64Bytes(receipt.epoch));
    bytes.Extend(U64Bytes(receipt.epoch), []);
    r := Ok(bytes.content);
  }

  lemma ReceiptPreimageInjective(p: FormationReceipt, q: FormationReceipt)
    requires ReceiptFits(p) && ReceiptFits(q) && ReceiptPreimage(p) == ReceiptPreimage(q)
    ensures p == q
  {
    KindsApart(FormationReceiptKind, FormationReceiptKind, ReceiptBody(p), ReceiptBody(q));
    var p3, q3 := p.payloadRoot + U64Bytes(p.epoch), q.payloadRoot + U64Bytes(q.epoch);
    var p2, q2 := p.contractRoot + (ItemList(p.dependencyRoots) + p3),
        q.contractRoot + (ItemList(q.dependencyRoots) + q3);
    CancelFixed(BigEndian(p.receiptVersion, 2), BigEndian(q.receiptVersion, 2),
                Prefixed(p.constructorIdentity) + p2, Prefixed(q.constructorIdentity) + q2);
    assert Pow256(2) == 0x1_0000;
    BigEndianInjective(p.receiptVersion, q.receiptVersion, 2);
    CancelPrefixed(p.constructorIdentity, q.constructorIdentity, p2, q2);
    CancelFixed(p.contractRoot, q.contractRoot, ItemList(p.dependencyRoots) + p3, ItemList(q.dependencyRoots) + q3);
    CancelItemList(p.dependencyRoots, q.dependencyRoots, p3, q3);
    CancelFixed(p.payloadRoot, q.payloadRoot, U64Bytes(p.epoch), U64Bytes(q.epoch));
    U64BytesInjective(p.epoch, q.epoch);
  }

  // ----- capsules -----

  datatype CapsuleIdentity = CapsuleIdentity(
    sourceRoot: Digest, modelProfile: Digest, tokenizer: Digest,
    evidenceRefs: seq<Bytes>, pageDigests: seq<Digest>,
    stablePrefixMap: Digest, dynamicTailMap: Digest,
    stablePrefix: Bytes, dynamicTail: Bytes,
    stablePrefixTokens: U64, dynamicTailTokens: U64,
    causalKey: Bytes, receipt: FormationReceipt)

  /** A digest is its own code: all digests are equally long. */
  function DigestItem(d: Digest): Bytes {
    d
  }

  function DigestList(digests: seq<Digest>): Bytes {
    U64Bytes(|digests|) + Coded(digests, DigestItem)
  }

  lemma CancelDigestList(a: seq<Digest>, b: seq<Digest>, x: Bytes, y: Bytes)
    requires |a| <= U64_MAX && |b| <= U64_MAX && DigestList(a) + x == DigestList(b) + y
    ensures a == b && x == y
  {
    assert DigestList(a) + x == U64Bytes(|a|) + (Coded(a, DigestItem) + x);
    assert DigestList(b) + y == U64Bytes(|b|) + (Coded(b, DigestItem) + y);
    CancelU64(|a|, |b|, Coded(a, DigestItem) + x, Coded(b, DigestItem) + y);
    CancelCoded(a, b, DigestItem, x, y);
  }

  predicate CapsuleFits(c: CapsuleIdentity) {
    && ItemsFit(c.evidenceRefs) && |c.pageDigests| <= U64_MAX
    && Fits(c.stablePrefix) && Fits(c.dynamicTail) && Fits(c.causalKey)
    && ReceiptFits(c.receipt)
  }

  /** The last parts of a capsule preimage: token counts, causal key and the digest of the receipt. */
  function CapsuleClose(c: CapsuleIdentity, sha: Bytes -> Digest): Bytes {
    U64Bytes(c.stablePrefixTokens) +
    (U64Bytes(c.dynamicTailTokens) + (Prefixed(c.causalKey) + sha(ReceiptPreimage(c.receipt))))
  }

  function CapsulePayload(c: CapsuleIdentity, sha: Bytes -> Digest): Bytes {
    c.stablePrefixMap +
    (c.dynamicTailMap + (Prefixed(c.stablePrefix) + (Prefixed(c.dynamicTail) + CapsuleClose(c, sha))))
  }

  function CapsuleBody(c: CapsuleIdentity, sha: Bytes -> Digest): Bytes {
    c.sourceRoot + (c.modelProfile + (c.tokenizer +
                                      (ItemList(c.evidenceRefs) +
                                       (DigestList(c.pageDigests) + CapsulePayload(c, sha)))))
  }

  function CapsulePreimage(c: CapsuleIdentity, sha: Bytes -> Digest): Bytes {
    Tagged(CapsuleKind, CapsuleBody(c, sha))
  }

  method BuildCapsulePreimage(c: CapsuleIdentity, sha: Bytes -> Digest) returns (r: Result<Bytes, MapError>)
    ensures r == if CapsuleFits(c) then Ok(CapsulePreimage(c, sha)) else Err(LengthOverflow)
  {
    var bytes := new Buffer(Ascii(Tag(CapsuleKind)));
    ghost var pages := DigestList(c.pageDigests) + CapsulePayload(c, sha);
    bytes.Extend(c.sourceRoot, c.modelProfile + (c.tokenizer + (ItemList(c.evidenceRefs) + pages)));
    bytes.Extend(c.modelProfile, c.tokenizer + (ItemList(c.evidenceRefs) + pages));
    bytes.Extend(c.tokenizer, ItemList(c.evidenceRefs) + pages);
    var ok := bytes.PutItems(c.evidenceRefs, pages);
    if !ok || |c.pageDigests| > U64_MAX {
      return Err(LengthOverflow);
    }
    PutDigests(bytes, c.pageDigests, CapsulePayload(c, sha));
    ok := PutCapsulePayload(bytes, c, sha);
    if !ok {
      return Err(LengthOverflow);
    }
    r := Ok(bytes.content);
  }

  method PutCapsulePayload(out: Buffer, c: CapsuleIdentity, sha: Bytes -> Digest) returns (ok: bool)
    modifies out
    ensures ok <==> Fits(c.stablePrefix) && Fits(c.dynamicTail) && Fits(c.causalKey) && ReceiptFits(c.receipt)
    ensures ok ==> out.content == old(out.content) + CapsulePayload(c, sha)
  {
    ghost var tail := Prefixed(c.dynamicTail) + CapsuleClose(c, sha);
    out.Extend(c.stablePrefixMap, c.dynamicTailMap + (Prefixed(c.stablePrefix) + tail));
    out.Extend(c.dynamicTailMap, Prefixed(c.stablePrefix) + tail);
    ok := out.PutBytes(c.stablePrefix, tail);
    if !ok {
      return;
    }
    ok := out.PutBytes(c.dynamicTail, CapsuleClose(c, sha));
    if !ok {
      return;
    }
    ghost var close := Prefixed(c.causalKey) + sha(ReceiptPreimage(c.receipt));
    out.Extend(U64Bytes(c.stablePrefixTokens), U64Bytes(c.dynamicTailTokens) + close);
    out.Extend(U64Bytes(c.dynamicTailTokens), close);
    ok := out.PutBytes(c.causalKey, sha(ReceiptPreimage(c.receipt)));
    if !ok {
      return;
    }
    var receipt := BuildReceiptPreimage(c.receipt);
    if receipt.Err? {
      return false;
    }
    out.Extend(sha(receipt.value), []);
  }

  method PutDigests(out: Buffer, digests: seq<Digest>, ghost rest: Bytes)
    requires |digests| <= U64_MAX
    modifies out
    ensures out.content + rest == old(out.content) + (DigestList(digests) + rest)
  {
    out.Extend(U64Bytes(|digests|), Coded(digests, DigestItem));
    ghost var start := out.content;
    CodedNone(start, digests, DigestItem);
    for i := 0 to |digests|
      invariant out.content == start + Coded(digests[..i], DigestItem)
    {
      out.Extend(digests[i], []);
      CodedStep(start, digests, DigestItem, i);
    }
    assert digests[..|digests|] == digests;
    assert out.content == old(out.content) + DigestList(digests);
    assert out.content + rest == old(out.content) + (DigestList(digests) + rest);
  }

  /** Equal capsule preimages agree on every field they contain and on the receipt's digest; they agree on
      the receipt itself unless the hash maps the two receipt preimages to one digest. */
  lemma CapsulePreimageInjective(p: CapsuleIdentity, q: CapsuleIdentity, sha: Bytes -> Digest)
    requires CapsuleFits(p) && CapsuleFits(q) && CapsulePreimage(p, sha) == CapsulePreimage(q, sha)
    ensures p.(receipt := q.receipt) == q
    ensures sha(ReceiptPreimage(p.receipt)) == sha(ReceiptPreimage(q.receipt))
    ensures ReceiptPreimage(p.receipt) == ReceiptPreimage(q.receipt) ==> p == q
  {
    KindsApart(CapsuleKind, CapsuleKind, CapsuleBody(p, sha), CapsuleBody(q, sha));
    var p1, q1 := DigestList(p.pageDigests) + CapsulePayload(p, sha),
        DigestList(q.pageDigests) + CapsulePayload(q, sha);
    CancelFixed(p.sourceRoot, q.sourceRoot, p.modelProfile + (p.tokenizer + (ItemList(p.evidenceRefs) + p1)),
                q.modelProfile + (q.tokenizer + (ItemList(q.evidenceRefs) + q1)));
    CancelFixed(p.modelProfile, q.modelProfile, p.tokenizer + (ItemList(p.evidenceRefs) + p1),
                q.tokenizer + (ItemList(q.evidenceRefs) + q1));
    CancelFixed(p.tokenizer, q.tokenizer, ItemList(p.evidenceRefs) + p1, ItemList(q.evidenceRefs) + q1);
    CancelItemList(p.evidenceRefs, q.evidenceRefs, p1, q1);
    CancelDigestList(p.pageDigests, q.pageDigests, CapsulePayload(p, sha), CapsulePayload(q, sha));
    CapsulePayloadInjective(p, q, sha);
    if ReceiptPreimage(p.receipt) == ReceiptPreimage(q.receipt) {
      ReceiptPreimageInjective(p.receipt, q.receipt);
    }
  }

  lemma CapsulePayloadInjective(p: CapsuleIdentity, q: CapsuleIdentity, sha: Bytes -> Digest)
    requires CapsuleFits(p) && CapsuleFits(q) && CapsulePayload(p, sha) == CapsulePayload(q, sha)
    ensures p.stablePrefixMap == q.stablePrefixMap && p.dynamicTailMap == q.dynamicTailMap
    ensures p.stablePrefix == q.stablePrefix && p.dynamicTail == q.dynamicTail
    ensures p.stablePrefixTokens == q.stablePrefixTokens && p.dynamicTailTokens == q.dynamicTailTokens
    ensures p.causalKey == q.causalKey && sha(ReceiptPreimage(p.receipt)) == sha(ReceiptPreimage(q.receipt))
  {
    var p1, q1 := Prefixed(p.dynamicTail) + CapsuleClose(p, sha), Prefixed(q.dynamicTail) + CapsuleClose(q, sha);
    CancelFixed(p.stablePrefixMap, q.stablePrefixMap, p.dynamicTailMap + (Prefixed(p.stablePrefix) + p1),
                q.dynamicTailMap + (Prefixed(q.stablePrefix) + q1));
    CancelFixed(p.dynamicTailMap, q.dynamicTailMap, Prefixed(p.stablePrefix) + p1, Prefixed(q.stablePrefix) + q1);
    CancelPrefixed(p.stablePrefix, q.stablePrefix, p1, q1);
    CancelPrefixed(p.dynamicTail, q.dynamicTail, CapsuleClose(p, sha), CapsuleClose(q, sha));
    var p2, q2 := Prefixed(p.causalKey) + sha(ReceiptPreimage(p.receipt)),
        Prefixed(q.causalKey) + sha(ReceiptPreimage(q.receipt));
    CancelU64(p.stablePrefixTokens, q.stablePrefixTokens, U64Bytes(p.dynamicTailTokens) + p2,
              U64Bytes(q.dynamicTailTokens) + q2);
    CancelU64(p.dynamicTailTokens, q.dynamicTailTokens, p2, q2);
    CancelPrefixed(p.causalKey, q.causalKey, sha(ReceiptPreimage(p.receipt)), sha(ReceiptPreimage(q.receipt)));
  }
}
