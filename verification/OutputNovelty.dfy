/** Fieldwise coding of caller-selected output (output_novelty.rs): the canonical encoding, its length
    computed ahead, the round trip, and the per-role totals of the receipt. */
module OutputNovelty {
  import opened Encoding
  import opened Machine
  import opened Sequences
  import opened TokenMap
  import opened Wrappers

  const MAX_FIELDS := 256
  const MAX_FIELD_NAME_BYTES := 128
  const MAX_ENCODED_BYTES := 16 * 1_048_576

  datatype Role = Referenced | Reused | Novel | Deterministic

  const ROLE_NAMES: seq<string> := ["referenced", "reused", "novel", "deterministic"]

  function RoleName(role: Role): string {
    ROLE_NAMES[match role case Referenced => 0 case Reused => 1 case Novel => 2 case Deterministic => 3]
  }

  /** A field; its name is given by its bytes, which are ASCII once validated. */
  datatype Field = Field(name: Bytes, role: Role, bytes: Bytes)

  datatype NoveltyError =
    | MapRefused(error: MapError)
    | ZeroIdentity(which: string)
    | EmptyFields
    | TooManyFields
    | InvalidFieldName(name: Bytes)
    | DuplicateFieldName(name: Bytes)
    | EmptyNovelField(name: Bytes)
    | EncodedByteLimit(actual: nat)
    | NoveltyLengthOverflow
    | AccountingOverflow
    | EncodingMismatch

  // ----- the encoding -----

  /** The encoding's domain tag, closed by a zero byte. */
  const DOMAIN: Bytes := Ascii("TOKENZERO-OUTPUT-NOVELTY-V1") + [0]

  datatype Identities = Identities(classification: Digest, effect: Digest, verification: Digest)

  predicate FieldFits(f: Field) {
    Fits(f.name) && Fits(f.bytes)
  }

  function RoleBytes(role: Role): Bytes {
    Ascii(RoleName(role))
  }

  /** A field's code: its name, its role and its bytes, each length-prefixed. */
  function FieldItem(f: Field): Bytes {
    Triple(f.name, RoleBytes(f.role), f.bytes)
  }

  function Header(ids: Identities, count: nat): Bytes {
    DOMAIN + (ids.classification + (ids.effect + (ids.verification + Prefixed(Decimal(count)))))
  }

  function Encoded(ids: Identities, fields: seq<Field>): Bytes {
    Header(ids, |fields|) + Coded(fields, FieldItem)
  }

  function HeaderSize(count: nat): nat {
    28 + 3 * 32 + (8 + |Decimal(count)|)
  }

  lemma DomainSize()
    ensures |DOMAIN| == 28
  {
  }

  lemma EncodedSize(ids: Identities, fields: seq<Field>)
    ensures |Encoded(ids, fields)| == HeaderSize(|fields|) + |Coded(fields, FieldItem)|
  {
    DomainSize();
  }

  /** The length of the encoding, before any of it is built. Additions that leave a machine word are refused. */
  method EncodedLen(fields: seq<Field>) returns (r: Result<nat, NoveltyError>)
    ensures var size := HeaderSize(|fields|) + |Coded(fields, FieldItem)|;
            r == if size <= USIZE_MAX then Ok(size) else Err(NoveltyLengthOverflow)
  {
    var len := HeaderSize(|fields|);
    if len > USIZE_MAX {
      return Err(NoveltyLengthOverflow);
    }
    for i := 0 to |fields|
      invariant len == HeaderSize(|fields|) + |Coded(fields[..i], FieldItem)| <= USIZE_MAX
    {
      CodedStep([], fields, FieldItem, i);
      CodedGrows(fields, FieldItem, i + 1);
      var f := fields[i];
      len := len + (8 + |f.name|) + (8 + |RoleName(f.role)|) + (8 + |f.bytes|);
      if len > USIZE_MAX {
        return Err(NoveltyLengthOverflow);
      }
    }
    assert fields[..|fields|] == fields;
    r := Ok(len);
  }

  lemma RoleNameLength(role: Role)
    ensures |RoleName(role)| <= 13
  {
  }

  method PutField(out: Buffer, f: Field) returns (ok: bool)
    modifies out
    ensures ok <==> FieldFits(f)
    ensures ok ==> out.content == old(out.content) + FieldItem(f)
  {
    RoleNameLength(f.role);
    ok := out.PutBytes(f.name, Prefixed(RoleBytes(f.role)) + Prefixed(f.bytes));
    if !ok {
      return;
    }
    ok := out.PutBytes(RoleBytes(f.role), Prefixed(f.bytes));
    ok := out.PutBytes(f.bytes, []);
  }

  ghost predicate AllFieldsFit(fields: seq<Field>) {
    forall i :: 0 <= i < |fields| ==> FieldFits(fields[i])
  }

  method PutHeader(ids: Identities, count: nat) returns (out: Buffer)
    requires Fits(Decimal(count))
    ensures fresh(out) && out.content == Header(ids, count)
  {
    out := new Buffer(DOMAIN);
    ghost var number := Prefixed(Decimal(count));
    out.Extend(ids.classification, ids.effect + (ids.verification + number));
    out.Extend(ids.effect, ids.verification + number);
    out.Extend(ids.verification, number);
    var ok := out.PutBytes(Decimal(count), []);
  }

  method PutNextField(out: Buffer, fields: seq<Field>, i: nat, ghost start: Bytes) returns (ok: bool)
    requires i < |fields| && out.content == start + Coded(fields[..i], FieldItem)
    modifies out
    ensures ok <==> FieldFits(fields[i])
    ensures ok ==> out.content == start + Coded(fields[..i + 1], FieldItem)
    ensures ok ==> |out.content| <= |start| + |Coded(fields, FieldItem)|
  {
    ok := PutField(out, fields[i]);
    CodedStep(start, fields, FieldItem, i);
    CodedGrows(fields, FieldItem, i + 1);
  }

  /** Appends the fields in caller order; the size is checked after each of them. */
  method PutFields(out: Buffer, fields: seq<Field>) returns (e: Option<NoveltyError>)
    modifies out
    ensures e.None? ==> AllFieldsFit(fields) && out.content == old(out.content) + Coded(fields, FieldItem)
    ensures e.None? && fields != [] ==> |out.content| <= MAX_ENCODED_BYTES
    ensures AllFieldsFit(fields) && |old(out.content)| + |Coded(fields, FieldItem)| <= MAX_ENCODED_BYTES ==> e.None?
  {
    ghost var start := out.content;
    CodedNone(start, fields, FieldItem);
    for i := 0 to |fields|
      invariant forall k :: 0 <= k < i ==> FieldFits(fields[k])
      invariant out.content == start + Coded(fields[..i], FieldItem)
      invariant i > 0 ==> |out.content| <= MAX_ENCODED_BYTES
    {
      var ok := PutNextField(out, fields, i, start);
      if !ok {
        return Some(NoveltyLengthOverflow);
      }
      if |out.content| > MAX_ENCODED_BYTES {
        return Some(EncodedByteLimit(|out.content|));
      }
    }
    assert fields[..|fields|] == fields;
    e := None;
  }

  method EncodeFields(ids: Identities, fields: seq<Field>) returns (r: Result<Bytes, NoveltyError>)
    ensures AllFieldsFit(fields) && |Encoded(ids, fields)| <= MAX_ENCODED_BYTES ==> r == Ok(Encoded(ids, fields))
    ensures r.Ok? ==> r.value == Encoded(ids, fields) && AllFieldsFit(fields)
    ensures r.Ok? && fields != [] ==> |r.value| <= MAX_ENCODED_BYTES
  {
    EncodedSize(ids, fields);
    if |Decimal(|fields|)| > U64_MAX {
      return Err(NoveltyLengthOverflow);
    }
    var out := PutHeader(ids, |fields|);
    var e := PutFields(out, fields);
    r := if e.Some? then Err(e.value) else Ok(out.content);
  }

  // ----- the encoding determines what was encoded -----

  lemma RoleNamesDiffer(a: Role, b: Role)
    requires |RoleName(a)| == |RoleName(b)|
    ensures a == b
  {
  }

  lemma FieldItemApart(f: Field, g: Field)
    requires FieldFits(f) && FieldFits(g)
    ensures PrefixApart(FieldItem(f), FieldItem(g))
    ensures FieldItem(f) == FieldItem(g) ==> f == g
  {
    RoleNameLength(f.role);
    RoleNameLength(g.role);
    TripleApart(f.name, g.name, RoleBytes(f.role), RoleBytes(g.role), f.bytes, g.bytes);
    if FieldItem(f) == FieldItem(g) {
      RoleNamesDiffer(f.role, g.role);
    }
  }

  lemma HeaderDetermines(ids: Identities, count: nat, ids': Identities, count': nat, x: Bytes, y: Bytes)
    requires Fits(Decimal(count)) && Fits(Decimal(count')) && Header(ids, count) + x == Header(ids', count') + y
    ensures ids == ids' && count == count' && x == y
  {
    var n, n' := Prefixed(Decimal(count)), Prefixed(Decimal(count'));
    assert Header(ids, count) + x == DOMAIN + (ids.classification + (ids.effect + (ids.verification + (n + x))));
    assert Header(ids', count') + y == DOMAIN + (ids'.classification + (ids'.effect + (ids'.verification + (n' + y))));
    CancelFixed(DOMAIN, DOMAIN, ids.classification + (ids.effect + (ids.verification + (n + x))),
                ids'.classification + (ids'.effect + (ids'.verification + (n' + y))));
    CancelFixed(ids.classification, ids'.classification, ids.effect + (ids.verification + (n + x)),
                ids'.effect + (ids'.verification + (n' + y)));
    CancelFixed(ids.effect, ids'.effect, ids.verification + (n + x), ids'.verification + (n' + y));
    CancelFixed(ids.verification, ids'.verification, n + x, n' + y);
    CancelPrefixed(Decimal(count), Decimal(count'), x, y);
    DecimalRoundTrip(count);
    DecimalRoundTrip(count');
  }

  /** Equal encodings carry equal digests and the same fields, names, roles and bytes, in the same order. */
  lemma EncodingDetermines(ids: Identities, fields: seq<Field>, ids': Identities, fields': seq<Field>)
    requires AllFieldsFit(fields) && AllFieldsFit(fields')
    requires Fits(Decimal(|fields|)) && Fits(Decimal(|fields'|))
    requires Encoded(ids, fields) == Encoded(ids', fields')
    ensures ids == ids' && fields == fields'
  {
    HeaderDetermines(ids, |fields|, ids', |fields'|, Coded(fields, FieldItem), Coded(fields', FieldItem));
    forall i | 0 <= i < |fields|
      ensures PrefixApart(FieldItem(fields[i]), FieldItem(fields'[i]))
      ensures FieldItem(fields[i]) == FieldItem(fields'[i]) ==> fields[i] == fields'[i]
    {
      FieldItemApart(fields[i], fields'[i]);
    }
    assert Coded(fields, FieldItem) + [] == Coded(fields', FieldItem) + [];
    CancelCoded(fields, fields', FieldItem, [], []);
  }

  // ----- totals -----

  datatype Tally = Tally(fields: nat, bytes: nat, tokens: nat)

  datatype FieldReceipt = FieldReceipt(name: Bytes, role: Role, digest: Digest, payloadBytes: U64, tokens: U64)

  /** What the receipts of one role add up to. */
  ghost function TallyOf(receipts: seq<FieldReceipt>, role: Role): Tally {
    if receipts == [] then Tally(0, 0, 0)
    else
      var before := TallyOf(receipts[..|receipts| - 1], role);
      var last := receipts[|receipts| - 1];
      if last.role == role then Tally(before.fields + 1, before.bytes + last.payloadBytes, before.tokens + last.tokens)
      else before
  }

  /** The per-role counters of a receipt. */
  class Totals {
    var referenced: Tally
    var reused: Tally
    var novel: Tally
    var deterministic: Tally

    function Of(role: Role): Tally
      reads this
    {
      match role
      case Referenced => referenced
      case Reused => reused
      case Novel => novel
      case Deterministic => deterministic
    }

    constructor ()
      ensures forall role: Role :: Of(role) == Tally(0, 0, 0)
    {
      referenced, reused, novel, deterministic := Tally(0, 0, 0), Tally(0, 0, 0), Tally(0, 0, 0), Tally(0, 0, 0);
    }

    /** Counts one field; refused, with the counters left behind, when a counter would overflow. */
    method Add(role: Role, bytes: U64, tokens: U64) returns (ok: bool)
      modifies this
      ensures ok <==> && old(Of(role)).fields + 1 <= U32_MAX
                      && old(Of(role)).bytes + bytes <= U64_MAX && old(Of(role)).tokens + tokens <= U64_MAX
      ensures ok ==> Of(role) == Tally(old(Of(role)).fields + 1, old(Of(role)).bytes + bytes,
                                       old(Of(role)).tokens + tokens)
      ensures forall other: Role :: other != role ==> Of(other) == old(Of(other))
    {
      var t := Of(role);
      if t.fields + 1 > U32_MAX {
        return false;
      }
      t := t.(fields := t.fields + 1);
      Store(role, t);
      if t.bytes + bytes > U64_MAX {
        return false;
      }
      t := t.(bytes := t.bytes + bytes);
      Store(role, t);
      if t.tokens + tokens > U64_MAX {
        return false;
      }
      t := t.(tokens := t.tokens + tokens);
      Store(role, t);
      ok := true;
    }

    method Store(role: Role, t: Tally)
      modifies this
      ensures forall r: Role :: Of(r) == if r == role then t else old(Of(r))
    {
      match role {
        case Referenced => referenced := t;
        case Reused => reused := t;
        case Novel => novel := t;
        case Deterministic => deterministic := t;
      }
    }
  }

  // ----- coding and reconstruction -----

  predicate ValidName(name: Bytes) {
    && 0 < |name| <= MAX_FIELD_NAME_BYTES
    && (forall i :: 0 <= i < |name| ==>
          || 97 <= name[i] <= 122
          || (i > 0 && (IsDigit(name[i]) || name[i] == 95 || name[i] == 45 || name[i] == 46)))
  }

  /** A valid name is a lower-case letter with up to 127 lower-case letters, digits, underscores, hyphens and dots
      behind it, all in ASCII. */
  lemma NameMeans(name: Bytes)
    ensures ValidName(name) <==>
            && 1 <= |name| <= 128 && 'a' <= name[0] as char <= 'z'
            && forall i :: 0 < i < |name| ==>
                 var c := name[i] as char;
                 'a' <= c <= 'z' || '0' <= c <= '9' || c == '_' || c == '-' || c == '.'
  {
    assert MAX_FIELD_NAME_BYTES == 128;
    assert forall i :: 0 <= i < |name| ==> (IsDigit(name[i]) <==> '0' <= name[i] as char <= '9');
  }

  lemma ZeroMeans(d: Digest)
    ensures IsZero(d) <==> d == Repeated(0, 32)
  {
    if IsZero(d) {
      assert forall i :: 0 <= i < 32 ==> d[i] == 0;
    }
  }

  ghost predicate ValidFields(fields: seq<Field>) {
    && 0 < |fields| <= MAX_FIELDS
    && (forall i :: 0 <= i < |fields| ==>
          ValidName(fields[i].name) && (fields[i].role.Novel? ==> fields[i].bytes != []))
    && (forall i, j :: 0 <= i < j < |fields| ==> fields[i].name != fields[j].name)
  }

  /** The fields before `k` are valid together, and the one at `k` is refused: for its name, then as repeating one,
      then as novel without bytes. */
  ghost predicate RefusedAt(fields: seq<Field>, k: nat, e: NoveltyError) {
    && k < |fields| <= MAX_FIELDS && (k > 0 ==> ValidFields(fields[..k]))
    && var f := fields[k];
       if !ValidName(f.name) then e == InvalidFieldName(f.name)
       else if exists i :: 0 <= i < k && fields[i].name == f.name then e == DuplicateFieldName(f.name)
       else f.role.Novel? && f.bytes == [] && e == EmptyNovelField(f.name)
  }

  method CheckFields(fields: seq<Field>) returns (e: Option<NoveltyError>)
    ensures e.None? <==> ValidFields(fields)
    ensures e == Some(EmptyFields) <==> fields == []
    ensures e == Some(TooManyFields) <==> |fields| > MAX_FIELDS
    ensures e.Some? && 0 < |fields| <= MAX_FIELDS ==> exists k: nat :: RefusedAt(fields, k, e.value)
  {
    if fields == [] {
      return Some(EmptyFields);
    }
    if |fields| > MAX_FIELDS {
      return Some(TooManyFields);
    }
    var names: set<Bytes> := {};
    for k := 0 to |fields|
      invariant forall i :: 0 <= i < k ==>
                ValidName(fields[i].name) && (fields[i].role.Novel? ==> fields[i].bytes != [])
      invariant forall i, j :: 0 <= i < j < k ==> fields[i].name != fields[j].name
      invariant forall n :: n in names <==> exists i :: 0 <= i < k && fields[i].name == n
    {
      var f := fields[k];
      if !ValidName(f.name) {
        assert RefusedAt(fields, k, InvalidFieldName(f.name));
        return Some(InvalidFieldName(f.name));
      }
      if f.name in names {
        assert RefusedAt(fields, k, DuplicateFieldName(f.name));
        return Some(DuplicateFieldName(f.name));
      }
      names := names + {f.name};
      if f.role.Novel? && f.bytes == [] {
        assert RefusedAt(fields, k, EmptyNovelField(f.name));
        return Some(EmptyNovelField(f.name));
      }
    }
    e := None;
  }

  datatype Coding = Coding(ids: Identities, fields: seq<Field>, encoded: Bytes, encodedTokens: nat,
                           receipts: seq<FieldReceipt>)

  /** The counters stay within the size of the encoding, so counting cannot overflow. */
  ghost predicate Bounded(t: Tally, fields: nat, bytes: nat) {
    t.fields <= fields && t.bytes <= bytes && t.tokens <= bytes
  }

  lemma FieldWithinSize(fields: seq<Field>, k: nat)
    requires k < |fields| && |Coded(fields, FieldItem)| <= MAX_ENCODED_BYTES
    ensures |Coded(fields[..k], FieldItem)| + |fields[k].bytes| <= |Coded(fields[..k + 1], FieldItem)| <=
            MAX_ENCODED_BYTES
  {
    CodedStep([], fields, FieldItem, k);
    CodedGrows(fields, FieldItem, k + 1);
  }

  ghost predicate AllBounded(totals: Totals, fields: seq<Field>, k: nat)
    requires k <= |fields|
    reads totals
  {
    forall role: Role :: Bounded(totals.Of(role), k, |Coded(fields[..k], FieldItem)|)
  }

  ghost predicate Tallies(totals: Totals, receipts: seq<FieldReceipt>)
    reads totals
  {
    forall role: Role :: totals.Of(role) == TallyOf(receipts, role)
  }

  lemma NothingCounted(totals: Totals, fields: seq<Field>)
    requires forall role: Role :: totals.Of(role) == Tally(0, 0, 0)
    ensures Tallies(totals, []) && AllBounded(totals, fields, 0)
  {
  }

  /** Tokenizes and counts each field; the counters end up as the sums over the receipts, and can be refused
      only by the tokenizer. */
  method Account(adapter: Adapter, fields: seq<Field>, sha: Bytes -> Digest, totals: Totals)
    returns (r: Result<seq<FieldReceipt>, NoveltyError>)
    requires |Coded(fields, FieldItem)| <= MAX_ENCODED_BYTES && |fields| <= MAX_FIELDS
    requires forall role: Role :: totals.Of(role) == Tally(0, 0, 0)
    modifies totals
    ensures r.Ok? <==> forall i :: 0 <= i < |fields| ==> Tokenized(adapter, fields[i].bytes).Ok?
    ensures r.Err? ==> r.error.MapRefused?
    ensures r.Ok? ==>
              && |r.value| == |fields|
              && (forall i :: 0 <= i < |fields| ==> IsReceiptOf(adapter, sha, fields[i], r.value[i]))
              && Tallies(totals, r.value)
  {
    var receipts: seq<FieldReceipt> := [];
    NothingCounted(totals, fields);
    for k := 0 to |fields|
      invariant |receipts| == k
      invariant forall i :: 0 <= i < k ==> IsReceiptOf(adapter, sha, fields[i], receipts[i])
      invariant Tallies(totals, receipts) && AllBounded(totals, fields, k)
    {
      var receipt := CountNext(adapter, fields, k, sha, totals, receipts);
      if receipt.Err? {
        return Err(receipt.error);
      }
      receipts := receipts + [receipt.value];
      assert forall i :: 0 <= i < k ==> IsReceiptOf(adapter, sha, fields[i], receipts[i]);
    }
    r := Ok(receipts);
  }

  method CountNext(adapter: Adapter, fields: seq<Field>, k: nat, sha: Bytes -> Digest, totals: Totals,
                   ghost receipts: seq<FieldReceipt>)
    returns (r: Result<FieldReceipt, NoveltyError>)
    requires |Coded(fields, FieldItem)| <= MAX_ENCODED_BYTES && k < |fields| <= MAX_FIELDS
    requires Tallies(totals, receipts) && AllBounded(totals, fields, k)
    modifies totals
    ensures r.Ok? <==> Tokenized(adapter, fields[k].bytes).Ok?
    ensures r.Err? ==> r.error.MapRefused?
    ensures r.Ok? ==> IsReceiptOf(adapter, sha, fields[k], r.value)
    ensures r.Ok? ==> Tallies(totals, receipts + [r.value]) && AllBounded(totals, fields, k + 1)
  {
    var f := fields[k];
    var tokens := Tokenize(adapter, f.bytes);
    if tokens.Err? {
      return Err(MapRefused(tokens.error));
    }
    FieldWithinSize(fields, k);
    TokensFewerThanBytes(tokens.value);
    if |f.bytes| > U64_MAX || |tokens.value| > U64_MAX {
      return Err(NoveltyLengthOverflow);
    }
    var receipt := FieldReceipt(f.name, f.role, sha(f.bytes), |f.bytes|, |tokens.value|);
    var counted :=
        AddReceipt(totals, receipt, receipts, k, |Coded(fields[..k], FieldItem)|, |Coded(fields[..k + 1], FieldItem)|);
    if !counted {
      return Err(AccountingOverflow);
    }
    r := Ok(receipt);
  }

  method AddReceipt(totals: Totals, receipt: FieldReceipt, ghost receipts: seq<FieldReceipt>,
                    ghost k: nat, ghost before: nat, ghost after: nat)
    returns (ok: bool)
    requires Tallies(totals, receipts) && forall role: Role :: Bounded(totals.Of(role), k, before)
    requires receipt.tokens <= receipt.payloadBytes && before + receipt.payloadBytes <= after
    requires k < MAX_FIELDS && after <= MAX_ENCODED_BYTES
    modifies totals
    ensures ok && Tallies(totals, receipts + [receipt]) && forall role: Role :: Bounded(totals.Of(role), k + 1, after)
  {
    assert Bounded(totals.Of(receipt.role), k, before);
    ok := totals.Add(receipt.role, receipt.payloadBytes, receipt.tokens);
    assert (receipts + [receipt])[..|receipts|] == receipts;
  }

  ghost predicate IsReceiptOf(adapter: Adapter, sha: Bytes -> Digest, f: Field, receipt: FieldReceipt) {
    && receipt.name == f.name && receipt.role == f.role
    && receipt.digest == sha(f.bytes) && receipt.payloadBytes == |f.bytes|
    && Tokenized(adapter, f.bytes).Ok? && receipt.tokens == |Tokenized(adapter, f.bytes).value|
  }

  predicate IsZero(d: Digest) {
    forall i :: 0 <= i < |d| ==> d[i] == 0
  }

  /** Exactly what can be encoded. */
  ghost predicate Encodable(adapter: Adapter, ids: Identities, fields: seq<Field>) {
    && !IsZero(ids.classification) && !IsZero(ids.effect) && !IsZero(ids.verification)
    && ValidFields(fields)
    && |Encoded(ids, fields)| <= MAX_ENCODED_BYTES
    && Tokenized(adapter, Encoded(ids, fields)).Ok?
    && forall i :: 0 <= i < |fields| ==> Tokenized(adapter, fields[i].bytes).Ok?
  }

  method Encode(adapter: Adapter, ids: Identities, fields: seq<Field>, sha: Bytes -> Digest)
    returns (r: Result<Coding, NoveltyError>, totals: Totals)
    ensures fresh(totals)
    ensures r.Ok? <==> Encodable(adapter, ids, fields)
    ensures r.Err? ==> !r.error.EncodingMismatch? && !r.error.AccountingOverflow?
    ensures r.Err? && r.error.EncodedByteLimit? ==> r.error.actual == |Encoded(ids, fields)| > MAX_ENCODED_BYTES
    ensures r.Ok? ==>
              && r.value.ids == ids && r.value.fields == fields && ValidFields(fields)
              && r.value.encoded == Encoded(ids, fields) && |r.value.encoded| <= MAX_ENCODED_BYTES
              && Tallies(totals, r.value.receipts)
              && |r.value.receipts| == |fields|
              && (forall i :: 0 <= i < |fields| ==> IsReceiptOf(adapter, sha, fields[i], r.value.receipts[i]))
  {
    totals := new Totals();
    if IsZero(ids.classification) {
      return Err(ZeroIdentity("classification authority")), totals;
    }
    if IsZero(ids.effect) {
      return Err(ZeroIdentity("selected effect")), totals;
    }
    if IsZero(ids.verification) {
      return Err(ZeroIdentity("verification receipt")), totals;
    }
    var refused := CheckFields(fields);
    if refused.Some? {
      return Err(refused.value), totals;
    }
    var expected := EncodedLen(fields);
    if expected.Err? {
      return Err(expected.error), totals;
    }
    EncodedSize(ids, fields);
    if expected.value > MAX_ENCODED_BYTES {
      return Err(EncodedByteLimit(expected.value)), totals;
    }
    SmallFieldsFit(ids, fields);
    var encoded := EncodeFields(ids, fields);
    // The limit inside the loop cannot fire: the size was checked ahead.
    assert encoded.Ok?;
    var tokens := Tokenize(adapter, encoded.value);
    if tokens.Err? {
      return Err(MapRefused(tokens.error)), totals;
    }
    var receipts := Account(adapter, fields, sha, totals);
    if receipts.Err? {
      return Err(receipts.error), totals;
    }
    r := Ok(Coding(ids, fields, encoded.value, |tokens.value|, receipts.value));
  }

  /** Fields of an encoding within the size bound all have lengths that fit. */
  lemma SmallFieldsFit(ids: Identities, fields: seq<Field>)
    requires |Encoded(ids, fields)| <= MAX_ENCODED_BYTES
    ensures AllFieldsFit(fields)
  {
    forall i | 0 <= i < |fields|
      ensures FieldFits(fields[i])
    {
      CodedStep([], fields, FieldItem, i);
      CodedGrows(fields, FieldItem, i + 1);
    }
  }

  /** Reconstruction re-encodes the retained fields; for a coding that `Encode` made it always gives them back. */
  method ReconstructFields(coding: Coding) returns (r: Result<seq<Field>, NoveltyError>)
    ensures r.Ok? ==> r.value == coding.fields && coding.encoded == Encoded(coding.ids, coding.fields)
    ensures coding.encoded == Encoded(coding.ids, coding.fields) && |coding.encoded| <= MAX_ENCODED_BYTES ==>
              r == Ok(coding.fields)
  {
    if coding.encoded == Encoded(coding.ids, coding.fields) && |coding.encoded| <= MAX_ENCODED_BYTES {
      SmallFieldsFit(coding.ids, coding.fields);
    }
    var encoded := EncodeFields(coding.ids, coding.fields);
    if encoded.Err? {
      return Err(encoded.error);
    }
    if encoded.value != coding.encoded {
      return Err(EncodingMismatch);
    }
    r := Ok(coding.fields);
  }
}
