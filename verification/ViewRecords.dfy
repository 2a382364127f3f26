/** The labelled records inside section payloads (decision_view.rs): "label decimal-length LF value LF", and
    counted lists of them. */
module ViewRecords {
  import opened DecisionFrames
  import opened Encoding
  import opened Machine
  import opened Sections
  import opened Sequences
  import opened Wrappers

  function LabelHead(name: string): Bytes {
    Ascii(name) + [SPACE]
  }

  function Record(name: string, value: Bytes): Bytes {
    LabelHead(name) + FrameTail(value)
  }

  function RecordWith(name: string): Bytes -> Bytes {
    (value: Bytes) => Record(name, value)
  }

  /** A labelled count, then a record for each value. */
  function RecordList(listName: string, name: string, values: seq<Bytes>): Bytes {
    LabelHead(listName) + (Decimal(|values|) + ([LF] + Coded(values, RecordWith(name))))
  }

  /** Appends one record, unless the payload would outgrow the view's bound. */
  method PutRecord(out: Buffer, name: string, value: Bytes) returns (ok: bool)
    modifies out
    ensures ok <==> |old(out.content)| + |Record(name, value)| <= MAX_VIEW_BYTES
    ensures out.content == if ok then old(out.content) + Record(name, value) else old(out.content)
  {
    var header := LabelHead(name) + (Decimal(|value|) + [LF]);
    HeaderOpensRecord(name, value);
    var projected := |out.content| + |header| + |value| + 1;
    if projected > MAX_VIEW_BYTES {
      return false;
    }
    out.Extend(header, value + [LF]);
    out.Extend(value, [LF]);
    out.Extend([LF], []);
    ok := true;
  }

  lemma HeaderOpensRecord(name: string, value: Bytes)
    ensures LabelHead(name) + (Decimal(|value|) + [LF]) + (value + [LF]) == Record(name, value)
  {
    Regroup(LabelHead(name), Decimal(|value|) + [LF], value + [LF]);
    Regroup(Decimal(|value|), [LF], value + [LF]);
  }

  /** Appends a counted list of records, within the same bound. */
  method PutRecordList(out: Buffer, listName: string, name: string, values: seq<Bytes>) returns (ok: bool)
    modifies out
    ensures ok <==> |old(out.content)| + |RecordList(listName, name, values)| <= MAX_VIEW_BYTES
    ensures ok ==> out.content == old(out.content) + RecordList(listName, name, values)
  {
    var head := LabelHead(listName) + (Decimal(|values|) + [LF]);
    ghost var item := RecordWith(name);
    ghost var given := out.content;
    ListParts(listName, name, values);
    CodedGrows(values, item, 0);
    if |out.content| + |head| > MAX_VIEW_BYTES {
      return false;
    }
    out.Extend(head, []);
    ghost var start := out.content;
    CodedNone(start, values, item);
    for i := 0 to |values|
      invariant out.content == start + Coded(values[..i], item) && |out.content| <= MAX_VIEW_BYTES
    {
      CodedStep(start, values, item, i);
      CodedGrows(values, item, i + 1);
      ok := PutRecord(out, name, values[i]);
      if !ok {
        return;
      }
    }
    assert values[..|values|] == values;
    Regroup(given, head, Coded(values, item));
    ok := true;
  }

  lemma ListParts(listName: string, name: string, values: seq<Bytes>)
    ensures RecordList(listName, name, values) ==
            LabelHead(listName) + (Decimal(|values|) + [LF]) + Coded(values, RecordWith(name))
  {
    var items := Coded(values, RecordWith(name));
    Regroup(LabelHead(listName), Decimal(|values|) + [LF], items);
    Regroup(Decimal(|values|), [LF], items);
  }

  /** A framed value can be taken off the front: it says where it ends. */
  lemma CancelFrameTail(a: Bytes, b: Bytes, x: Bytes, y: Bytes)
    requires FrameTail(a) + x == FrameTail(b) + y
    ensures a == b && x == y
  {
    PayloadReadsBack(a, x);
    PayloadReadsBack(b, y);
  }

  lemma RecordApart(name: string, a: Bytes, b: Bytes)
    ensures PrefixApart(Record(name, a), Record(name, b))
    ensures Record(name, a) == Record(name, b) ==> a == b
  {
    var head, x, y := LabelHead(name), Record(name, a), Record(name, b);
    if x <= y {
      var rest := y[|x|..];
      assert x + rest == y + [];
      TakeHead(head, FrameTail(a), rest, FrameTail(b), []);
      CancelFrameTail(a, b, rest, []);
    } else if y <= x {
      var rest := x[|y|..];
      assert y + rest == x + [];
      TakeHead(head, FrameTail(b), rest, FrameTail(a), []);
      CancelFrameTail(b, a, rest, []);
    }
  }

  lemma TakeHead(head: Bytes, a: Bytes, x: Bytes, b: Bytes, y: Bytes)
    requires (head + a) + x == (head + b) + y
    ensures a + x == b + y
  {
    Regroup(head, a, x);
    Regroup(head, b, y);
    CancelFixed(head, head, a + x, b + y);
  }

  lemma CancelDecimal(m: nat, n: nat, x: Bytes, y: Bytes)
    requires Decimal(m) + ([LF] + x) == Decimal(n) + ([LF] + y)
    ensures m == n && x == y
  {
    DecimalRoundTrip(m);
    DecimalRoundTrip(n);
    LeadingDigitsStop(Decimal(m), [LF] + x);
    LeadingDigitsStop(Decimal(n), [LF] + y);
    CancelFixed(Decimal(m), Decimal(n), [LF] + x, [LF] + y);
    CancelFixed([LF], [LF], x, y);
  }

  /** A counted list determines its values, whatever follows it in the payload. */
  lemma RecordListDetermines(listName: string, name: string, a: seq<Bytes>, b: seq<Bytes>, x: Bytes, y: Bytes)
    requires RecordList(listName, name, a) + x == RecordList(listName, name, b) + y
    ensures a == b && x == y
  {
    var item := RecordWith(name);
    var head := LabelHead(listName);
    TakeHead(head, Decimal(|a|) + ([LF] + Coded(a, item)), x, Decimal(|b|) + ([LF] + Coded(b, item)), y);
    Regroup(Decimal(|a|), [LF] + Coded(a, item), x);
    Regroup(Decimal(|b|), [LF] + Coded(b, item), y);
    Regroup([LF], Coded(a, item), x);
    Regroup([LF], Coded(b, item), y);
    CancelDecimal(|a|, |b|, Coded(a, item) + x, Coded(b, item) + y);
    forall i | 0 <= i < |a|
      ensures PrefixApart(item(a[i]), item(b[i])) && (item(a[i]) == item(b[i]) ==> a[i] == b[i])
    {
      RecordApart(name, a[i], b[i]);
    }
    CancelCoded(a, b, item, x, y);
  }
}
