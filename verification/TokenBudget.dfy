/** Enforcing a visible token budget (tokens.rs): whole entries of a JSON value, or whole lines after the lossy
    marker. The token counter, the JSON parser and serializer are foreign or selected at start-up, and enter
    as parameters. */
module TokenBudget {
  import opened LineText
  import opened Sequences
  import opened Text
  import opened Wrappers

  /** An object entry: its key, and key and value as serialized again. */
  datatype Entry = Entry(key: string, keyText: string, valueText: string)

  datatype Parsed = NotJson | Object(entries: seq<Entry>) | Array(items: seq<string>) | Scalar

  const ELISION_KEY := "__tokenzero_elision__"

  const MODE_LOSSY := "mode=lossy"

  const LOSSY_POLICY := "lossy_policy_id="

  const POLICY_ID := "tokenzero.visible-compression.v1"

  const LOSSY_SPANS :=
    " lossy_spans=[{description=omitted-bytes reason=visible-budget recovery_may_be_needed=true}]]"

  const VISIBLE_BUDGET_LOSSY_DECLARATION := "[" + MODE_LOSSY + (" " + LOSSY_POLICY + (POLICY_ID + LOSSY_SPANS))

  /** What budgeting depends on: the active counter, the JSON library, the sentinel it serializes for a recovery
      reference, and the lossy declaration. */
  datatype Kernel = Kernel(
    count: string -> nat, parse: string -> Parsed, sentinel: Option<string> -> string, keyText: string,
    declaration: string)

  function Marker(kernel: Kernel, recoveryRef: Option<string>): (m: string)
    ensures kernel.declaration <= m
  {
    match recoveryRef
    case None => kernel.declaration
    case Some(r) => kernel.declaration +
                    (" recovery_ref=" + r + ";                  expand " + r + " for the full output")
  }

  // ----- growing a prefix -----

  /** `open`, then the first `k` parts, each after the separator. */
  function Keeping(open: string, separator: string, parts: seq<string>, k: nat): string
    requires k <= |parts|
  {
    if k == 0 then open else Keeping(open, separator, parts, k - 1) + separator + parts[k - 1]
  }

  function Kept(open: string, separator: string, parts: seq<string>, close: string, k: nat): string
    requires k <= |parts|
  {
    Keeping(open, separator, parts, k) + close
  }

  predicate Fits(count: string -> nat, budget: nat, text: string) {
    count(text) <= budget
  }

  /** How many parts are kept: one at a time while they fit, up to the limit. */
  function Extent(count: string -> nat, open: string, separator: string, parts: seq<string>, close: string,
                  budget: nat, limit: nat, k: nat): (n: nat)
    requires k <= limit <= |parts|
    ensures k <= n <= limit
    ensures forall j :: k < j <= n ==> Fits(count, budget, Kept(open, separator, parts, close, j))
    ensures n < limit ==> !Fits(count, budget, Kept(open, separator, parts, close, n + 1))
    decreases limit - k
  {
    if k < limit && Fits(count, budget, Kept(open, separator, parts, close, k + 1))
    then Extent(count, open, separator, parts, close, budget, limit, k + 1)
    else k
  }

  method Grow(count: string -> nat, open: string, separator: string, parts: seq<string>, close: string, budget: nat,
              limit: nat)
    returns (out: string)
    requires limit <= |parts|
    ensures out == Keeping(open, separator, parts, Extent(count, open, separator, parts, close, budget, limit, 0))
  {
    ghost var extent := Extent(count, open, separator, parts, close, budget, limit, 0);
    out := open;
    for k := 0 to limit
      invariant out == Keeping(open, separator, parts, k)
      invariant extent == Extent(count, open, separator, parts, close, budget, limit, k)
    {
      var longer := out + separator + parts[k];
      assert longer == Keeping(open, separator, parts, k + 1);
      if count(longer + close) > budget {
        return;
      }
      out := longer;
    }
  }

  // ----- JSON elision -----

  /** A top-level value ready for elision: its opening with the sentinel, its entries, and its closing. */
  datatype Shape = Shape(open: string, parts: seq<string>, close: string)

  function EntryText(e: Entry): string {
    e.keyText + ":" + e.valueText
  }

  /** The shape of an object or array, unless an object already has the sentinel's key. */
  function ShapeOf(kernel: Kernel, value: Parsed, recoveryRef: Option<string>): Option<Shape> {
    var sentinel := kernel.keyText + ":" + kernel.sentinel(recoveryRef);
    match value
    case Object(entries) =>
      if exists i :: 0 <= i < |entries| && entries[i].key == ELISION_KEY then None
      else Some(Shape("{" + sentinel, seq(|entries|, i requires 0 <= i < |entries| => EntryText(entries[i])), "}"))
    case Array(items) => Some(Shape("[{" + sentinel + "}", items, "]"))
    case _ => None
  }

  /** All entries but the last may be kept. */
  function Limit(shape: Shape): (n: nat)
    ensures n <= |shape.parts| && (shape.parts != [] ==> n < |shape.parts|)
  {
    if shape.parts == [] then 0 else |shape.parts| - 1
  }

  function ElidedCount(kernel: Kernel, shape: Shape, budget: nat): (n: nat)
    ensures n <= |shape.parts| && (shape.parts != [] ==> n < |shape.parts|)
  {
    Extent(kernel.count, shape.open, ",", shape.parts, shape.close, budget, Limit(shape), 0)
  }

  function ElidedWith(shape: Shape, k: nat): string
    requires k <= |shape.parts|
  {
    Kept(shape.open, ",", shape.parts, shape.close, k)
  }

  function Elided(kernel: Kernel, text: string, budget: nat, recoveryRef: Option<string>): Option<string> {
    match ShapeOf(kernel, kernel.parse(text), recoveryRef)
    case None => None
    case Some(shape) =>
      if Fits(kernel.count, budget, ElidedWith(shape, 0))
         then Some(ElidedWith(shape, ElidedCount(kernel, shape, budget))) else None
  }

  method ElideTopLevelJson(kernel: Kernel, text: string, budget: nat, recoveryRef: Option<string>)
    returns (r: Option<string>)
    ensures r == Elided(kernel, text, budget, recoveryRef)
  {
    var shape := ShapeOf(kernel, kernel.parse(text), recoveryRef);
    if shape.None? {
      return None;
    }
    var Shape(open, parts, close) := shape.value;
    if kernel.count(open + close) > budget {
      return None;
    }
    var out := Grow(kernel.count, open, ",", parts, close, budget, Limit(shape.value));
    r := Some(out + close);
  }

  /** Elision keeps a longest run of first entries that fits, and drops at least one of a non-empty value. */
  lemma ElisionKeepsPrefix(kernel: Kernel, text: string, budget: nat, recoveryRef: Option<string>)
    requires Elided(kernel, text, budget, recoveryRef).Some?
    ensures var shape := ShapeOf(kernel, kernel.parse(text), recoveryRef);
            shape.Some? &&
            var k := ElidedCount(kernel, shape.value, budget);
            && Elided(kernel, text, budget, recoveryRef) == Some(ElidedWith(shape.value, k))
            && (forall j: nat :: j <= k ==> Fits(kernel.count, budget, ElidedWith(shape.value, j)))
            && (shape.value.parts != [] ==> k < |shape.value.parts|)
            && (k + 1 < |shape.value.parts| ==> !Fits(kernel.count, budget, ElidedWith(shape.value, k + 1)))
  {
    var shape := ShapeOf(kernel, kernel.parse(text), recoveryRef).value;
    assert Fits(kernel.count, budget, ElidedWith(shape, 0));
    forall j: nat | j <= ElidedCount(kernel, shape, budget)
      ensures Fits(kernel.count, budget, ElidedWith(shape, j))
    {
      if j > 0 {
        assert Fits(kernel.count, budget, Kept(shape.open, ",", shape.parts, shape.close, j));
      }
    }
  }

  // ----- plain text -----

  function RetainedCount(kernel: Kernel, text: string, budget: nat, marker: string): (n: nat)
    ensures n <= |SplitInclusive(text)|
  {
    var lines := SplitInclusive(text);
    Extent(kernel.count, marker, "\n", lines, "", budget, |lines|, 0)
  }

  function Retained(kernel: Kernel, text: string, budget: nat, marker: string): string {
    Keeping(marker, "\n", SplitInclusive(text), RetainedCount(kernel, text, budget, marker))
  }

  method RetainPlainLinesAfterMarker(kernel: Kernel, text: string, budget: nat, marker: string) returns (out: string)
    ensures out == Retained(kernel, text, budget, marker)
  {
    var lines := SplitInclusive(text);
    out := Grow(kernel.count, marker, "\n", lines, "", budget, |lines|);
  }

  lemma {:induction false} KeepingOpens(open: string, separator: string, parts: seq<string>, k: nat)
    requires k <= |parts|
    ensures open <= Keeping(open, separator, parts, k)
    decreases k
  {
    if k > 0 {
      KeepingOpens(open, separator, parts, k - 1);
    }
  }

  // ----- what the result is -----

  /** The parts, each after the separator. */
  function Each(separator: string, parts: seq<string>): string {
    if parts == [] then "" else separator + parts[0] + Each(separator, parts[1..])
  }

  function WithFirst(open: string, separator: string, parts: seq<string>, close: string, k: nat): string
    requires k <= |parts|
  {
    open + Each(separator, parts[..k]) + close
  }

  /** The first `k` of the parts are kept: with each of them the text still fits, and with one more it would not, as
      far as one more may be kept. */
  ghost predicate KeepsFirst(count: string -> nat, budget: nat, open: string, separator: string, parts: seq<string>,
                             close: string, limit: nat, k: nat, r: string)
    requires limit <= |parts|
  {
    && k <= limit && r == WithFirst(open, separator, parts, close, k)
    && (forall j: nat :: j <= k ==> count(WithFirst(open, separator, parts, close, j)) <= budget)
    && (k < limit ==> count(WithFirst(open, separator, parts, close, k + 1)) > budget)
  }

  ghost predicate KeepsMost(count: string -> nat, budget: nat, open: string, separator: string, parts: seq<string>,
                            close: string, limit: nat, r: string)
    requires limit <= |parts|
  {
    exists k: nat :: KeepsFirst(count, budget, open, separator, parts, close, limit, k, r)
  }

  ghost predicate KeepsLines(kernel: Kernel, text: string, budget: nat, marker: string, r: string) {
    exists lines :: AreLines(lines, text) && KeepsMost(kernel.count, budget, marker, "\n", lines, "", |lines|, r)
  }

  ghost predicate Spell(parts: seq<string>, entries: seq<Entry>) {
    && |parts| == |entries|
    && forall i :: 0 <= i < |parts| ==> parts[i] == entries[i].keyText + ":" + entries[i].valueText
  }

  /** The entries of an object or array behind the sentinel, the last of them always left out, or the marker where the
      sentinel alone does not fit. */
  ghost predicate KeepsEntries(kernel: Kernel, open: string, parts: seq<string>, close: string, budget: nat,
                               marker: string, r: string) {
    if kernel.count(open + close) > budget then r == marker
    else KeepsMost(kernel.count, budget, open, ",", parts, close, if parts == [] then 0 else |parts| - 1, r)
  }

  ghost predicate KeepsFields(kernel: Kernel, open: string, entries: seq<Entry>, budget: nat, marker: string,
                              r: string) {
    exists parts :: Spell(parts, entries) && KeepsEntries(kernel, open, parts, "}", budget, marker, r)
  }

  /** What budgeting promises of its result. */
  ghost predicate Budgeted(kernel: Kernel, text: string, budget: nat, recoveryRef: Option<string>, r: string) {
    var marker := Marker(kernel, recoveryRef);
    var sentinel := kernel.keyText + ":" + kernel.sentinel(recoveryRef);
    if kernel.count(text) <= budget then r == text
    else
      match kernel.parse(text)
      case Object(entries) =>
        if exists i :: 0 <= i < |entries| && entries[i].key == ELISION_KEY then r == marker
        else KeepsFields(kernel, "{" + sentinel, entries, budget, marker, r)
      case Array(items) => KeepsEntries(kernel, "[{" + sentinel + "}", items, "]", budget, marker, r)
      case _ => if kernel.count(marker) > budget then r == marker else KeepsLines(kernel, text, budget, marker, r)
  }

  lemma {:induction false} EachAppend(separator: string, parts: seq<string>, part: string)
    ensures Each(separator, parts + [part]) == Each(separator, parts) + (separator + part)
  {
    if parts == [] {
      assert Each(separator, [part][1..]) == "";
      assert separator + part + "" == "" + (separator + part);
    } else {
      assert (parts + [part])[1..] == parts[1..] + [part];
      EachAppend(separator, parts[1..], part);
      Regroup(separator + parts[0], Each(separator, parts[1..]), separator + part);
    }
  }

  lemma {:induction false} KeepingIsEach(open: string, separator: string, parts: seq<string>, k: nat)
    requires k <= |parts|
    ensures Keeping(open, separator, parts, k) == open + Each(separator, parts[..k])
  {
    if k == 0 {
      assert open + "" == open;
    } else {
      KeepingIsEach(open, separator, parts, k - 1);
      assert parts[..k] == parts[..k - 1] + [parts[k - 1]];
      EachAppend(separator, parts[..k - 1], parts[k - 1]);
      Regroup(open, Each(separator, parts[..k - 1]), separator + parts[k - 1]);
      Regroup(open + Each(separator, parts[..k - 1]), separator, parts[k - 1]);
    }
  }

  lemma KeptIsEach(open: string, separator: string, parts: seq<string>, close: string, k: nat)
    requires k <= |parts|
    ensures Kept(open, separator, parts, close, k) == WithFirst(open, separator, parts, close, k)
  {
    KeepingIsEach(open, separator, parts, k);
  }

  /** Growing keeps the most. */
  lemma ExtentKeepsMost(count: string -> nat, budget: nat, open: string, separator: string, parts: seq<string>,
                        close: string, limit: nat)
    requires limit <= |parts| && Fits(count, budget, open + close)
    ensures var n := Extent(count, open, separator, parts, close, budget, limit, 0);
            KeepsMost(count, budget, open, separator, parts, close, limit, Kept(open, separator, parts, close, n))
  {
    var n := Extent(count, open, separator, parts, close, budget, limit, 0);
    forall j: nat | j <= |parts|
      ensures Kept(open, separator, parts, close, j) == WithFirst(open, separator, parts, close, j)
    {
      KeptIsEach(open, separator, parts, close, j);
    }
    assert Kept(open, separator, parts, close, 0) == open + close;
    assert KeepsFirst(count, budget, open, separator, parts, close, limit, n,
                      Kept(open, separator, parts, close, n));
  }

  lemma RetainedKeepsLines(kernel: Kernel, text: string, budget: nat, marker: string)
    requires Fits(kernel.count, budget, marker)
    ensures KeepsLines(kernel, text, budget, marker, Retained(kernel, text, budget, marker))
  {
    var lines := SplitInclusive(text);
    var kept := Retained(kernel, text, budget, marker);
    assert marker + "" == marker && kept + "" == kept;
    ExtentKeepsMost(kernel.count, budget, marker, "\n", lines, "", |lines|);
    SplitGivesLines(text);
  }

  lemma ElidedKeepsEntries(kernel: Kernel, shape: Shape, budget: nat, marker: string)
    ensures KeepsEntries(kernel, shape.open, shape.parts, shape.close, budget, marker,
                         if Fits(kernel.count, budget, ElidedWith(shape, 0))
                         then ElidedWith(shape, ElidedCount(kernel, shape, budget)) else marker)
  {
    if Fits(kernel.count, budget, ElidedWith(shape, 0)) {
      ExtentKeepsMost(kernel.count, budget, shape.open, ",", shape.parts, shape.close, Limit(shape));
    }
  }

  lemma ShapeIsWritten(kernel: Kernel, value: Parsed, recoveryRef: Option<string>)
    ensures var shape := ShapeOf(kernel, value, recoveryRef);
            value.Object? && shape.Some? ==> Spell(shape.value.parts, value.entries)
  {
  }

  /** Plain text over the budget becomes the marker and the most first lines that fit with it. */
  lemma PlainIsBudgeted(kernel: Kernel, text: string, budget: nat, recoveryRef: Option<string>)
    requires kernel.count(text) > budget && !kernel.parse(text).Object? && !kernel.parse(text).Array?
    ensures var marker, r := Marker(kernel, recoveryRef), Enforced(kernel, text, budget, recoveryRef);
            if kernel.count(marker) > budget then r == marker else KeepsLines(kernel, text, budget, marker, r)
  {
    var marker := Marker(kernel, recoveryRef);
    if Fits(kernel.count, budget, marker) {
      assert Enforced(kernel, text, budget, recoveryRef) == Retained(kernel, text, budget, marker);
      RetainedKeepsLines(kernel, text, budget, marker);
    }
  }

  /** An object or array over the budget keeps the most first entries that fit behind the sentinel. */
  lemma StructuredIsBudgeted(kernel: Kernel, text: string, budget: nat, recoveryRef: Option<string>)
    requires kernel.count(text) > budget && (kernel.parse(text).Object? || kernel.parse(text).Array?)
    ensures Budgeted(kernel, text, budget, recoveryRef, Enforced(kernel, text, budget, recoveryRef))
  {
    var marker, value := Marker(kernel, recoveryRef), kernel.parse(text);
    var shape := ShapeOf(kernel, value, recoveryRef);
    if shape.Some? {
      ElidedKeepsEntries(kernel, shape.value, budget, marker);
      ShapeIsWritten(kernel, value, recoveryRef);
    }
  }

  lemma NamedIn(d: string, p: string, part: string, tail: string)
    ensures Contains(d + (p + part + tail), part)
  {
    ContainsMiddle(d + p, part, tail);
    assert d + (p + part + tail) == (d + p) + part + tail;
  }

  lemma NamedTwice(d: string, p: string, x: string, q: string, y: string, r: string, tail: string)
    ensures Contains(d + (p + x + r + (q + y) + r + tail), x + r)
    ensures Contains(d + (p + x + r + (q + y) + r + tail), y + r)
  {
    NamedIn(d, p, x + r, q + y + r + tail);
    assert p + (x + r) + (q + y + r + tail) == p + x + r + (q + y) + r + tail;
    NamedIn(d, p + x + r + q, y + r, tail);
    assert (p + x + r + q) + (y + r) + tail == p + x + r + (q + y) + r + tail;
  }

  /** The reference is named twice: as such, and as what to expand. */
  lemma MarkerNames(kernel: Kernel, reference: string)
    ensures Contains(Marker(kernel, Some(reference)), "recovery_ref=" + reference)
    ensures Contains(Marker(kernel, Some(reference)), "expand " + reference)
  {
    NamedTwice(kernel.declaration, " ", "recovery_ref=", ";                  ", "expand ", reference,
               " for the full output");
    assert " " + "recovery_ref=" == " recovery_ref=";
    assert ";                  " + "expand " == ";                  expand ";
  }

  lemma EnforcedIsBudgeted(kernel: Kernel, text: string, budget: nat, recoveryRef: Option<string>)
    ensures Budgeted(kernel, text, budget, recoveryRef, Enforced(kernel, text, budget, recoveryRef))
  {
    var value := kernel.parse(text);
    if kernel.count(text) > budget {
      if value.Object? || value.Array? {
        StructuredIsBudgeted(kernel, text, budget, recoveryRef);
      } else {
        PlainIsBudgeted(kernel, text, budget, recoveryRef);
      }
    }
  }

  // ----- the promise settles the result -----

  lemma MostSettled(count: string -> nat, budget: nat, open: string, separator: string, parts: seq<string>,
                    close: string, limit: nat, r: string, other: string)
    requires limit <= |parts|
    requires KeepsMost(count, budget, open, separator, parts, close, limit, r)
    requires KeepsMost(count, budget, open, separator, parts, close, limit, other)
    ensures r == other
  {
    var k: nat :| KeepsFirst(count, budget, open, separator, parts, close, limit, k, r);
    var n: nat :| KeepsFirst(count, budget, open, separator, parts, close, limit, n, other);
    assert k < limit ==> count(WithFirst(open, separator, parts, close, k + 1)) > budget;
    assert n < limit ==> count(WithFirst(open, separator, parts, close, n + 1)) > budget;
  }

  lemma EntriesSettled(kernel: Kernel, open: string, parts: seq<string>, close: string, budget: nat, marker: string,
                       r: string, other: string)
    requires KeepsEntries(kernel, open, parts, close, budget, marker, r)
    requires KeepsEntries(kernel, open, parts, close, budget, marker, other)
    ensures r == other
  {
    if kernel.count(open + close) <= budget {
      MostSettled(kernel.count, budget, open, ",", parts, close, if parts == [] then 0 else |parts| - 1, r, other);
    }
  }

  lemma KeptLinesSettled(kernel: Kernel, text: string, budget: nat, marker: string, r: string, other: string)
    requires KeepsLines(kernel, text, budget, marker, r) && KeepsLines(kernel, text, budget, marker, other)
    ensures r == other
  {
    var lines :| AreLines(lines, text) && KeepsMost(kernel.count, budget, marker, "\n", lines, "", |lines|, r);
    var again :| AreLines(again, text) && KeepsMost(kernel.count, budget, marker, "\n", again, "", |again|, other);
    LinesSettled(lines, again, text);
    MostSettled(kernel.count, budget, marker, "\n", lines, "", |lines|, r, other);
  }

  /** Exactly one text keeps what budgeting promises. */
  lemma BudgetedIsUnique(kernel: Kernel, text: string, budget: nat, recoveryRef: Option<string>, r: string)
    ensures Budgeted(kernel, text, budget, recoveryRef, r) <==> r == Enforced(kernel, text, budget, recoveryRef)
  {
    EnforcedIsBudgeted(kernel, text, budget, recoveryRef);
    if Budgeted(kernel, text, budget, recoveryRef, r) && kernel.count(text) > budget {
      BudgetedSettled(kernel, text, budget, recoveryRef, r, Enforced(kernel, text, budget, recoveryRef));
    }
  }

  lemma BudgetedSettled(kernel: Kernel, text: string, budget: nat, recoveryRef: Option<string>, r: string,
                        other: string)
    requires kernel.count(text) > budget
    requires Budgeted(kernel, text, budget, recoveryRef, r) && Budgeted(kernel, text, budget, recoveryRef, other)
    ensures r == other
  {
    var marker := Marker(kernel, recoveryRef);
    var sentinel := kernel.keyText + ":" + kernel.sentinel(recoveryRef);
    match kernel.parse(text)
    case Object(entries) =>
      if !(exists i :: 0 <= i < |entries| && entries[i].key == ELISION_KEY) {
        var parts :| Spell(parts, entries) && KeepsEntries(kernel, "{" + sentinel, parts, "}", budget, marker, r);
        var again :| Spell(again, entries) && KeepsEntries(kernel, "{" + sentinel, again, "}", budget, marker, other);
        assert parts == again;
        EntriesSettled(kernel, "{" + sentinel, parts, "}", budget, marker, r, other);
      }
    case Array(items) => EntriesSettled(kernel, "[{" + sentinel + "}", items, "]", budget, marker, r, other);
    case _ =>
      if kernel.count(marker) <= budget {
        KeptLinesSettled(kernel, text, budget, marker, r, other);
      }
  }

  // ----- the budget -----

  function Enforced(kernel: Kernel, text: string, budget: nat, recoveryRef: Option<string>): string {
    var marker := Marker(kernel, recoveryRef);
    if Fits(kernel.count, budget, text) then text
    else if Elided(kernel, text, budget, recoveryRef).Some? then Elided(kernel, text, budget, recoveryRef).value
    else if kernel.parse(text).Object? || kernel.parse(text).Array? then marker
    else if !Fits(kernel.count, budget, marker) then marker
    else Retained(kernel, text, budget, marker)
  }

  method EnforceTokenBudgetWithRef(kernel: Kernel, text: string, budget: nat, recoveryRef: Option<string>)
    returns (r: string)
    ensures r == Enforced(kernel, text, budget, recoveryRef)
    ensures Budgeted(kernel, text, budget, recoveryRef, r)
  {
    EnforcedIsBudgeted(kernel, text, budget, recoveryRef);
    if kernel.count(text) <= budget {
      return text;
    }
    var marker := Marker(kernel, recoveryRef);
    var markerTokens := kernel.count(marker);
    var json := ElideTopLevelJson(kernel, text, budget, recoveryRef);
    if json.Some? {
      return json.value;
    }
    var value := kernel.parse(text);
    if value.Object? || value.Array? {
      return marker;
    }
    if markerTokens > budget {
      return marker;
    }
    r := RetainPlainLinesAfterMarker(kernel, text, budget, marker);
  }

  /** The result never costs more than the larger of the budget and the marker. */
  lemma BudgetIsKept(kernel: Kernel, text: string, budget: nat, recoveryRef: Option<string>)
    ensures var cost := kernel.count(Enforced(kernel, text, budget, recoveryRef));
            cost <= budget || (!Fits(kernel.count, budget, text) && cost == kernel.count(Marker(kernel, recoveryRef)))
  {
    var marker := Marker(kernel, recoveryRef);
    if Elided(kernel, text, budget, recoveryRef).Some? {
      ElisionKeepsPrefix(kernel, text, budget, recoveryRef);
    } else {
      var lines, n := SplitInclusive(text), RetainedCount(kernel, text, budget, marker);
      if n > 0 {
        assert Fits(kernel.count, budget, Kept(marker, "\n", lines, "", n));
        assert Kept(marker, "\n", lines, "", n) == Retained(kernel, text, budget, marker);
      }
    }
  }

  /** Plain text over the budget is cut to the marker and a longest run of first lines that fits with it. */
  lemma RetentionKeepsFirstLines(kernel: Kernel, text: string, budget: nat, marker: string)
    ensures var lines := SplitInclusive(text);
            var n := RetainedCount(kernel, text, budget, marker);
            && Retained(kernel, text, budget, marker) == Keeping(marker, "\n", lines, n)
            && (n < |lines| ==> !Fits(kernel.count, budget, Keeping(marker, "\n", lines, n + 1)))
            && Concat(lines) == text
            && marker <= Retained(kernel, text, budget, marker)
  {
    var lines, n := SplitInclusive(text), RetainedCount(kernel, text, budget, marker);
    LinesSpellText(text);
    KeepingOpens(marker, "\n", lines, n);
    if n < |lines| {
      assert Kept(marker, "\n", lines, "", n + 1) == Keeping(marker, "\n", lines, n + 1);
    }
  }
}
