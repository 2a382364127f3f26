/** Capsules (lib.rs): the omission rule, its finalization, and the guard that a capsule never costs more than
    the text it stands for. Which references carry an exact selector is a parameter. */
module Capsules {
  import opened Text
  import opened TokenBudget
  import opened Wrappers

  datatype Mode =
    Auto | Passthrough | Diagnostic | Structured | Dedupe | DiffAware | Exact | Lossy | Hybrid | Critical | Fidelity

  datatype LossySpan = LossySpan(description: string, reason: string, recoveryMayBeNeeded: bool)

  datatype Capsule = Capsule(
    text: string,
    rawTokens: nat,
    visibleTokens: nat,
    omittedLines: nat,
    mode: Mode,
    protectedAnchors: seq<string>,
    exactRefs: seq<string>,
    lossySpans: seq<LossySpan>,
    lossyPolicyId: Option<string>)

  const OMITTED_SPAN := LossySpan(
    "bytes omitted from the visible capsule", "visible token budget or selected compression policy", true)

  const OMISSION_ERROR :=
      "capsule omitted bytes without a protected anchor, exact tz:// selector, or explicit lossy declaration"

  /** A text that carries the lossy declaration. */
  predicate Declares(text: string) {
    Contains(text, MODE_LOSSY) && Contains(text, LOSSY_POLICY)
  }

  predicate Omits(original: string, text: string) {
    TrimEnd(original) != "" && !Contains(text, TrimEnd(original))
  }

  predicate ShowsAnchor(anchors: seq<string>, text: string) {
    exists i :: 0 <= i < |anchors| && anchors[i] != "" && Contains(text, "[[anchor:" + anchors[i] + "]]")
  }

  predicate ShowsRef(refs: seq<string>, text: string, hasSelector: string -> bool) {
    exists i :: 0 <= i < |refs| && hasSelector(refs[i]) && Contains(text, refs[i])
  }

  predicate EachComplete(spans: seq<LossySpan>) {
    forall i :: 0 <= i < |spans| ==> spans[i].description != "" && spans[i].reason != "" && spans[i].recoveryMayBeNeeded
  }

  /** The omission rule: what is left out needs a visible anchor, a visible exact reference or a declaration. */
  predicate OmissionRule(c: Capsule, original: string, hasSelector: string -> bool) {
    || !Omits(original, c.text)
    || ShowsAnchor(c.protectedAnchors, c.text)
    || ShowsRef(c.exactRefs, c.text, hasSelector)
    || (c.mode.Lossy? && c.lossyPolicyId.Some? && c.lossyPolicyId.value != ""
        && c.lossySpans != [] && EachComplete(c.lossySpans) && Declares(c.text))
  }

  method ValidateOmissionRule(c: Capsule, original: string, hasSelector: string -> bool) returns (r: bool)
    ensures r == OmissionRule(c, original, hasSelector)
  {
    var trimmed := TrimEnd(original);
    if trimmed == "" || Contains(c.text, trimmed) {
      return true;
    }
    if ShowsAnchor(c.protectedAnchors, c.text) {
      return true;
    }
    if ShowsRef(c.exactRefs, c.text, hasSelector) {
      return true;
    }
    r := c.mode.Lossy? && c.lossyPolicyId.Some? && c.lossyPolicyId.value != ""
      && c.lossySpans != [] && EachComplete(c.lossySpans) && Declares(c.text);
  }

  lemma MoreTextContains(before: string, text: string, after: string, part: string)
    requires Contains(text, part)
    ensures Contains(before + text + after, part)
  {
    var i :| 0 <= i <= |text| && part <= text[i..];
    assert (before + text + after)[|before| + i..] == text[i..] + after;
  }

  /** Text around a view takes nothing away from it: what satisfied the rule still does. */
  lemma RuleSurvivesMoreText(c: Capsule, original: string, hasSelector: string -> bool, before: string, after: string)
    requires OmissionRule(c, original, hasSelector)
    ensures OmissionRule(c.(text := before + c.text + after), original, hasSelector)
  {
    forall part | Contains(c.text, part)
      ensures Contains(before + c.text + after, part)
    {
      MoreTextContains(before, c.text, after, part);
    }
  }

  // ----- never worse -----

  function NeverWorse(kernel: Kernel, c: Capsule, original: string): Capsule {
    var raw := TrimEnd(original);
    if kernel.count(raw) < c.visibleTokens
    then c.(text := raw, visibleTokens := kernel.count(raw), omittedLines := 0, exactRefs := [], lossySpans := [],
            lossyPolicyId := None, mode := Passthrough)
    else c
  }

  method ApplyNeverWorsePassthrough(kernel: Kernel, given: Capsule, original: string) returns (c: Capsule)
    ensures c == NeverWorse(kernel, given, original)
  {
    c := given;
    var rawText := TrimEnd(original);
    var rawCount := kernel.count(rawText);
    if rawCount < c.visibleTokens {
      c := c.(text := rawText);
      c := c.(visibleTokens := rawCount);
      c := c.(omittedLines := 0);
      c := c.(exactRefs := []);
      c := c.(lossySpans := []);
      c := c.(lossyPolicyId := None);
      c := c.(mode := Passthrough);
    }
  }

  /** The guard takes the cheaper of the capsule and the payload, breaks no rule, and is done after one time. */
  lemma NeverWorseIsCheaper(kernel: Kernel, c: Capsule, original: string, hasSelector: string -> bool)
    ensures var n, raw := NeverWorse(kernel, c, original), kernel.count(TrimEnd(original));
            && n.visibleTokens == (if raw < c.visibleTokens then raw else c.visibleTokens)
            && (c.visibleTokens == kernel.count(c.text) ==> n.visibleTokens == kernel.count(n.text))
            && (OmissionRule(c, original, hasSelector) ==> OmissionRule(n, original, hasSelector))
            && NeverWorse(kernel, n, original) == n
  {
    ContainsSelf(TrimEnd(original));
  }

  // ----- finalization -----

  const CUE_LEAD := "\n... omitted by visible budget; expand "

  const CUE_TAIL := " for the full output ..."

  function Cue(reference: string): string {
    CUE_LEAD + reference + CUE_TAIL
  }

  function WithRef(kernel: Kernel, c: Capsule, reference: string): Capsule {
    var shown := if Contains(c.text, reference) then c
                 else c.(text := c.text + Cue(reference), visibleTokens := kernel.count(c.text + Cue(reference)));
    shown.(exactRefs := shown.exactRefs + [reference])
  }

  /** The view with the lossy declaration, which is added unless the view already says `mode=lossy`. */
  function Declared(kernel: Kernel, text: string): string {
    if Contains(text, MODE_LOSSY) then text else text + "\n" + kernel.declaration
  }

  function AsLossy(kernel: Kernel, c: Capsule, original: string, budget: nat): Capsule {
    var raw, declared := TrimEnd(original), Declared(kernel, c.text);
    if kernel.count(declared) >= kernel.count(raw)
    then c.(text := raw, visibleTokens := kernel.count(raw), omittedLines := 0)
    else
      var text := Enforced(kernel, declared, budget, None);
      c.(mode := Lossy, lossyPolicyId := Some(POLICY_ID), lossySpans := c.lossySpans + [OMITTED_SPAN], text := text,
         visibleTokens := kernel.count(text))
  }

  /** The reference that can be shown as a recovery cue. */
  function UsableRef(exactRef: Option<string>, hasSelector: string -> bool): Option<string> {
    if exactRef.Some? && hasSelector(exactRef.value) then exactRef else None
  }

  function Marked(kernel: Kernel, c: Capsule, original: string, budget: nat, usable: Option<string>): Capsule {
    if !Omits(original, c.text) then c
    else if usable.Some? then WithRef(kernel, c, usable.value)
    else AsLossy(kernel, c, original, budget)
  }

  /** The capsule that finalization arrives at, before it is validated. */
  function Finalized(kernel: Kernel, c: Capsule, original: string, budget: nat, usable: Option<string>): Capsule {
    NeverWorse(kernel, Marked(kernel, c, original, budget, usable), original)
  }

  /** Makes the omission visible: by the exact reference, by the lossy declaration, or by showing everything. */
  method MarkOmission(kernel: Kernel, given: Capsule, original: string, budget: nat, exactRef: Option<string>,
                      hasSelector: string -> bool)
    returns (c: Capsule)
    ensures c == Marked(kernel, given, original, budget, UsableRef(exactRef, hasSelector))
  {
    c := given;
    var trimmed := TrimEnd(original);
    var omitted := trimmed != "" && !Contains(c.text, trimmed);
    if !omitted {
      return;
    }
    if exactRef.Some? && hasSelector(exactRef.value) {
      var reference := exactRef.value;
      if !Contains(c.text, reference) {
        c := c.(text := c.text + Cue(reference));
        c := c.(visibleTokens := kernel.count(c.text));
      }
      c := c.(exactRefs := c.exactRefs + [reference]);
      return;
    }
    var declared := c.text;
    if !Contains(declared, MODE_LOSSY) {
      declared := declared + "\n" + kernel.declaration;
    }
    var declaredTokens, rawFullTokens := kernel.count(declared), kernel.count(trimmed);
    if declaredTokens >= rawFullTokens {
      c := c.(text := trimmed, visibleTokens := rawFullTokens, omittedLines := 0);
    } else {
      c := c.(mode := Lossy, lossyPolicyId := Some(POLICY_ID), lossySpans := c.lossySpans + [OMITTED_SPAN]);
      var text := EnforceTokenBudgetWithRef(kernel, declared, budget, None);
      c := c.(text := text, visibleTokens := kernel.count(text));
    }
  }

  method FinalizeCapsuleOmission(kernel: Kernel, given: Capsule, original: string, budget: nat,
                                 exactRef: Option<string>,
                                 hasSelector: string -> bool)
    returns (r: Result<Capsule, string>)
    ensures var c := Finalized(kernel, given, original, budget, UsableRef(exactRef, hasSelector));
            r == if OmissionRule(c, original, hasSelector) then Ok(c) else Err(OMISSION_ERROR)
  {
    var c := MarkOmission(kernel, given, original, budget, exactRef, hasSelector);
    c := ApplyNeverWorsePassthrough(kernel, c, original);
    var valid := ValidateOmissionRule(c, original, hasSelector);
    r := if valid then Ok(c) else Err(OMISSION_ERROR);
  }

  /** What finalization makes of a capsule reports the cost of its own text, and costs at most the original. */
  lemma FinalizedNeverWorse(kernel: Kernel, c: Capsule, original: string, budget: nat, usable: Option<string>)
    requires c.visibleTokens == kernel.count(c.text)
    ensures var f := Finalized(kernel, c, original, budget, usable);
            f.visibleTokens == kernel.count(f.text) <= kernel.count(TrimEnd(original))
  {
  }

  // ----- when finalization fails -----

  lemma PrefixContains(prefix: string, s: string, part: string)
    requires prefix <= s && Contains(prefix, part)
    ensures Contains(s, part)
  {
    var i :| 0 <= i <= |prefix| && part <= prefix[i..];
    assert prefix[i..] <= s[i..];
  }

  lemma SuffixContains(before: string, suffix: string, part: string)
    requires Contains(suffix, part)
    ensures Contains(before + suffix, part)
  {
    var i :| 0 <= i <= |suffix| && part <= suffix[i..];
    assert (before + suffix)[|before| + i..] == suffix[i..];
  }

  lemma ContainsSelf(s: string)
    ensures Contains(s, s)
  {
    assert s[0..] == s;
  }

  lemma TwoParts(open: string, a: string, between: string, b: string, close: string)
    ensures Contains(open + a + (between + b + close), a) && Contains(open + a + (between + b + close), b)
  {
    ContainsMiddle(open, a, between + b + close);
    ContainsMiddle(open + a + between, b, close);
    assert open + a + (between + b + close) == (open + a + between) + b + close;
  }

  /** The declaration of the program declares itself. */
  lemma ProgramDeclarationDeclares()
    ensures Declares(VISIBLE_BUDGET_LOSSY_DECLARATION)
  {
    TwoParts("[", MODE_LOSSY, " ", LOSSY_POLICY, POLICY_ID + LOSSY_SPANS);
  }

  /** What is used of the JSON grammar: no JSON text begins with the declaration, and none ends with it on a line
      of its own. */
  ghost predicate RejectsDeclaration(kernel: Kernel) {
    && (forall s :: kernel.declaration <= s ==> kernel.parse(s) == NotJson)
    && (forall s :: kernel.parse(s + "\n" + kernel.declaration) == NotJson)
  }

  /** A text that is not JSON is either kept or replaced by one that starts with the marker. */
  lemma EnforcedPlain(kernel: Kernel, text: string, budget: nat, recoveryRef: Option<string>)
    requires kernel.parse(text) == NotJson || kernel.parse(text) == Scalar
    ensures var e := Enforced(kernel, text, budget, recoveryRef);
            if Fits(kernel.count, budget, text) then e == text else kernel.declaration <= e
  {
    RetentionKeepsFirstLines(kernel, text, budget, Marker(kernel, recoveryRef));
  }

  lemma DeclaredPrefix(kernel: Kernel, text: string)
    requires Declares(kernel.declaration) && kernel.declaration <= text
    ensures Declares(text)
  {
    PrefixContains(kernel.declaration, text, MODE_LOSSY);
    PrefixContains(kernel.declaration, text, LOSSY_POLICY);
  }

  lemma DeclaredSuffix(kernel: Kernel, text: string)
    requires Declares(kernel.declaration)
    ensures Declares(text + "\n" + kernel.declaration)
  {
    SuffixContains(text + "\n", kernel.declaration, MODE_LOSSY);
    SuffixContains(text + "\n", kernel.declaration, LOSSY_POLICY);
  }

  /** A view without the words `mode=lossy` still declares itself once the budget has been enforced on it. */
  lemma FreshDeclarationSurvives(kernel: Kernel, text: string, budget: nat)
    requires Declares(kernel.declaration) && RejectsDeclaration(kernel) && !Contains(text, MODE_LOSSY)
    ensures Declares(Enforced(kernel, Declared(kernel, text), budget, None))
  {
    var declared := Declared(kernel, text);
    DeclaredSuffix(kernel, text);
    EnforcedPlain(kernel, declared, budget, None);
    if !Fits(kernel.count, budget, declared) {
      DeclaredPrefix(kernel, Enforced(kernel, declared, budget, None));
    }
  }

  /** The view that would be shown in lossy mode. */
  function LossyView(kernel: Kernel, c: Capsule, budget: nat): string {
    Enforced(kernel, Declared(kernel, c.text), budget, None)
  }

  /** Whether the capsule's own anchors or references rescue a view. */
  predicate Rescued(c: Capsule, text: string, hasSelector: string -> bool) {
    ShowsAnchor(c.protectedAnchors, text) || ShowsRef(c.exactRefs, text, hasSelector)
  }

  lemma AppendedContains(text: string, lead: string, part: string, tail: string)
    ensures Contains(text + (lead + part + tail), part)
  {
    ContainsMiddle(text + lead, part, tail);
    assert text + (lead + part + tail) == (text + lead) + part + tail;
  }

  lemma WithRefIsValid(kernel: Kernel, c: Capsule, original: string, reference: string, hasSelector: string -> bool)
    requires hasSelector(reference)
    ensures OmissionRule(WithRef(kernel, c, reference), original, hasSelector)
  {
    var w := WithRef(kernel, c, reference);
    if !Contains(c.text, reference) {
      AppendedContains(c.text, CUE_LEAD, reference, CUE_TAIL);
    }
    assert w.exactRefs[|c.exactRefs|] == reference;
  }

  lemma OriginalIsValid(c: Capsule, original: string, hasSelector: string -> bool)
    requires c.text == TrimEnd(original)
    ensures OmissionRule(c, original, hasSelector)
  {
    ContainsSelf(c.text);
  }

  /** What a view is shown as when it is budgeted once more, if not by a text that starts with the declaration:
      itself when it fits, or its elision. */
  function ShownAgain(kernel: Kernel, text: string, budget: nat): Option<string> {
    if Fits(kernel.count, budget, text) then Some(text) else Elided(kernel, text, budget, None)
  }

  lemma LossyViewForms(kernel: Kernel, c: Capsule, budget: nat)
    requires Declares(kernel.declaration) && Contains(c.text, MODE_LOSSY)
    ensures match ShownAgain(kernel, c.text, budget)
            case Some(shown) => LossyView(kernel, c, budget) == shown
            case None => Declares(LossyView(kernel, c, budget))
  {
    if ShownAgain(kernel, c.text, budget).None? {
      RetentionKeepsFirstLines(kernel, c.text, budget, Marker(kernel, None));
      DeclaredPrefix(kernel, LossyView(kernel, c, budget));
    }
  }

  /** Finalization fails exactly when bytes are omitted without a usable reference, the view is cheaper than the
      original and already held the words `mode=lossy`, and it, or its elision when it exceeds the budget, names no
      policy or has lost those words, and shows neither the original nor an anchor or reference of the capsule. */
  lemma FinalizationFailsIff(kernel: Kernel, c: Capsule, original: string, budget: nat, usable: Option<string>,
                             hasSelector: string -> bool)
    requires Declares(kernel.declaration) && RejectsDeclaration(kernel) && EachComplete(c.lossySpans)
    requires c.visibleTokens == kernel.count(c.text) && (usable.Some? ==> hasSelector(usable.value))
    ensures !OmissionRule(Finalized(kernel, c, original, budget, usable), original, hasSelector)
            <==>
            && Omits(original, c.text) && usable.None? && Contains(c.text, MODE_LOSSY)
            && kernel.count(c.text) < kernel.count(TrimEnd(original))
            && ShownAgain(kernel, c.text, budget).Some?
            && var shown := ShownAgain(kernel, c.text, budget).value;
               && kernel.count(shown) <= kernel.count(TrimEnd(original))
               && !(Contains(shown, LOSSY_POLICY) && Contains(shown, MODE_LOSSY))
               && Omits(original, shown) && !Rescued(c, shown, hasSelector)
  {
    var raw := TrimEnd(original);
    var marked := Marked(kernel, c, original, budget, usable);
    if kernel.count(raw) < marked.visibleTokens {
      OriginalIsValid(Finalized(kernel, c, original, budget, usable), original, hasSelector);
    } else if Omits(original, c.text) {
      if usable.Some? {
        WithRefIsValid(kernel, c, original, usable.value, hasSelector);
      } else if kernel.count(Declared(kernel, c.text)) >= kernel.count(raw) {
        OriginalIsValid(marked, original, hasSelector);
      } else {
        OmittedSpanComplete();
        if !Contains(c.text, MODE_LOSSY) {
          FreshDeclarationSurvives(kernel, c.text, budget);
        }
      }
    }
    if Contains(c.text, MODE_LOSSY) {
      LossyViewForms(kernel, c, budget);
    }
  }

  lemma OmittedSpanComplete()
    ensures EachComplete([OMITTED_SPAN])
  {
    assert |OMITTED_SPAN.description| > 0 && |OMITTED_SPAN.reason| > 0;
  }

  /** So a view free of the words `mode=lossy` is always finalized. */
  lemma FreeViewNeverFails(kernel: Kernel, c: Capsule, original: string, budget: nat, usable: Option<string>,
                           hasSelector: string -> bool)
    requires Declares(kernel.declaration) && RejectsDeclaration(kernel) && c.lossySpans == []
    requires c.visibleTokens == kernel.count(c.text) && (usable.Some? ==> hasSelector(usable.value))
    requires !Contains(c.text, MODE_LOSSY)
    ensures OmissionRule(Finalized(kernel, c, original, budget, usable), original, hasSelector)
  {
    FinalizationFailsIff(kernel, c, original, budget, usable, hasSelector);
  }

  /** For a view that is neither a JSON object nor an array the condition can be read off the view: it says
      `mode=lossy` without naming a policy, and fits the budget. */
  lemma PlainViewFailsIff(kernel: Kernel, c: Capsule, original: string, budget: nat, usable: Option<string>,
                          hasSelector: string -> bool)
    requires Declares(kernel.declaration) && RejectsDeclaration(kernel) && EachComplete(c.lossySpans)
    requires c.visibleTokens == kernel.count(c.text) && (usable.Some? ==> hasSelector(usable.value))
    requires kernel.parse(c.text) == NotJson || kernel.parse(c.text) == Scalar
    ensures !OmissionRule(Finalized(kernel, c, original, budget, usable), original, hasSelector)
            <==>
            && Omits(original, c.text) && usable.None?
            && Contains(c.text, MODE_LOSSY) && !Contains(c.text, LOSSY_POLICY)
            && kernel.count(c.text) <= budget && kernel.count(c.text) < kernel.count(TrimEnd(original))
            && !Rescued(c, c.text, hasSelector)
  {
    FinalizationFailsIff(kernel, c, original, budget, usable, hasSelector);
    if Contains(c.text, MODE_LOSSY) {
      EnforcedPlain(kernel, c.text, budget, None);
      if !Fits(kernel.count, budget, c.text) {
        DeclaredPrefix(kernel, LossyView(kernel, c, budget));
      }
    }
  }

  // ----- views that have been budgeted -----

  /** A view that starts with the marker keeps the whole declaration when it is budgeted once more. */
  lemma MarkedViewStaysDeclared(kernel: Kernel, view: string, budget: nat)
    requires Declares(kernel.declaration) && RejectsDeclaration(kernel) && kernel.declaration <= view
    ensures Declares(Enforced(kernel, Declared(kernel, view), budget, None))
  {
    DeclaredPrefix(kernel, view);
    EnforcedPlain(kernel, view, budget, None);
    DeclaredPrefix(kernel, Enforced(kernel, view, budget, None));
  }

  /** Enforcing the budget gives a text that fits, or one that starts with the declaration. */
  lemma EnforcedForms(kernel: Kernel, text: string, budget: nat, recoveryRef: Option<string>)
    ensures var e := Enforced(kernel, text, budget, recoveryRef);
            Fits(kernel.count, budget, e) || kernel.declaration <= e
  {
    RetentionKeepsFirstLines(kernel, text, budget, Marker(kernel, recoveryRef));
    if Elided(kernel, text, budget, recoveryRef).Some? {
      ElisionKeepsPrefix(kernel, text, budget, recoveryRef);
    }
  }

  /** Unless its view shows the original whole, a capsule shows one that has been budgeted. For such a view the
      condition can be read off the view alone, JSON or not: it omits bytes without a usable reference, costs less
      than the original, says `mode=lossy` without naming a policy, and shows no anchor or reference. */
  lemma BudgetedViewFailsIff(kernel: Kernel, c: Capsule, original: string, summary: string, budget: nat,
                             exactRef: Option<string>, usable: Option<string>, hasSelector: string -> bool)
    requires Declares(kernel.declaration) && RejectsDeclaration(kernel) && EachComplete(c.lossySpans)
    requires c.visibleTokens == kernel.count(c.text) && (usable.Some? ==> hasSelector(usable.value))
    requires c.text == Enforced(kernel, summary, budget, exactRef)
    ensures !OmissionRule(Finalized(kernel, c, original, budget, usable), original, hasSelector)
            <==>
            && Omits(original, c.text) && usable.None?
            && Contains(c.text, MODE_LOSSY) && !Contains(c.text, LOSSY_POLICY)
            && kernel.count(c.text) < kernel.count(TrimEnd(original)) && !Rescued(c, c.text, hasSelector)
  {
    FinalizationFailsIff(kernel, c, original, budget, usable, hasSelector);
    EnforcedForms(kernel, summary, budget, exactRef);
    if !Fits(kernel.count, budget, c.text) {
      DeclaredPrefix(kernel, c.text);
      MarkedViewStaysDeclared(kernel, c.text, budget);
      LossyViewForms(kernel, c, budget);
    }
  }
}
