/** What a capsule is after it was made (lib.rs), on its fields: what satisfies the omission rule, and which of four
    forms a finalized capsule takes. */
module CapsuleMeaning {
  import opened CapsuleMaking
  import opened Capsules
  import opened Text
  import opened TokenBudget
  import opened Wrappers

  /** A capsule satisfies the rule when it shows all of the original but the white space at its end, or one of its
      anchors, or one of its exact references, or declares itself lossy with a policy and complete spans. */
  lemma RuleMeans(c: Capsule, original: string, hasSelector: string -> bool)
    ensures OmissionRule(c, original, hasSelector)
            <==>
            || (exists t :: IsTrimmed(t, original) && Contains(c.text, t))
            || (exists a :: a in c.protectedAnchors && a != "" && Contains(c.text, "[[anchor:" + a + "]]"))
            || (exists r :: r in c.exactRefs && hasSelector(r) && Contains(c.text, r))
            || (&& c.mode == Lossy && c.lossyPolicyId.Some? && c.lossyPolicyId.value != "" && c.lossySpans != []
                && (forall s :: s in c.lossySpans ==> s.description != "" && s.reason != "" && s.recoveryMayBeNeeded)
                && Contains(c.text, "mode=lossy") && Contains(c.text, "lossy_policy_id="))
  {
    ShowsAllIff(original, c.text);
  }

  lemma TrimmedOnce(s: string, t: string, t': string)
    requires IsTrimmed(t, s) && IsTrimmed(t', s) && |t| <= |t'|
    ensures t == t'
  {
    assert forall i :: |t| <= i < |s| ==> s[|t|..][i - |t|] == s[i];
    assert t' != "" ==> t'[|t'| - 1] == s[|t'| - 1];
    assert t == s[..|t|] && t' == s[..|t'|];
  }

  lemma ShowsAllIff(original: string, text: string)
    ensures !Omits(original, text) <==> exists t :: IsTrimmed(t, original) && Contains(text, t)
  {
    var raw := TrimEnd(original);
    TrimEndTrims(original);
    forall t | IsTrimmed(t, original)
      ensures t == raw
    {
      if |t| <= |raw| {
        TrimmedOnce(original, t, raw);
      } else {
        TrimmedOnce(original, raw, t);
      }
    }
    if raw == "" {
      assert raw <= text[0..];
    }
  }

  /** The capsule shows the original in full, at no more than the original costs, and claims nothing left out. */
  ghost predicate ShowsOriginal(kernel: Kernel, f: Capsule, original: string) {
    && IsTrimmed(f.text, original) && f.visibleTokens == kernel.count(f.text)
    && f.omittedLines == 0 && f.exactRefs == [] && f.lossySpans == [] && f.lossyPolicyId == None
  }

  /** The capsule names its reference, and is otherwise as it was. */
  ghost predicate NamesReference(kernel: Kernel, c: Capsule, f: Capsule, reference: string) {
    && f == c.(text := f.text, visibleTokens := kernel.count(f.text), exactRefs := [reference])
    && Contains(f.text, reference)
    && if Contains(c.text, reference) then f.text == c.text
       else f.text == c.text + "\n... omitted by visible budget; expand " + reference + " for the full output ..."
  }

  /** The text with the declaration on a line of its own, unless it says that it is lossy. */
  function DeclaredText(kernel: Kernel, text: string): string {
    if Contains(text, "mode=lossy") then text else text + "\n" + kernel.declaration
  }

  /** The capsule declares itself lossy, within the budget, and is otherwise as it was. */
  ghost predicate DeclaresLoss(kernel: Kernel, c: Capsule, f: Capsule, budget: nat) {
    && f == c.(text := f.text, visibleTokens := kernel.count(f.text), mode := Lossy,
               lossyPolicyId := Some("tokenzero.visible-compression.v1"), lossySpans := f.lossySpans)
    && |f.lossySpans| == 1 && f.lossySpans[0].recoveryMayBeNeeded
    && Budgeted(kernel, DeclaredText(kernel, c.text), budget, None, f.text)
  }

  lemma CueText(text: string, reference: string)
    ensures text + Cue(reference) ==
            text + "\n... omitted by visible budget; expand " + reference + " for the full output ..."
  {
  }

  lemma WithRefNames(kernel: Kernel, c: Capsule, reference: string)
    requires c.exactRefs == [] && c.visibleTokens == kernel.count(c.text)
    ensures NamesReference(kernel, c, WithRef(kernel, c, reference), reference)
  {
    CueText(c.text, reference);
    if !Contains(c.text, reference) {
      AppendedContains(c.text, CUE_LEAD, reference, CUE_TAIL);
    }
  }

  lemma AsLossyDeclares(kernel: Kernel, c: Capsule, original: string, budget: nat)
    requires c.lossySpans == []
    requires kernel.count(DeclaredText(kernel, c.text)) < kernel.count(TrimEnd(original))
    ensures DeclaresLoss(kernel, c, AsLossy(kernel, c, original, budget), budget)
  {
    EnforcedIsBudgeted(kernel, Declared(kernel, c.text), budget, None);
    assert [] + [OMITTED_SPAN] == [OMITTED_SPAN];
  }

  /** What the finalized capsule is: unchanged when it left nothing out, naming the usable reference when it left
      something out, declaring the loss when there is none and declaring is cheaper than the original, and always the
      original instead when that is cheaper. */
  lemma FinalizedIs(kernel: Kernel, c: Capsule, original: string, budget: nat, usable: Option<string>)
    requires c.exactRefs == [] && c.lossySpans == [] && c.lossyPolicyId == None
    requires c.visibleTokens == kernel.count(c.text)
    ensures var f, raw := Finalized(kernel, c, original, budget, usable), kernel.count(TrimEnd(original));
            && f.visibleTokens <= raw
            && (ShowsOriginal(kernel, f, original)
                || if !Omits(original, c.text) then f == c
                   else if usable.Some? then NamesReference(kernel, c, f, usable.value)
                   else DeclaresLoss(kernel, c, f, budget) && kernel.count(DeclaredText(kernel, c.text)) < raw)
  {
    TrimEndTrims(original);
    if usable.Some? {
      WithRefNames(kernel, c, usable.value);
    }
    if kernel.count(DeclaredText(kernel, c.text)) < kernel.count(TrimEnd(original)) {
      AsLossyDeclares(kernel, c, original, budget);
    }
  }

  /** The original is shown instead only when what would be shown costs more, or declaring a loss would save nothing. */
  lemma OriginalShownOnlyToSave(kernel: Kernel, c: Capsule, original: string, budget: nat, usable: Option<string>,
                                marked: Capsule)
    requires c.exactRefs == [] && c.lossySpans == [] && c.lossyPolicyId == None
    requires c.visibleTokens == kernel.count(c.text)
    requires if !Omits(original, c.text) then marked == c
             else if usable.Some? then NamesReference(kernel, c, marked, usable.value)
             else kernel.count(DeclaredText(kernel, c.text)) < kernel.count(TrimEnd(original))
                  && DeclaresLoss(kernel, c, marked, budget) && marked.lossySpans == [OMITTED_SPAN]
    requires marked.visibleTokens <= kernel.count(TrimEnd(original))
    ensures Finalized(kernel, c, original, budget, usable) == marked
  {
    if Omits(original, c.text) {
      if usable.Some? {
        WithRefNames(kernel, c, usable.value);
      } else {
        AsLossyDeclares(kernel, c, original, budget);
        BudgetedIsUnique(kernel, DeclaredText(kernel, c.text), budget, None, marked.text);
      }
    }
  }

  /** The view that is shown: that of the mode within the budget, or, when it costs more than was measured and more than
      the text, the text instead. */
  lemma BudgetedViewIs(kernel: Kernel, text: string, rawTokens: nat, mode: Mode, summary: string, budget: nat,
                       exactRef: Option<string>)
    ensures var (view, shownMode) := BudgetedView(kernel, text, rawTokens, mode, summary, budget, exactRef);
            || (&& shownMode == Passthrough && IsTrimmed(view, text)
                && exists b :: kernel.count(view) < kernel.count(b) && rawTokens < kernel.count(b)
                               && if mode == Passthrough then b == summary
                                  else Budgeted(kernel, summary, budget, exactRef, b))
            || (&& shownMode == mode
                && (if mode == Passthrough then view == summary else Budgeted(kernel, summary, budget, exactRef, view))
                && (kernel.count(view) <= rawTokens || kernel.count(view) <= kernel.count(TrimEnd(text))))
  {
    TrimEndTrims(text);
    EnforcedIsBudgeted(kernel, summary, budget, exactRef);
  }
}
