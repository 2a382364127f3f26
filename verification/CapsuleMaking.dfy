/** Making a capsule of a text (lib.rs): the view its mode gives, budgeting and falling back to the text, and when
    the capsule is refused. Which lines are errors or belong to a diff, the prefix that names the source, and the
    count of lines are parameters. */
module CapsuleMaking {
  import opened Capsules
  import opened LineText
  import opened Machine
  import opened Sequences
  import opened Text
  import opened TokenBudget
  import opened Wrappers

  import DedupeText
  import LineDedupe
  import LineViews
  import Sorting
  import SummaryText
  import TokenPacking

  // ----- the view of a mode -----

  /** The mode whose view is shown. */
  function EffectivePolicy(mode: Mode): (policy: Mode)
    ensures !policy.Hybrid? && !policy.Critical? && !policy.Fidelity? && !policy.Lossy?
  {
    match mode
    case Hybrid => Auto
    case Critical => Diagnostic
    case Fidelity => Structured
    case Lossy => Structured
    case other => other
  }

  datatype Source = Source(prefix: string, isError: string -> bool, isDiffLine: string -> bool)

  const EXACT_STUB := "[exact payload stored; use expand for raw bytes]"

  function Diagnosis(source: Source, text: string): string
    requires |text| <= USIZE_MAX
  {
    var errors := LineViews.WindowView(text, 3, source.isError);
    if Trim(errors) == "" then SummaryText.HeadTail(text, 8, 6, source.prefix) else source.prefix + TrimEnd(errors)
  }

  function DiffSummary(source: Source, text: string, maxLines: nat): string
    requires |text| <= USIZE_MAX && maxLines > 0
  {
    var found := Sorting.Filter(Lines(text), source.isDiffLine);
    var out := if |found| > maxLines then found[..maxLines] else found;
    if out == [] then SummaryText.HeadTail(text, 18, 12, "") else Join(out, "\n")
  }

  function ModeView(source: Source, text: string, rawTokens: nat, mode: Mode, budget: nat): string
    requires |text| <= USIZE_MAX
  {
    match EffectivePolicy(mode)
    case Exact => source.prefix + EXACT_STUB
    case Passthrough => source.prefix + TrimEnd(text)
    case Diagnostic => Diagnosis(source, text)
    case Structured => SummaryText.HeadTail(text, 24, 16, source.prefix)
    case Dedupe => source.prefix + TrimEnd(DedupeText.Deduplicated(LineDedupe.Options(false, _ => false), text, 8))
    case DiffAware => source.prefix + TrimEnd(DiffSummary(source, text, 120))
    case Auto =>
      if budget == 0 || rawTokens <= budget then source.prefix + TrimEnd(text)
      else SummaryText.HeadTail(text, 18, 12, source.prefix)
  }

  // ----- making a capsule -----

  /** The view after budgeting, and the mode it is shown in. */
  function BudgetedView(kernel: Kernel, text: string, rawTokens: nat, mode: Mode, summary: string, budget: nat,
                        exactRef: Option<string>): (string, Mode)
  {
    var view := if mode.Passthrough? then summary else Enforced(kernel, summary, budget, exactRef);
    if kernel.count(view) > rawTokens && kernel.count(TrimEnd(text)) < kernel.count(view)
    then (TrimEnd(text), Passthrough)
    else (view, mode)
  }

  function Draft(kernel: Kernel, text: string, rawTokens: nat, mode: Mode, summary: string, budget: nat,
                 exactRef: Option<string>, lines: string -> nat): Capsule
  {
    var (view, shownMode) := BudgetedView(kernel, text, rawTokens, mode, summary, budget, exactRef);
    Capsule(view, rawTokens, kernel.count(view), Without(lines(text), lines(view)), shownMode, [], [], [], None)
  }

  /** The capsule that is made from the view of the mode, before it is validated. */
  function Made(kernel: Kernel, text: string, rawTokens: nat, mode: Mode, summary: string, budget: nat,
                exactRef: Option<string>, hasSelector: string -> bool, lines: string -> nat): Capsule
  {
    var draft := Draft(kernel, text, rawTokens, mode, summary, budget, exactRef, lines);
    Finalized(kernel, draft, text, budget, UsableRef(exactRef, hasSelector))
  }

  /** `make_capsule_with_recovery_ref`. */
  method MakeCapsule(kernel: Kernel, source: Source, text: string, rawTokens: nat, mode: Mode, budget: nat,
                     exactRef: Option<string>, hasSelector: string -> bool, lines: string -> nat)
    returns (r: Result<Capsule, string>)
    requires |text| <= USIZE_MAX
    ensures var summary := ModeView(source, text, rawTokens, mode, budget);
            var c := Made(kernel, text, rawTokens, mode, summary, budget, exactRef, hasSelector, lines);
            r == if OmissionRule(c, text, hasSelector) then Ok(c) else Err(OMISSION_ERROR)
  {
    var summary := ModeView(source, text, rawTokens, mode, budget);
    var view, shownMode := BudgetView(kernel, text, rawTokens, mode, summary, budget, exactRef);
    var omitted := Without(lines(text), lines(view));
    var draft := Capsule(view, rawTokens, kernel.count(view), omitted, shownMode, [], [], [], None);
    r := FinalizeCapsuleOmission(kernel, draft, text, budget, exactRef, hasSelector);
  }

  method BudgetView(kernel: Kernel, text: string, rawTokens: nat, mode: Mode, summary: string, budget: nat,
                    exactRef: Option<string>)
    returns (visible: string, shownMode: Mode)
    ensures (visible, shownMode) == BudgetedView(kernel, text, rawTokens, mode, summary, budget, exactRef)
  {
    visible, shownMode := summary, mode;
    if mode != Passthrough {
      visible := EnforceTokenBudgetWithRef(kernel, summary, budget, exactRef);
    }
    var visibleTokens := kernel.count(visible);
    if visibleTokens > rawTokens {
      var fallback := TrimEnd(text);
      var fallbackTokens := kernel.count(fallback);
      if fallbackTokens < visibleTokens {
        visible, shownMode := fallback, Passthrough;
      }
    }
  }

  // ----- when making fails -----

  /** What is made reports the cost of its own text, and never costs more than the text it stands for. */
  lemma MadeNeverWorse(kernel: Kernel, text: string, rawTokens: nat, mode: Mode, summary: string, budget: nat,
                       exactRef: Option<string>, hasSelector: string -> bool, lines: string -> nat)
    ensures var c := Made(kernel, text, rawTokens, mode, summary, budget, exactRef, hasSelector, lines);
            c.visibleTokens == kernel.count(c.text) <= kernel.count(TrimEnd(text))
  {
    var draft := Draft(kernel, text, rawTokens, mode, summary, budget, exactRef, lines);
    FinalizedNeverWorse(kernel, draft, text, budget, UsableRef(exactRef, hasSelector));
  }

  lemma WholeTextOmitsNothing(prefix: string, text: string)
    ensures !Omits(text, TrimEnd(text)) && !Omits(text, prefix + TrimEnd(text))
  {
    ContainsSelf(TrimEnd(text));
    SuffixContains(prefix, TrimEnd(text), TrimEnd(text));
  }

  /** Passing a text through shows all of it. */
  lemma PassthroughShowsAll(source: Source, text: string, rawTokens: nat, budget: nat)
    requires |text| <= USIZE_MAX
    ensures !Omits(text, ModeView(source, text, rawTokens, Passthrough, budget))
  {
    WholeTextOmitsNothing(source.prefix, text);
  }

  /** Making a capsule, from the view of any mode, fails exactly when there is no usable reference and the view that
      is about to be shown omits bytes, is cheaper than the text, and says `mode=lossy` without naming a policy. */
  lemma MakingFailsIff(kernel: Kernel, text: string, rawTokens: nat, mode: Mode, summary: string, budget: nat,
                       exactRef: Option<string>, hasSelector: string -> bool, lines: string -> nat)
    requires Declares(kernel.declaration) && RejectsDeclaration(kernel)
    requires mode.Passthrough? ==> !Omits(text, summary)
    ensures var view := BudgetedView(kernel, text, rawTokens, mode, summary, budget, exactRef).0;
            var c := Made(kernel, text, rawTokens, mode, summary, budget, exactRef, hasSelector, lines);
            !OmissionRule(c, text, hasSelector)
            <==>
            && UsableRef(exactRef, hasSelector).None? && Omits(text, view)
            && kernel.count(view) < kernel.count(TrimEnd(text))
            && Contains(view, MODE_LOSSY) && !Contains(view, LOSSY_POLICY)
  {
    var draft := Draft(kernel, text, rawTokens, mode, summary, budget, exactRef, lines);
    var usable := UsableRef(exactRef, hasSelector);
    WholeTextOmitsNothing("", text);
    if draft.text == Enforced(kernel, summary, budget, exactRef) {
      BudgetedViewFailsIff(kernel, draft, text, summary, budget, exactRef, usable, hasSelector);
    } else {
      FinalizationFailsIff(kernel, draft, text, budget, usable, hasSelector);
    }
  }

  /** When the view of the mode is free of the words `mode=lossy`, only JSON elision can bring them out: making fails
      exactly when there is no usable reference, the view exceeds the budget, and its elision says `mode=lossy`
      without naming a policy, omits bytes and is cheaper than the text. */
  lemma FreeSummaryFailsIff(kernel: Kernel, text: string, rawTokens: nat, mode: Mode, summary: string, budget: nat,
                            exactRef: Option<string>, hasSelector: string -> bool, lines: string -> nat)
    requires Declares(kernel.declaration) && RejectsDeclaration(kernel)
    requires mode.Passthrough? ==> !Omits(text, summary)
    requires !Contains(summary, MODE_LOSSY)
    ensures var elided := Elided(kernel, summary, budget, exactRef);
            var c := Made(kernel, text, rawTokens, mode, summary, budget, exactRef, hasSelector, lines);
            !OmissionRule(c, text, hasSelector)
            <==>
            && UsableRef(exactRef, hasSelector).None? && !mode.Passthrough?
            && !Fits(kernel.count, budget, summary) && elided.Some?
            && Contains(elided.value, MODE_LOSSY) && !Contains(elided.value, LOSSY_POLICY)
            && Omits(text, elided.value) && kernel.count(elided.value) < kernel.count(TrimEnd(text))
  {
    MakingFailsIff(kernel, text, rawTokens, mode, summary, budget, exactRef, hasSelector, lines);
    WholeTextOmitsNothing("", text);
    if !mode.Passthrough? && !Fits(kernel.count, budget, summary) && Elided(kernel, summary, budget, exactRef).None? {
      RetentionKeepsFirstLines(kernel, summary, budget, TokenBudget.Marker(kernel, exactRef));
      DeclaredPrefix(kernel, Enforced(kernel, summary, budget, exactRef));
    }
  }
}
