# TokenZero: a verified model of its algorithmic core

TokenZero keeps the context of a language model small: it chooses cheap representations of artifacts, renders
them into byte strings with provable identities, counts and budgets tokens, and passes shell commands through
quoting and splitting on the way. This project models the parts of `tokenzero-core` and `tokenzero-cli` in which
something can go subtly wrong and proves what they promise, for all inputs.

Six groups are modelled:

- **Optimisers and partial orders.** Segmentation by a forward table with predecessors (`Segmentation`), its
  multi-tokenizer form (`MultiSegmentation`), the two Pareto frontiers (`RepresentationPareto`, `LivePareto`,
  `LiveDecision`), what the live decision says of the fields (`LiveMeaning`), and the two-row edit distance
  (`Levenshtein`).
- **The Decision View renderer.** Canonical in-place sorting of commutative runs (`Sections`) and the order it brings
  about (`SectionMeaning`), framing and its
  reader (`DecisionFrames`, `ViewRecords`), the decision metadata (`ViewMetadata`), and the renderer with the
  geometry of its stable prefix (`DecisionView`, `DecisionViewLaws`) over the exact token map and its pages
  (`TokenMap`, `TokenPages`).
- **Digest preimages.** Length-prefixed encodings and their injectivity (`Encoding`, `Preimages`, `ViewDigests`,
  `OutputNovelty`).
- **Shell printers and parsers.** The splitter and the seven printers with their round trips (`ShellSplit`,
  `ShellQuote`, `PrintingMeaning`), the operator detectors and splitters (`ShellOperators`, `ShellSplitLaws`,
  `ShellSyntax`, `ShellHiding`) and the hook (`HookSegments`, `HookRewrite`). The languages that the scanners accept
  are written as grammars of which every text is shown to be a sentence (`ShellReading`, `OperatorReading`); what the
  scanners find is stated on those (`SyntaxMeaning`, `HookMeaning`).
- **Token counting and budgets.** `TokenCount`, `TokenPacking` and `TokenBudget`.
- **Capsules and line views.** Finalizing and making capsules (`Capsules`, `CapsuleMaking`, `CapsuleMeaning`,
  `CapsuleEscapes`) and what the view of each mode shows (`ModeMeaning`); window views, summaries and deduplication
  down to the text they return (`LineText`, `LineViews`, `LineSummary`, `SummaryText`, `SummaryMeaning`, `DigitRuns`,
  `LineDedupe`, `DedupeMeaning`, `DedupeText`).

`Wrappers`, `Machine`, `Text`, `Utf8Order`, `Sequences`, `Sorting` and `Encoding` hold what several of them share.

How to read it: an operation that the program performs by loops and updates is a method (on a class, an array or
local variables, as in the program) proved equal to a specification function or to a property; the laws are
lemmas about those specifications. The modules named after what they say of another (`...Meaning`, `...Reading`) state
it on fields, characters, lines and bytes, without the specification's own functions. Strings are sequences of Unicode scalar values and byte artifacts sequences
of bytes; comparing strings by scalar values is comparing their UTF-8 bytes (`Utf8Order`). `usize` is 64 bits wide.
Machine-width limits, saturations and the errors they raise are written out.

What is foreign to the modelled code enters as a parameter about which nothing is assumed unless a lemma says
so: SHA-256, canonical JSON and the JSON parser, the reference parser, tokenizer adapters (whose answers the
token map checks), the active token counter, and the predicates for critical, dense and hit lines.

Some statements one might expect do not hold of the code; the model keeps the code and states what does hold:

- The documentation of the packing functions (`crates/tokenzero-core/src/tokens.rs:366-368`) promises the largest
  prefix at a token boundary. The lexical fallback cuts only after a character outside words, and a zero budget
  drops leading whitespace that costs nothing. `TokenPacking.FallbackMeetsPromiseIff`, part of the contract of
  `PackForModel`, gives the exact condition, `FallbackDropsFittingWord` and `FallbackDropsBlank` an input each.
- For registered families the longest prefix is returned except when the budget multiplication saturates
  (`TokenPacking.PackIsLongestIff`).
- The text of a summary does not account for every line: an empty line that is kept is neither shown nor counted,
  unless it is the last line of all (`SummaryText.SelectionReadsBackIff`, `EmptyBetweenCriticalIsLost`,
  `EmptyLineIsLost`).
- Nor do texts with markers in general tell lines from markers: `LineViews.ViewReadsBackIff` and
  `SummaryText.SelectionReadsBackIff` say when they do, and the two lemmas `MarkerLineIsMisread` give an input each.
- The output of deduplication does not determine its input (`DedupeText.TwoOriginals`); it does exactly when no line
  that is shown after the first reads as a marker (`DedupeIsFaithfulIff`, `PlainDedupeRoundTripsIff`).
- Deduplication promises to preserve critical lines (`crates/tokenzero-core/src/lib.rs:1543`). None is collapsed, but
  cutting a long output to its ends can drop one: `DedupeText.CriticalLinesShownIff` says exactly when,
  `CriticalAmidIsDropped` shows it for every context, `CriticalLineIsDropped` for one input.
- The normal form that forgets digits also takes a literal `#` for a run of digits (`DigitRuns.NormalsEqualIff`).
- Quoting for `cmd` doubles `%` and `^`, which the splitter does not undo (`ShellQuote.CmdRoundTripIff`).
- An overflow aborts segmentation even off the cheapest plan (`Segmentation.OverflowOffTheBestPlan`).
- Making a capsule can fail, and `CapsuleMaking.MakingFailsIff` says exactly when: the view about to be shown says
  `mode=lossy` without naming a policy, omits bytes, is cheaper than the text, and no reference recovers it. The
  view of the mode need not say the words: elision serializes JSON values again, and an escaped letter comes out
  plain (`FreeSummaryFailsIff`, with the input in `CapsuleEscapes.EscapedTextFails`; a label can bring the words in
  as well, `LabelledTextFails`).
- The hook routes a command that it has routed already, unless the executable bears the program's name or `<<`
  (`HookRewrite.RewriteAgainIff`).
- A posix command line of quoted words can still count as shell syntax: when its first of several words looks
  like a variable assignment (`ShellHiding.SyntaxOfPrinted`).

Verify with `dafny verify dfyconfig.toml`.

## Model

| member | source | states |
|---|---|---|
| Levenshtein.Distance | crates/tokenzero-cli/src/main.rs:503-517 | the two-row table, swapped row by row, ends in the edit distance of the two strings |
| Levenshtein.CellRecurrence | crates/tokenzero-cli/src/main.rs:508-512 | each table entry is the least of deletion, insertion and substitution over its three neighbours, for prefixes of both strings |
| Levenshtein.SomeScriptAttainsDist | crates/tokenzero-cli/src/main.rs:503-517 | some script of insertions, deletions and substitutions turns one string into the other at exactly the computed cost |
| Levenshtein.NoScriptIsCheaper | crates/tokenzero-cli/src/main.rs:503-517 | no such script costs less |
| Levenshtein.DistIsEditDistance | crates/tokenzero-cli/src/main.rs:503-517 | so the computed number is the minimum over all edit scripts, for every pair of strings |
| Levenshtein.EditDistanceIsAMetric | crates/tokenzero-cli/src/main.rs:503-517 | the distance is zero only on equal strings, symmetric, and satisfies the triangle inequality |
| Segmentation.FindCheapestChain | crates/tokenzero-core/src/representation_economics.rs:108-148 | the forward table ends in overflow, no cover, or the one canonical cheapest chain (ties go to the candidate tried first) |
| Segmentation.WalkBack | crates/tokenzero-core/src/representation_economics.rs:131-147 | following predecessors from the end always reaches position 0 and yields the chain in order; a missing predecessor cannot occur |
| Segmentation.OptimalSegmentation | crates/tokenzero-core/src/representation_economics.rs:101-148 | success means contiguous valid segments from 0 to the length whose costs sum to the total and that no other cover undercuts; each error occurs exactly on its condition, and the two internal errors never |
| Segmentation.NoChainBeatsTable | crates/tokenzero-core/src/representation_economics.rs:108-130 | up to the current position every chain of candidates costs at least what the table holds, and on equal cost the table's last candidate was tried no later |
| Segmentation.CoveredIffReachable | crates/tokenzero-core/src/representation_economics.rs:131-134 | the end of the table is reachable exactly when some list of candidates covers the length |
| Segmentation.OverflowIsGenuine | crates/tokenzero-core/src/representation_economics.rs:123-125 | an overflow is reported only where the cheapest way to a candidate's start plus its cost really exceeds 64 bits |
| Segmentation.FinishedTableNeverOverflowed | crates/tokenzero-core/src/representation_economics.rs:123-125 | a table that was filled to the end met no overflowing candidate, so overflow is reported exactly when there is one |
| Segmentation.CanonicalBestIsUnique | crates/tokenzero-core/src/representation_economics.rs:112-130 | only one chain is cheapest and preferred by the tie rule |
| Segmentation.OutcomeIsUnique | crates/tokenzero-core/src/representation_economics.rs:101-148 | the outcome, error or plan, is determined by the candidates |
| Segmentation.SmallCostsNeverOverflow | crates/tokenzero-core/src/representation_economics.rs:123-125 | when length times the dearest candidate fits 64 bits no overflow can happen |
| Segmentation.OverflowOffTheBestPlan | crates/tokenzero-core/src/representation_economics.rs:123-125 | an input whose cheapest plan costs 1 and that is still refused, because a candidate off that plan overflows |
| MultiSegmentation.CollectWeights | crates/tokenzero-core/src/representation_economics.rs:184-196 | the weights are accepted exactly when non-empty, named, positive and listed once per tokenizer, and then form the map they spell |
| MultiSegmentation.ChargeNeverSaturates | crates/tokenzero-core/src/representation_economics.rs:215-226 | the 128-bit saturating product of two 64-bit factors never saturates |
| MultiSegmentation.ChargeCandidate | crates/tokenzero-core/src/representation_economics.rs:197-236 | a candidate is charged the sum over tokenizers of weight times tokens over a million, each rounded up, or refused for missing, foreign or repeated costs or overflow |
| MultiSegmentation.OptimalMultiTokenizerSegmentation | crates/tokenzero-core/src/representation_economics.rs:178-279 | the result is the single-cost outcome over the charged costs, and the internal errors never occur |
| MultiSegmentation.MultiOutcomeIsUnique | crates/tokenzero-core/src/representation_economics.rs:178-279 | the outcome is determined by the candidates and the weights |
| MultiSegmentation.ListingOrderIrrelevant | crates/tokenzero-core/src/representation_economics.rs:178-279 | relisting the weights or the costs inside each candidate changes neither error, nor total, nor the chosen candidates |
| MultiSegmentation.RoundingPerCandidate | crates/tokenzero-core/src/representation_economics.rs:215-226 | a charged cost is at least the exact weighted cost and exceeds it by less than one unit per tokenizer |
| MultiSegmentation.TotalIsNearExactOptimum | crates/tokenzero-core/src/representation_economics.rs:178-279 | the total exceeds the exact weighted cost of any other plan by less than length times the number of tokenizers |
| RepresentationPareto.FrontierMembers | crates/tokenzero-core/src/representation_economics.rs:67-83 | the frontier holds exactly the records that no record improves on, with multiplicity, sorted by root |
| RepresentationPareto.ImprovementIsStrictOrder | crates/tokenzero-core/src/representation_economics.rs:40-55 | improvement between records is irreflexive, asymmetric, transitive, and lowers the resource total |
| RepresentationPareto.FrontierCovers | crates/tokenzero-core/src/representation_economics.rs:67-83 | every record is on the frontier or improved on by a frontier record with the same roots, at least as exact and with strictly better resources |
| RepresentationPareto.FrontierIsIdempotent | crates/tokenzero-core/src/representation_economics.rs:67-83 | taking the frontier of a frontier changes nothing |
| RepresentationPareto.FrontierIgnoresListing | crates/tokenzero-core/src/representation_economics.rs:67-83 | relisting the records keeps the frontier's contents, and its order when roots are not shared |
| RepresentationPareto.FrontierOnFields | crates/tokenzero-core/src/representation_economics.rs:40-83 | on the fields alone: a record stays, as often as it is listed, exactly when no other root offers the same meaning through the same adapter, at least as exactly, with no resource higher and one lower |
| LivePareto.AcceptedVectorIsSorted | crates/tokenzero-core/src/live_pareto.rs:213-233 | a protected vector passes the neighbour comparison exactly when its metrics are valid and strictly sorted, so the duplicate check adds nothing |
| LivePareto.ValidateVector | crates/tokenzero-core/src/live_pareto.rs:213-233 | reports the first metric that is refused, and why |
| LivePareto.ValidateCandidate | crates/tokenzero-core/src/live_pareto.rs:201-234 | accepts exactly valid candidates; the error is that of the first check that fails: identity, roots, verifier, number of metrics, then the first refused metric |
| LivePareto.NoWorseIsOrder | crates/tokenzero-core/src/live_pareto.rs:80-115 | no-worse and strictly-better on a metric compose as a preorder and its strict part, for all three metric orders |
| LivePareto.DominanceIsAsymmetric | crates/tokenzero-core/src/live_pareto.rs:439-484 | no candidate dominates itself, and no two dominate each other |
| LivePareto.DominanceIsTransitive | crates/tokenzero-core/src/live_pareto.rs:439-484 | live dominance is transitive between candidates with distinct ids |
| LivePareto.FrontierCovers | crates/tokenzero-core/src/live_pareto.rs:520-614 | every fresh candidate with a protected vector is on the frontier or dominated by a candidate that is |
| LivePareto.IneligibleNeverMatter | crates/tokenzero-core/src/live_pareto.rs:439-484 | candidates that are not fresh or have an empty vector can be removed without changing who is on the frontier |
| LiveMeaning.DominatesIsSurpasses | crates/tokenzero-core/src/live_pareto.rs:439-488 | dominance on the fields alone: fresh evidence on a metric, another identity, the same roots, verifier, metric names, orders and baselines, nothing lost in exactness, metrics and the eight resources, and something gained |
| LiveMeaning.AcceptedOnFields | crates/tokenzero-core/src/live_pareto.rs:201-234 | acceptance on the fields alone: names of 1 to 128 bytes without control characters, roots given, and at most 128 metrics in rising order of their names, each meeting its baseline |
| LiveMeaning.MetricErrorOnFields | crates/tokenzero-core/src/live_pareto.rs:213-233 | why a metric is refused, on the fields: its name, then its baseline, then as a repetition, then as out of order |
| LiveDecision.CheckInput | crates/tokenzero-core/src/live_pareto.rs:504-517 | accepts exactly valid candidates with distinct identities; otherwise reports the first candidate that is invalid, with its first error, or repeats an identity |
| LiveDecision.Decide | crates/tokenzero-core/src/live_pareto.rs:496-644 | errors occur exactly on no, too many, invalid or repeated candidates, the first of them deciding, and on an oversized body; otherwise the decision is the one its specification gives, and the closing validation never rejects it |
| LiveDecision.Validate | crates/tokenzero-core/src/live_pareto.rs:318-386 | accepts exactly the consistent decisions: rising ids, entries agreeing with their digests, listed frontier equal to the flagged one |
| LiveDecision.ValidateEntries | crates/tokenzero-core/src/live_pareto.rs:348-384 | comparing each entry with its predecessor is enough to accept exactly the consistent entry lists |
| LiveDecision.FindDominators | crates/tokenzero-core/src/live_pareto.rs:520-548 | the first dominator met in id order is recorded for every fresh dominated candidate, and nothing for others |
| LiveDecision.BuildEntries | crates/tokenzero-core/src/live_pareto.rs:549-614 | entries and frontier ids are built together and agree |
| LiveDecision.DecisionIsConsistent | crates/tokenzero-core/src/live_pareto.rs:318-386 | a decision within the size bound is always consistent |
| LiveDecision.FirstDominatorIsLeast | crates/tokenzero-core/src/live_pareto.rs:520-548 | the recorded dominator has the smallest id of all dominators, and none is recorded only when there is none |
| LiveDecision.EntryMeaning | crates/tokenzero-core/src/live_pareto.rs:520-614 | an entry is flagged exactly when its candidate is on the frontier, and a fresh dominated one names its smallest-id dominator |
| LiveDecision.FrontierIdsMeaning | crates/tokenzero-core/src/live_pareto.rs:549-614 | the listed ids are exactly those of frontier candidates, strictly rising |
| LiveMeaning.FrontierOnFields | crates/tokenzero-core/src/live_pareto.rs:496-614 | the frontier lists exactly the candidates with fresh evidence on some metric that no candidate surpasses, surpassing being stated on fields |
| LiveMeaning.EntryOnFields | crates/tokenzero-core/src/live_pareto.rs:520-614 | an entry's flag and its reasons can be read off the fields: stale, unknown or missing evidence, and the least identity among the candidates that surpass |
| LiveMeaning.EveryCandidateListed | crates/tokenzero-core/src/live_pareto.rs:549-614 | there is an entry for every candidate and no other |
| LiveDecision.DecisionCovers | crates/tokenzero-core/src/live_pareto.rs:520-614 | each eligible candidate is listed or dominated by a listed one, so the list is empty only without eligible candidates |
| LiveDecision.DecisionIgnoresListing | crates/tokenzero-core/src/live_pareto.rs:496-614 | every permutation of the input gives the same decision |
| LiveDecision.AcceptedAfterDeletion | crates/tokenzero-core/src/live_pareto.rs:496-517 | whatever is left of an accepted list when candidates are deleted is accepted while any remains |
| LiveDecision.IneligibleDoNotChangeFrontier | crates/tokenzero-core/src/live_pareto.rs:496-614 | deleting any stale, unknown, missing or empty-vector candidates, in any order of what is left, keeps the frontier ids while a candidate remains |
| Encoding.CancelPrefixed | crates/tokenzero-core/src/model_artifacts.rs:1031-1040 | a length-prefixed string can be taken off the front of equal byte strings |
| Encoding.CancelItemList | crates/tokenzero-core/src/model_artifacts.rs:1111-1118 | a counted list of length-prefixed strings can be taken off the front of equal byte strings |
| Encoding.Buffer.PutBytes | crates/tokenzero-core/src/model_artifacts.rs:1031-1036 | appends eight length bytes and the string, or refuses a length over 64 bits |
| Encoding.DecimalRoundTrip | crates/tokenzero-core/src/decision_view.rs:951-961 | the decimal length printed in a header reads back as the length |
| Encoding.BigEndianValue | crates/tokenzero-core/src/model_artifacts.rs:1031-1036 | the bytes of a number, most significant first, are worth that number |
| Preimages.KindsApart | crates/tokenzero-core/src/model_artifacts.rs:1052-1189 | no preimage of one kind equals one of another, and equal preimages have equal bodies |
| Preimages.BuildTokenMapPreimage | crates/tokenzero-core/src/model_artifacts.rs:1064-1075 | the bytes hashed for a token map are its preimage, refused exactly when a length does not fit |
| Preimages.TokenMapPreimageInjective | crates/tokenzero-core/src/model_artifacts.rs:1042-1075 | the token-map preimage determines tokenizer, source digest and every token |
| Preimages.BuildPagePreimage | crates/tokenzero-core/src/model_artifacts.rs:1077-1098 | the bytes hashed for a token page are its preimage, refused exactly when a length does not fit |
| Preimages.PagePreimageInjective | crates/tokenzero-core/src/model_artifacts.rs:1077-1098 | the token-page preimage determines all eight fields |
| Preimages.BuildReceiptPreimage | crates/tokenzero-core/src/model_artifacts.rs:1171-1189 | the bytes hashed for a formation receipt are its preimage, refused exactly when a length does not fit |
| Preimages.ReceiptPreimageInjective | crates/tokenzero-core/src/model_artifacts.rs:1171-1189 | the formation-receipt preimage determines all its fields |
| Preimages.BuildCapsulePreimage | crates/tokenzero-core/src/model_artifacts.rs:1100-1146 | the bytes hashed for a capsule are its preimage, refused exactly when a length does not fit |
| Preimages.CapsulePreimageInjective | crates/tokenzero-core/src/model_artifacts.rs:1100-1146 | the capsule preimage determines every field that enters it |
| TokenMap.CheckPieces | crates/tokenzero-core/src/model_artifacts.rs:273-321 | the first piece that is empty, overflows or differs from the source decides the error, then the total length |
| TokenMap.AcceptedIffExact | crates/tokenzero-core/src/model_artifacts.rs:273-321 | a map is built exactly for token lists that spell the source out of non-empty pieces |
| TokenMap.Tokenize | crates/tokenzero-core/src/model_artifacts.rs:256-321 | whatever the tokenizer adapter returns, an accepted map is exact for the source |
| TokenMap.SumLengths | crates/tokenzero-core/src/model_artifacts.rs:336-342 | the checked sum of token lengths is the length they spell, refused exactly past a machine word |
| TokenMap.ByteRangeForTokens | crates/tokenzero-core/src/model_artifacts.rs:353-379 | a token range maps to the byte offsets of its ends, refused exactly when it is no range of the map or overflows |
| TokenMap.TokenBoundary | crates/tokenzero-core/src/model_artifacts.rs:396-417 | finds the token that starts at a byte offset, or shows that none does |
| TokenMap.TokenRangeForBytes | crates/tokenzero-core/src/model_artifacts.rs:382-394 | a byte range maps to the token range with exactly those ends, refused exactly when an end is no token boundary or the range is reversed |
| TokenMap.RangesInvert | crates/tokenzero-core/src/model_artifacts.rs:353-417 | the two range conversions invert each other: different token ranges have different byte ranges |
| TokenMap.RangeSpellsSlice | crates/tokenzero-core/src/model_artifacts.rs:353-379 | the tokens of a range spell the source bytes of its byte range |
| TokenMap.Expand | crates/tokenzero-core/src/model_artifacts.rs:344-351 | expanding concatenates the token bytes in order |
| TokenPages.NewPage | crates/tokenzero-core/src/model_artifacts.rs:434-511 | a page is made exactly for a canonical whole-blob anchor of the same hash and a non-empty range within both caps; otherwise the first failing check is reported; it records the range, the tokens, the digests of the map and its own over the hashed bytes |
| TokenPages.PageExpandsToSlice | crates/tokenzero-core/src/model_artifacts.rs:530-537 | a page of an exact map expands to exactly the source bytes it claims to cover |
| OutputNovelty.Totals.Add | crates/tokenzero-core/src/output_novelty.rs:185-223 | one role's counters grow by one field and its bytes and tokens, the other roles stay, and only an overflow is refused |
| OutputNovelty.EncodedLen | crates/tokenzero-core/src/output_novelty.rs:414-428 | the length computed ahead is the length of the encoding |
| OutputNovelty.EncodeFields | crates/tokenzero-core/src/output_novelty.rs:430-453 | the encoding is built field by field, and its limit cannot fire once the length was checked |
| OutputNovelty.EncodingDetermines | crates/tokenzero-core/src/output_novelty.rs:430-453 | equal encodings carry equal digests and the same ordered names, roles and bytes |
| OutputNovelty.CheckFields | crates/tokenzero-core/src/output_novelty.rs:298-316 | accepts exactly field lists within the count, with valid distinct names and no empty novel field; otherwise the first field refused decides, for its name, as a repetition, or as empty |
| OutputNovelty.NameMeans | crates/tokenzero-core/src/output_novelty.rs:400-412 | a valid field name is a lower-case letter with up to 127 lower-case letters, digits, underscores, hyphens and dots behind it |
| OutputNovelty.Account | crates/tokenzero-core/src/output_novelty.rs:333-349 | the per-role totals are the sums over the field receipts; only the tokenizer can refuse, because sums of a bounded encoding cannot overflow |
| OutputNovelty.Encode | crates/tokenzero-core/src/output_novelty.rs:282-370 | encoding succeeds exactly when the ids are non-zero, the fields valid, the encoding within bounds and the tokenizer accepts it and every field; totals and receipts then agree |
| OutputNovelty.ReconstructFields | crates/tokenzero-core/src/output_novelty.rs:384-396 | reconstruction gives back the retained fields, always so for a coding that encoding made |
| Sections.SortRunAt | crates/tokenzero-core/src/decision_view.rs:1063-1084 | one pass skips an unscored section or sorts the maximal run in place, leaving the rest to the same specification |
| Sections.SortCommutativeRuns | crates/tokenzero-core/src/decision_view.rs:1061-1086 | the list ends as the canonical arrangement of its runs |
| Sections.KeyOrder | crates/tokenzero-core/src/decision_view.rs:1077-1083 | score, kind name and payload form a total preorder that tells scored sections apart whenever score, kind or payload differ |
| Sections.SortRunsKeepsPlaces | crates/tokenzero-core/src/decision_view.rs:1054-1086 | unscored sections keep their positions and every position keeps its class |
| Sections.SortRunsPermutes | crates/tokenzero-core/src/decision_view.rs:1061-1086 | sorting the runs only permutes the sections |
| Sections.PermutedRunsSortAlike | crates/tokenzero-core/src/decision_view.rs:1054-1086 | lists that differ only inside maximal runs end with the same scores, kinds and payloads everywhere |
| Sections.ClassesSortApart | crates/tokenzero-core/src/decision_view.rs:1061-1086 | stable sections followed by volatile ones are sorted as the two parts are sorted by themselves |
| Sections.RunsSortApart | crates/tokenzero-core/src/decision_view.rs:1063-1084 | sorting never carries a section over the end of its run: lists that no run joins are sorted each by itself |
| SectionMeaning.RunsAreOrdered | crates/tokenzero-core/src/decision_view.rs:1058-1086 | wherever a maximal run of scored sections of one class stands, exactly its sections stand there once sorted, with scores falling, equal scores in byte order of kind names and equal kinds in byte order of payloads |
| Sorting.StringLeMeans | crates/tokenzero-core/src/decision_view.rs:1077-1083 | byte order is what it should be: a prefix first, and otherwise the smaller element where two strings first differ |
| Sorting.SortIsStable | crates/tokenzero-core/src/decision_view.rs:1077-1083 | elements that may stand either way keep the order they came in |
| DecisionFrames.AppendSection | crates/tokenzero-core/src/decision_view.rs:951-973 | appends one frame exactly when the bound allows, and changes nothing otherwise |
| DecisionFrames.FrameSpelled | crates/tokenzero-core/src/decision_view.rs:951-973 | a frame is the word, the kind and the decimal length on one line, and the payload closed by a line feed |
| DecisionFrames.ViewReadsBack | crates/tokenzero-core/src/decision_view.rs:743-784 | a reader of "section kind decimal-length LF payload LF" frames recovers exactly the ordered kinds and payloads, whatever bytes the payloads hold |
| DecisionFrames.RenderingInjective | crates/tokenzero-core/src/decision_view.rs:743-784 | so rendering is injective |
| ViewRecords.PutRecord | crates/tokenzero-core/src/decision_view.rs:900-917 | appends one labelled record exactly when the bound allows |
| ViewRecords.PutRecordList | crates/tokenzero-core/src/decision_view.rs:919-949 | appends a counted list of records, succeeding exactly when all of it stays within the bound |
| ViewRecords.RecordListDetermines | crates/tokenzero-core/src/decision_view.rs:900-949 | a counted list of records determines its values, whatever follows it in the payload |
| ViewDigests.BuildGeometryPreimage | crates/tokenzero-core/src/decision_view.rs:1007-1021 | the bytes hashed for the geometry digest are its preimage |
| ViewDigests.GeometryPreimageInjective | crates/tokenzero-core/src/decision_view.rs:999-1021 | the geometry preimage determines identity, digest, both counts and the prefix bytes |
| ViewDigests.BuildViewPreimage | crates/tokenzero-core/src/decision_view.rs:1023-1052 | the bytes hashed for the view digest are its preimage |
| ViewDigests.ViewPreimageInjective | crates/tokenzero-core/src/decision_view.rs:1023-1052 | the view preimage determines both digests, every kind and score (a missing score differs from zero), the counts, the rendering and the metadata digest |
| ViewDigests.ScoreSpelled | crates/tokenzero-core/src/decision_view.rs:1041-1046 | a score is written as a one and its four bytes, a missing score as five zeros |
| ViewDigests.GeometryIsNoView | crates/tokenzero-core/src/decision_view.rs:1007-1052 | no geometry preimage is a view preimage |
| ViewMetadata.BuildMetadataPreimage | crates/tokenzero-core/src/decision_view.rs:642-653 | the bytes hashed for the metadata are its preimage, refused exactly when all but the escape byte outgrows the bound |
| ViewMetadata.MetadataPreimageInjective | crates/tokenzero-core/src/decision_view.rs:642-653 | the metadata preimage determines the choices, the supported decisions, the grade and the escape flag |
| ViewMetadata.MetadataIsApart | crates/tokenzero-core/src/decision_view.rs:642-653 | no metadata preimage is a view preimage or a geometry preimage |
| Text.Utf8LenCounts | crates/tokenzero-core/src/live_pareto.rs:202-202 | the length by which an identity is bounded is the number of its UTF-8 bytes |
| Utf8Order.OrderIsByteOrder | crates/tokenzero-core/src/live_pareto.rs:518-518 | comparing strings by scalar values is comparing their UTF-8 bytes |
| Utf8Order.Utf8Injective | crates/tokenzero-core/src/decision_view.rs:1115-1122 | strings with the same UTF-8 bytes are equal, so hashing the bytes of strings confuses none |
| DecisionView.CheckStableFirst | crates/tokenzero-core/src/decision_view.rs:726-738 | refuses exactly the lists with a stable section after a volatile one, at the first such index |
| DecisionView.RenderOrdered | crates/tokenzero-core/src/decision_view.rs:743-784 | the ordered sections are rendered exactly when all bindings agree and the bound holds, and the first section refused decides the error; the boundary is the length of the rendered stable part |
| DecisionView.Measure | crates/tokenzero-core/src/decision_view.rs:786-834 | the rendering is measured exactly when the tokenizer accepts it, the boundary is a token boundary and the metadata could be hashed, and fails with the error of the first of these that does not hold |
| DecisionView.RenderWithMetadata | crates/tokenzero-core/src/decision_view.rs:709-834 | rendering returns the view its specification gives; it fails exactly when a guard, a section, the tokenizer, the boundary or the metadata refuses, with the error of the first that does |
| DecisionView.OrderKeepsGuards | crates/tokenzero-core/src/decision_view.rs:726-742 | sorting after the stable-first guard keeps the guard true, and keeps every binding check as it was |
| DecisionViewLaws.PermutedRunsSameView | crates/tokenzero-core/src/decision_view.rs:703-834 | lists that differ only inside maximal same-class scored runs are both refused or give the same view: bytes, geometry and digests |
| DecisionViewLaws.PrefixIsStableRendering | crates/tokenzero-core/src/decision_view.rs:743-784 | the stable-prefix bytes are the rendering of the stable sections alone, whatever volatile sections follow |
| DecisionViewLaws.IdenticalIffSameStableSections | crates/tokenzero-core/src/decision_view.rs:501-509 | two views compare as identical exactly when identities agree and their stable sections order to the same kinds and payloads |
| DecisionViewLaws.GeometrySplitsView | crates/tokenzero-core/src/decision_view.rs:786-834 | the prefix is the first bytes of the rendering and the first tokens of its exact token list, and stable and volatile counts add up to the totals |
| DecisionViewLaws.DigestsOfView | crates/tokenzero-core/src/decision_view.rs:786-834 | the three digests of a view are hashed from what it holds: identity, prefix, counts, rendering, tokens, and the kinds and scores of its ordered sections, with the digest of the metadata |
| DecisionViewLaws.ViewReadsBackAsSections | crates/tokenzero-core/src/decision_view.rs:743-834 | a view's bytes read back as its ordered sections, its prefix as the stable ones |
| ShellSplit.SplitCommandString | crates/tokenzero-core/src/shell_quote.rs:29-72 | the character loop computes the words of the command under the platform's grammar |
| ShellReading.SplitReadsSpelling | crates/tokenzero-core/src/shell_quote.rs:29-72 | reading law: a text put together of bare characters, characters behind a backslash, quotes and white space, closed or broken off anywhere, splits into exactly the words so spelled, on each platform |
| ShellReading.EveryTextIsSpelled | crates/tokenzero-core/src/shell_quote.rs:29-72 | every text is put together so, hence the reading law settles splitting for every text |
| ShellReading.DoubleQuotedReadsBack | crates/tokenzero-core/src/shell_quote.rs:41-48 | on posix every string between double quotes, with a backslash before each dollar sign, backquote, double quote and backslash, reads back as itself |
| ShellReading.OtherBackslashStays | crates/tokenzero-core/src/shell_quote.rs:43-48 | on posix a backslash between double quotes stays before any other character |
| ShellReading.BackslashedReadsBack | crates/tokenzero-core/src/shell_quote.rs:39-49 | on posix any string with a backslash before every character reads back as itself, white space and quotes included |
| ShellQuote.QuoteWindowsCmd | crates/tokenzero-core/src/shell_quote.rs:306-327 | the push loop writes the word bare or quoted with `"`, `%` and `^` doubled |
| PrintingMeaning.PrintMeans | crates/tokenzero-core/src/shell_quote.rs:289-331 | a word is printed bare exactly when it is not empty and holds only the listed characters, and otherwise between marks with each mark inside replaced, by every printer but the quoting one of cmd |
| PrintingMeaning.CmdPrintMeans | crates/tokenzero-core/src/shell_quote.rs:306-327 | on cmd a word that cannot stay bare is quoted with each quotation mark, percent sign and caret doubled |
| ShellQuote.PrintedReadsBack | crates/tokenzero-core/src/shell_quote.rs:296-342 | a printed word in front of a space or the end is read as exactly one word |
| ShellQuote.SplitUndoesPrint | crates/tokenzero-core/src/shell_quote.rs:333-342 | splitting the printed command line gives the list back, for every list of strings and every printer but the quoting one of cmd |
| ShellQuote.SplitUndoesCmdQuote | crates/tokenzero-core/src/shell_quote.rs:306-342 | on cmd it gives the list back with each `%` and `^` doubled |
| ShellQuote.CmdRoundTripIff | crates/tokenzero-core/src/shell_quote.rs:319-320 | so the cmd round trip holds exactly for lists without `%` and `^` |
| ShellQuote.SplitUndoesDisplay | crates/tokenzero-core/src/shell_display.rs:5-27 | the displayed command line splits into the arguments it shows, on all three platforms |
| ShellOperators.QuoteCursor.NextUnquoted | crates/tokenzero-core/src/shell_parse.rs:422-437 | returns the next character outside quotes with its index and the character after it, or nothing when there is none |
| ShellOperators.SplitShell | crates/tokenzero-core/src/shell_parse.rs:472-523 | the cursor loop collects the trimmed non-empty pieces between operators, with and without cuts at pipes |
| ShellOperators.PiecesToBare | crates/tokenzero-core/src/shell_parse.rs:422-437 | nothing is cut before the next character outside quotes |
| OperatorReading.PiecesAreStretches | crates/tokenzero-core/src/shell_parse.rs:472-523 | a command put together of operators, other characters, characters behind a backslash and quotes is cut exactly at the operators spelled, by both splitters |
| OperatorReading.EveryCommandIsSpelled | crates/tokenzero-core/src/shell_parse.rs:422-523 | every command is put together so, hence its pieces and its features are settled by what it spells |
| HookSegments.TopLevelSegments | crates/tokenzero-cli/src/hook.rs:198-254 | the character loop computes the top-level segments, or refuses at a lone background `&` |
| HookSegments.TopLevelAgrees | crates/tokenzero-cli/src/hook.rs:198-254 | whenever it gives segments, trimming them and dropping empty ones gives exactly the segments of the shell analysis |
| HookMeaning.TopLevelReads | crates/tokenzero-cli/src/hook.rs:198-254 | the hook's segments are what stands between the operators spelled, and it refuses exactly when an ampersand stands alone with no greater-than sign next to it |
| ShellSplitLaws.SplitInTwoSteps | crates/tokenzero-core/src/shell_parse.rs:472-523 | splitting every list element at its pipes gives the pieces of splitting at once, before trimming |
| ShellSplitLaws.SplitIgnoresTrim | crates/tokenzero-core/src/shell_parse.rs:472-523 | trimming a command first does not change its segments, even when the space trimmed was escaped or quoted |
| ShellSplitLaws.ElementsThenSegments | crates/tokenzero-core/src/shell_parse.rs:472-523 | splitting each list element into segments gives the segments of the whole command, in order |
| ShellSyntax.RawShellOperatorFeatures | crates/tokenzero-core/src/shell_parse.rs:440-468 | the cursor loop lists the operators outside quotes, each once, in order of first appearance |
| OperatorReading.TokensShow | crates/tokenzero-core/src/shell_parse.rs:440-468 | the features listed are those of the operators spelled, in order of first appearance |
| OperatorReading.FeaturesMeaning | crates/tokenzero-core/src/shell_parse.rs:444-464 | a feature is listed exactly when an operator of its kind is spelled, and none twice |
| ShellSyntax.CheckPosixEnvAssignment | crates/tokenzero-core/src/shell_quote.rs:170-178 | accepts exactly words that begin with an identifier and `=` |
| ShellSyntax.DetectShellSyntax | crates/tokenzero-core/src/shell_quote.rs:90-134 | reports a leading assignment among several words, or syntax outside quotes |
| SyntaxMeaning.SyntaxMeans | crates/tokenzero-core/src/shell_quote.rs:90-134 | a value counts as shell syntax exactly when it spells an operator, a line feed, a dollar sign or a tilde that a shell would expand, or its first of several words assigns a variable |
| SyntaxMeaning.AssignmentMeans | crates/tokenzero-core/src/shell_quote.rs:170-178 | a word assigns exactly when it is an identifier, an equals sign and anything |
| ShellHiding.PrintingHidesOperators | crates/tokenzero-core/src/shell_parse.rs:440-523 | whatever the arguments hold, a posix-printed command line shows no operator: no feature, and all three splitters leave it whole |
| ShellHiding.SyntaxOfPrinted | crates/tokenzero-core/src/shell_quote.rs:90-134 | a posix-printed command line counts as shell syntax exactly when its first of several words assigns a variable |
| ShellHiding.QuotedValueHasNoSyntax | crates/tokenzero-core/src/shell_quote.rs:90-134 | a single quoted value never counts as shell syntax |
| HookRewrite.RewriteSplits | crates/tokenzero-cli/src/hook.rs:162-170 | the rewritten command splits into exactly the executable, run, --, sh, -c and the original command |
| HookRewrite.RewriteHidesOperators | crates/tokenzero-cli/src/hook.rs:162-170 | the rewritten command shows no operator and is one top-level segment, whatever the original held |
| HookRewrite.RewriteOnce | crates/tokenzero-cli/src/hook.rs:176-196 | a command routed through an executable that bears the program's name is not routed again |
| HookRewrite.RewriteAgainIff | crates/tokenzero-cli/src/hook.rs:162-196 | a routed command is kept from being routed again exactly when the executable bears the program's name or two less-than signs, the listed programs being bare words |
| HookMeaning.RoutedIff | crates/tokenzero-cli/src/hook.rs:162-196 | a command is routed exactly when it says something, names neither the program nor its switch, holds no here document, puts nothing in the background and has no segment that is blank or begins with a listed program |
| TokenCount.CountAscii | crates/tokenzero-core/src/tokens.rs:501-512 | the table-driven byte pass counts the bytes up to the first non-ASCII one, or all of them |
| TokenCount.CountIsTokenStarts | crates/tokenzero-core/src/tokens.rs:524-533 | the one-pass count is the number of positions at which a token starts |
| TokenCount.CountTokensTail | crates/tokenzero-core/src/tokens.rs:524-533 | counts the bytes before the offset and the characters after it |
| TokenCount.TailCountsSeamTwice | crates/tokenzero-core/src/tokens.rs:524-533 | restarting after ASCII characters counts a word that the offset cuts twice, and nothing else |
| TokenCount.CountTokensLexical | crates/tokenzero-core/src/tokens.rs:514-533 | the fast counter equals the one-pass character count on every text |
| TokenPacking.PackForModel | crates/tokenzero-core/src/tokens.rs:392-422 | for a registered family the result is the longest prefix within both caps exactly unless the budget saturates; for the fallback it is the documented largest prefix that cuts no word exactly unless the fitting characters end just behind a word or a zero budget drops leading whitespace |
| TokenPacking.PackIsLongestIff | crates/tokenzero-core/src/tokens.rs:359-364 | the packed width is the largest that the rounded-up estimate and the character cap allow, exactly unless it saturates |
| TokenPacking.LexicalBoundaryPrefix | crates/tokenzero-core/src/tokens.rs:424-459 | the scan returns the longest fitting prefix among the empty one, the whole text and those ending outside a word |
| TokenPacking.FallbackIsLongestIff | crates/tokenzero-core/src/tokens.rs:398-403 | through the packing function that holds exactly unless the token budget is zero and the text starts with whitespace |
| TokenPacking.FallbackMeetsPromiseIff | crates/tokenzero-core/src/tokens.rs:366-368 | what the packing function returns without a family is the documented largest prefix that cuts no word exactly unless the fitting characters end just behind a word, or the token budget is zero and the text starts with whitespace |
| TokenPacking.FallbackDropsFittingWord | crates/tokenzero-core/src/tokens.rs:435-458 | for `ab.` and a budget of one token `ab` fits and cuts no word, but the empty prefix is returned |
| TokenPacking.FallbackDropsBlank | crates/tokenzero-core/src/tokens.rs:398-400 | for a blank before `x` and no tokens the blank fits and cuts no word, but the empty prefix is returned |
| TokenBudget.Grow | crates/tokenzero-core/src/tokens.rs:192-222 | parts are added one at a time while the whole still fits, up to the limit |
| TokenBudget.ElideTopLevelJson | crates/tokenzero-core/src/tokens.rs:168-226 | elision gives the object or array with the sentinel and the parts kept, or nothing when even the sentinel does not fit or its key is taken |
| TokenBudget.ElisionKeepsPrefix | crates/tokenzero-core/src/tokens.rs:192-222 | elision keeps a longest fitting run of first entries and drops at least one of a non-empty value |
| TokenBudget.RetainPlainLinesAfterMarker | crates/tokenzero-core/src/tokens.rs:228-245 | lines are kept after the marker while they fit |
| TokenBudget.RetentionKeepsFirstLines | crates/tokenzero-core/src/tokens.rs:228-245 | what is kept is the marker and a longest fitting run of first lines |
| TokenBudget.EnforceTokenBudgetWithRef | crates/tokenzero-core/src/tokens.rs:130-164 | text that fits is kept; an object or array keeps the most first entries that fit behind the sentinel, or gives the marker; plain text over the budget is the marker and the most first lines that fit after it, or the marker alone when even that exceeds the budget |
| TokenBudget.BudgetIsKept | crates/tokenzero-core/src/tokens.rs:130-164 | the result costs at most the budget, or exactly the marker |
| TokenBudget.EnforcedIsBudgeted | crates/tokenzero-core/src/tokens.rs:130-164 | of the text returned: text that fits is kept; otherwise an object or array is its opening, the sentinel, as many first entries as fit short of the last, and its closing, or the marker, and other text is the marker and as many first lines as fit, each after a line feed |
| TokenBudget.BudgetedIsUnique | crates/tokenzero-core/src/tokens.rs:130-245 | exactly one text meets that promise, for every input: the one returned |
| Capsules.RuleSurvivesMoreText | crates/tokenzero-core/src/lib.rs:520-555 | a capsule that satisfies the omission rule still does when text is added around its view: everything the rule looks for stays visible |
| Capsules.NeverWorseIsCheaper | crates/tokenzero-core/src/lib.rs:673-687 | the guard takes the cheaper of capsule and payload, breaks no omission rule, keeps the cost that of the text, and changes nothing the second time |
| Capsules.MarkOmission | crates/tokenzero-core/src/lib.rs:621-667 | an omission is marked by the reference, by the declaration within the budget, or undone when declaring would not save |
| Capsules.FinalizeCapsuleOmission | crates/tokenzero-core/src/lib.rs:615-669 | finalization returns the capsule so marked and guarded, exactly when it meets the omission rule |
| Capsules.FinalizedNeverWorse | crates/tokenzero-core/src/lib.rs:615-687 | a finalized capsule reports the cost of its own text, at most that of the trimmed original |
| CapsuleMeaning.RuleMeans | crates/tokenzero-core/src/lib.rs:520-555 | the omission rule on the fields: all of the original shown but white space at its end, or a visible anchor, or a visible exact reference, or a complete lossy declaration |
| CapsuleMeaning.FinalizedIs | crates/tokenzero-core/src/lib.rs:615-687 | a finalized capsule is unchanged, or names its reference and shows it, or declares its loss with policy and span within the budget, or shows the original and claims nothing left out, never costing more than the original |
| CapsuleMeaning.OriginalShownOnlyToSave | crates/tokenzero-core/src/lib.rs:615-687 | the original is shown instead only when what would be shown costs more or declaring would save nothing |
| Capsules.ProgramDeclarationDeclares | crates/tokenzero-core/src/tokens.rs:112 | the program's lossy declaration contains both phrases the omission rule looks for |
| Capsules.FinalizationFailsIff | crates/tokenzero-core/src/lib.rs:641-667 | finalization fails exactly when bytes are omitted without a usable reference, the view is cheaper and already said `mode=lossy`, and the view, or its elision over the budget, names no policy or lost those words and shows neither the original nor an anchor or reference |
| Capsules.PlainViewFailsIff | crates/tokenzero-core/src/lib.rs:641-667 | for a view that is no JSON object or array: exactly when it says `mode=lossy` without a policy, fits the budget, costs less than the original and nothing rescues it |
| Capsules.FreeViewNeverFails | crates/tokenzero-core/src/lib.rs:641-667 | a view free of `mode=lossy` is always finalized |
| Capsules.BudgetedViewFailsIff | crates/tokenzero-core/src/lib.rs:641-667 | for any view that has been budgeted, JSON or not: exactly when it omits bytes without a usable reference, costs less than the original, says `mode=lossy` without a policy and shows no anchor or reference |
| CapsuleMaking.MakeCapsule | crates/tokenzero-core/src/lib.rs:709-766 | the view of the mode is budgeted, gives way to the payload when that is cheaper, and is finalized; the result is the capsule so made exactly when it meets the omission rule |
| ModeMeaning.ModeShows | crates/tokenzero-core/src/lib.rs:709-741 | what the view of each mode shows, on lines: the windows around errors or the first 8 and last 6 lines, the first 24 and last 16, the first 18 and last 12 over the budget, the deduplicated lines, up to 120 lines of a diff, all of the text, or the stub |
| ModeMeaning.DiagnosisShows | crates/tokenzero-core/src/lib.rs:723-726 | a diagnostic view shows the lines near errors in place with the stretches between counted, exactly when there is an error and something to say about it, and otherwise the ends of the text, or all of a short one |
| ModeMeaning.LineNearErrorIsShown | crates/tokenzero-core/src/lib.rs:1784-1823 | every line within three lines of an error is shown unless it is blank, the last line shown without the white space at its end |
| ModeMeaning.DiffShows | crates/tokenzero-core/src/lib.rs:1718-1731 | a diff view shows the lines of the diff in order, at most 120, and the ends of a text that has none |
| CapsuleMeaning.BudgetedViewIs | crates/tokenzero-core/src/lib.rs:735-748 | the view shown is that of the mode within the budget, or the text when the view costs more than was measured and more than the text |
| CapsuleMaking.PassthroughShowsAll | crates/tokenzero-core/src/lib.rs:720-732 | passing a text through omits nothing |
| CapsuleMaking.MadeNeverWorse | crates/tokenzero-core/src/lib.rs:709-766 | what is made reports the cost of its own text, at most that of the trimmed original |
| CapsuleMaking.MakingFailsIff | crates/tokenzero-core/src/lib.rs:709-766 | from the view of any mode, making fails exactly when there is no usable reference and the view about to be shown omits bytes, is cheaper than the text, and says `mode=lossy` without a policy |
| CapsuleMaking.FreeSummaryFailsIff | crates/tokenzero-core/src/lib.rs:709-766 | from a view free of `mode=lossy`, making fails exactly when there is no usable reference, the view exceeds the budget, and its JSON elision says the words without a policy, omits bytes and is cheaper than the text |
| CapsuleEscapes.EscapedTextFails | crates/tokenzero-core/src/tokens.rs:200-222 | a JSON text with one letter of `mode=lossy` escaped, a budget of 30 tokens by the family estimate: the view is free of the words and no capsule can be made |
| CapsuleEscapes.LabelledTextFails | crates/tokenzero-core/src/lib.rs:720-766 | an exact capsule of a long text under a label that says `mode=lossy` cannot be made without a reference, counted by the family estimate |
| LineText.LinesUndoJoin | crates/tokenzero-core/src/lib.rs:1545-1545 | the lines of joined lines are those lines, when none ends in a carriage return and the last is not empty |
| LineText.LinesDropEndings | crates/tokenzero-core/src/lib.rs:1545-1545 | the lines of a text are the stretches up to each line feed without the line feed, or without a carriage return and line feed |
| LineText.LinesSettled | crates/tokenzero-core/src/tokens.rs:233-233 | a text falls into such stretches in one way only |
| LineText.SplitUndoesJoin | crates/tokenzero-core/src/lib.rs:1598-1598 | splitting at line feeds gives back the lines that were joined with them |
| LineText.ReadMarkerInverts | crates/tokenzero-core/src/lib.rs:1789-1791 | a line reads as a marker with a number exactly when it is the marker written for that number |
| LineViews.WindowLines | crates/tokenzero-core/src/lib.rs:1808-1822 | the nested loop emits the kept lines and, for each stretch between them, the marker that counts it |
| LineViews.ViewReadsBackIff | crates/tokenzero-core/src/lib.rs:1808-1822 | read back, the emitted lines give each kept line and count each other line in place exactly when no kept line reads as a marker |
| LineViews.MarkedGapsWhole | crates/tokenzero-core/src/lib.rs:1808-1822 | no gap is empty and no two are adjacent |
| LineViews.KeepWindows | crates/tokenzero-core/src/lib.rs:1793-1804 | a line is kept exactly when a hit is within the radius, even for a radius past the ends |
| LineViews.KeywordWindowView | crates/tokenzero-core/src/lib.rs:1792-1823 | the text is empty exactly when there is no hit, and otherwise the lines near hits and the markers between, joined |
| LineViews.WindowViewConserves | crates/tokenzero-core/src/lib.rs:1792-1823 | the text shows every hit; read back, it gives each line near a hit and counts every other in place exactly when no line near a hit reads as a marker |
| LineViews.MarkerLineIsMisread | crates/tokenzero-core/src/lib.rs:1808-1822 | a hit followed by the words of a marker: the view shows both and reads as one line and two left out |
| LineSummary.OrderVisitsAll | crates/tokenzero-core/src/lib.rs:1461-1478 | the priority order visits every line once, critical lines first |
| LineSummary.PickLines | crates/tokenzero-core/src/lib.rs:1479-1491 | the greedy loop picks what its specification picks |
| LineSummary.LeftOutDoesNotFit | crates/tokenzero-core/src/lib.rs:1481-1491 | every critical line is picked, and any other line that says something is left out only when it would not have fit |
| LineSummary.PicksKeepBudget | crates/tokenzero-core/src/lib.rs:1481-1491 | the picked lines and a marker fit the budget, unless only critical lines were picked |
| LineSummary.FillGaps | crates/tokenzero-core/src/lib.rs:1492-1496 | the ascending pass fills the gaps its specification fills |
| LineSummary.NothingLeftToFill | crates/tokenzero-core/src/lib.rs:1492-1496 | after one ascending pass no one-line gap is left that costs no more than its marker |
| LineSummary.SelectionKeepsCritical | crates/tokenzero-core/src/lib.rs:1478-1496 | the selection keeps every critical line and leaves no fillable one-line gap |
| SummaryText.RenderSelection | crates/tokenzero-core/src/lib.rs:1500-1530 | the loop pushes onto the prefix the kept lines and, before each, the marker of the gap before it |
| SummaryText.PushedIsJoined | crates/tokenzero-core/src/lib.rs:1525-1530 | pushing lines joins them with line feeds onto the prefix, except that every empty line but the last is lost |
| SummaryText.ShownIffNoneEmpty | crates/tokenzero-core/src/lib.rs:1525-1530 | the lines seen are the lines pushed exactly when none before the last is empty, and are fewer otherwise |
| SummaryText.SelectionReadsBackIff | crates/tokenzero-core/src/lib.rs:1500-1530 | read back after the prefix, the text gives each kept line and counts each other line in place exactly when no kept line reads as a marker and none before the last line is empty; a lost line is not counted either |
| SummaryText.SummaryConserves | crates/tokenzero-core/src/lib.rs:1451-1530 | the summary of selected lines shows every critical line that is not empty, and accounts for every line exactly on that condition |
| SummaryText.EmptyBetweenCriticalIsLost | crates/tokenzero-core/src/lib.rs:1492-1530 | an empty line between two critical ones is kept by the gap fill and missing from the text |
| SummaryText.EmptyLineIsLost | crates/tokenzero-core/src/lib.rs:1492-1530 | five short lines and a budget of one token where that happens |
| SummaryText.MarkerBetweenCriticalIsMisread | crates/tokenzero-core/src/lib.rs:1492-1530 | a cheap line that reads as a marker, between two critical ones, is kept and taken for lines left out |
| SummaryText.MarkerLineIsMisread | crates/tokenzero-core/src/lib.rs:1492-1530 | five short lines, one of them the marker of two lines left out, where that happens |
| SummaryText.HeadTailConserves | crates/tokenzero-core/src/lib.rs:945-958 | for any head and tail, zero included, a long text is shown as its first and last lines around the count of all others, set off by empty lines; an end without lines leaves an empty one |
| SummaryText.SummarizeTokens | crates/tokenzero-core/src/lib.rs:1451-1523 | the text stays whole exactly when it is small or the budget is zero; otherwise the selected lines are rendered, or the head and tail when none is selected |
| SummaryMeaning.SummaryShows | crates/tokenzero-core/src/lib.rs:1451-1523 | what the summary shows: all of a text without budget, within the budget or of at most four lines, and otherwise the lines so picked around counts of the others, or the ends when none is picked |
| LineSummary.SelectionKeepsBudget | crates/tokenzero-core/src/lib.rs:1478-1496 | on the lines: those picked fit the budget with a marker or are all critical, hold every critical line and none that says nothing, none that would have fit is left out, and none is picked while a line that costs no more and is preferred is not: critical, then among the first or last three, then dense, then earlier; the selection adds only cheap lines that fill a gap of one |
| LineDedupe.DedupeLines | crates/tokenzero-core/src/lib.rs:1544-1592 | the loop pushes, pass by pass, the line, the marker of its exact repetitions or of its similar run |
| LineDedupe.ItemsAreFaithful | crates/tokenzero-core/src/lib.rs:1544-1592 | what is pushed stands, before it is written as text, for every line in place: given back, or collapsed into a run of similar non-critical lines of which the first was kept |
| DedupeMeaning.ExactRunIsPushed | crates/tokenzero-core/src/lib.rs:1564-1589 | three or more equal lines are pushed as the line and a count, one or two as they are unless a run of similar lines begins with them |
| DedupeMeaning.SimilarRunIsPushed | crates/tokenzero-core/src/lib.rs:1574-1587 | where digits are ignored, four or more similar lines that are not critical are pushed as the first and a count, unless they begin with three equal ones |
| DedupeText.DedupeIsFaithfulIff | crates/tokenzero-core/src/lib.rs:1544-1592 | read back from its strings, the output accounts for every line in place exactly when no line that it shows after the first reads as a marker |
| DedupeText.DedupeTextReadsBackIff | crates/tokenzero-core/src/lib.rs:1544-1600 | the same holds of the text returned, unless it was compacted to its ends |
| DedupeText.PlainDedupeRoundTripsIff | crates/tokenzero-core/src/lib.rs:1544-1592 | without structural collapsing the input can be expanded back from the output strings exactly when no line after the first run says that it repeats another |
| DedupeText.TwoOriginals | crates/tokenzero-core/src/lib.rs:1563-1573 | three equal lines, and one line followed by the words that say so, give the same output |
| DedupeText.CriticalLinesStay | crates/tokenzero-core/src/lib.rs:1559-1563 | a critical line is pushed to the output and never collapsed away |
| DedupeText.CriticalLinesShownIff | crates/tokenzero-core/src/lib.rs:1543-1606 | a critical line is in the text returned exactly when the output is short enough to be kept whole, or holds it in one of its ends, or it is the very marker between them, or empty while no context is kept |
| DedupeText.CriticalAmidIsDropped | crates/tokenzero-core/src/lib.rs:1594-1606 | for every context a critical line in the middle of enough other critical ones is missing from the text |
| DedupeText.CriticalLineIsDropped | crates/tokenzero-core/src/lib.rs:1170-1170 | 35 lines and the context of the shell view where that happens |
| DedupeText.CompactionReadsBack | crates/tokenzero-core/src/lib.rs:1594-1606 | the lines of the text are the output, or its ends around a marker exactly when some context is kept; lines and count add up and the ends never overlap |
| DedupeText.DedupeLinesImpl | crates/tokenzero-core/src/lib.rs:1544-1606 | the text returned is the compacted output of the passes over the lines |
| DigitRuns.NormalizeDigitRuns | crates/tokenzero-core/src/lib.rs:1608-1623 | the character loop computes the normal form |
| DigitRuns.PiecesSpell | crates/tokenzero-core/src/lib.rs:1608-1623 | the pieces of a line spell it |
| DigitRuns.PiecesRunsWhole | crates/tokenzero-core/src/lib.rs:1608-1623 | the pieces are maximal runs of digits and single other characters |
| DigitRuns.NormalsEqualIff | crates/tokenzero-core/src/lib.rs:1608-1623 | two lines have the same normal form exactly when they agree piece by piece up to the digits of runs and a literal `#` in the place of a run |
| DigitRuns.SameShapeIff | crates/tokenzero-core/src/lib.rs:1608-1623 | lines without `#` have the same normal form exactly when they differ only in the digits of their runs |
| DigitRuns.HashReadsAsRun | crates/tokenzero-core/src/lib.rs:1608-1623 | `a1` and `a#` have the same normal form and differ in more than digits |

## Left out

- ShellSplit.SplitCommandString: the platform `windows` is not modelled; its grammar follows the shell named by the first word, and no round trip is a law there.
- ShellOperators.SplitShell: takes the command as analysed; unwrapping of `sh -c` by `shell_analysis_command` is left out, and the two source loops share one method with a mode.
- HookRewrite.RewriteOnce: the lists of skipped programs are a parameter, and this law speaks of executables with the program's name only; `HookRewrite.RewriteAgainIff` covers every executable.
- TokenPacking.PackForModel: takes the tokenizer family directly; recognising a model id by its name is a table of prefixes.
- TokenCount.CountTokensTail: takes its offset as a number of characters, which is the byte offset it stands for.
- TokenBudget.ElideTopLevelJson: the loops of the object and the array arm share one method; serialization of entries is a parameter.
- CapsuleMaking.MakeCapsule: the prefix made of a label, the grammar of exact references, the count of lines, and which lines are errors or belong to a diff are parameters; `make_capsule_content_aware` and its summaries are left out, and `Capsules.BudgetedViewFailsIff` covers every view they can give.
- Capsules.FinalizationFailsIff: for a JSON view over the budget the condition speaks of its elision; no view that was budgeted before is one, and `Capsules.BudgetedViewFailsIff` needs no elision. Assumes of JSON only that no JSON text begins with the lossy declaration or ends with it on a line of its own, and that the spans a capsule already carries are complete (every capsule starts with none).
- SummaryText.SummarizeTokens: takes texts within a machine word; which lines are critical or dense is a parameter.
- DedupeText.DedupeLinesImpl: takes texts within a machine word; which lines are critical is a parameter, and the normal forms are computed where the loop compares them instead of ahead.
- ViewMetadata.BuildMetadataPreimage: the limit on the number of choices and decisions is checked where metadata are made and is left out.
- Levenshtein.Distance: rows hold unbounded numbers; their entries never exceed the sum of the two lengths.
- Length-overflow errors of buffers that cannot exist in memory are modelled where they are reported, but no caller can reach them.
- `render_payload_digest` joins a prefix and a tail without lengths and so fixes no split between them.
- `AppendOnlyCapsuleSlots`, joining completeness grades, the reasoning state, provider cache, token classes and protocol atoms: single checks or one-line arithmetic.
- Failure attribution, keyword lists and secret masking: heuristics without a law; they appear as arbitrary predicates.
- Command-line wiring, report building, installation, benchmarks, packaging and fuzz targets: input and output without a deep invariant.
- Environment variables and the process-wide choice of a tokenizer: parameters.
