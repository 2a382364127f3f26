/** `decide_live_pareto` and `LiveParetoDecision::validate` (live_pareto.rs). */
module LiveDecision {
  import opened LivePareto
  import opened Machine
  import opened Sorting
  import opened Text
  import opened Wrappers

  /** The foreign functions a decision depends on: the binding digest of a candidate, the canonical JSON of a
      body, and the SHA-256 of the domain tag followed by that JSON. */
  datatype Foreign = Foreign(bind: LiveCandidate -> string, canonical: LiveBody -> Bytes, digest: Bytes -> string)

  predicate IdLe(a: LiveCandidate, b: LiveCandidate) {
    StringLe(a.candidateId, b.candidateId)
  }

  function IdOf(c: LiveCandidate): string {
    c.candidateId
  }

  ghost predicate DistinctListing(candidates: seq<LiveCandidate>) {
    forall i, j :: 0 <= i < j < |candidates| ==> candidates[i].candidateId != candidates[j].candidateId
  }

  ghost predicate AcceptedInput(candidates: seq<LiveCandidate>) {
    && 0 < |candidates| <= MAX_CANDIDATES
    && (forall i :: 0 <= i < |candidates| ==> ValidCandidate(candidates[i]))
    && DistinctListing(candidates)
  }

  ghost function Members(candidates: seq<LiveCandidate>): set<LiveCandidate> {
    set c | c in candidates
  }

  /** The identity of the first dominator at or after position `from`. */
  function FirstDominator(s: seq<LiveCandidate>, c: LiveCandidate, from: nat): Option<string>
    requires from <= |s|
    decreases |s| - from
  {
    if from == |s| then None
    else if LiveDominates(s[from], c) then Some(s[from].candidateId)
    else FirstDominator(s, c, from + 1)
  }

  function DominatorOf(s: seq<LiveCandidate>, c: LiveCandidate): Option<string> {
    if c.freshness.Fresh? then FirstDominator(s, c, 0) else None
  }

  predicate InFrontier(s: seq<LiveCandidate>, c: LiveCandidate) {
    c.freshness.Fresh? && DominatorOf(s, c).None? && c.protectedVector != []
  }

  function Reasons(c: LiveCandidate, dominator: Option<string>): seq<Reason> {
    (match c.freshness
     case Stale => [StaleEvidence]
     case Unknown => [UnknownEvidence]
     case Missing => [MissingEvidence]
     case Fresh => if c.protectedVector == [] then [MissingEvidence] else []) +
    (match dominator
     case Some(id) => [DominatedBy(id)]
     case None => [])
  }

  function EntryOf(s: seq<LiveCandidate>, c: LiveCandidate, foreign: Foreign): LiveEntry {
    LiveEntry(c, foreign.bind(c), InFrontier(s, c), Reasons(c, DominatorOf(s, c)))
  }

  function Entries(s: seq<LiveCandidate>, foreign: Foreign): (entries: seq<LiveEntry>)
    ensures |entries| == |s|
  {
    seq(|s|, i requires 0 <= i < |s| => EntryOf(s, s[i], foreign))
  }

  function FlaggedIds(entries: seq<LiveEntry>): seq<string> {
    if entries == [] then []
    else
      var last := entries[|entries| - 1];
      FlaggedIds(entries[..|entries| - 1]) + if last.inFrontier then [last.candidate.candidateId] else []
  }

  /** The decision over candidates already listed by identity. */
  function SortedBody(s: seq<LiveCandidate>, foreign: Foreign): LiveBody {
    LiveBody(CONTRACT_VERSION, FlaggedIds(Entries(s, foreign)), Entries(s, foreign))
  }

  function Seal(body: LiveBody, foreign: Foreign): LiveParetoDecision {
    LiveParetoDecision(body, foreign.digest(foreign.canonical(body)), foreign.canonical(body))
  }

  ghost function DecisionOf(candidates: seq<LiveCandidate>, foreign: Foreign): LiveParetoDecision {
    Seal(SortedBody(SortBy(candidates, IdLe), foreign), foreign)
  }

  ghost predicate StrictlyRising(ids: seq<string>) {
    forall i, j :: 0 <= i < j < |ids| ==> StringLt(ids[i], ids[j])
  }

  predicate Rising(ids: seq<string>) {
    forall i :: 0 < i < |ids| ==> StringLt(ids[i - 1], ids[i])
  }

  ghost predicate RisingEntries(entries: seq<LiveEntry>) {
    forall i, j :: 0 <= i < j < |entries| ==>
                     StringLt(entries[i].candidate.candidateId, entries[j].candidate.candidateId)
  }

  ghost predicate EntryConsistent(e: LiveEntry, foreign: Foreign) {
    && ValidCandidate(e.candidate)
    && e.bindingDigest == foreign.bind(e.candidate)
    && (e.inFrontier ==> Eligible(e.candidate))
  }

  ghost predicate EntriesConsistent(entries: seq<LiveEntry>, foreign: Foreign) {
    RisingEntries(entries) && forall i :: 0 <= i < |entries| ==> EntryConsistent(entries[i], foreign)
  }

  /** What the validator demands of a decision. */
  ghost predicate Consistent(d: LiveParetoDecision, foreign: Foreign) {
    && d.body.contractVersion == CONTRACT_VERSION
    && |d.canonicalJson| <= MAX_CANONICAL_BYTES
    && 0 < |d.body.entries| <= MAX_CANDIDATES
    && d.canonicalJson == foreign.canonical(d.body)
    && d.decisionDigest == foreign.digest(d.canonicalJson)
    && Rising(d.body.frontierIds)
    && EntriesConsistent(d.body.entries, foreign)
    && d.body.frontierIds == FlaggedIds(d.body.entries)
  }

  method Validate(d: LiveParetoDecision, foreign: Foreign) returns (ok: bool)
    ensures ok <==> Consistent(d, foreign)
  {
    var body := d.body;
    if body.contractVersion != CONTRACT_VERSION || |d.canonicalJson| > MAX_CANONICAL_BYTES ||
       |body.entries| == 0 || |body.entries| > MAX_CANDIDATES || foreign.canonical(body) != d.canonicalJson ||
       foreign.digest(foreign.canonical(body)) != d.decisionDigest || !Rising(body.frontierIds) {
      return false;
    }
    var entriesOk, flagged := ValidateEntries(body.entries, foreign);
    ok := entriesOk && flagged == body.frontierIds;
  }

  method ValidateEntry(entry: LiveEntry, foreign: Foreign) returns (ok: bool)
    ensures ok <==> EntryConsistent(entry, foreign)
  {
    var refused := ValidateCandidate(entry.candidate);
    if refused.Some? || foreign.bind(entry.candidate) != entry.bindingDigest {
      return false;
    }
    ok := entry.inFrontier ==> Eligible(entry.candidate);
  }

  method ValidateEntries(entries: seq<LiveEntry>, foreign: Foreign) returns (ok: bool, flagged: seq<string>)
    ensures ok <==> EntriesConsistent(entries, foreign)
    ensures ok ==> flagged == FlaggedIds(entries)
  {
    flagged := [];
    var previous: Option<string> := None;
    for k := 0 to |entries|
      invariant previous == if k == 0 then None else Some(entries[k - 1].candidate.candidateId)
      invariant flagged == FlaggedIds(entries[..k])
      invariant EntriesConsistent(entries[..k], foreign)
    {
      var entry := entries[k];
      ConsistentSnoc(entries, k, foreign);
      if previous.Some? && !StringLt(previous.value, entry.candidate.candidateId) {
        return false, [];
      }
      previous := Some(entry.candidate.candidateId);
      var entryOk := ValidateEntry(entry, foreign);
      if !entryOk {
        return false, [];
      }
      assert entries[..k + 1][..k] == entries[..k];
      if entry.inFrontier {
        flagged := flagged + [entry.candidate.candidateId];
      }
    }
    assert entries[..|entries|] == entries;
    ok := true;
  }

  /** Comparing an entry with its neighbour is enough to keep the whole list rising. */
  lemma ConsistentSnoc(entries: seq<LiveEntry>, k: nat, foreign: Foreign)
    requires k < |entries| && EntriesConsistent(entries[..k], foreign)
    ensures EntriesConsistent(entries[..k + 1], foreign) <==>
            (k > 0 ==> StringLt(entries[k - 1].candidate.candidateId, entries[k].candidate.candidateId)) &&
            EntryConsistent(entries[k], foreign)
    ensures !EntriesConsistent(entries[..k + 1], foreign) ==> !EntriesConsistent(entries, foreign)
  {
    var before, after := entries[..k], entries[..k + 1];
    assert forall i :: 0 <= i < k ==> after[i] == before[i];
    if k > 0 && StringLt(entries[k - 1].candidate.candidateId, entries[k].candidate.candidateId) {
      forall i | 0 <= i < k
        ensures StringLt(after[i].candidate.candidateId, after[k].candidate.candidateId)
      {
        if i < k - 1 {
          assert StringLt(before[i].candidate.candidateId, before[k - 1].candidate.candidateId);
          StringLtTransitive(after[i].candidate.candidateId, after[k - 1].candidate.candidateId,
                             after[k].candidate.candidateId);
        }
      }
    }
  }

  // ----- deciding -----

  /** The candidates before `k` are accepted together, and the one at `k` is refused: for itself, or as valid but
      repeating an identity. */
  ghost predicate RefusedAt(candidates: seq<LiveCandidate>, k: nat, e: LiveError) {
    && k < |candidates|
    && (forall i :: 0 <= i < k ==> ValidCandidate(candidates[i])) && DistinctListing(candidates[..k])
    && match e
       case InvalidCandidate(why) => !ValidCandidate(candidates[k]) && IsRejection(candidates[k], why)
       case DuplicateCandidate =>
         && ValidCandidate(candidates[k])
         && exists i :: 0 <= i < k && candidates[i].candidateId == candidates[k].candidateId
       case _ => false
  }

  method CheckInput(candidates: seq<LiveCandidate>) returns (e: Option<LiveError>)
    requires 0 < |candidates| <= MAX_CANDIDATES
    ensures e.None? <==> AcceptedInput(candidates)
    ensures e.Some? ==> exists k: nat :: RefusedAt(candidates, k, e.value)
  {
    var seen: set<string> := {};
    for k := 0 to |candidates|
      invariant forall i :: 0 <= i < k ==> ValidCandidate(candidates[i])
      invariant forall i, j :: 0 <= i < j < k ==> candidates[i].candidateId != candidates[j].candidateId
      invariant forall id :: id in seen <==> exists i :: 0 <= i < k && candidates[i].candidateId == id
    {
      var id := candidates[k].candidateId;
      var refused := ValidateCandidate(candidates[k]);
      if refused.Some? {
        assert RefusedAt(candidates, k, InvalidCandidate(refused.value));
        return Some(InvalidCandidate(refused.value));
      }
      if id in seen {
        assert RefusedAt(candidates, k, DuplicateCandidate);
        return Some(DuplicateCandidate);
      }
      seen := seen + {id};
    }
    e := None;
  }

  ghost predicate Recorded(s: seq<LiveCandidate>, c: LiveCandidate, dominatedBy: map<string, string>) {
    DominatorOf(s, c) == if c.candidateId in dominatedBy then Some(dominatedBy[c.candidateId]) else None
  }

  method FindDominators(s: seq<LiveCandidate>) returns (dominatedBy: map<string, string>)
    requires DistinctListing(s) && Sorted(s, IdLe)
    ensures forall i :: 0 <= i < |s| ==> Recorded(s, s[i], dominatedBy)
  {
    dominatedBy := map[];
    for i := 0 to |s|
      invariant forall k :: 0 <= k < i ==> Recorded(s, s[k], dominatedBy)
      invariant forall k :: i <= k < |s| ==> s[k].candidateId !in dominatedBy
    {
      var c := s[i];
      if !c.freshness.Fresh? {
        continue;
      }
      var j := 0;
      while j < |s|
        invariant 0 <= j <= |s| && FirstDominator(s, c, 0) == FirstDominator(s, c, j)
        invariant c.candidateId !in dominatedBy
      {
        if i != j && LiveDominates(s[j], c) {
          // The entry is vacant: each identity is visited once and the loop stops at its first dominator.
          dominatedBy := dominatedBy[c.candidateId := s[j].candidateId];
          break;
        }
        j := j + 1;
      }
    }
  }

  method Decide(candidates: seq<LiveCandidate>, foreign: Foreign) returns (r: Result<LiveParetoDecision, LiveError>)
    ensures r == Err(NoCandidates) <==> candidates == []
    ensures r == Err(TooManyCandidates) <==> |candidates| > MAX_CANDIDATES
    ensures r == Err(BodyTooLarge) <==>
              AcceptedInput(candidates) && |DecisionOf(candidates, foreign).canonicalJson| > MAX_CANONICAL_BYTES
    ensures r != Err(InconsistentDecision)
    ensures r.Err? && (r.error.InvalidCandidate? || r.error.DuplicateCandidate?) ==>
              exists k: nat :: RefusedAt(candidates, k, r.error)
    ensures r.Ok? <==>
              AcceptedInput(candidates) && |DecisionOf(candidates, foreign).canonicalJson| <= MAX_CANONICAL_BYTES
    ensures r.Ok? ==> r.value == DecisionOf(candidates, foreign) && Consistent(r.value, foreign)
  {
    if candidates == [] {
      return Err(NoCandidates);
    }
    if |candidates| > MAX_CANDIDATES {
      return Err(TooManyCandidates);
    }
    var refused := CheckInput(candidates);
    if refused.Some? {
      return Err(refused.value);
    }
    var s := SortBy(candidates, IdLe);
    SortedListing(candidates);
    var dominatedBy := FindDominators(s);
    var frontierIds, entries := BuildEntries(s, dominatedBy, foreign);
    FlaggedRise(s, foreign);
    var body := LiveBody(CONTRACT_VERSION, SortBy(frontierIds, StringLe), entries);
    if |foreign.canonical(body)| > MAX_CANONICAL_BYTES {
      return Err(BodyTooLarge);
    }
    var decision := Seal(body, foreign);
    DecisionIsConsistent(candidates, foreign);
    var ok := Validate(decision, foreign);
    if !ok {
      return Err(InconsistentDecision);
    }
    r := Ok(decision);
  }

  method ListReasons(c: LiveCandidate, dominator: Option<string>) returns (reasons: seq<Reason>)
    ensures reasons == Reasons(c, dominator)
  {
    reasons := [];
    match c.freshness {
      case Stale => reasons := [StaleEvidence];
      case Unknown => reasons := [UnknownEvidence];
      case Missing => reasons := [MissingEvidence];
      case Fresh =>
    }
    if c.protectedVector == [] && c.freshness.Fresh? && MissingEvidence !in reasons {
      reasons := reasons + [MissingEvidence];
    }
    if dominator.Some? {
      reasons := reasons + [DominatedBy(dominator.value)];
    }
  }

  method BuildEntries(s: seq<LiveCandidate>, dominatedBy: map<string, string>, foreign: Foreign)
    returns (frontierIds: seq<string>, entries: seq<LiveEntry>)
    requires forall i :: 0 <= i < |s| ==> Recorded(s, s[i], dominatedBy)
    ensures entries == Entries(s, foreign)
    ensures frontierIds == FlaggedIds(entries)
  {
    entries := [];
    frontierIds := [];
    for k := 0 to |s|
      invariant |entries| == k && forall i :: 0 <= i < k ==> entries[i] == EntryOf(s, s[i], foreign)
      invariant frontierIds == FlaggedIds(entries)
    {
      var c := s[k];
      assert Recorded(s, s[k], dominatedBy);
      var dominator := if c.candidateId in dominatedBy then Some(dominatedBy[c.candidateId]) else None;
      var reasons := ListReasons(c, dominator);
      var inFrontier := c.freshness.Fresh? && dominator.None? && c.protectedVector != [];
      if inFrontier {
        frontierIds := frontierIds + [c.candidateId];
      }
      FlaggedSnoc(entries, LiveEntry(c, foreign.bind(c), inFrontier, reasons));
      entries := entries + [LiveEntry(c, foreign.bind(c), inFrontier, reasons)];
    }
  }

  lemma FlaggedSnoc(entries: seq<LiveEntry>, e: LiveEntry)
    ensures FlaggedIds(entries + [e]) == FlaggedIds(entries) + if e.inFrontier then [e.candidate.candidateId] else []
  {
    assert (entries + [e])[..|entries|] == entries;
  }

  lemma IdOrder()
    ensures TotalPreorder(IdLe)
    ensures TotalPreorder(StringLe)
  {
    forall a, b
      ensures StringLe(a, b) || StringLe(b, a)
    {
      StringLeIsTotalOrder(a, b, "");
    }
    forall a, b, c | StringLe(a, b) && StringLe(b, c)
      ensures StringLe(a, c)
    {
      StringLeIsTotalOrder(a, b, c);
    }
    forall a: LiveCandidate, b: LiveCandidate
      ensures IdLe(a, b) || IdLe(b, a)
    {
      StringLeIsTotalOrder(a.candidateId, b.candidateId, "");
    }
    forall a, b, c | IdLe(a, b) && IdLe(b, c)
      ensures IdLe(a, c)
    {
      StringLeIsTotalOrder(a.candidateId, b.candidateId, c.candidateId);
    }
  }

  lemma SortedListing(candidates: seq<LiveCandidate>)
    requires AcceptedInput(candidates)
    ensures var s := SortBy(candidates, IdLe);
            && Sorted(s, IdLe) && DistinctListing(s) && multiset(s) == multiset(candidates) && |s| == |candidates|
            && (forall c :: c in s <==> c in candidates)
            && AcceptedInput(s)
  {
    var s := SortBy(candidates, IdLe);
    IdOrder();
    SortSorts(candidates, IdLe);
    SameLength(s, candidates);
    MappedPermutes(candidates, s, IdOf);
    DistinctIgnoresOrder(Mapped(candidates, IdOf), Mapped(s, IdOf));
    var ids := Mapped(s, IdOf);
    assert forall i :: 0 <= i < |s| ==> ids[i] == s[i].candidateId;
    forall c
      ensures c in s <==> c in candidates
    {
      SameMembers(s, candidates, c);
    }
    forall i | 0 <= i < |s|
      ensures ValidCandidate(s[i])
    {
      assert s[i] in candidates;
    }
  }

  lemma {:induction false} FlaggedAre(entries: seq<LiveEntry>)
    ensures forall id :: id in FlaggedIds(entries) <==>
                           exists e :: e in entries && e.inFrontier && e.candidate.candidateId == id
  {
    if entries != [] {
      var front, last := entries[..|entries| - 1], entries[|entries| - 1];
      FlaggedAre(front);
      assert entries == front + [last];
    }
  }

  lemma {:induction false} FlaggedRiseUpTo(entries: seq<LiveEntry>)
    requires RisingEntries(entries)
    ensures StrictlyRising(FlaggedIds(entries))
  {
    if entries != [] {
      var front, last := entries[..|entries| - 1], entries[|entries| - 1];
      FlaggedRiseUpTo(front);
      FlaggedAre(front);
      forall id | id in FlaggedIds(front)
        ensures StringLt(id, last.candidate.candidateId)
      {
        var e :| e in front && e.candidate.candidateId == id;
        var i :| 0 <= i < |front| && front[i] == e;
        assert entries[i] == e;
      }
    }
  }

  lemma EntriesRise(s: seq<LiveCandidate>, foreign: Foreign, i: nat, j: nat)
    requires Sorted(s, IdLe) && DistinctListing(s) && i < j < |s|
    ensures StringLt(Entries(s, foreign)[i].candidate.candidateId, Entries(s, foreign)[j].candidate.candidateId)
  {
    assert IdLe(s[i], s[j]);
  }

  lemma FlaggedRise(s: seq<LiveCandidate>, foreign: Foreign)
    requires Sorted(s, IdLe) && DistinctListing(s)
    ensures var ids := FlaggedIds(Entries(s, foreign));
            && StrictlyRising(ids) && Rising(ids) && SortBy(ids, StringLe) == ids
            && forall id :: id in ids <==> exists c :: c in s && InFrontier(s, c) && c.candidateId == id
  {
    var entries := Entries(s, foreign);
    forall i, j | 0 <= i < j < |entries|
      ensures StringLt(entries[i].candidate.candidateId, entries[j].candidate.candidateId)
    {
      EntriesRise(s, foreign, i, j);
    }
    FlaggedRiseUpTo(entries);
    FlaggedAre(entries);
    SortedStays(FlaggedIds(entries), StringLe);
    forall c | c in s && InFrontier(s, c)
      ensures exists e :: e in entries && e.inFrontier && e.candidate.candidateId == c.candidateId
    {
      var i :| 0 <= i < |s| && s[i] == c;
      assert entries[i] in entries;
    }
  }

  lemma EntriesAreConsistent(s: seq<LiveCandidate>, foreign: Foreign)
    requires AcceptedInput(s) && Sorted(s, IdLe)
    ensures EntriesConsistent(Entries(s, foreign), foreign)
  {
    var entries := Entries(s, foreign);
    forall i, j | 0 <= i < j < |entries|
      ensures StringLt(entries[i].candidate.candidateId, entries[j].candidate.candidateId)
    {
      EntriesRise(s, foreign, i, j);
    }
    forall i | 0 <= i < |entries|
      ensures EntryConsistent(entries[i], foreign)
    {
      assert ValidCandidate(s[i]);
    }
  }

  /** The closing validation can never reject a decision whose body is within the size bound. */
  lemma DecisionIsConsistent(candidates: seq<LiveCandidate>, foreign: Foreign)
    requires AcceptedInput(candidates)
    requires |DecisionOf(candidates, foreign).canonicalJson| <= MAX_CANONICAL_BYTES
    ensures Consistent(DecisionOf(candidates, foreign), foreign)
  {
    var s := SortBy(candidates, IdLe);
    SortedListing(candidates);
    FlaggedRise(s, foreign);
    EntriesAreConsistent(s, foreign);
  }

  // ----- what a decision says, for any listing of the candidates -----

  lemma MembersDistinct(candidates: seq<LiveCandidate>)
    requires DistinctListing(candidates)
    ensures DistinctIds(Members(candidates))
  {
    forall a, b | a in candidates && b in candidates && a.candidateId == b.candidateId
      ensures a == b
    {
      var i :| 0 <= i < |candidates| && candidates[i] == a;
      var j :| 0 <= j < |candidates| && candidates[j] == b;
      assert i == j;
    }
  }

  /** The first dominator met in identity order is the one with the smallest identity. */
  lemma {:induction false} FirstDominatorIsLeast(s: seq<LiveCandidate>, c: LiveCandidate, from: nat)
    requires Sorted(s, IdLe) && from <= |s|
    ensures match FirstDominator(s, c, from)
            case None => forall k :: from <= k < |s| ==> !LiveDominates(s[k], c)
            case Some(id) =>
              && (exists k :: from <= k < |s| && LiveDominates(s[k], c) && s[k].candidateId == id)
              && (forall k :: from <= k < |s| && LiveDominates(s[k], c) ==> StringLe(id, s[k].candidateId))
    decreases |s| - from
  {
    if from < |s| {
      if LiveDominates(s[from], c) {
        forall k | from <= k < |s|
          ensures StringLe(s[from].candidateId, s[k].candidateId)
        {
          StringLeIsTotalOrder(s[from].candidateId, s[from].candidateId, "");
          assert from < k ==> IdLe(s[from], s[k]);
        }
      } else {
        FirstDominatorIsLeast(s, c, from + 1);
      }
    }
  }

  /** An entry is in the frontier exactly when its candidate is fresh, has a protected vector and is not
      dominated; otherwise a fresh dominated candidate names its smallest-identity dominator. */
  lemma EntryMeaning(candidates: seq<LiveCandidate>, c: LiveCandidate)
    requires AcceptedInput(candidates) && c in candidates
    ensures var s := SortBy(candidates, IdLe);
            && (InFrontier(s, c) <==> OnFrontier(Members(candidates), c))
            && match DominatorOf(s, c)
               case None => c.freshness.Fresh? ==> Dominators(Members(candidates), c) == {}
               case Some(id) =>
                 && c.freshness.Fresh?
                 && (exists d :: d in Dominators(Members(candidates), c) && d.candidateId == id)
                 && (forall d :: d in Dominators(Members(candidates), c) ==> StringLe(id, d.candidateId))
  {
    var s := SortBy(candidates, IdLe);
    SortedListing(candidates);
    FirstDominatorIsLeast(s, c, 0);
    forall d
      ensures d in Dominators(Members(candidates), c) <==>
              exists k :: 0 <= k < |s| && s[k] == d && LiveDominates(s[k], c)
    {
      assert d in candidates <==> d in s;
    }
  }

  lemma FrontierIdsMeaning(candidates: seq<LiveCandidate>, foreign: Foreign)
    requires AcceptedInput(candidates)
    ensures forall id :: id in DecisionOf(candidates, foreign).body.frontierIds <==>
                           exists c :: OnFrontier(Members(candidates), c) && c.candidateId == id
    ensures StrictlyRising(DecisionOf(candidates, foreign).body.frontierIds)
  {
    var s := SortBy(candidates, IdLe);
    SortedListing(candidates);
    FlaggedRise(s, foreign);
    FrontierMembersAgree(candidates);
  }

  lemma FrontierMembersAgree(candidates: seq<LiveCandidate>)
    requires AcceptedInput(candidates)
    ensures var s := SortBy(candidates, IdLe);
            forall c :: c in s && InFrontier(s, c) <==> OnFrontier(Members(candidates), c)
  {
    var s := SortBy(candidates, IdLe);
    SortedListing(candidates);
    forall c
      ensures c in s && InFrontier(s, c) <==> OnFrontier(Members(candidates), c)
    {
      if c in candidates {
        EntryMeaning(candidates, c);
      }
    }
  }

  /** The frontier is empty only when no candidate is eligible; each eligible candidate off it is dominated from it. */
  lemma DecisionCovers(candidates: seq<LiveCandidate>, foreign: Foreign, c: LiveCandidate)
    requires AcceptedInput(candidates) && c in candidates && Eligible(c)
    ensures var ids := DecisionOf(candidates, foreign).body.frontierIds;
            c.candidateId in ids ||
            exists f :: f in candidates && f.candidateId in ids && LiveDominates(f, c)
  {
    MembersDistinct(candidates);
    FrontierIdsMeaning(candidates, foreign);
    var f := FrontierCovers(Members(candidates), c);
  }

  /** The decision does not depend on the order in which the candidates are listed. */
  lemma DecisionIgnoresListing(candidates: seq<LiveCandidate>, listed: seq<LiveCandidate>, foreign: Foreign)
    requires multiset(candidates) == multiset(listed) && AcceptedInput(candidates)
    ensures AcceptedInput(listed)
    ensures DecisionOf(candidates, foreign) == DecisionOf(listed, foreign)
  {
    SortedListing(candidates);
    var s := SortBy(candidates, IdLe);
    IdOrder();
    SortSorts(listed, IdLe);
    forall x, y | x in s && y in s && IdLe(x, y) && IdLe(y, x)
      ensures x == y
    {
      StringLeIsTotalOrder(x.candidateId, y.candidateId, "");
      MembersDistinct(s);
      assert x in Members(s) && y in Members(s);
    }
    SortedIsUnique(s, SortBy(listed, IdLe), IdLe);
    AcceptedIgnoresListing(candidates, listed);
  }

  lemma AcceptedIgnoresListing(candidates: seq<LiveCandidate>, listed: seq<LiveCandidate>)
    requires multiset(candidates) == multiset(listed) && AcceptedInput(candidates)
    ensures AcceptedInput(listed)
  {
    SameLength(candidates, listed);
    MappedPermutes(candidates, listed, IdOf);
    DistinctIgnoresOrder(Mapped(candidates, IdOf), Mapped(listed, IdOf));
    var ids := Mapped(listed, IdOf);
    assert forall i :: 0 <= i < |listed| ==> ids[i] == listed[i].candidateId;
    forall i | 0 <= i < |listed|
      ensures ValidCandidate(listed[i])
    {
      SameMembers(candidates, listed, listed[i]);
    }
  }

  /** A list that is left when candidates are deleted from an accepted one is accepted while any remains. */
  lemma AcceptedAfterDeletion(candidates: seq<LiveCandidate>, kept: seq<LiveCandidate>)
    requires AcceptedInput(candidates) && kept != [] && multiset(kept) <= multiset(candidates)
    ensures AcceptedInput(kept) && Members(kept) <= Members(candidates)
  {
    assert |multiset(candidates)| == |multiset(kept)| + |multiset(candidates) - multiset(kept)|;
    DistinctIgnoresOrder(candidates, kept);
    MembersDistinct(candidates);
    forall c | c in kept
      ensures c in candidates
    {
      assert c in multiset(kept);
    }
    forall i | 0 <= i < |kept|
      ensures kept[i] in Members(candidates) && ValidCandidate(kept[i])
    {
      assert kept[i] in candidates;
    }
    forall i, j | 0 <= i < j < |kept|
      ensures kept[i].candidateId != kept[j].candidateId
    {
      assert kept[i] in Members(candidates) && kept[j] in Members(candidates);
    }
  }

  /** Deleting any candidates that are stale, unknown, missing or without a protected vector, while a candidate
      remains, leaves a decision with the same frontier. */
  lemma IneligibleDoNotChangeFrontier(candidates: seq<LiveCandidate>, kept: seq<LiveCandidate>, foreign: Foreign)
    requires AcceptedInput(candidates) && kept != [] && multiset(kept) <= multiset(candidates)
    requires forall c :: c in candidates && Eligible(c) ==> c in kept
    ensures AcceptedInput(kept)
    ensures DecisionOf(candidates, foreign).body.frontierIds == DecisionOf(kept, foreign).body.frontierIds
  {
    AcceptedAfterDeletion(candidates, kept);
    FrontierIdsMeaning(candidates, foreign);
    FrontierIdsMeaning(kept, foreign);
    var eligible := set d | d in Members(candidates) && Eligible(d) :: d;
    assert eligible == set d | d in Members(kept) && Eligible(d) :: d;
    forall c: LiveCandidate
      ensures OnFrontier(Members(candidates), c) <==> OnFrontier(Members(kept), c)
    {
      IneligibleNeverMatter(Members(candidates), c);
      IneligibleNeverMatter(Members(kept), c);
    }
    RisingIsDetermined(DecisionOf(candidates, foreign).body.frontierIds, DecisionOf(kept, foreign).body.frontierIds);
  }

  lemma {:induction false} RisingIsDetermined(a: seq<string>, b: seq<string>)
    requires StrictlyRising(a) && StrictlyRising(b)
    requires forall id :: id in a <==> id in b
    ensures a == b
  {
    assert |a| > 0 ==> a[0] in b;
    assert |b| > 0 ==> b[0] in a;
    if a != [] && b != [] {
      StringLeIsTotalOrder(a[0], b[0], "");
      assert a[0] in b && b[0] in a;
      assert a[0] == b[0];
      assert a == [a[0]] + a[1..] && b == [b[0]] + b[1..];
      forall id
        ensures id in a[1..] <==> id in b[1..]
      {
        assert id in a[1..] <==> id in a && id != a[0];
        assert id in b[1..] <==> id in b && id != b[0];
      }
      RisingIsDetermined(a[1..], b[1..]);
    }
  }
}
