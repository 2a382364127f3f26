/** The live Pareto decision (live_pareto.rs): dominance among candidates with fresh evidence, the
    deterministic decision over all of them, and the validator that re-checks a decision. Canonical JSON,
    the candidate binding digest and SHA-256 are foreign code and enter as function parameters. */
module LivePareto {
  import opened Machine
  import opened RepresentationPareto
  import opened Sorting
  import opened Text
  import opened Wrappers

  const CONTRACT_VERSION: U16 := 1
  const MAX_CANDIDATES := 1_024
  const MAX_METRICS := 128
  const MAX_ID_BYTES := 128
  const MAX_CANONICAL_BYTES := 1_048_576

  datatype MetricOrder = AtLeast | AtMost | Exact

  datatype ProtectedOutcome =
    ProtectedOutcome(metricId: string, order: MetricOrder, baselineValue: I64, candidateValue: I64)
  {
    predicate NoWorseThan(other: ProtectedOutcome) {
      && metricId == other.metricId
      && order == other.order
      && match order
         case AtLeast => candidateValue >= other.candidateValue
         case AtMost => candidateValue <= other.candidateValue
         case Exact => candidateValue == other.candidateValue
    }

    predicate CandidateNoWorseThanBaseline() {
      match order
      case AtLeast => candidateValue >= baselineValue
      case AtMost => candidateValue <= baselineValue
      case Exact => candidateValue == baselineValue
    }

    predicate StrictlyBetterThan(other: ProtectedOutcome) {
      && metricId == other.metricId
      && order == other.order
      && match order
         case AtLeast => candidateValue > other.candidateValue
         case AtMost => candidateValue < other.candidateValue
         case Exact => false
    }
  }

  datatype VerifierIdentity = VerifierIdentity(verifierId: string, verifierVersion: string)

  datatype EvidenceFreshness = Fresh | Stale | Unknown | Missing

  datatype LiveCandidate = LiveCandidate(
    candidateId: string,
    semanticRoot: string,
    adapterRoot: string,
    verifier: VerifierIdentity,
    freshness: EvidenceFreshness,
    protectedVector: seq<ProtectedOutcome>,
    resources: RepresentationResources,
    exact: bool)

  /** The reasons listed with an entry, each a fixed word in the program. */
  datatype Reason = StaleEvidence | UnknownEvidence | MissingEvidence | DominatedBy(dominatorId: string)

  datatype LiveEntry = LiveEntry(candidate: LiveCandidate, bindingDigest: string, inFrontier: bool,
                                 reasons: seq<Reason>)

  datatype LiveBody = LiveBody(contractVersion: U16, frontierIds: seq<string>, entries: seq<LiveEntry>)

  datatype LiveParetoDecision = LiveParetoDecision(body: LiveBody, decisionDigest: string, canonicalJson: Bytes)

  datatype Rejection =
    | InvalidCandidateId
    | EmptyRoot
    | InvalidVerifierId
    | InvalidVerifierVersion
    | TooManyMetrics
    | InvalidMetricId
    | Regression
    | DuplicateMetric
    | UnsortedMetrics

  datatype LiveError =
    | NoCandidates
    | TooManyCandidates
    | InvalidCandidate(rejection: Rejection)
    | DuplicateCandidate
    | BodyTooLarge
    | InconsistentDecision

  // ----- validation -----

  predicate ValidId(id: string) {
    id != "" && Utf8Len(id) <= MAX_ID_BYTES && forall c | c in id :: !IsControl(c)
  }

  predicate StringLt(a: string, b: string) {
    StringLe(a, b) && a != b
  }

  /** Why metric `k` is refused, given the metrics before it. */
  function MetricError(v: seq<ProtectedOutcome>, k: nat): Option<Rejection>
    requires k < |v|
  {
    if !ValidId(v[k].metricId) then Some(InvalidMetricId)
    else if !v[k].CandidateNoWorseThanBaseline() then Some(Regression)
    else if exists j :: 0 <= j < k && v[j].metricId == v[k].metricId then Some(DuplicateMetric)
    else if k > 0 && !StringLt(v[k - 1].metricId, v[k].metricId) then Some(UnsortedMetrics)
    else None
  }

  ghost predicate FirstRefused(v: seq<ProtectedOutcome>, k: nat, rejection: Rejection) {
    k < |v| && MetricError(v, k) == Some(rejection) && forall j: nat :: j < k ==> MetricError(v, j).None?
  }

  /** Why the first refused metric is refused. */
  ghost predicate IsVectorError(v: seq<ProtectedOutcome>, e: Option<Rejection>) {
    match e
    case None => forall k: nat :: k < |v| ==> MetricError(v, k).None?
    case Some(rejection) => exists k: nat :: FirstRefused(v, k, rejection)
  }

  ghost predicate ValidVector(v: seq<ProtectedOutcome>) {
    && |v| <= MAX_METRICS
    && (forall m :: m in v ==> ValidId(m.metricId) && m.CandidateNoWorseThanBaseline())
    && (forall i, j :: 0 <= i < j < |v| ==> StringLt(v[i].metricId, v[j].metricId))
  }

  ghost predicate ValidCandidate(c: LiveCandidate) {
    && ValidId(c.candidateId)
    && c.semanticRoot != "" && c.adapterRoot != ""
    && ValidId(c.verifier.verifierId) && ValidId(c.verifier.verifierVersion)
    && ValidVector(c.protectedVector)
  }

  lemma StringLtTransitive(a: string, b: string, c: string)
    requires StringLt(a, b) && StringLt(b, c)
    ensures StringLt(a, c)
  {
    StringLeIsTotalOrder(a, b, c);
    StringLeIsTotalOrder(b, a, c);
    StringLeIsTotalOrder(c, b, a);
  }

  /** Strictly rising neighbours make the whole vector strictly sorted, so the duplicate check adds nothing. */
  lemma {:induction false} NeighboursSort(v: seq<ProtectedOutcome>, i: nat, j: nat)
    requires i < j < |v|
    requires forall k :: 0 < k < |v| ==> StringLt(v[k - 1].metricId, v[k].metricId)
    ensures StringLt(v[i].metricId, v[j].metricId)
    decreases j - i
  {
    if i + 1 < j {
      NeighboursSort(v, i, j - 1);
      StringLtTransitive(v[i].metricId, v[j - 1].metricId, v[j].metricId);
    }
  }

  lemma AcceptedVectorIsSorted(v: seq<ProtectedOutcome>)
    requires |v| <= MAX_METRICS
    ensures IsVectorError(v, None) <==> ValidVector(v)
  {
    if IsVectorError(v, None) {
      forall k: nat | k < |v|
        ensures ValidId(v[k].metricId) && v[k].CandidateNoWorseThanBaseline()
        ensures k > 0 ==> StringLt(v[k - 1].metricId, v[k].metricId)
      {
        assert MetricError(v, k).None?;
      }
      forall i, j | 0 <= i < j < |v|
        ensures StringLt(v[i].metricId, v[j].metricId)
      {
        NeighboursSort(v, i, j);
      }
    }
  }

  method ValidateVector(v: seq<ProtectedOutcome>) returns (e: Option<Rejection>)
    ensures IsVectorError(v, e)
  {
    var seen: set<string> := {};
    var previous: Option<string> := None;
    for k := 0 to |v|
      invariant forall j: nat :: j < k ==> MetricError(v, j).None?
      invariant forall id :: id in seen <==> exists j :: 0 <= j < k && v[j].metricId == id
      invariant previous == if k == 0 then None else Some(v[k - 1].metricId)
    {
      var m := v[k];
      ghost var refused := MetricError(v, k);
      if !ValidId(m.metricId) {
        assert FirstRefused(v, k, InvalidMetricId);
        return Some(InvalidMetricId);
      }
      if !m.CandidateNoWorseThanBaseline() {
        assert FirstRefused(v, k, Regression);
        return Some(Regression);
      }
      if m.metricId in seen {
        assert FirstRefused(v, k, DuplicateMetric);
        return Some(DuplicateMetric);
      }
      seen := seen + {m.metricId};
      if previous.Some? {
        StringLeIsTotalOrder(previous.value, m.metricId, "");
        if StringLe(m.metricId, previous.value) {
          assert FirstRefused(v, k, UnsortedMetrics);
          return Some(UnsortedMetrics);
        }
      }
      previous := Some(m.metricId);
      assert refused.None?;
    }
    e := None;
  }

  /** The reason for which a candidate is refused first: its identity before its roots, then its verifier, then
      its protected vector, metric by metric. */
  ghost predicate IsRejection(c: LiveCandidate, why: Rejection) {
    if !ValidId(c.candidateId) then why.InvalidCandidateId?
    else if c.semanticRoot == "" || c.adapterRoot == "" then why.EmptyRoot?
    else if !ValidId(c.verifier.verifierId) then why.InvalidVerifierId?
    else if !ValidId(c.verifier.verifierVersion) then why.InvalidVerifierVersion?
    else if |c.protectedVector| > MAX_METRICS then why.TooManyMetrics?
    else IsVectorError(c.protectedVector, Some(why))
  }

  method ValidateCandidate(c: LiveCandidate) returns (e: Option<Rejection>)
    ensures e.None? <==> ValidCandidate(c)
    ensures e.Some? ==> IsRejection(c, e.value)
  {
    if !ValidId(c.candidateId) {
      return Some(InvalidCandidateId);
    }
    if c.semanticRoot == "" || c.adapterRoot == "" {
      return Some(EmptyRoot);
    }
    if !ValidId(c.verifier.verifierId) {
      return Some(InvalidVerifierId);
    }
    if !ValidId(c.verifier.verifierVersion) {
      return Some(InvalidVerifierVersion);
    }
    if |c.protectedVector| > MAX_METRICS {
      return Some(TooManyMetrics);
    }
    e := ValidateVector(c.protectedVector);
    AcceptedVectorIsSorted(c.protectedVector);
  }

  // ----- dominance -----

  predicate ProtectedComparable(a: LiveCandidate, b: LiveCandidate) {
    && |a.protectedVector| == |b.protectedVector|
    && (forall i | 0 <= i < |a.protectedVector| ::
          && a.protectedVector[i].metricId == b.protectedVector[i].metricId
          && a.protectedVector[i].order == b.protectedVector[i].order
          && a.protectedVector[i].baselineValue == b.protectedVector[i].baselineValue)
  }

  predicate LiveDominates(a: LiveCandidate, b: LiveCandidate) {
    && a.freshness.Fresh? && a.protectedVector != []
    && a.candidateId != b.candidateId
    && a.semanticRoot == b.semanticRoot && a.adapterRoot == b.adapterRoot
    && a.verifier == b.verifier
    && ProtectedComparable(a, b)
    && (b.exact ==> a.exact)
    && (forall i | 0 <= i < |a.protectedVector| :: a.protectedVector[i].NoWorseThan(b.protectedVector[i]))
    && a.resources.DominatesOrEqual(b.resources)
    && (|| (a.exact && !b.exact)
        || a.resources.StrictlyBetterThan(b.resources)
        || (exists i | 0 <= i < |a.protectedVector| :: a.protectedVector[i].StrictlyBetterThan(b.protectedVector[i])))
  }

  predicate Eligible(c: LiveCandidate) {
    c.freshness.Fresh? && c.protectedVector != []
  }

  lemma NoWorseIsOrder(p: ProtectedOutcome, q: ProtectedOutcome, r: ProtectedOutcome)
    ensures p.NoWorseThan(q) && q.NoWorseThan(r) ==> p.NoWorseThan(r)
    ensures p.NoWorseThan(q) && q.StrictlyBetterThan(r) ==> p.StrictlyBetterThan(r)
    ensures p.StrictlyBetterThan(q) && q.NoWorseThan(r) ==> p.StrictlyBetterThan(r)
    ensures p.StrictlyBetterThan(q) ==> p.NoWorseThan(q) && !q.NoWorseThan(p)
  {
  }

  lemma DominanceIsAsymmetric(a: LiveCandidate, b: LiveCandidate)
    ensures !LiveDominates(a, a)
    ensures LiveDominates(a, b) ==> !LiveDominates(b, a)
  {
    if LiveDominates(a, b) && LiveDominates(b, a) {
      assert a.resources == b.resources;
      forall i | 0 <= i < |a.protectedVector|
        ensures !a.protectedVector[i].StrictlyBetterThan(b.protectedVector[i])
      {
        NoWorseIsOrder(a.protectedVector[i], b.protectedVector[i], a.protectedVector[i]);
      }
    }
  }

  lemma DominanceIsTransitive(a: LiveCandidate, b: LiveCandidate, c: LiveCandidate)
    requires LiveDominates(a, b) && LiveDominates(b, c) && a.candidateId != c.candidateId
    ensures LiveDominates(a, c)
  {
    forall i | 0 <= i < |a.protectedVector|
      ensures a.protectedVector[i].NoWorseThan(c.protectedVector[i])
    {
      assert a.protectedVector[i].NoWorseThan(b.protectedVector[i]);
      assert b.protectedVector[i].NoWorseThan(c.protectedVector[i]);
    }
    if i :| 0 <= i < |a.protectedVector| && a.protectedVector[i].StrictlyBetterThan(b.protectedVector[i]) {
      assert b.protectedVector[i].NoWorseThan(c.protectedVector[i]);
      assert a.protectedVector[i].StrictlyBetterThan(c.protectedVector[i]);
    } else if i :| 0 <= i < |b.protectedVector| && b.protectedVector[i].StrictlyBetterThan(c.protectedVector[i]) {
      assert a.protectedVector[i].NoWorseThan(b.protectedVector[i]);
      assert a.protectedVector[i].StrictlyBetterThan(c.protectedVector[i]);
    }
  }

  ghost predicate DistinctIds(candidates: set<LiveCandidate>) {
    forall a, b :: a in candidates && b in candidates && a.candidateId == b.candidateId ==> a == b
  }

  ghost predicate OnFrontier(candidates: set<LiveCandidate>, c: LiveCandidate) {
    c in candidates && Eligible(c) && forall d :: d in candidates ==> !LiveDominates(d, c)
  }

  ghost function Dominators(candidates: set<LiveCandidate>, c: LiveCandidate): set<LiveCandidate> {
    set d | d in candidates && LiveDominates(d, c)
  }

  /** Every eligible candidate is on the frontier or dominated by a candidate that is. */
  lemma {:induction false} FrontierCovers(candidates: set<LiveCandidate>, c: LiveCandidate) returns (f: LiveCandidate)
    requires DistinctIds(candidates) && c in candidates && Eligible(c)
    ensures OnFrontier(candidates, f)
    ensures if OnFrontier(candidates, c) then f == c else LiveDominates(f, c)
    decreases |Dominators(candidates, c)|
  {
    if OnFrontier(candidates, c) {
      f := c;
    } else {
      var d :| d in candidates && LiveDominates(d, c);
      forall e | e in Dominators(candidates, d)
        ensures e in Dominators(candidates, c)
      {
        DominanceIsAsymmetric(d, c);
        DominanceIsTransitive(e, d, c);
      }
      DominanceIsAsymmetric(d, d);
      assert d in Dominators(candidates, c) && d !in Dominators(candidates, d);
      SmallerSubset(Dominators(candidates, d), Dominators(candidates, c), d);
      f := FrontierCovers(candidates, d);
      if f != d {
        DominanceIsAsymmetric(d, c);
        DominanceIsTransitive(f, d, c);
      }
    }
  }

  lemma {:induction false} SmallerSubset<T>(small: set<T>, large: set<T>, extra: T)
    requires small <= large && extra in large && extra !in small
    ensures |small| < |large|
  {
    assert |small + {extra}| == |small| + 1;
    SubsetSize(small + {extra}, large);
  }

  lemma {:induction false} SubsetSize<T>(small: set<T>, large: set<T>)
    requires small <= large
    ensures |small| <= |large|
  {
    if x :| x in small {
      SubsetSize(small - {x}, large - {x});
    }
  }

  /** Removing candidates that are not eligible leaves the frontier as it was. */
  lemma IneligibleNeverMatter(candidates: set<LiveCandidate>, c: LiveCandidate)
    ensures OnFrontier(candidates, c) <==> OnFrontier((set d | d in candidates && Eligible(d)), c)
  {
  }
}
