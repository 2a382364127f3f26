/** What the live Pareto decision says about the fields of its candidates (live_pareto.rs), without the program's own
    comparisons: who is on the frontier, who is named as a dominator, and which reasons are listed. */
module LiveMeaning {
  import opened LiveDecision
  import opened LivePareto
  import opened Machine
  import opened RepresentationPareto
  import opened Sorting
  import opened Text
  import opened Wrappers

  /** Two candidates speak of the same thing: the same meaning, adapter and verifier, and the same metrics held to the
      same baselines. */
  ghost predicate SameSubject(a: LiveCandidate, b: LiveCandidate) {
    && a.semanticRoot == b.semanticRoot && a.adapterRoot == b.adapterRoot
    && a.verifier.verifierId == b.verifier.verifierId && a.verifier.verifierVersion == b.verifier.verifierVersion
    && |a.protectedVector| == |b.protectedVector|
    && forall i :: 0 <= i < |a.protectedVector| ==>
         var p, q := a.protectedVector[i], b.protectedVector[i];
         p.metricId == q.metricId && p.order == q.order && p.baselineValue == q.baselineValue
  }

  /** The value of a metric as something to raise: an upper bound is raised by lowering the value. */
  function Worth(p: ProtectedOutcome): int {
    var value: int := p.candidateValue;
    if p.order == AtMost then -value else value
  }

  /** Taking `a` for `b` loses nothing: neither exactness, nor worth on a metric, nor a resource; and a metric that
      must be met exactly has the same value. */
  ghost predicate LosesNothing(a: LiveCandidate, b: LiveCandidate)
    requires |a.protectedVector| == |b.protectedVector|
  {
    && (b.exact ==> a.exact)
    && (forall i :: 0 <= i < |a.protectedVector| ==> Worth(a.protectedVector[i]) >= Worth(b.protectedVector[i]))
    && (forall i :: 0 <= i < |a.protectedVector| && a.protectedVector[i].order == MetricOrder.Exact ==>
          a.protectedVector[i].candidateValue == b.protectedVector[i].candidateValue)
    && (forall k :: 0 <= k < 8 ==> Costs(a.resources)[k] <= Costs(b.resources)[k])
  }

  /** And it gains something: exactness, worth on a metric, or a resource. */
  ghost predicate GainsSomething(a: LiveCandidate, b: LiveCandidate)
    requires |a.protectedVector| == |b.protectedVector|
  {
    || (a.exact && !b.exact)
    || (exists i :: 0 <= i < |a.protectedVector| && Worth(a.protectedVector[i]) > Worth(b.protectedVector[i]))
    || (exists k :: 0 <= k < 8 && Costs(a.resources)[k] < Costs(b.resources)[k])
  }

  /** A candidate with fresh evidence on at least one metric that is a gain without loss over another one. */
  ghost predicate Surpasses(a: LiveCandidate, b: LiveCandidate) {
    && a.freshness.Fresh? && |a.protectedVector| > 0 && a.candidateId != b.candidateId
    && SameSubject(a, b) && LosesNothing(a, b) && GainsSomething(a, b)
  }

  lemma WorthDecides(p: ProtectedOutcome, q: ProtectedOutcome)
    requires p.metricId == q.metricId && p.order == q.order
    ensures p.NoWorseThan(q) <==>
            Worth(p) >= Worth(q) && (p.order == MetricOrder.Exact ==> p.candidateValue == q.candidateValue)
    ensures p.StrictlyBetterThan(q) <==> Worth(p) > Worth(q) && p.order != MetricOrder.Exact
  {
  }

  /** Dominance, as the program decides it, is surpassing. */
  lemma DominatesIsSurpasses(a: LiveCandidate, b: LiveCandidate)
    ensures LiveDominates(a, b) <==> Surpasses(a, b)
  {
    CostsDecide(a.resources, b.resources);
    if SameSubject(a, b) || ProtectedComparable(a, b) {
      forall i | 0 <= i < |a.protectedVector|
        ensures a.protectedVector[i].metricId == b.protectedVector[i].metricId
        ensures a.protectedVector[i].order == b.protectedVector[i].order
      {
      }
      forall i | 0 <= i < |a.protectedVector|
        ensures a.protectedVector[i].NoWorseThan(b.protectedVector[i]) <==>
                && Worth(a.protectedVector[i]) >= Worth(b.protectedVector[i])
                && (a.protectedVector[i].order == MetricOrder.Exact ==>
                      a.protectedVector[i].candidateValue == b.protectedVector[i].candidateValue)
        ensures a.protectedVector[i].StrictlyBetterThan(b.protectedVector[i]) <==>
                Worth(a.protectedVector[i]) > Worth(b.protectedVector[i])
                && a.protectedVector[i].order != MetricOrder.Exact
      {
        WorthDecides(a.protectedVector[i], b.protectedVector[i]);
      }
    }
  }

  // ----- the decision -----

  ghost predicate Unsurpassed(candidates: seq<LiveCandidate>, c: LiveCandidate) {
    forall a :: a in candidates ==> !Surpasses(a, c)
  }

  /** The frontier lists exactly the candidates with fresh evidence on at least one metric that no other surpasses. */
  lemma FrontierOnFields(candidates: seq<LiveCandidate>, foreign: Foreign, c: LiveCandidate)
    requires AcceptedInput(candidates) && c in candidates
    ensures c.candidateId in DecisionOf(candidates, foreign).body.frontierIds <==>
            c.freshness.Fresh? && |c.protectedVector| > 0 && Unsurpassed(candidates, c)
  {
    FrontierIdsMeaning(candidates, foreign);
    MembersDistinct(candidates);
    forall a | a in candidates
      ensures LiveDominates(a, c) <==> Surpasses(a, c)
    {
      DominatesIsSurpasses(a, c);
    }
    assert c in Members(candidates);
    assert Unsurpassed(candidates, c) <==> forall a :: a in Members(candidates) ==> !LiveDominates(a, c);
  }

  /** The candidate that is named is the one of the least identity among those that surpass. */
  ghost predicate LeastSurpassing(candidates: seq<LiveCandidate>, c: LiveCandidate, id: string) {
    && (exists a :: a in candidates && a.candidateId == id && Surpasses(a, c))
    && forall a :: a in candidates && Surpasses(a, c) ==> StringLe(id, a.candidateId)
  }

  lemma DominatorOnFields(candidates: seq<LiveCandidate>, c: LiveCandidate)
    requires AcceptedInput(candidates) && c in candidates
    ensures match DominatorOf(SortBy(candidates, IdLe), c)
            case Some(id) => c.freshness.Fresh? && LeastSurpassing(candidates, c, id)
            case None => c.freshness.Fresh? ==> Unsurpassed(candidates, c)
  {
    EntryMeaning(candidates, c);
    forall a | a in candidates
      ensures a in Dominators(Members(candidates), c) <==> Surpasses(a, c)
    {
      DominatesIsSurpasses(a, c);
    }
  }

  lemma LeastIsOne(candidates: seq<LiveCandidate>, c: LiveCandidate, id: string, other: string)
    requires LeastSurpassing(candidates, c, id) && LeastSurpassing(candidates, c, other)
    ensures id == other
  {
    StringLeIsTotalOrder(id, other, "");
  }

  /** Each entry is one of the candidates with its digest; what it says of the frontier and the reasons it lists can be
      read off the fields. */
  lemma EntryOnFields(candidates: seq<LiveCandidate>, foreign: Foreign, k: nat)
    requires AcceptedInput(candidates) && k < |DecisionOf(candidates, foreign).body.entries|
    ensures var e := DecisionOf(candidates, foreign).body.entries[k];
            var c := e.candidate;
            && c in candidates && e.bindingDigest == foreign.bind(c)
            && (e.inFrontier <==> c.freshness.Fresh? && |c.protectedVector| > 0 && Unsurpassed(candidates, c))
            && (StaleEvidence in e.reasons <==> c.freshness.Stale?)
            && (UnknownEvidence in e.reasons <==> c.freshness.Unknown?)
            && (MissingEvidence in e.reasons <==>
                c.freshness.Missing? || (c.freshness.Fresh? && c.protectedVector == []))
            && (forall id :: DominatedBy(id) in e.reasons <==> c.freshness.Fresh? && LeastSurpassing(candidates, c, id))
  {
    var s := SortBy(candidates, IdLe);
    SortedListing(candidates);
    var c := s[k];
    assert c in candidates;
    DominatorOnFields(candidates, c);
    forall id, other | LeastSurpassing(candidates, c, id) && LeastSurpassing(candidates, c, other)
      ensures id == other
    {
      LeastIsOne(candidates, c, id, other);
    }
  }

  /** Every candidate has an entry. */
  lemma EveryCandidateListed(candidates: seq<LiveCandidate>, foreign: Foreign, c: LiveCandidate)
    requires AcceptedInput(candidates) && c in candidates
    ensures |DecisionOf(candidates, foreign).body.entries| == |candidates|
    ensures exists k :: 0 <= k < |candidates| && DecisionOf(candidates, foreign).body.entries[k].candidate == c
  {
    var s := SortBy(candidates, IdLe);
    SortedListing(candidates);
    var k :| 0 <= k < |s| && s[k] == c;
    assert DecisionOf(candidates, foreign).body.entries[k].candidate == c;
  }

  // ----- what is accepted -----

  /** A name of one to 128 bytes without control characters. */
  ghost predicate GoodName(name: string) {
    0 < |Utf8(name)| <= 128 && forall c | c in name :: 0x20 <= c as int < 0x7F || 0xA0 <= c as int
  }

  lemma NamesAccepted(name: string)
    ensures ValidId(name) <==> GoodName(name)
  {
    Utf8LenCounts(name);
    assert name == "" <==> |Utf8(name)| == 0;
  }

  /** A metric is at least worth its baseline, and meets it when it must be met exactly. */
  ghost predicate MeetsBaseline(p: ProtectedOutcome) {
    match p.order
    case AtLeast => p.baselineValue <= p.candidateValue
    case AtMost => p.candidateValue <= p.baselineValue
    case Exact => p.candidateValue == p.baselineValue
  }

  /** A candidate is accepted exactly when its names are good, its roots are not empty, and its metrics, at most 128 of
      them and in rising order of their names, meet their baselines. */
  lemma AcceptedOnFields(c: LiveCandidate)
    ensures ValidCandidate(c) <==>
            && GoodName(c.candidateId) && |c.semanticRoot| > 0 && |c.adapterRoot| > 0
            && GoodName(c.verifier.verifierId) && GoodName(c.verifier.verifierVersion)
            && |c.protectedVector| <= 128
            && (forall p :: p in c.protectedVector ==> GoodName(p.metricId) && MeetsBaseline(p))
            && (forall i, j :: 0 <= i < j < |c.protectedVector| ==>
                  !StringLe(c.protectedVector[j].metricId, c.protectedVector[i].metricId))
  {
    NamesAccepted(c.candidateId);
    NamesAccepted(c.verifier.verifierId);
    NamesAccepted(c.verifier.verifierVersion);
    forall p | p in c.protectedVector
      ensures ValidId(p.metricId) && p.CandidateNoWorseThanBaseline() <==> GoodName(p.metricId) && MeetsBaseline(p)
    {
      NamesAccepted(p.metricId);
    }
    forall i, j | 0 <= i < j < |c.protectedVector|
      ensures var p, q := c.protectedVector[i].metricId, c.protectedVector[j].metricId;
              StringLt(p, q) <==> !StringLe(q, p)
    {
      StringLeIsTotalOrder(c.protectedVector[i].metricId, c.protectedVector[j].metricId, "");
    }
  }

  /** Why a metric is refused: for its name, then for its baseline, then as repeating an earlier name, then as standing
      behind a later one. */
  lemma MetricErrorOnFields(v: seq<ProtectedOutcome>, k: nat)
    requires k < |v|
    ensures var e, p := MetricError(v, k), v[k];
            var good, meets := GoodName(p.metricId), MeetsBaseline(p);
            var repeats := exists j :: 0 <= j < k && v[j].metricId == p.metricId;
            var behind := k > 0 && StringLe(p.metricId, v[k - 1].metricId);
            && (e == Some(InvalidMetricId) <==> !good)
            && (e == Some(Regression) <==> good && !meets)
            && (e == Some(DuplicateMetric) <==> good && meets && repeats)
            && (e == Some(UnsortedMetrics) <==> good && meets && !repeats && behind)
            && (e == None <==> good && meets && !repeats && !behind)
  {
    NamesAccepted(v[k].metricId);
    if k > 0 {
      StringLeIsTotalOrder(v[k - 1].metricId, v[k].metricId, "");
    }
  }
}
