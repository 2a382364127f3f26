/** Resource vectors and the Pareto frontier of representation records (representation_economics.rs). */
module RepresentationPareto {
  import opened Machine
  import opened Sorting

  datatype RepresentationKind =
    | RawBytes
    | ChunkManifest
    | CompressedBytes
    | SyntaxTree
    | SemanticIr
    | ClaimBundle
    | ProofBundle
    | Delta
    | ModelRendering

  datatype RepresentationResources = RepresentationResources(
    storedBytes: U64,
    wireBytes: U64,
    sourceTokens: U64,
    visibleTokens: U64,
    expansionWork: U64,
    verificationWork: U64,
    latencyMicros: U64,
    metadataBytes: U64)
  {
    predicate DominatesOrEqual(other: RepresentationResources) {
      && storedBytes <= other.storedBytes
      && wireBytes <= other.wireBytes
      && sourceTokens <= other.sourceTokens
      && visibleTokens <= other.visibleTokens
      && expansionWork <= other.expansionWork
      && verificationWork <= other.verificationWork
      && latencyMicros <= other.latencyMicros
      && metadataBytes <= other.metadataBytes
    }

    predicate StrictlyBetterThan(other: RepresentationResources) {
      DominatesOrEqual(other) && this != other
    }

    ghost function Total(): nat {
      storedBytes + wireBytes + sourceTokens + visibleTokens +
      expansionWork + verificationWork + latencyMicros + metadataBytes
    }
  }

  datatype RepresentationRecord = RepresentationRecord(
    representationRoot: string,
    semanticRoot: string,
    adapterRoot: string,
    kind: RepresentationKind,
    exact: bool,
    resources: RepresentationResources)

  /** At least as exact and strictly cheaper, for the same meaning and adapter. */
  predicate Improves(other: RepresentationRecord, candidate: RepresentationRecord) {
    && other.semanticRoot == candidate.semanticRoot
    && other.adapterRoot == candidate.adapterRoot
    && (!candidate.exact || other.exact)
    && other.resources.StrictlyBetterThan(candidate.resources)
  }

  predicate Dominated(records: seq<RepresentationRecord>, candidate: RepresentationRecord) {
    exists other | other in records ::
      other.representationRoot != candidate.representationRoot && Improves(other, candidate)
  }

  predicate RootLe(left: RepresentationRecord, right: RepresentationRecord) {
    StringLe(left.representationRoot, right.representationRoot)
  }

  function ParetoFrontier(records: seq<RepresentationRecord>): seq<RepresentationRecord> {
    SortBy(Filter(records, candidate => !Dominated(records, candidate)), RootLe)
  }

  lemma RootOrder()
    ensures TotalPreorder(RootLe)
  {
    forall x, y
      ensures RootLe(x, y) || RootLe(y, x)
    {
      StringLeIsTotalOrder(x.representationRoot, y.representationRoot, "");
    }
    forall x, y, z | RootLe(x, y) && RootLe(y, z)
      ensures RootLe(x, z)
    {
      StringLeIsTotalOrder(x.representationRoot, y.representationRoot, z.representationRoot);
    }
  }

  lemma FrontierMembers(records: seq<RepresentationRecord>)
    ensures Sorted(ParetoFrontier(records), RootLe)
    ensures multiset(ParetoFrontier(records)) == multiset(Filter(records, candidate => !Dominated(records, candidate)))
    ensures forall c :: c in ParetoFrontier(records) <==> c in records && !Dominated(records, c)
  {
    RootOrder();
    var kept := Filter(records, candidate => !Dominated(records, candidate));
    SortSorts(kept, RootLe);
    forall c
      ensures c in ParetoFrontier(records) <==> c in kept
    {
      SameMembers(ParetoFrontier(records), kept, c);
    }
  }

  /** Resource dominance is a strict partial order; so is improvement between records. */
  lemma ImprovementIsStrictOrder(a: RepresentationRecord, b: RepresentationRecord, c: RepresentationRecord)
    ensures !Improves(a, a)
    ensures Improves(a, b) ==> !Improves(b, a) && a.resources.Total() < b.resources.Total()
    ensures Improves(a, b) && Improves(b, c) ==> Improves(a, c)
  {
  }

  /** Every record is on the frontier or improved upon by a record that is. */
  lemma {:induction false} FrontierCovers(records: seq<RepresentationRecord>, candidate: RepresentationRecord)
    returns (best: RepresentationRecord)
    requires candidate in records
    ensures best in ParetoFrontier(records)
    ensures if candidate in ParetoFrontier(records) then best == candidate else Improves(best, candidate)
    decreases candidate.resources.Total()
  {
    FrontierMembers(records);
    if !Dominated(records, candidate) {
      best := candidate;
    } else {
      var other :| other in records && other.representationRoot != candidate.representationRoot &&
          Improves(other, candidate);
      ImprovementIsStrictOrder(other, candidate, candidate);
      best := FrontierCovers(records, other);
      ImprovementIsStrictOrder(best, other, candidate);
    }
  }

  lemma FrontierIsIdempotent(records: seq<RepresentationRecord>)
    ensures ParetoFrontier(ParetoFrontier(records)) == ParetoFrontier(records)
  {
    var frontier := ParetoFrontier(records);
    FrontierMembers(records);
    forall c | c in frontier
      ensures !Dominated(frontier, c)
    {
    }
    FilterKeepsAll(frontier, candidate => !Dominated(frontier, candidate));
    SortedStays(frontier, RootLe);
  }

  lemma DominationIgnoresListing(records: seq<RepresentationRecord>, listed: seq<RepresentationRecord>)
    requires forall c :: c in records <==> c in listed
    ensures forall c :: Dominated(records, c) <==> Dominated(listed, c)
  {
  }

  /** Relisting the records leaves the frontier's contents alone, and its order too when no root is shared. */
  lemma FrontierIgnoresListing(records: seq<RepresentationRecord>, listed: seq<RepresentationRecord>)
    requires multiset(records) == multiset(listed)
    ensures multiset(ParetoFrontier(records)) == multiset(ParetoFrontier(listed))
    ensures (forall x, y :: x in records && y in records && x.representationRoot == y.representationRoot ==> x == y) ==>
              ParetoFrontier(records) == ParetoFrontier(listed)
  {
    FrontierMembers(records);
    FrontierMembers(listed);
    forall c
      ensures multiset(ParetoFrontier(records))[c] == multiset(ParetoFrontier(listed))[c]
    {
      assert Dominated(records, c) <==> Dominated(listed, c) by {
        forall x
          ensures x in records <==> x in listed
        {
          SameMembers(records, listed, x);
        }
        DominationIgnoresListing(records, listed);
      }
      FilterMultiplicity(records, candidate => !Dominated(records, candidate), c);
      FilterMultiplicity(listed, candidate => !Dominated(listed, candidate), c);
    }
    if forall x, y :: x in records && y in records && x.representationRoot == y.representationRoot ==> x == y {
      DistinctRootsFixOrder(ParetoFrontier(records), ParetoFrontier(listed));
    }
  }

  lemma DistinctRootsFixOrder(s: seq<RepresentationRecord>, t: seq<RepresentationRecord>)
    requires Sorted(s, RootLe) && Sorted(t, RootLe) && multiset(s) == multiset(t)
    requires forall x, y :: x in s && y in s && x.representationRoot == y.representationRoot ==> x == y
    ensures s == t
  {
    forall x, y | RootLe(x, y) && RootLe(y, x)
      ensures x.representationRoot == y.representationRoot
    {
      StringLeIsTotalOrder(x.representationRoot, y.representationRoot, "");
    }
    SortedIsUnique(s, t, RootLe);
  }

  // ----- on the fields -----

  /** The eight resources. */
  function Costs(r: RepresentationResources): seq<int> {
    [r.storedBytes, r.wireBytes, r.sourceTokens, r.visibleTokens, r.expansionWork, r.verificationWork, r.latencyMicros,
     r.metadataBytes]
  }

  /** Resource dominance compares the eight one by one; it is strict when one of them is lower. */
  lemma CostsDecide(r: RepresentationResources, s: RepresentationResources)
    ensures (forall k :: 0 <= k < 8 ==> Costs(r)[k] <= Costs(s)[k]) <==> r.DominatesOrEqual(s)
    ensures r.StrictlyBetterThan(s) <==>
            r.DominatesOrEqual(s) && exists k :: 0 <= k < 8 && Costs(r)[k] < Costs(s)[k]
  {
    var x, y := Costs(r), Costs(s);
    assert x[0] == r.storedBytes && x[1] == r.wireBytes && x[2] == r.sourceTokens && x[3] == r.visibleTokens;
    assert x[4] == r.expansionWork && x[5] == r.verificationWork && x[6] == r.latencyMicros && x[7] == r.metadataBytes;
    assert y[0] == s.storedBytes && y[1] == s.wireBytes && y[2] == s.sourceTokens && y[3] == s.visibleTokens;
    assert y[4] == s.expansionWork && y[5] == s.verificationWork && y[6] == s.latencyMicros && y[7] == s.metadataBytes;
    if forall k :: 0 <= k < 8 ==> x[k] >= y[k] {
      assert r.DominatesOrEqual(s) ==> r == s;
    }
  }

  /** The frontier holds, as often as it is listed, each record for which no other root offers the same meaning
      through the same adapter, at least as exactly, with no resource higher and one lower; roots never fall. */
  lemma FrontierOnFields(records: seq<RepresentationRecord>, c: RepresentationRecord)
    ensures var frontier := ParetoFrontier(records);
            && multiset(frontier)[c] == (if exists o :: o in records && Offers(o, c) then 0 else multiset(records)[c])
            && forall i, j :: 0 <= i < j < |frontier| ==>
                 StringLe(frontier[i].representationRoot, frontier[j].representationRoot)
  {
    FrontierMembers(records);
    FilterMultiplicity(records, candidate => !Dominated(records, candidate), c);
    forall o | o in records
      ensures Offers(o, c) <==> o.representationRoot != c.representationRoot && Improves(o, c)
    {
      CostsDecide(o.resources, c.resources);
    }
    assert Dominated(records, c) <==> exists o :: o in records && Offers(o, c);
    var frontier := ParetoFrontier(records);
    forall i, j | 0 <= i < j < |frontier|
      ensures StringLe(frontier[i].representationRoot, frontier[j].representationRoot)
    {
      assert RootLe(frontier[i], frontier[j]);
    }
  }

  ghost predicate Offers(o: RepresentationRecord, c: RepresentationRecord) {
    && o.representationRoot != c.representationRoot
    && o.semanticRoot == c.semanticRoot && o.adapterRoot == c.adapterRoot
    && (c.exact ==> o.exact)
    && (forall k :: 0 <= k < 8 ==> Costs(o.resources)[k] <= Costs(c.resources)[k])
    && (exists k :: 0 <= k < 8 && Costs(o.resources)[k] < Costs(c.resources)[k])
  }
}
