/** Exact segmentation (`optimal_segmentation` in representation_economics.rs): a forward table of
    cheapest chains with predecessor links, walked backwards to read off the plan. */
module Segmentation {
  import opened Machine
  import opened Wrappers

  datatype SegmentCandidate = SegmentCandidate(start: U32, end: U32, additiveCost: U64, boundaryKind: string)

  datatype SegmentationPlan = SegmentationPlan(totalCost: U64, segments: seq<SegmentCandidate>)

  datatype SegmentationError =
    | EmptyLength
    | CostOverflow
    | NotCovered
    | PredecessorMissing
    | CandidateMissing

  /** What the table sees of a candidate: its two ends and the cost charged for it. */
  datatype Link = Link(start: U32, end: U32, cost: U64)

  /** A chain names its links by index, so that candidates of equal content stay apart. */
  type Chain = seq<nat>

  datatype CheapestChain = CheapestChain(cost: U64, chain: Chain)

  predicate Usable(links: seq<Link>, length: U32, k: nat) {
    k < |links| && links[k].start < links[k].end <= length
  }

  /** `chain` runs without a gap from 0 to `end` over usable links. */
  ghost predicate ChainTo(links: seq<Link>, length: U32, chain: Chain, end: nat) {
    if chain == [] then end == 0
    else
      var k := chain[|chain| - 1];
      && Usable(links, length, k)
      && links[k].end == end
      && ChainTo(links, length, chain[..|chain| - 1], links[k].start)
  }

  ghost function ChainCost(links: seq<Link>, length: U32, chain: Chain, end: nat): nat
    requires ChainTo(links, length, chain, end)
  {
    if chain == [] then 0
    else
      var k := chain[|chain| - 1];
      ChainCost(links, length, chain[..|chain| - 1], links[k].start) + links[k].cost
  }

  ghost predicate Reachable(links: seq<Link>, length: U32, end: nat) {
    exists chain :: ChainTo(links, length, chain, end)
  }

  /** Link `k` is tried before link `l`: its start is visited earlier, or it is listed earlier. */
  ghost predicate TriedNoLater(links: seq<Link>, k: nat, l: nat)
    requires k < |links| && l < |links|
  {
    links[k].start < links[l].start || (links[k].start == links[l].start && k <= l)
  }

  /** No chain to `end` is cheaper, ties are broken towards the link tried first,
      and the same holds of every shorter prefix of the chain. */
  ghost predicate CanonicalBest(links: seq<Link>, length: U32, chain: Chain, end: nat) {
    && ChainTo(links, length, chain, end)
    && (forall other | ChainTo(links, length, other, end) ::
          && ChainCost(links, length, chain, end) <= ChainCost(links, length, other, end)
          && (chain != [] && other != [] && ChainCost(links, length, chain, end) == ChainCost(links, length, other, end)
              ==> TriedNoLater(links, chain[|chain| - 1], other[|other| - 1])))
    && (chain != [] ==>
          CanonicalBest(links, length, chain[..|chain| - 1], links[chain[|chain| - 1]].start))
  }

  /** Link `k` leaves a reachable position, and every way of reaching that position makes the sum overflow. */
  ghost predicate OverflowsAt(links: seq<Link>, length: U32, k: nat) {
    && Usable(links, length, k)
    && Reachable(links, length, links[k].start)
    && (forall chain | ChainTo(links, length, chain, links[k].start) ::
          ChainCost(links, length, chain, links[k].start) + links[k].cost > U64_MAX)
  }

  ghost predicate Overflows(links: seq<Link>, length: U32) {
    exists k: nat :: OverflowsAt(links, length, k)
  }

  /** The only result the segmentation may have. */
  ghost predicate IsOutcome(links: seq<Link>, length: U32, r: Result<CheapestChain, SegmentationError>) {
    match r
    case Ok(best) =>
      && length > 0
      && !Overflows(links, length)
      && CanonicalBest(links, length, best.chain, length)
      && best.cost == ChainCost(links, length, best.chain, length)
    case Err(EmptyLength) => length == 0
    case Err(CostOverflow) => length > 0 && Overflows(links, length)
    case Err(NotCovered) => length > 0 && !Overflows(links, length) && !Reachable(links, length, length)
    case Err(_) => false
  }

  /** A plan covers the source: listed candidates, end to start, from 0 to the length. */
  ghost predicate Covers(candidates: seq<SegmentCandidate>, length: U32, segments: seq<SegmentCandidate>) {
    && segments != []
    && segments[0].start == 0 && segments[|segments| - 1].end == length
    && (forall i :: 0 <= i < |segments| ==> segments[i] in candidates && segments[i].start < segments[i].end)
    && (forall i :: 0 < i < |segments| ==> segments[i - 1].end == segments[i].start)
  }

  ghost function PlanCost(segments: seq<SegmentCandidate>): nat {
    if segments == [] then 0 else PlanCost(segments[..|segments| - 1]) + segments[|segments| - 1].additiveCost
  }

  function LinkOf(candidate: SegmentCandidate): Link {
    Link(candidate.start, candidate.end, candidate.additiveCost)
  }

  function Links(candidates: seq<SegmentCandidate>): (links: seq<Link>)
    ensures |links| == |candidates|
  {
    seq(|candidates|, i requires 0 <= i < |candidates| => LinkOf(candidates[i]))
  }

  // ----- the table -----

  datatype Slot = Slot(cost: U64, previous: Option<nat>, candidate: Option<nat>)

  type Table = seq<Option<Slot>>

  /** The links relaxed once positions below `p`, and indices below `i` at `p`, have been visited. */
  ghost predicate Done(links: seq<Link>, length: U32, p: nat, i: nat, k: nat) {
    Usable(links, length, k) && (links[k].start < p || (links[k].start == p && k < i))
  }

  /** A filled slot past the origin records a relaxed link and the sum over it. */
  ghost predicate SlotJustified(links: seq<Link>, length: U32, best: Table, p: nat, i: nat, q: nat)
    requires |best| == length + 1 && q <= length
  {
    best[q].Some? ==>
      var slot := best[q].value;
      && slot.candidate.Some? && Done(links, length, p, i, slot.candidate.value)
      && var link := links[slot.candidate.value];
      && link.end == q
      && slot.previous == Some(link.start)
      && best[link.start].Some?
      && slot.cost == best[link.start].value.cost + link.cost
  }

  /** A relaxed link out of a filled slot did not overflow and is not better than the slot it leads to. */
  ghost predicate LinkRelaxed(links: seq<Link>, length: U32, best: Table, k: nat)
    requires |best| == length + 1 && Usable(links, length, k)
  {
    var link := links[k];
    best[link.start].Some? ==>
      var sum := best[link.start].value.cost + link.cost;
      && sum <= U64_MAX
      && best[link.end].Some?
      && best[link.end].value.cost <= sum
      && (best[link.end].value.cost == sum && best[link.end].value.candidate.Some? ==>
            best[link.end].value.candidate.value < |links| &&
            TriedNoLater(links, best[link.end].value.candidate.value, k))
  }

  ghost predicate TableInvariant(links: seq<Link>, length: U32, best: Table, p: nat, i: nat) {
    && |best| == length + 1
    && best[0] == Some(Slot(0, None, None))
    && (forall q :: 0 < q <= length ==> SlotJustified(links, length, best, p, i, q))
    && (forall k: nat :: Done(links, length, p, i, k) ==> LinkRelaxed(links, length, best, k))
  }

  /** What visiting link `i` at position `p` does to the table. */
  function Relax(best: Table, link: Link, p: nat, i: nat, sum: U64): Table
    requires link.end < |best|
  {
    if best[link.end].None? || sum < best[link.end].value.cost
    then best[link.end := Some(Slot(sum, Some(p), Some(i)))]
    else best
  }

  lemma RelaxKeepsInvariant(links: seq<Link>, length: U32, best: Table, p: nat, i: nat, sum: U64)
    requires TableInvariant(links, length, best, p, i)
    requires Usable(links, length, i) && links[i].start == p
    requires best[p].Some? && sum == best[p].value.cost + links[i].cost
    ensures TableInvariant(links, length, Relax(best, links[i], p, i, sum), p, i + 1)
  {
    var after, next := Relax(best, links[i], p, i, sum), i + 1;
    assert SlotJustified(links, length, best, p, i, links[i].end);
    forall k: nat | Done(links, length, p, next, k)
      ensures LinkRelaxed(links, length, after, k)
    {
      assert SlotJustified(links, length, best, p, i, links[k].end);
      if k != i {
        assert Done(links, length, p, i, k) && LinkRelaxed(links, length, best, k);
      }
    }
    forall q | 0 < q <= length
      ensures SlotJustified(links, length, after, p, next, q)
    {
      assert SlotJustified(links, length, best, p, i, q);
    }
  }

  lemma SkipKeepsInvariant(links: seq<Link>, length: U32, best: Table, p: nat, i: nat, p': nat, i': nat)
    requires TableInvariant(links, length, best, p, i)
    requires forall k: nat :: Done(links, length, p, i, k) ==> Done(links, length, p', i', k)
    requires forall k: nat :: Done(links, length, p', i', k) && !Done(links, length, p, i, k) ==>
             best[links[k].start].None?
    ensures TableInvariant(links, length, best, p', i')
  {
    forall q | 0 < q <= length
      ensures SlotJustified(links, length, best, p', i', q)
    {
      assert SlotJustified(links, length, best, p, i, q);
    }
    forall k: nat | Done(links, length, p', i', k)
      ensures LinkRelaxed(links, length, best, k)
    {
      if Done(links, length, p, i, k) {
        assert LinkRelaxed(links, length, best, k);
      }
    }
  }

  /** The chain the predecessor links of the table spell out. */
  ghost function Traced(links: seq<Link>, length: U32, best: Table, p: nat, i: nat, q: nat): Chain
    requires TableInvariant(links, length, best, p, i)
    requires q <= length && best[q].Some?
  {
    if q == 0 then []
    else
      assert SlotJustified(links, length, best, p, i, q);
      var k := best[q].value.candidate.value;
      Traced(links, length, best, p, i, links[k].start) + [k]
  }

  lemma {:induction false} TracedIsChain(links: seq<Link>, length: U32, best: Table, p: nat, i: nat, q: nat)
    requires TableInvariant(links, length, best, p, i)
    requires q <= length && best[q].Some?
    ensures ChainTo(links, length, Traced(links, length, best, p, i, q), q)
    ensures ChainCost(links, length, Traced(links, length, best, p, i, q), q) == best[q].value.cost
  {
    if q != 0 {
      assert SlotJustified(links, length, best, p, i, q);
      var k := best[q].value.candidate.value;
      TracedIsChain(links, length, best, p, i, links[k].start);
      var chain := Traced(links, length, best, p, i, q);
      assert chain[..|chain| - 1] == Traced(links, length, best, p, i, links[k].start);
    }
  }

  /** Up to the current position no chain beats the table. */
  lemma {:induction false} NoChainBeatsTable(links: seq<Link>, length: U32, best: Table, p: nat, i: nat, chain: Chain,
                                             q: nat)
    requires TableInvariant(links, length, best, p, i)
    requires q <= p && q <= length && ChainTo(links, length, chain, q)
    ensures best[q].Some? && best[q].value.cost <= ChainCost(links, length, chain, q)
    ensures q > 0 && best[q].value.cost == ChainCost(links, length, chain, q) ==>
              best[q].value.candidate.Some? && best[q].value.candidate.value < |links| &&
              TriedNoLater(links, best[q].value.candidate.value, chain[|chain| - 1])
  {
    if chain != [] {
      var k := chain[|chain| - 1];
      NoChainBeatsTable(links, length, best, p, i, chain[..|chain| - 1], links[k].start);
      assert Done(links, length, p, i, k) && LinkRelaxed(links, length, best, k);
      assert SlotJustified(links, length, best, p, i, q);
    }
  }

  lemma {:induction false} TracedIsCanonical(links: seq<Link>, length: U32, best: Table, p: nat, i: nat, q: nat)
    requires TableInvariant(links, length, best, p, i)
    requires q <= p && q <= length && best[q].Some?
    ensures CanonicalBest(links, length, Traced(links, length, best, p, i, q), q)
  {
    var chain := Traced(links, length, best, p, i, q);
    TracedIsChain(links, length, best, p, i, q);
    forall other | ChainTo(links, length, other, q)
      ensures ChainCost(links, length, chain, q) <= ChainCost(links, length, other, q)
      ensures chain != [] && other != [] && ChainCost(links, length, chain, q) == ChainCost(links, length, other, q)
              ==> TriedNoLater(links, chain[|chain| - 1], other[|other| - 1])
    {
      NoChainBeatsTable(links, length, best, p, i, other, q);
    }
    if q != 0 {
      assert SlotJustified(links, length, best, p, i, q);
      var k := best[q].value.candidate.value;
      TracedIsCanonical(links, length, best, p, i, links[k].start);
      assert chain[..|chain| - 1] == Traced(links, length, best, p, i, links[k].start);
    }
  }

  lemma OverflowIsGenuine(links: seq<Link>, length: U32, best: Table, p: nat, i: nat, k: nat)
    requires TableInvariant(links, length, best, p, i)
    requires Usable(links, length, k) && links[k].start == p
    requires best[p].Some? && best[p].value.cost + links[k].cost > U64_MAX
    ensures OverflowsAt(links, length, k)
  {
    TracedIsChain(links, length, best, p, i, p);
    forall chain | ChainTo(links, length, chain, p)
      ensures ChainCost(links, length, chain, p) + links[k].cost > U64_MAX
    {
      NoChainBeatsTable(links, length, best, p, i, chain, p);
    }
  }

  lemma FinishedTableNeverOverflowed(links: seq<Link>, length: U32, best: Table)
    requires TableInvariant(links, length, best, length, 0)
    ensures !Overflows(links, length)
  {
    forall k: nat
      ensures !OverflowsAt(links, length, k)
    {
      if Usable(links, length, k) && Reachable(links, length, links[k].start) {
        var chain :| ChainTo(links, length, chain, links[k].start);
        NoChainBeatsTable(links, length, best, length, 0, chain, links[k].start);
        assert Done(links, length, length, 0, k) && LinkRelaxed(links, length, best, k);
        TracedIsChain(links, length, best, length, 0, links[k].start);
      }
    }
  }

  function Reversed<T>(s: seq<T>): seq<T> {
    if s == [] then [] else Reversed(s[1..]) + [s[0]]
  }

  lemma {:induction false} ReversedSnoc<T>(s: seq<T>, x: T)
    ensures Reversed(s + [x]) == [x] + Reversed(s)
  {
    if s != [] {
      ReversedSnoc(s[1..], x);
      assert (s + [x])[1..] == s[1..] + [x];
    }
  }

  /** The table-filling and walk-back loops, shared by both segmentations. */
  method FindCheapestChain(length: U32, links: seq<Link>) returns (r: Result<CheapestChain, SegmentationError>)
    ensures IsOutcome(links, length, r)
  {
    if length == 0 {
      return Err(EmptyLength);
    }
    var best := new Option<Slot>[length + 1](_ => None);
    best[0] := Some(Slot(0, None, None));
    for position := 0 to length
      invariant TableInvariant(links, length, best[..], position, 0)
    {
      if best[position].None? {
        SkipKeepsInvariant(links, length, best[..], position, 0, position + 1, 0);
        continue;
      }
      for index := 0 to |links|
        invariant TableInvariant(links, length, best[..], position, index)
        invariant best[position].Some?
      {
        var link := links[index];
        if link.start != position || link.end <= link.start || link.end > length {
          SkipKeepsInvariant(links, length, best[..], position, index, position, index + 1);
          continue;
        }
        var sum := best[position].value.cost + link.cost;
        if sum > U64_MAX {
          OverflowIsGenuine(links, length, best[..], position, index, index);
          return Err(CostOverflow);
        }
        ghost var before := best[..];
        if best[link.end].None? || sum < best[link.end].value.cost {
          best[link.end] := Some(Slot(sum, Some(position), Some(index)));
        }
        assert best[..] == Relax(before, link, position, index, sum);
        RelaxKeepsInvariant(links, length, before, position, index, sum);
      }
      SkipKeepsInvariant(links, length, best[..], position, |links|, position + 1, 0);
    }
    FinishedTableNeverOverflowed(links, length, best[..]);
    if best[length].None? {
      forall chain
        ensures !ChainTo(links, length, chain, length)
      {
        if ChainTo(links, length, chain, length) {
          NoChainBeatsTable(links, length, best[..], length, 0, chain, length);
        }
      }
      return Err(NotCovered);
    }
    r := WalkBack(links, length, best);
  }

  method WalkBack(links: seq<Link>, length: U32, best: array<Option<Slot>>)
    returns (r: Result<CheapestChain, SegmentationError>)
    requires length > 0 && TableInvariant(links, length, best[..], length, 0) && best[length].Some?
    requires !Overflows(links, length)
    ensures IsOutcome(links, length, r) && r.Ok?
  {
    ghost var table := best[..];
    ghost var whole := Traced(links, length, table, length, 0, length);
    var position: nat := length;
    var walked: Chain := [];
    while position > 0
      invariant position <= length && table[position].Some?
      invariant Traced(links, length, table, length, 0, position) + Reversed(walked) == whole
    {
      assert SlotJustified(links, length, table, length, 0, position);
      if best[position].None? || best[position].value.previous.None? {
        return Err(PredecessorMissing);
      }
      if best[position].value.candidate.None? {
        return Err(CandidateMissing);
      }
      ReversedSnoc(walked, best[position].value.candidate.value);
      walked := walked + [best[position].value.candidate.value];
      position := best[position].value.previous.value;
    }
    TracedIsCanonical(links, length, table, length, 0, length);
    TracedIsChain(links, length, table, length, 0, length);
    assert [] + Reversed(walked) == Reversed(walked);
    r := Ok(CheapestChain(best[length].value.cost, Reversed(walked)));
  }

  function Pick<T>(candidates: seq<T>, chain: Chain): seq<T>
    requires forall i :: 0 <= i < |chain| ==> chain[i] < |candidates|
  {
    seq(|chain|, i requires 0 <= i < |chain| => candidates[chain[i]])
  }

  lemma {:induction false} ChainInRange(links: seq<Link>, length: U32, chain: Chain, end: nat)
    requires ChainTo(links, length, chain, end)
    ensures forall i :: 0 <= i < |chain| ==> chain[i] < |links|
  {
    if chain != [] {
      ChainInRange(links, length, chain[..|chain| - 1], links[chain[|chain| - 1]].start);
      assert forall i :: 0 <= i < |chain| - 1 ==> chain[i] == chain[..|chain| - 1][i];
    }
  }

  method OptimalSegmentation(length: U32, candidates: seq<SegmentCandidate>)
    returns (r: Result<SegmentationPlan, SegmentationError>)
    ensures length == 0 <==> r == Err(EmptyLength)
    ensures length > 0 && Overflows(Links(candidates), length) <==> r == Err(CostOverflow)
    ensures (length > 0 && !Overflows(Links(candidates), length) &&
             !(exists segments :: Covers(candidates, length, segments))) <==> r == Err(NotCovered)
    ensures r != Err(PredecessorMissing) && r != Err(CandidateMissing)
    ensures r.Ok? ==>
              && Covers(candidates, length, r.value.segments)
              && r.value.totalCost == PlanCost(r.value.segments)
              && forall segments | Covers(candidates, length, segments) :: r.value.totalCost <= PlanCost(segments)
    ensures r.Ok? ==>
              exists chain :: CanonicalBest(Links(candidates), length, chain, length) &&
                              (forall i :: 0 <= i < |chain| ==> chain[i] < |candidates|) &&
                              r.value.segments == Pick(candidates, chain)
  {
    var found := FindCheapestChain(length, Links(candidates));
    CoveredIffReachable(candidates, length);
    match found {
      case Err(error) =>
        r := Err(error);
      case Ok(best) =>
        ChainInRange(Links(candidates), length, best.chain, length);
        PlanOfChain(candidates, length, best.chain, length);
        r := Ok(SegmentationPlan(best.cost, Pick(candidates, best.chain)));
        forall segments | Covers(candidates, length, segments)
          ensures best.cost <= PlanCost(segments)
        {
          var other := ChainOfPlan(candidates, length, segments, length);
        }
    }
  }

  // ----- chains of indices and plans of candidates are the same thing -----

  lemma {:induction false} PlanOfChain(candidates: seq<SegmentCandidate>, length: U32, chain: Chain, end: U32)
    requires ChainTo(Links(candidates), length, chain, end)
    requires forall i :: 0 <= i < |chain| ==> chain[i] < |candidates|
    ensures end > 0 ==> Covers(candidates, end, Pick(candidates, chain))
    ensures end == 0 <==> chain == []
    ensures PlanCost(Pick(candidates, chain)) == ChainCost(Links(candidates), length, chain, end)
  {
    if chain != [] {
      var front, k := chain[..|chain| - 1], chain[|chain| - 1];
      PlanOfChain(candidates, length, front, candidates[k].start);
      var segments := Pick(candidates, chain);
      assert segments[..|segments| - 1] == Pick(candidates, front);
      assert forall i :: 0 <= i < |front| ==> segments[i] == Pick(candidates, front)[i];
    }
  }

  lemma {:induction false} ChainOfPlan(candidates: seq<SegmentCandidate>, length: U32,
                                       segments: seq<SegmentCandidate>, end: U32)
    returns (chain: Chain)
    requires Covers(candidates, end, segments) && end <= length
    ensures ChainTo(Links(candidates), length, chain, end)
    ensures ChainCost(Links(candidates), length, chain, end) == PlanCost(segments)
  {
    var front, last := segments[..|segments| - 1], segments[|segments| - 1];
    var k: nat :| k < |candidates| && candidates[k] == last;
    var before: Chain := [];
    if front != [] {
      assert forall i :: 0 <= i < |front| ==> front[i] == segments[i];
      before := ChainOfPlan(candidates, length, front, last.start);
    }
    chain := before + [k];
    assert chain[..|chain| - 1] == before;
  }

  lemma CoveredIffReachable(candidates: seq<SegmentCandidate>, length: U32)
    ensures length > 0 ==>
              (Reachable(Links(candidates), length, length) <==>
               exists segments :: Covers(candidates, length, segments))
  {
    if length > 0 {
      if Reachable(Links(candidates), length, length) {
        var chain :| ChainTo(Links(candidates), length, chain, length);
        ChainInRange(Links(candidates), length, chain, length);
        PlanOfChain(candidates, length, chain, length);
      }
      if segments :| Covers(candidates, length, segments) {
        var chain := ChainOfPlan(candidates, length, segments, length);
      }
    }
  }

  // ----- the outcome is a function of the links -----

  lemma {:induction false} CanonicalBestIsUnique(links: seq<Link>, length: U32, chain: Chain, other: Chain, end: nat)
    requires CanonicalBest(links, length, chain, end) && CanonicalBest(links, length, other, end)
    ensures chain == other
  {
    if chain != [] {
      var k := chain[|chain| - 1];
      assert other != [] && other[|other| - 1] == k;
      CanonicalBestIsUnique(links, length, chain[..|chain| - 1], other[..|other| - 1], links[k].start);
      assert chain == chain[..|chain| - 1] + [k] && other == other[..|other| - 1] + [k];
    }
  }

  lemma OutcomeIsUnique(links: seq<Link>, length: U32,
                        r: Result<CheapestChain, SegmentationError>, s: Result<CheapestChain, SegmentationError>)
    requires IsOutcome(links, length, r) && IsOutcome(links, length, s)
    ensures r == s
  {
    if r.Ok? && s.Ok? {
      CanonicalBestIsUnique(links, length, r.value.chain, s.value.chain, length);
    }
  }

  // ----- when sums overflow -----

  lemma {:induction false} ChainIsShort(links: seq<Link>, length: U32, chain: Chain, end: nat, most: nat)
    requires ChainTo(links, length, chain, end)
    requires forall l :: l in links ==> l.cost <= most
    ensures |chain| <= end && ChainCost(links, length, chain, end) <= |chain| * most
  {
    if chain != [] {
      ChainIsShort(links, length, chain[..|chain| - 1], links[chain[|chain| - 1]].start, most);
    }
  }

  lemma TimesMonotone(x: nat, y: nat, factor: nat)
    requires x <= y
    ensures x * factor <= y * factor
  {
  }

  /** A caller who keeps length times the dearest candidate within 64 bits never sees an overflow. */
  lemma SmallCostsNeverOverflow(links: seq<Link>, length: U32, most: nat)
    requires forall l :: l in links ==> l.cost <= most
    requires length * most <= U64_MAX
    ensures !Overflows(links, length)
  {
    forall k: nat
      ensures !OverflowsAt(links, length, k)
    {
      if Usable(links, length, k) && Reachable(links, length, links[k].start) {
        var chain :| ChainTo(links, length, chain, links[k].start);
        ChainIsShort(links, length, chain, links[k].start, most);
        assert |chain| * most + most == (|chain| + 1) * most;
        assert links[k] in links;
        TimesMonotone(|chain| + 1, length, most);
      }
    }
  }

  /** An overflow aborts the search even on a link that the cheapest plan does not use. */
  lemma OverflowOffTheBestPlan()
    ensures var links := [Link(0, 2, 1), Link(0, 1, 1), Link(1, 2, U64_MAX)];
            && Overflows(links, 2)
            && CanonicalBest(links, 2, [0], 2)
            && ChainCost(links, 2, [0], 2) == 1
  {
    var links := [Link(0, 2, 1), Link(0, 1, 1), Link(1, 2, U64_MAX)];
    assert ChainTo(links, 2, [0][..0], 0) && ChainTo(links, 2, [1][..0], 0);
    assert ChainTo(links, 2, [1], 1);
    assert OverflowsAt(links, 2, 2);
    forall other | ChainTo(links, 2, other, 2)
      ensures 1 <= ChainCost(links, 2, other, 2) && TriedNoLater(links, 0, other[|other| - 1])
    {
    }
  }
}
