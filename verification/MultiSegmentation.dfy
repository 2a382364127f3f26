/** Segmentation under several weighted tokenizers (`optimal_multi_tokenizer_segmentation` in
    representation_economics.rs): each candidate is charged its own cost plus the rounded-up weighted
    cost of every tokenizer, and the single-cost search runs over those charges. */
module MultiSegmentation {
  import opened Machine
  import opened Wrappers
  import opened Segmentation

  const PPM := 1_000_000

  datatype TokenizerCost = TokenizerCost(tokenizerRoot: string, tokens: U64)

  datatype TokenizerWeight = TokenizerWeight(tokenizerRoot: string, weightPpm: U64)

  datatype MultiTokenizerSegmentCandidate =
    MultiTokenizerSegmentCandidate(segment: SegmentCandidate, tokenizerCosts: seq<TokenizerCost>)

  datatype MultiTokenizerSegmentationPlan =
    MultiTokenizerSegmentationPlan(totalCost: U64, segments: seq<MultiTokenizerSegmentCandidate>)

  datatype MultiError =
    | NoTokenizer
    | InvalidWeights
    | InvalidCosts
    | CostDisappeared
    | WeightedCostOverflow
    | WeightedCostTooLarge
    | Search(error: SegmentationError)

  type PerTokenizer = map<string, U64>

  /** Weights by tokenizer root; a later entry replaces an earlier one of the same root. */
  function WeightMap(weights: seq<TokenizerWeight>): PerTokenizer {
    if weights == [] then map[]
    else
      var w := weights[|weights| - 1];
      WeightMap(weights[..|weights| - 1])[w.tokenizerRoot := w.weightPpm]
  }

  function CostMap(costs: seq<TokenizerCost>): PerTokenizer {
    if costs == [] then map[]
    else
      var c := costs[|costs| - 1];
      CostMap(costs[..|costs| - 1])[c.tokenizerRoot := c.tokens]
  }

  predicate ValidWeights(weights: seq<TokenizerWeight>) {
    && (forall w | w in weights :: w.tokenizerRoot != "" && w.weightPpm > 0)
    && |WeightMap(weights)| == |weights|
  }

  /** Exactly one cost for each weighted tokenizer. */
  predicate OneCostEach(costs: seq<TokenizerCost>, weights: PerTokenizer) {
    |CostMap(costs)| == |costs| && CostMap(costs).Keys == weights.Keys
  }

  function CeilDiv(x: nat, y: nat): nat
    requires y > 0
  {
    (x + y - 1) / y
  }

  /** Tokens times weight, without the width of any machine integer. */
  function Product(tokens: U64, weight: U64): nat {
    TimesMonotone(0, tokens, weight);
    tokens * weight
  }

  function Charge(weight: U64, tokens: U64): nat {
    CeilDiv(Product(tokens, weight), PPM)
  }

  /** The charge as computed, on a product that saturates at 128 bits. */
  function SaturatingCharge(weight: U64, tokens: U64): nat {
    CeilDiv(if Product(tokens, weight) > U128_MAX then U128_MAX else Product(tokens, weight), PPM)
  }

  /** The rounded charge summed over a set of tokenizers, in no particular order. */
  ghost function ChargeSum(roots: set<string>, weights: PerTokenizer, costs: PerTokenizer): nat
    requires roots <= weights.Keys && roots <= costs.Keys
  {
    if roots == {} then 0
    else
      var root :| root in roots;
      Charge(weights[root], costs[root]) + ChargeSum(roots - {root}, weights, costs)
  }

  lemma {:induction false} ChargeSumTakesAny(roots: set<string>, weights: PerTokenizer, costs: PerTokenizer,
                                             any: string)
    requires roots <= weights.Keys && roots <= costs.Keys && any in roots
    ensures ChargeSum(roots, weights, costs) ==
            Charge(weights[any], costs[any]) + ChargeSum(roots - {any}, weights, costs)
  {
    var root :| root in roots && ChargeSum(roots, weights, costs) ==
                                 Charge(weights[root], costs[root]) + ChargeSum(roots - {root}, weights, costs);
    if root != any {
      ChargeSumTakesAny(roots - {root}, weights, costs, any);
      ChargeSumTakesAny(roots - {any}, weights, costs, root);
      assert roots - {root} - {any} == roots - {any} - {root};
    }
  }

  /** What a candidate is charged, or why it cannot be. */
  ghost function EffectiveCost(candidate: MultiTokenizerSegmentCandidate,
                               weights: PerTokenizer): Result<U64, MultiError> {
    if !OneCostEach(candidate.tokenizerCosts, weights) then Err(InvalidCosts)
    else
      var weighted := ChargeSum(weights.Keys, weights, CostMap(candidate.tokenizerCosts));
      if weighted > U128_MAX then Err(WeightedCostOverflow)
      else if weighted > U64_MAX then Err(WeightedCostTooLarge)
      else if candidate.segment.additiveCost + weighted > U64_MAX then Err(WeightedCostOverflow)
      else Ok(candidate.segment.additiveCost + weighted)
  }

  ghost predicate AllCharged(candidates: seq<MultiTokenizerSegmentCandidate>, weights: PerTokenizer) {
    forall i :: 0 <= i < |candidates| ==> EffectiveCost(candidates[i], weights).Ok?
  }

  /** The candidates as links carrying their charges. */
  ghost function ChargedLinks(candidates: seq<MultiTokenizerSegmentCandidate>,
                              weights: PerTokenizer): (links: seq<Link>)
    requires AllCharged(candidates, weights)
    ensures |links| == |candidates|
  {
    seq(|candidates|, i requires 0 <= i < |candidates| =>
      Link(candidates[i].segment.start, candidates[i].segment.end, EffectiveCost(candidates[i], weights).value))
  }

  /** The first candidate that cannot be charged decides the error. */
  ghost predicate FirstUncharged(candidates: seq<MultiTokenizerSegmentCandidate>, weights: PerTokenizer, i: nat,
                                 e: MultiError) {
    && i < |candidates|
    && EffectiveCost(candidates[i], weights) == Err(e)
    && (forall j :: 0 <= j < i ==> EffectiveCost(candidates[j], weights).Ok?)
  }

  /** The only result the search over several tokenizers may have, up to naming candidates by index. */
  ghost predicate IsMultiOutcome(length: U32, candidates: seq<MultiTokenizerSegmentCandidate>,
                                 weights: seq<TokenizerWeight>, r: Result<CheapestChain, MultiError>)
  {
    if weights == [] then r == Err(NoTokenizer)
    else if !ValidWeights(weights) then r == Err(InvalidWeights)
    else if !AllCharged(candidates, WeightMap(weights)) then
      r.Err? && exists i: nat :: FirstUncharged(candidates, WeightMap(weights), i, r.error)
    else
      var links := ChargedLinks(candidates, WeightMap(weights));
      match r
      case Ok(best) => IsOutcome(links, length, Ok(best))
      case Err(Search(error)) => IsOutcome(links, length, Err(error))
      case Err(_) => false
  }

  lemma {:induction false} WeightMapSize(weights: seq<TokenizerWeight>)
    ensures |WeightMap(weights)| <= |weights|
    ensures forall root :: root in WeightMap(weights) <==> exists w :: w in weights && w.tokenizerRoot == root
  {
    if weights != [] {
      var front, last := weights[..|weights| - 1], weights[|weights| - 1];
      WeightMapSize(front);
      assert weights == front + [last];
      assert WeightMap(weights).Keys == WeightMap(front).Keys + {last.tokenizerRoot};
    }
  }

  /** Adding one more weight keeps the roots unique exactly when its root is new. */
  lemma ValidWeightsStep(weights: seq<TokenizerWeight>, i: nat)
    requires i < |weights| && ValidWeights(weights[..i])
    ensures ValidWeights(weights[..i + 1]) <==>
            weights[i].tokenizerRoot != "" && weights[i].weightPpm > 0 &&
            weights[i].tokenizerRoot !in WeightMap(weights[..i])
    ensures WeightMap(weights[..i + 1]) == WeightMap(weights[..i])[weights[i].tokenizerRoot := weights[i].weightPpm]
  {
    assert weights[..i + 1][..i] == weights[..i];
    assert weights[..i + 1] == weights[..i] + [weights[i]];
    var m := WeightMap(weights[..i]);
    if weights[i].tokenizerRoot in m {
      assert m[weights[i].tokenizerRoot := weights[i].weightPpm].Keys == m.Keys;
    } else {
      assert m[weights[i].tokenizerRoot := weights[i].weightPpm].Keys == m.Keys + {weights[i].tokenizerRoot};
    }
  }

  lemma {:induction false} ValidPrefix(weights: seq<TokenizerWeight>, i: nat)
    requires i <= |weights| && ValidWeights(weights)
    ensures ValidWeights(weights[..i])
  {
    if i == |weights| {
      assert weights[..i] == weights;
    } else {
      var front, last := weights[..|weights| - 1], weights[|weights| - 1];
      assert weights == front + [last];
      WeightMapSize(front);
      assert WeightMap(weights).Keys == WeightMap(front).Keys + {last.tokenizerRoot};
      assert |WeightMap(weights).Keys| <= |WeightMap(front).Keys| + 1;
      ValidPrefix(front, i);
      assert front[..i] == weights[..i];
    }
  }

  method CollectWeights(weights: seq<TokenizerWeight>) returns (r: Result<PerTokenizer, MultiError>)
    ensures r == if ValidWeights(weights) then Ok(WeightMap(weights)) else Err(InvalidWeights)
  {
    var weightByRoot: PerTokenizer := map[];
    for i := 0 to |weights|
      invariant ValidWeights(weights[..i]) && weightByRoot == WeightMap(weights[..i])
    {
      var weight := weights[i];
      ValidWeightsStep(weights, i);
      if weight.tokenizerRoot == "" || weight.weightPpm == 0 || weight.tokenizerRoot in weightByRoot {
        if ValidWeights(weights) {
          ValidPrefix(weights, i + 1);
        }
        return Err(InvalidWeights);
      }
      weightByRoot := weightByRoot[weight.tokenizerRoot := weight.weightPpm];
    }
    assert weights[..|weights|] == weights;
    r := Ok(weightByRoot);
  }

  /** The product of two 64-bit factors never saturates at 128 bits. */
  lemma ChargeNeverSaturates(weight: U64, tokens: U64)
    ensures SaturatingCharge(weight, tokens) == Charge(weight, tokens)
  {
    TimesMonotone(tokens, U64_MAX, weight);
    TimesMonotone(weight, U64_MAX, U64_MAX);
  }

  method ChargeCandidate(candidate: MultiTokenizerSegmentCandidate, weights: PerTokenizer)
    returns (r: Result<U64, MultiError>)
    ensures r == EffectiveCost(candidate, weights)
  {
    var costs := CostMap(candidate.tokenizerCosts);
    if |costs| != |candidate.tokenizerCosts| || costs.Keys != weights.Keys {
      return Err(InvalidCosts);
    }
    var weighted, remaining := 0, weights.Keys;
    while remaining != {}
      invariant remaining <= weights.Keys
      invariant weighted + ChargeSum(remaining, weights, costs) == ChargeSum(weights.Keys, weights, costs)
      invariant 0 <= weighted <= U128_MAX
    {
      var root :| root in remaining;
      ChargeSumTakesAny(remaining, weights, costs, root);
      if root !in costs {
        return Err(CostDisappeared);
      }
      ChargeNeverSaturates(weights[root], costs[root]);
      weighted := weighted + SaturatingCharge(weights[root], costs[root]);
      remaining := remaining - {root};
      if weighted > U128_MAX {
        return Err(WeightedCostOverflow);
      }
    }
    if weighted > U64_MAX {
      return Err(WeightedCostTooLarge);
    }
    if candidate.segment.additiveCost + weighted > U64_MAX {
      return Err(WeightedCostOverflow);
    }
    r := Ok(candidate.segment.additiveCost + weighted);
  }

  method ChargeCandidates(candidates: seq<MultiTokenizerSegmentCandidate>, weights: PerTokenizer)
    returns (r: Result<seq<Link>, MultiError>)
    ensures r.Ok? ==> AllCharged(candidates, weights) && r.value == ChargedLinks(candidates, weights)
    ensures r.Err? ==> exists i: nat :: FirstUncharged(candidates, weights, i, r.error)
  {
    var links: seq<Link> := [];
    for i := 0 to |candidates|
      invariant AllCharged(candidates[..i], weights) && links == ChargedLinks(candidates[..i], weights)
    {
      var charged := ChargeCandidate(candidates[i], weights);
      if charged.Err? {
        assert forall j :: 0 <= j < i ==> candidates[j] == candidates[..i][j];
        assert FirstUncharged(candidates, weights, i, charged.error);
        return Err(charged.error);
      }
      links := links + [Link(candidates[i].segment.start, candidates[i].segment.end, charged.value)];
    }
    assert candidates[..|candidates|] == candidates;
    r := Ok(links);
  }

  method OptimalMultiTokenizerSegmentation(length: U32, candidates: seq<MultiTokenizerSegmentCandidate>,
                                           weights: seq<TokenizerWeight>)
    returns (r: Result<MultiTokenizerSegmentationPlan, MultiError>)
    ensures r != Err(CostDisappeared) && r != Err(Search(PredecessorMissing)) && r != Err(Search(CandidateMissing))
    ensures r.Err? ==> IsMultiOutcome(length, candidates, weights, Err(r.error))
    ensures r.Ok? ==>
              exists chain ::
                && IsMultiOutcome(length, candidates, weights, Ok(CheapestChain(r.value.totalCost, chain)))
                && (forall i :: 0 <= i < |chain| ==> chain[i] < |candidates|)
                && r.value.segments == Pick(candidates, chain)
  {
    if |weights| == 0 {
      return Err(NoTokenizer);
    }
    var weightByRoot := CollectWeights(weights);
    if weightByRoot.Err? {
      return Err(weightByRoot.error);
    }
    var links := ChargeCandidates(candidates, weightByRoot.value);
    if links.Err? {
      return Err(links.error);
    }
    var found := FindCheapestChain(length, links.value);
    match found {
      case Err(error) =>
        r := Err(Search(error));
      case Ok(best) =>
        ChainInRange(links.value, length, best.chain, length);
        assert best == CheapestChain(best.cost, best.chain);
        r := Ok(MultiTokenizerSegmentationPlan(best.cost, Pick(candidates, best.chain)));
    }
  }

  lemma MultiOutcomeIsUnique(length: U32, candidates: seq<MultiTokenizerSegmentCandidate>,
                             weights: seq<TokenizerWeight>,
                             r: Result<CheapestChain, MultiError>, s: Result<CheapestChain, MultiError>)
    requires IsMultiOutcome(length, candidates, weights, r) && IsMultiOutcome(length, candidates, weights, s)
    ensures r == s
  {
    if weights != [] && ValidWeights(weights) && AllCharged(candidates, WeightMap(weights)) {
      var links := ChargedLinks(candidates, WeightMap(weights));
      var r' := match r case Ok(best) => Ok(best) case Err(e) => Err(if e.Search? then e.error else EmptyLength);
      var s' := match s case Ok(best) => Ok(best) case Err(e) => Err(if e.Search? then e.error else EmptyLength);
      OutcomeIsUnique(links, length, r', s');
    } else if weights != [] && ValidWeights(weights) {
      var i: nat :| FirstUncharged(candidates, WeightMap(weights), i, r.error);
      var j: nat :| FirstUncharged(candidates, WeightMap(weights), j, s.error);
    }
  }

  // ----- listing order does not matter -----

  lemma {:induction false} WeightMapHolds(weights: seq<TokenizerWeight>, w: TokenizerWeight)
    requires |WeightMap(weights)| == |weights| && w in weights
    ensures w.tokenizerRoot in WeightMap(weights) && WeightMap(weights)[w.tokenizerRoot] == w.weightPpm
  {
    var front, last := weights[..|weights| - 1], weights[|weights| - 1];
    assert weights == front + [last];
    WeightMapSize(front);
    assert WeightMap(weights).Keys == WeightMap(front).Keys + {last.tokenizerRoot};
    if w != last {
      assert w in front;
      WeightMapHolds(front, w);
    }
  }

  lemma WeightOrderIrrelevant(weights: seq<TokenizerWeight>, listed: seq<TokenizerWeight>)
    requires multiset(weights) == multiset(listed)
    ensures ValidWeights(weights) <==> ValidWeights(listed)
    ensures ValidWeights(weights) ==> WeightMap(weights) == WeightMap(listed)
  {
    assert forall w :: w in weights <==> w in multiset(weights);
    assert forall w :: w in listed <==> w in multiset(listed);
    assert |weights| == |multiset(weights)| && |listed| == |multiset(listed)|;
    WeightMapSize(weights);
    WeightMapSize(listed);
    assert WeightMap(weights).Keys == WeightMap(listed).Keys;
    assert |WeightMap(weights)| == |WeightMap(weights).Keys| && |WeightMap(listed)| == |WeightMap(listed).Keys|;
    if ValidWeights(weights) {
      forall root | root in WeightMap(weights)
        ensures WeightMap(weights)[root] == WeightMap(listed)[root]
      {
        var w :| w in weights && w.tokenizerRoot == root;
        WeightMapHolds(weights, w);
        WeightMapHolds(listed, w);
      }
    }
  }

  /** A cost list read as weights, so that the lemmas about weight lists serve for it too. */
  function AsWeights(costs: seq<TokenizerCost>): (weights: seq<TokenizerWeight>)
    ensures |weights| == |costs|
  {
    seq(|costs|, i requires 0 <= i < |costs| => TokenizerWeight(costs[i].tokenizerRoot, costs[i].tokens))
  }

  lemma {:induction false} CostMapAsWeights(costs: seq<TokenizerCost>)
    ensures CostMap(costs) == WeightMap(AsWeights(costs))
  {
    if costs != [] {
      CostMapAsWeights(costs[..|costs| - 1]);
      assert AsWeights(costs)[..|costs| - 1] == AsWeights(costs[..|costs| - 1]);
    }
  }

  lemma CostOrderIrrelevant(costs: seq<TokenizerCost>, listed: seq<TokenizerCost>)
    requires multiset(costs) == multiset(listed)
    ensures |costs| == |listed| && |CostMap(costs)| == |CostMap(listed)|
    ensures |CostMap(costs)| == |costs| ==> CostMap(costs) == CostMap(listed)
  {
    CostMapAsWeights(costs);
    CostMapAsWeights(listed);
    assert |multiset(costs)| == |costs| && |multiset(listed)| == |listed|;
    forall c
      ensures c in costs <==> c in listed
    {
      assert c in costs <==> c in multiset(costs);
      assert c in listed <==> c in multiset(listed);
    }
    forall w
      ensures w in AsWeights(costs) <==> w in AsWeights(listed)
    {
      MemberAsWeights(costs, w);
      MemberAsWeights(listed, w);
    }
    WeightMapSize(AsWeights(costs));
    WeightMapSize(AsWeights(listed));
    assert CostMap(costs).Keys == CostMap(listed).Keys;
    assert |CostMap(costs)| == |CostMap(costs).Keys| && |CostMap(listed)| == |CostMap(listed).Keys|;
    if |CostMap(costs)| == |costs| {
      forall root | root in CostMap(costs)
        ensures CostMap(costs)[root] == CostMap(listed)[root]
      {
        var w :| w in AsWeights(costs) && w.tokenizerRoot == root;
        WeightMapHolds(AsWeights(costs), w);
        WeightMapHolds(AsWeights(listed), w);
      }
    }
  }

  lemma MemberAsWeights(costs: seq<TokenizerCost>, w: TokenizerWeight)
    ensures w in AsWeights(costs) <==> TokenizerCost(w.tokenizerRoot, w.weightPpm) in costs
  {
    if w in AsWeights(costs) {
      var i :| 0 <= i < |costs| && AsWeights(costs)[i] == w;
      assert costs[i] == TokenizerCost(w.tokenizerRoot, w.weightPpm);
    }
    if TokenizerCost(w.tokenizerRoot, w.weightPpm) in costs {
      var i :| 0 <= i < |costs| && costs[i] == TokenizerCost(w.tokenizerRoot, w.weightPpm);
      assert AsWeights(costs)[i] == w;
    }
  }

  /** Two candidates that differ at most in the order their per-tokenizer costs are listed. */
  ghost predicate SameUpToCostOrder(c: MultiTokenizerSegmentCandidate, d: MultiTokenizerSegmentCandidate) {
    c.segment == d.segment && multiset(c.tokenizerCosts) == multiset(d.tokenizerCosts)
  }

  lemma EffectiveCostIgnoresCostOrder(c: MultiTokenizerSegmentCandidate, d: MultiTokenizerSegmentCandidate,
                                      weights: PerTokenizer)
    requires SameUpToCostOrder(c, d)
    ensures EffectiveCost(c, weights) == EffectiveCost(d, weights)
  {
    CostOrderIrrelevant(c.tokenizerCosts, d.tokenizerCosts);
  }

  lemma ChargesIgnoreCostOrder(candidates: seq<MultiTokenizerSegmentCandidate>,
                               listed: seq<MultiTokenizerSegmentCandidate>, weights: PerTokenizer)
    requires |candidates| == |listed|
    requires forall i :: 0 <= i < |candidates| ==> SameUpToCostOrder(candidates[i], listed[i])
    ensures AllCharged(candidates, weights) <==> AllCharged(listed, weights)
    ensures AllCharged(candidates, weights) ==> ChargedLinks(candidates, weights) == ChargedLinks(listed, weights)
    ensures forall i: nat, e :: FirstUncharged(candidates, weights, i, e) <==> FirstUncharged(listed, weights, i, e)
  {
    forall i | 0 <= i < |candidates|
      ensures EffectiveCost(candidates[i], weights) == EffectiveCost(listed[i], weights)
    {
      EffectiveCostIgnoresCostOrder(candidates[i], listed[i], weights);
    }
  }

  /** Relisting the weights, or the costs inside each candidate, changes neither the error, nor the total,
      nor which candidates are chosen. */
  lemma ListingOrderIrrelevant(length: U32,
                               candidates: seq<MultiTokenizerSegmentCandidate>,
                               listed: seq<MultiTokenizerSegmentCandidate>,
                               weights: seq<TokenizerWeight>, relisted: seq<TokenizerWeight>,
                               r: Result<CheapestChain, MultiError>)
    requires multiset(weights) == multiset(relisted) && |candidates| == |listed|
    requires forall i :: 0 <= i < |candidates| ==> SameUpToCostOrder(candidates[i], listed[i])
    ensures IsMultiOutcome(length, candidates, weights, r) <==> IsMultiOutcome(length, listed, relisted, r)
  {
    WeightOrderIrrelevant(weights, relisted);
    assert |multiset(weights)| == |weights| && |multiset(relisted)| == |relisted|;
    if weights != [] && ValidWeights(weights) {
      ChargesIgnoreCostOrder(candidates, listed, WeightMap(weights));
    }
  }

  // ----- rounding loses at most one unit per tokenizer and segment -----

  /** The unrounded weighted cost over a set of tokenizers, in millionths. */
  ghost function ExactSum(roots: set<string>, weights: PerTokenizer, costs: PerTokenizer): nat
    requires roots <= weights.Keys && roots <= costs.Keys
  {
    if roots == {} then 0
    else
      var root :| root in roots;
      Product(costs[root], weights[root]) + ExactSum(roots - {root}, weights, costs)
  }

  ghost function ExactCandidateCost(candidate: MultiTokenizerSegmentCandidate, weights: PerTokenizer): nat
    requires OneCostEach(candidate.tokenizerCosts, weights)
  {
    PPM * candidate.segment.additiveCost + ExactSum(weights.Keys, weights, CostMap(candidate.tokenizerCosts))
  }

  ghost function ExactCosts(candidates: seq<MultiTokenizerSegmentCandidate>, weights: PerTokenizer): (costs: seq<nat>)
    requires AllCharged(candidates, weights)
    ensures |costs| == |candidates|
  {
    seq(|candidates|, i requires 0 <= i < |candidates| => ExactCandidateCost(candidates[i], weights))
  }

  /** The unrounded weighted cost of a chain, in millionths. */
  ghost function ExactChainCost(costs: seq<nat>, chain: Chain): nat
    requires forall i :: 0 <= i < |chain| ==> chain[i] < |costs|
  {
    if chain == [] then 0 else ExactChainCost(costs, chain[..|chain| - 1]) + costs[chain[|chain| - 1]]
  }

  lemma {:induction false} ExactSumTakesAny(roots: set<string>, weights: PerTokenizer, costs: PerTokenizer, any: string)
    requires roots <= weights.Keys && roots <= costs.Keys && any in roots
    ensures ExactSum(roots, weights, costs) ==
            Product(costs[any], weights[any]) + ExactSum(roots - {any}, weights, costs)
  {
    var root :| root in roots && ExactSum(roots, weights, costs) ==
                                 Product(costs[root], weights[root]) + ExactSum(roots - {root}, weights, costs);
    if root != any {
      ExactSumTakesAny(roots - {root}, weights, costs, any);
      ExactSumTakesAny(roots - {any}, weights, costs, root);
      assert roots - {root} - {any} == roots - {any} - {root};
    }
  }

  lemma ChargeRoundsUp(weight: U64, tokens: U64)
    ensures Product(tokens, weight) <= PPM * Charge(weight, tokens) <= Product(tokens, weight) + PPM - 1
  {
    var x := Product(tokens, weight);
    assert x + PPM - 1 == PPM * ((x + PPM - 1) / PPM) + (x + PPM - 1) % PPM;
  }

  lemma {:induction false} RoundingPerTokenizer(roots: set<string>, weights: PerTokenizer, costs: PerTokenizer)
    requires roots <= weights.Keys && roots <= costs.Keys
    ensures ExactSum(roots, weights, costs) <= PPM * ChargeSum(roots, weights, costs)
    ensures PPM * ChargeSum(roots, weights, costs) <= ExactSum(roots, weights, costs) + |roots| * (PPM - 1)
  {
    if roots != {} {
      var root :| root in roots;
      ChargeSumTakesAny(roots, weights, costs, root);
      ExactSumTakesAny(roots, weights, costs, root);
      RoundingPerTokenizer(roots - {root}, weights, costs);
      ChargeRoundsUp(weights[root], costs[root]);
    }
  }

  lemma RoundingPerCandidate(candidate: MultiTokenizerSegmentCandidate, weights: PerTokenizer)
    requires EffectiveCost(candidate, weights).Ok?
    ensures var charged := PPM * EffectiveCost(candidate, weights).value;
            ExactCandidateCost(candidate, weights) <= charged <=
            ExactCandidateCost(candidate, weights) + |weights| * (PPM - 1)
  {
    RoundingPerTokenizer(weights.Keys, weights, CostMap(candidate.tokenizerCosts));
  }

  lemma {:induction false} RoundingPerChain(links: seq<Link>, exact: seq<nat>, slack: nat, length: U32, chain: Chain,
                                            end: nat)
    requires |exact| == |links|
    requires forall k :: 0 <= k < |links| ==> exact[k] <= PPM * links[k].cost <= exact[k] + slack
    requires ChainTo(links, length, chain, end)
    ensures |chain| <= end && forall i :: 0 <= i < |chain| ==> chain[i] < |exact|
    ensures ExactChainCost(exact, chain) <= PPM * ChainCost(links, length, chain, end)
    ensures PPM * ChainCost(links, length, chain, end) <= ExactChainCost(exact, chain) + |chain| * slack
  {
    ChainInRange(links, length, chain, end);
    if chain != [] {
      var front, k := chain[..|chain| - 1], chain[|chain| - 1];
      RoundingPerChain(links, exact, slack, length, front, links[k].start);
      assert |chain| * slack == |front| * slack + slack;
    }
  }

  /** The plan's total, in millionths, is at least its own exact cost and exceeds the exact cost of any
      other plan by less than one unit per position and tokenizer. */
  lemma TotalIsNearExactOptimum(length: U32, candidates: seq<MultiTokenizerSegmentCandidate>,
                                weights: seq<TokenizerWeight>,
                                best: CheapestChain, other: Chain)
    requires IsMultiOutcome(length, candidates, weights, Ok(best))
    requires AllCharged(candidates, WeightMap(weights))
    requires ChainTo(ChargedLinks(candidates, WeightMap(weights)), length, other, length)
    ensures forall i :: 0 <= i < |best.chain| ==> best.chain[i] < |candidates|
    ensures forall i :: 0 <= i < |other| ==> other[i] < |candidates|
    ensures var exact := ExactCosts(candidates, WeightMap(weights));
            && ExactChainCost(exact, best.chain) <= PPM * best.cost
            && PPM * best.cost <= ExactChainCost(exact, other) + length * (|WeightMap(weights)| * (PPM - 1))
  {
    var tokenizers := WeightMap(weights);
    var links, exact, slack := ChargedLinks(candidates, tokenizers), ExactCosts(candidates, tokenizers),
        |tokenizers| * (PPM - 1);
    forall k | 0 <= k < |links|
      ensures exact[k] <= PPM * links[k].cost <= exact[k] + slack
    {
      RoundingPerCandidate(candidates[k], tokenizers);
    }
    RoundingPerChain(links, exact, slack, length, best.chain, length);
    RoundingPerChain(links, exact, slack, length, other, length);
    TimesMonotone(|other|, length, slack);
  }
}
