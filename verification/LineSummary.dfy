/** Summarizing lines within a soft token budget (lib.rs): critical lines always stay, others by priority while
    they fit. Which lines are critical or dense, and the token counter, are parameters. */
module LineSummary {
  import opened Machine
  import opened Sequences
  import opened Sorting
  import opened Text

  const CRITICAL_SCORE := 100

  /** The allowance kept free for an omission marker. */
  const MARKER_ALLOWANCE := 13

  datatype Judge = Judge(count: string -> nat, critical: string -> bool, dense: string -> bool)

  function Score(j: Judge, lines: seq<string>, idx: nat): nat
    requires idx < |lines|
  {
    if j.critical(lines[idx]) then CRITICAL_SCORE
    else if Trim(lines[idx]) == "" then 0
    else
      var s := (if idx < 3 || idx + 3 >= |lines| then 60 else 0) + (if j.dense(lines[idx]) then 30 else 0);
      if s == 0 then 1 else s
  }

  function Scores(j: Judge, lines: seq<string>): (r: seq<nat>)
    ensures |r| == |lines| && forall i :: 0 <= i < |lines| ==> r[i] == Score(j, lines, i)
  {
    seq(|lines|, i requires 0 <= i < |lines| => Score(j, lines, i))
  }

  function Costs(j: Judge, lines: seq<string>): (r: seq<nat>)
    ensures |r| == |lines| && forall i :: 0 <= i < |lines| ==> r[i] == j.count(lines[i])
  {
    seq(|lines|, i requires 0 <= i < |lines| => j.count(lines[i]))
  }

  function At(s: seq<nat>, i: nat): nat {
    if i < |s| then s[i] else 0
  }

  /** Higher scores first, then earlier lines. */
  function Priority(scores: seq<nat>): (nat, nat) -> bool {
    (a: nat, b: nat) => At(scores, a) > At(scores, b) || (At(scores, a) == At(scores, b) && a <= b)
  }

  function Indices(n: nat): (r: seq<nat>)
    ensures |r| == n && forall i :: 0 <= i < n ==> r[i] == i
  {
    seq(n, i requires 0 <= i < n => i)
  }

  function Order(scores: seq<nat>): seq<nat> {
    SortBy(Indices(|scores|), Priority(scores))
  }

  /** An order that visits every line once, critical lines first. */
  ghost predicate VisitsAll(order: seq<nat>, scores: seq<nat>) {
    && |order| == |scores| && Distinct(order)
    && (forall k :: 0 <= k < |order| ==> order[k] < |scores|)
    && (forall i: nat :: i < |scores| ==> i in order)
    && (forall k, l :: 0 <= k < l < |order| && At(scores, order[l]) >= CRITICAL_SCORE ==>
        At(scores, order[k]) >= CRITICAL_SCORE)
  }

  lemma PriorityIsOrder(scores: seq<nat>)
    ensures TotalPreorder(Priority(scores))
  {
  }

  lemma OrderVisitsAll(scores: seq<nat>)
    ensures VisitsAll(Order(scores), scores)
  {
    var order, indices := Order(scores), Indices(|scores|);
    PriorityIsOrder(scores);
    SortSorts(indices, Priority(scores));
    SameLength(order, indices);
    DistinctIgnoresOrder(indices, order);
    forall k | 0 <= k < |order|
      ensures order[k] < |scores|
    {
      SameMembers(order, indices, order[k]);
    }
    forall i: nat | i < |scores|
      ensures i in order
    {
      assert indices[i] in indices;
      SameMembers(order, indices, i);
    }
    forall k, l | 0 <= k < l < |order| && At(scores, order[l]) >= CRITICAL_SCORE
      ensures At(scores, order[k]) >= CRITICAL_SCORE
    {
      assert Priority(scores)(order[k], order[l]);
    }
  }

  // ----- picking lines -----

  datatype Pick = Pick(selected: seq<bool>, spent: nat)

  /** Whether a line is picked, having spent so much. */
  predicate Takes(score: nat, cost: nat, spent: nat, maxTokens: nat) {
    score >= CRITICAL_SCORE || (score != 0 && spent + cost + MARKER_ALLOWANCE <= maxTokens)
  }

  /** The choice after visiting the first `k` lines of the order. */
  function Picked(order: seq<nat>, scores: seq<nat>, costs: seq<nat>, maxTokens: nat, k: nat): (p: Pick)
    requires k <= |order| && |costs| == |scores| && forall i :: 0 <= i < |order| ==> order[i] < |scores|
    ensures |p.selected| == |scores|
  {
    if k == 0 then Pick(Repeated(false, |scores|), 0)
    else
      var before, idx := Picked(order, scores, costs, maxTokens, k - 1), order[k - 1];
      if !Takes(scores[idx], costs[idx], before.spent, maxTokens) then before
      else Pick(before.selected[idx := true],
                if scores[idx] >= CRITICAL_SCORE then Saturated(before.spent + costs[idx])
                   else before.spent + costs[idx])
  }

  method PickLines(order: seq<nat>, scores: seq<nat>, costs: seq<nat>, maxTokens: nat) returns (selected: array<bool>)
    requires |costs| == |scores| && forall i :: 0 <= i < |order| ==> order[i] < |scores|
    ensures fresh(selected) && selected[..] == Picked(order, scores, costs, maxTokens, |order|).selected
  {
    selected := new bool[|scores|](_ => false);
    var spent: nat := 0;
    assert selected[..] == Repeated(false, |scores|);
    for k := 0 to |order|
      invariant Pick(selected[..], spent) == Picked(order, scores, costs, maxTokens, k)
    {
      var idx := order[k];
      if Takes(scores[idx], costs[idx], spent, maxTokens) {
        ghost var before := selected[..];
        selected[idx] := true;
        assert selected[..] == before[idx := true];
        spent := if scores[idx] >= CRITICAL_SCORE then Saturated(spent + costs[idx]) else spent + costs[idx];
      }
    }
  }

  /** The cost of the selected lines. */
  function Total(selected: seq<bool>, costs: seq<nat>): nat
    requires |selected| == |costs|
  {
    if selected == [] then 0 else (if selected[0] then costs[0] else 0) + Total(selected[1..], costs[1..])
  }

  lemma {:induction false} TotalOfUpdate(selected: seq<bool>, costs: seq<nat>, idx: nat)
    requires |selected| == |costs| && idx < |selected| && !selected[idx]
    ensures Total(selected[idx := true], costs) == Total(selected, costs) + costs[idx]
    decreases idx
  {
    var updated := selected[idx := true];
    if idx == 0 {
      assert updated[1..] == selected[1..];
    } else {
      TotalOfUpdate(selected[1..], costs[1..], idx - 1);
      assert updated[1..] == selected[1..][idx - 1 := true];
    }
  }

  lemma {:induction false} TotalOfNone(costs: seq<nat>)
    ensures Total(Repeated(false, |costs|), costs) == 0
  {
    if costs != [] {
      assert Repeated(false, |costs|)[1..] == Repeated(false, |costs[1..]|);
      TotalOfNone(costs[1..]);
    }
  }

  lemma {:induction false} OnlyVisitedPicked(order: seq<nat>, scores: seq<nat>, costs: seq<nat>, maxTokens: nat,
                                             k: nat, i: nat)
    requires k <= |order| && |costs| == |scores| && i < |scores| && forall i :: 0 <= i < |order| ==> order[i] < |scores|
    requires forall l :: 0 <= l < k ==> order[l] != i
    ensures !Picked(order, scores, costs, maxTokens, k).selected[i]
  {
    if k > 0 {
      OnlyVisitedPicked(order, scores, costs, maxTokens, k - 1, i);
    }
  }

  /** What has been spent is the cost of the lines picked, up to the machine word. */
  lemma {:induction false} SpentIsTotal(order: seq<nat>, scores: seq<nat>, costs: seq<nat>, maxTokens: nat, k: nat)
    requires VisitsAll(order, scores) && k <= |order| && |costs| == |scores| && maxTokens <= USIZE_MAX
    ensures var p := Picked(order, scores, costs, maxTokens, k);
            p.spent == Saturated(Total(p.selected, costs))
  {
    if k == 0 {
      TotalOfNone(costs);
    } else {
      SpentIsTotal(order, scores, costs, maxTokens, k - 1);
      OnlyVisitedPicked(order, scores, costs, maxTokens, k - 1, order[k - 1]);
      TotalOfUpdate(Picked(order, scores, costs, maxTokens, k - 1).selected, costs, order[k - 1]);
    }
  }

  /** Once picked a line stays picked, and what is spent only grows. */
  lemma {:induction false} PicksStay(order: seq<nat>, scores: seq<nat>, costs: seq<nat>, maxTokens: nat, k: nat,
                                     l: nat, i: nat)
    requires VisitsAll(order, scores) && |costs| == |scores| && k <= l <= |order| && i < |scores| &&
             maxTokens <= USIZE_MAX
    ensures Picked(order, scores, costs, maxTokens, k).selected[i] ==>
            Picked(order, scores, costs, maxTokens, l).selected[i]
    ensures Picked(order, scores, costs, maxTokens, k).spent <= Picked(order, scores, costs, maxTokens, l).spent
    decreases l
  {
    if k < l {
      PicksStay(order, scores, costs, maxTokens, k, l - 1, i);
      SpentIsTotal(order, scores, costs, maxTokens, l - 1);
    }
  }

  /** Every critical line is picked, and a line that is neither critical nor blank is left out only when it would
      not have fit. */
  lemma LeftOutDoesNotFit(order: seq<nat>, scores: seq<nat>, costs: seq<nat>, maxTokens: nat, i: nat)
    requires VisitsAll(order, scores) && |costs| == |scores| && i < |scores| && maxTokens <= USIZE_MAX
    ensures var p := Picked(order, scores, costs, maxTokens, |order|);
            && (scores[i] >= CRITICAL_SCORE ==> p.selected[i])
            && (!p.selected[i] && scores[i] != 0 ==> p.spent + costs[i] + MARKER_ALLOWANCE > maxTokens)
  {
    assert i in order;
    var k :| 0 <= k < |order| && order[k] == i;
    PicksStay(order, scores, costs, maxTokens, k + 1, |order|, i);
    PicksStay(order, scores, costs, maxTokens, k, |order|, i);
  }

  ghost predicate OnlyCritical(selected: seq<bool>, scores: seq<nat>)
    requires |selected| == |scores|
  {
    forall i :: 0 <= i < |selected| && selected[i] ==> scores[i] >= CRITICAL_SCORE
  }

  lemma {:induction false} SpentWithinAllowance(order: seq<nat>, scores: seq<nat>, costs: seq<nat>, maxTokens: nat,
                                                k: nat)
    requires VisitsAll(order, scores) && |costs| == |scores| && k <= |order|
    ensures var p := Picked(order, scores, costs, maxTokens, k);
            p.spent + MARKER_ALLOWANCE <= maxTokens || OnlyCritical(p.selected, scores)
  {
    if k > 0 {
      SpentWithinAllowance(order, scores, costs, maxTokens, k - 1);
      var idx, before := order[k - 1], Picked(order, scores, costs, maxTokens, k - 1);
      if scores[idx] >= CRITICAL_SCORE {
        forall i | 0 <= i < |scores| && before.selected[i]
          ensures scores[i] >= CRITICAL_SCORE
        {
          if forall l :: 0 <= l < k - 1 ==> order[l] != i {
            OnlyVisitedPicked(order, scores, costs, maxTokens, k - 1, i);
          } else {
            var l :| 0 <= l < k - 1 && order[l] == i;
            assert At(scores, order[k - 1]) >= CRITICAL_SCORE;
          }
        }
      }
    }
  }

  /** The picked lines leave room for the marker, unless only critical lines were picked. */
  lemma PicksKeepBudget(order: seq<nat>, scores: seq<nat>, costs: seq<nat>, maxTokens: nat)
    requires VisitsAll(order, scores) && |costs| == |scores| && maxTokens <= USIZE_MAX
    ensures var selected := Picked(order, scores, costs, maxTokens, |order|).selected;
            Total(selected, costs) + MARKER_ALLOWANCE <= maxTokens || OnlyCritical(selected, scores)
  {
    SpentWithinAllowance(order, scores, costs, maxTokens, |order|);
    SpentIsTotal(order, scores, costs, maxTokens, |order|);
  }

  // ----- filling one-line gaps -----

  /** A line whose marker would cost as much as the line, between two kept lines. */
  predicate Fillable(selected: seq<bool>, costs: seq<nat>, i: nat)
    requires |selected| == |costs|
  {
    0 < i && i + 1 < |selected| && !selected[i] && selected[i - 1] && selected[i + 1] && costs[i] <= MARKER_ALLOWANCE
  }

  function FilledTo(selected: seq<bool>, costs: seq<nat>, k: nat): (r: seq<bool>)
    requires |selected| == |costs|
    ensures |r| == |selected|
  {
    if k == 0 then selected
    else
      var before := FilledTo(selected, costs, k - 1);
      if Fillable(before, costs, k - 1) then before[k - 1 := true] else before
  }

  method FillGaps(selected: array<bool>, costs: seq<nat>)
    requires selected.Length == |costs|
    modifies selected
    ensures selected[..] == FilledTo(old(selected[..]), costs, |costs|)
  {
    ghost var given := selected[..];
    for idx := 0 to selected.Length
      invariant selected[..] == FilledTo(given, costs, idx)
    {
      ghost var before := selected[..];
      if 0 < idx && idx + 1 < selected.Length && !selected[idx] && selected[idx - 1] && selected[idx + 1]
        && costs[idx] <= MARKER_ALLOWANCE
      {
        selected[idx] := true;
        assert selected[..] == before[idx := true];
      }
      assert Fillable(before, costs, idx) <==> selected[idx] != before[idx];
    }
  }

  lemma {:induction false} FillingKeeps(selected: seq<bool>, costs: seq<nat>, k: nat)
    requires |selected| == |costs|
    ensures var f := FilledTo(selected, costs, k);
            && (forall i :: 0 <= i < |selected| && selected[i] ==> f[i])
            && (forall i :: k <= i < |selected| ==> f[i] == selected[i])
            && (forall i :: 0 <= i < |selected| && f[i] && !selected[i] ==>
                0 < i < |selected| - 1 && f[i - 1] && selected[i + 1] && costs[i] <= MARKER_ALLOWANCE)
  {
    if k > 0 {
      FillingKeeps(selected, costs, k - 1);
    }
  }

  /** The lines before `k` leave no gap to fill: filling a later line cannot open one, as its left neighbour
      must be kept. */
  lemma {:induction false} NothingLeftToFill(selected: seq<bool>, costs: seq<nat>, k: nat)
    requires |selected| == |costs| && k <= |selected|
    ensures forall i: nat :: i < k ==> !Fillable(FilledTo(selected, costs, k), costs, i)
  {
    if k > 0 {
      NothingLeftToFill(selected, costs, k - 1);
      var before, after := FilledTo(selected, costs, k - 1), FilledTo(selected, costs, k);
      forall i: nat | i < k
        ensures !Fillable(after, costs, i)
      {
        if i < k - 1 {
          assert !Fillable(before, costs, i);
        }
      }
    }
  }

  // ----- the selection -----

  /** The lines that are picked. */
  function PickedLines(j: Judge, lines: seq<string>, maxTokens: nat): (r: seq<bool>)
    ensures |r| == |lines|
  {
    var scores := Scores(j, lines);
    OrderVisitsAll(scores);
    Picked(Order(scores), scores, Costs(j, lines), maxTokens, |scores|).selected
  }

  /** The lines that are kept. */
  function Kept(j: Judge, lines: seq<string>, maxTokens: nat): (r: seq<bool>)
    ensures |r| == |lines|
  {
    var costs := Costs(j, lines);
    FilledTo(PickedLines(j, lines, maxTokens), costs, |costs|)
  }

  method Rank(scores: seq<nat>) returns (order: seq<nat>)
    ensures order == Order(scores)
  {
    var ranks := new nat[|scores|](i => i);
    assert ranks[0..ranks.Length] == Indices(|scores|);
    SortSlice(ranks, 0, ranks.Length, Priority(scores));
    order := ranks[..];
  }

  method SelectLines(j: Judge, lines: seq<string>, maxTokens: nat) returns (kept: seq<bool>)
    ensures kept == Kept(j, lines, maxTokens)
  {
    var scores, costs := Scores(j, lines), Costs(j, lines);
    var order := Rank(scores);
    OrderVisitsAll(scores);
    var selected := PickLines(order, scores, costs, maxTokens);
    FillGaps(selected, costs);
    kept := selected[..];
  }

  /** A selection keeps every critical line, and leaves no one-line gap that would cost no more than its marker. */
  lemma SelectionKeepsCritical(j: Judge, lines: seq<string>, maxTokens: nat)
    requires maxTokens <= USIZE_MAX
    ensures var kept := Kept(j, lines, maxTokens);
            && (forall i :: 0 <= i < |lines| && j.critical(lines[i]) ==> kept[i])
            && (forall i: nat :: i < |lines| ==> !Fillable(kept, Costs(j, lines), i))
  {
    var scores, costs := Scores(j, lines), Costs(j, lines);
    var order := Order(scores);
    OrderVisitsAll(scores);
    var picked := Picked(order, scores, costs, maxTokens, |scores|).selected;
    FillingKeeps(picked, costs, |costs|);
    NothingLeftToFill(picked, costs, |costs|);
    forall i | 0 <= i < |lines| && j.critical(lines[i])
      ensures Kept(j, lines, maxTokens)[i]
    {
      LeftOutDoesNotFit(order, scores, costs, maxTokens, i);
    }
  }

  // ----- which lines go first -----

  /** One of the first three or last three lines. */
  predicate AtEnds(lines: seq<string>, i: nat) {
    i < 3 || i + 3 >= |lines|
  }

  /** The line says something: it is critical, or not blank. */
  predicate Says(j: Judge, line: string) {
    j.critical(line) || !Blank(line)
  }

  /** Of two lines that say something the first is preferred: a critical line to any other, then a line at the ends to
      one in the middle, then a dense line to another, then the earlier line. */
  predicate Preferred(j: Judge, lines: seq<string>, a: nat, b: nat)
    requires a < |lines| && b < |lines|
  {
    if j.critical(lines[a]) || j.critical(lines[b]) then
      j.critical(lines[a]) && (j.critical(lines[b]) ==> a < b)
    else if AtEnds(lines, a) != AtEnds(lines, b) then AtEnds(lines, a)
    else if j.dense(lines[a]) != j.dense(lines[b]) then j.dense(lines[a])
    else a < b
  }

  /** A line that is preferred to another and costs no more. */
  predicate GoesFirst(j: Judge, lines: seq<string>, a: nat, b: nat)
    requires a < |lines| && b < |lines|
  {
    Says(j, lines[a]) && Preferred(j, lines, a, b) && j.count(lines[a]) <= j.count(lines[b])
  }

  lemma ScoresSay(j: Judge, lines: seq<string>, i: nat)
    requires i < |lines|
    ensures Score(j, lines, i) != 0 <==> Says(j, lines[i])
    ensures Score(j, lines, i) >= CRITICAL_SCORE <==> j.critical(lines[i])
  {
    TrimOfBlank(lines[i]);
  }

  lemma PreferredGoesFirst(j: Judge, lines: seq<string>, a: nat, b: nat)
    requires a < |lines| && b < |lines| && Says(j, lines[a]) && Says(j, lines[b]) && Preferred(j, lines, a, b)
    ensures Score(j, lines, a) > Score(j, lines, b) || (Score(j, lines, a) == Score(j, lines, b) && a < b)
  {
    TrimOfBlank(lines[a]);
    TrimOfBlank(lines[b]);
  }

  lemma VisitedBefore(scores: seq<nat>, a: nat, b: nat) returns (k: nat, l: nat)
    requires a < |scores| && b < |scores|
    requires scores[a] > scores[b] || (scores[a] == scores[b] && a < b)
    ensures k < l < |Order(scores)| && Order(scores)[k] == a && Order(scores)[l] == b
  {
    var order := Order(scores);
    OrderVisitsAll(scores);
    assert a in order && b in order;
    k :| 0 <= k < |order| && order[k] == a;
    l :| 0 <= l < |order| && order[l] == b;
    PriorityIsOrder(scores);
    SortSorts(Indices(|scores|), Priority(scores));
    if l < k {
      assert false;
    }
  }

  /** A line that would be visited earlier, and costs no more, is picked if the other is. */
  lemma EarlierVisitPicked(order: seq<nat>, scores: seq<nat>, costs: seq<nat>, maxTokens: nat, k: nat, l: nat)
    requires VisitsAll(order, scores) && |costs| == |scores| && maxTokens <= USIZE_MAX && k < l < |order|
    requires scores[order[k]] != 0 && costs[order[k]] <= costs[order[l]]
    requires Picked(order, scores, costs, maxTokens, |order|).selected[order[l]]
    ensures Picked(order, scores, costs, maxTokens, |order|).selected[order[k]]
  {
    var a := order[k];
    assert scores[order[l]] >= CRITICAL_SCORE ==> At(scores, a) >= CRITICAL_SCORE by {
      assert At(scores, order[l]) == scores[order[l]];
    }
    PickedWhenVisited(order, scores, costs, maxTokens, l);
    PicksStay(order, scores, costs, maxTokens, k, l, a);
    PicksStay(order, scores, costs, maxTokens, k + 1, |order|, a);
  }

  lemma PickedWhenVisited(order: seq<nat>, scores: seq<nat>, costs: seq<nat>, maxTokens: nat, l: nat)
    requires VisitsAll(order, scores) && |costs| == |scores| && l < |order| && maxTokens <= USIZE_MAX
    requires Picked(order, scores, costs, maxTokens, |order|).selected[order[l]]
    ensures var idx := order[l];
            Takes(scores[idx], costs[idx], Picked(order, scores, costs, maxTokens, l).spent, maxTokens)
  {
    OnlyVisitedPicked(order, scores, costs, maxTokens, l, order[l]);
    NotPickedLater(order, scores, costs, maxTokens, l + 1, |order|, order[l]);
  }

  /** What is not picked when it is visited is not picked later. */
  lemma {:induction false} NotPickedLater(order: seq<nat>, scores: seq<nat>, costs: seq<nat>, maxTokens: nat, k: nat,
                                          l: nat, i: nat)
    requires VisitsAll(order, scores) && |costs| == |scores| && 0 < k <= l <= |order| && order[k - 1] == i
    ensures Picked(order, scores, costs, maxTokens, l).selected[i] ==>
            Picked(order, scores, costs, maxTokens, k).selected[i]
    decreases l
  {
    if k < l {
      NotPickedLater(order, scores, costs, maxTokens, k, l - 1, i);
      assert order[l - 1] != i;
    }
  }

  /** What is promised of the lines picked: they fit the budget together with a marker, or all of them are critical;
      every critical line is among them and none that says nothing; a line left out would not have fit; and no line is
      picked while one that is preferred to it and costs no more is left out. */
  ghost predicate WellPicked(j: Judge, lines: seq<string>, maxTokens: nat, picked: seq<bool>) {
    var costs := Costs(j, lines);
    && |picked| == |lines|
    && (|| Total(picked, costs) + MARKER_ALLOWANCE <= maxTokens
        || forall i :: 0 <= i < |lines| && picked[i] ==> j.critical(lines[i]))
    && (forall i :: 0 <= i < |lines| && j.critical(lines[i]) ==> picked[i])
    && (forall i :: 0 <= i < |lines| && picked[i] ==> Says(j, lines[i]))
    && (forall i :: 0 <= i < |lines| && !picked[i] && Says(j, lines[i]) ==>
        Saturated(Total(picked, costs)) + costs[i] + MARKER_ALLOWANCE > maxTokens)
    && (forall a: nat, b: nat :: a < |lines| && b < |lines| && picked[b] && GoesFirst(j, lines, a, b) ==> picked[a])
  }

  /** The selection holds the lines picked, and besides them only cheap lines that fill a gap of one line. */
  ghost predicate Fills(j: Judge, lines: seq<string>, picked: seq<bool>, kept: seq<bool>) {
    && |picked| == |kept| == |lines|
    && (forall i :: 0 <= i < |lines| && picked[i] ==> kept[i])
    && (forall i :: 0 <= i < |lines| && kept[i] && !picked[i] ==>
        0 < i < |lines| - 1 && kept[i - 1] && picked[i + 1] && j.count(lines[i]) <= MARKER_ALLOWANCE)
    && (forall i :: 0 < i < |lines| - 1 && kept[i - 1] && kept[i + 1] && j.count(lines[i]) <= MARKER_ALLOWANCE ==>
        kept[i])
  }

  lemma PicksSay(order: seq<nat>, scores: seq<nat>, costs: seq<nat>, maxTokens: nat, i: nat)
    requires VisitsAll(order, scores) && |costs| == |scores| && i < |scores| && maxTokens <= USIZE_MAX
    requires Picked(order, scores, costs, maxTokens, |order|).selected[i]
    ensures scores[i] != 0
  {
    assert i in order;
    var k :| 0 <= k < |order| && order[k] == i;
    PickedWhenVisited(order, scores, costs, maxTokens, k);
  }

  lemma PreferredIsPicked(j: Judge, lines: seq<string>, maxTokens: nat, a: nat, b: nat)
    requires maxTokens <= USIZE_MAX && a < |lines| && b < |lines| && PickedLines(j, lines, maxTokens)[b]
    requires GoesFirst(j, lines, a, b)
    ensures PickedLines(j, lines, maxTokens)[a]
  {
    var scores, costs := Scores(j, lines), Costs(j, lines);
    OrderVisitsAll(scores);
    ScoresSay(j, lines, a);
    ScoresSay(j, lines, b);
    PicksSay(Order(scores), scores, costs, maxTokens, b);
    PreferredGoesFirst(j, lines, a, b);
    var k, l := VisitedBefore(scores, a, b);
    EarlierVisitPicked(Order(scores), scores, costs, maxTokens, k, l);
  }

  lemma PicksAreWell(j: Judge, lines: seq<string>, maxTokens: nat)
    requires maxTokens <= USIZE_MAX
    ensures WellPicked(j, lines, maxTokens, PickedLines(j, lines, maxTokens))
  {
    var scores, costs, picked := Scores(j, lines), Costs(j, lines), PickedLines(j, lines, maxTokens);
    var order := Order(scores);
    OrderVisitsAll(scores);
    PicksKeepBudget(order, scores, costs, maxTokens);
    SpentIsTotal(order, scores, costs, maxTokens, |order|);
    forall i | 0 <= i < |lines|
      ensures j.critical(lines[i]) ==> picked[i]
      ensures picked[i] ==> Says(j, lines[i]) && (scores[i] >= CRITICAL_SCORE ==> j.critical(lines[i]))
      ensures !picked[i] && Says(j, lines[i]) ==>
              Saturated(Total(picked, costs)) + costs[i] + MARKER_ALLOWANCE > maxTokens
    {
      ScoresSay(j, lines, i);
      LeftOutDoesNotFit(order, scores, costs, maxTokens, i);
      if picked[i] {
        PicksSay(order, scores, costs, maxTokens, i);
      }
    }
    forall a: nat, b: nat | a < |lines| && b < |lines| && picked[b] && GoesFirst(j, lines, a, b)
      ensures picked[a]
    {
      PreferredIsPicked(j, lines, maxTokens, a, b);
    }
  }

  /** The budget of a selection, and which lines go first. */
  lemma SelectionKeepsBudget(j: Judge, lines: seq<string>, maxTokens: nat) returns (picked: seq<bool>)
    requires maxTokens <= USIZE_MAX
    ensures WellPicked(j, lines, maxTokens, picked)
    ensures Fills(j, lines, picked, Kept(j, lines, maxTokens))
  {
    var costs := Costs(j, lines);
    picked := PickedLines(j, lines, maxTokens);
    PicksAreWell(j, lines, maxTokens);
    FillingKeeps(picked, costs, |costs|);
    NothingLeftToFill(picked, costs, |costs|);
    var kept := Kept(j, lines, maxTokens);
    forall i: nat | 0 < i < |lines| - 1
      ensures kept[i - 1] && kept[i + 1] && costs[i] <= MARKER_ALLOWANCE ==> kept[i]
    {
      assert !Fillable(kept, costs, i);
    }
  }
}
