/** The edit distance behind command suggestions (`levenshtein` in the CLI's main file).
    The two-row table is proved to hold the cost of a cheapest edit script, and that cost
    is proved to be a metric on strings. */
module Levenshtein {

  /** One step of an edit script. */
  datatype Edit =
    | Keep(kept: char)
    | Insert(inserted: char)
    | Delete(deleted: char)
    | Substitute(before: char, after: char)

  type Script = seq<Edit>

  ghost function Consumed(e: Edit): string {
    match e
    case Keep(c) => [c]
    case Insert(_) => []
    case Delete(c) => [c]
    case Substitute(c, _) => [c]
  }

  ghost function Produced(e: Edit): string {
    match e
    case Keep(c) => [c]
    case Insert(c) => [c]
    case Delete(_) => []
    case Substitute(_, c) => [c]
  }

  /** The string an edit script consumes. */
  ghost function Source(script: Script): string {
    if script == [] then "" else Source(script[..|script| - 1]) + Consumed(script[|script| - 1])
  }

  /** The string an edit script produces. */
  ghost function Target(script: Script): string {
    if script == [] then "" else Target(script[..|script| - 1]) + Produced(script[|script| - 1])
  }

  /** The number of insertions, deletions and substitutions. */
  ghost function Cost(script: Script): nat {
    if script == [] then 0
    else Cost(script[..|script| - 1]) + if script[|script| - 1].Keep? then 0 else 1
  }

  ghost predicate Edits(script: Script, a: string, b: string) {
    Source(script) == a && Target(script) == b
  }

  ghost predicate IsEditDistance(d: nat, a: string, b: string) {
    && (exists script :: Edits(script, a, b) && Cost(script) == d)
    && (forall script :: Edits(script, a, b) ==> d <= Cost(script))
  }

  function Min(x: nat, y: nat): nat {
    if x <= y then x else y
  }

  function Front(s: string): string
    requires s != ""
  {
    s[..|s| - 1]
  }

  function Last(s: string): char
    requires s != ""
  {
    s[|s| - 1]
  }

  function Mismatch(c: char, d: char): nat {
    if c != d then 1 else 0
  }

  /** The recurrence each table cell follows, on prefixes of the two strings. */
  function Dist(a: string, b: string): nat
    decreases |a| + |b|
  {
    if a == "" then |b|
    else if b == "" then |a|
    else
      Min(Min(Dist(Front(a), Front(b)) + Mismatch(Last(a), Last(b)), Dist(Front(a), b) + 1),
          Dist(a, Front(b)) + 1)
  }

  /** A cell of the table, addressed by prefix lengths as the code does. */
  ghost function Cell(a: string, i: nat, b: string, j: nat): nat
    requires i <= |a| && j <= |b|
  {
    Dist(a[..i], b[..j])
  }

  lemma CellRecurrence(a: string, i: nat, b: string, j: nat)
    requires i < |a| && j < |b|
    ensures Cell(a, i + 1, b, j + 1) ==
            Min(Min(Cell(a, i, b, j) + Mismatch(a[i], b[j]), Cell(a, i, b, j + 1) + 1), Cell(a, i + 1, b, j) + 1)
  {
    assert Front(a[..i + 1]) == a[..i] && Front(b[..j + 1]) == b[..j];
  }

  /** The two-row dynamic program: `prev` holds the row of `a[..i]`, `curr` the row of `a[..i + 1]`. */
  method Distance(a: string, b: string) returns (d: nat)
    ensures IsEditDistance(d, a, b)
    ensures d == Dist(a, b)
  {
    var prev := new nat[|b| + 1](i => i);
    var curr := new nat[|b| + 1](_ => 0);
    for i := 0 to |a|
      invariant prev != curr && prev.Length == curr.Length == |b| + 1
      invariant fresh(prev) && fresh(curr)
      invariant forall j :: 0 <= j <= |b| ==> prev[j] == Cell(a, i, b, j)
    {
      curr[0] := i + 1;
      for j := 0 to |b|
        invariant forall k :: 0 <= k <= |b| ==> prev[k] == Cell(a, i, b, k)
        invariant forall k :: 0 <= k <= j ==> curr[k] == Cell(a, i + 1, b, k)
      {
        CellRecurrence(a, i, b, j);
        curr[j + 1] := Min(Min(prev[j] + Mismatch(a[i], b[j]), prev[j + 1] + 1), curr[j] + 1);
      }
      prev, curr := curr, prev;
    }
    assert a[..|a|] == a && b[..|b|] == b;
    d := prev[|b|];
    DistIsEditDistance(a, b);
  }

  // ----- the recurrence is the cost of a cheapest script -----

  /** The last edit of a cheapest script, and the prefixes it leaves to the edits before it. */
  lemma LastEdit(a: string, b: string) returns (a': string, b': string, e: Edit)
    requires a != "" || b != ""
    ensures a == a' + Consumed(e) && b == b' + Produced(e) && |a'| + |b'| < |a| + |b|
    ensures Dist(a, b) == Dist(a', b') + if e.Keep? then 0 else 1
  {
    assert a != "" ==> a == Front(a) + [Last(a)];
    assert b != "" ==> b == Front(b) + [Last(b)];
    assert a == a + [] && b == b + [];
    if a == "" || (b != "" && Dist(a, b) == Dist(a, Front(b)) + 1) {
      a', b', e := a, Front(b), Insert(Last(b));
    } else if b == "" || Dist(a, b) == Dist(Front(a), b) + 1 {
      a', b', e := Front(a), b, Delete(Last(a));
    } else {
      a', b' := Front(a), Front(b);
      e := if Last(a) == Last(b) then Keep(Last(a)) else Substitute(Last(a), Last(b));
    }
  }

  lemma {:induction false} SomeScriptAttainsDist(a: string, b: string) returns (script: Script)
    ensures Edits(script, a, b) && Cost(script) == Dist(a, b)
    decreases |a| + |b|
  {
    if a == "" && b == "" {
      script := [];
    } else {
      var a', b', e := LastEdit(a, b);
      var rest := SomeScriptAttainsDist(a', b');
      script := rest + [e];
      assert script[..|rest|] == rest;
    }
  }

  lemma OneMoreEdit(a: string, b: string, e: Edit)
    ensures Dist(a + Consumed(e), b + Produced(e)) <= Dist(a, b) + if e.Keep? then 0 else 1
  {
    match e {
      case Keep(c) => assert Front(a + [c]) == a && Front(b + [c]) == b;
      case Insert(c) => assert Front(b + [c]) == b && a + [] == a;
      case Delete(c) => assert Front(a + [c]) == a && b + [] == b;
      case Substitute(c, d) => assert Front(a + [c]) == a && Front(b + [d]) == b;
    }
  }

  lemma {:induction false} NoScriptIsCheaper(script: Script)
    ensures Dist(Source(script), Target(script)) <= Cost(script)
  {
    if script != [] {
      var rest := script[..|script| - 1];
      NoScriptIsCheaper(rest);
      OneMoreEdit(Source(rest), Target(rest), script[|script| - 1]);
    }
  }

  lemma DistIsEditDistance(a: string, b: string)
    ensures IsEditDistance(Dist(a, b), a, b)
  {
    var cheapest := SomeScriptAttainsDist(a, b);
    forall script | Edits(script, a, b)
      ensures Dist(a, b) <= Cost(script)
    {
      NoScriptIsCheaper(script);
    }
  }

  // ----- the distance is a metric -----

  lemma {:induction false} ZeroOnlyOnEqual(a: string, b: string)
    ensures Dist(a, b) == 0 <==> a == b
    decreases |a| + |b|
  {
    if a != "" && b != "" {
      ZeroOnlyOnEqual(Front(a), Front(b));
      assert a == Front(a) + [Last(a)] && b == Front(b) + [Last(b)];
    }
  }

  lemma {:induction false} Symmetric(a: string, b: string)
    ensures Dist(a, b) == Dist(b, a)
    decreases |a| + |b|
  {
    if a != "" && b != "" {
      Symmetric(Front(a), Front(b));
      Symmetric(Front(a), b);
      Symmetric(a, Front(b));
    }
  }

  /** The distance lies between the length difference and the longer length. */
  lemma {:induction false} LengthBounds(a: string, b: string)
    ensures |a| - |b| <= Dist(a, b) && |b| - |a| <= Dist(a, b)
    ensures Dist(a, b) <= if |a| <= |b| then |b| else |a|
    decreases |a| + |b|
  {
    if a != "" && b != "" {
      LengthBounds(Front(a), Front(b));
      LengthBounds(Front(a), b);
      LengthBounds(a, Front(b));
    }
  }

  lemma {:induction false} Triangle(a: string, b: string, c: string)
    ensures Dist(a, c) <= Dist(a, b) + Dist(b, c)
    decreases |a| + |b| + |c|
  {
    if a == "" || b == "" || c == "" {
      LengthBounds(a, b);
      LengthBounds(b, c);
      LengthBounds(a, c);
    } else if Dist(a, b) == Dist(Front(a), b) + 1 {
      Triangle(Front(a), b, c);
    } else if Dist(b, c) == Dist(b, Front(c)) + 1 {
      Triangle(a, b, Front(c));
    } else if Dist(a, b) == Dist(a, Front(b)) + 1 {
      if Dist(b, c) == Dist(Front(b), c) + 1 {
        Triangle(a, Front(b), c);
      } else {
        Triangle(a, Front(b), Front(c));
      }
    } else if Dist(b, c) == Dist(Front(b), c) + 1 {
      Triangle(Front(a), Front(b), c);
    } else {
      Triangle(Front(a), Front(b), Front(c));
    }
  }

  /** The laws that make `Distance` a metric, for every value it can return. */
  lemma EditDistanceIsAMetric(a: string, b: string, c: string, ab: nat, bc: nat, ac: nat)
    requires IsEditDistance(ab, a, b) && IsEditDistance(bc, b, c) && IsEditDistance(ac, a, c)
    ensures ab == 0 <==> a == b
    ensures IsEditDistance(ab, b, a)
    ensures ac <= ab + bc
  {
    DistIsEditDistance(a, b);
    DistIsEditDistance(b, c);
    DistIsEditDistance(a, c);
    DistIsEditDistance(b, a);
    ZeroOnlyOnEqual(a, b);
    Symmetric(a, b);
    Triangle(a, b, c);
  }
}
