/** Collapsing repeated lines (lib.rs), exactly or up to their digits. Output is laid out as items, which are
    rendered as lines of text; which lines are critical is a parameter. */
module LineDedupe {
  import opened DigitRuns
  import opened LineText
  import opened LineViews
  import opened Sequences
  import opened Wrappers

  datatype Dedupe = Plain(text: string) | More(count: nat) | Similar(count: nat)

  datatype Options = Options(structural: bool, critical: string -> bool)

  /** The length of the run of lines at the front that satisfy a predicate. */
  function RunOf(lines: seq<string>, p: string -> bool): (n: nat)
    ensures n <= |lines|
    ensures forall i :: 0 <= i < n ==> p(lines[i])
    ensures n < |lines| ==> !p(lines[n])
  {
    if lines != [] && p(lines[0]) then 1 + RunOf(lines[1..], p) else 0
  }

  lemma {:induction false} RunOfIs(lines: seq<string>, p: string -> bool, n: nat)
    requires n <= |lines| && (forall i :: 0 <= i < n ==> p(lines[i])) && (n < |lines| ==> !p(lines[n]))
    ensures RunOf(lines, p) == n
  {
    if n > 0 {
      RunOfIs(lines[1..], p, n - 1);
    }
  }

  method CountRun(lines: seq<string>, p: string -> bool) returns (n: nat)
    ensures n == RunOf(lines, p)
  {
    n := 0;
    while n < |lines| && p(lines[n])
      invariant n <= |lines| && forall i :: 0 <= i < n ==> p(lines[i])
    {
      n := n + 1;
    }
    RunOfIs(lines, p, n);
  }

  function SameAs(line: string): string -> bool {
    (other: string) => other == line
  }

  function SimilarTo(o: Options, line: string): string -> bool {
    (other: string) => !o.critical(other) && Normal(other) == Normal(line)
  }

  function Plains(lines: seq<string>): (r: seq<Dedupe>)
    ensures |r| == |lines| && forall i :: 0 <= i < |lines| ==> r[i] == Plain(lines[i])
  {
    seq(|lines|, i requires 0 <= i < |lines| => Plain(lines[i]))
  }

  /** What one pass emits for the lines at the front, and how many it takes. */
  function FirstPass(o: Options, lines: seq<string>): (r: (seq<Dedupe>, nat))
    requires lines != []
    ensures 0 < r.1 <= |lines|
  {
    var line := lines[0];
    var exact, similar := RunOf(lines, SameAs(line)), RunOf(lines, SimilarTo(o, line));
    if o.structural && o.critical(line) then ([Plain(line)], 1)
    else if exact >= 3 then ([Plain(line), More(exact - 1)], exact)
    else if o.structural && similar >= 4 then ([Plain(line), Similar(similar - 1)], similar)
    else (Plains(lines[..exact]), exact)
  }

  function Deduped(o: Options, lines: seq<string>): seq<Dedupe> {
    if lines == [] then []
    else
      var (items, taken) := FirstPass(o, lines);
      items + Deduped(o, lines[taken..])
  }

  /** With the items of one pass over `rest` out, what is left to come is the rest after the lines it took. */
  lemma DedupedStep(o: Options, rest: seq<string>, items: seq<Dedupe>, taken: nat, given: seq<Dedupe>)
    requires rest != [] && (items, taken) == FirstPass(o, rest)
    ensures taken <= |rest| && (given + items) + Deduped(o, rest[taken..]) == given + Deduped(o, rest)
  {
    Regroup(given, items, Deduped(o, rest[taken..]));
  }

  // ----- items as lines of text -----

  /** The line after one that stands for several equal lines. */
  const REPEATED := Marker("... repeated ", " more times ...")

  const DIGITS_VARY := " similar lines collapsed (digits vary)"

  /** The line after one that stands for lines that differ from it in their digits. */
  const SIMILAR := Marker("... ", DIGITS_VARY + EXACT_REF)

  function ItemLine(item: Dedupe): string {
    match item
    case Plain(t) => t
    case More(n) => MarkerText(REPEATED, n)
    case Similar(n) => MarkerText(SIMILAR, n)
  }

  function Rendered(items: seq<Dedupe>): (out: seq<string>)
    ensures |out| == |items| && forall i :: 0 <= i < |items| ==> out[i] == ItemLine(items[i])
  {
    seq(|items|, i requires 0 <= i < |items| => ItemLine(items[i]))
  }

  lemma RenderedAppend(given: seq<Dedupe>, items: seq<Dedupe>)
    ensures Rendered(given + items) == Rendered(given) + Rendered(items)
  {
  }

  method DedupeLines(o: Options, lines: seq<string>) returns (out: seq<string>)
    ensures out == Rendered(Deduped(o, lines))
  {
    out := [];
    var rest := lines;
    ghost var given: seq<Dedupe> := [];
    while rest != []
      invariant out == Rendered(given) && given + Deduped(o, rest) == Deduped(o, lines)
      decreases |rest|
    {
      var pushed, taken := Pass(o, rest);
      ghost var items := FirstPass(o, rest).0;
      DedupedStep(o, rest, items, taken, given);
      RenderedAppend(given, items);
      out := out + pushed;
      given := given + items;
      rest := rest[taken..];
    }
  }

  method Pass(o: Options, lines: seq<string>) returns (pushed: seq<string>, taken: nat)
    requires lines != []
    ensures (pushed, taken) == (Rendered(FirstPass(o, lines).0), FirstPass(o, lines).1)
  {
    var line := lines[0];
    if o.structural && o.critical(line) {
      assert Rendered([Plain(line)]) == [line];
      return [line], 1;
    }
    var exact := CountRun(lines, SameAs(line));
    if exact >= 3 {
      assert Rendered([Plain(line), More(exact - 1)]) == [line, MarkerText(REPEATED, exact - 1)];
      return [line, MarkerText(REPEATED, exact - 1)], exact;
    }
    if o.structural {
      var similar := CountRun(lines, SimilarTo(o, line));
      if similar >= 4 {
        assert Rendered([Plain(line), Similar(similar - 1)]) == [line, MarkerText(SIMILAR, similar - 1)];
        return [line, MarkerText(SIMILAR, similar - 1)], similar;
      }
    }
    assert Rendered(Plains(lines[..exact])) == lines[..exact];
    return lines[..exact], exact;
  }

  // ----- what the items say about the lines -----

  /** The lines the items stand for: a repetition copies the line before it, a collapse of similar lines says
      only how many there were. */
  function Restored(items: seq<Dedupe>, last: string): seq<Option<string>> {
    if items == [] then []
    else
      match items[0]
      case Plain(t) => [Some(t)] + Restored(items[1..], t)
      case More(n) => Repeated(Some(last), n) + Restored(items[1..], last)
      case Similar(n) => Repeated(None, n) + Restored(items[1..], last)
  }

  /** Each line is given back, or is one of a run of similar lines that are not critical. */
  ghost predicate Faithful(o: Options, lines: seq<string>, restored: seq<Option<string>>) {
    |restored| == |lines| &&
    forall i :: 0 <= i < |lines| ==>
      restored[i] == Some(lines[i]) || (restored[i] == None && o.structural && Represented(o, lines, restored, i))
  }

  /** A collapsed line is not critical, and an earlier line with the same normal form was kept. */
  ghost predicate Represented(o: Options, lines: seq<string>, restored: seq<Option<string>>, i: nat)
    requires |restored| == |lines| && i < |lines|
  {
    && !o.critical(lines[i])
    && exists r :: 0 <= r < i && restored[r] == Some(lines[r]) && Normal(lines[r]) == Normal(lines[i])
  }

  lemma FaithfulConcat(o: Options, a: seq<string>, ra: seq<Option<string>>, b: seq<string>, rb: seq<Option<string>>)
    requires Faithful(o, a, ra) && Faithful(o, b, rb)
    ensures Faithful(o, a + b, ra + rb)
  {
    var lines, restored := a + b, ra + rb;
    forall i | 0 <= i < |lines|
      ensures restored[i] == Some(lines[i]) ||
              (restored[i] == None && o.structural && Represented(o, lines, restored, i))
    {
      if i < |a| {
        if ra[i] == None {
          assert Represented(o, a, ra, i);
          var r :| 0 <= r < i && ra[r] == Some(a[r]) && Normal(a[r]) == Normal(a[i]);
          assert restored[r] == Some(lines[r]);
        }
      } else if rb[i - |a|] == None {
        assert Represented(o, b, rb, i - |a|);
        var r :| 0 <= r < i - |a| && rb[r] == Some(b[r]) && Normal(b[r]) == Normal(b[i - |a|]);
        assert restored[|a| + r] == Some(lines[|a| + r]);
      }
    }
  }

  lemma FaithfulSplit(o: Options, lines: seq<string>, n: nat, head: seq<Option<string>>, tail: seq<Option<string>>,
                      whole: seq<Option<string>>)
    requires n <= |lines| && Faithful(o, lines[..n], head) && Faithful(o, lines[n..], tail) && whole == head + tail
    ensures Faithful(o, lines, whole)
  {
    FaithfulConcat(o, lines[..n], head, lines[n..], tail);
    assert lines == lines[..n] + lines[n..];
  }

  lemma PlainsHead(lines: seq<string>, rest: seq<Dedupe>)
    requires lines != []
    ensures Plains(lines) + rest == [Plain(lines[0])] + (Plains(lines[1..]) + rest)
    ensures Givens(lines) == [Some(lines[0])] + Givens(lines[1..])
  {
  }

  lemma RestoredHead(line: string, rest: seq<Dedupe>, last: string)
    ensures Restored([Plain(line)] + rest, last) == [Some(line)] + Restored(rest, line)
  {
    assert ([Plain(line)] + rest)[1..] == rest;
  }

  lemma {:induction false} RestoredPlains(lines: seq<string>, rest: seq<Dedupe>, last: string)
    ensures Restored(Plains(lines) + rest, last) ==
            Givens(lines) + Restored(rest, if lines == [] then last else lines[|lines| - 1])
  {
    if lines == [] {
      assert Plains(lines) + rest == rest && Givens(lines) == [];
    } else {
      PlainsHead(lines, rest);
      RestoredHead(lines[0], Plains(lines[1..]) + rest, last);
      RestoredPlains(lines[1..], rest, lines[0]);
      Regroup([Some(lines[0])], Givens(lines[1..]), Restored(rest, lines[|lines| - 1]));
    }
  }

  function Givens(lines: seq<string>): (r: seq<Option<string>>)
    ensures |r| == |lines| && forall i :: 0 <= i < |lines| ==> r[i] == Some(lines[i])
  {
    seq(|lines|, i requires 0 <= i < |lines| => Some(lines[i]))
  }

  /** A line and a second item about the lines after it. */
  lemma RestoredPair(line: string, second: Dedupe, rest: seq<Dedupe>, last: string)
    requires !second.Plain?
    ensures Restored([Plain(line), second] + rest, last) ==
            [Some(line)] + Repeated(if second.More? then Some(line) else None, second.count) + Restored(rest, line)
  {
    var items := [second] + rest;
    assert [Plain(line), second] + rest == [Plain(line)] + items;
    RestoredHead(line, items, last);
    assert items[1..] == rest;
    var run := Repeated(if second.More? then Some(line) else None, second.count);
    assert Restored(items, line) == run + Restored(rest, line);
    Regroup([Some(line)], run, Restored(rest, line));
  }

  /** What the items of one pass restore is faithful to the lines it took. */
  lemma PassIsFaithful(o: Options, lines: seq<string>, rest: seq<Dedupe>, last: string)
    returns (restored: seq<Option<string>>, after: string)
    requires lines != []
    ensures var (items, taken) := FirstPass(o, lines);
            Restored(items + rest, last) == restored + Restored(rest, after) && Faithful(o, lines[..taken], restored)
  {
    var (items, taken) := FirstPass(o, lines);
    var line := lines[0];
    if |items| == 2 && !items[1].Plain? {
      RestoredPair(line, items[1], rest, last);
      restored, after := [Some(line)] + Repeated(if items[1].More? then Some(line) else None, items[1].count), line;
      PairIsFaithful(o, lines, restored);
    } else {
      assert items == Plains(lines[..taken]);
      RestoredPlains(lines[..taken], rest, last);
      restored, after := Givens(lines[..taken]), lines[taken - 1];
    }
  }

  lemma PairIsFaithful(o: Options, lines: seq<string>, restored: seq<Option<string>>)
    requires lines != []
    requires var (items, taken) := FirstPass(o, lines);
             && |items| == 2 && !items[1].Plain?
             && restored == [Some(lines[0])] + Repeated(if items[1].More? then Some(lines[0]) else None, items[1].count)
    ensures Faithful(o, lines[..FirstPass(o, lines).1], restored)
  {
    var (items, taken) := FirstPass(o, lines);
    var run := lines[..taken];
    var exact := RunOf(lines, SameAs(lines[0]));
    if items[1].More? {
      forall i | 0 <= i < taken
        ensures restored[i] == Some(run[i])
      {
        assert SameAs(lines[0])(lines[i]);
      }
    } else {
      forall i | 0 < i < taken
        ensures restored[i] == None && Represented(o, run, restored, i)
      {
        assert SimilarTo(o, lines[0])(lines[i]);
        assert restored[0] == Some(run[0]);
      }
    }
  }

  /** The items account for every line, in place: exact repetitions can be expanded back, and only runs of
      similar lines that are not critical lose their text. */
  lemma {:induction false} ItemsAreFaithful(o: Options, lines: seq<string>, last: string)
    ensures Faithful(o, lines, Restored(Deduped(o, lines), last))
    decreases |lines|
  {
    if lines != [] {
      var taken := FirstPass(o, lines).1;
      var rest := Deduped(o, lines[taken..]);
      var restored, after := PassIsFaithful(o, lines, rest, last);
      ItemsAreFaithful(o, lines[taken..], after);
      FaithfulSplit(o, lines, taken, restored, Restored(rest, after), Restored(Deduped(o, lines), last));
    }
  }
}
