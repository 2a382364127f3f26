/** Which runs of lines are collapsed (lib.rs): from three equal lines on, and, when lines are compared up to their
    digits, from four similar lines on that are not critical. */
module DedupeMeaning {
  import opened DigitRuns
  import opened LineDedupe
  import opened LineText
  import opened Sequences

  /** What is pushed for some lines. */
  function Pushed(o: Options, lines: seq<string>): seq<string> {
    Rendered(Deduped(o, lines))
  }

  ghost predicate AllSimilar(o: Options, lines: seq<string>) {
    forall i :: 0 <= i < |lines| ==> !o.critical(lines[i]) && Normal(lines[i]) == Normal(lines[0])
  }

  /** Four lines at the front that are similar and not critical. */
  ghost predicate BeginsSimilar(o: Options, lines: seq<string>) {
    o.structural && |lines| >= 4 &&
    forall i :: 0 <= i < 4 ==> !o.critical(lines[i]) && Normal(lines[i]) == Normal(lines[0])
  }

  lemma PassPushes(o: Options, lines: seq<string>, items: seq<Dedupe>, taken: nat)
    requires lines != [] && FirstPass(o, lines) == (items, taken) && taken <= |lines|
    ensures Pushed(o, lines) == Rendered(items) + Pushed(o, lines[taken..])
  {
    RenderedAppend(items, Deduped(o, lines[taken..]));
  }

  lemma ExactRunIs(line: string, n: nat, rest: seq<string>)
    requires n > 0 && (rest == [] || rest[0] != line)
    ensures var lines := Repeated(line, n) + rest;
            lines != [] && lines[0] == line && RunOf(lines, SameAs(line)) == n && lines[n..] == rest
            && lines[..n] == Repeated(line, n)
  {
    var lines := Repeated(line, n) + rest;
    RunOfIs(lines, SameAs(line), n);
  }

  lemma SimilarRunIs(o: Options, run: seq<string>, rest: seq<string>)
    requires run != [] && AllSimilar(o, run)
    requires rest == [] || o.critical(rest[0]) || Normal(rest[0]) != Normal(run[0])
    ensures var lines := run + rest;
            lines[0] == run[0] && RunOf(lines, SimilarTo(o, run[0])) == |run| && lines[|run|..] == rest
  {
    var lines := run + rest;
    RunOfIs(lines, SimilarTo(o, run[0]), |run|);
  }

  lemma ShortSimilarRun(o: Options, lines: seq<string>)
    requires lines != [] && !BeginsSimilar(o, lines)
    ensures o.structural ==> RunOf(lines, SimilarTo(o, lines[0])) < 4
  {
    var n := RunOf(lines, SimilarTo(o, lines[0]));
    assert forall i :: 0 <= i < n ==> SimilarTo(o, lines[0])(lines[i]);
  }

  /** Three or more equal lines are collapsed; one or two are given as they are, unless a run of similar lines begins
      with them. */
  lemma ExactRunIsPushed(o: Options, line: string, n: nat, rest: seq<string>)
    requires n > 0 && (rest == [] || rest[0] != line) && !(o.structural && o.critical(line))
    ensures n >= 3 ==>
              Pushed(o, Repeated(line, n) + rest) == [line, MarkerText(REPEATED, n - 1)] + Pushed(o, rest)
    ensures n < 3 && !BeginsSimilar(o, Repeated(line, n) + rest) ==>
              Pushed(o, Repeated(line, n) + rest) == Repeated(line, n) + Pushed(o, rest)
  {
    var lines := Repeated(line, n) + rest;
    ExactRunIs(line, n, rest);
    if n >= 3 {
      var items := [Plain(line), More(n - 1)];
      PassPushes(o, lines, items, n);
      assert Rendered(items) == [line, MarkerText(REPEATED, n - 1)];
    } else if !BeginsSimilar(o, lines) {
      ShortSimilarRun(o, lines);
      PassPushes(o, lines, Plains(lines[..n]), n);
      assert Rendered(Plains(lines[..n])) == Repeated(line, n);
    }
  }

  lemma FewEqual(run: seq<string>, rest: seq<string>)
    requires |run| >= 3 && !(run[0] == run[1] == run[2])
    ensures RunOf(run + rest, SameAs(run[0])) < 3
  {
    var lines := run + rest;
    var n := RunOf(lines, SameAs(run[0]));
    assert lines[1] == run[1] && lines[2] == run[2];
    assert forall i :: 0 <= i < n ==> SameAs(run[0])(lines[i]);
  }

  /** Four or more similar lines are collapsed, unless they begin with three equal ones. */
  lemma SimilarRunIsPushed(o: Options, run: seq<string>, rest: seq<string>)
    requires o.structural && |run| >= 4 && AllSimilar(o, run) && !(run[0] == run[1] == run[2])
    requires rest == [] || o.critical(rest[0]) || Normal(rest[0]) != Normal(run[0])
    ensures Pushed(o, run + rest) == [run[0], MarkerText(SIMILAR, |run| - 1)] + Pushed(o, rest)
  {
    var lines := run + rest;
    var items := [Plain(run[0]), Similar(|run| - 1)];
    SimilarRunIs(o, run, rest);
    FewEqual(run, rest);
    assert !o.critical(run[0]);
    PassPushes(o, lines, items, |run|);
    assert Rendered(items) == [run[0], MarkerText(SIMILAR, |run| - 1)];
  }

  /** Where lines are compared up to their digits, a critical line is given by itself. */
  lemma CriticalLineIsPushed(o: Options, line: string, rest: seq<string>)
    requires o.structural && o.critical(line)
    ensures Pushed(o, [line] + rest) == [line] + Pushed(o, rest)
  {
    assert ([line] + rest)[1..] == rest;
    PassPushes(o, [line] + rest, [Plain(line)], 1);
    assert Rendered([Plain(line)]) == [line];
  }
}
