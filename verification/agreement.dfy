/** The two run modes over a whole run: what a report in forking mode and a report in
    single-process mode have in common. */
module Agreement {
  import opened Text
  import opened Items
  import opened Tap
  import opened Life
  import opened Running
  import opened Forking
  import opened Scheduling
  import opened Totals

  /** A line that is not about the captured output of a test. */
  predicate IsEssential(l: Line) {
    !l.Note? || l.prefix != STDIO_PREFIX
  }

  /** A printout without the lines about captured output. */
  function Essential(ls: seq<Line>): seq<Line> {
    if ls == [] then []
    else Essential(ls[..|ls| - 1]) + if IsEssential(ls[|ls| - 1]) then [ls[|ls| - 1]] else []
  }

  lemma {:induction false} EssentialConcat(a: seq<Line>, b: seq<Line>)
    ensures Essential(a + b) == Essential(a) + Essential(b)
  {
    if b == [] {
      assert a + b == a;
    } else {
      assert (a + b)[..|a + b| - 1] == a + b[..|b| - 1];
      EssentialConcat(a, b[..|b| - 1]);
    }
  }

  lemma {:induction false} AllEssential(ls: seq<Line>)
    requires forall i :: 0 <= i < |ls| ==> IsEssential(ls[i])
    ensures Essential(ls) == ls
  {
    if ls != [] {
      AllEssential(ls[..|ls| - 1]);
      assert ls == ls[..|ls| - 1] + [ls[|ls| - 1]];
    }
  }

  lemma {:induction false} NoneEssential(ls: seq<Line>)
    requires forall i :: 0 <= i < |ls| ==> !IsEssential(ls[i])
    ensures Essential(ls) == []
  {
    if ls != [] {
      NoneEssential(ls[..|ls| - 1]);
    }
  }

  // ---------------------------------------------------------------- one event

  /** The same event in both modes: the same test is finished, with any two outcomes that
      the result line tells apart, and with any messages. */
  ghost predicate Match(forked: Event, single: Event) {
    if forked.TestDone? then
      && single.TestDone? && forked.done == single.done
      && (forked.outcome == single.outcome || StatusOf(forked.outcome) != StatusOf(single.outcome))
    else forked == single
  }

  /** The two events are reported alike. */
  ghost predicate SameReport(forked: Event, single: Event)
    requires Match(forked, single)
  {
    forked.TestDone? ==> forked.outcome == single.outcome && ErrorLines(forked) == ErrorLines(single)
  }

  /** The lines that one event adds, without those about captured output. */
  ghost function Added(st: State, e: Event): seq<Line> {
    match e
    case TestStart(_) => []
    case TestDone(test, outcome, _, _, _) => [Result(StatusOf(outcome), st.tests, test.name)] + ErrorLines(e)
    case _ => var ls := Step(st, e).lines; [ls[|ls| - 1]]
  }

  lemma DoneAdds(before: seq<Line>, result: Line, errors: seq<Line>, stdio: seq<Line>)
    requires IsEssential(result) && forall i :: 0 <= i < |errors| ==> IsEssential(errors[i])
    requires forall i :: 0 <= i < |stdio| ==> !IsEssential(stdio[i])
    ensures Essential(before + [result] + (errors + stdio)) == Essential(before) + ([result] + errors)
  {
    AllEssential([result] + errors);
    NoneEssential(stdio);
    Associated(before + [result], errors, stdio);
    Associated(before, [result], errors);
    EssentialConcat(before + ([result] + errors), stdio);
    EssentialConcat(before, [result] + errors);
  }

  lemma OneAdds(before: seq<Line>, l: Line)
    requires IsEssential(l)
    ensures Essential(before + [l]) == Essential(before) + [l]
  {
    assert (before + [l])[..|before|] == before;
  }

  lemma StepAdds(st: State, e: Event)
    ensures Essential(Step(st, e).lines) == Essential(st.lines) + Added(st, e)
  {
    if e.TestDone? {
      DoneAdds(st.lines, Result(StatusOf(e.outcome), st.tests, e.done.name), ErrorLines(e), Notes(STDIO_PREFIX, e.output));
    } else if e.TestStart? {
      assert Essential(st.lines) + [] == Essential(st.lines);
    } else {
      var ls := Step(st, e).lines;
      OneAdds(st.lines, ls[|ls| - 1]);
    }
  }

  /** At `i` the printouts differ for good: in the line there, or in that only one of
      them goes on with a note. */
  ghost predicate ApartAt(a: seq<Line>, b: seq<Line>, i: nat) {
    || (i < |a| && i < |b| && a[i] != b[i])
    || (i == |a| < |b| && b[i].Note?)
    || (i == |b| < |a| && a[i].Note?)
  }

  ghost predicate Apart(a: seq<Line>, b: seq<Line>) {
    exists i: nat :: ApartAt(a, b, i)
  }

  lemma ApartDiffer(a: seq<Line>, b: seq<Line>)
    requires Apart(a, b)
    ensures a != b
  {
  }

  /** No later line makes up for a difference: every event begins with a line that is
      not a note. */
  lemma ApartStays(a: seq<Line>, b: seq<Line>, x: seq<Line>, y: seq<Line>)
    requires Apart(a, b) && (x == []) == (y == []) && (x != [] ==> !x[0].Note? && !y[0].Note?)
    ensures Apart(a + x, b + y)
  {
    var i: nat :| ApartAt(a, b, i);
    if x == [] {
      assert a + x == a && b + y == b;
    } else {
      assert (a + x)[|a|] == x[0] && (b + y)[|b|] == y[0];
      assert ApartAt(a + x, b + y, i);
    }
  }

  /** Different notes behind the same lines. */
  lemma NotesApart(before: seq<Line>, e: seq<Line>, f: seq<Line>)
    requires e != f
    requires (forall i :: 0 <= i < |e| ==> e[i].Note?) && forall i :: 0 <= i < |f| ==> f[i].Note?
    ensures Apart(before + e, before + f)
  {
    if i: nat :| i < |e| && i < |f| && e[i] != f[i] {
      assert (before + e)[|before| + i] == e[i] && (before + f)[|before| + i] == f[i];
      assert ApartAt(before + e, before + f, |before| + i);
    } else if |e| < |f| {
      assert (before + f)[|before| + |e|] == f[|e|];
      assert ApartAt(before + e, before + f, |before| + |e|);
    } else {
      assert |f| < |e|;
      assert (before + e)[|before| + |f|] == e[|f|];
      assert ApartAt(before + e, before + f, |before| + |f|);
    }
  }

  /** The two reports have the same counters and lines, or lines that differ for good. */
  ghost predicate Together(a: State, b: State, same: bool) {
    if same then SameCounters(a, b) && Essential(a.lines) == Essential(b.lines)
    else Apart(Essential(a.lines), Essential(b.lines))
  }

  ghost predicate SameCounters(a: State, b: State) {
    a.tests == b.tests && a.failed == b.failed && a.inSuite == b.inSuite && a.failedInSuite == b.failedInSuite
  }

  lemma CountersTogether(a: State, b: State, e: Event, f: Event)
    requires SameCounters(a, b) && Match(e, f) && SameReport(e, f)
    ensures SameCounters(Step(a, e), Step(b, f))
  {
  }

  /** What one event adds to reports that are the same so far. */
  lemma AddedApart(before: seq<Line>, a: State, b: State, e: Event, f: Event)
    requires a.tests == b.tests && e.TestDone? && Match(e, f) && !SameReport(e, f)
    ensures Apart(before + Added(a, e), before + Added(b, f))
  {
    if e.outcome == f.outcome {
      var result := [Result(StatusOf(e.outcome), a.tests, e.done.name)];
      Associated(before, result, ErrorLines(e));
      Associated(before, result, ErrorLines(f));
      NotesApart(before + result, ErrorLines(e), ErrorLines(f));
    } else {
      assert (before + Added(a, e))[|before|] == Added(a, e)[0];
      assert (before + Added(b, f))[|before|] == Added(b, f)[0];
      assert ApartAt(before + Added(a, e), before + Added(b, f), |before|);
    }
  }

  /** What one event adds starts with a line that is not a note. */
  lemma AddedHead(a: State, e: Event)
    ensures Added(a, e) == [] <==> e.TestStart?
    ensures !e.TestStart? ==> !Added(a, e)[0].Note?
  {
  }

  lemma StepTogether(a: State, b: State, same: bool, e: Event, f: Event)
    requires Together(a, b, same) && Match(e, f)
    ensures Together(Step(a, e), Step(b, f), same && SameReport(e, f)) == true
  {
    StepAdds(a, e);
    StepAdds(b, f);
    if !same {
      AddedHead(a, e);
      AddedHead(b, f);
      ApartStays(Essential(a.lines), Essential(b.lines), Added(a, e), Added(b, f));
    } else if SameReport(e, f) {
      CountersTogether(a, b, e, f);
      AddedSame(a, b, e, f);
    } else {
      AddedApart(Essential(a.lines), a, b, e, f);
    }
  }

  lemma AddedSame(a: State, b: State, e: Event, f: Event)
    requires SameCounters(a, b) && Match(e, f) && SameReport(e, f)
    ensures Added(a, e) == Added(b, f)
  {
  }

  // ------------------------------------------------------------- whole traces

  ghost predicate Matching(es: seq<Event>, fs: seq<Event>) {
    |es| == |fs| && forall i :: 0 <= i < |es| ==> Match(es[i], fs[i])
  }

  /** The first `n` events agree on all errors. */
  ghost predicate Quiet(es: seq<Event>, fs: seq<Event>, n: nat)
    requires Matching(es, fs) && n <= |es|
  {
    forall i :: 0 <= i < n ==> SameReport(es[i], fs[i])
  }

  lemma {:induction false} ReportsTogether(es: seq<Event>, fs: seq<Event>, n: nat)
    requires Matching(es, fs) && n <= |es|
    ensures Together(After(es, n), After(fs, n), Quiet(es, fs, n)) == true
  {
    if n > 0 {
      ReportsTogether(es, fs, n - 1);
      StepTogether(After(es, n - 1), After(fs, n - 1), Quiet(es, fs, n - 1), es[n - 1], fs[n - 1]);
      QuietNext(es, fs, n);
    }
  }

  lemma QuietNext(es: seq<Event>, fs: seq<Event>, n: nat)
    requires Matching(es, fs) && 0 < n <= |es|
    ensures Quiet(es, fs, n) == (Quiet(es, fs, n - 1) && SameReport(es[n - 1], fs[n - 1]))
  {
  }

  ghost predicate AllQuiet(es: seq<Event>, fs: seq<Event>) {
    Matching(es, fs) && Quiet(es, fs, |es|)
  }

  /** Where the events of two traces stand in their concatenation. */
  lemma SplitAt(a: seq<Event>, c: seq<Event>)
    ensures forall i :: 0 <= i < |a| ==> (a + c)[i] == a[i]
    ensures forall i :: 0 <= i < |c| ==> (a + c)[|a| + i] == c[i]
  {
  }

  lemma MatchingConcat(a: seq<Event>, b: seq<Event>, c: seq<Event>, d: seq<Event>)
    requires Matching(a, b) && Matching(c, d)
    ensures Matching(a + c, b + d)
    ensures AllQuiet(a + c, b + d) <==> AllQuiet(a, b) && AllQuiet(c, d)
  {
    SplitAt(a, c);
    SplitAt(b, d);
  }

  // ------------------------------------------------------------ the same list

  /** The same list, to be run in the mode that is given. */
  function InMode(p: Schedule, forking: bool): Schedule {
    p.(forking := forking)
  }

  /** Every executed test leaves the process alive and prints no zero bytes. */
  ghost predicate Comparable(p: Schedule)
    requires p.Valid()
  {
    forall t: nat :: t < |p.items| && p.Runs(t) ==> Survives(p.cases[t]) && PrintsNoZero(p.cases[t])
  }

  /** A test is reported alike in both modes: the pipe holds what it writes, no message ends
      with LF, and the plain text before the last message has room. */
  predicate ReportedAlike(cs: Case) {
    !Outgrows(cs) && MessagesAgree(cs)
  }

  /** Every executed test from `a` up to `n` is reported alike. */
  ghost predicate AllAgree(p: Schedule, a: nat, n: nat)
    requires p.Valid() && n <= |p.items|
  {
    forall t: nat :: a <= t < n && p.Runs(t) ==> ReportedAlike(p.cases[t])
  }

  lemma SingleEvent(e: Event)
    requires !e.TestDone?
    ensures AllQuiet([e], [e])
  {
  }

  lemma PairMatches(start: Event, e: Event, f: Event)
    requires !start.TestDone? && Match(e, f)
    ensures Matching([start] + [e], [start] + [f])
    ensures AllQuiet([start] + [e], [start] + [f]) <==> SameReport(e, f)
  {
    SingleEvent(start);
    assert Matching([e], [f]);
    if AllQuiet([e], [f]) {
      assert SameReport([e][0], [f][0]);
    }
    MatchingConcat([start], [start], [e], [f]);
  }

  /** One executed test in both modes. */
  lemma TestMatches(p: Schedule, t: nat)
    requires p.Valid() && t < |p.items| && Survives(p.cases[t]) && PrintsNoZero(p.cases[t])
    ensures var e, f := InMode(p, true).DoneAt(t), InMode(p, false).DoneAt(t);
            Match(e, f) && (SameReport(e, f) <==> ReportedAlike(p.cases[t]))
  {
    OutcomeDecides(p.cases[t], p.items[t]);
    ForkAgreesWithSingle(p.cases[t], p.items[t]);
  }

  lemma {:induction false} TestsMatch(p: Schedule, i: nat, b: nat)
    requires p.Valid() && Comparable(p) && i < b <= |p.items| && SuiteIndex(p.kinds, b - 1) == i
    ensures var es, fs := InMode(p, true).TestEvents(i + 1, b), InMode(p, false).TestEvents(i + 1, b);
            Matching(es, fs) && (AllQuiet(es, fs) <==> AllAgree(p, i + 1, b))
    decreases b
  {
    var own := p.kinds[i];
    if b > i + 1 {
      TestsMatch(p, i, b - 1);
      TestsMatchStep(p, i, b);
    } else {
      assert InMode(p, true).TestEvents(i + 1, b) == InMode(p, false).TestEvents(i + 1, b) == [];
    }
  }

  lemma QuietStep(p: Schedule, i: nat, b: nat)
    requires p.Valid() && i + 1 < b <= |p.items| && SuiteIndex(p.kinds, b - 1) == i
    ensures AllAgree(p, i + 1, b)
       <==> AllAgree(p, i + 1, b - 1) && (p.kinds[b - 1] == Test ==> ReportedAlike(p.cases[b - 1]))
  {
    assert p.Runs(b - 1) <==> p.kinds[b - 1] == Test;
    QuietItem(p, i + 1, b);
  }

  lemma QuietItem(p: Schedule, a: nat, b: nat)
    requires p.Valid() && a < b <= |p.items|
    ensures AllAgree(p, a, b)
       <==> AllAgree(p, a, b - 1) && (p.Runs(b - 1) ==> ReportedAlike(p.cases[b - 1]))
  {
  }

  /** An item that is not a test changes nothing. */
  lemma OtherItemMatches(p: Schedule, i: nat, b: nat)
    requires p.Valid() && i + 1 < b <= |p.items| && p.kinds[b - 1] != Test
    ensures InMode(p, true).TestEvents(i + 1, b) == InMode(p, true).TestEvents(i + 1, b - 1)
    ensures InMode(p, false).TestEvents(i + 1, b) == InMode(p, false).TestEvents(i + 1, b - 1)
  {
    OneMoreItem(InMode(p, true), i + 1, b);
    OneMoreItem(InMode(p, false), i + 1, b);
  }

  /** One more test: matching traces that get a matching pair of events. */
  lemma PairAppended(es: seq<Event>, fs: seq<Event>, start: Event, e: Event, f: Event)
    requires Matching(es, fs) && !start.TestDone? && Match(e, f)
    ensures Matching(es + ([start] + [e]), fs + ([start] + [f]))
    ensures AllQuiet(es + ([start] + [e]), fs + ([start] + [f])) <==> AllQuiet(es, fs) && SameReport(e, f)
  {
    PairMatches(start, e, f);
    MatchingConcat(es, fs, [start] + [e], [start] + [f]);
  }

  lemma TestItemMatches(p: Schedule, i: nat, b: nat)
    requires p.Valid() && Comparable(p) && i + 1 < b <= |p.items| && p.Runs(b - 1)
    requires Matching(InMode(p, true).TestEvents(i + 1, b - 1), InMode(p, false).TestEvents(i + 1, b - 1))
    ensures var es, fs := InMode(p, true).TestEvents(i + 1, b), InMode(p, false).TestEvents(i + 1, b);
            && Matching(es, fs)
            && (AllQuiet(es, fs) <==>
                  && AllQuiet(InMode(p, true).TestEvents(i + 1, b - 1), InMode(p, false).TestEvents(i + 1, b - 1))
                  && ReportedAlike(p.cases[b - 1]))
  {
    var q, r, t := InMode(p, true), InMode(p, false), b - 1;
    OneMoreItem(q, i + 1, b);
    OneMoreItem(r, i + 1, b);
    TestMatches(p, t);
    PairAppended(q.TestEvents(i + 1, t), r.TestEvents(i + 1, t), Event.TestStart(p.items[t]), q.DoneAt(t), r.DoneAt(t));
  }

  lemma TestsMatchStep(p: Schedule, i: nat, b: nat)
    requires p.Valid() && Comparable(p) && i + 1 < b <= |p.items| && SuiteIndex(p.kinds, b - 1) == i
    requires var es, fs := InMode(p, true).TestEvents(i + 1, b - 1), InMode(p, false).TestEvents(i + 1, b - 1);
             Matching(es, fs) && (AllQuiet(es, fs) <==> AllAgree(p, i + 1, b - 1))
    ensures var es, fs := InMode(p, true).TestEvents(i + 1, b), InMode(p, false).TestEvents(i + 1, b);
            Matching(es, fs) && (AllQuiet(es, fs) <==> AllAgree(p, i + 1, b))
  {
    QuietStep(p, i, b);
    if p.kinds[b - 1] == Test {
      TestItemMatches(p, i, b);
    } else {
      OtherItemMatches(p, i, b);
    }
  }

  lemma BlockMatches(p: Schedule, i: nat, b: nat)
    requires p.Valid() && i < b <= |p.items|
    requires Matching(InMode(p, true).TestEvents(i + 1, b), InMode(p, false).TestEvents(i + 1, b))
    ensures var es, fs := InMode(p, true).Block(i, b), InMode(p, false).Block(i, b);
            && Matching(es, fs)
            && (AllQuiet(es, fs) <==> AllQuiet(InMode(p, true).TestEvents(i + 1, b), InMode(p, false).TestEvents(i + 1, b)))
  {
    var ts, us := InMode(p, true).TestEvents(i + 1, b), InMode(p, false).TestEvents(i + 1, b);
    var start, done := [Event.SuiteStart(p.items[i])], [Event.SuiteDone(p.items[i])];
    SingleEvent(start[0]);
    SingleEvent(done[0]);
    MatchingConcat(start, start, ts, us);
    MatchingConcat(start + ts, start + us, done, done);
  }

  lemma QuietSuite(p: Schedule, i: nat, b: nat)
    requires p.Valid() && i < b <= |p.items| && p.kinds[i] == TestSuite
    ensures AllAgree(p, 0, b) <==> AllAgree(p, 0, i) && AllAgree(p, i + 1, b)
  {
  }

  lemma {:induction false} SuitesMatch(p: Schedule, b: nat)
    requires p.Valid() && Comparable(p) && b <= |p.items| && (b < |p.items| ==> p.kinds[b] == TestSuite)
    ensures var es, fs := InMode(p, true).SuiteEvents(b), InMode(p, false).SuiteEvents(b);
            Matching(es, fs) && (AllQuiet(es, fs) <==> AllAgree(p, 0, b))
    decreases b
  {
    var q, r, i := InMode(p, true), InMode(p, false), SuiteIndex(p.kinds, b - 1);
    if i >= 0 {
      SuitesMatch(p, i);
      TestsMatch(p, i, b);
      BlockMatches(p, i, b);
      MatchingConcat(q.SuiteEvents(i), r.SuiteEvents(i), q.Block(i, b), r.Block(i, b));
      QuietSuite(p, i, b);
    }
  }

  lemma RunsMatch(p: Schedule)
    requires p.Valid() && Comparable(p)
    ensures var es, fs := InMode(p, true).RunEvents(), InMode(p, false).RunEvents();
            Matching(es, fs) && (AllQuiet(es, fs) <==> AllAgree(p, 0, |p.items|))
  {
    var q, r := InMode(p, true), InMode(p, false);
    var init, n := [Event.Init(Rank(p.kinds, |p.kinds|, OnlyTests))], |p.items|;
    SuitesMatch(p, n);
    SingleEvent(init[0]);
    SingleEvent(Event.Done);
    MatchingConcat(init, init, q.SuiteEvents(n), r.SuiteEvents(n));
    MatchingConcat(init + q.SuiteEvents(n), init + r.SuiteEvents(n), [Event.Done], [Event.Done]);
  }

  /** No executed test writes more than the pipe holds. */
  ghost predicate NoneOutgrows(p: Schedule)
    requires p.Valid()
  {
    forall t: nat :: t < |p.items| && p.Runs(t) ==> !Outgrows(p.cases[t])
  }

  /** Forking mode passes if and only if single-process mode does and the pipe holds what
      each executed test writes. */
  lemma VerdictsCompared(p: Schedule)
    requires p.Valid() && Comparable(p)
    ensures InMode(p, true).Passed(0, |p.items|) <==> InMode(p, false).Passed(0, |p.items|) && NoneOutgrows(p)
  {
    forall t: nat | t < |p.items| && p.Runs(t)
      ensures InMode(p, true).DoneAt(t).outcome
              == if Outgrows(p.cases[t]) then OUTCOME_INTERNAL_ERROR else InMode(p, false).DoneAt(t).outcome
    {
      OutcomeDecides(p.cases[t], p.items[t]);
    }
  }

  /** Fork/single agreement of whole runs: for every list of tests that stay alive and
      print no zero bytes, apart from the lines about captured output both modes print the
      same report, line by line, if and only if every executed test is reported alike;
      and they have the same verdict if and only if the pipe holds what each executed test
      writes, or single-process mode fails anyway. */
  lemma ModesAgree(p: Schedule)
    requires p.Valid() && Comparable(p)
    ensures InMode(p, true).Passed(0, |p.items|) == InMode(p, false).Passed(0, |p.items|)
       <==> NoneOutgrows(p) || !InMode(p, false).Passed(0, |p.items|)
    ensures Essential(Printout(InMode(p, true))) == Essential(Printout(InMode(p, false)))
            <==> AllAgree(p, 0, |p.items|)
  {
    var es, fs := InMode(p, true).RunEvents(), InMode(p, false).RunEvents();
    VerdictsCompared(p);
    RunsMatch(p);
    ReportsTogether(es, fs, |es|);
    if !AllQuiet(es, fs) {
      ApartDiffer(Essential(Printout(InMode(p, true))), Essential(Printout(InMode(p, false))));
    }
  }
}
