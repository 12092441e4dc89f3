/** The numbers of a report: numbering of the result lines, counters, plan and verdict. */
module Totals {
  import opened Items
  import opened Tap
  import opened Running
  import opened Scheduling
  import opened RunTheorems

  // ------------------------------------------------------ numbers in the lines

  /** The numbers of the result lines, in print order. */
  function Numbers(ls: seq<Line>): seq<nat> {
    if ls == [] then []
    else Numbers(ls[..|ls| - 1]) + if ls[|ls| - 1].Result? then [ls[|ls| - 1].number] else []
  }

  /** The failed tests that the closing lines of the suites report, added up. */
  function SuiteFailures(ls: seq<Line>): nat {
    if ls == [] then 0
    else SuiteFailures(ls[..|ls| - 1]) + if ls[|ls| - 1].SuiteFailed? then ls[|ls| - 1].failed else 0
  }

  function UpTo(n: nat): (ns: seq<nat>)
    ensures |ns| == n
  {
    seq(n, i requires 0 <= i < n => i + 1)
  }

  lemma OneMoreLine(ls: seq<Line>, l: Line)
    ensures Numbers(ls + [l]) == Numbers(ls) + if l.Result? then [l.number] else []
    ensures SuiteFailures(ls + [l]) == SuiteFailures(ls) + if l.SuiteFailed? then l.failed else 0
  {
    assert (ls + [l])[..|ls|] == ls;
  }

  /** Notes change neither of them. */
  lemma {:induction false} MoreNotes(ls: seq<Line>, notes: seq<Line>)
    requires forall i :: 0 <= i < |notes| ==> notes[i].Note?
    ensures Numbers(ls + notes) == Numbers(ls) && SuiteFailures(ls + notes) == SuiteFailures(ls)
  {
    if notes == [] {
      assert ls + notes == ls;
    } else {
      var front, last := notes[..|notes| - 1], notes[|notes| - 1];
      MoreNotes(ls, front);
      OneMoreLine(ls + front, last);
      assert ls + notes == (ls + front) + [last];
    }
  }

  lemma UpToNext(n: nat)
    ensures UpTo(n) + [n + 1] == UpTo(n + 1)
  {
  }

  // ------------------------------------------------------ numbers in the trace

  /** The finished tests among the first `n` events. */
  function Finished(es: seq<Event>, n: nat): nat
    requires n <= |es|
  {
    if n == 0 then 0 else Finished(es, n - 1) + if es[n - 1].TestDone? then 1 else 0
  }

  /** The tests with an outcome other than PASS among the first `n` events. */
  function Bad(es: seq<Event>, n: nat): nat
    requires n <= |es|
  {
    if n == 0 then 0
    else Bad(es, n - 1) + if es[n - 1].TestDone? && es[n - 1].outcome != OUTCOME_PASS then 1 else 0
  }

  /** The counters of the suites at their ends, added up over the first `n` events. */
  ghost function SuiteCounters(es: seq<Event>, n: nat): nat
    requires n <= |es|
  {
    if n == 0 then 0
    else SuiteCounters(es, n - 1) + if es[n - 1].SuiteDone? then After(es, n - 1).inSuite else 0
  }

  /** How the counters and lines of a report stand to the events in phase `ph`:
      `done` tests are finished and `bad` of them failed, `closed` belong to suites
      that are closed. */
  ghost predicate Accounted(ph: Phase, st: State, done: nat, bad: nat, closed: nat) {
    && Numbers(st.lines) == UpTo(done) && st.failed == bad
    && match ph
       case Fresh => st == START && done == bad == closed == 0
       case Between => st.tests == done == closed && SuiteFailures(st.lines) == bad
       case Open(_, tests) =>
         && st.tests == done == closed + st.inSuite && st.inSuite == tests
         && SuiteFailures(st.lines) + st.failedInSuite == bad
       case Active(_, before, _) =>
         && st.tests == done + 1 == closed + st.inSuite && st.inSuite == before + 1
         && SuiteFailures(st.lines) + st.failedInSuite == bad
       case Closed => st.tests == done == closed && SuiteFailures(st.lines) == bad
       case Stuck => false
  }

  lemma DoneAccounted(ph: Phase, st: State, e: Event, done: nat, bad: nat, closed: nat)
    requires e.TestDone? && Accounted(ph, st, done, bad, closed) && Move(ph, e) != Stuck
    ensures Accounted(Move(ph, e), Step(st, e), done + 1, bad + if e.outcome == OUTCOME_PASS then 0 else 1, closed)
  {
    var result := Result(StatusOf(e.outcome), st.tests, e.done.name);
    var notes := Notes(ERROR_PREFIX, e.error) + Notes(ERROR_PREFIX, e.teardownError) + Notes(STDIO_PREFIX, e.output);
    OneMoreLine(st.lines, result);
    MoreNotes(st.lines + [result], notes);
    UpToNext(done);
  }

  lemma OtherAccounted(ph: Phase, st: State, e: Event, done: nat, bad: nat, closed: nat)
    requires !e.TestDone? && Accounted(ph, st, done, bad, closed) && Move(ph, e) != Stuck
    ensures Accounted(Move(ph, e), Step(st, e), done, bad, closed + if e.SuiteDone? then st.inSuite else 0)
  {
    var lines := Step(st, e).lines;
    if !e.TestStart? {
      OneMoreLine(st.lines, lines[|lines| - 1]);
    }
  }

  lemma NextAccounted(ph: Phase, st: State, e: Event, done: nat, bad: nat, closed: nat)
    requires Accounted(ph, st, done, bad, closed) == true && Move(ph, e) != Stuck
    ensures Accounted(Move(ph, e), Step(st, e), done + (if e.TestDone? then 1 else 0),
                      bad + (if e.TestDone? && e.outcome != OUTCOME_PASS then 1 else 0),
                      closed + if e.SuiteDone? then st.inSuite else 0) == true
  {
    if e.TestDone? {
      DoneAccounted(ph, st, e, done, bad, closed);
    } else {
      OtherAccounted(ph, st, e, done, bad, closed);
    }
  }

  /** The accounts are right after every event of every grammatical trace. */
  lemma {:induction false} AccountsKept(es: seq<Event>, n: nat)
    requires n <= |es| && PhaseAfter(Fresh, es, n) != Stuck
    ensures Accounted(PhaseAfter(Fresh, es, n), After(es, n), Finished(es, n), Bad(es, n), SuiteCounters(es, n)) == true
  {
    if n > 0 {
      AccountsKept(es, n - 1);
      NextAccounted(PhaseAfter(Fresh, es, n - 1), After(es, n - 1), es[n - 1],
                    Finished(es, n - 1), Bad(es, n - 1), SuiteCounters(es, n - 1));
    }
  }

  /** Every started test is finished, but for the one that is active. */
  lemma {:induction false} StartedAreFinished(es: seq<Event>, n: nat)
    requires n <= |es| && PhaseAfter(Fresh, es, n) != Stuck
    ensures |StartedUpTo(es, n)| == Finished(es, n) + if PhaseAfter(Fresh, es, n).Active? then 1 else 0
  {
    if n > 0 {
      StartedAreFinished(es, n - 1);
    }
  }

  // ------------------------------------------------------------------ verdict

  ghost predicate AllPass(es: seq<Event>) {
    forall i :: 0 <= i < |es| && es[i].TestDone? ==> es[i].outcome == OUTCOME_PASS
  }

  lemma {:induction false} NoneBad(es: seq<Event>, n: nat)
    requires n <= |es|
    ensures Bad(es, n) == 0 <==> forall i :: 0 <= i < n && es[i].TestDone? ==> es[i].outcome == OUTCOME_PASS
  {
    if n > 0 {
      NoneBad(es, n - 1);
    }
  }

  lemma AllPassConcat(a: seq<Event>, b: seq<Event>)
    ensures AllPass(a + b) <==> AllPass(a) && AllPass(b)
  {
    if AllPass(a + b) {
      assert forall i :: 0 <= i < |a| ==> (a + b)[i] == a[i];
      assert forall i :: 0 <= i < |b| ==> (a + b)[|a| + i] == b[i];
    }
  }

  /** One more item of a segment. */
  lemma PassStep(p: Schedule, a: nat, b: nat)
    requires p.Valid() && a < b <= |p.items|
    ensures AllPass(p.TestEvents(a, b))
         == (AllPass(p.TestEvents(a, b - 1)) && (p.kinds[b - 1] == Test ==> p.DoneAt(b - 1).outcome == OUTCOME_PASS))
  {
    OneMoreItem(p, a, b);
    if p.kinds[b - 1] == Test {
      var pair := [Event.TestStart(p.items[b - 1])] + [p.DoneAt(b - 1)];
      AllPassConcat(p.TestEvents(a, b - 1), pair);
      assert pair[1] == p.DoneAt(b - 1);
    }
  }

  /** Every test from `a` up to `b` passed. */
  ghost predicate TestsPassed(p: Schedule, a: nat, b: nat)
    requires p.Valid() && b <= |p.items|
  {
    forall t: nat :: a <= t < b && p.kinds[t] == Test ==> p.DoneAt(t).outcome == OUTCOME_PASS
  }

  lemma {:induction false} TestsPass(p: Schedule, a: nat, b: nat)
    requires p.Valid() && a <= b <= |p.items|
    ensures AllPass(p.TestEvents(a, b)) == TestsPassed(p, a, b)
    decreases b
  {
    if b == a {
      assert p.TestEvents(a, b) == [];
    } else {
      TestsPass(p, a, b - 1);
      PassStep(p, a, b);
      PassedStep(p, a, b);
    }
  }

  lemma PassedStep(p: Schedule, a: nat, b: nat)
    requires p.Valid() && a < b <= |p.items|
    ensures TestsPassed(p, a, b)
         == (TestsPassed(p, a, b - 1) && (p.kinds[b - 1] == Test ==> p.DoneAt(b - 1).outcome == OUTCOME_PASS))
  {
  }

  /** In a segment every test is executed. */
  lemma SegmentRuns(p: Schedule, i: nat, b: nat)
    requires p.Valid() && i < b <= |p.items| && p.kinds[i] == TestSuite
    ensures TestsPassed(p, i + 1, b) == p.Passed(i + 1, b)
  {
    forall t: nat | i < t < b ensures p.Runs(t) == (p.kinds[t] == Test) {
      var own := p.kinds[i];
    }
  }

  lemma BlockPasses(p: Schedule, i: nat, b: nat)
    requires p.Valid() && i < b <= |p.items|
    ensures AllPass(p.Block(i, b)) <==> AllPass(p.TestEvents(i + 1, b))
  {
    var ts, start, done := p.TestEvents(i + 1, b), Event.SuiteStart(p.items[i]), Event.SuiteDone(p.items[i]);
    AllPassConcat([start], ts);
    AllPassConcat([start] + ts, [done]);
  }

  lemma BlockPassed(p: Schedule, i: nat, b: nat)
    requires p.Valid() && i < b <= |p.items| && p.kinds[i] == TestSuite
    ensures AllPass(p.Block(i, b)) == p.Passed(i + 1, b)
  {
    BlockPasses(p, i, b);
    TestsPass(p, i + 1, b);
    SegmentRuns(p, i, b);
  }

  /** One more suite. */
  lemma SuitePasses(p: Schedule, i: nat, b: nat)
    requires p.Valid() && b <= |p.items| && SegmentEnd(p.kinds, i, b)
    ensures AllPass(p.SuiteEvents(b)) == (AllPass(p.SuiteEvents(i)) && p.Passed(i + 1, b))
  {
    BlockPassed(p, i, b);
    AllPassConcat(p.SuiteEvents(i), p.Block(i, b));
    OneMoreSuite(p, i, b);
  }

  lemma SegmentFound(ks: seq<Kind>, i: nat, b: nat)
    requires b <= |ks| && SuiteIndex(ks, b - 1) == i && (b < |ks| ==> ks[b] == TestSuite)
    ensures SegmentEnd(ks, i, b)
  {
  }

  lemma {:induction false} SuitesPass(p: Schedule, b: nat)
    requires p.Valid() && b <= |p.items| && (b < |p.items| ==> p.kinds[b] == TestSuite)
    ensures AllPass(p.SuiteEvents(b)) == p.Passed(0, b)
    decreases b
  {
    var i := SuiteIndex(p.kinds, b - 1);
    if i >= 0 {
      SuitesPass(p, i);
      SegmentFound(p.kinds, i, b);
      SuitePasses(p, i, b);
      OneMoreSuite(p, i, b);
    }
  }

  lemma RunPasses(p: Schedule)
    requires p.Valid()
    ensures Bad(p.RunEvents(), |p.RunEvents()|) == 0 <==> p.Passed(0, |p.items|)
  {
    var init, es := [Event.Init(Rank(p.kinds, |p.kinds|, OnlyTests))], p.SuiteEvents(|p.items|);
    SuitesPass(p, |p.items|);
    AllPassConcat(init, es);
    AllPassConcat(init + es, [Event.Done]);
    NoneBad(p.RunEvents(), |p.RunEvents()|);
  }

  // ---------------------------------------------------------- the whole report

  /** The lines that a full run prints. */
  ghost function Printout(p: Schedule): seq<Line>
    requires p.Valid()
  {
    After(p.RunEvents(), |p.RunEvents()|).lines
  }

  lemma {:induction false} LinesStay(es: seq<Event>, n: nat)
    requires 1 <= n <= |es| && es[0].Init?
    ensures var ls := After(es, n).lines; ls != [] && ls[0] == Plan(es[0].total)
  {
    if n > 1 {
      LinesStay(es, n - 1);
    } else {
      assert After(es, 0) == START;
    }
  }

  /** Plan and numbering: the plan, which is the number of visible tests, is the first
      line; the result lines are numbered 1 to N without gaps, where N is the number of
      executed tests; and the plan is N if and only if every test follows some suite. */
  lemma PlanAndNumbering(p: Schedule)
    requires p.Valid()
    ensures var ls, ran := Printout(p), |SuiteTests(p.items, p.kinds, |p.items|)|;
            && ls != [] && ls[0].Plan? && Numbers(ls) == UpTo(ran)
            && (ls[0].total == ran
                <==> forall t :: 0 <= t < |p.items| && p.kinds[t] == Test ==> SuiteIndex(p.kinds, t) >= 0)
  {
    var es := p.RunEvents();
    RunShape(p);
    AccountsKept(es, |es|);
    StartedAreFinished(es, |es|);
    RunExecutes(p);
    LinesStay(es, |es|);
    PlanIsExecuted(p.items, p.kinds, |p.items|);
  }

  /** The last line of a run that ends in Done. */
  lemma LastLine(es: seq<Event>)
    requires es != [] && es[|es| - 1] == Event.Done
    ensures var st := After(es, |es|);
            && st.lines != []
            && st.lines[|st.lines| - 1] == if st.failed == 0 then AllPassed else SomeFailed(st.failed, st.tests)
  {
  }

  /** Verdict and conservation: the report says that all tests passed if and only if
      every executed test did, which is when the run returns PASS; otherwise its last
      line has the number of executed tests and of those that failed, and the failures
      that the suites report add up to the latter. */
  lemma Verdict(p: Schedule)
    requires p.Valid()
    ensures var ls, ran := Printout(p), |SuiteTests(p.items, p.kinds, |p.items|)|;
            var bad := SuiteFailures(ls);
            && ls != [] && ls[|ls| - 1] == (if p.Passed(0, |p.items|) then AllPassed else SomeFailed(bad, ran))
            && (bad == 0 <==> p.Passed(0, |p.items|))
  {
    var es := p.RunEvents();
    RunShape(p);
    AccountsKept(es, |es|);
    StartedAreFinished(es, |es|);
    RunExecutes(p);
    RunPasses(p);
    LastLine(es);
  }

  // ------------------------------------------- a run that does not come to its end

  predicate IsVerdict(l: Line) {
    l.AllPassed? || l.SomeFailed?
  }

  /** A report says what became of the run if and only if the run came to its end. */
  lemma {:induction false} VerdictAtEndOnly(es: seq<Event>, n: nat)
    requires n <= |es| && PhaseAfter(Fresh, es, n) != Stuck
    ensures (exists l :: l in After(es, n).lines && IsVerdict(l)) <==> PhaseAfter(Fresh, es, n) == Closed
  {
    if n > 0 {
      VerdictAtEndOnly(es, n - 1);
      VerdictStep(After(es, n - 1), es[n - 1]);
    }
  }

  /** Only the end of the run prints a verdict. */
  lemma VerdictStep(st: State, e: Event)
    ensures (exists l :: l in Step(st, e).lines && IsVerdict(l)) <==> e.Done? || exists l :: l in st.lines && IsVerdict(l)
  {
    var more := Step(st, e).lines;
    assert st.lines <= more;
    if e.Done? {
      assert more[|more| - 1] in more && IsVerdict(more[|more| - 1]);
    }
  }

  /** The lines that a run has printed when the test at `t` ends the process. */
  ghost function CutPrintout(p: Schedule, t: nat): seq<Line>
    requires p.Valid() && t < |p.items| && p.Runs(t)
  {
    After(p.CutEvents(t), |p.CutEvents(t)|).lines
  }

  lemma {:induction false} RankGrows(ks: seq<Kind>, a: nat, b: nat)
    requires a <= b <= |ks|
    ensures Rank(ks, a, OnlyTests) <= Rank(ks, b, OnlyTests)
  {
    if a < b {
      RankGrows(ks, a, b - 1);
    }
  }

  /** When a test ends the process, the report is numbered without gaps up to the test
      before it, it lacks results that its plan announced, and it has no verdict. */
  lemma CutReport(p: Schedule, t: nat)
    requires p.Valid() && t < |p.items| && p.Runs(t)
    ensures var ls, ran := CutPrintout(p, t), |SuiteTests(p.items, p.kinds, t)|;
            && ls != [] && ls[0].Plan? && Numbers(ls) == UpTo(ran) && ran < ls[0].total
            && forall l :: l in ls ==> !IsVerdict(l)
  {
    var es := p.CutEvents(t);
    CutShape(p, t);
    AccountsKept(es, |es|);
    StartedAreFinished(es, |es|);
    CutExecutes(p, t);
    LinesStay(es, |es|);
    VerdictAtEndOnly(es, |es|);
    PlanIsExecuted(p.items, p.kinds, t + 1);
    RankGrows(p.kinds, t + 1, |p.kinds|);
  }
}
