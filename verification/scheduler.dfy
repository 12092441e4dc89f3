/** The scheduler: cutting the list into suites and running every test (src/main.c). */
module Scheduling {
  import opened Text
  import opened Items
  import opened Channel
  import opened Tap
  import opened Life
  import opened Running
  import opened Forking

  // ------------------------------------------------ what a run has to report

  /** A list that is ready to run: its items, their kinds, the behaviour of each test
      with the callbacks of its suite, and the run mode. */
  datatype Schedule = Schedule(items: seq<Item>, kinds: seq<Kind>, cases: seq<Case>, forking: bool) {

    ghost predicate Valid() {
      |items| == |kinds| == |cases|
    }

    /** The report of the test at `t`. */
    ghost function DoneAt(t: nat): Event
      requires Valid() && t < |items|
    {
      if forking then ForkedDone(cases[t], items[t]) else SingleDone(cases[t], items[t])
    }

    /** What is reported of the tests from `a` up to `b`. */
    ghost function TestEvents(a: nat, b: nat): seq<Event>
      requires Valid() && b <= |items|
      decreases b
    {
      if b <= a then []
      else TestEvents(a, b - 1)
           + if kinds[b - 1] == Test then [Event.TestStart(items[b - 1])] + [DoneAt(b - 1)] else []
    }

    /** What is reported of the suite at `i` whose segment ends at `b`: nothing when it
        has no tests. */
    ghost function Block(i: nat, b: nat): seq<Event>
      requires Valid() && i < b <= |items|
    {
      var ts := TestEvents(i + 1, b);
      if ts == [] then [] else [Event.SuiteStart(items[i])] + ts + [Event.SuiteDone(items[i])]
    }

    /** What is reported of all suites before `b`, the end of a segment. */
    ghost function SuiteEvents(b: nat): seq<Event>
      requires Valid() && b <= |items|
      decreases b
    {
      var i := SuiteIndex(kinds, b - 1);
      if i < 0 then [] else SuiteEvents(i) + Block(i, b)
    }

    /** What a whole run reports. */
    ghost function RunEvents(): seq<Event>
      requires Valid()
    {
      [Event.Init(Rank(kinds, |kinds|, OnlyTests))] + SuiteEvents(|items|) + [Event.Done]
    }

    /** The item at `t` is a test of some suite, so a run executes it. */
    predicate Runs(t: nat)
      requires t < |kinds|
    {
      kinds[t] == Test && SuiteIndex(kinds, t) >= 0
    }

    /** What the process of the scheduler itself writes while the test at `t` runs:
        everything that its callbacks print, or nothing when the test has its own process. */
    function WrittenAt(t: nat): seq<Frame>
      requires t < |cases|
    {
      if forking then [] else WrittenBy(Called(cases[t]), SINGLE)
    }

    /** What it writes for the executed tests from `a` up to `b`, in list order. */
    function WrittenBetween(a: nat, b: nat): seq<Frame>
      requires b <= |kinds| == |cases|
      decreases b
    {
      if b <= a then [] else WrittenBetween(a, b - 1) + if Runs(b - 1) then WrittenAt(b - 1) else []
    }

    /** All that the callbacks of the executed tests from `a` up to `b` print, one after the
        other; tests with a process of their own write to a pipe of their own. */
    function PrintedBetween(a: nat, b: nat): string
      requires b <= |kinds| == |cases|
      decreases b
    {
      if b <= a || forking then ""
      else PrintedBetween(a, b - 1) + if Runs(b - 1) then Printed(Called(cases[b - 1])) else ""
    }

    /** Every executed test from `a` up to `b` passed. */
    ghost predicate Passed(a: nat, b: nat)
      requires Valid() && b <= |items|
    {
      forall t: nat :: a <= t < b && Runs(t) ==> DoneAt(t).outcome == OUTCOME_PASS
    }

    /** In forking mode the output of every executed test can be reported. */
    ghost predicate Reportable()
      requires Valid()
    {
      forking ==> forall t: nat :: t < |items| && Runs(t) ==> Printable(cases[t], items[t])
    }

    /** The output of every executed test of the suite at `k` can be reported. */
    ghost predicate SuiteReportable(k: nat)
      requires Valid()
    {
      forking ==>
        forall t: nat :: t < |items| && Runs(t) && SuiteIndex(kinds, t) == k ==> Printable(cases[t], items[t])
    }

    /** In single mode no executed test from `a` up to `b` ends the process. */
    ghost predicate Alive(a: nat, b: nat)
      requires Valid() && b <= |items|
    {
      !forking ==> forall t: nat :: a <= t < b && Runs(t) ==> Survives(cases[t])
    }

    ghost predicate Harmless()
      requires Valid()
    {
      Alive(0, |items|)
    }

    /** The status with which the test at `t` ends the process. */
    function EndOf(t: nat): WaitStatus
      requires t < |cases| && !Survives(cases[t])
    {
      if BodyEnd(cases[t]).Terminates? then BodyEnd(cases[t]).status else TeardownEnd(cases[t]).status
    }

    /** What is reported of the suite at `k` when its test at `t` ends the process: the
        start of that test is the last event. */
    ghost function CutShort(k: nat, t: nat): seq<Event>
      requires Valid() && k < t < |items|
    {
      [Event.SuiteStart(items[k])] + TestEvents(k + 1, t) + [Event.TestStart(items[t])]
    }

    /** What is reported of a whole run when the test at `t` ends the process. */
    ghost function CutEvents(t: nat): seq<Event>
      requires Valid() && t < |items| && Runs(t)
    {
      var k := SuiteIndex(kinds, t);
      [Event.Init(Rank(kinds, |kinds|, OnlyTests))] + (SuiteEvents(k) + CutShort(k, t))
    }
  }

  /** When no executed test prints a zero byte, the run can be reported in forking mode if
      and only if no executed test fills the buffer for its plain text. */
  lemma ReportableIffRoom(p: Schedule)
    requires p.Valid() && p.forking
    requires forall t: nat :: t < |p.items| && p.Runs(t) ==> PrintsNoZero(p.cases[t])
    ensures p.Reportable()
       <==> forall t: nat :: t < |p.items| && p.Runs(t) ==> !FillsBuffer(Trimmed(PiecesOf(p.cases[t])))
  {
    forall t: nat | t < |p.items| && p.Runs(t)
      ensures Printable(p.cases[t], p.items[t]) == !FillsBuffer(Trimmed(PiecesOf(p.cases[t])))
    {
      PrintableIffRoom(p.cases[t], p.items[t]);
    }
  }

  /** `b` is the end of the segment that starts at the suite `i`. */
  ghost predicate SegmentEnd(ks: seq<Kind>, i: nat, b: nat) {
    && i < b <= |ks| && ks[i] == TestSuite && (b < |ks| ==> ks[b] == TestSuite)
    && forall m :: i < m < b ==> ks[m] != TestSuite
  }

  /** The events of one more item of a segment. */
  lemma OneMoreItem(p: Schedule, a: nat, b: nat)
    requires p.Valid() && a < b <= |p.items|
    ensures p.kinds[b - 1] == Test ==>
      p.TestEvents(a, b) == p.TestEvents(a, b - 1) + ([Event.TestStart(p.items[b - 1])] + [p.DoneAt(b - 1)])
    ensures p.kinds[b - 1] != Test ==> p.TestEvents(a, b) == p.TestEvents(a, b - 1)
  {
  }

  lemma {:induction false} NoTests(p: Schedule, a: nat, b: nat, c: nat)
    requires p.Valid() && a <= b <= c <= |p.items| && forall m :: b <= m < c ==> p.kinds[m] != Test
    ensures p.TestEvents(a, b) == p.TestEvents(a, c)
    decreases c
  {
    if b < c {
      NoTests(p, a, b, c - 1);
      OneMoreItem(p, a, c);
    }
  }

  lemma OneWrites(p: Schedule, t: nat)
    requires p.Valid() && t < |p.items|
    ensures EncodeAll(p.WrittenAt(t)) == if p.forking then "" else Printed(Called(p.cases[t]))
    ensures forall f :: f in p.WrittenAt(t) ==> f.Out?
  {
    SingleWritesOutput(Called(p.cases[t]));
  }

  lemma OneMoreWritten(p: Schedule, a: nat, b: nat)
    requires p.Valid() && a <= b < |p.items| && p.Runs(b)
    ensures EncodeAll(p.WrittenBetween(a, b + 1)) == EncodeAll(p.WrittenBetween(a, b)) + EncodeAll(p.WrittenAt(b))
  {
    EncodeConcat(p.WrittenBetween(a, b), p.WrittenAt(b));
  }

  /** What the process of the scheduler writes is what the callbacks print, and nothing in
      forking mode. */
  lemma {:induction false} OnlyOutputWritten(p: Schedule, a: nat, b: nat)
    requires p.Valid() && b <= |p.items|
    ensures EncodeAll(p.WrittenBetween(a, b)) == p.PrintedBetween(a, b)
    decreases b
  {
    if b > a {
      OnlyOutputWritten(p, a, b - 1);
      if p.Runs(b - 1) {
        OneMoreWritten(p, a, b - 1);
        OneWrites(p, b - 1);
      } else {
        assert p.WrittenBetween(a, b - 1) + [] == p.WrittenBetween(a, b - 1);
      }
    }
  }

  /** The same behind what was written before. */
  lemma OutputGrows(p: Schedule, n: nat, before: seq<Frame>)
    requires p.Valid() && n <= |p.items|
    ensures EncodeAll(before + p.WrittenBetween(0, n)) == EncodeAll(before) + p.PrintedBetween(0, n)
  {
    OnlyOutputWritten(p, 0, n);
    EncodeConcat(before, p.WrittenBetween(0, n));
  }

  /** Items that are not executed change nothing. */
  lemma NoneRun(p: Schedule, a: nat, b: nat, c: nat)
    requires p.Valid() && a <= b <= c <= |p.items| && forall m: nat :: b <= m < c ==> !p.Runs(m)
    ensures p.Passed(a, b) == p.Passed(a, c) && p.WrittenBetween(a, b) == p.WrittenBetween(a, c)
    ensures p.Alive(a, b) == p.Alive(a, c)
  {
    NoneFails(p, a, b, c);
    NoneWrites(p, a, b, c);
  }

  lemma NoneFails(p: Schedule, a: nat, b: nat, c: nat)
    requires p.Valid() && a <= b <= c <= |p.items| && forall m: nat :: b <= m < c ==> !p.Runs(m)
    ensures p.Passed(a, b) == p.Passed(a, c) && p.Alive(a, b) == p.Alive(a, c)
  {
  }

  lemma {:induction false} NoneWrites(p: Schedule, a: nat, b: nat, c: nat)
    requires p.Valid() && a <= b <= c <= |p.items| && forall m: nat :: b <= m < c ==> !p.Runs(m)
    ensures p.WrittenBetween(a, b) == p.WrittenBetween(a, c)
    decreases c
  {
    if b < c {
      NoneWrites(p, a, b, c - 1);
    }
  }

  /** What two stretches write, with an item between them that is not executed. */
  lemma {:induction false} WrittenAround(p: Schedule, k: nat, n: nat)
    requires p.Valid() && k < n <= |p.items| && !p.Runs(k)
    ensures p.WrittenBetween(0, n) == p.WrittenBetween(0, k) + p.WrittenBetween(k + 1, n)
    decreases n
  {
    if n > k + 1 {
      WrittenAround(p, k, n - 1);
      Associated(p.WrittenBetween(0, k), p.WrittenBetween(k + 1, n - 1), if p.Runs(n - 1) then p.WrittenAt(n - 1) else []);
    }
  }

  /** What the items of a stretch have reported and written, whether all executed tests
      among them passed, and whether none of them ended the process. */
  datatype Mark = Mark(events: seq<Event>, frames: seq<Frame>, passed: bool, alive: bool)

  ghost function MarkOf(p: Schedule, a: nat, b: nat): Mark
    requires p.Valid() && b <= |p.items|
  {
    Mark(p.TestEvents(a, b), p.WrittenBetween(a, b), p.Passed(a, b), p.Alive(a, b))
  }

  /** The mark with the executed test at `j` behind it. */
  ghost function WithTest(m: Mark, p: Schedule, j: nat): Mark
    requires p.Valid() && j < |p.items|
  {
    Mark(m.events + ([Event.TestStart(p.items[j])] + [p.DoneAt(j)]), m.frames + p.WrittenAt(j),
         m.passed && p.DoneAt(j).outcome == OUTCOME_PASS, m.alive && (p.forking || Survives(p.cases[j])))
  }

  /** In a suite, one more test adds its events and what it writes. */
  lemma TestAdded(p: Schedule, k: nat, j: nat)
    requires p.Valid() && k < j < |p.items| && p.Runs(j)
    ensures p.TestEvents(k + 1, j + 1) == p.TestEvents(k + 1, j) + ([Event.TestStart(p.items[j])] + [p.DoneAt(j)])
    ensures p.WrittenBetween(k + 1, j + 1) == p.WrittenBetween(k + 1, j) + p.WrittenAt(j)
  {
  }

  lemma OneMorePassed(p: Schedule, a: nat, j: nat)
    requires p.Valid() && a <= j < |p.items| && p.Runs(j)
    ensures p.Passed(a, j + 1) == (p.Passed(a, j) && p.DoneAt(j).outcome == OUTCOME_PASS)
    ensures p.Alive(a, j + 1) == (p.Alive(a, j) && (p.forking || Survives(p.cases[j])))
  {
  }

  lemma MarkAfterTest(p: Schedule, k: nat, j: nat)
    requires p.Valid() && k < j < |p.items| && p.Runs(j)
    ensures MarkOf(p, k + 1, j + 1) == WithTest(MarkOf(p, k + 1, j), p, j)
  {
    TestAdded(p, k, j);
    OneMorePassed(p, k + 1, j);
  }

  /** Items that are not tests add nothing. */
  lemma MarkSkipped(p: Schedule, a: nat, j: nat, n: nat)
    requires p.Valid() && a <= j <= n <= |p.items| && forall m :: j <= m < n ==> p.kinds[m] != Test
    ensures MarkOf(p, a, n) == MarkOf(p, a, j)
  {
    NoTests(p, a, j, n);
    NoneRun(p, a, j, n);
  }

  lemma MarkPassedOver(p: Schedule, a: nat, j: nat)
    requires p.Valid() && a <= j < |p.items| && p.kinds[j] != Test
    ensures MarkOf(p, a, j + 1) == MarkOf(p, a, j)
  {
    MarkSkipped(p, a, j, j + 1);
  }

  /** Items without content do not leave the suite, and they add nothing. */
  lemma HiddenInSuite(p: Schedule, k: nat, j: nat, n: nat)
    requires p.Valid() && k <= j < n <= |p.items| && SuiteIndex(p.kinds, j) == k
    requires forall m :: j < m < n ==> p.kinds[m] == Skip
    ensures SuiteIndex(p.kinds, n - 1) == k && MarkOf(p, k + 1, n) == MarkOf(p, k + 1, j + 1)
  {
    HiddenBetween(p.kinds, j, n);
    MarkSkipped(p, k + 1, j + 1, n);
  }

  // ------------------------------------------------------------ the scheduler

  /** What the scheduler relies on during the whole run: the list and the callbacks
      of every test stay as they are. */
  ghost predicate Listed(p: Schedule, runner: Runner)
    reads p.items, runner.defaultSuite
  {
    && p.Valid() && DoublyLinked(p.items) && Kinds(p.items) == p.kinds
    && forall t :: 0 <= t < |p.items| ==> p.cases[t] == runner.CaseAt(p.items, t)
  }

  /** What a process has reported and written so far. */
  datatype Log = Log(trace: seq<Event>, frames: seq<Frame>)

  ghost function LogOf(runner: Runner): Log
    reads runner`frames, runner.report
  {
    Log(runner.report.trace, runner.frames)
  }

  /** Where run_suite stands after the items of the mark `m`: the logs, whether the first
      test is still to come, and the code. */
  ghost predicate Stands(now: Log, before: Log, suite: Item, m: Mark, first: bool, code: int) {
    && m.alive && first == (m.events == [])
    && now == Log(before.trace + (if m.events == [] then [] else [Event.SuiteStart(suite)] + m.events),
                  before.frames + m.frames)
    && code == if m.passed then OUTCOME_PASS else OUTCOME_FAIL
  }

  /** One more test. */
  lemma StandsNext(p: Schedule, j: nat, mid: Log, now: Log, before: Log, suite: Item, m: Mark, code: int, newCode: int)
    requires p.Valid() && j < |p.items| && m.alive && (p.forking || Survives(p.cases[j]))
    requires mid == Log(before.trace + ([Event.SuiteStart(suite)] + m.events), before.frames + m.frames)
    requires now == Log(mid.trace + ([Event.TestStart(p.items[j])] + [p.DoneAt(j)]), mid.frames + p.WrittenAt(j))
    requires code == if m.passed then OUTCOME_PASS else OUTCOME_FAIL
    requires newCode == if p.DoneAt(j).outcome != OUTCOME_PASS then OUTCOME_FAIL else code
    ensures Stands(now, before, suite, WithTest(m, p, j), false, newCode) == true
  {
    var one := [Event.TestStart(p.items[j])] + [p.DoneAt(j)];
    Associated(before.trace, [Event.SuiteStart(suite)] + m.events, one);
    Associated([Event.SuiteStart(suite)], m.events, one);
    Associated(before.frames, m.frames, p.WrittenAt(j));
  }

  /** The process ended in the test at `t` of the suite at `k`, the first one that ends it. */
  ghost predicate StopsIn(p: Schedule, k: nat, t: nat, before: Log, now: Log, c: Control)
    requires p.Valid()
  {
    && k < t < |p.items| && p.Runs(t) && SuiteIndex(p.kinds, t) == k
    && !p.forking && p.Alive(k + 1, t) && !Survives(p.cases[t]) && c == Ended(p.EndOf(t))
    && now == Log(before.trace + p.CutShort(k, t), before.frames + p.WrittenBetween(k + 1, t + 1))
  }

  /** The same for a whole run, behind the initialisation of the report. */
  ghost predicate LoopStops(p: Schedule, t: nat, before: Log, now: Log, c: Control)
    requires p.Valid()
  {
    && t < |p.items| && p.Runs(t)
    && !p.forking && p.Alive(0, t) && !Survives(p.cases[t]) && c == Ended(p.EndOf(t))
    && var k := SuiteIndex(p.kinds, t);
       now == Log(before.trace + (p.SuiteEvents(k) + p.CutShort(k, t)), before.frames + p.WrittenBetween(0, t + 1))
  }

  /** The same for a whole run. */
  ghost predicate RunStops(p: Schedule, t: nat, before: Log, now: Log, c: Control)
    requires p.Valid()
  {
    && t < |p.items| && p.Runs(t)
    && !p.forking && p.Alive(0, t) && !Survives(p.cases[t]) && c == Ended(p.EndOf(t))
    && now == Log(before.trace + p.CutEvents(t), before.frames + p.WrittenBetween(0, t + 1))
  }

  /** The logs of a suite whose test at `t` ends the process. */
  lemma TestCut(p: Schedule, k: nat, t: nat, before: Log, now: Log, c: Control)
    requires p.Valid() && k < t < |p.items| && p.Runs(t) && SuiteIndex(p.kinds, t) == k
    requires !p.forking && p.Alive(k + 1, t) && !Survives(p.cases[t]) && c == Ended(p.EndOf(t))
    requires now == Log(before.trace + ([Event.SuiteStart(p.items[k])] + p.TestEvents(k + 1, t)) + [Event.TestStart(p.items[t])],
                        before.frames + p.WrittenBetween(k + 1, t) + p.WrittenAt(t))
    ensures StopsIn(p, k, t, before, now, c) == true
  {
    TestAdded(p, k, t);
    Associated(before.trace, [Event.SuiteStart(p.items[k])] + p.TestEvents(k + 1, t), [Event.TestStart(p.items[t])]);
    Associated(before.frames, p.WrittenBetween(k + 1, t), p.WrittenAt(t));
  }

  /** Where the main loop stands before the item at `j`. */
  ghost predicate TopStands(p: Schedule, j: nat, code: int, before: Log, now: Log)
    requires p.Valid() && j <= |p.items|
  {
    && (SuiteIndex(p.kinds, j - 1) < 0 || j == |p.items| || p.kinds[j] == TestSuite)
    && p.Alive(0, j) && now == Log(before.trace + p.SuiteEvents(j), before.frames + p.WrittenBetween(0, j))
    && code == if p.Passed(0, j) then OUTCOME_PASS else OUTCOME_FAIL
  }

  /** One more suite, from `j` up to `n`. */
  lemma TopNext(p: Schedule, j: nat, n: nat, code: int, suiteCode: int, before: Log, mid: Log, now: Log)
    requires p.Valid() && n <= |p.items| && SegmentEnd(p.kinds, j, n) && TopStands(p, j, code, before, mid)
    requires now == Log(mid.trace + p.Block(j, n), mid.frames + p.WrittenBetween(j + 1, n)) && p.Alive(j + 1, n)
    requires suiteCode == if p.Passed(j + 1, n) then OUTCOME_PASS else OUTCOME_FAIL
    ensures TopStands(p, n, if suiteCode != OUTCOME_PASS then suiteCode else code, before, now) == true
  {
    OneMoreSuite(p, j, n);
    WrittenAround(p, j, n);
    AliveAround(p, j, n);
    Associated(before.trace, p.SuiteEvents(j), p.Block(j, n));
    Associated(before.frames, p.WrittenBetween(0, j), p.WrittenBetween(j + 1, n));
  }

  lemma AliveAround(p: Schedule, j: nat, n: nat)
    requires p.Valid() && j < n <= |p.items| && p.kinds[j] == TestSuite
    ensures p.Alive(0, n) == (p.Alive(0, j) && p.Alive(j + 1, n))
  {
  }

  /** The logs of a suite that is cut short, behind those of the suites before it. */
  lemma CutLogs(p: Schedule, k: nat, t: nat, before: Log, mid: Log, now: Log)
    requires p.Valid() && k < t < |p.items| && p.kinds[k] == TestSuite
    requires mid == Log(before.trace + p.SuiteEvents(k), before.frames + p.WrittenBetween(0, k))
    requires now == Log(mid.trace + p.CutShort(k, t), mid.frames + p.WrittenBetween(k + 1, t + 1))
    ensures now == Log(before.trace + (p.SuiteEvents(k) + p.CutShort(k, t)), before.frames + p.WrittenBetween(0, t + 1))
  {
    WrittenAround(p, k, t + 1);
    Associated(before.trace, p.SuiteEvents(k), p.CutShort(k, t));
    Associated(before.frames, p.WrittenBetween(0, k), p.WrittenBetween(k + 1, t + 1));
  }

  /** A suite that a test cuts short cuts the run short. */
  lemma SuiteCut(p: Schedule, k: nat, t: nat, before: Log, mid: Log, now: Log, c: Control)
    requires p.Valid() && k < |p.items| && p.kinds[k] == TestSuite && StopsIn(p, k, t, mid, now, c)
    requires p.Alive(0, k) && mid == Log(before.trace + p.SuiteEvents(k), before.frames + p.WrittenBetween(0, k))
    ensures LoopStops(p, t, before, now, c) == true
  {
    CutLogs(p, k, t, before, mid, now);
    AliveAround(p, k, t);
  }

  /** The main loop is cut short: the run is, behind the initialisation of the report. */
  lemma RunCut(p: Schedule, t: nat, before: Log, mid: Log, now: Log, c: Control)
    requires p.Valid() && LoopStops(p, t, mid, now, c)
    requires mid == Log(before.trace + [Event.Init(Rank(p.kinds, |p.kinds|, OnlyTests))], before.frames)
    ensures RunStops(p, t, before, now, c) == true
  {
    var k := SuiteIndex(p.kinds, t);
    Associated(before.trace, [Event.Init(Rank(p.kinds, |p.kinds|, OnlyTests))], p.SuiteEvents(k) + p.CutShort(k, t));
  }

  class Scheduler {
    const parent: Parent
    const forking: bool

    constructor (parent: Parent, forking: bool)
      ensures this.parent == parent && this.forking == forking
    {
      this.parent, this.forking := parent, forking;
    }

    /** Between two tests. */
    ghost predicate Idle()
      reads parent.runner, parent.runner.store, parent.runner.report
    {
      parent.Valid() && parent.runner.Ready()
    }

    ghost function Footprint(): set<object> {
      parent.runner.Footprint() + {parent.extraOutput, parent.stdioBuffer, parent.errorBuffer}
    }

    ghost function Logs(): Log
      reads parent.runner`frames, parent.runner.report
    {
      LogOf(parent.runner)
    }

    /** What one executed test adds to the logs. */
    ghost function LogWithTest(log: Log, p: Schedule, t: nat): Log
      requires p.Valid() && t < |p.items|
    {
      Log(log.trace + ([Event.TestStart(p.items[t])] + [p.DoneAt(t)]), log.frames + p.WrittenAt(t))
    }

    /** What an executed test that ends the process adds to the logs. */
    ghost function WithCutTest(log: Log, p: Schedule, t: nat): Log
      requires p.Valid() && t < |p.items|
    {
      Log(log.trace + [Event.TestStart(p.items[t])], log.frames + p.WrittenAt(t))
    }

    /** Run one test in the process of the scheduler. */
    method RunSingle(test: Item, ghost p: Schedule, ghost t: nat) returns (c: Control, code: int)
      requires Idle() && Listed(p, parent.runner) && !p.forking && t < |p.items| && p.items[t] == test
      modifies Footprint()
      ensures c == Returned ==>
        Idle() && code == p.DoneAt(t).outcome && Logs() == LogWithTest(old(Logs()), p, t)
      ensures c == Returned <==> Survives(p.cases[t])
      ensures c != Returned ==>
        parent.runner.Valid() && c == Ended(p.EndOf(t)) && Logs() == WithCutTest(old(Logs()), p, t)
    {
      ghost var cs := p.cases[t];
      c, code := parent.runner.RunTestSingle(test, p.items, t, cs);
      LifeCycle(cs, SINGLE, test);
    }

    /** Run one test in the current mode. */
    method RunOne(test: Item, ghost p: Schedule, ghost t: nat) returns (c: Control, code: int)
      requires Idle() == true && Listed(p, parent.runner) == true && p.forking == forking
      requires t < |p.items| && p.items[t] == test && (forking ==> Printable(p.cases[t], test))
      modifies Footprint()
      ensures c == Returned ==>
        Idle() == true && code == p.DoneAt(t).outcome && Logs() == LogWithTest(old(Logs()), p, t)
      ensures c == Returned <==> forking || Survives(p.cases[t])
      ensures c != Returned ==>
        parent.runner.Valid() && c == Ended(p.EndOf(t)) && Logs() == WithCutTest(old(Logs()), p, t)
    {
      if forking {
        c := Returned;
        code := parent.RunTestForking(test, p.items, t, p.cases[t]);
      } else {
        c, code := RunSingle(test, p, t);
      }
    }

    /** The state of run_suite for the suite at `k` after the items before `j`. */
    ghost predicate InSuite(p: Schedule, k: nat, j: nat, first: bool, code: int, before: Log)
      requires p.Valid() && k < j <= |p.items|
      reads parent.runner`frames, parent.runner.report
    {
      Stands(Logs(), before, p.items[k], MarkOf(p, k + 1, j), first, code)
    }

    /** Announce a suite before its first test. */
    method Announce(suite: Item, first: bool, ghost m: Mark, ghost code: int, ghost before: Log, ghost p: Schedule)
      requires Idle() && Listed(p, parent.runner) && Stands(Logs(), before, suite, m, first, code)
      modifies parent.runner.report
      ensures Idle() == true && Listed(p, parent.runner) == true
      ensures Logs() == Log(before.trace + ([Event.SuiteStart(suite)] + m.events), before.frames + m.frames)
    {
      if first {
        parent.runner.report.SuiteStart(suite);
      }
    }

    /** One test of a suite: announce the suite before its first one, run the test,
        and remember a failure. */
    method RunItem(suite: Item, test: Item, first: bool, code: int, ghost p: Schedule, ghost j: nat,
                   ghost m: Mark, ghost before: Log)
      returns (c: Control, newCode: int)
      requires Idle() == true && Listed(p, parent.runner) == true && p.forking == forking
      requires j < |p.items| && p.items[j] == test && (forking ==> Printable(p.cases[j], test))
      requires Stands(Logs(), before, suite, m, first, code) == true
      modifies Footprint()
      ensures c == Returned ==> Idle() == true
      ensures c == Returned ==> Stands(Logs(), before, suite, WithTest(m, p, j), false, newCode) == true
      ensures c == Returned <==> forking || Survives(p.cases[j])
      ensures c != Returned ==>
        && parent.runner.Valid() && c == Ended(p.EndOf(j))
        && Logs() == Log(before.trace + ([Event.SuiteStart(suite)] + m.events) + [Event.TestStart(test)],
                         before.frames + m.frames + p.WrittenAt(j))
    {
      Announce(suite, first, m, code, before, p);
      ghost var mid := Logs();
      var outcome;
      c, outcome := RunOne(test, p, j);
      newCode := if outcome != OUTCOME_PASS then OUTCOME_FAIL else code;
      if c == Returned {
        StandsNext(p, j, mid, Logs(), before, suite, m, code, newCode);
      }
    }

    /** Items without content change nothing. */
    lemma InSuiteSkipped(p: Schedule, k: nat, j: nat, n: nat, first: bool, code: int, before: Log)
      requires p.Valid() && k < j <= n <= |p.items| && MarkOf(p, k + 1, n) == MarkOf(p, k + 1, j)
      requires InSuite(p, k, j, first, code, before) == true
      ensures InSuite(p, k, n, first, code, before) == true
    {
    }

    /** The next item with content. */
    method NextListed(it: Item, ghost p: Schedule, ghost j: nat) returns (next: Item?, ghost n: nat)
      requires Listed(p, parent.runner) && j < |p.items| && p.items[j] == it
      ensures j < n <= |p.items| && next == ItemAt(p.items, n)
      ensures forall m :: j < m < n ==> p.kinds[m] == Skip
    {
      next, n := GetRealNext(it, p.items, j);
    }

    /** The suite at `k` is visited up to the item at `n`, which is `next`. */
    ghost predicate AtItem(p: Schedule, k: nat, n: nat, next: Item?, first: bool, code: int, before: Log)
      reads parent.runner`frames, parent.runner.report
    {
      && p.Valid() && k < n <= |p.items| && next == ItemAt(p.items, n) && SuiteIndex(p.kinds, n - 1) == k
      && InSuite(p, k, n, first, code, before)
    }

    lemma MovedTo(p: Schedule, k: nat, j: nat, n: nat, next: Item?, first: bool, code: int, before: Log)
      requires p.Valid() && k <= j < n <= |p.items| && next == ItemAt(p.items, n) && SuiteIndex(p.kinds, j) == k
      requires forall m :: j < m < n ==> p.kinds[m] == Skip
      requires InSuite(p, k, j + 1, first, code, before) == true
      ensures AtItem(p, k, n, next, first, code, before) == true
    {
      HiddenInSuite(p, k, j, n);
      InSuiteSkipped(p, k, j + 1, n, first, code, before);
    }

    /** The same; the list and the process stay as they are. */
    method NextKeeping(it: Item, ghost p: Schedule, ghost j: nat) returns (next: Item?, ghost n: nat)
      requires Idle() == true && Listed(p, parent.runner) == true && j < |p.items| && p.items[j] == it
      ensures Idle() == true && Listed(p, parent.runner) == true
      ensures j < n <= |p.items| && next == ItemAt(p.items, n)
      ensures forall m :: j < m < n ==> p.kinds[m] == Skip
      ensures Logs() == old(Logs())
    {
      next, n := NextListed(it, p, j);
    }

    /** The step to the next item of a suite. */
    method NextItem(it: Item, ghost p: Schedule, ghost k: nat, ghost j: nat,
                    ghost first: bool, ghost code: int, ghost before: Log)
      returns (next: Item?, ghost n: nat)
      requires Idle() == true && Listed(p, parent.runner) == true
      requires k <= j < |p.items| && p.items[j] == it && SuiteIndex(p.kinds, j) == k
      requires InSuite(p, k, j + 1, first, code, before) == true
      ensures Idle() == true && Listed(p, parent.runner) == true
      ensures j < n && AtItem(p, k, n, next, first, code, before) == true
    {
      next, n := NextKeeping(it, p, j);
      MovedTo(p, k, j, n, next, first, code, before);
    }

    /** The suite at `k` is visited up to `it`, the item at `j`, which belongs to it. */
    ghost predicate Visiting(suite: Item, it: Item, first: bool, code: int, p: Schedule, k: nat, j: nat, before: Log)
      reads parent.runner, parent.runner.store, parent.runner.report, p.items, parent.runner.defaultSuite
    {
      && Idle() && Listed(p, parent.runner) && p.forking == forking && p.SuiteReportable(k)
      && k < j < |p.items| && p.items[k] == suite && p.items[j] == it && p.kinds[j] != TestSuite
      && SuiteIndex(p.kinds, j) == k && InSuite(p, k, j, first, code, before)
    }

    lemma KindAt(p: Schedule, j: nat)
      requires Listed(p, parent.runner) && j < |p.items|
      ensures p.items[j].kind == p.kinds[j]
    {
    }

    /** The process ended in the test at `t`; its report is still what it should be. */
    ghost predicate Stopped(p: Schedule, k: nat, t: nat, before: Log, c: Control)
      reads parent.runner, parent.runner.store, parent.runner.report
    {
      parent.runner.Valid() && p.Valid() && StopsIn(p, k, t, before, Logs(), c)
    }

    ghost predicate TopStopped(p: Schedule, t: nat, before: Log, c: Control)
      reads parent.runner, parent.runner.store, parent.runner.report
    {
      parent.runner.Valid() && p.Valid() && LoopStops(p, t, before, Logs(), c)
    }

    /** One item was visited: the suite goes on behind it, or the process ended there. */
    ghost predicate Visited(c: Control, first: bool, code: int, p: Schedule, k: nat, j: nat, before: Log)
      requires p.Valid() && k < j < |p.items|
      reads parent.runner, parent.runner.store, parent.runner.report
    {
      if c == Returned then Idle() && InSuite(p, k, j + 1, first, code, before) else Stopped(p, k, j, before, c)
    }

    /** Look at one item of a suite: a test is run, anything else is passed over. */
    method Visit(suite: Item, it: Item, first: bool, code: int,
                 ghost p: Schedule, ghost k: nat, ghost j: nat, ghost before: Log)
      returns (c: Control, newFirst: bool, newCode: int)
      requires Idle() == true && Listed(p, parent.runner) == true && p.forking == forking && p.SuiteReportable(k) == true
      requires k < j < |p.items| && p.items[k] == suite && p.items[j] == it && p.kinds[j] != TestSuite
      requires SuiteIndex(p.kinds, j) == k
      requires InSuite(p, k, j, first, code, before) == true
      modifies Footprint()
      ensures Visited(c, newFirst, newCode, p, k, j, before) == true
    {
      KindAt(p, j);
      if it.kind == Test {
        newFirst := false;
        c, newCode := RunItem(suite, it, first, code, p, j, MarkOf(p, k + 1, j), before);
        if c == Returned {
          MarkAfterTest(p, k, j);
        } else {
          TestCut(p, k, j, before, Logs(), c);
        }
      } else {
        c, newFirst, newCode := Returned, first, code;
        MarkPassedOver(p, k + 1, j);
        InSuiteSkipped(p, k, j, j + 1, first, code, before);
      }
    }

    /** The list is not part of what the scheduler writes to. */
    lemma ItemsApart(p: Schedule)
      ensures forall i :: 0 <= i < |p.items| ==> (p.items[i] as object) !in Footprint()
      ensures (parent.runner.defaultSuite as object) !in Footprint()
    {
    }

    /** Visit one item; the list stays as it is. */
    method VisitKeeping(suite: Item, it: Item, first: bool, code: int,
                        ghost p: Schedule, ghost k: nat, ghost j: nat, ghost before: Log)
      returns (c: Control, newFirst: bool, newCode: int)
      requires Visiting(suite, it, first, code, p, k, j, before) == true
      modifies Footprint()
      ensures Listed(p, parent.runner) == true
      ensures Visited(c, newFirst, newCode, p, k, j, before) == true
    {
      label L:
      ItemsApart(p);
      c, newFirst, newCode := Visit(suite, it, first, code, p, k, j, before);
      assert unchanged@L(parent.runner.defaultSuite);
      assert forall i :: 0 <= i < |p.items| ==> unchanged@L(p.items[i]);
    }

    /** The suite goes on at the item at `n`, or the process ended in the test at `j`. */
    ghost predicate Stepped(c: Control, first: bool, code: int, next: Item?, n: nat, p: Schedule, k: nat, j: nat, before: Log)
      reads parent.runner, parent.runner.store, parent.runner.report
    {
      if c == Returned then Idle() && j < n && AtItem(p, k, n, next, first, code, before) else Stopped(p, k, j, before, c)
    }

    /** Step to the next item, unless the process ended. */
    method StepOn(it: Item, c: Control, ghost first: bool, ghost code: int,
                  ghost p: Schedule, ghost k: nat, ghost j: nat, ghost before: Log)
      returns (next: Item?, ghost n: nat)
      requires Listed(p, parent.runner) == true && k < j < |p.items| && p.items[j] == it && SuiteIndex(p.kinds, j) == k
      requires Visited(c, first, code, p, k, j, before) == true
      ensures Listed(p, parent.runner) == true
      ensures Stepped(c, first, code, next, n, p, k, j, before) == true
    {
      next, n := null, j;
      if c == Returned {
        next, n := NextItem(it, p, k, j, first, code, before);
      }
    }

    /** Visit one item, then step to the next one. */
    method VisitAndStep(suite: Item, it: Item, first: bool, code: int,
                        ghost p: Schedule, ghost k: nat, ghost j: nat, ghost before: Log)
      returns (c: Control, newFirst: bool, newCode: int, next: Item?, ghost n: nat)
      requires Visiting(suite, it, first, code, p, k, j, before) == true
      modifies Footprint()
      ensures Listed(p, parent.runner) == true
      ensures Stepped(c, newFirst, newCode, next, n, p, k, j, before) == true
    {
      c, newFirst, newCode := VisitKeeping(suite, it, first, code, p, k, j, before);
      next, n := StepOn(it, c, newFirst, newCode, p, k, j, before);
    }

    /** Visit the items of a suite up to the next suite or the end of the list. */
    method VisitAll(suite: Item, start: Item?, ghost p: Schedule, ghost k: nat, ghost j: nat, ghost before: Log)
      returns (c: Control, first: bool, code: int, last: Item?, ghost n: nat)
      requires Idle() == true && Listed(p, parent.runner) == true && p.forking == forking && p.SuiteReportable(k) == true
      requires AtItem(p, k, j, start, true, OUTCOME_PASS, before) == true && p.items[k] == suite
      modifies Footprint()
      ensures Listed(p, parent.runner) == true
      ensures c == Returned ==> Idle() == true && SegmentEnd(p.kinds, k, n) && last == ItemAt(p.items, n)
      ensures c == Returned ==> k < n <= |p.items| && InSuite(p, k, n, first, code, before) == true
      ensures c != Returned ==> Stopped(p, k, n, before, c) == true
    {
      c, first, code, last, n := Returned, true, OUTCOME_PASS, start, j;
      while last != null && last.kind != TestSuite
        invariant c == Returned && Idle() == true && Listed(p, parent.runner) == true
        invariant AtItem(p, k, n, last, first, code, before) == true
        decreases |p.items| - n
      {
        ghost var j := n;
        c, first, code, last, n := VisitAndStep(suite, last, first, code, p, k, j, before);
        if c != Returned {
          n := j;
          return;
        }
      }
    }

    /** Close the report of a suite that had tests, those of the mark. */
    method FinishSuite(suite: Item, first: bool, ghost p: Schedule, ghost m: Mark, ghost code: int, ghost before: Log)
      requires Idle() == true && Listed(p, parent.runner) == true
      requires Stands(Logs(), before, suite, m, first, code) == true
      modifies parent.runner.report
      ensures Idle() == true && Listed(p, parent.runner) == true
      ensures Logs() == Log(before.trace + (if m.events == [] then []
                                            else [Event.SuiteStart(suite)] + m.events + [Event.SuiteDone(suite)]),
                            before.frames + m.frames)
    {
      if !first {
        parent.runner.report.SuiteDone(suite);
        Associated(before.trace, [Event.SuiteStart(suite)] + m.events, [Event.SuiteDone(suite)]);
      }
    }

    /** The state of run_suite before the first item. */
    lemma InSuiteStart(p: Schedule, k: nat)
      requires p.Valid() && k < |p.items|
      ensures InSuite(p, k, k + 1, true, OUTCOME_PASS, Logs()) == true
    {
      assert p.TestEvents(k + 1, k + 1) == [] && p.WrittenBetween(k + 1, k + 1) == [];
      assert Logs().frames + [] == Logs().frames && Logs().trace + [] == Logs().trace;
    }

    /** Run the tests of one suite. `last` is the first item after it, at `n`. */
    method RunSuite(suite: Item, ghost p: Schedule, ghost k: nat)
      returns (c: Control, code: int, last: Item?, ghost n: nat)
      requires Idle() == true && Listed(p, parent.runner) == true && p.forking == forking && p.SuiteReportable(k) == true
      requires k < |p.items| && p.items[k] == suite && p.kinds[k] == TestSuite
      modifies Footprint()
      ensures Listed(p, parent.runner) == true
      ensures c == Returned ==> Idle() == true && SegmentEnd(p.kinds, k, n) && last == ItemAt(p.items, n)
      ensures c == Returned ==>
        Logs() == Log(old(Logs()).trace + p.Block(k, n), old(Logs()).frames + p.WrittenBetween(k + 1, n))
      ensures c == Returned ==> code == if p.Passed(k + 1, n) then OUTCOME_PASS else OUTCOME_FAIL
      ensures c == Returned ==> p.Alive(k + 1, n)
      ensures c != Returned ==> Stopped(p, k, n, old(Logs()), c) == true
    {
      ghost var before := Logs();
      InSuiteStart(p, k);
      var it;
      it, n := NextItem(suite, p, k, k, true, OUTCOME_PASS, before);
      var isFirstTest;
      c, isFirstTest, code, last, n := VisitAll(suite, it, p, k, n, before);
      if c == Returned {
        FinishSuite(suite, isFirstTest, p, MarkOf(p, k + 1, n), code, before);
      }
    }

    /** The state of the main loop before the item at `j`. */
    ghost predicate AtTop(p: Schedule, j: nat, code: int, before: Log)
      requires p.Valid() && j <= |p.items|
      reads parent.runner`frames, parent.runner.report
    {
      TopStands(p, j, code, before, Logs())
    }

    /** The main loop, at a suite: run it and go to the item behind it. */
    method TopSuite(it: Item, code: int, ghost p: Schedule, ghost j: nat, ghost before: Log)
      returns (c: Control, newCode: int, next: Item?, ghost n: nat)
      requires Idle() == true && Listed(p, parent.runner) == true && p.forking == forking && p.Reportable() == true
      requires j < |p.items| && p.items[j] == it && p.kinds[j] == TestSuite && AtTop(p, j, code, before) == true
      modifies Footprint()
      ensures Listed(p, parent.runner) == true
      ensures c == Returned ==> Idle() == true && j < n <= |p.items| && next == ItemAt(p.items, n)
      ensures c == Returned ==> AtTop(p, n, newCode, before) == true
      ensures c != Returned ==> TopStopped(p, n, before, c) == true
    {
      ghost var mid := Logs();
      var suiteCode;
      c, suiteCode, next, n := RunSuite(it, p, j);
      newCode := if suiteCode != OUTCOME_PASS then suiteCode else code;
      if c == Returned {
        TopNext(p, j, n, code, suiteCode, before, mid, Logs());
      } else {
        SuiteCut(p, j, n, before, mid, Logs(), c);
      }
    }

    /** The main loop, at an item before the first suite: pass over it. */
    method TopOther(it: Item, ghost code: int, ghost p: Schedule, ghost j: nat, ghost before: Log)
      returns (next: Item?, ghost n: nat)
      requires Listed(p, parent.runner)
      requires j < |p.items| && p.items[j] == it && p.kinds[j] != TestSuite && AtTop(p, j, code, before)
      ensures j < n <= |p.items| && next == ItemAt(p.items, n)
      ensures AtTop(p, n, code, before) == true
    {
      next, n := NextListed(it, p, j);
      HiddenBetween(p.kinds, j, n);
      NoneRun(p, 0, j, n);
    }

    /** Run the whole thing: initialise the report, run suite after suite, close the
        report. The position in the list strictly advances. */
    method RunAll(head: Item?, ghost p: Schedule) returns (c: Control, code: int, ghost t: nat)
      requires Idle() && Listed(p, parent.runner) && p.forking == forking && p.Reportable()
      requires head == ItemAt(p.items, 0)
      modifies Footprint()
      ensures c == Returned ==> Idle()
      ensures c == Returned ==>
        Logs() == Log(old(Logs()).trace + p.RunEvents(), old(Logs()).frames + p.WrittenBetween(0, |p.items|))
      ensures c == Returned ==> code == if p.Passed(0, |p.items|) then OUTCOME_PASS else OUTCOME_FAIL
      ensures c == Returned <==> forking || p.Harmless()
      ensures c != Returned ==> parent.runner.Valid() && RunStops(p, t, old(Logs()), Logs(), c) == true
      ensures parent.runner.stdout
              == old(parent.runner.stdout) + p.PrintedBetween(0, if c == Returned then |p.items| else t + 1)
    {
      ghost var init := [Event.Init(Rank(p.kinds, |p.kinds|, OnlyTests))];
      Begin(head, p);
      ghost var mid := Logs();
      c, code, t := Loop(head, p, mid);
      if c != Returned {
        RunCut(p, t, old(Logs()), mid, Logs(), c);
      } else {
        parent.runner.report.Finish();
        ghost var events := p.SuiteEvents(|p.items|);
        Associated(old(Logs()).trace, init, events);
        Associated(old(Logs()).trace, init + events, [Event.Done]);
      }
      OutputGrows(p, if c == Returned then |p.items| else t + 1, old(Logs()).frames);
    }

    /** Initialise the report. */
    method Begin(head: Item?, ghost p: Schedule)
      requires Idle() && Listed(p, parent.runner) && head == ItemAt(p.items, 0)
      modifies parent.runner.report
      ensures Idle() && Listed(p, parent.runner) == true
      ensures Logs() == Log(old(Logs()).trace + [Event.Init(Rank(p.kinds, |p.kinds|, OnlyTests))], old(Logs()).frames)
    {
      parent.runner.report.Init(head, p.items);
    }

    /** The main loop. */
    method Loop(head: Item?, ghost p: Schedule, ghost before: Log) returns (c: Control, code: int, ghost t: nat)
      requires Idle() == true && Listed(p, parent.runner) == true && p.forking == forking && p.Reportable() == true
      requires head == ItemAt(p.items, 0) && Logs() == before
      modifies Footprint()
      ensures c == Returned ==> Idle() == true
      ensures c == Returned ==>
        Logs() == Log(before.trace + p.SuiteEvents(|p.items|), before.frames + p.WrittenBetween(0, |p.items|))
      ensures c == Returned ==> code == if p.Passed(0, |p.items|) then OUTCOME_PASS else OUTCOME_FAIL
      ensures c == Returned ==> p.Harmless()
      ensures c != Returned ==> TopStopped(p, t, before, c) == true
    {
      c, code, t := Returned, OUTCOME_PASS, 0;
      var it := head;
      ghost var j := 0;
      while it != null
        invariant c == Returned && Idle() == true && Listed(p, parent.runner) == true
        invariant j <= |p.items| && it == ItemAt(p.items, j)
        invariant AtTop(p, j, code, before) == true
        decreases |p.items| - j
      {
        c, code, it, j := TopStep(it, code, p, j, before);
        if c != Returned {
          t := j;
          return;
        }
      }
    }

    /** One turn of the main loop. */
    method TopStep(it: Item, code: int, ghost p: Schedule, ghost j: nat, ghost before: Log)
      returns (c: Control, newCode: int, next: Item?, ghost n: nat)
      requires Idle() == true && Listed(p, parent.runner) == true && p.forking == forking && p.Reportable() == true
      requires j < |p.items| && p.items[j] == it && AtTop(p, j, code, before) == true
      modifies Footprint()
      ensures Listed(p, parent.runner) == true
      ensures c == Returned ==> Idle() == true && j < n <= |p.items| && next == ItemAt(p.items, n)
      ensures c == Returned ==> AtTop(p, n, newCode, before) == true
      ensures c != Returned ==> TopStopped(p, n, before, c) == true
    {
      KindAt(p, j);
      if it.kind == TestSuite {
        c, newCode, next, n := TopSuite(it, code, p, j, before);
      } else {
        c, newCode := Returned, code;
        next, n := TopOther(it, code, p, j, before);
      }
    }
  }

  lemma OneMoreSuite(p: Schedule, k: nat, n: nat)
    requires p.Valid() && n <= |p.items| && SegmentEnd(p.kinds, k, n)
    ensures SuiteIndex(p.kinds, n - 1) == k
    ensures p.SuiteEvents(n) == p.SuiteEvents(k) + p.Block(k, n)
    ensures p.Passed(0, n) <==> p.Passed(0, k) && p.Passed(k + 1, n)
  {
    var i := SuiteIndex(p.kinds, n - 1);
    var own := p.kinds[k];
    assert i == k;
  }

  /** The item at `n`, or NULL at the end of the list. */
  function ItemAt(s: seq<Item>, n: nat): Item?
    requires n <= |s|
  {
    if n < |s| then s[n] else null
  }

  lemma {:induction false} HiddenBetween(ks: seq<Kind>, j: nat, n: nat)
    requires j < n <= |ks| && forall m :: j < m < n ==> ks[m] == Skip
    ensures SuiteIndex(ks, n - 1) == SuiteIndex(ks, j)
    decreases n
  {
    if j < n - 1 {
      HiddenBetween(ks, j, n - 1);
    }
  }
}
