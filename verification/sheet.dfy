/** The report of a full run written down at once: what stands in it for each test, each
    suite and the whole run. */
module Sheets {
  import opened Text
  import opened Items
  import opened Tap
  import opened Running
  import opened Scheduling
  import opened RunTheorems
  import opened Totals

  /** The state of a report in the state `st` after the first `n` of some more events. */
  ghost function From(st: State, es: seq<Event>, n: nat): State
    requires n <= |es|
  {
    if n == 0 then st else Step(From(st, es, n - 1), es[n - 1])
  }

  lemma {:induction false} FromStart(es: seq<Event>, n: nat)
    requires n <= |es|
    ensures From(START, es, n) == After(es, n)
  {
    if n > 0 {
      FromStart(es, n - 1);
    }
  }

  lemma {:induction false} FromPrefix(st: State, a: seq<Event>, b: seq<Event>, n: nat)
    requires n <= |a|
    ensures From(st, a + b, n) == From(st, a, n)
  {
    if n > 0 {
      FromPrefix(st, a, b, n - 1);
    }
  }

  lemma {:induction false} FromBehind(st: State, a: seq<Event>, b: seq<Event>, n: nat)
    requires n <= |b|
    ensures From(st, a + b, |a| + n) == From(From(st, a, |a|), b, n)
  {
    if n == 0 {
      FromPrefix(st, a, b, |a|);
    } else {
      FromBehind(st, a, b, n - 1);
      assert (a + b)[|a| + n - 1] == b[n - 1];
    }
  }

  ghost function Final(st: State, es: seq<Event>): State {
    From(st, es, |es|)
  }

  lemma FinalConcat(st: State, a: seq<Event>, b: seq<Event>)
    ensures Final(st, a + b) == Final(Final(st, a), b)
  {
    FromBehind(st, a, b, |b|);
  }

  lemma FinalOne(st: State, e: Event)
    ensures Final(st, [e]) == Step(st, e)
  {
    assert From(st, [e], 0) == st;
  }

  // ----------------------------------------------------------------- the pages

  /** The lines about a finished test, the result with the given number. */
  ghost function TestSheet(e: Event, number: nat): seq<Line>
    requires e.TestDone?
  {
    [Result(if e.outcome == 0 then Passed else if e.outcome == 1 then Failed else Aborted, number, e.done.name)]
    + (Prefixed("# error: ", Lines(e.error)) + Prefixed("# error: ", Lines(e.teardownError))
       + Prefixed("# stdio: ", Lines(e.output)))
  }

  /** The lines about the item at `t`: a test is numbered behind the executed ones before. */
  ghost function Page(p: Schedule, t: nat): seq<Line>
    requires p.Valid() && t < |p.items|
  {
    if p.kinds[t] == Test then TestSheet(p.DoneAt(t), |SuiteTests(p.items, p.kinds, t)| + 1) else []
  }

  ghost predicate IsBad(p: Schedule, t: nat)
    requires p.Valid() && t < |p.items|
  {
    p.kinds[t] == Test && p.DoneAt(t).outcome != 0
  }

  /** For every item its lines, and whether it is a test that did not pass. */
  datatype Book = Book(items: seq<Item>, kinds: seq<Kind>, pages: seq<seq<Line>>, bad: seq<bool>) {
    ghost predicate Valid() {
      |items| == |kinds| == |pages| == |bad|
    }

    /** The lines about the items from `a` up to `b`. */
    ghost function Between(a: nat, b: nat): seq<Line>
      requires Valid() && b <= |items|
      decreases b
    {
      if b <= a then [] else Between(a, b - 1) + pages[b - 1]
    }

    /** The tests from `a` up to `b` that did not pass. */
    ghost function FailCount(a: nat, b: nat): nat
      requires Valid() && b <= |items|
      decreases b
    {
      if b <= a then 0 else FailCount(a, b - 1) + if bad[b - 1] then 1 else 0
    }

    /** The lines about the suite at `i` whose segment ends at `b`: its name, its tests, and
        whether they all passed; nothing for a suite without tests. */
    ghost function SuiteSheet(i: nat, b: nat): seq<Line>
      requires Valid() && i < b <= |items|
    {
      var name, tests, failed := items[i].name, TestCount(kinds, i + 1, b), FailCount(i + 1, b);
      if tests == 0 then []
      else
        [SuiteStarted(name)] + Between(i + 1, b)
        + [if failed == 0 then SuitePassed(name) else SuiteFailed(name, failed, tests)]
    }

    /** The lines about all suites before `b`, the end of a segment. */
    ghost function SuitesSheet(b: nat): seq<Line>
      requires Valid() && b <= |items|
      decreases b
    {
      var i := SuiteIndex(kinds, b - 1);
      if i < 0 then [] else SuitesSheet(i) + SuiteSheet(i, b)
    }

    /** The executed tests before `b`, the end of a segment, that did not pass. */
    ghost function AllFailed(b: nat): nat
      requires Valid() && b <= |items|
      decreases b
    {
      var i := SuiteIndex(kinds, b - 1);
      if i < 0 then 0 else AllFailed(i) + FailCount(i + 1, b)
    }

    /** The whole report: the plan, which is the number of visible tests, the suites, and
        the verdict. */
    ghost function Sheet(): seq<Line>
      requires Valid()
    {
      var n, failed := |items|, AllFailed(|items|);
      [Plan(|Tests(kinds, n)|)] + SuitesSheet(n)
      + [if failed == 0 then AllPassed else SomeFailed(failed, |SuiteTests(items, kinds, n)|)]
    }
  }

  ghost predicate IsBook(k: Book, p: Schedule)
    requires p.Valid()
  {
    && k.Valid() && k.items == p.items && k.kinds == p.kinds
    && forall t :: 0 <= t < |p.items| ==> k.pages[t] == Page(p, t) && k.bad[t] == IsBad(p, t)
  }

  ghost function BookOf(p: Schedule): (k: Book)
    requires p.Valid()
    ensures IsBook(k, p)
  {
    Book(p.items, p.kinds, seq(|p.items|, t requires 0 <= t < |p.items| => Page(p, t)),
         seq(|p.items|, t requires 0 <= t < |p.items| => IsBad(p, t)))
  }

  // -------------------------------------------------------- printing a suite

  /** The state with some tests behind it. */
  ghost function Moved(st: State, tests: nat, bad: nat, lines: seq<Line>): State {
    State(st.tests + tests, st.failed + bad, st.inSuite + tests, st.failedInSuite + bad, st.lines + lines)
  }

  lemma MovedTwice(st: State, tests: nat, bad: nat, lines: seq<Line>, moreTests: nat, moreBad: nat, more: seq<Line>)
    ensures Moved(Moved(st, tests, bad, lines), moreTests, moreBad, more)
            == Moved(st, tests + moreTests, bad + moreBad, lines + more)
  {
    Associated(st.lines, lines, more);
  }

  lemma NotMoved(st: State)
    ensures Moved(st, 0, 0, []) == st
  {
  }

  /** One more test. */
  lemma TestPrinted(st: State, test: Item, done: Event)
    requires done.TestDone? && done.done == test
    ensures Final(st, [Event.TestStart(test)] + [done])
            == Moved(st, 1, if done.outcome == 0 then 0 else 1, TestSheet(done, st.tests + 1))
  {
    FinalConcat(st, [Event.TestStart(test)], [done]);
    FinalOne(st, Event.TestStart(test));
    FinalOne(Step(st, Event.TestStart(test)), done);
    var notes := Notes(ERROR_PREFIX, done.error) + Notes(ERROR_PREFIX, done.teardownError) + Notes(STDIO_PREFIX, done.output);
    Associated(st.lines, [Result(StatusOf(done.outcome), st.tests + 1, test.name)], notes);
  }

  lemma PairPrinted(st: State, es: seq<Event>, test: Item, done: Event, number: nat)
    requires done.TestDone? && done.done == test && Final(st, es).tests + 1 == number
    ensures Final(st, es + ([Event.TestStart(test)] + [done]))
            == Moved(Final(st, es), 1, if done.outcome == 0 then 0 else 1, TestSheet(done, number))
  {
    FinalConcat(st, es, [Event.TestStart(test)] + [done]);
    TestPrinted(Final(st, es), test, done);
  }

  /** One more item of a suite. */
  lemma ItemPrinted(p: Schedule, st: State, a: nat, b: nat)
    requires p.Valid() && a <= b < |p.items|
    requires p.kinds[b] == Test ==> Final(st, p.TestEvents(a, b)).tests == |SuiteTests(p.items, p.kinds, b)|
    ensures Final(st, p.TestEvents(a, b + 1))
            == Moved(Final(st, p.TestEvents(a, b)), if p.kinds[b] == Test then 1 else 0, if IsBad(p, b) then 1 else 0,
                     Page(p, b))
  {
    OneMoreItem(p, a, b + 1);
    if p.kinds[b] == Test {
      PairPrinted(st, p.TestEvents(a, b), p.items[b], p.DoneAt(b), |SuiteTests(p.items, p.kinds, b)| + 1);
    } else {
      NotMoved(Final(st, p.TestEvents(a, b)));
    }
  }

  /** The state after the tests from `a` up to `b`. */
  ghost function WithTests(k: Book, st: State, a: nat, b: nat): State
    requires k.Valid() && b <= |k.items|
  {
    Moved(st, TestCount(k.kinds, a, b), k.FailCount(a, b), k.Between(a, b))
  }

  lemma WithNext(k: Book, st: State, a: nat, b: nat)
    requires k.Valid() && a <= b < |k.items|
    ensures WithTests(k, st, a, b + 1)
            == Moved(WithTests(k, st, a, b), if k.kinds[b] == Test then 1 else 0, if k.bad[b] then 1 else 0, k.pages[b])
  {
    MovedTwice(st, TestCount(k.kinds, a, b), k.FailCount(a, b), k.Between(a, b),
               if k.kinds[b] == Test then 1 else 0, if k.bad[b] then 1 else 0, k.pages[b]);
  }

  lemma {:induction false} SegmentCount(s: seq<Item>, ks: seq<Kind>, a: nat, b: nat)
    requires b <= |s| == |ks|
    ensures |SegmentTests(s, ks, a, b)| == TestCount(ks, a, b)
    decreases b
  {
    if a < b {
      SegmentCount(s, ks, a, b - 1);
    }
  }

  /** The executed tests before `t`, in the segment of the suite at `i`. */
  lemma TestsBefore(s: seq<Item>, ks: seq<Kind>, i: nat, t: nat)
    requires i < t <= |s| == |ks| && SuiteIndex(ks, t - 1) == i
    ensures |SuiteTests(s, ks, t)| == |SuiteTests(s, ks, i)| + TestCount(ks, i + 1, t)
  {
    SegmentOfSuite(s, ks, i, t);
    SegmentCount(s, ks, i + 1, t);
  }

  /** The tests from `a` up to `b` have been printed as they stand in the book. */
  ghost predicate PrintedAs(p: Schedule, k: Book, st: State, a: nat, b: nat)
    requires p.Valid() && k.Valid() && b <= |p.items| == |k.items|
  {
    Final(st, p.TestEvents(a, b)) == WithTests(k, st, a, b)
  }

  lemma NonePrinted(p: Schedule, k: Book, st: State, a: nat)
    requires p.Valid() && k.Valid() && a <= |p.items| == |k.items|
    ensures PrintedAs(p, k, st, a, a) == true
  {
    NotMoved(st);
  }

  lemma NextPrinted(p: Schedule, k: Book, st: State, a: nat, b: nat)
    requires p.Valid() && IsBook(k, p) == true && a <= b < |p.items| && PrintedAs(p, k, st, a, b) == true
    requires st.tests + TestCount(p.kinds, a, b) == |SuiteTests(p.items, p.kinds, b)|
    ensures PrintedAs(p, k, st, a, b + 1) == true
  {
    WithNext(k, st, a, b);
    assert k.pages[b] == Page(p, b) && k.bad[b] == IsBad(p, b);
    ItemPrinted(p, st, a, b);
  }

  /** The items from `i` up to `b` are a suite and items of it. */
  ghost predicate OneSuiteOnly(ks: seq<Kind>, i: nat, b: nat) {
    i < b <= |ks| && ks[i] == TestSuite && forall m :: i < m < b ==> ks[m] != TestSuite
  }

  lemma NumberReached(n: nat, s: seq<Item>, ks: seq<Kind>, i: nat, t: nat, b: nat)
    requires i < t <= b <= |s| == |ks| && OneSuiteOnly(ks, i, b) && n == |SuiteTests(s, ks, i)|
    ensures n + TestCount(ks, i + 1, t) == |SuiteTests(s, ks, t)|
  {
    assert SuiteIndex(ks, t - 1) == i;
    TestsBefore(s, ks, i, t);
  }

  /** The suite at `i`, which goes on up to `b`, has been printed up to `t`. */
  ghost predicate Halfway(p: Schedule, k: Book, st: State, i: nat, t: nat, b: nat) {
    && p.Valid() && IsBook(k, p) && i < t <= b <= |p.items| && OneSuiteOnly(p.kinds, i, b)
    && st.tests == |SuiteTests(p.items, p.kinds, i)| && PrintedAs(p, k, st, i + 1, t)
  }

  lemma HalfwayOn(p: Schedule, k: Book, st: State, i: nat, t: nat, b: nat)
    requires Halfway(p, k, st, i, t, b) == true && t < b
    ensures Halfway(p, k, st, i, t + 1, b) == true
  {
    NumberReached(st.tests, p.items, p.kinds, i, t, b);
    NextPrinted(p, k, st, i + 1, t);
  }

  lemma TestsPrintedUpTo(p: Schedule, k: Book, st: State, i: nat, b: nat)
    requires Halfway(p, k, st, i, i + 1, b) == true
    ensures Halfway(p, k, st, i, b, b) == true
  {
    var t := i + 1;
    while t < b
      invariant t <= b && Halfway(p, k, st, i, t, b) == true
    {
      HalfwayOn(p, k, st, i, t, b);
      t := t + 1;
    }
  }

  lemma TestsPrinted(p: Schedule, k: Book, st: State, i: nat, b: nat)
    requires p.Valid() && IsBook(k, p) == true && i < b <= |p.items| && SuiteIndex(p.kinds, b - 1) == i
    requires st.tests == |SuiteTests(p.items, p.kinds, i)|
    ensures PrintedAs(p, k, st, i + 1, b) == true
  {
    NonePrinted(p, k, st, i + 1);
    assert OneSuiteOnly(p.kinds, i, b);
    TestsPrintedUpTo(p, k, st, i, b);
  }

  /** The events of a suite around those of its tests. */
  lemma Wrapped(st: State, suite: Item, ts: seq<Event>)
    ensures var inside := Final(Step(st, Event.SuiteStart(suite)), ts);
            Final(st, [Event.SuiteStart(suite)] + ts + [Event.SuiteDone(suite)]) == Step(inside, Event.SuiteDone(suite))
  {
    FinalConcat(st, [Event.SuiteStart(suite)], ts);
    FinalConcat(st, [Event.SuiteStart(suite)] + ts, [Event.SuiteDone(suite)]);
    FinalOne(st, Event.SuiteStart(suite));
    FinalOne(Final(Step(st, Event.SuiteStart(suite)), ts), Event.SuiteDone(suite));
  }

  /** What has been printed and counted of a whole run, but for the counters of the suite. */
  datatype Tally = Tally(lines: seq<Line>, tests: nat, bad: nat)

  ghost function TallyOf(st: State): Tally {
    Tally(st.lines, st.tests, st.failed)
  }

  function Plus(t: Tally, lines: seq<Line>, tests: nat, bad: nat): Tally {
    Tally(t.lines + lines, t.tests + tests, t.bad + bad)
  }

  lemma PlusTwice(t: Tally, lines: seq<Line>, tests: nat, bad: nat, more: seq<Line>, moreTests: nat, moreBad: nat)
    ensures Plus(Plus(t, lines, tests, bad), more, moreTests, moreBad)
            == Plus(t, lines + more, tests + moreTests, bad + moreBad)
  {
    Associated(t.lines, lines, more);
  }

  lemma PlusNone(t: Tally)
    ensures Plus(t, [], 0, 0) == t
  {
  }

  /** The end of a suite that had tests, with its lines. */
  lemma SuiteClosed(st: State, suite: Item, tests: nat, bad: nat, lines: seq<Line>)
    ensures var end := Step(Moved(Step(st, Event.SuiteStart(suite)), tests, bad, lines), Event.SuiteDone(suite));
            var closing := if bad == 0 then SuitePassed(suite.name) else SuiteFailed(suite.name, bad, tests);
            TallyOf(end) == Plus(TallyOf(st), [SuiteStarted(suite.name)] + lines + [closing], tests, bad)
  {
    var start := [SuiteStarted(suite.name)];
    var closing := if bad == 0 then SuitePassed(suite.name) else SuiteFailed(suite.name, bad, tests);
    Associated(st.lines, start, lines);
    Associated(st.lines, start + lines, [closing]);
  }

  lemma {:induction false} NoTestsNoEvents(p: Schedule, a: nat, b: nat)
    requires p.Valid() && b <= |p.items|
    ensures p.TestEvents(a, b) == [] <==> TestCount(p.kinds, a, b) == 0
    decreases b
  {
    if a < b {
      NoTestsNoEvents(p, a, b - 1);
      OneMoreItem(p, a, b);
    }
  }

  lemma {:induction false} NoTestsNoFailures(k: Book, a: nat, b: nat)
    requires k.Valid() && b <= |k.items| && TestCount(k.kinds, a, b) == 0
    requires forall t :: 0 <= t < |k.items| && k.bad[t] ==> k.kinds[t] == Test
    ensures k.FailCount(a, b) == 0
    decreases b
  {
    if a < b {
      NoTestsNoFailures(k, a, b - 1);
    }
  }

  lemma BusyPrinted(p: Schedule, k: Book, st: State, i: nat, b: nat)
    requires p.Valid() && IsBook(k, p) == true && i < b <= |p.items| && SuiteIndex(p.kinds, b - 1) == i
    requires st.tests == |SuiteTests(p.items, p.kinds, i)| && p.TestEvents(i + 1, b) != []
    ensures Final(st, p.Block(i, b))
            == Step(WithTests(k, Step(st, Event.SuiteStart(p.items[i])), i + 1, b), Event.SuiteDone(p.items[i]))
  {
    Wrapped(st, p.items[i], p.TestEvents(i + 1, b));
    TestsPrinted(p, k, Step(st, Event.SuiteStart(p.items[i])), i, b);
  }

  lemma SuitePrinted(p: Schedule, k: Book, st: State, i: nat, b: nat)
    requires p.Valid() && IsBook(k, p) == true && i < b <= |p.items| && SuiteIndex(p.kinds, b - 1) == i
    requires st.tests == |SuiteTests(p.items, p.kinds, i)|
    ensures TallyOf(Final(st, p.Block(i, b)))
            == Plus(TallyOf(st), k.SuiteSheet(i, b), TestCount(p.kinds, i + 1, b), k.FailCount(i + 1, b))
  {
    NoTestsNoEvents(p, i + 1, b);
    if p.TestEvents(i + 1, b) == [] {
      NoTestsNoFailures(k, i + 1, b);
      PlusNone(TallyOf(st));
    } else {
      BusyPrinted(p, k, st, i, b);
      SuiteClosed(st, p.items[i], TestCount(p.kinds, i + 1, b), k.FailCount(i + 1, b), k.Between(i + 1, b));
    }
  }

  // ---------------------------------------------------------- printing a run

  /** What has been printed and counted before `b`, the end of a segment, from `t` on. */
  ghost function TallyUpTo(k: Book, t: Tally, b: nat): Tally
    requires k.Valid() && b <= |k.items|
  {
    Plus(t, k.SuitesSheet(b), |SuiteTests(k.items, k.kinds, b)|, k.AllFailed(b))
  }

  lemma OneMoreSuiteOnSheet(k: Book, i: nat, b: nat)
    requires k.Valid() && i < b <= |k.items| && SuiteIndex(k.kinds, b - 1) == i
    ensures k.SuitesSheet(b) == k.SuitesSheet(i) + k.SuiteSheet(i, b)
    ensures k.AllFailed(b) == k.AllFailed(i) + k.FailCount(i + 1, b)
  {
  }

  lemma TallyGrows(k: Book, t: Tally, i: nat, b: nat)
    requires k.Valid() && i < b <= |k.items| && SuiteIndex(k.kinds, b - 1) == i
    ensures TallyUpTo(k, t, b)
            == Plus(TallyUpTo(k, t, i), k.SuiteSheet(i, b), TestCount(k.kinds, i + 1, b), k.FailCount(i + 1, b))
  {
    OneMoreSuiteOnSheet(k, i, b);
    TestsBefore(k.items, k.kinds, i, b);
    PlusTwice(t, k.SuitesSheet(i), |SuiteTests(k.items, k.kinds, i)|, k.AllFailed(i),
              k.SuiteSheet(i, b), TestCount(k.kinds, i + 1, b), k.FailCount(i + 1, b));
  }

  lemma BlockBehind(p: Schedule, st: State, i: nat, b: nat)
    requires p.Valid() && i < b <= |p.items| && SuiteIndex(p.kinds, b - 1) == i
    ensures Final(st, p.SuiteEvents(b)) == Final(Final(st, p.SuiteEvents(i)), p.Block(i, b))
  {
    FinalConcat(st, p.SuiteEvents(i), p.Block(i, b));
  }

  lemma {:induction false} SuitesPrinted(p: Schedule, k: Book, st: State, b: nat)
    requires p.Valid() && IsBook(k, p) == true && b <= |p.items| && st.tests == 0
    ensures TallyOf(Final(st, p.SuiteEvents(b))) == TallyUpTo(k, TallyOf(st), b)
    decreases b
  {
    var i := SuiteIndex(p.kinds, b - 1);
    if i < 0 {
      NoSuiteTests(p.items, p.kinds, b);
      PlusNone(TallyOf(st));
    } else {
      SuitesPrinted(p, k, st, i);
      BlockBehind(p, st, i, b);
      SuitePrinted(p, k, Final(st, p.SuiteEvents(i)), i, b);
      TallyGrows(k, TallyOf(st), i, b);
    }
  }

  /** The events of a run between the first and the last. */
  lemma RunPrinted(total: nat, es: seq<Event>)
    ensures var all := [Event.Init(total)] + es + [Event.Done];
            After(all, |all|) == Step(Final(Step(START, Event.Init(total)), es), Event.Done)
  {
    var all := [Event.Init(total)] + es + [Event.Done];
    FromStart(all, |all|);
    FinalConcat(START, [Event.Init(total)], es);
    FinalConcat(START, [Event.Init(total)] + es, [Event.Done]);
    FinalOne(START, Event.Init(total));
    FinalOne(Final(Step(START, Event.Init(total)), es), Event.Done);
  }

  /** The whole report, written down at once: the plan, which is the number of visible
      tests; for every suite with tests its name, its tests and what became of it; for every
      test its status, its number, its name and the lines of its messages; the verdict. */
  lemma PrintoutIsSheet(p: Schedule)
    requires p.Valid()
    ensures Printout(p) == BookOf(p).Sheet()
  {
    var n := |p.items|;
    var total := Rank(p.kinds, n, OnlyTests);
    RunPrinted(total, p.SuiteEvents(n));
    RankCounts(p.kinds, n);
    SuitesPrinted(p, BookOf(p), Step(START, Event.Init(total)), n);
    assert [] + [Plan(total)] == [Plan(total)];
  }

  // ------------------------------------------------ results, one by one and together

  lemma InEither(l: Line, a: seq<Line>, b: seq<Line>)
    ensures l in a + b <==> l in a || l in b
  {
  }

  lemma {:induction false} OnPages(k: Book, a: nat, b: nat, t: nat, l: Line)
    requires k.Valid() && a <= t < b <= |k.items| && l in k.pages[t]
    ensures l in k.Between(a, b)
    decreases b
  {
    InEither(l, k.Between(a, b - 1), k.pages[b - 1]);
    if t < b - 1 {
      OnPages(k, a, b - 1, t, l);
    }
  }

  lemma {:induction false} HasTest(ks: seq<Kind>, a: nat, b: nat, t: nat)
    requires a <= t < b <= |ks| && ks[t] == Test
    ensures TestCount(ks, a, b) > 0
    decreases b
  {
    if t < b - 1 {
      HasTest(ks, a, b - 1, t);
    }
  }

  lemma OnSuiteSheet(k: Book, i: nat, b: nat, t: nat, l: Line)
    requires k.Valid() && i < t < b <= |k.items| && k.kinds[t] == Test && l in k.pages[t]
    ensures l in k.SuiteSheet(i, b)
  {
    HasTest(k.kinds, i + 1, b, t);
    OnPages(k, i + 1, b, t, l);
    var name, tests, failed := k.items[i].name, TestCount(k.kinds, i + 1, b), k.FailCount(i + 1, b);
    InEither(l, [SuiteStarted(name)], k.Between(i + 1, b));
    InEither(l, [SuiteStarted(name)] + k.Between(i + 1, b),
             [if failed == 0 then SuitePassed(name) else SuiteFailed(name, failed, tests)]);
  }

  lemma {:induction false} OnSuitesSheet(k: Book, b: nat, t: nat, l: Line)
    requires k.Valid() && t < b <= |k.items| && k.kinds[t] == Test && SuiteIndex(k.kinds, t) >= 0 && l in k.pages[t]
    ensures l in k.SuitesSheet(b)
    decreases b
  {
    var i, own := SuiteIndex(k.kinds, b - 1), k.kinds[SuiteIndex(k.kinds, t)];
    assert i >= 0;
    OneMoreSuiteOnSheet(k, i, b);
    InEither(l, k.SuitesSheet(i), k.SuiteSheet(i, b));
    if t < i {
      OnSuitesSheet(k, i, t, l);
    } else {
      OnSuiteSheet(k, i, b, t, l);
    }
  }

  lemma OnPage(p: Schedule, t: nat)
    requires p.Valid() && t < |p.items| && p.kinds[t] == Test
    ensures var outcome := p.DoneAt(t).outcome;
            Result(if outcome == 0 then Passed else if outcome == 1 then Failed else Aborted,
                   |SuiteTests(p.items, p.kinds, t)| + 1, p.items[t].name) == Page(p, t)[0]
    ensures Page(p, t)[0] in Page(p, t)
  {
  }

  /** Every executed test has its line: its number is that of the tests before it and one
      more, and its status is what its outcome says. */
  lemma ResultPrinted(p: Schedule, t: nat)
    requires p.Valid() && t < |p.items| && p.Runs(t)
    ensures var outcome := p.DoneAt(t).outcome;
            Result(if outcome == 0 then Passed else if outcome == 1 then Failed else Aborted,
                   |SuiteTests(p.items, p.kinds, t)| + 1, p.items[t].name) in Printout(p)
  {
    OnPage(p, t);
    PrintoutIsSheet(p);
    var k, n := BookOf(p), |p.items|;
    var l := Page(p, t)[0];
    OnSuitesSheet(k, n, t, l);
    OnSheet(k, l);
  }

  lemma OnSheet(k: Book, l: Line)
    requires k.Valid() && l in k.SuitesSheet(|k.items|)
    ensures l in k.Sheet()
  {
    var n, failed := |k.items|, k.AllFailed(|k.items|);
    InEither(l, [Plan(|Tests(k.kinds, n)|)], k.SuitesSheet(n));
    InEither(l, [Plan(|Tests(k.kinds, n)|)] + k.SuitesSheet(n),
             [if failed == 0 then AllPassed else SomeFailed(failed, |SuiteTests(k.items, k.kinds, n)|)]);
  }

  ghost predicate NoneFailed(ls: seq<Line>) {
    forall i :: 0 <= i < |ls| && ls[i].Result? ==> ls[i].status == Passed
  }

  lemma NoneFailedConcat(a: seq<Line>, b: seq<Line>)
    ensures NoneFailed(a + b) <==> NoneFailed(a) && NoneFailed(b)
  {
    if NoneFailed(a + b) {
      assert forall i :: 0 <= i < |a| ==> (a + b)[i] == a[i];
      assert forall i :: 0 <= i < |b| ==> (a + b)[|a| + i] == b[i];
    }
  }

  /** What one event adds to the failures and to the lines. */
  lemma FailedStep(st: State, e: Event)
    requires st.failed == 0 <==> NoneFailed(st.lines)
    requires e.Init? ==> st.failed == 0
    ensures Step(st, e).failed == 0 <==> NoneFailed(Step(st, e).lines)
  {
    var more := Step(st, e).lines[|st.lines|..];
    assert Step(st, e).lines == st.lines + more;
    NoneFailedConcat(st.lines, more);
    if e.TestDone? {
      assert more[0] == Result(StatusOf(e.outcome), st.tests, e.done.name);
    }
  }

  /** After every event of every grammatical trace: no test failed if and only if every
      result line says that its test passed. */
  lemma {:induction false} FailuresShow(es: seq<Event>, n: nat)
    requires n <= |es| && PhaseAfter(Fresh, es, n) != Stuck
    ensures After(es, n).failed == 0 <==> NoneFailed(After(es, n).lines)
  {
    if n > 0 {
      FailuresShow(es, n - 1);
      AccountsKept(es, n - 1);
      FailedStep(After(es, n - 1), es[n - 1]);
    }
  }

  /** A full run ends with the line that all tests passed if and only if every result line
      says so of its test. */
  lemma VerdictFromResults(p: Schedule)
    requires p.Valid()
    ensures var ls := Printout(p); ls != [] && (ls[|ls| - 1] == AllPassed <==> NoneFailed(ls))
  {
    var es := p.RunEvents();
    RunShape(p);
    FailuresShow(es, |es|);
    LastLine(es);
  }
}
