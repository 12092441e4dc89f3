/** What every full run has in common: the shape of its report, the tests that it
    executes, the numbering, the counters and the verdict. */
module RunTheorems {
  import opened Text
  import opened Items
  import opened Tap
  import opened Running
  import opened Scheduling

  // ------------------------------------------------------ the shape of a report

  /** Where a report stands; `tests` counts the finished tests of the open suite. */
  datatype Phase =
    | Fresh
    | Between
    | Open(suite: Item, tests: nat)
    | Active(owner: Item, before: nat, test: Item)
    | Closed
    | Stuck

  /** The grammar: init (suite_start (test_start test_done)+ suite_done)* done, where
      every end names the item that was started. */
  function Move(ph: Phase, e: Event): Phase {
    match e
    case Init(_) => if ph == Fresh then Between else Stuck
    case SuiteStart(suite) => if ph == Between then Open(suite, 0) else Stuck
    case TestStart(test) => if ph.Open? then Active(ph.suite, ph.tests, test) else Stuck
    case TestDone(test, _, _, _, _) =>
      if ph.Active? && ph.test == test then Open(ph.owner, ph.before + 1) else Stuck
    case SuiteDone(suite) => if ph.Open? && ph.suite == suite && ph.tests > 0 then Between else Stuck
    case Done => if ph == Between then Closed else Stuck
  }

  /** The phase after the first `n` events. */
  function PhaseAfter(ph: Phase, es: seq<Event>, n: nat): Phase
    requires n <= |es|
  {
    if n == 0 then ph else Move(PhaseAfter(ph, es, n - 1), es[n - 1])
  }

  lemma {:induction false} PhasePrefix(ph: Phase, a: seq<Event>, b: seq<Event>, n: nat)
    requires n <= |a|
    ensures PhaseAfter(ph, a + b, n) == PhaseAfter(ph, a, n)
  {
    if n > 0 {
      PhasePrefix(ph, a, b, n - 1);
    }
  }

  lemma {:induction false} PhaseConcat(ph: Phase, a: seq<Event>, b: seq<Event>, n: nat)
    requires n <= |b|
    ensures PhaseAfter(ph, a + b, |a| + n) == PhaseAfter(PhaseAfter(ph, a, |a|), b, n)
  {
    if n == 0 {
      PhasePrefix(ph, a, b, |a|);
    } else {
      PhaseConcat(ph, a, b, n - 1);
      assert (a + b)[|a| + n - 1] == b[n - 1];
    }
  }

  /** The number of tests from `a` up to `b`. */
  function TestCount(ks: seq<Kind>, a: nat, b: nat): nat
    requires b <= |ks|
    decreases b
  {
    if b <= a then 0 else TestCount(ks, a, b - 1) + if ks[b - 1] == Test then 1 else 0
  }

  lemma OneMoreTest(es: seq<Event>, suite: Item, n: nat, test: Item, done: Event)
    requires done.TestDone? && done.done == test && PhaseAfter(Open(suite, 0), es, |es|) == Open(suite, n)
    ensures var all := es + ([Event.TestStart(test)] + [done]);
            PhaseAfter(Open(suite, 0), all, |all|) == Open(suite, n + 1)
  {
    var pair := [Event.TestStart(test)] + [done];
    PhaseConcat(Open(suite, 0), es, pair, 2);
    assert PhaseAfter(Open(suite, n), pair, 1) == Move(Open(suite, n), pair[0]);
  }

  /** The events of the items from `a` up to `b` of a suite: each test is two events and
      adds one finished test. */
  ghost predicate Shaped(p: Schedule, suite: Item, a: nat, b: nat)
    requires p.Valid() && b <= |p.items|
  {
    var es := p.TestEvents(a, b);
    |es| == 2 * TestCount(p.kinds, a, b) && PhaseAfter(Open(suite, 0), es, |es|) == Open(suite, TestCount(p.kinds, a, b))
  }

  lemma TestShaped(p: Schedule, suite: Item, a: nat, b: nat)
    requires p.Valid() && a <= b < |p.items| && p.kinds[b] == Test && Shaped(p, suite, a, b)
    ensures Shaped(p, suite, a, b + 1) == true
  {
    OneMoreItem(p, a, b + 1);
    OneMoreTest(p.TestEvents(a, b), suite, TestCount(p.kinds, a, b), p.items[b], p.DoneAt(b));
  }

  lemma OtherShaped(p: Schedule, suite: Item, a: nat, b: nat)
    requires p.Valid() && a <= b < |p.items| && p.kinds[b] != Test && Shaped(p, suite, a, b)
    ensures Shaped(p, suite, a, b + 1) == true
  {
    OneMoreItem(p, a, b + 1);
  }

  lemma {:induction false} TestsShape(p: Schedule, suite: Item, a: nat, b: nat)
    requires p.Valid() && b <= |p.items|
    ensures Shaped(p, suite, a, b) == true
    decreases b
  {
    if b > a {
      TestsShape(p, suite, a, b - 1);
      if p.kinds[b - 1] == Test {
        TestShaped(p, suite, a, b - 1);
      } else {
        OtherShaped(p, suite, a, b - 1);
      }
    }
  }

  lemma WrappedShape(suite: Item, ts: seq<Event>, n: nat)
    requires n > 0 && PhaseAfter(Open(suite, 0), ts, |ts|) == Open(suite, n)
    ensures var es := [Event.SuiteStart(suite)] + ts + [Event.SuiteDone(suite)]; PhaseAfter(Between, es, |es|) == Between
  {
    var start, done := [Event.SuiteStart(suite)], [Event.SuiteDone(suite)];
    assert PhaseAfter(Between, start, 1) == Move(Between, start[0]);
    PhaseConcat(Between, start, ts, |ts|);
    PhaseConcat(Between, start + ts, done, 1);
    assert PhaseAfter(Open(suite, n), done, 1) == Move(Open(suite, n), done[0]);
  }

  lemma BlockShape(p: Schedule, i: nat, b: nat)
    requires p.Valid() && i < b <= |p.items|
    ensures var es := p.Block(i, b); PhaseAfter(Between, es, |es|) == Between
  {
    if p.TestEvents(i + 1, b) != [] {
      TestsShape(p, p.items[i], i + 1, b);
      WrappedShape(p.items[i], p.TestEvents(i + 1, b), TestCount(p.kinds, i + 1, b));
    }
  }

  lemma ContinuedShape(es: seq<Event>, more: seq<Event>)
    requires PhaseAfter(Between, es, |es|) == Between
    ensures PhaseAfter(Between, es + more, |es + more|) == PhaseAfter(Between, more, |more|)
  {
    PhaseConcat(Between, es, more, |more|);
  }

  lemma {:induction false} SuitesShape(p: Schedule, b: nat)
    requires p.Valid() && b <= |p.items|
    ensures var es := p.SuiteEvents(b); PhaseAfter(Between, es, |es|) == Between
    decreases b
  {
    var i := SuiteIndex(p.kinds, b - 1);
    if i >= 0 {
      SuitesShape(p, i);
      BlockShape(p, i, b);
      ContinuedShape(p.SuiteEvents(i), p.Block(i, b));
    }
  }

  lemma BegunShape(total: nat, es: seq<Event>)
    ensures var all := [Event.Init(total)] + es; PhaseAfter(Fresh, all, |all|) == PhaseAfter(Between, es, |es|)
  {
    var init := [Event.Init(total)];
    assert PhaseAfter(Fresh, init, 1) == Move(Fresh, init[0]);
    PhaseConcat(Fresh, init, es, |es|);
  }

  lemma EndedShape(total: nat, es: seq<Event>)
    requires PhaseAfter(Between, es, |es|) == Between
    ensures var all := [Event.Init(total)] + es + [Event.Done]; PhaseAfter(Fresh, all, |all|) == Closed
  {
    var begun, done := [Event.Init(total)] + es, [Event.Done];
    BegunShape(total, es);
    PhaseConcat(Fresh, begun, done, 1);
    assert PhaseAfter(Between, done, 1) == Move(Between, done[0]);
  }

  /** Trace grammar: every full run reports a word of the grammar. */
  lemma RunShape(p: Schedule)
    requires p.Valid()
    ensures PhaseAfter(Fresh, p.RunEvents(), |p.RunEvents()|) == Closed
  {
    SuitesShape(p, |p.items|);
    EndedShape(Rank(p.kinds, |p.kinds|, OnlyTests), p.SuiteEvents(|p.items|));
  }

  lemma UnwrappedShape(suite: Item, ts: seq<Event>, n: nat, test: Item)
    requires PhaseAfter(Open(suite, 0), ts, |ts|) == Open(suite, n)
    ensures var es := [Event.SuiteStart(suite)] + ts + [Event.TestStart(test)];
            PhaseAfter(Between, es, |es|) == Active(suite, n, test)
  {
    var start, last := [Event.SuiteStart(suite)], [Event.TestStart(test)];
    assert PhaseAfter(Between, start, 1) == Move(Between, start[0]);
    PhaseConcat(Between, start, ts, |ts|);
    PhaseConcat(Between, start + ts, last, 1);
    assert PhaseAfter(Open(suite, n), last, 1) == Move(Open(suite, n), last[0]);
  }

  /** The events of a suite that is cut short. */
  lemma CutShortShape(p: Schedule, k: nat, t: nat)
    requires p.Valid() && k < t < |p.items|
    ensures var es := p.CutShort(k, t);
            PhaseAfter(Between, es, |es|) == Active(p.items[k], TestCount(p.kinds, k + 1, t), p.items[t])
  {
    TestsShape(p, p.items[k], k + 1, t);
    UnwrappedShape(p.items[k], p.TestEvents(k + 1, t), TestCount(p.kinds, k + 1, t), p.items[t]);
  }

  /** A run that a test cuts short reports the beginning of a word of the grammar, which
      stops inside that test. */
  lemma CutShape(p: Schedule, t: nat)
    requires p.Valid() && t < |p.items| && p.Runs(t)
    ensures var es, k := p.CutEvents(t), SuiteIndex(p.kinds, t);
            PhaseAfter(Fresh, es, |es|) == Active(p.items[k], TestCount(p.kinds, k + 1, t), p.items[t])
  {
    var k := SuiteIndex(p.kinds, t);
    SuitesShape(p, k);
    CutShortShape(p, k, t);
    ContinuedShape(p.SuiteEvents(k), p.CutShort(k, t));
    BegunShape(Rank(p.kinds, |p.kinds|, OnlyTests), p.SuiteEvents(k) + p.CutShort(k, t));
  }

  // ------------------------------------------------------- the tests that run

  /** The tests that the first `n` events start, in order. */
  function StartedUpTo(es: seq<Event>, n: nat): seq<Item>
    requires n <= |es|
  {
    if n == 0 then [] else StartedUpTo(es, n - 1) + if es[n - 1].TestStart? then [es[n - 1].test] else []
  }

  function Started(es: seq<Event>): seq<Item> {
    StartedUpTo(es, |es|)
  }

  lemma {:induction false} StartedPrefix(a: seq<Event>, b: seq<Event>, n: nat)
    requires n <= |a|
    ensures StartedUpTo(a + b, n) == StartedUpTo(a, n)
  {
    if n > 0 {
      StartedPrefix(a, b, n - 1);
    }
  }

  lemma {:induction false} StartedBehind(a: seq<Event>, b: seq<Event>, n: nat)
    requires n <= |b|
    ensures StartedUpTo(a + b, |a| + n) == StartedUpTo(a, |a|) + StartedUpTo(b, n)
  {
    if n == 0 {
      StartedPrefix(a, b, |a|);
    } else {
      StartedBehind(a, b, n - 1);
      assert (a + b)[|a| + n - 1] == b[n - 1];
      Associated(StartedUpTo(a, |a|), StartedUpTo(b, n - 1), if b[n - 1].TestStart? then [b[n - 1].test] else []);
    }
  }

  lemma StartedConcat(a: seq<Event>, b: seq<Event>)
    ensures Started(a + b) == Started(a) + Started(b)
  {
    StartedBehind(a, b, |b|);
  }

  lemma StartedOne(e: Event)
    ensures Started([e]) == if e.TestStart? then [e.test] else []
  {
    assert StartedUpTo([e], 0) == [];
  }

  /** The tests before `n` that belong to a suite, in list order. */
  function SuiteTests(s: seq<Item>, ks: seq<Kind>, n: nat): seq<Item>
    requires n <= |s| == |ks|
  {
    if n == 0 then []
    else SuiteTests(s, ks, n - 1) + if ks[n - 1] == Test && SuiteIndex(ks, n - 1) >= 0 then [s[n - 1]] else []
  }

  lemma PairStarted(test: Item, done: Event)
    requires done.TestDone?
    ensures Started([Event.TestStart(test)] + [done]) == [test]
  {
    StartedConcat([Event.TestStart(test)], [done]);
    StartedOne(Event.TestStart(test));
    StartedOne(done);
  }

  /** One more item of a segment. */
  lemma StartedStep(p: Schedule, a: nat, b: nat)
    requires p.Valid() && a < b <= |p.items|
    ensures Started(p.TestEvents(a, b))
         == Started(p.TestEvents(a, b - 1)) + if p.kinds[b - 1] == Test then [p.items[b - 1]] else []
  {
    OneMoreItem(p, a, b);
    if p.kinds[b - 1] == Test {
      PairStarted(p.items[b - 1], p.DoneAt(b - 1));
      StartedConcat(p.TestEvents(a, b - 1), [Event.TestStart(p.items[b - 1])] + [p.DoneAt(b - 1)]);
    }
  }

  /** The tests from `a` up to `b`, in list order. */
  function SegmentTests(s: seq<Item>, ks: seq<Kind>, a: nat, b: nat): seq<Item>
    requires b <= |s| == |ks|
    decreases b
  {
    if b <= a then [] else SegmentTests(s, ks, a, b - 1) + if ks[b - 1] == Test then [s[b - 1]] else []
  }

  lemma {:induction false} TestsStarted(p: Schedule, a: nat, b: nat)
    requires p.Valid() && a <= b <= |p.items|
    ensures Started(p.TestEvents(a, b)) == SegmentTests(p.items, p.kinds, a, b)
    decreases b
  {
    if b > a {
      TestsStarted(p, a, b - 1);
      StartedStep(p, a, b);
    }
  }

  /** All tests of a segment belong to its suite. */
  lemma {:induction false} SegmentOfSuite(s: seq<Item>, ks: seq<Kind>, i: nat, b: nat)
    requires i < b <= |s| == |ks| && SuiteIndex(ks, b - 1) == i
    ensures SuiteTests(s, ks, b) == SuiteTests(s, ks, i) + SegmentTests(s, ks, i + 1, b)
    decreases b
  {
    var own := ks[i];
    if b > i + 1 {
      SegmentOfSuite(s, ks, i, b - 1);
      Associated(SuiteTests(s, ks, i), SegmentTests(s, ks, i + 1, b - 1), if ks[b - 1] == Test then [s[b - 1]] else []);
    }
  }

  lemma BlockStarted(p: Schedule, i: nat, b: nat)
    requires p.Valid() && i < b <= |p.items|
    ensures Started(p.Block(i, b)) == Started(p.TestEvents(i + 1, b))
  {
    var ts, start, done := p.TestEvents(i + 1, b), Event.SuiteStart(p.items[i]), Event.SuiteDone(p.items[i]);
    StartedConcat([start], ts);
    StartedConcat([start] + ts, [done]);
    StartedOne(start);
    StartedOne(done);
  }

  lemma BlockTests(p: Schedule, i: nat, b: nat)
    requires p.Valid() && i < b <= |p.items|
    ensures Started(p.Block(i, b)) == SegmentTests(p.items, p.kinds, i + 1, b)
  {
    BlockStarted(p, i, b);
    TestsStarted(p, i + 1, b);
  }

  lemma {:induction false} SuitesStarted(p: Schedule, b: nat)
    requires p.Valid() && b <= |p.items|
    ensures Started(p.SuiteEvents(b)) == SuiteTests(p.items, p.kinds, b)
    decreases b
  {
    var i := SuiteIndex(p.kinds, b - 1);
    if i >= 0 {
      SuitesStarted(p, i);
      StartedConcat(p.SuiteEvents(i), p.Block(i, b));
      BlockTests(p, i, b);
      SegmentOfSuite(p.items, p.kinds, i, b);
    } else {
      NoSuiteTests(p.items, p.kinds, b);
    }
  }

  lemma {:induction false} NoSuiteTests(s: seq<Item>, ks: seq<Kind>, n: nat)
    requires n <= |s| == |ks| && SuiteIndex(ks, n - 1) < 0
    ensures SuiteTests(s, ks, n) == []
  {
    if n > 0 {
      NoSuiteTests(s, ks, n - 1);
    }
  }

  /** A full run executes exactly the tests behind the first suite, each once and in
      list order. */
  lemma RunExecutes(p: Schedule)
    requires p.Valid()
    ensures Started(p.RunEvents()) == SuiteTests(p.items, p.kinds, |p.items|)
  {
    var init, es := Event.Init(Rank(p.kinds, |p.kinds|, OnlyTests)), p.SuiteEvents(|p.items|);
    StartedConcat([init], es);
    StartedConcat([init] + es, [Event.Done]);
    StartedOne(init);
    StartedOne(Event.Done);
    SuitesStarted(p, |p.items|);
  }

  lemma UnwrappedStarted(suite: Item, ts: seq<Event>, test: Item)
    ensures Started([Event.SuiteStart(suite)] + ts + [Event.TestStart(test)]) == Started(ts) + [test]
  {
    StartedConcat([Event.SuiteStart(suite)], ts);
    StartedConcat([Event.SuiteStart(suite)] + ts, [Event.TestStart(test)]);
    StartedOne(Event.SuiteStart(suite));
    StartedOne(Event.TestStart(test));
  }

  lemma CutShortStarted(p: Schedule, k: nat, t: nat)
    requires p.Valid() && k < t < |p.items| && p.Runs(t) && SuiteIndex(p.kinds, t) == k
    ensures Started(p.CutShort(k, t)) == SegmentTests(p.items, p.kinds, k + 1, t + 1)
  {
    UnwrappedStarted(p.items[k], p.TestEvents(k + 1, t), p.items[t]);
    TestsStarted(p, k + 1, t);
  }

  lemma BegunStarted(total: nat, es: seq<Event>, more: seq<Event>)
    ensures Started([Event.Init(total)] + (es + more)) == Started(es) + Started(more)
  {
    StartedConcat([Event.Init(total)], es + more);
    StartedConcat(es, more);
    StartedOne(Event.Init(total));
    assert [] + (Started(es) + Started(more)) == Started(es) + Started(more);
  }

  /** A run that a test cuts short starts exactly the tests up to that one. */
  lemma CutExecutes(p: Schedule, t: nat)
    requires p.Valid() && t < |p.items| && p.Runs(t)
    ensures Started(p.CutEvents(t)) == SuiteTests(p.items, p.kinds, t + 1)
  {
    var k := SuiteIndex(p.kinds, t);
    BegunStarted(Rank(p.kinds, |p.kinds|, OnlyTests), p.SuiteEvents(k), p.CutShort(k, t));
    SuitesStarted(p, k);
    CutShortStarted(p, k, t);
    SegmentOfSuite(p.items, p.kinds, k, t + 1);
  }

  /** Forward and backward agree: the suite under which a test is run is the one that
      the walk backward from the test finds. */
  lemma ParentIsSuite(s: seq<Item>, ks: seq<Kind>, i: nat, b: nat, t: nat, default: Item)
    requires b <= |s| == |ks| && SegmentEnd(ks, i, b) && i < t < b
    ensures ParentSuite(s, ks, t, default) == s[i]
  {
    var a, own := SuiteIndex(ks, t), ks[i];
    assert a == i;
  }

  /** An item with no suite before it belongs to the default suite. */
  lemma NoSuiteIsDefault(s: seq<Item>, ks: seq<Kind>, t: nat, default: Item)
    requires t < |s| == |ks| && forall m :: 0 <= m <= t ==> ks[m] != TestSuite
    ensures ParentSuite(s, ks, t, default) == default
  {
  }

  /** The plan is the number of tests; it is the number of tests that are executed if
      and only if no test stands before the first suite. */
  lemma {:induction false} PlanIsExecuted(s: seq<Item>, ks: seq<Kind>, n: nat)
    requires n <= |s| == |ks|
    ensures |SuiteTests(s, ks, n)| <= Rank(ks, n, OnlyTests)
    ensures |SuiteTests(s, ks, n)| == Rank(ks, n, OnlyTests)
            <==> forall t :: 0 <= t < n && ks[t] == Test ==> SuiteIndex(ks, t) >= 0
  {
    if n > 0 {
      PlanIsExecuted(s, ks, n - 1);
    }
  }

  /** The smallest wrong plan: a test without a suite is planned but never executed. */
  lemma PlannedButNotExecuted(test: Item)
    ensures Rank([Test], 1, OnlyTests) == 1 && SuiteTests([test], [Test], 1) == []
  {
    assert Rank([Test], 0, OnlyTests) == 0 && SuiteTests([test], [Test], 0) == [];
    assert SuiteIndex([Test], 0) == -1;
  }
}
