/** Test execution over the static state of src/run.c: flags, current test and
    suite, and the message of the failure that is being handled. */
module Running {
  import opened Text
  import opened Items
  import opened Messages
  import opened Channel
  import opened Tap
  import opened Life

  lemma Extended(fs: seq<Frame>, f: Frame, stdout: string)
    requires stdout == EncodeAll(fs) + Encode(f)
    ensures stdout == EncodeAll(fs + [f])
  {
    EncodeSnoc(fs, f);
  }

  /** The index of the suite that the item at `k` belongs to: the last suite at or
      before `k`, or -1. */
  function SuiteIndex(ks: seq<Kind>, k: int): (i: int)
    requires k < |ks|
    ensures -1 <= i && (k < 0 ==> i == -1) && (k >= 0 ==> i <= k)
    ensures i >= 0 ==> ks[i] == TestSuite
    ensures forall j :: i < j <= k && j >= 0 ==> ks[j] != TestSuite
  {
    if k < 0 then -1 else if ks[k] == TestSuite then k else SuiteIndex(ks, k - 1)
  }

  /** The suite that the item at `k` of the list belongs to. */
  function ParentSuite(s: seq<Item>, ks: seq<Kind>, k: nat, default: Item): Item
    requires k < |s| == |ks|
  {
    var i := SuiteIndex(ks, k);
    if i >= 0 then s[i] else default
  }

  /** What the callbacks of one test do. */
  ghost function CaseOf(user: (Func, Item) -> Script, suite: Item, test: Item): Case
    reads suite`setupFunc, suite`teardownFunc
  {
    Case(if suite.setupFunc == None then None else Some(user(suite.setupFunc.value, test)),
         user(test.testFunc, test),
         if suite.teardownFunc == None then None else Some(user(suite.teardownFunc.value, test)))
  }

  class Runner {
    var executeTeardownOnFailure: bool
    var reportTestResult: bool
    var printTestError: bool
    var leaveMeansExit: bool
    var currentTest: Item?
    var currentSuite: Item?
    var prevMessage: array?<char>

    const defaultSuite: Item
    const store: MessageStore
    const report: TapReport
    /** The user's code: what a callback does while a test is the current one. */
    const user: (Func, Item) -> Script

    /** Everything that this process wrote to its standard output. */
    var stdout: string
    ghost var frames: seq<Frame>

    ghost function Footprint(): set<object>
    {
      {this, report, store, store.first, store.second}
    }

    ghost predicate Valid()
      reads this, store, report
    {
      store.Valid() && report.Valid() && stdout == EncodeAll(frames)
    }

    /** Between two tests no failure is being handled. */
    ghost predicate Ready()
      reads this, store, report
    {
      Valid() && prevMessage == null
    }

    ghost function TheMode(): Mode
      reads this
    {
      Mode(reportTestResult, printTestError, leaveMeansExit)
    }

    /** The message of the failure that is being handled is in the buffer that is
        not written next. */
    ghost predicate Handling()
      reads this, store, store.first, store.second
    {
      && (executeTeardownOnFailure ==> prevMessage == null)
      && (prevMessage != null ==> prevMessage == store.Other() && Terminated(prevMessage, 0))
    }

    /** What a call in the present state has to do. */
    ghost function CallEffect(sc: Script): Effect
      requires currentTest != null && currentSuite != null && Handling()
      reads this, store, store.first, store.second, currentSuite
    {
      if executeTeardownOnFailure then
        CallProtected(sc, CaseOf(user, currentSuite, currentTest).teardown, TheMode(), currentTest)
      else
        CallBare(sc, TextOf(prevMessage), TheMode(), currentTest)
    }

    constructor (user: (Func, Item) -> Script, defaultSuite: Item)
      ensures Ready() && this.user == user && this.defaultSuite == defaultSuite
      ensures frames == [] && report.trace == []
      ensures fresh(store) && fresh(report) && fresh(store.first) && fresh(store.second)
    {
      this.user, this.defaultSuite := user, defaultSuite;
      store := new MessageStore();
      report := new TapReport();
      executeTeardownOnFailure, reportTestResult, printTestError, leaveMeansExit := false, false, false, false;
      currentTest, currentSuite, prevMessage := null, null, null;
      stdout, frames := "", [];
    }

    /** Print a failure message with its framing zero bytes. */
    method PrintFailMessage(message: array?<char>)
      requires stdout == EncodeAll(frames) && (message != null ==> Terminated(message, 0))
      modifies this`stdout, this`frames
      ensures stdout == EncodeAll(frames)
      ensures frames == old(frames) + if message == null then [] else [Fail(TextOf(message))]
    {
      if message == null {
        return;
      }
      ghost var text, fs := TextOf(message), frames;
      frames := frames + [Fail(text)];
      var length := StrLen(message, 0);
      assert message[0..] == message[..] && message[..length] == message[0..length] == text;
      if length > 0 {
        var framed := [NUL, NUL, NUL] + message[..length] + [LF, NUL];
        assert framed == Encode(Fail(text));
        stdout := stdout + framed;
      }
      Extended(fs, Fail(text), stdout);
    }

    /** Terminate the current test: by exit, or by a long jump to run_test. */
    method LeaveTest(outcome: int) returns (c: Control)
      ensures c == if leaveMeansExit then Ended(Exited(outcome)) else Jumped
    {
      if leaveMeansExit {
        return Ended(Exited(outcome));
      }
      c := Jumped;
    }

    /** The call wrote and reported exactly what `e` says. */
    twostate predicate Did(e: Effect)
      reads this, report
    {
      frames == old(frames) + e.frames && report.trace == old(report.trace) + e.events
    }

    /** The static state that a call leaves alone. */
    twostate predicate SameTest()
      reads this
    {
      && TheMode() == old(TheMode())
      && currentTest == old(currentTest) && currentSuite == old(currentSuite)
    }

    /** A call that comes back leaves the state of the failure handling alone. */
    twostate predicate SameHandling()
      reads this, store, store.first, store.second
    {
      && executeTeardownOnFailure == old(executeTeardownOnFailure) && prevMessage == old(prevMessage)
      && store.index == old(store.index)
      && store.first[..] == old(store.first[..]) && store.second[..] == old(store.second[..])
    }

    /** Print to the standard output. */
    method PrintOut(text: string)
      requires stdout == EncodeAll(frames)
      modifies this`stdout, this`frames
      ensures stdout == EncodeAll(frames) && frames == old(frames) + [Out(text)]
    {
      Extended(frames, Out(text), stdout + text);
      stdout, frames := stdout + text, frames + [Out(text)];
    }

    /** Call a callback of the user while a test is running. */
    method CallUser(f: Func, ghost e: Effect) returns (c: Control)
      requires Valid() && currentTest != null && currentSuite != null && Handling()
      requires e == CallEffect(user(f, currentTest))
      modifies Footprint()
      ensures Valid() && SameTest() && Did(e) && c == e.control
      ensures c == Returned ==> SameHandling()
      ensures c == Jumped ==> prevMessage == null
      decreases executeTeardownOnFailure, 4
    {
      var sc := user(f, currentTest);
      if !sc.end.Asserts? {
        PrintOut(sc.out);
        return if sc.end.Passes? then Returned else Ended(sc.end.status);
      }
      ghost var prev, teardown := TextOf(prevMessage), CaseOf(user, currentSuite, currentTest).teardown;
      ghost var fail := FailEffect(Failure(sc.end), prev, executeTeardownOnFailure, teardown, TheMode(), currentTest);
      if executeTeardownOnFailure {
        GuardedFail(sc, teardown, TheMode(), currentTest);
      } else {
        BareFail(sc, prev, teardown, TheMode(), currentTest);
      }
      c := PrintAndFail(sc, fail);
      Associated(old(frames), [Out(sc.out)], fail.frames);
    }

    /** The part of a callback that prints and then fails an assertion. */
    method PrintAndFail(sc: Script, ghost e: Effect) returns (c: Control)
      requires Valid() && Handling() && sc.end.Asserts?
      requires IsFail(e, Failure(sc.end), TextOf(prevMessage))
      modifies Footprint()
      ensures Valid() && SameTest() && c == e.control
      ensures frames == old(frames) + [Out(sc.out)] + e.frames && report.trace == old(report.trace) + e.events
      ensures c != Returned && (c == Jumped ==> prevMessage == null)
      decreases executeTeardownOnFailure, 3
    {
      PrintOut(sc.out);
      c := FailedAssertionFmt(sc.end.file, sc.end.line, sc.end.text, e);
    }

    /** Run a set-up or tear-down function, if there is one. */
    method RunSetupTeardown(f: Option<Func>, ghost e: Effect) returns (c: Control)
      requires Valid() && currentTest != null && currentSuite != null && Handling()
      requires e == if f == None then NOTHING else CallEffect(user(f.value, currentTest))
      modifies Footprint()
      ensures Valid() && SameTest() && Did(e) && c == e.control
      ensures c == Returned ==> SameHandling()
      ensures c == Jumped ==> prevMessage == null
      decreases executeTeardownOnFailure, 5
    {
      if f != None {
        c := CallUser(f.value, e);
      } else {
        c := Returned;
      }
    }

    /** What a failed assertion with message `m` has to do in the present state. */
    ghost predicate IsFail(e: Effect, m: string, prev: string)
      reads this, currentSuite
    {
      && currentTest != null && currentSuite != null
      && e == FailEffect(m, prev, executeTeardownOnFailure,
                         CaseOf(user, currentSuite, currentTest).teardown, TheMode(), currentTest)
    }

    /** Raise an assertion error: format the message, then process the failure. */
    method FailedAssertionFmt(file: Str, line: int, text: Str, ghost e: Effect) returns (c: Control)
      requires Valid() && Handling() && IsFail(e, Message(file, line, text), TextOf(prevMessage))
      modifies Footprint()
      ensures Valid() && SameTest() && Did(e) && c == e.control
      ensures c != Returned && (c == Jumped ==> prevMessage == null)
      decreases executeTeardownOnFailure, 2
    {
      var message := store.Format(file, line, text);
      c := FailedAssertion(message, Message(file, line, text), e);
    }

    /** Print a failure message if this process is to print its failures. */
    method ShowMessage(message: array<char>, ghost m: string)
      requires Valid() && HasText(message, m)
      modifies this`stdout, this`frames
      ensures Valid() && frames == old(frames) + if printTestError then [Fail(m)] else []
    {
      TextRead(message, m);
      if printTestError {
        PrintFailMessage(message);
      }
    }

    /** What comes after the message of a failure: handling and report. */
    ghost function Handled(m: string, prev: string): Effect
      requires currentTest != null && currentSuite != null
      reads this, currentSuite
    {
      if executeTeardownOnFailure then
        CleanUp(CaseOf(user, currentSuite, currentTest).teardown, m, TheMode(), currentTest)
      else
        Effect([], Reported(TheMode(), Event.TestDone(currentTest, OUTCOME_FAIL, prev, m, "")), Leave(TheMode()))
    }

    /** Process a failed assertion: print it, clean up, report and leave. */
    method FailedAssertion(message: array<char>, ghost m: string, ghost e: Effect) returns (c: Control)
      requires Valid() && message == store.Other() && HasText(message, m)
      requires executeTeardownOnFailure ==> prevMessage == null
      requires prevMessage != null ==> prevMessage == store.Current() && Terminated(prevMessage, 0)
      requires IsFail(e, m, TextOf(prevMessage))
      modifies Footprint()
      ensures Valid() && SameTest() && Did(e) && c == e.control
      ensures c != Returned && (c == Jumped ==> prevMessage == null)
      decreases executeTeardownOnFailure, 1
    {
      ghost var rest, shown := Handled(m, TextOf(prevMessage)), if printTestError then [Fail(m)] else [];
      FailIsHandled(e, m, TextOf(prevMessage), rest, shown);
      ShowMessage(message, m);
      c := HandleFailure(message, m, rest);
      Associated(old(frames), shown, rest.frames);
    }

    /** The two parts of a failure: the message that is shown, and the rest. */
    lemma FailIsHandled(e: Effect, m: string, prev: string, rest: Effect, shown: seq<Frame>)
      requires IsFail(e, m, prev) && rest == Handled(m, prev) && shown == if printTestError then [Fail(m)] else []
      ensures e == Effect(shown + rest.frames, rest.events, rest.control)
    {
    }

    /** The part of a failed assertion behind the print. */
    method HandleFailure(message: array<char>, ghost m: string, ghost e: Effect) returns (c: Control)
      requires Valid() && message == store.Other() && HasText(message, m)
      requires executeTeardownOnFailure ==> prevMessage == null
      requires prevMessage != null ==> prevMessage == store.Current() && Terminated(prevMessage, 0)
      requires currentTest != null && currentSuite != null && e == Handled(m, TextOf(prevMessage))
      modifies Footprint()
      ensures Valid() && SameTest() && Did(e) && c == e.control
      ensures c != Returned && (c == Jumped ==> prevMessage == null)
      decreases executeTeardownOnFailure, 0, 1
    {
      if executeTeardownOnFailure {
        c := CleanUpAndReport(message, m, e);
        if c != Returned {
          return;
        }
      } else {
        TextRead(message, m);
        if reportTestResult {
          report.TestDone(currentTest, OUTCOME_FAIL, prevMessage, message, null);
        }
      }
      prevMessage := null;
      c := LeaveTest(OUTCOME_FAIL);
    }

    /** The branch of a first failure: the teardown, then the report of the failure
        unless the teardown has left. */
    method CleanUpAndReport(message: array<char>, ghost m: string, ghost e: Effect) returns (c: Control)
      requires Valid() && currentTest != null && currentSuite != null
      requires message == store.Other() && HasText(message, m) && executeTeardownOnFailure
      requires e == CleanUp(CaseOf(user, currentSuite, currentTest).teardown, m, TheMode(), currentTest)
      modifies Footprint()
      ensures Valid() && SameTest() && Did(e)
      ensures c == Returned ==> e.control == old(Leave(TheMode()))
      ensures c != Returned ==> c == e.control && (c == Jumped ==> prevMessage == null)
      decreases executeTeardownOnFailure, 0, 0
    {
      ghost var teardown := CaseOf(user, currentSuite, currentTest).teardown;
      TextRead(message, m);
      executeTeardownOnFailure := false;
      prevMessage := message;
      ghost var call := if teardown == None then NOTHING else CallBare(teardown.value, m, TheMode(), currentTest);
      c := RunSetupTeardown(currentSuite.teardownFunc, call);
      if c != Returned {
        return;
      }
      TextRead(message, m);
      if reportTestResult {
        report.TestDone(currentTest, OUTCOME_FAIL, message, null, null);
      }
    }

    /** Find the suite that a test belongs to, walking backward. */
    method FindParentSuite(test: Item, ghost s: seq<Item>, ghost k: nat) returns (suite: Item)
      requires DoublyLinked(s) && k < |s| && s[k] == test
      ensures suite == ParentSuite(s, Kinds(s), k, defaultSuite)
    {
      var it: Item? := test;
      ghost var i: int := k;
      while it != null
        invariant -1 <= i <= k && (if i >= 0 then it == s[i] else it == null)
        invariant SuiteIndex(Kinds(s), k) == SuiteIndex(Kinds(s), i)
        decreases i
      {
        if it.kind == TestSuite {
          return it;
        }
        it, i := it.previous, i - 1;
      }
      suite := defaultSuite;
    }

    /** The callbacks of the current test. */
    ghost function TheCase(): Case
      requires currentTest != null && currentSuite != null
      reads this, currentSuite
    {
      CaseOf(user, currentSuite, currentTest)
    }

    /** The set-up function and the test itself; a failure runs the teardown. */
    method RunBefore(ghost setup: Effect, ghost body: Effect) returns (c: Control)
      requires Ready() && currentTest != null && currentSuite != null && executeTeardownOnFailure
      requires setup == SetupEffect(TheCase(), TheMode(), currentTest)
      requires body == CallProtected(TheCase().body, TheCase().teardown, TheMode(), currentTest)
      modifies Footprint()
      ensures Valid() && SameTest() && Did(Andthen(setup, body)) && c == Andthen(setup, body).control
      ensures c == Returned || c == Jumped ==> prevMessage == null
    {
      c := RunSetupTeardown(currentSuite.setupFunc, setup);
      if c != Returned {
        return;
      }
      c := CallUser(currentTest.testFunc, body);
      Associated(old(frames), setup.frames, body.frames);
      Associated(old(report.trace), setup.events, body.events);
    }

    /** The tear-down function and the report of a test that passed. */
    method RunAfter(ghost teardown: Effect, ghost pass: Effect) returns (c: Control)
      requires Ready() && currentTest != null && currentSuite != null && !executeTeardownOnFailure
      requires teardown == TeardownEffect(TheCase(), TheMode(), currentTest)
      requires pass == PassEffect(TheMode(), currentTest)
      modifies Footprint()
      ensures Valid() && SameTest() && Did(Andthen(teardown, pass)) && c == Andthen(teardown, pass).control
      ensures c == Returned || c == Jumped ==> prevMessage == null
    {
      c := RunSetupTeardown(currentSuite.teardownFunc, teardown);
      if c != Returned {
        return;
      }
      if reportTestResult {
        report.TestDone(currentTest, OUTCOME_PASS, null, null, null);
      }
    }

    /** Everything between the start of the test and its end, in whatever way. */
    method RunCallbacks(ghost cs: Case, ghost e: Effect) returns (c: Control)
      requires Ready() && currentTest != null && currentSuite != null && cs == TheCase()
      requires e == Callbacks(cs, TheMode(), currentTest)
      modifies Footprint()
      ensures Valid() && SameTest() && Did(e) && c == e.control
      ensures c == Returned || c == Jumped ==> prevMessage == null
    {
      ghost var setup := SetupEffect(cs, TheMode(), currentTest);
      ghost var body := CallProtected(cs.body, cs.teardown, TheMode(), currentTest);
      ghost var teardown, pass := TeardownEffect(cs, TheMode(), currentTest), PassEffect(TheMode(), currentTest);
      ghost var before, after := Andthen(setup, body), Andthen(teardown, pass);
      executeTeardownOnFailure := true;
      c := RunBefore(setup, body);
      if c != Returned {
        return;
      }
      executeTeardownOnFailure := false;
      c := RunAfter(teardown, pass);
      Associated(old(frames), before.frames, after.frames);
      Associated(old(report.trace), before.events, after.events);
    }

    /** A run did what `e` says: either the process is gone, or the run is over with
        its error status and nothing is left to handle. */
    ghost predicate Ran(e: Effect, c: Control, rc: int, oldFrames: seq<Frame>, oldTrace: seq<Event>)
      reads this`frames, this`prevMessage, report
    {
      && frames == oldFrames + e.frames && report.trace == oldTrace + e.events
      && if e.control.Ended? then c == e.control
         else c == Returned && prevMessage == null && rc == if e.control == Returned then OUTCOME_PASS else OUTCOME_FAIL
    }

    /** The callbacks of the test at `k` of the list. */
    ghost function CaseAt(s: seq<Item>, k: nat): Case
      requires k < |s|
      reads s`kind, ParentSuite(s, Kinds(s), k, defaultSuite)
    {
      CaseOf(user, ParentSuite(s, Kinds(s), k, defaultSuite), s[k])
    }

    /** Report the start of a test and make it the current one. */
    method Enter(test: Item, ghost s: seq<Item>, ghost k: nat)
      requires Valid() && DoublyLinked(s) && k < |s| && s[k] == test
      modifies this`currentSuite, this`currentTest, report
      ensures Valid() && currentTest == test && currentSuite != null && TheCase() == old(CaseAt(s, k))
      ensures report.trace == old(report.trace) + Reported(TheMode(), Event.TestStart(test))
    {
      ghost var kinds := Kinds(s);
      if reportTestResult {
        report.TestStart(test);
      }
      assert Kinds(s) == kinds;
      currentSuite := FindParentSuite(test, s, k);
      currentTest := test;
    }

    /** Run a test; a long jump out of a callback ends here. `c` tells whether the
        process is still there, `rc` is the error status. */
    method RunTest(test: Item, ghost s: seq<Item>, ghost k: nat, ghost cs: Case) returns (c: Control, rc: int)
      requires Ready() == true && DoublyLinked(s) == true && k < |s| && s[k] == test && cs == CaseAt(s, k)
      modifies Footprint()
      ensures Valid() == true && TheMode() == old(TheMode())
      ensures Ran(TestEffect(cs, old(TheMode()), test), c, rc, old(frames), old(report.trace)) == true
    {
      ghost var mode := TheMode();
      ghost var rest := Callbacks(cs, mode, test);
      Enter(test, s, k);
      c, rc := RunEntered(cs, rest);
      TestEffectParts(cs, mode, test);
      Associated(old(report.trace), Reported(mode, Event.TestStart(test)), rest.events);
    }

    /** The callbacks of the current test, and the landing place of a long jump. */
    method RunEntered(ghost cs: Case, ghost e: Effect) returns (c: Control, rc: int)
      requires Ready() && currentTest != null && currentSuite != null && cs == TheCase()
      requires e == Callbacks(cs, TheMode(), currentTest)
      modifies Footprint()
      ensures Valid() && SameTest() && Ran(e, c, rc, old(frames), old(report.trace))
    {
      c := RunCallbacks(cs, e);
      if c == Jumped {
        return Returned, OUTCOME_FAIL;
      }
      rc := OUTCOME_PASS;
    }

    /** Tell this process apart from the others. */
    method SetFlags(report: bool, frame: bool, exit: bool)
      requires Ready()
      modifies this`reportTestResult, this`printTestError, this`leaveMeansExit
      ensures Ready() == true && TheMode() == Mode(report, frame, exit)
    {
      reportTestResult, printTestError, leaveMeansExit := report, frame, exit;
    }

    /** Run a test with the flags set like that. */
    method RunFlagged(test: Item, report: bool, frame: bool, exit: bool, ghost s: seq<Item>, ghost k: nat, ghost cs: Case)
      returns (c: Control, rc: int)
      requires Ready() && DoublyLinked(s) == true && k < |s| && s[k] == test && cs == CaseAt(s, k)
      modifies Footprint()
      ensures Valid() == true
      ensures Ran(TestEffect(cs, Mode(report, frame, exit), test), c, rc, old(frames), old(this.report.trace)) == true
    {
      SetFlags(report, frame, exit);
      c, rc := RunTest(test, s, k, cs);
      if c == Returned {
        currentTest, currentSuite := null, null;
      }
    }

    /** The test was run in this process: its callbacks' output was written and nothing
        else, and it reported itself. */
    ghost predicate SingleRan(cs: Case, test: Item, c: Control, rc: int, oldOut: string, oldTrace: seq<Event>)
      reads this`stdout, report
    {
      var failed := BodyEnd(cs).Asserts? || TeardownEnd(cs).Asserts?;
      && stdout == oldOut + Printed(Called(cs))
      && if Survives(cs) then
           && c == Returned && rc == (if failed then 1 else 0)
           && report.trace == oldTrace + ([Event.TestStart(test)]
                + [Event.TestDone(test, if failed then 1 else 0, MainMessage(cs), TeardownMessage(cs), "")])
         else c.Ended? && report.trace == oldTrace + [Event.TestStart(test)]
    }

    /** What a run in single mode comes down to. */
    lemma SingleIsRan(cs: Case, test: Item, c: Control, rc: int, oldFrames: seq<Frame>, oldTrace: seq<Event>)
      requires Valid() && Ran(TestEffect(cs, SINGLE, test), c, rc, oldFrames, oldTrace) == true
      ensures SingleRan(cs, test, c, rc, EncodeAll(oldFrames), oldTrace) == true
    {
      SingleRun(cs, test);
      EncodeConcat(oldFrames, TestEffect(cs, SINGLE, test).frames);
    }

    /** Run a test in single mode: report its result, stay in this process. */
    method RunTestSingle(test: Item, ghost s: seq<Item>, ghost k: nat, ghost cs: Case) returns (c: Control, rc: int)
      requires Ready() && DoublyLinked(s) == true && k < |s| && s[k] == test && cs == CaseAt(s, k)
      modifies Footprint()
      ensures Valid() == true && Ran(TestEffect(cs, SINGLE, test), c, rc, old(frames), old(report.trace)) == true
      ensures SingleRan(cs, test, c, rc, old(stdout), old(report.trace)) == true
    {
      c, rc := RunFlagged(test, true, false, false, s, k, cs);
      SingleIsRan(cs, test, c, rc, old(frames), old(report.trace));
    }

    /** Run a test in a process of its own: print failures, leave by exit. */
    method RunTestForked(test: Item, ghost s: seq<Item>, ghost k: nat, ghost cs: Case) returns (c: Control, rc: int)
      requires Ready() && DoublyLinked(s) == true && k < |s| && s[k] == test && cs == CaseAt(s, k)
      modifies Footprint()
      ensures Valid() == true && Ran(TestEffect(cs, FORKED, test), c, rc, old(frames), old(report.trace)) == true
      ensures report.trace == old(report.trace)
    {
      c, rc := RunFlagged(test, false, true, true, s, k, cs);
      ForkedRun(cs, test);
    }

    /** The copy of this process that fork makes: the same static state in memory of
        its own, and a standard output of its own. */
    constructor Fork(that: Runner)
      requires that.Ready()
      ensures Ready() && user == that.user && defaultSuite == that.defaultSuite
      ensures frames == [] && report.trace == that.report.trace
      ensures fresh(store) && fresh(report) && fresh(store.first) && fresh(store.second)
    {
      user, defaultSuite := that.user, that.defaultSuite;
      store := new MessageStore.Copy(that.store);
      report := new TapReport.Copy(that.report);
      executeTeardownOnFailure, reportTestResult := that.executeTeardownOnFailure, that.reportTestResult;
      printTestError, leaveMeansExit := that.printTestError, that.leaveMeansExit;
      currentTest, currentSuite, prevMessage := that.currentTest, that.currentSuite, null;
      stdout, frames := "", [];
    }
  }
}
