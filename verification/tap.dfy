/** Reporting events, and the Test Anything Protocol report (src/report/tap.c). */
module Tap {
  import opened Text
  import opened Items
  import opened Messages

  const OUTCOME_PASS: int := 0
  const OUTCOME_FAIL: int := 1
  const OUTCOME_INTERNAL_ERROR: int := 2

  /** The calls that a report receives; a NULL string is passed as an empty one. */
  datatype Event =
    | Init(total: nat)
    | SuiteStart(suite: Item)
    | TestStart(test: Item)
    | TestDone(done: Item, outcome: int, error: string, teardownError: string, output: string)
    | SuiteDone(ended: Item)
    | Done

  /** One printed line. */
  datatype Line =
    | Plan(total: nat)
    | SuiteStarted(name: string)
    | SuitePassed(name: string)
    | SuiteFailed(name: string, failed: nat, total: nat)
    | Result(status: Status, number: nat, name: string)
    | Note(prefix: string, text: string)
    | AllPassed
    | SomeFailed(failed: nat, total: nat)

  datatype Status = Passed | Failed | Aborted

  const ERROR_PREFIX: string := "# error: "
  const STDIO_PREFIX: string := "# stdio: "

  function StatusOf(outcome: int): Status {
    if outcome == OUTCOME_PASS then Passed else if outcome == OUTCOME_FAIL then Failed else Aborted
  }

  function Prefixed(prefix: string, ls: seq<string>): (notes: seq<Line>)
    ensures |notes| == |ls| && forall i :: 0 <= i < |ls| ==> notes[i] == Note(prefix, ls[i])
  {
    seq(|ls|, i requires 0 <= i < |ls| => Note(prefix, ls[i]))
  }

  /** The lines of a message, each behind the prefix. */
  ghost function Notes(prefix: string, message: string): seq<Line> {
    Prefixed(prefix, Lines(message))
  }

  /** The four counters and everything printed so far. */
  datatype State = State(tests: nat, failed: nat, inSuite: nat, failedInSuite: nat, lines: seq<Line>)

  /** What a report has to do on one event. */
  ghost function Step(st: State, e: Event): State {
    match e
    case Init(total) => st.(tests := 0, failed := 0, lines := st.lines + [Plan(total)])
    case SuiteStart(suite) => st.(inSuite := 0, failedInSuite := 0, lines := st.lines + [SuiteStarted(suite.name)])
    case TestStart(_) => st.(tests := st.tests + 1, inSuite := st.inSuite + 1)
    case TestDone(test, outcome, error, teardownError, output) =>
      var bad := if outcome == OUTCOME_PASS then 0 else 1;
      st.(failed := st.failed + bad, failedInSuite := st.failedInSuite + bad,
          lines := st.lines + [Result(StatusOf(outcome), st.tests, test.name)]
                   + (Notes(ERROR_PREFIX, error) + Notes(ERROR_PREFIX, teardownError) + Notes(STDIO_PREFIX, output)))
    case SuiteDone(suite) =>
      st.(lines := st.lines + [if st.failedInSuite == 0 then SuitePassed(suite.name)
                               else SuiteFailed(suite.name, st.failedInSuite, st.inSuite)])
    case Done =>
      st.(lines := st.lines + [if st.failed == 0 then AllPassed else SomeFailed(st.failed, st.tests)])
  }

  const START: State := State(0, 0, 0, 0, [])

  /** The state after the first `n` events. */
  ghost function After(es: seq<Event>, n: nat): State
    requires n <= |es|
  {
    if n == 0 then START else Step(After(es, n - 1), es[n - 1])
  }

  lemma {:induction false} AfterPrefix(es: seq<Event>, more: seq<Event>, n: nat)
    requires n <= |es|
    ensures After(es + more, n) == After(es, n)
  {
    if n > 0 {
      AfterPrefix(es, more, n - 1);
    }
  }

  lemma AfterSnoc(es: seq<Event>, e: Event)
    ensures After(es + [e], |es| + 1) == Step(After(es, |es|), e)
  {
    AfterPrefix(es, [e], |es|);
  }

  // ------------------------------------------------------------ line printing

  /** Neither NUL nor LF from `at` up to `k`. */
  ghost predicate OneLine(s: string, at: nat, k: nat) {
    at <= k < |s| && forall i :: at <= i < k ==> s[i] != NUL && s[i] != LF
  }

  /** Find an LF in the string at `at` (strchr). */
  method FindLf(buffer: array<char>, at: nat) returns (found: bool, k: nat)
    requires Terminated(buffer, at)
    ensures OneLine(buffer[..], at, k) && Terminated(buffer, k)
    ensures buffer[k] == if found then LF else NUL
  {
    k := at;
    while buffer[k] != NUL && buffer[k] != LF
      invariant at <= k < buffer.Length && Terminated(buffer, k)
      invariant forall i :: at <= i < k ==> buffer[i] != NUL && buffer[i] != LF
      decreases buffer.Length - k
    {
      k := k + 1;
    }
    found := buffer[k] == LF;
  }

  /** A cut of the C string at `at`, at its end. */
  lemma CutAtEnd(s: string, at: nat, k: nat)
    requires OneLine(s, at, k) && s[k] == NUL
    ensures CString(s[at..]) == s[at..k] && Lines(s[at..k]) == if k == at then [] else [s[at..k]]
  {
    CStringAt(s, at, k - at);
    IndexOfUnique(s[at..k], LF, k - at);
    assert s[at..k][..k - at] == s[at..k];
  }

  /** A cut of the C string at `at`, at an LF. */
  lemma CutAtLf(s: string, at: nat, k: nat, end: nat)
    requires OneLine(s, at, k) && s[k] == LF
    requires k < end < |s| && s[end] == NUL && forall i :: k < i < end ==> s[i] != NUL
    ensures Lines(CString(s[at..])) == [s[at..k]] + Lines(CString(s[k + 1..]))
  {
    CStringAt(s, k + 1, end - k - 1);
    CStringAt(s, at, end - at);
    var m := s[at..end];
    IndexOfUnique(m, LF, k - at);
    assert m[..k - at] == s[at..k] && m[k - at + 1..] == s[k + 1..end];
  }

  /** The lines `all` are those in `printed` and those of the string at `at`. */
  ghost predicate Remaining(all: seq<string>, printed: seq<string>, s: string, at: nat) {
    at <= |s| && all == printed + Lines(CString(s[at..]))
  }

  lemma FirstNul(s: string, at: nat) returns (end: nat)
    requires exists i :: at <= i < |s| && s[i] == NUL
    ensures at <= end < |s| && s[end] == NUL && forall i :: at <= i < end ==> s[i] != NUL
  {
    end := at;
    while s[end] != NUL
      invariant at <= end < |s| && exists i :: end <= i < |s| && s[i] == NUL
      invariant forall i :: at <= i < end ==> s[i] != NUL
      decreases |s| - end
    {
      end := end + 1;
    }
  }

  lemma CutStep(all: seq<string>, printed: seq<string>, s: string, at: nat, k: nat)
    requires OneLine(s, at, k) && s[k] == LF
    requires exists i :: k <= i < |s| && s[i] == NUL
    requires Remaining(all, printed, s, at)
    ensures Remaining(all, printed + [s[at..k]], s[k := NUL], k + 1)
  {
    var end := FirstNul(s, k);
    CutAtLf(s, at, k, end);
    assert s[k := NUL][k + 1..] == s[k + 1..];
    var rest := Lines(CString(s[k + 1..]));
    assert printed + ([s[at..k]] + rest) == printed + [s[at..k]] + rest;
  }

  /** The state of the loop of print_by_lines: the pieces in `cut` are printed, the string
      goes on at `at`, and its next LF, if any, is at `k`. */
  ghost predicate Cutting(s: string, all: seq<string>, cut: seq<string>, at: nat, found: bool, k: nat) {
    && OneLine(s, at, k) && s[k] == (if found then LF else NUL)
    && (exists i :: k <= i < |s| && s[i] == NUL) && Remaining(all, cut, s, at)
  }

  /** The piece behind the last LF, when there is one, completes the lines. */
  lemma CutFinished(all: seq<string>, cut: seq<string>, s: string, at: nat, k: nat)
    requires OneLine(s, at, k) && s[k] == NUL && Remaining(all, cut, s, at)
    ensures all == cut + if s[at] == NUL then [] else [s[at..k]]
  {
    CutAtEnd(s, at, k);
  }

  /** Overwrite the LF that was found, print the piece before it and look for the next. */
  method CutOne(message: array<char>, ghost all: seq<string>, cut: seq<string>, at: nat, k: nat)
    returns (more: seq<string>, found: bool, next: nat)
    requires Cutting(message[..], all, cut, at, true, k) == true
    modifies message
    ensures k < next < message.Length
    ensures Cutting(message[..], all, more, k + 1, found, next) == true
  {
    CutStep(all, cut, message[..], at, k);
    ghost var s := message[..];
    message[k] := NUL;
    assert message[..] == s[k := NUL];
    assert message[at..k] == s[at..k];
    more := cut + [message[at..k]];
    found, next := FindLf(message, k + 1);
  }

  /** Print the piece behind the last LF, when there is one. */
  method CutRest(message: array<char>, ghost all: seq<string>, cut: seq<string>, at: nat, k: nat) returns (pieces: seq<string>)
    requires Cutting(message[..], all, cut, at, false, k) == true
    ensures pieces == all
  {
    CutFinished(all, cut, message[..], at, k);
    if message[at] == NUL {
      return cut;
    }
    assert message[..][at..k] == message[at..k];
    pieces := cut + [message[at..k]];
  }

  /** Look for the first LF. */
  method CutFirst(message: array<char>, ghost all: seq<string>) returns (found: bool, k: nat)
    requires Terminated(message, 0) && all == Lines(TextOf(message))
    ensures k < message.Length && Cutting(message[..], all, [], 0, found, k) == true
  {
    found, k := FindLf(message, 0);
    assert message[..][0..] == message[..];
  }

  /** The loop of print_by_lines: every LF is overwritten, and the pieces before them are
      printed one after the other. */
  method CutAll(message: array<char>, ghost all: seq<string>, first: bool, lf: nat)
    returns (cut: seq<string>, at: nat, k: nat)
    requires lf < message.Length && Cutting(message[..], all, [], 0, first, lf) == true
    modifies message
    ensures Cutting(message[..], all, cut, at, false, k) == true
  {
    var found := first;
    cut, at, k := [], 0, lf;
    while found
      invariant k < message.Length
      invariant Cutting(message[..], all, cut, at, found, k) == true
      decreases message.Length - k
    {
      var next;
      cut, found, next := CutOne(message, all, cut, at, k);
      at, k := k + 1, next;
    }
  }

  /** Cut a string that is not empty into its lines, overwriting every LF. */
  method CutLines(message: array<char>) returns (cut: seq<string>)
    requires Terminated(message, 0)
    modifies message
    ensures cut == Lines(old(TextOf(message)))
  {
    ghost var all := Lines(TextOf(message));
    var at;
    var found, k := CutFirst(message, all);
    cut, at, k := CutAll(message, all, found, k);
    cut := CutRest(message, all, cut, at, k);
  }

  /** Print a message line by line, each line behind the prefix; NULL and an empty
      message print nothing. Every LF in the buffer is overwritten on the way. */
  method PrintByLines(message: array?<char>, prefix: string) returns (printed: seq<Line>)
    requires message != null ==> Terminated(message, 0)
    modifies if message == null then {} else {message}
    ensures printed == Notes(prefix, old(TextOf(message)))
  {
    if message == null {
      return [];
    }
    if message[0] == NUL {
      CStringAt(message[..], 0, 0);
      assert message[..][0..] == message[..];
      return [];
    }
    var cut := CutLines(message);
    printed := Prefixed(prefix, cut);
  }

  /** The messages of a finished test, in the order in which they are printed. */
  method PrintMessages(error: array?<char>, teardownError: array?<char>, output: array?<char>)
    returns (printed: seq<Line>)
    requires error != null ==> Terminated(error, 0) && error != teardownError && error != output
    requires teardownError != null ==> Terminated(teardownError, 0) && teardownError != output
    requires output != null ==> Terminated(output, 0)
    modifies if error == null then {} else {error}
    modifies if teardownError == null then {} else {teardownError}
    modifies if output == null then {} else {output}
    ensures printed == Notes(ERROR_PREFIX, old(TextOf(error))) + Notes(ERROR_PREFIX, old(TextOf(teardownError)))
                       + Notes(STDIO_PREFIX, old(TextOf(output)))
  {
    printed := PrintByLines(error, ERROR_PREFIX);
    var more := PrintByLines(teardownError, ERROR_PREFIX);
    printed := printed + more;
    more := PrintByLines(output, STDIO_PREFIX);
    printed := printed + more;
  }

  // ---------------------------------------------------------------- the report

  class TapReport {
    var testCounter: nat
    var failedTestCounter: nat
    var testsInSuite: nat
    var failedTestsInSuite: nat
    var lines: seq<Line>
    ghost var trace: seq<Event>

    ghost function Now(): State
      reads this
    {
      State(testCounter, failedTestCounter, testsInSuite, failedTestsInSuite, lines)
    }

    /** The counters and lines are what the events received so far ask for. */
    ghost predicate Valid()
      reads this
    {
      Now() == After(trace, |trace|)
    }

    constructor ()
      ensures Valid() && trace == []
    {
      testCounter, failedTestCounter, testsInSuite, failedTestsInSuite := 0, 0, 0, 0;
      lines, trace := [], [];
    }

    /** A copy of the report, as a new process gets it. */
    constructor Copy(that: TapReport)
      requires that.Valid()
      ensures Valid() && trace == that.trace
    {
      testCounter, failedTestCounter := that.testCounter, that.failedTestCounter;
      testsInSuite, failedTestsInSuite := that.testsInSuite, that.failedTestsInSuite;
      lines, trace := that.lines, that.trace;
    }

    /** The event was handled: the state is as it asks for. */
    ghost method Handled(before: State, e: Event)
      requires before == After(trace, |trace|) && Now() == Step(before, e)
      modifies this`trace
      ensures Valid() && trace == old(trace) + [e]
    {
      AfterSnoc(trace, e);
      trace := trace + [e];
    }

    method Init(head: Item?, ghost s: seq<Item>)
      requires Valid() && Segment(s) && Ended(s) && head == Head(s)
      modifies this
      ensures Valid() && trace == old(trace) + [Event.Init(Rank(Kinds(s), |s|, OnlyTests))]
    {
      ghost var before := Now();
      var total := CountTests(head, s);
      testCounter, failedTestCounter := 0, 0;
      lines := lines + [Plan(total)];
      Handled(before, Event.Init(total));
    }

    method SuiteStart(suite: Item)
      requires Valid()
      modifies this
      ensures Valid() && trace == old(trace) + [Event.SuiteStart(suite)]
    {
      ghost var before := Now();
      testsInSuite, failedTestsInSuite := 0, 0;
      lines := lines + [SuiteStarted(suite.name)];
      Handled(before, Event.SuiteStart(suite));
    }

    method SuiteDone(suite: Item)
      requires Valid()
      modifies this
      ensures Valid() && trace == old(trace) + [Event.SuiteDone(suite)]
    {
      ghost var before := Now();
      if failedTestsInSuite == 0 {
        lines := lines + [SuitePassed(suite.name)];
      } else {
        lines := lines + [SuiteFailed(suite.name, failedTestsInSuite, testsInSuite)];
      }
      Handled(before, Event.SuiteDone(suite));
    }

    method TestStart(test: Item)
      requires Valid()
      modifies this
      ensures Valid() && trace == old(trace) + [Event.TestStart(test)]
    {
      ghost var before := Now();
      testsInSuite := testsInSuite + 1;
      testCounter := testCounter + 1;
      Handled(before, Event.TestStart(test));
    }

    /** The three messages are in three different buffers, or NULL. */
    method TestDone(test: Item, outcome: int, error: array?<char>, teardownError: array?<char>, output: array?<char>)
      requires Valid()
      requires error != null ==> Terminated(error, 0) && error != teardownError && error != output
      requires teardownError != null ==> Terminated(teardownError, 0) && teardownError != output
      requires output != null ==> Terminated(output, 0)
      modifies this, if error == null then {} else {error}
      modifies if teardownError == null then {} else {teardownError}, if output == null then {} else {output}
      ensures Valid() && trace == old(trace) + [Event.TestDone(test, outcome,
                old(TextOf(error)), old(TextOf(teardownError)), old(TextOf(output)))]
    {
      ghost var before := Now();
      ghost var e := Event.TestDone(test, outcome, TextOf(error), TextOf(teardownError), TextOf(output));
      PrintResult(test, outcome);
      var notes := PrintMessages(error, teardownError, output);
      lines := lines + notes;
      Handled(before, e);
    }

    /** Count the test and print its result line. */
    method PrintResult(test: Item, outcome: int)
      modifies this`lines, this`failedTestCounter, this`failedTestsInSuite
      ensures lines == old(lines) + [Result(StatusOf(outcome), testCounter, test.name)]
      ensures failedTestCounter == old(failedTestCounter) + if outcome == OUTCOME_PASS then 0 else 1
      ensures failedTestsInSuite == old(failedTestsInSuite) + if outcome == OUTCOME_PASS then 0 else 1
    {
      if outcome != OUTCOME_PASS {
        failedTestsInSuite := failedTestsInSuite + 1;
        failedTestCounter := failedTestCounter + 1;
      }
      var status;
      if outcome == OUTCOME_PASS {
        status := Passed;
      } else if outcome == OUTCOME_FAIL {
        status := Failed;
      } else {
        status := Aborted;
      }
      lines := lines + [Result(status, testCounter, test.name)];
    }

    method Finish()
      requires Valid()
      modifies this
      ensures Valid() && trace == old(trace) + [Done]
    {
      ghost var before := Now();
      if failedTestCounter == 0 {
        lines := lines + [AllPassed];
      } else {
        lines := lines + [SomeFailed(failedTestCounter, testCounter)];
      }
      Handled(before, Done);
    }
  }
}
