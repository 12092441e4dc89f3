/** The XML report (src/report/xml.c), another observer of the same events. */
module XmlReporting {
  import opened Text
  import opened Items
  import opened Messages
  import opened Tap
  import opened Scheduling
  import opened RunTheorems

  datatype Tag = ErrorMessage | StandardOutput

  /** One piece of printed markup; the numbers behind a suite are in a comment. */
  datatype Piece =
    | Prolog
    | ReportStart(total: nat)
    | SuiteStart(name: string)
    | CaseStart(name: string, status: string)
    | TextStart(tag: Tag)
    | TextLine(text: string)
    | TextEnd(tag: Tag)
    | CaseEnd(name: string)
    | SuiteEnd(name: string, failed: nat, total: nat)
    | ReportEnd

  function StatusText(outcome: int): string {
    if outcome == OUTCOME_PASS then "pass" else if outcome == OUTCOME_FAIL then "fail" else "error"
  }

  function TextLines(ls: seq<string>): (ps: seq<Piece>)
    ensures |ps| == |ls| && forall i :: 0 <= i < |ls| ==> ps[i] == TextLine(ls[i])
  {
    seq(|ls|, i requires 0 <= i < |ls| => TextLine(ls[i]))
  }

  /** A message inside its element; an empty one prints nothing. */
  ghost function ElementOf(message: string, tag: Tag): seq<Piece> {
    if message == "" then [] else [TextStart(tag)] + TextLines(Lines(message)) + [TextEnd(tag)]
  }

  ghost function ElementsOf(error: string, teardownError: string, output: string): seq<Piece> {
    ElementOf(error, ErrorMessage) + ElementOf(teardownError, ErrorMessage) + ElementOf(output, StandardOutput)
  }

  datatype XmlState = XmlState(tests: nat, inSuite: nat, failedInSuite: nat, pieces: seq<Piece>)

  /** What the report has to print on one event. */
  ghost function Printed(st: XmlState, e: Event): seq<Piece> {
    match e
    case Init(total) => [Prolog] + [ReportStart(total)]
    case SuiteStart(suite) => [Piece.SuiteStart(suite.name)]
    case TestStart(_) => []
    case TestDone(test, outcome, error, teardownError, output) =>
      [CaseStart(test.name, StatusText(outcome))] + ElementsOf(error, teardownError, output) + [CaseEnd(test.name)]
    case SuiteDone(suite) => [SuiteEnd(suite.name, st.failedInSuite, st.inSuite)]
    case Done => [ReportEnd]
  }

  /** The three counters after one event. */
  ghost function Counted(st: XmlState, e: Event): XmlState {
    match e
    case Init(_) => st.(tests := 0)
    case SuiteStart(_) => st.(inSuite := 0, failedInSuite := 0)
    case TestStart(_) => st.(tests := st.tests + 1, inSuite := st.inSuite + 1)
    case TestDone(_, outcome, _, _, _) =>
      st.(failedInSuite := st.failedInSuite + if outcome == OUTCOME_PASS then 0 else 1)
    case _ => st
  }

  ghost function XmlStep(st: XmlState, e: Event): XmlState {
    Counted(st, e).(pieces := st.pieces + Printed(st, e))
  }

  ghost function XmlAfter(es: seq<Event>, n: nat): XmlState
    requires n <= |es|
  {
    if n == 0 then XmlState(0, 0, 0, []) else XmlStep(XmlAfter(es, n - 1), es[n - 1])
  }

  lemma {:induction false} XmlPrefix(es: seq<Event>, more: seq<Event>, n: nat)
    requires n <= |es|
    ensures XmlAfter(es + more, n) == XmlAfter(es, n)
  {
    if n > 0 {
      XmlPrefix(es, more, n - 1);
    }
  }

  // ------------------------------------------------------ well-formed documents

  /** An element that is open. */
  datatype Element = InReport | InSuite(name: string) | InCase(name: string) | InText(tag: Tag)

  /** The open elements, outermost first, the test cases of the last suite, and the
      number of outermost elements so far. */
  datatype Nesting = Nesting(open: seq<Element>, cases: nat, bad: nat, roots: nat) | Broken

  const NOTHING_READ: Nesting := Nesting([], 0, 0, 0)

  function Enter(n: Nesting, inside: Element): Nesting
    requires n.Nesting?
  {
    n.(open := n.open + [inside])
  }

  function Leave(n: Nesting, last: Element): Nesting
    requires n.Nesting?
  {
    if n.open != [] && n.open[|n.open| - 1] == last then n.(open := n.open[..|n.open| - 1]) else Broken
  }

  /** Reading one piece: every end has to match the innermost open element, every
      element has to stand where it belongs, and the numbers behind a suite have to be
      those of its test cases. */
  function Read(n: Nesting, p: Piece): Nesting {
    if n == Broken then Broken
    else match p
      case Prolog => if n.roots == 0 then n else Broken
      case ReportStart(_) => if n.roots == 0 then Enter(n.(roots := 1), InReport) else Broken
      case SuiteStart(name) => if |n.open| == 1 then Enter(n.(cases := 0, bad := 0), InSuite(name)) else Broken
      case CaseStart(name, status) =>
        if |n.open| != 2 then Broken
        else Enter(n.(cases := n.cases + 1, bad := n.bad + if status == "pass" then 0 else 1), InCase(name))
      case TextStart(tag) => if |n.open| == 3 then Enter(n, InText(tag)) else Broken
      case TextLine(_) => if |n.open| == 4 then n else Broken
      case TextEnd(tag) => Leave(n, InText(tag))
      case CaseEnd(name) => Leave(n, InCase(name))
      case SuiteEnd(name, failed, total) => if failed == n.bad && total == n.cases then Leave(n, InSuite(name)) else Broken
      case ReportEnd => Leave(n, InReport)
  }

  function ReadAll(n: Nesting, ps: seq<Piece>): Nesting {
    if ps == [] then n else Read(ReadAll(n, ps[..|ps| - 1]), ps[|ps| - 1])
  }

  lemma {:induction false} ReadConcat(n: Nesting, a: seq<Piece>, b: seq<Piece>)
    ensures ReadAll(n, a + b) == ReadAll(ReadAll(n, a), b)
  {
    if b == [] {
      assert a + b == a;
    } else {
      assert (a + b)[..|a + b| - 1] == a + b[..|b| - 1];
      ReadConcat(n, a, b[..|b| - 1]);
    }
  }

  lemma ReadOne(n: Nesting, p: Piece)
    ensures ReadAll(n, [p]) == Read(n, p)
  {
    assert [p][..0] == [];
  }

  lemma {:induction false} ReadLines(n: Nesting, ps: seq<Piece>)
    requires n.Nesting? && |n.open| == 4 && forall i :: 0 <= i < |ps| ==> ps[i].TextLine?
    ensures ReadAll(n, ps) == n
  {
    if ps != [] {
      ReadLines(n, ps[..|ps| - 1]);
    }
  }

  /** A message leaves the nesting as it was. */
  lemma ReadElement(n: Nesting, message: string, tag: Tag)
    requires n.Nesting? && |n.open| == 3
    ensures ReadAll(n, ElementOf(message, tag)) == n
  {
    if message != "" {
      var lines, inside := TextLines(Lines(message)), Enter(n, InText(tag));
      ReadOne(n, TextStart(tag));
      ReadLines(inside, lines);
      ReadConcat(n, [TextStart(tag)], lines);
      ReadConcat(n, [TextStart(tag)] + lines, [TextEnd(tag)]);
      ReadOne(inside, TextEnd(tag));
      assert inside.open[..3] == n.open;
    }
  }

  lemma ReadElements(n: Nesting, error: string, teardownError: string, output: string)
    requires n.Nesting? && |n.open| == 3
    ensures ReadAll(n, ElementsOf(error, teardownError, output)) == n
  {
    var a, b, c := ElementOf(error, ErrorMessage), ElementOf(teardownError, ErrorMessage), ElementOf(output, StandardOutput);
    ReadElement(n, error, ErrorMessage);
    ReadElement(n, teardownError, ErrorMessage);
    ReadElement(n, output, StandardOutput);
    ReadConcat(n, a, b);
    ReadConcat(n, a + b, c);
  }

  lemma ReadCase(n: Nesting, name: string, status: string, inner: seq<Piece>)
    requires n.Nesting? && |n.open| == 2
    requires forall m: Nesting :: m.Nesting? && |m.open| == 3 ==> ReadAll(m, inner) == m
    ensures ReadAll(n, [CaseStart(name, status)] + inner + [CaseEnd(name)])
            == n.(cases := n.cases + 1, bad := n.bad + if status == "pass" then 0 else 1)
  {
    var inside := Read(n, CaseStart(name, status));
    ReadOne(n, CaseStart(name, status));
    ReadConcat(n, [CaseStart(name, status)], inner);
    ReadConcat(n, [CaseStart(name, status)] + inner, [CaseEnd(name)]);
    ReadOne(inside, CaseEnd(name));
    assert inside.open[..2] == n.open;
  }

  /** What has to be open in a phase of the report. */
  ghost predicate Nested(ph: Phase, n: Nesting, st: XmlState) {
    && n.Nesting? && n.roots == (if ph == Fresh then 0 else 1)
    && match ph
       case Fresh => n.open == []
       case Between => n.open == [InReport]
       case Open(suite, tests) =>
         n.open == [InReport, InSuite(suite.name)] && n.cases == tests == st.inSuite && n.bad == st.failedInSuite
       case Active(suite, before, _) =>
         && n.open == [InReport, InSuite(suite.name)] && n.cases == before && st.inSuite == before + 1
         && n.bad == st.failedInSuite
       case Closed => n.open == []
       case Stuck => false
  }

  lemma ReadEvent(ph: Phase, n: Nesting, st: XmlState, e: Event)
    requires Nested(ph, n, st) && Move(ph, e) != Stuck
    ensures Nested(Move(ph, e), ReadAll(n, Printed(st, e)), XmlStep(st, e)) == true
  {
    match e
    case Init(total) =>
      ReadOne(n, Prolog);
      ReadConcat(n, [Prolog], [ReportStart(total)]);
      ReadOne(n, ReportStart(total));
    case TestDone(test, outcome, error, teardownError, output) =>
      forall m: Nesting | m.Nesting? && |m.open| == 3
        ensures ReadAll(m, ElementsOf(error, teardownError, output)) == m
      {
        ReadElements(m, error, teardownError, output);
      }
      ReadCase(n, test.name, StatusText(outcome), ElementsOf(error, teardownError, output));
    case TestStart(_) =>
    case SuiteStart(_) =>
      ReadOne(n, Printed(st, e)[0]);
    case SuiteDone(_) =>
      ReadOne(n, Printed(st, e)[0]);
    case Done =>
      ReadOne(n, Printed(st, e)[0]);
  }

  /** One more event, read behind everything before. */
  lemma ReadNext(ph: Phase, st: XmlState, e: Event)
    requires Nested(ph, ReadAll(NOTHING_READ, st.pieces), st) == true && Move(ph, e) != Stuck
    ensures Nested(Move(ph, e), ReadAll(NOTHING_READ, XmlStep(st, e).pieces), XmlStep(st, e)) == true
  {
    var nothing := NOTHING_READ;
    ReadEvent(ph, ReadAll(nothing, st.pieces), st, e);
    ReadConcat(nothing, st.pieces, Printed(st, e));
  }

  /** Element nesting, after every event of every grammatical trace: the elements that
      are open are the report, the suite that is open, and no other. */
  lemma {:induction false} NestingKept(es: seq<Event>, n: nat)
    requires n <= |es| && PhaseAfter(Fresh, es, n) != Stuck
    ensures Nested(PhaseAfter(Fresh, es, n), ReadAll(NOTHING_READ, XmlAfter(es, n).pieces), XmlAfter(es, n)) == true
  {
    if n == 0 {
      assert XmlAfter(es, 0).pieces == [] && PhaseAfter(Fresh, es, 0) == Fresh;
    } else {
      NestingKept(es, n - 1);
      ReadNext(PhaseAfter(Fresh, es, n - 1), XmlAfter(es, n - 1), es[n - 1]);
    }
  }

  /** A document: one outermost element, and everything closed in the right order, with
      the right names and numbers. */
  ghost predicate IsDocument(ps: seq<Piece>) {
    var n := ReadAll(NOTHING_READ, ps);
    n.Nesting? && n.open == [] && n.roots == 1
  }

  /** The events of every full run ask for a document. */
  lemma DocumentComplete(p: Schedule)
    requires p.Valid()
    ensures IsDocument(XmlAfter(p.RunEvents(), |p.RunEvents()|).pieces)
  {
    RunShape(p);
    NestingKept(p.RunEvents(), |p.RunEvents()|);
  }

  // -------------------------------------------- the other report, read off this one

  /** What a reader of the document has to keep in mind to write down the lines of the
      other report. */
  datatype Scribe = Scribe(lines: seq<Line>, cases: nat, bad: nat, tag: Tag)

  const NOTHING_WRITTEN: Scribe := Scribe([], 0, 0, ErrorMessage)

  /** The lines for one piece: test cases are numbered as they come, and what they are
      called and what became of them stands in their start. */
  function Write(r: Scribe, p: Piece): Scribe {
    match p
    case ReportStart(total) => r.(lines := r.lines + [Plan(total)])
    case SuiteStart(name) => r.(lines := r.lines + [SuiteStarted(name)])
    case CaseStart(name, status) =>
      var became := if status == "pass" then Passed else if status == "fail" then Failed else Aborted;
      r.(lines := r.lines + [Result(became, r.cases + 1, name)], cases := r.cases + 1,
         bad := r.bad + if status == "pass" then 0 else 1)
    case TextStart(tag) => r.(tag := tag)
    case TextLine(text) =>
      r.(lines := r.lines + [Note(if r.tag == ErrorMessage then "# error: " else "# stdio: ", text)])
    case SuiteEnd(name, failed, total) =>
      r.(lines := r.lines + [if failed == 0 then SuitePassed(name) else SuiteFailed(name, failed, total)])
    case ReportEnd => r.(lines := r.lines + [if r.bad == 0 then AllPassed else SomeFailed(r.bad, r.cases)])
    case _ => r
  }

  function WriteAll(r: Scribe, ps: seq<Piece>): Scribe {
    if ps == [] then r else Write(WriteAll(r, ps[..|ps| - 1]), ps[|ps| - 1])
  }

  lemma {:induction false} WriteConcat(r: Scribe, a: seq<Piece>, b: seq<Piece>)
    ensures WriteAll(r, a + b) == WriteAll(WriteAll(r, a), b)
  {
    if b == [] {
      assert a + b == a;
    } else {
      assert (a + b)[..|a + b| - 1] == a + b[..|b| - 1];
      WriteConcat(r, a, b[..|b| - 1]);
    }
  }

  lemma WriteOne(r: Scribe, p: Piece)
    ensures WriteAll(r, [p]) == Write(r, p)
  {
    assert [p][..0] == [];
  }

  function PrefixOf(tag: Tag): string {
    if tag == ErrorMessage then "# error: " else "# stdio: "
  }

  lemma {:induction false} WriteLines(r: Scribe, ls: seq<string>)
    ensures WriteAll(r, TextLines(ls)) == r.(lines := r.lines + Prefixed(PrefixOf(r.tag), ls))
  {
    if ls == [] {
      assert r.lines + Prefixed(PrefixOf(r.tag), ls) == r.lines;
    } else {
      var n := |ls| - 1;
      assert TextLines(ls)[..n] == TextLines(ls[..n]);
      WriteLines(r, ls[..n]);
      assert Prefixed(PrefixOf(r.tag), ls) == Prefixed(PrefixOf(r.tag), ls[..n]) + [Note(PrefixOf(r.tag), ls[n])];
    }
  }

  lemma WriteAround(r: Scribe, start: Piece, inner: seq<Piece>, end: Piece)
    ensures WriteAll(r, [start] + inner + [end]) == Write(WriteAll(Write(r, start), inner), end)
  {
    WriteOne(r, start);
    WriteConcat(r, [start], inner);
    WriteConcat(r, [start] + inner, [end]);
    WriteOne(WriteAll(r, [start] + inner), end);
  }

  lemma WriteInside(r: Scribe, ls: seq<string>, tag: Tag)
    ensures WriteAll(r, [TextStart(tag)] + TextLines(ls) + [TextEnd(tag)])
            == r.(lines := r.lines + Prefixed(PrefixOf(tag), ls), tag := tag)
  {
    WriteAround(r, TextStart(tag), TextLines(ls), TextEnd(tag));
    WriteLines(r.(tag := tag), ls);
  }

  /** A message, as it stands in both reports. */
  lemma WriteElement(r: Scribe, message: string, tag: Tag)
    ensures var q := WriteAll(r, ElementOf(message, tag));
            q == r.(lines := r.lines + Prefixed(PrefixOf(tag), Lines(message)), tag := q.tag)
  {
    if message == "" {
      assert Lines("") == [];
      assert r.lines + [] == r.lines;
    } else {
      WriteInside(r, Lines(message), tag);
    }
  }

  lemma WriteElements(r: Scribe, error: string, teardownError: string, output: string)
    ensures var q := WriteAll(r, ElementsOf(error, teardownError, output));
            q == r.(lines := r.lines + (Notes(ERROR_PREFIX, error) + Notes(ERROR_PREFIX, teardownError)
                                        + Notes(STDIO_PREFIX, output)), tag := q.tag)
  {
    var a, b, c := ElementOf(error, ErrorMessage), ElementOf(teardownError, ErrorMessage), ElementOf(output, StandardOutput);
    WriteConcat(r, a, b);
    WriteConcat(r, a + b, c);
    WriteElement(r, error, ErrorMessage);
    WriteElement(WriteAll(r, a), teardownError, ErrorMessage);
    WriteElement(WriteAll(r, a + b), output, StandardOutput);
    Associated(r.lines, Notes(ERROR_PREFIX, error), Notes(ERROR_PREFIX, teardownError));
    Associated(r.lines, Notes(ERROR_PREFIX, error) + Notes(ERROR_PREFIX, teardownError), Notes(STDIO_PREFIX, output));
  }

  lemma CaseWritten(r: Scribe, name: string, outcome: int, inner: seq<Piece>, notes: seq<Line>)
    requires var begun := Write(r, CaseStart(name, StatusText(outcome)));
             var q := WriteAll(begun, inner); q == begun.(lines := begun.lines + notes, tag := q.tag)
    ensures var q := WriteAll(r, [CaseStart(name, StatusText(outcome))] + inner + [CaseEnd(name)]);
            && q.lines == r.lines + [Result(StatusOf(outcome), r.cases + 1, name)] + notes
            && q.cases == r.cases + 1 && q.bad == r.bad + if outcome == OUTCOME_PASS then 0 else 1
  {
    WriteAround(r, CaseStart(name, StatusText(outcome)), inner, CaseEnd(name));
  }

  /** A test case. */
  lemma WriteCase(r: Scribe, test: Item, outcome: int, error: string, teardownError: string, output: string)
    ensures var notes := Notes(ERROR_PREFIX, error) + Notes(ERROR_PREFIX, teardownError) + Notes(STDIO_PREFIX, output);
            var q := WriteAll(r, [CaseStart(test.name, StatusText(outcome))]
                                 + ElementsOf(error, teardownError, output) + [CaseEnd(test.name)]);
            && q.lines == r.lines + [Result(StatusOf(outcome), r.cases + 1, test.name)] + notes
            && q.cases == r.cases + 1 && q.bad == r.bad + if outcome == OUTCOME_PASS then 0 else 1
  {
    WriteElements(Write(r, CaseStart(test.name, StatusText(outcome))), error, teardownError, output);
    CaseWritten(r, test.name, outcome, ElementsOf(error, teardownError, output),
                Notes(ERROR_PREFIX, error) + Notes(ERROR_PREFIX, teardownError) + Notes(STDIO_PREFIX, output));
  }

  /** Both reports know the same. */
  ghost predicate SameKnown(ph: Phase, r: Scribe, st: State, xs: XmlState) {
    && r.lines == st.lines && r.bad == st.failed && st.tests == r.cases + (if ph.Active? then 1 else 0)
    && xs.inSuite == st.inSuite && xs.failedInSuite == st.failedInSuite && (ph == Fresh ==> st == START)
  }

  lemma SameKnownDone(ph: Phase, r: Scribe, st: State, xs: XmlState, e: Event)
    requires e.TestDone? && SameKnown(ph, r, st, xs) && Move(ph, e) != Stuck
    ensures SameKnown(Move(ph, e), WriteAll(r, Printed(xs, e)), Step(st, e), XmlStep(xs, e)) == true
  {
    WriteCase(r, e.done, e.outcome, e.error, e.teardownError, e.output);
  }

  lemma SameKnownStart(ph: Phase, r: Scribe, st: State, xs: XmlState, e: Event)
    requires e.Init? && SameKnown(ph, r, st, xs) && Move(ph, e) != Stuck
    ensures SameKnown(Move(ph, e), WriteAll(r, Printed(xs, e)), Step(st, e), XmlStep(xs, e)) == true
  {
    WriteConcat(r, [Prolog], [ReportStart(e.total)]);
    WriteOne(r, Prolog);
    WriteOne(r, ReportStart(e.total));
  }

  lemma SameKnownOther(ph: Phase, r: Scribe, st: State, xs: XmlState, e: Event)
    requires !e.TestDone? && !e.Init? && SameKnown(ph, r, st, xs) && Move(ph, e) != Stuck
    ensures SameKnown(Move(ph, e), WriteAll(r, Printed(xs, e)), Step(st, e), XmlStep(xs, e)) == true
  {
    if !e.TestStart? {
      WriteOne(r, Printed(xs, e)[0]);
    }
  }

  lemma SameKnownNext(ph: Phase, r: Scribe, st: State, xs: XmlState, e: Event)
    requires SameKnown(ph, r, st, xs) == true && Move(ph, e) != Stuck
    ensures SameKnown(Move(ph, e), WriteAll(r, Printed(xs, e)), Step(st, e), XmlStep(xs, e)) == true
  {
    if e.TestDone? {
      SameKnownDone(ph, r, st, xs, e);
    } else if e.Init? {
      SameKnownStart(ph, r, st, xs, e);
    } else {
      SameKnownOther(ph, r, st, xs, e);
    }
  }

  /** The two reports say the same: after every event of every grammatical trace the lines
      of the other report can be read off the pieces of this one, line by line. */
  lemma {:induction false} ReportsSayTheSame(es: seq<Event>, n: nat)
    requires n <= |es| && PhaseAfter(Fresh, es, n) != Stuck
    ensures SameKnown(PhaseAfter(Fresh, es, n), WriteAll(NOTHING_WRITTEN, XmlAfter(es, n).pieces),
                      After(es, n), XmlAfter(es, n)) == true
    ensures WriteAll(NOTHING_WRITTEN, XmlAfter(es, n).pieces).lines == After(es, n).lines
  {
    if n > 0 {
      ReportsSayTheSame(es, n - 1);
      var before := XmlAfter(es, n - 1);
      SameKnownNext(PhaseAfter(Fresh, es, n - 1), WriteAll(NOTHING_WRITTEN, before.pieces), After(es, n - 1),
                    before, es[n - 1]);
      WriteConcat(NOTHING_WRITTEN, before.pieces, Printed(before, es[n - 1]));
    } else {
      assert XmlAfter(es, 0).pieces == [] && After(es, 0) == START;
    }
  }

  // ---------------------------------------------------------------- the report

  /** Print a message into an element, line by line; NULL and an empty message print
      nothing. Every LF in the buffer is overwritten on the way. */
  method PrintElement(message: array?<char>, tag: Tag) returns (printed: seq<Piece>)
    requires message != null ==> Terminated(message, 0)
    modifies if message == null then {} else {message}
    ensures printed == ElementOf(old(TextOf(message)), tag)
  {
    if message == null {
      return [];
    }
    assert message[..][0..] == message[..];
    if message[0] == NUL {
      CStringAt(message[..], 0, 0);
      return [];
    }
    var cut := CutLines(message);
    printed := [TextStart(tag)] + TextLines(cut) + [TextEnd(tag)];
  }

  /** The messages of a finished test, in the order in which they are printed. */
  method PrintElements(error: array?<char>, teardownError: array?<char>, output: array?<char>)
    returns (printed: seq<Piece>)
    requires error != null ==> Terminated(error, 0) && error != teardownError && error != output
    requires teardownError != null ==> Terminated(teardownError, 0) && teardownError != output
    requires output != null ==> Terminated(output, 0)
    modifies if error == null then {} else {error}
    modifies if teardownError == null then {} else {teardownError}
    modifies if output == null then {} else {output}
    ensures printed == ElementsOf(old(TextOf(error)), old(TextOf(teardownError)), old(TextOf(output)))
  {
    printed := PrintElement(error, ErrorMessage);
    var more := PrintElement(teardownError, ErrorMessage);
    printed := printed + more;
    more := PrintElement(output, StandardOutput);
    printed := printed + more;
  }

  class XmlReport {
    var testCounter: nat
    var testsInSuite: nat
    var failedTestsInSuite: nat
    var pieces: seq<Piece>
    ghost var trace: seq<Event>

    ghost function Now(): XmlState
      reads this
    {
      XmlState(testCounter, testsInSuite, failedTestsInSuite, pieces)
    }

    /** The counters and the markup are what the events received so far ask for. */
    ghost predicate Valid()
      reads this
    {
      Now() == XmlAfter(trace, |trace|)
    }

    constructor ()
      ensures Valid() && trace == []
    {
      testCounter, testsInSuite, failedTestsInSuite := 0, 0, 0;
      pieces, trace := [], [];
    }

    /** The event was handled: the state is as it asks for. */
    ghost method Handled(before: XmlState, e: Event)
      requires before == XmlAfter(trace, |trace|) && Now() == XmlStep(before, e)
      modifies this`trace
      ensures Valid() && trace == old(trace) + [e]
    {
      XmlPrefix(trace, [e], |trace|);
      trace := trace + [e];
    }

    method Init(head: Item?, ghost s: seq<Item>)
      requires Valid() && Segment(s) && Ended(s) && head == Head(s)
      modifies this
      ensures Valid() && trace == old(trace) + [Event.Init(Rank(Kinds(s), |s|, OnlyTests))]
    {
      ghost var before := Now();
      var total := CountTests(head, s);
      testCounter := 0;
      pieces := pieces + ([Prolog] + [ReportStart(total)]);
      Handled(before, Event.Init(total));
    }

    method SuiteStart(suite: Item)
      requires Valid()
      modifies this
      ensures Valid() && trace == old(trace) + [Event.SuiteStart(suite)]
    {
      ghost var before := Now();
      testsInSuite, failedTestsInSuite := 0, 0;
      pieces := pieces + [Piece.SuiteStart(suite.name)];
      Handled(before, Event.SuiteStart(suite));
    }

    method SuiteDone(suite: Item)
      requires Valid()
      modifies this
      ensures Valid() && trace == old(trace) + [Event.SuiteDone(suite)]
    {
      ghost var before := Now();
      pieces := pieces + [SuiteEnd(suite.name, failedTestsInSuite, testsInSuite)];
      Handled(before, Event.SuiteDone(suite));
    }

    method TestStart(test: Item)
      requires Valid()
      modifies this
      ensures Valid() && trace == old(trace) + [Event.TestStart(test)]
    {
      ghost var before := Now();
      testsInSuite, testCounter := testsInSuite + 1, testCounter + 1;
      assert pieces == before.pieces + [];
      Handled(before, Event.TestStart(test));
    }

    /** The three messages are in three different buffers, or NULL. */
    method TestDone(test: Item, outcome: int, error: array?<char>, teardownError: array?<char>, output: array?<char>)
      requires Valid()
      requires error != null ==> Terminated(error, 0) && error != teardownError && error != output
      requires teardownError != null ==> Terminated(teardownError, 0) && teardownError != output
      requires output != null ==> Terminated(output, 0)
      modifies this, if error == null then {} else {error}
      modifies if teardownError == null then {} else {teardownError}, if output == null then {} else {output}
      ensures Valid() && trace == old(trace) + [Event.TestDone(test, outcome,
                old(TextOf(error)), old(TextOf(teardownError)), old(TextOf(output)))]
    {
      ghost var before, e := Now(), Event.TestDone(test, outcome, TextOf(error), TextOf(teardownError), TextOf(output));
      if outcome != OUTCOME_PASS {
        failedTestsInSuite := failedTestsInSuite + 1;
      }
      var status;
      if outcome == OUTCOME_PASS {
        status := "pass";
      } else if outcome == OUTCOME_FAIL {
        status := "fail";
      } else {
        status := "error";
      }
      var inner := PrintElements(error, teardownError, output);
      pieces := pieces + ([CaseStart(test.name, status)] + inner + [CaseEnd(test.name)]);
      Handled(before, e);
    }

    method Finish()
      requires Valid()
      modifies this
      ensures Valid() && trace == old(trace) + [Done]
    {
      ghost var before := Now();
      pieces := pieces + [ReportEnd];
      Handled(before, Done);
    }
  }

  /** An XML report that received the events of a full run has printed a document. */
  lemma ReportIsDocument(report: XmlReport, p: Schedule)
    requires p.Valid() && report.Valid() && report.trace == p.RunEvents()
    ensures IsDocument(report.pieces)
  {
    DocumentComplete(p);
  }
}
