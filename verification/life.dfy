/** The life cycle of one test: what has to happen, as a function of the behaviour
    of its callbacks (the reference that src/run.c is measured against). */
module Life {
  import opened Text
  import opened Items
  import opened Messages
  import opened Channel
  import opened Tap

  /** A C string: it cannot contain a NUL. */
  type Str = s: string | NUL !in s witness ""

  /** How a process ends: exit status, killing signal, or anything else. */
  datatype WaitStatus = Exited(code: int) | Signaled(signal: int) | Other(raw: int)

  /** How a call of a callback ends. */
  datatype End = Passes | Asserts(file: Str, line: int, text: Str) | Terminates(status: WaitStatus)

  /** What a callback does: it prints, then it ends in one of the ways. */
  datatype Script = Script(out: string, end: End)

  /** Whether a call came back, left by longjmp, or ended the process. */
  datatype Control = Returned | Jumped | Ended(status: WaitStatus)

  /** The three static flags that tell the process apart. */
  datatype Mode = Mode(report: bool, frame: bool, exit: bool)

  const SINGLE: Mode := Mode(true, false, false)
  const FORKED: Mode := Mode(false, true, true)

  /** What a call writes, reports and how it ends. */
  datatype Effect = Effect(frames: seq<Frame>, events: seq<Event>, control: Control)

  function Then(a: Effect, b: Effect): Effect {
    Effect(a.frames + b.frames, a.events + b.events, b.control)
  }

  function Failure(e: End): string
    requires e.Asserts?
  {
    Message(e.file, e.line, e.text)
  }

  function Leave(mode: Mode): Control {
    if mode.exit then Ended(Exited(OUTCOME_FAIL)) else Jumped
  }

  function Reported(mode: Mode, e: Event): seq<Event> {
    if mode.report then [e] else []
  }

  /** What a callback prints itself, with its message when that is printed too. */
  function Written(sc: Script, mode: Mode): seq<Frame> {
    [Out(sc.out)] + if sc.end.Asserts? && mode.frame then [Fail(Failure(sc.end))] else []
  }

  /** A callback called when no teardown follows a failure; `prev` is the message of
      the failure that is being handled already, if any. */
  function CallBare(sc: Script, prev: string, mode: Mode, test: Item): Effect {
    match sc.end
    case Passes => Effect(Written(sc, mode), [], Returned)
    case Terminates(status) => Effect(Written(sc, mode), [], Ended(status))
    case Asserts(_, _, _) =>
      Effect(Written(sc, mode), Reported(mode, TestDone(test, OUTCOME_FAIL, prev, Failure(sc.end), "")), Leave(mode))
  }

  /** The teardown that follows a failure with message `m`, and the report of both. */
  function CleanUp(teardown: Option<Script>, m: string, mode: Mode, test: Item): Effect {
    var onlyMain := Effect([], Reported(mode, TestDone(test, OUTCOME_FAIL, m, "", "")), Leave(mode));
    if teardown == None then onlyMain
    else
      var e := CallBare(teardown.value, m, mode, test);
      if e.control == Returned then Then(e, onlyMain) else e
  }

  /** A callback called when the teardown follows a failure. */
  function CallProtected(sc: Script, teardown: Option<Script>, mode: Mode, test: Item): Effect {
    match sc.end
    case Passes => Effect(Written(sc, mode), [], Returned)
    case Terminates(status) => Effect(Written(sc, mode), [], Ended(status))
    case Asserts(_, _, _) =>
      Then(Effect(Written(sc, mode), [], Returned), CleanUp(teardown, Failure(sc.end), mode, test))
  }

  /** What a failed assertion with message `m` does, before and after the teardown. */
  function FailEffect(m: string, prev: string, guarded: bool, teardown: Option<Script>, mode: Mode, test: Item): Effect {
    var rest :=
      if guarded then CleanUp(teardown, m, mode, test)
      else Effect([], Reported(mode, TestDone(test, OUTCOME_FAIL, prev, m, "")), Leave(mode));
    Effect((if mode.frame then [Fail(m)] else []) + rest.frames, rest.events, rest.control)
  }

  lemma BareFail(sc: Script, prev: string, teardown: Option<Script>, mode: Mode, test: Item)
    requires sc.end.Asserts?
    ensures var e := FailEffect(Failure(sc.end), prev, false, teardown, mode, test);
            CallBare(sc, prev, mode, test) == Effect([Out(sc.out)] + e.frames, e.events, e.control)
  {
  }

  lemma GuardedFail(sc: Script, teardown: Option<Script>, mode: Mode, test: Item)
    requires sc.end.Asserts?
    ensures var e := FailEffect(Failure(sc.end), "", true, teardown, mode, test);
            CallProtected(sc, teardown, mode, test) == Effect([Out(sc.out)] + e.frames, e.events, e.control)
  {
    var rest := CleanUp(teardown, Failure(sc.end), mode, test);
    var shown := if mode.frame then [Fail(Failure(sc.end))] else [];
    Associated([Out(sc.out)], shown, rest.frames);
  }

  /** The three callbacks of one test run; the suite need not have all of them. */
  datatype Case = Case(setup: Option<Script>, body: Script, teardown: Option<Script>)

  const NOTHING: Effect := Effect([], [], Returned)

  function SetupEffect(c: Case, mode: Mode, test: Item): Effect {
    if c.setup == None then NOTHING else CallProtected(c.setup.value, c.teardown, mode, test)
  }

  function TeardownEffect(c: Case, mode: Mode, test: Item): Effect {
    if c.teardown == None then NOTHING else CallBare(c.teardown.value, "", mode, test)
  }

  /** `b` happens only when `a` comes back. */
  function Andthen(a: Effect, b: Effect): Effect {
    if a.control == Returned then Then(a, b) else a
  }

  function PassEffect(mode: Mode, test: Item): Effect {
    Effect([], Reported(mode, TestDone(test, OUTCOME_PASS, "", "", "")), Returned)
  }

  /** The three callbacks, and the report of a test that passed. */
  function Callbacks(c: Case, mode: Mode, test: Item): Effect {
    Andthen(Andthen(SetupEffect(c, mode, test), CallProtected(c.body, c.teardown, mode, test)),
            Andthen(TeardownEffect(c, mode, test), PassEffect(mode, test)))
  }

  /** What run_test has to do. */
  function TestEffect(c: Case, mode: Mode, test: Item): Effect {
    Then(Effect([], Reported(mode, TestStart(test)), Returned), Callbacks(c, mode, test))
  }

  lemma TestEffectParts(c: Case, mode: Mode, test: Item)
    ensures var e, rest := TestEffect(c, mode, test), Callbacks(c, mode, test);
            && e.frames == rest.frames && e.control == rest.control
            && e.events == Reported(mode, TestStart(test)) + rest.events
  {
    BehindNothing(Callbacks(c, mode, test).frames);
  }

  // ------------------------------------------- the same, without any control flow

  /** The callbacks that run before the teardown: a failing setup skips the body. */
  function Before(c: Case): seq<Script> {
    if c.setup == None then [c.body]
    else if c.setup.value.end == Passes then [c.setup.value, c.body]
    else [c.setup.value]
  }

  /** The way the part before the teardown ends. */
  function BodyEnd(c: Case): End {
    var b := Before(c);
    b[|b| - 1].end
  }

  function TeardownEnd(c: Case): End {
    if c.teardown == None then Passes else c.teardown.value.end
  }

  /** No callback that is called ends the process itself. */
  predicate Survives(c: Case) {
    !BodyEnd(c).Terminates? && !TeardownEnd(c).Terminates?
  }

  /** The callbacks that are called, in order: a present teardown is called exactly
      once, whatever happened before, unless the process is gone. */
  function Called(c: Case): seq<Script> {
    Before(c) + if c.teardown == None || BodyEnd(c).Terminates? then [] else [c.teardown.value]
  }

  function Outcome(c: Case): int {
    if BodyEnd(c).Asserts? || TeardownEnd(c).Asserts? then OUTCOME_FAIL else OUTCOME_PASS
  }

  function MainMessage(c: Case): string {
    if BodyEnd(c).Asserts? then Failure(BodyEnd(c)) else ""
  }

  function TeardownMessage(c: Case): string {
    if TeardownEnd(c).Asserts? then Failure(TeardownEnd(c)) else ""
  }

  function WrittenBy(cs: seq<Script>, mode: Mode): seq<Frame> {
    if cs == [] then [] else Written(cs[0], mode) + WrittenBy(cs[1..], mode)
  }

  lemma {:induction false} WrittenByConcat(a: seq<Script>, b: seq<Script>, mode: Mode)
    ensures WrittenBy(a + b, mode) == WrittenBy(a, mode) + WrittenBy(b, mode)
  {
    if a == [] {
      assert a + b == b;
    } else {
      assert (a + b)[1..] == a[1..] + b;
      WrittenByConcat(a[1..], b, mode);
    }
  }

  lemma WrittenByOne(sc: Script, mode: Mode)
    ensures WrittenBy([sc], mode) == Written(sc, mode)
  {
    assert [sc][1..] == [];
  }

  /** The setup and the body together. */
  lemma BeforeEffect(c: Case, mode: Mode, test: Item)
    ensures var w := WrittenBy(Before(c), mode); var end := BodyEnd(c);
            Andthen(SetupEffect(c, mode, test), CallProtected(c.body, c.teardown, mode, test))
            == if end.Passes? then Effect(w, [], Returned)
               else if end.Terminates? then Effect(w, [], Ended(end.status))
               else Then(Effect(w, [], Returned), CleanUp(c.teardown, Failure(end), mode, test))
  {
    WrittenByOne(c.body, mode);
    if c.setup.Some? {
      var sc := c.setup.value;
      WrittenByOne(sc, mode);
      if sc.end.Passes? {
        WrittenByConcat([sc], [c.body], mode);
        assert [sc] + [c.body] == Before(c);
      }
    } else {
      assert [] + Written(c.body, mode) == Written(c.body, mode);
    }
  }

  /** The failure of the body, its teardown and the report of both. */
  lemma CleanUpEffect(c: Case, mode: Mode, test: Item)
    requires BodyEnd(c).Asserts?
    ensures var e := CleanUp(c.teardown, Failure(BodyEnd(c)), mode, test); var end := TeardownEnd(c);
            && e.frames == (if c.teardown == None then [] else Written(c.teardown.value, mode))
            && (end.Terminates? ==> e.control == Ended(end.status) && e.events == [])
            && (!end.Terminates? ==>
                  && e.control == Leave(mode)
                  && e.events == Reported(mode, TestDone(test, OUTCOME_FAIL, MainMessage(c), TeardownMessage(c), "")))
  {
  }

  /** The whole life cycle, for every combination of setup, body and teardown passing,
      asserting or ending the process, and in every mode: the callbacks that are called
      write in order; if none of them ends the process there is one start and one report,
      with both messages in their places and FAIL if and only if something asserted;
      otherwise there is no report. */
  lemma LifeCycle(c: Case, mode: Mode, test: Item)
    ensures var e := TestEffect(c, mode, test);
            e.frames == WrittenBy(Called(c), mode)
    ensures var e := TestEffect(c, mode, test);
            Survives(c) ==>
              && e.control == (if Outcome(c) == OUTCOME_PASS then Returned else Leave(mode))
              && e.events == Reported(mode, TestStart(test))
                             + Reported(mode, TestDone(test, Outcome(c), MainMessage(c), TeardownMessage(c), ""))
    ensures var e := TestEffect(c, mode, test);
            !Survives(c) ==>
              && e.control == Ended(if BodyEnd(c).Terminates? then BodyEnd(c).status else TeardownEnd(c).status)
              && e.events == Reported(mode, TestStart(test))
  {
    LifeCycleFrames(c, mode, test);
    LifeCycleEnd(c, mode, test);
  }

  /** What the callbacks write, in every case. */
  lemma LifeCycleFrames(c: Case, mode: Mode, test: Item)
    ensures TestEffect(c, mode, test).frames == WrittenBy(Called(c), mode)
  {
    BeforeEffect(c, mode, test);
    CalledParts(c, mode);
    TestEffectParts(c, mode, test);
    var w := WrittenBy(Before(c), mode);
    if BodyEnd(c).Asserts? {
      CleanUpEffect(c, mode, test);
    } else if BodyEnd(c).Passes? {
      AfterBody(c, mode, test, w);
    }
  }

  /** The body passed: the teardown follows. */
  lemma AfterBody(c: Case, mode: Mode, test: Item, w: seq<Frame>)
    requires BodyEnd(c).Passes?
    requires Andthen(SetupEffect(c, mode, test), CallProtected(c.body, c.teardown, mode, test)) == Effect(w, [], Returned)
    ensures Callbacks(c, mode, test).frames == w + if c.teardown == None then [] else Written(c.teardown.value, mode)
  {
    var e := Andthen(TeardownEffect(c, mode, test), PassEffect(mode, test));
    assert Callbacks(c, mode, test).frames == w + e.frames;
    assert e.frames == if c.teardown == None then [] else Written(c.teardown.value, mode);
  }

  /** What is reported, and how the test ends, in every case. */
  lemma LifeCycleEnd(c: Case, mode: Mode, test: Item)
    ensures var e := TestEffect(c, mode, test);
            Survives(c) ==>
              && e.control == (if Outcome(c) == OUTCOME_PASS then Returned else Leave(mode))
              && e.events == Reported(mode, TestStart(test))
                             + Reported(mode, TestDone(test, Outcome(c), MainMessage(c), TeardownMessage(c), ""))
    ensures var e := TestEffect(c, mode, test);
            !Survives(c) ==>
              && e.control == Ended(if BodyEnd(c).Terminates? then BodyEnd(c).status else TeardownEnd(c).status)
              && e.events == Reported(mode, TestStart(test))
  {
    BeforeEffect(c, mode, test);
    if BodyEnd(c).Asserts? {
      CleanUpEffect(c, mode, test);
    }
  }

  lemma CalledParts(c: Case, mode: Mode)
    ensures WrittenBy(Called(c), mode) == WrittenBy(Before(c), mode)
              + if c.teardown == None || BodyEnd(c).Terminates? then [] else Written(c.teardown.value, mode)
  {
    if c.teardown.Some? && !BodyEnd(c).Terminates? {
      WrittenByOne(c.teardown.value, mode);
      WrittenByConcat(Before(c), [c.teardown.value], mode);
    } else {
      assert Called(c) == Before(c);
    }
  }

  /** A surviving run reports FAIL if and only if a callback that was called asserted. */
  lemma FailsIffAsserted(c: Case)
    requires Survives(c)
    ensures Outcome(c) == OUTCOME_FAIL <==> exists i :: 0 <= i < |Called(c)| && Called(c)[i].end.Asserts?
  {
    var cs, b := Called(c), Before(c);
    assert cs[|b| - 1] == b[|b| - 1];
    if c.teardown.Some? {
      assert cs[|b|] == c.teardown.value;
    }
  }

  // ------------------------------------------------------------ the two modes

  /** All that some callbacks print themselves. */
  function Printed(scs: seq<Script>): string {
    if scs == [] then "" else scs[0].out + Printed(scs[1..])
  }

  /** In single mode the bytes that are written are those that the callbacks print: no
      message and no framing is among them. */
  lemma {:induction false} SingleWritesOutput(scs: seq<Script>)
    ensures EncodeAll(WrittenBy(scs, SINGLE)) == Printed(scs)
    ensures forall i :: 0 <= i < |WrittenBy(scs, SINGLE)| ==> WrittenBy(scs, SINGLE)[i].Out?
  {
    if scs != [] {
      SingleWritesOutput(scs[1..]);
      OneFrame(Out(scs[0].out));
      EncodeConcat(Written(scs[0], SINGLE), WrittenBy(scs[1..], SINGLE));
    }
  }

  /** Which callbacks are called, and in which order: a set-up first; the body unless the
      set-up failed or ended the process; a tear-down last, unless the process is gone. */
  lemma WhoIsCalled(c: Case)
    ensures var goesOn := c.setup == None || c.setup.value.end.Passes?;
            var gone := if goesOn then c.body.end.Terminates? else c.setup.value.end.Terminates?;
            && Called(c) == (if c.setup == None then [] else [c.setup.value]) + (if goesOn then [c.body] else [])
                            + (if c.teardown == None || gone then [] else [c.teardown.value])
            && (Survives(c) <==> forall i :: 0 <= i < |Called(c)| ==> !Called(c)[i].end.Terminates?)
  {
    var b := Before(c);
    assert Called(c)[|b| - 1] == b[|b| - 1];
    if c.teardown.Some? && !BodyEnd(c).Terminates? {
      assert Called(c)[|b|] == c.teardown.value;
    }
  }

  /** A test in the process of the scheduler: its callbacks' output and nothing else is
      written, and it reports its start and, if it comes to its end, its result. */
  lemma SingleRun(c: Case, test: Item)
    ensures var e := TestEffect(c, SINGLE, test);
            && EncodeAll(e.frames) == Printed(Called(c))
            && (Survives(c) ==>
                  && e.control == (if BodyEnd(c).Asserts? || TeardownEnd(c).Asserts? then Jumped else Returned)
                  && e.events == [TestStart(test)]
                       + [TestDone(test, if BodyEnd(c).Asserts? || TeardownEnd(c).Asserts? then 1 else 0,
                                   MainMessage(c), TeardownMessage(c), "")])
            && (!Survives(c) ==> e.control.Ended? && e.events == [TestStart(test)])
  {
    LifeCycle(c, SINGLE, test);
    SingleWritesOutput(Called(c));
  }

  /** A test in a process of its own reports nothing; it leaves with status 1 if something
      asserted. */
  lemma ForkedRun(c: Case, test: Item)
    ensures var e := TestEffect(c, FORKED, test);
            && e.events == []
            && (Survives(c) ==>
                  e.control == if BodyEnd(c).Asserts? || TeardownEnd(c).Asserts? then Ended(Exited(1)) else Returned)
  {
    LifeCycle(c, FORKED, test);
  }
}
