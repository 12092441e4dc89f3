/** The whole program: prepare the list, read the arguments, run what they ask for
    (pcut_main in src/main.c). */
module Program {
  import opened Text
  import opened Items
  import opened ListFix
  import opened Channel
  import opened Tap
  import opened Life
  import opened Running
  import opened Binding
  import opened Forking
  import opened RunTheorems
  import opened Scheduling
  import opened Totals

  const OUTCOME_BAD_INVOCATION: int := 3

  // ---------------------------------------------------------------- arguments

  /** The number behind the last argument that starts with the option, or -1. */
  function LastNumber(args: seq<string>, n: nat, opt: string): int
    requires n <= |args|
  {
    if n == 0 then -1
    else if opt <= args[n - 1] then Atoi(args[n - 1][|opt|..])
    else LastNumber(args, n - 1, opt)
  }

  /** What the arguments ask for. */
  datatype Task = ListTests | Refused | OneSuite(id: int) | OneTest(id: int) | Everything

  function TaskOf(args: seq<string>): Task {
    var suite, test := LastNumber(args, |args|, "-s"), LastNumber(args, |args|, "-t");
    if "-l" in args then ListTests
    else if suite >= 0 && test >= 0 then Refused
    else if suite > 0 then OneSuite(suite)
    else if test > 0 then OneTest(test)
    else Everything
  }

  /** `n` is the number behind the last argument that begins with the option. */
  ghost predicate Number(args: seq<string>, opt: string, n: int) {
    exists i :: IsLastWith(args, opt, i) && n == Atoi(args[i][|opt|..])
  }

  ghost predicate IsLastWith(args: seq<string>, opt: string, i: int) {
    0 <= i < |args| && opt <= args[i] && forall j :: i < j < |args| ==> !(opt <= args[j])
  }

  /** What arguments ask for what: a listing whenever "-l" is there; nothing, if both a
      suite and a test are named by numbers that are not negative; a suite or a test that
      is named by a positive number; and the whole run otherwise. */
  ghost predicate Asks(args: seq<string>, task: Task) {
    if "-l" in args then task == ListTests
    else match task
      case ListTests => false
      case Refused => exists m, n :: Number(args, "-s", m) && Number(args, "-t", n) && m >= 0 && n >= 0
      case OneSuite(id) => id > 0 && Number(args, "-s", id) && forall n :: Number(args, "-t", n) ==> n < 0
      case OneTest(id) => id > 0 && Number(args, "-t", id) && forall n :: Number(args, "-s", n) ==> n < 0
      case Everything =>
        && (forall n :: Number(args, "-s", n) ==> n <= 0) && (forall n :: Number(args, "-t", n) ==> n <= 0)
        && forall m, n :: Number(args, "-s", m) && Number(args, "-t", n) ==> m < 0 || n < 0
  }

  lemma {:induction false} LastNumberAt(args: seq<string>, n: nat, opt: string)
    requires n <= |args| && forall j :: n <= j < |args| ==> !(opt <= args[j])
    ensures forall m :: Number(args, opt, m) ==> m == LastNumber(args, n, opt)
    ensures Number(args, opt, LastNumber(args, n, opt)) || LastNumber(args, n, opt) == -1
  {
    if n > 0 {
      if opt <= args[n - 1] {
        assert IsLastWith(args, opt, n - 1);
      } else {
        LastNumberAt(args, n - 1, opt);
      }
    }
  }

  /** Every list of arguments asks for one thing, and that is what the program does. */
  lemma TaskIsAsked(args: seq<string>, task: Task)
    ensures Asks(args, task) <==> task == TaskOf(args)
  {
    LastNumberAt(args, |args|, "-s");
    LastNumberAt(args, |args|, "-t");
  }

  lemma AskedIs(args: seq<string>)
    ensures Asks(args, TaskOf(args)) == true
  {
    TaskIsAsked(args, TaskOf(args));
  }

  /** Checks whether the argument is an option followed by a number. */
  method IsArgWithNumber(arg: string, opt: string, value: int) returns (matches: bool, newValue: int)
    ensures matches <==> opt <= arg
    ensures newValue == if matches then Atoi(arg[|opt|..]) else value
  {
    if |arg| < |opt| || arg[..|opt|] != opt {
      return false, value;
    }
    return true, Atoi(arg[|opt|..]);
  }

  /** Read the arguments; "-l" is acted upon at once. */
  method ReadArguments(args: seq<string>) returns (task: Task, single: bool)
    ensures task == TaskOf(args) && Asks(args, task) == true
    ensures task != ListTests ==> single == ("-u" in args)
  {
    AskedIs(args);
    var onlySuite, onlyTest, matches := -1, -1, false;
    single := false;
    for i := 0 to |args|
      invariant onlySuite == LastNumber(args, i, "-s") && onlyTest == LastNumber(args, i, "-t")
      invariant "-l" !in args[..i] && single == ("-u" in args[..i])
    {
      matches, onlySuite := IsArgWithNumber(args[i], "-s", onlySuite);
      matches, onlyTest := IsArgWithNumber(args[i], "-t", onlyTest);
      if args[i] == "-l" {
        return ListTests, single;
      }
      if args[i] == "-u" {
        single := true;
      }
      assert args[..i + 1] == args[..i] + [args[i]];
    }
    assert args[..|args|] == args;
    if onlySuite >= 0 && onlyTest >= 0 {
      return Refused, single;
    }
    if onlySuite > 0 {
      return OneSuite(onlySuite), single;
    }
    if onlyTest > 0 {
      return OneTest(onlyTest), single;
    }
    task := Everything;
  }

  /** The argument that a parent makes of an id is read back by the child as that id, and
      so is an argument that names a suite. */
  lemma OptionRoundTrip(id: int)
    ensures TaskOf(["-t" + Decimal(id)]) == if id > 0 then OneTest(id) else Everything
    ensures TaskOf(["-s" + Decimal(id)]) == if id > 0 then OneSuite(id) else Everything
  {
    OneOption("-t", "-s", id);
    OneOption("-s", "-t", id);
  }

  lemma OneOption(opt: string, other: string, id: int)
    requires |opt| == |other| == 2 && opt[1] != other[1] && opt[1] != 'l'
    ensures "-l" !in [opt + Decimal(id)]
    ensures LastNumber([opt + Decimal(id)], 1, opt) == id && LastNumber([opt + Decimal(id)], 1, other) == -1
  {
    var arg := opt + Decimal(id);
    assert arg[1] == opt[1] && arg[2..] == Decimal(id);
    AtoiOfDecimal(id);
    assert LastNumber([arg], 1, other) == LastNumber([arg], 0, other) == -1;
  }

  // ----------------------------------------------------------- the list to run

  /** The kinds of the items once the list is fixed. */
  function SettledKinds(s: seq<Item>, was: map<Item, Kind>): (ks: seq<Kind>)
    ensures |ks| == |s| && forall i :: 0 <= i < |s| && s[i] in was ==> ks[i] == Settled(was[s[i]], s[i].extras)
  {
    seq(|s|, i requires 0 <= i < |s| => if s[i] in was then Settled(was[s[i]], s[i].extras) else Skip)
  }

  /** The kinds of the items once the fixtures are hidden. */
  function HiddenKinds(ks: seq<Kind>): (hs: seq<Kind>)
    ensures |hs| == |ks| && forall i :: 0 <= i < |ks| ==> hs[i] == Hidden(ks[i])
  {
    seq(|ks|, i requires 0 <= i < |ks| => Hidden(ks[i]))
  }

  lemma {:induction false} HiddenSuites(ks: seq<Kind>, k: int)
    requires k < |ks|
    ensures SuiteIndex(HiddenKinds(ks), k) == SuiteIndex(ks, k)
  {
    if k >= 0 {
      HiddenSuites(ks, k - 1);
    }
  }

  function CallOf(f: Option<Func>, user: (Func, Item) -> Script, test: Item): Option<Script> {
    if f == None then None else Some(user(f.value, test))
  }

  /** The callbacks of the test at `t`: those of its suite, which are the last ones of
      the segment of that suite. */
  function BoundCase(s: seq<Item>, ks: seq<Kind>, setups: seq<Option<Func>>, teardowns: seq<Option<Func>>,
                     user: (Func, Item) -> Script, t: nat): Case
    requires t < |s| == |ks| == |setups| == |teardowns|
  {
    var i, body := SuiteIndex(ks, t), user(s[t].testFunc, s[t]);
    if i < 0 then Case(None, body, None)
    else Case(CallOf(Bound(ks, setups, i, |ks|, Setup), user, s[t]), body,
              CallOf(Bound(ks, teardowns, i, |ks|, Teardown), user, s[t]))
  }

  /** A test runs with the last set-up and the last tear-down function of its own
      suite's segment, wherever in the segment they are declared; a kind of fixture that
      the segment lacks is the one that the suite was declared with. */
  lemma OwnFixtures(s: seq<Item>, ks: seq<Kind>, setups: seq<Option<Func>>, teardowns: seq<Option<Func>>,
                    user: (Func, Item) -> Script, i: nat, end: nat, t: nat)
    requires |s| == |ks| == |setups| == |teardowns| && SegmentEnd(ks, i, end) && i < t < end
    ensures var cs := BoundCase(s, ks, setups, teardowns, user, t);
            && (forall j: nat :: IsLast(ks, Setup, i, end, j) ==> cs.setup == CallOf(setups[j], user, s[t]))
            && (forall j: nat :: IsLast(ks, Teardown, i, end, j) ==> cs.teardown == CallOf(teardowns[j], user, s[t]))
            && (Lacks(ks, Setup, i, end) ==> cs.setup == CallOf(setups[i], user, s[t]))
            && (Lacks(ks, Teardown, i, end) ==> cs.teardown == CallOf(teardowns[i], user, s[t]))
  {
    InSegment(ks, i, end, t);
    BoundIsLastOfSegment(ks, setups, i, end, Setup);
    BoundIsLastOfSegment(ks, teardowns, i, end, Teardown);
  }

  /** What there is to run, read off the list as it was declared. */
  function Prepared(s: seq<Item>, ks: seq<Kind>, setups: seq<Option<Func>>, teardowns: seq<Option<Func>>,
                    user: (Func, Item) -> Script, forking: bool): (p: Schedule)
    requires |s| == |ks| == |setups| == |teardowns|
    ensures p.Valid() && p.items == s && p.kinds == HiddenKinds(ks) && p.forking == forking
    ensures forall t :: 0 <= t < |s| ==> p.kinds[t] == if ks[t] == Setup || ks[t] == Teardown then Skip else ks[t]
    ensures forall t :: 0 <= t < |s| ==> p.cases[t] == BoundCase(s, ks, setups, teardowns, user, t)
  {
    Schedule(s, HiddenKinds(ks),
             seq(|s|, t requires 0 <= t < |s| => BoundCase(s, ks, setups, teardowns, user, t)), forking)
  }

  /** Once the fixtures are bound, the schedule says what the list contains. */
  lemma BoundIsListed(s: seq<Item>, ks: seq<Kind>, setups: seq<Option<Func>>, teardowns: seq<Option<Func>>,
                      runner: Runner, p: Schedule)
    requires |s| == |ks| == |setups| == |teardowns| && DoublyLinked(s)
    requires BoundUpTo(s, ks, setups, teardowns, |s|)
    requires runner.defaultSuite.setupFunc == None && runner.defaultSuite.teardownFunc == None
    requires p == Prepared(s, ks, setups, teardowns, runner.user, p.forking)
    ensures Listed(p, runner)
  {
    forall i | 0 <= i < |s| ensures s[i].kind == Hidden(ks[i]) {
      assert BoundAt(s[i], ks, setups, teardowns, i, |s|);
    }
    assert Kinds(s) == p.kinds;
    forall t | 0 <= t < |s| ensures p.cases[t] == runner.CaseAt(s, t) {
      HiddenSuites(ks, t);
      var i := SuiteIndex(ks, t);
      if i >= 0 {
        assert BoundAt(s[i], ks, setups, teardowns, i, |s|);
      }
    }
  }

  /** The list is fixed: linked, with the kinds `ks`, and numbered. */
  ghost predicate Fixed(s: seq<Item>, ks: seq<Kind>, head: Item)
    reads s
  {
    && DoublyLinked(s) && head == s[0] && Unique(s)
    && Kinds(s) == ks && Numbered(s, ks, |s|)
  }

  /** The process is between two tests, and its list does not contain the default
      suite, which has no fixtures. */
  ghost predicate AtRest(parent: Parent, s: seq<Item>)
    reads parent.runner, parent.runner.store, parent.runner.report, parent.runner.defaultSuite
  {
    && parent.Valid() && parent.runner.Ready() && parent.runner.defaultSuite !in s
    && parent.runner.defaultSuite.setupFunc == None && parent.runner.defaultSuite.teardownFunc == None
  }

  /** The chain as it was declared, with tail `last`; `ks` are the kinds that its list
      is going to have. */
  ghost predicate Declared(c: Chain, last: Item, was: map<Item, Kind>, ks: seq<Kind>)
    reads Members(c)
  {
    c.Snoc? && Distinct(c) && Shape(c, last, was) && ExtrasEnded(was) && ks == SettledKinds(Flat(c), was)
  }

  /** Fix the list: the kinds are settled, the fixtures are still where they were. */
  method Fix(last: Item, ghost c: Chain, ghost was: map<Item, Kind>, ghost ks: seq<Kind>) returns (head: Item)
    requires Declared(c, last, was, ks) == true
    modifies Members(c)`next, Members(c)`previous, Members(c)`kind, Members(c)`id
    ensures DoublyLinked(Flat(c)) && head == Flat(c)[0] && Unique(Flat(c))
    ensures Kinds(Flat(c)) == ks && Numbered(Flat(c), ks, |Flat(c)|)
  {
    FlatUnique(c);
    ShapeKinds(c, last, was);
    head := FixList(last, c, was);
    assert Kinds(Flat(c)) == ks;
  }

  /** Bind the fixtures: the schedule is what the list contains then. */
  method Bind(head: Item, runner: Runner, ghost s: seq<Item>, ghost ks: seq<Kind>, ghost p: Schedule)
    requires DoublyLinked(s) && head == s[0] && Unique(s) && Kinds(s) == ks && Numbered(s, ks, |s|)
    requires runner.defaultSuite !in s
    requires runner.defaultSuite.setupFunc == None && runner.defaultSuite.teardownFunc == None
    requires p == Prepared(s, ks, Setups(s), Teardowns(s), runner.user, p.forking)
    modifies s`kind, s`setupFunc, s`teardownFunc
    ensures IsReady(p, ks, runner)
  {
    ghost var setups, teardowns := Setups(s), Teardowns(s);
    SetSetupTeardownCallbacks(head, s);
    BoundIsListed(s, ks, setups, teardowns, runner, p);
  }

  // ------------------------------------------------------ running what was asked

  /** `t` is the position of the visible item with the given id, or -1. */
  ghost predicate IsPosition(ks: seq<Kind>, id: int, t: int) {
    if t < 0 then t == -1 && forall i :: 0 <= i < |ks| && Hidden(ks[i]) != Skip ==> Rank(ks, i, Content) + 1 != id
    else t < |ks| && Hidden(ks[t]) != Skip && Rank(ks, t, Content) + 1 == id
  }

  /** There is at most one such position. */
  lemma PositionUnique(ks: seq<Kind>, id: int, t: int, u: int)
    requires IsPosition(ks, id, t) && IsPosition(ks, id, u)
    ensures t == u
  {
    if t >= 0 && u >= 0 {
      RankInjective(ks, t, u);
    }
  }

  /** The list is ready: it is what the schedule says, and its ids are those that it got
      before the fixtures were hidden. */
  ghost predicate IsReady(p: Schedule, ks: seq<Kind>, runner: Runner)
    reads p.items, runner.defaultSuite
  {
    Listed(p, runner) && |ks| == |p.items| && p.kinds == HiddenKinds(ks) && Numbered(p.items, ks, |p.items|)
  }

  /** Find an item of the list by its id. */
  method Find(head: Item, id: int, runner: Runner, ghost p: Schedule, ghost ks: seq<Kind>) returns (r: Item?, ghost t: int)
    requires IsReady(p, ks, runner) && head == ItemAt(p.items, 0)
    ensures IsPosition(ks, id, t) && r == if t < 0 then null else p.items[t]
  {
    r := FindById(head, id, p.items);
    if r == null {
      t := -1;
    } else {
      t :| 0 <= t < |p.items| && r == p.items[t] && p.items[t].kind != Skip && p.items[t].id == id;
    }
  }

  /** A single test did what `e` says. */
  ghost predicate TestRan(e: Effect, before: Log, after: Log, c: Control, code: int) {
    && after == Log(before.trace + e.events, before.frames + e.frames)
    && if e.control.Ended? then c == e.control
       else c == Returned && code == if e.control == Returned then OUTCOME_PASS else OUTCOME_FAIL
  }

  /** Run a single test in this process: in single mode it reports itself, otherwise it
      writes to the standard output for the parent. */
  method RunOneTest(head: Item, id: int, single: bool, runner: Runner, ghost p: Schedule, ghost ks: seq<Kind>)
    returns (c: Control, code: int, ghost t: int)
    requires IsReady(p, ks, runner) && head == ItemAt(p.items, 0) && runner.Ready()
    modifies runner.Footprint()
    ensures IsPosition(ks, id, t)
    ensures t >= 0 && p.kinds[t] == Test ==>
      TestRan(TestEffect(p.cases[t], if single then SINGLE else FORKED, p.items[t]), old(LogOf(runner)), LogOf(runner), c, code)
    ensures t < 0 || p.kinds[t] != Test ==>
      c == Returned && code == OUTCOME_BAD_INVOCATION && LogOf(runner) == old(LogOf(runner))
    ensures runner.Valid() && (c == Returned ==> runner.Ready())
  {
    var test;
    test, t := Find(head, id, runner, p, ks);
    if test == null || test.kind != Test {
      return Returned, OUTCOME_BAD_INVOCATION, t;
    }
    if single {
      c, code := runner.RunTestSingle(test, p.items, t, p.cases[t]);
    } else {
      c, code := runner.RunTestForked(test, p.items, t, p.cases[t]);
    }
  }

  /** The suite at `t` was run, up to the item at `n`: none of its tests ended the process,
      or the one at `n` did. */
  ghost predicate SuitePerformed(p: Schedule, t: nat, n: nat, before: Log, after: Log, c: Control, code: int)
    requires p.Valid()
  {
    if c == Returned then
      && SegmentEnd(p.kinds, t, n) && p.Alive(t + 1, n) && code == OUTCOME_PASS
      && after == Log(before.trace + p.Block(t, n), before.frames + p.WrittenBetween(t + 1, n))
    else StopsIn(p, t, n, before, after, c)
  }

  /** In forking mode the output of every test that the task runs can be reported. */
  ghost predicate CanReport(task: Task, p: Schedule, ks: seq<Kind>)
    requires p.Valid() && |ks| == |p.items|
  {
    match task
    case OneSuite(id) => forall t: nat :: IsPosition(ks, id, t) ==> p.SuiteReportable(t)
    case Everything => p.Reportable()
    case _ => true
  }

  /** Run a single suite; the result is PASS whatever its tests do. */
  method RunOneSuite(head: Item, id: int, scheduler: Scheduler, ghost p: Schedule, ghost ks: seq<Kind>)
    returns (c: Control, code: int, ghost t: int, ghost n: nat)
    requires scheduler.Idle() && IsReady(p, ks, scheduler.parent.runner) && p.forking == scheduler.forking
    requires CanReport(OneSuite(id), p, ks) && head == ItemAt(p.items, 0)
    modifies scheduler.Footprint()
    ensures IsPosition(ks, id, t)
    ensures t >= 0 && p.kinds[t] == TestSuite ==>
      SuitePerformed(p, t, n, old(scheduler.Logs()), scheduler.Logs(), c, code) == true
    ensures t < 0 || p.kinds[t] != TestSuite ==>
      c == Returned && code == OUTCOME_BAD_INVOCATION && scheduler.Logs() == old(scheduler.Logs())
    ensures scheduler.parent.runner.Valid() == true && (c == Returned ==> scheduler.Idle() == true)
  {
    var suite;
    suite, t := Find(head, id, scheduler.parent.runner, p, ks);
    n := 0;
    if suite == null || suite.kind != TestSuite {
      return Returned, OUTCOME_BAD_INVOCATION, t, n;
    }
    var last;
    c, code, last, n := scheduler.RunSuite(suite, p, t);
    code := OUTCOME_PASS;
  }

  /** What was asked for happened to the logs; `t` is the position of the item it names. */
  ghost predicate Performed(task: Task, p: Schedule, ks: seq<Kind>, before: Log, after: Log,
                            c: Control, code: int, t: int, n: nat)
    requires p.Valid() && |ks| == |p.items|
  {
    match task
    case ListTests => c == Returned && code == OUTCOME_PASS && after == before
    case Refused => c == Returned && code == OUTCOME_BAD_INVOCATION && after == before
    case OneSuite(id) =>
      && IsPosition(ks, id, t)
      && if t < 0 || p.kinds[t] != TestSuite then c == Returned && code == OUTCOME_BAD_INVOCATION && after == before
         else SuitePerformed(p, t, n, before, after, c, code)
    case OneTest(id) =>
      && IsPosition(ks, id, t)
      && if t < 0 || p.kinds[t] != Test then c == Returned && code == OUTCOME_BAD_INVOCATION && after == before
         else TestRan(TestEffect(p.cases[t], if p.forking then FORKED else SINGLE, p.items[t]), before, after, c, code)
    case Everything =>
      && (c == Returned <==> p.Harmless())
      && if c != Returned then t >= 0 && RunStops(p, t, before, after, c)
         else
           && after == Log(before.trace + p.RunEvents(), before.frames + p.WrittenBetween(0, |p.items|))
           && code == if p.Passed(0, |p.items|) then OUTCOME_PASS else OUTCOME_FAIL
  }

  /** The exit status of a process that comes to its end: 3 if the invocation was refused;
      for a single test 1 if it asserted; for a whole run 1 if an executed test did not
      pass; and 0 otherwise. */
  lemma ExitStatus(task: Task, p: Schedule, ks: seq<Kind>, before: Log, after: Log, code: int, t: int, n: nat)
    requires p.Valid() && |ks| == |p.items| && Performed(task, p, ks, before, after, Returned, code, t, n)
    ensures match task
            case ListTests => code == 0
            case Refused => code == 3
            case OneSuite(_) => code == if t < 0 || p.kinds[t] != TestSuite then 3 else 0
            case OneTest(_) =>
              code == if t < 0 || p.kinds[t] != Test then 3
                      else if BodyEnd(p.cases[t]).Asserts? || TeardownEnd(p.cases[t]).Asserts? then 1 else 0
            case Everything =>
              code == if exists u: nat :: u < |p.items| && p.Runs(u) && p.DoneAt(u).outcome != 0 then 1 else 0
  {
    if task.OneTest? && t >= 0 && p.kinds[t] == Test {
      SingleRun(p.cases[t], p.items[t]);
      ForkedRun(p.cases[t], p.items[t]);
      EndsReturned(p.cases[t], if p.forking then FORKED else SINGLE, p.items[t]);
    }
  }

  lemma EndsReturned(c: Case, mode: Mode, test: Item)
    requires !TestEffect(c, mode, test).control.Ended?
    ensures Survives(c)
  {
    LifeCycle(c, mode, test);
  }

  /** Do what the arguments ask for. */
  method RunTask(head: Item, task: Task, parent: Parent, single: bool, ghost p: Schedule, ghost ks: seq<Kind>)
    returns (c: Control, code: int, ghost t: int, ghost n: nat)
    requires parent.Valid() && parent.runner.Ready() && IsReady(p, ks, parent.runner) && head == ItemAt(p.items, 0)
    requires p.forking == !single && CanReport(task, p, ks) == true && task != ListTests
    modifies parent.runner.Footprint(), parent.extraOutput, parent.stdioBuffer, parent.errorBuffer
    ensures Performed(task, p, ks, old(LogOf(parent.runner)), LogOf(parent.runner), c, code, t, n) == true
    ensures parent.runner.Valid() == true && (c == Returned ==> parent.runner.Ready() == true)
  {
    t, n := -1, 0;
    if task == Refused {
      return Returned, OUTCOME_BAD_INVOCATION, t, n;
    }
    if task.OneTest? {
      c, code, t := RunOneTest(head, task.id, single, parent.runner, p, ks);
      return;
    }
    var scheduler := new Scheduler(parent, !single);
    if task.OneSuite? {
      c, code, t, n := RunOneSuite(head, task.id, scheduler, p, ks);
    } else {
      c, code, t := scheduler.RunAll(head, p);
    }
  }

  /** Bind the fixtures and do what the arguments ask for. */
  method BindAndRun(head: Item, task: Task, parent: Parent, single: bool,
                    ghost s: seq<Item>, ghost ks: seq<Kind>, ghost p: Schedule)
    returns (c: Control, code: int, ghost t: int, ghost n: nat)
    requires Fixed(s, ks, head) == true && AtRest(parent, s) == true
    requires |ks| == |s| && p == Prepared(s, ks, Setups(s), Teardowns(s), parent.runner.user, !single)
    requires CanReport(task, p, ks) == true && task != ListTests
    modifies s`kind, s`setupFunc, s`teardownFunc
    modifies parent.runner.Footprint(), parent.extraOutput, parent.stdioBuffer, parent.errorBuffer
    ensures Performed(task, p, ks, old(LogOf(parent.runner)), LogOf(parent.runner), c, code, t, n) == true
    ensures parent.runner.Valid() == true && (c == Returned ==> parent.runner.Ready() == true)
  {
    Bind(head, parent.runner, s, ks, p);
    c, code, t, n := RunTask(head, task, parent, single, p, ks);
  }

  /** Read the arguments and do what they ask for. */
  method Obey(head: Item, args: seq<string>, parent: Parent, ghost s: seq<Item>, ghost ks: seq<Kind>, ghost p: Schedule)
    returns (c: Control, code: int, ghost t: int, ghost n: nat)
    requires Fixed(s, ks, head) == true && AtRest(parent, s) == true
    requires |ks| == |s| && p == Prepared(s, ks, Setups(s), Teardowns(s), parent.runner.user, "-u" !in args)
    requires CanReport(TaskOf(args), p, ks) == true
    modifies s`kind, s`setupFunc, s`teardownFunc
    modifies parent.runner.Footprint(), parent.extraOutput, parent.stdioBuffer, parent.errorBuffer
    ensures Performed(TaskOf(args), p, ks, old(LogOf(parent.runner)), LogOf(parent.runner), c, code, t, n) == true
    ensures parent.runner.Valid() == true && (c == Returned ==> parent.runner.Ready() == true)
  {
    var task, single := ReadArguments(args);
    if task == ListTests {
      return Returned, OUTCOME_PASS, -1, 0;
    }
    c, code, t, n := BindAndRun(head, task, parent, single, s, ks, p);
  }

  /** Fix the list; the fixtures of all items stay where they were declared. */
  method FixKeeping(last: Item, ghost c: Chain, ghost was: map<Item, Kind>, ghost ks: seq<Kind>) returns (head: Item)
    requires Declared(c, last, was, ks) == true
    modifies Members(c)`next, Members(c)`previous, Members(c)`kind, Members(c)`id
    ensures Fixed(Flat(c), ks, head) == true
    ensures Setups(Flat(c)) == old(Setups(Flat(c))) && Teardowns(Flat(c)) == old(Teardowns(Flat(c)))
  {
    MembersAllocated(c);
    head := Fix(last, c, was, ks);
  }

  /** Fix the list; the process that is going to run it stays as it is. */
  method FixAtRest(last: Item, parent: Parent, ghost c: Chain, ghost was: map<Item, Kind>, ghost ks: seq<Kind>)
    returns (head: Item)
    requires Declared(c, last, was, ks) == true
    requires AtRest(parent, Flat(c)) == true && parent.runner.defaultSuite !in Members(c)
    modifies Members(c)`next, Members(c)`previous, Members(c)`kind, Members(c)`id
    ensures Fixed(Flat(c), ks, head) == true && AtRest(parent, Flat(c)) == true
    ensures Setups(Flat(c)) == old(Setups(Flat(c))) && Teardowns(Flat(c)) == old(Teardowns(Flat(c)))
    ensures LogOf(parent.runner) == old(LogOf(parent.runner))
  {
    head := FixKeeping(last, c, was, ks);
  }

  /** The main function of PCUT: everything that it does follows from the chain as it
      was declared, the arguments and the behaviour of the callbacks. */
  method PcutMain(last: Item, args: seq<string>, parent: Parent, ghost c: Chain, ghost was: map<Item, Kind>,
                  ghost ks: seq<Kind>, ghost p: Schedule)
    returns (ctl: Control, code: int, ghost t: int, ghost n: nat)
    requires Declared(c, last, was, ks) == true
    requires AtRest(parent, Flat(c)) == true && parent.runner.defaultSuite !in Members(c)
    requires p == Prepared(Flat(c), ks, Setups(Flat(c)), Teardowns(Flat(c)), parent.runner.user, "-u" !in args)
    requires CanReport(TaskOf(args), p, ks) == true
    modifies Members(c)
    modifies parent.runner.Footprint(), parent.extraOutput, parent.stdioBuffer, parent.errorBuffer
    ensures Performed(TaskOf(args), p, ks, old(LogOf(parent.runner)), LogOf(parent.runner), ctl, code, t, n) == true
    ensures parent.runner.Valid() == true && (ctl == Returned ==> parent.runner.Ready() == true)
  {
    var head := FixAtRest(last, parent, c, was, ks);
    ctl, code, t, n := Obey(head, args, parent, Flat(c), ks, p);
  }

  /** The printout of a full run that begins with a fresh report, in all its parts: the
      lines are those of the run's events, the plan comes first, the results are numbered
      without gaps, the last line is the verdict and agrees with the exit code; and the
      standard output holds exactly what the tests of the run wrote. */
  lemma FullRunPrints(p: Schedule, ks: seq<Kind>, runner: Runner, before: Log, code: int, t: int, n: nat)
    requires p.Valid() && |ks| == |p.items| && runner.Valid() && before.trace == []
    requires Performed(Everything, p, ks, before, LogOf(runner), Returned, code, t, n)
    ensures var ls, ran := runner.report.lines, |SuiteTests(p.items, p.kinds, |p.items|)|;
            && ls == Printout(p) && ls != [] && ls[0].Plan? && Numbers(ls) == UpTo(ran)
            && (ls[0].total == ran
                <==> forall i :: 0 <= i < |p.items| && p.kinds[i] == Test ==> SuiteIndex(p.kinds, i) >= 0)
            && ls[|ls| - 1] == if code == OUTCOME_PASS then AllPassed else SomeFailed(SuiteFailures(ls), ran)
    ensures code == OUTCOME_PASS || code == OUTCOME_FAIL
    ensures runner.stdout == EncodeAll(before.frames) + p.PrintedBetween(0, |p.items|)
  {
    OutputGrows(p, |p.items|, before.frames);
    BehindNothing(p.RunEvents());
    PlanAndNumbering(p);
    Verdict(p);
  }

  /** What a full run of the whole program leaves behind. */
  ghost predicate ProcessPrinted(p: Schedule, lines: seq<Line>, stdout: string, code: int)
    requires p.Valid()
  {
    && lines == Printout(p) && stdout == p.PrintedBetween(0, |p.items|)
    && code == (if p.Passed(0, |p.items|) then OUTCOME_PASS else OUTCOME_FAIL)
    && lines != [] && lines[|lines| - 1] ==
         if code == OUTCOME_PASS then AllPassed
         else SomeFailed(SuiteFailures(lines), |SuiteTests(p.items, p.kinds, |p.items|)|)
  }

  lemma ProcessPrints(p: Schedule, ks: seq<Kind>, runner: Runner, before: Log, code: int, t: int, n: nat)
    requires p.Valid() && |ks| == |p.items| && runner.Valid() && before == Log([], [])
    requires Performed(Everything, p, ks, before, LogOf(runner), Returned, code, t, n)
    ensures ProcessPrinted(p, runner.report.lines, runner.stdout, code) == true
  {
    FullRunPrints(p, ks, runner, before, code, t, n);
  }

  /** What a full run leaves behind that its test at `t` ends, the first one that does:
      the status is that test's, what was printed before it stays, and there is no verdict. */
  ghost predicate ProcessCut(p: Schedule, t: nat, lines: seq<Line>, stdout: string, c: Control)
    requires p.Valid()
  {
    && t < |p.items| && p.Runs(t)
    && !p.forking && p.Alive(0, t) && !Survives(p.cases[t]) && c == Ended(p.EndOf(t))
    && lines == CutPrintout(p, t) && stdout == p.PrintedBetween(0, t + 1)
    && Numbers(lines) == UpTo(|SuiteTests(p.items, p.kinds, t)|)
    && lines != [] && lines[0].Plan? && |Numbers(lines)| < lines[0].total
    && forall l :: l in lines ==> !IsVerdict(l)
  }

  lemma ProcessCuts(p: Schedule, ks: seq<Kind>, runner: Runner, before: Log, c: Control, code: int, t: int, n: nat)
    requires p.Valid() && |ks| == |p.items| && runner.Valid() && before == Log([], []) && c != Returned
    requires Performed(Everything, p, ks, before, LogOf(runner), c, code, t, n)
    ensures t >= 0 && ProcessCut(p, t, runner.report.lines, runner.stdout, c) == true
  {
    LogsCut(p, t, runner, before, c);
    CutReport(p, t);
  }

  lemma LogsCut(p: Schedule, t: nat, runner: Runner, before: Log, c: Control)
    requires p.Valid() && runner.Valid() && before == Log([], []) && RunStops(p, t, before, LogOf(runner), c)
    ensures runner.report.lines == CutPrintout(p, t) && runner.stdout == p.PrintedBetween(0, t + 1)
  {
    BehindNothing(p.CutEvents(t));
    LinesOf(runner, p.CutEvents(t));
    OutputGrows(p, t + 1, before.frames);
  }

  /** The lines of a report are those of its events. */
  lemma LinesOf(runner: Runner, es: seq<Event>)
    requires runner.Valid() && runner.report.trace == es
    ensures runner.report.lines == After(es, |es|).lines
  {
  }

  /** A full run came to its end if and only if no test ends the process. */
  ghost predicate RunOver(p: Schedule, t: int, lines: seq<Line>, stdout: string, c: Control, code: int)
    requires p.Valid()
  {
    && (c == Returned <==> p.Harmless())
    && if c == Returned then ProcessPrinted(p, lines, stdout, code) else t >= 0 && ProcessCut(p, t, lines, stdout, c)
  }

  lemma FullRunOver(p: Schedule, ks: seq<Kind>, runner: Runner, before: Log, c: Control, code: int, t: int, n: nat)
    requires p.Valid() && |ks| == |p.items| && runner.Valid() && before == Log([], [])
    requires Performed(Everything, p, ks, before, LogOf(runner), c, code, t, n) == true
    ensures RunOver(p, t, runner.report.lines, runner.stdout, c, code) == true
  {
    if c == Returned {
      ProcessPrints(p, ks, runner, before, code, t, n);
    } else {
      ProcessCuts(p, ks, runner, before, c, code, t, n);
    }
  }

  /** The main function on fresh logs. */
  method RunFresh(last: Item, args: seq<string>, parent: Parent, ghost c: Chain, ghost was: map<Item, Kind>,
                  ghost ks: seq<Kind>, ghost p: Schedule)
    returns (ctl: Control, code: int, ghost t: int)
    requires Declared(c, last, was, ks) == true
    requires AtRest(parent, Flat(c)) == true && parent.runner.defaultSuite !in Members(c)
    requires p == Prepared(Flat(c), ks, Setups(Flat(c)), Teardowns(Flat(c)), parent.runner.user, "-u" !in args)
    requires CanReport(TaskOf(args), p, ks) == true && LogOf(parent.runner) == Log([], [])
    modifies Members(c)
    modifies parent.runner.Footprint(), parent.extraOutput, parent.stdioBuffer, parent.errorBuffer
    ensures TaskOf(args) == Everything ==>
      RunOver(p, t, parent.runner.report.lines, parent.runner.stdout, ctl, code) == true
  {
    ghost var n;
    ctl, code, t, n := PcutMain(last, args, parent, c, was, ks, p);
    if TaskOf(args) == Everything {
      FullRunOver(p, ks, parent.runner, Log([], []), ctl, code, t, n);
    }
  }

  /** The static state of a new process. */
  method Start(user: (Func, Item) -> Script, defaultSuite: Item, ghost s: seq<Item>) returns (parent: Parent)
    requires defaultSuite !in s && defaultSuite.setupFunc == None && defaultSuite.teardownFunc == None
    ensures AtRest(parent, s) == true && LogOf(parent.runner) == Log([], [])
    ensures parent.runner.user == user && parent.runner.defaultSuite == defaultSuite
    ensures fresh(parent.runner.Footprint())
    ensures fresh(parent.extraOutput) && fresh(parent.stdioBuffer) && fresh(parent.errorBuffer)
  {
    var runner := new Runner(user, defaultSuite);
    parent := new Parent(runner);
  }

  /** A whole process, from its start: a full run that comes to its end has printed the
      report of the declared tests, with the verdict that it returns, and its standard
      output holds exactly what the tests wrote; a full run that a test ends has printed
      the report up to that test, without a verdict, and ends with that test's status. */
  method RunProcess(last: Item, args: seq<string>, user: (Func, Item) -> Script, defaultSuite: Item,
                    ghost c: Chain, ghost was: map<Item, Kind>, ghost ks: seq<Kind>, ghost p: Schedule)
    returns (ctl: Control, code: int, lines: seq<Line>, stdout: string, ghost t: int)
    requires Declared(c, last, was, ks) == true
    requires defaultSuite !in Members(c) && defaultSuite.setupFunc == None && defaultSuite.teardownFunc == None
    requires p == Prepared(Flat(c), ks, Setups(Flat(c)), Teardowns(Flat(c)), user, "-u" !in args)
    requires CanReport(TaskOf(args), p, ks) == true
    modifies Members(c)
    ensures TaskOf(args) == Everything ==> RunOver(p, t, lines, stdout, ctl, code) == true
  {
    MembersAllocated(c);
    var parent := Start(user, defaultSuite, Flat(c));
    ctl, code, t := RunFresh(last, args, parent, c, was, ks, p);
    lines, stdout := parent.runner.report.lines, parent.runner.stdout;
  }

  // ------------------------------------------------- a child that starts afresh

  predicate Alike(x: Item, y: Item, was: map<Item, Kind>, wasToo: map<Item, Kind>) {
    x in was && y in wasToo && was[x] == wasToo[y] && x.extras == y.extras
  }

  /** Two processes of the same program start with the same chain, item by item. */
  ghost predicate SameProgram(c: Chain, d: Chain, was: map<Item, Kind>, wasToo: map<Item, Kind>) {
    match c
    case Nil => d.Nil?
    case Snoc(front, item, content) =>
      && d.Snoc? && Alike(item, d.item, was, wasToo)
      && SameProgram(front, d.front, was, wasToo) && SameProgram(content, d.content, was, wasToo)
  }

  ghost predicate AllAlike(s: seq<Item>, r: seq<Item>, was: map<Item, Kind>, wasToo: map<Item, Kind>) {
    |s| == |r| && forall i :: 0 <= i < |s| ==> Alike(s[i], r[i], was, wasToo)
  }

  lemma {:induction false} SameFlat(c: Chain, d: Chain, was: map<Item, Kind>, wasToo: map<Item, Kind>)
    requires SameProgram(c, d, was, wasToo)
    ensures AllAlike(Flat(c), Flat(d), was, wasToo) && AllAlike(Kept(c), Kept(d), was, wasToo)
  {
    if c.Snoc? {
      SameFlat(c.front, d.front, was, wasToo);
      SameFlat(c.content, d.content, was, wasToo);
    }
  }

  /** Dispatch: a child that is started with "-t" and the id of a test of its parent,
      and that rebuilt the list from the same declarations, finds the test at the same
      place of its own list, and no other item. */
  lemma Dispatch(c: Chain, d: Chain, was: map<Item, Kind>, wasToo: map<Item, Kind>, ks: seq<Kind>, t: nat, u: int)
    requires SameProgram(c, d, was, wasToo) && t < |Flat(c)|
    requires ks == SettledKinds(Flat(c), was) && Numbered(Flat(c), ks, |ks|) && ks[t] == Test
    ensures var id := Flat(c)[t].id; var own := SettledKinds(Flat(d), wasToo);
            && own == ks && TaskOf(["-t" + Decimal(id)]) == OneTest(id)
            && (IsPosition(own, id, u) <==> u == t)
  {
    var id := Flat(c)[t].id;
    SameFlat(c, d, was, wasToo);
    OptionRoundTrip(id);
    assert IsPosition(ks, id, t);
    if IsPosition(ks, id, u) {
      PositionUnique(ks, id, t, u);
    }
  }
}
