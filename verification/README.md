# PCUT, modelled and proved

PCUT is a unit-testing framework for C. Tests are declared by macros as statically
initialised items, chained backward; at run time the chains are turned into one list, the
list is cut into suites, every test is run (in a process of its own, or in the same one),
and the results are reported line by line. This project models that machinery in Dafny,
file by file, and proves what it is for.

| file | models | main results |
|---|---|---|
| `text.dfy` | bytes, C strings, decimal numbers, lines | round trips of printing, reading and line splitting |
| `items.dfy`, `list.dfy` | `src/list.c` | flattening a tree of chains in place: links, kinds, ids |
| `messages.dfy` | `src/assert.c` | the two rotating message buffers |
| `channel.dfy` | `src/report/report.c` | the zero-byte framing and its decoder |
| `tap.dfy`, `xml.dfy` | `src/report/tap.c`, `src/report/xml.c` | the two reports as observers of one trace of events |
| `life.dfy`, `runner.dfy` | `src/run.c` | the life cycle of a test over the static flags |
| `unix.dfy` | `src/os/unix.c` | short reads, the forking mode, agreement of the two modes on a test |
| `callbacks.dfy`, `scheduler.dfy` | `src/main.c` | binding of fixtures, suites, the main loop |
| `theorems.dfy`, `totals.dfy`, `sheet.dfy`, `agreement.dfy` | whole runs | trace grammar, executed tests, plan, numbering, verdict, the report of a run written down at once, agreement of the two modes on a run |
| `program.dfy` | `pcut_main` | everything put together, arguments, running a test by its id |
| `preproc.dfy` | `src/preproc.c` | the streaming tokeniser refines split-and-expand |

How it is built:

- Code that changes state is a class or a method on the heap with the fields of the source:
  `Item`, `MessageStore`, `TapReport`, `XmlReport`, `Runner` (the statics of `src/run.c`),
  `Parent` (the buffers of the parent process), `Scheduler`, `Preprocessor`. Every such
  method is proved against a function of its inputs; what the source promises is then
  proved about these functions.
- User code is an oracle: `user(func, test)` is what a callback does while a test is the
  current one. It prints, then it passes, fails an assertion with a message, or ends the
  process. A full run executes each test once, so this covers every behaviour.
- The long jump and the process exit are results of a call: `Returned`, `Jumped` or
  `Ended(status)`.
- `P == true` in a contract or an invariant means `P`; written like that, the predicate is
  passed on as a whole instead of being unfolded.
- Both reports share the loop that cuts a message into lines (`Tap.CutLines`), which the
  source has twice.
- Static storage begins zeroed or with any contents, as the proofs do not depend on it.

Where the code is narrower than its comments suggest, the exact border is proved:

- The contents of an import survive exactly when no imported chain ends with an item that
  imports a chain itself (`FlatVisitsEachOnce`, `LostImport`); `PCUT_EXPORT` guarantees
  that (include/pcut/tests.h:332-340).
- The plan is the number of results exactly when every test follows a suite
  (`PlanIsExecuted`, `PlannedButNotExecuted`); the default suite of `PCUT_INIT` guarantees
  that (include/pcut/tests.h:389-398).
- For tests that stay alive, the two run modes have the same outcome exactly when the pipe
  to the parent holds all that the test writes: the parent reads the standard error to its
  end, which is the end of the process, before it reads the standard output
  (src/os/unix.c:193-196), so that a test which writes more waits until the alarm kills it.
  If it prints no zero bytes, the two modes print the same error lines exactly when no
  message ends with LF and the plain text before the last message has room in the parent's
  buffer of 4096 bytes (`ForkAgreesWithSingle`, `ModesAgree`, `VerdictsCompared`;
  `ModesDisagreeOnPipe`, `ModesDisagree` and `ModesDisagreeOnLength` fail on one condition
  each).
- Output can be reported exactly when the parser stays inside its input and neither of the
  two texts that it stores fills its buffer to the last byte (`PrintableIff`, for any
  bytes). Without zero bytes only the plain text can do that (`PrintableIffRoom`,
  `ReportableIffRoom`, `FullBufferExample`).
- The parser of test output stays inside its input exactly when the byte before the last
  one is zero or an overflow stops it earlier (`FeedIsDecode`); only output with zero bytes
  can make it leave its input (`PrintableIffRoom`, `ReadsPastEnd`).
- In single mode a full run comes to its end exactly when no executed test ends the process.
  Otherwise the first test that does takes the whole program with it: its status is the
  exit status, even if that is 0, and the report lacks results and has no verdict
  (`RunAll`, `CutReport`, `RunProcess`).

## Model

| member | source | states |
|---|---|---|
| ListFix.FixList | src/list.c:172-193 | the backward chain with its whole tree of imports becomes one doubly linked list, in the order of the flattened tree, ending in NULL at both ends; a test is hidden if and only if a skip mark stands before its terminator, imports are hidden, no other kind changes; ids are 1, 2, ...; nothing outside the tree is modified |
| ListFix.InlineNestedLists | src/list.c:86-107 | the import item becomes hidden and is followed by the fixed content, whose last item leads on to the old successor, in both directions |
| ListFix.Splice | src/list.c:98-104 | the pointer writes put a list between an item and its successor, both directions of all links agreeing |
| ListFix.LinkAll | src/list.c:172-186 | after the backward walk every item is linked forward, with its imports spliced in behind it |
| ListFix.FlatVisitsEachOnce | src/list.c:86-107 | no item is in the flat list twice; every declared item is in it if and only if no imported chain has an importing tail |
| ListFix.FlatInOrder | src/list.c:86-186 | the order of the list, by the declared pointers alone: before each item stands what its own pointer leads to, or the tail of what that one imports; an item without one stands first in the list or in an import |
| ListFix.LostImport | src/list.c:98-104 | three items in memory whose innermost chain is lost |
| ListFix.DirectionsAgree | src/list.c:179-186 | next of one item is another if and only if previous of the other is the first |
| ListFix.DetectSkippedTests | src/list.c:136-160 | exactly the tests that are marked to be skipped become hidden, no other item changes |
| ListFix.FindSkipMark | src/list.c:145-156 | the walk finds a mark if and only if one stands before the first terminator |
| ListFix.SkipMarked | src/list.c:145-156 | the same of the reference that the list is hidden by |
| ListFix.SetIds | src/list.c:113-127 | visible items get consecutive ids from 1 in list order |
| Items.GetRealNext | src/list.c:48-59 | the first later item that is not hidden, or NULL |
| Items.GetReal | src/list.c:69-79 | the first item that is not hidden, possibly the head |
| Items.CountTests | src/list.c:200-209 | the number of visible tests |
| Items.FindById | src/main.c:80-89 | a visible item with the id, or NULL if and only if there is none |
| Items.RankInjective | src/list.c:113-127 | no two visible items get the same number |
| Items.RankCounts | src/list.c:113-127 | the number of an item is that of the visible items before it and one more; the plan is the number of visible tests |
| Messages.MessageStore.Format | src/assert.c:60-81 | the message is written to the buffer that was not used last, which becomes the other one; it holds the first 255 characters of location and text |
| Messages.FormatInto | src/assert.c:69-78 | the two bounded prints together keep exactly the first 255 characters |
| Messages.MessageNulFree | src/assert.c:69-78 | a message is never empty and contains no zero byte |
| Messages.MessageReads | src/assert.c:69-78 | a message is file name, colon, line number, colon, space and text if these are 255 characters or less, and their first 255 otherwise |
| Running.Runner.PrintFailMessage | src/report/report.c:76-85 | the bytes written are the encoding of one failure frame; NULL and empty messages write nothing |
| Channel.DecodeOfEncode | src/report/report.c:76-156 | framing round trip of the reference decoder: every interleaving of plain output and messages is taken apart completely |
| Channel.DecodeConserves | src/report/report.c:105-157 | every non-zero byte goes to exactly one of the two outputs, and each output holds its bytes in the order of the input; no output contains a zero byte |
| Channel.DecodeIsPicked | src/report/report.c:117-151 | the outputs byte by byte: a byte belongs to the errors if and only if three zero bytes or more stand before its text, one of them taken to stand before the input |
| Channel.FeedIsDecode | src/report/report.c:105-157 | the parser overflows if and only if the reference outputs exceed the buffers; otherwise its outputs are the reference outputs, and it reads behind its input if and only if a text ends at the last byte but one |
| Channel.OverflowPoint | src/report/report.c:133-151 | on an overflow the outputs are those of the input before the text that does not fit |
| Channel.OverflowIff | src/report/report.c:133-151 | the parser overflows with given outputs if and only if some first turns of the input make them up and the next text has no room |
| Channel.FramingRoundTrip | src/report/report.c:76-157 | frames followed by two zero bytes or more come back completely through the parser if and only if both outputs fit |
| Channel.ParseCommandOutput | src/report/report.c:105-157 | the loops over the three buffers compute the parser's result, and the rest of both output buffers is zero |
| Channel.ReadTurn | src/report/report.c:117-134 | counting zero bytes and measuring the text finds the next turn of the input |
| Channel.Store | src/report/report.c:136-151 | a text is copied behind what is there, or left out when it does not fit |
| Tap.TapReport.Init | src/report/tap.c:64-70 | the plan line with the number of tests, counters reset |
| Tap.TapReport.SuiteStart | src/report/tap.c:76-81 | the suite counters start again, the suite is announced |
| Tap.TapReport.SuiteDone | src/report/tap.c:87-95 | the suite's line tells whether it failed, with its counters |
| Tap.TapReport.TestStart | src/report/tap.c:103-108 | both test counters advance |
| Tap.TapReport.TestDone | src/report/tap.c:140-172 | one numbered result line, then the lines of the three messages in order; failures are counted |
| Tap.TapReport.Finish | src/report/tap.c:175-181 | the verdict line |
| Tap.CutLines | src/report/tap.c:115-130 | cutting the buffer at its LFs in place yields exactly the lines of the message |
| Tap.PrintByLines | src/report/tap.c:115-130 | every line of the message behind the prefix; nothing for NULL and for an empty message |
| Text.LinesJoinBack | src/report/tap.c:115-130 | the lines, each followed by LF, are the message, plus one LF only if it lacked one |
| Text.LinesUnique | src/report/tap.c:115-130 | there is no other way to split a message like that |
| Text.LinesOfTerminated | src/report/report.c:76-85 | one more LF adds an empty line if and only if the message ended with LF already |
| Text.AtoiOfDecimal | src/main.c:63-70 | reading back a printed number gives the number |
| Text.AtoiReads | src/main.c:63-70 | white space, a sign, digits and anything behind them are read as the number with that sign |
| Text.DecimalPlaces | src/preproc.c:41-51 | numbers are printed in base ten, the last digit last, with a minus if negative |
| Life.LifeCycle | src/run.c:143-237 | for every combination of setup, test and teardown passing, asserting or ending the process, in every mode: the callbacks that are called write in order; a surviving run has one start and one report with both messages in their places; otherwise there is no report and the process ends with that status |
| Life.FailsIffAsserted | src/run.c:143-237 | a surviving run reports FAIL if and only if a callback that was called asserted |
| Life.WhoIsCalled | src/run.c:181-237 | the set-up first, the body unless the set-up failed or ended the process, the tear-down last unless the process is gone |
| Life.SingleRun | src/run.c:270-283 | in single mode the bytes written are those that the callbacks print, with no message and no framing; start and result are reported |
| Life.ForkedRun | src/run.c:247-260 | a process of a test reports nothing and leaves with status 1 if and only if something asserted |
| Running.Runner.RunTest | src/run.c:181-237 | over the static flags, with long jumps: the run writes and reports exactly what the life cycle says, and leaves no pending message |
| Running.Runner.FailedAssertion | src/run.c:143-174 | the re-entrant failure handling: print, teardown, report, leave; its message and the pending one are in different buffers |
| Running.Runner.FailedAssertionFmt | src/assert.c:65-81 | formatting, then failing with the formatted message |
| Running.Runner.HandleFailure | src/run.c:148-174 | the part behind the print, in both states of the flag |
| Running.Runner.CleanUpAndReport | src/run.c:148-163 | the first failure runs the teardown with the flag cleared; if that fails too, it reports both and never comes back |
| Running.Runner.RunSetupTeardown | src/run.c:111-115 | a missing callback does nothing |
| Running.Runner.FindParentSuite | src/run.c:96-105 | the last suite at or before the test, or the default one |
| Running.Runner.RunTestSingle | src/run.c:270-283 | the standard output grows by what the callbacks print and by nothing else; start and result with both messages are reported; the result is 1 if something asserted and 0 otherwise; nothing but the start for a test that ends the process |
| Running.Runner.RunTestForked | src/run.c:247-260 | the life cycle in the mode that frames and exits, without any report |
| Forking.ReadAll | src/os/unix.c:96-116 | for every way in which reads come up short: the stream up to the limit, less one final LF |
| Forking.ForkOutcomePasses | src/os/unix.c:123-204 | the outcome in forking mode is PASS if and only if the pipe holds all that the test writes, and nothing asserted and nothing ended the process, or the process was ended with a status whose low byte is zero: a test that calls exit(0) midway is reported as passed |
| Forking.ForkedOutcome | src/os/unix.c:123-137 | the outcome in numbers: 2 for a process that a signal killed, the alarm's if the pipe could not hold the output; 0 or 1 by the exit status of a process that was ended; 1 or 0 by whether something asserted otherwise |
| Forking.StreamIsBytes | src/run.c:143-260 | the stream of a test process: the text of setup and body, the message of the one that failed, the text of the teardown, its message |
| Forking.StreamIsSpelled | src/report/report.c:76-85 | the same with the bytes of a message spelled out: three zero bytes, the message, LF, a zero byte |
| Forking.TrimmedBytes | src/os/unix.c:109-114 | dropping a final LF of the stream can only shorten the last plain text, never a message |
| Forking.OutputArrives | src/os/unix.c:144-215 | what arrives of a test that prints no zero bytes, exactly, for every length of output and however the process ends: all of it, or what stands before the first plain text that has no room |
| Forking.AnyOutputArrives | src/report/report.c:105-157 | the same for any bytes: unless an output exceeds its buffer, both hold their bytes in order; otherwise they hold those of the input before the first text without room; the parser overflows, completes or leaves its input under exact conditions |
| Forking.OutputIsReported | src/report/report.c:136-229 | what is reported as output: everything but a final LF, what stands before the first message, or nothing, by whether 4096 characters are enough; for a test that does not fail, what its callbacks print in order, or nothing |
| Forking.PrintableIff | src/report/report.c:105-229 | for any bytes, output can be reported if and only if both texts that are stored leave room for a NUL and the parser stays inside its input, in terms of the captured bytes alone |
| Forking.PrintableIffRoom | src/report/report.c:221-229 | output without zero bytes can be reported if and only if the plain text that is stored leaves room for a NUL |
| Forking.FullBufferExample | src/report/report.c:136-141 | a passing test that prints one line, with or without its LF, can be reported if and only if the line does not have exactly 4096 characters |
| Forking.ReadsPastEnd | src/report/report.c:117-156 | a test whose captured output makes the parser leave its input |
| Forking.ForkAgreesWithSingle | src/run.c:143-283 | for tests that stay alive: both modes report the same outcome if and only if the pipe holds all that the test writes; without zero bytes, the same error lines if and only if no message ends with LF and the plain text before the last message has room |
| Forking.ModesDisagree | src/report/report.c:76-85 | a concrete test on which the error lines differ because its message ends with LF |
| Forking.ModesDisagreeOnLength | src/report/report.c:136-140 | a concrete test that prints 5000 bytes before it fails: forking mode prints no error line |
| Forking.ModesDisagreeOnPipe | src/os/unix.c:192-198 | a passing test that prints one byte more than the pipe holds, or more still, is aborted in forking mode; 70000 bytes are enough for a pipe of 65536 |
| Forking.DeathIsReported | src/os/unix.c:123-215 | a test process that dies is aborted (2) if a signal killed it or the pipe could not hold its output, and passed or failed by the eight bits of its exit status otherwise; all its messages arrive if and only if the plain text before the last one has room |
| Forking.Parent.ReportUnparsed | src/report/report.c:221-229 | the captured output is split and reported |
| Forking.Parent.BeforeTestStart | src/os/unix.c:66-71 | the test is announced and the buffer is cleared |
| Forking.Parent.RunTestForking | src/os/unix.c:144-215 | from announcement to report: one start, one report, and the outcome in numbers, whether the pipe holds the output or not |
| Binding.SetSetupTeardownCallbacks | src/main.c:162-182 | in place: exactly the fixtures are hidden, and every suite has the functions that the reference function gives it |
| Binding.BoundIsLastOfSegment | src/main.c:162-182 | a suite ends up with the last fixture of its own segment, or with what it had when there is none |
| Program.OwnFixtures | src/main.c:162-182 | each test runs with its own suite's pair of fixtures, wherever in the segment they are declared |
| Scheduling.ReportableIffRoom | src/report/report.c:221-229 | a run without zero bytes in its output can be reported in forking mode if and only if no executed test fills the buffer |
| Scheduling.OnlyOutputWritten | src/main.c:122-136 | the process of the scheduler writes what the callbacks of the executed tests print, in list order, and nothing in forking mode |
| Scheduling.Scheduler.RunSuite | src/main.c:98-152 | exactly the tests up to the next suite are run, between one start and one end of the suite, which are left out for a suite without tests; FAIL if and only if one of them did not pass; the process writes exactly what these tests write, in list order, and nothing in forking mode; if a test ends the process, it is the first one that does, the report stops with its start, the output with what it wrote, and the status is its own |
| Scheduling.Scheduler.RunAll | src/main.c:291-312 | the run comes to its end if and only if it forks or no executed test ends the process; then it reports exactly what the list asks for and returns PASS if and only if every executed test passed; otherwise the report and the status are those of the first test that ends the process; the standard output grows by what the callbacks of the tests print, up to there; the position in the list strictly advances |
| RunTheorems.RunShape | src/main.c:98-152 | every full run reports init (suite_start (test_start test_done)+ suite_done)* done, every end naming what was started |
| RunTheorems.RunExecutes | src/main.c:98-152 | a run executes exactly the tests behind the first suite, each once, in list order |
| RunTheorems.CutShape | src/main.c:98-152 | a run that a test cuts short reports the beginning of such a word and stops inside that test |
| RunTheorems.CutExecutes | src/main.c:98-152 | it starts exactly the tests up to that one, each once, in list order |
| RunTheorems.ParentIsSuite | src/run.c:96-105 | the walk backward from a test finds the suite under which it is run |
| RunTheorems.NoSuiteIsDefault | src/run.c:96-105 | without a suite before the test the walk finds the default suite |
| RunTheorems.PlanIsExecuted | src/list.c:200-209 | the plan is never too low, and it is the number of executed tests if and only if no test stands before the first suite |
| RunTheorems.PlannedButNotExecuted | src/main.c:292-310 | the smallest list with a wrong plan |
| Totals.AccountsKept | src/report/tap.c:64-181 | after every event of every grammatical trace: results are numbered 1 to N, counters are the numbers of finished and failed tests, and the suites' counters add up to the global ones |
| Totals.PlanAndNumbering | src/report/tap.c:64-172 | the first line is the plan, results are numbered from 1 to the number of executed tests, and the two agree if and only if every test follows a suite |
| Totals.Verdict | src/report/tap.c:175-181 | the last line says that all passed if and only if every executed test passed, which is when the run returns PASS; otherwise its numbers are the executed tests and the sum of the failures that the suites report |
| Totals.VerdictAtEndOnly | src/report/tap.c:64-181 | after every event of every grammatical trace: a verdict is printed if and only if the run has come to its end |
| Totals.CutReport | src/report/tap.c:64-181 | when a test ends the process, the report is numbered without gaps up to the test before it, has fewer results than its plan announces, and no verdict |
| Sheets.PrintoutIsSheet | src/report/tap.c:64-181 | the whole report of a full run written down at once: the plan; for every suite with tests its name, its tests and whether all of them passed, with their numbers; for every test its status, its number, its name and the lines of its messages; the verdict |
| Sheets.ResultPrinted | src/report/tap.c:140-172 | every executed test has its result line, numbered behind the executed tests before it, passed, failed or aborted as its outcome is 0, 1 or another |
| Sheets.VerdictFromResults | src/report/tap.c:175-181 | the verdict is that all tests passed if and only if every result line says so |
| Agreement.ModesAgree | src/main.c:122-136 | for every list of tests that stay alive and print no zero bytes: both modes print the same report but for captured output if and only if for every executed test the pipe holds all that it writes, no message ends with LF and the plain text before the last message has room; they have the same verdict if and only if the pipe holds the output of each, or single mode fails anyway |
| Agreement.VerdictsCompared | src/main.c:291-312 | forking mode passes if and only if single mode does and the pipe holds what each executed test writes |
| Program.PcutMain | src/main.c:194-313 | from the declared chain, the arguments and the callbacks alone: what is reported, written and returned, for a full run, one suite, one test and a refused invocation, whether it comes to its end or a test ends the process; report, buffers and standard output agree with these logs |
| Program.FullRunPrints | src/main.c:291-312 | after a full run with a fresh report: the printed lines, the plan first, results numbered without gaps, the last line the verdict that the exit code stands for, the standard output what the tests wrote |
| Program.RunProcess | src/main.c:194-313 | a whole process from its start: a full run comes to its end if and only if no executed test ends the process, and leaves behind the same lines and output; otherwise its status is that of the first test that ends it, with the lines of the tests before, no verdict, and the output up to there |
| Program.RunOneTest | src/main.c:271-289 | the test with the id is run, or the invocation is refused and nothing happens; report and output agree with the logs |
| Program.RunOneSuite | src/main.c:256-269 | the suite with the id is run and nothing else; the result is PASS whatever its tests do, unless one ends the process, whose status it is then; a wrong id is refused and nothing happens |
| Program.ReadArguments | src/main.c:220-238 | the task is the one that the arguments ask for, and forking is off if and only if "-u" is among them |
| Program.IsArgWithNumber | src/main.c:63-70 | the option is a prefix, the number is what follows |
| Program.TaskIsAsked | src/main.c:220-289 | what arguments ask for, in terms of them alone: a listing with "-l"; else a refusal if the last "-s" and the last "-t" both have numbers that are not negative; else the suite or the test whose number is positive; else the whole run |
| Program.ExitStatus | src/main.c:250-312 | the exit status of a process that comes to its end: 3 for a refusal, 1 for a single test that asserted or a whole run with an executed test that did not pass, 0 otherwise |
| Program.OptionRoundTrip | src/os/generic.c:66-67 | the argument that a parent makes of a positive id asks the child for the test with that id, and "-s" in its place for the suite |
| Program.PositionUnique | src/main.c:80-89 | an id names one position at most |
| Program.Dispatch | src/os/generic.c:58-67 | a child that rebuilt the list from the same declarations finds, for the id of a test, the test at the same place and nothing else |
| Preprocessing.Preprocessor.Run | src/preproc.c:96-137 | the streaming loop outputs the split text expanded from left to right, and one LF; at an identifier of 256 characters it stops with status 1 and everything before that identifier written |
| Preprocessing.Preprocessor.IdentifierAddChar | src/preproc.c:63-72 | a character is appended as long as it and the NUL have room |
| Preprocessing.Preprocessor.IdentifierPrintOrExpand | src/preproc.c:74-89 | the expansion is printed, only the increment macro moves the counter |
| Preprocessing.SplitIsSplit | src/preproc.c:91-130 | scanning yields maximal identifiers and other characters that join back to the input |
| Preprocessing.SplitUnique | src/preproc.c:91-94 | there is only one such split |
| Preprocessing.WordFound | src/preproc.c:91-130 | a word of letters, digits and underscores is a token of its own between two texts if and only if no identifier is open before it and none goes on behind it |
| Preprocessing.MacroExpanded | src/preproc.c:74-89 | each of the five macros, standing alone, is replaced by the text that it stands for, with the number of increments before it; only the increment changes that number |
| Preprocessing.VerbatimIffPlain | src/preproc.c:74-137 | a text comes out unchanged, with one LF behind it, if and only if it has no macro and no identifier of 256 characters or more |
| Preprocessing.GeneratedInjective | src/preproc.c:41-51 | the three families of names never collide, and neither do two numbers |
| Preprocessing.FreshNames | src/preproc.c:74-88 | two generated names are the same if and only if they are of one family with no increment between them |
| Preprocessing.PreviousName | src/preproc.c:78-81 | the previous-name macro prints a name generated before if and only if there was exactly one increment since |
| XmlReporting.NestingKept | src/report/xml.c:61-174 | after every event of every grammatical trace exactly the report and the current suite are open, and the counts of test cases are those that were printed |
| XmlReporting.DocumentComplete | src/report/xml.c:61-174 | the events of a full run ask for a document: one outermost element, all elements closed in order, with matching names and numbers |
| XmlReporting.ReportIsDocument | src/report/xml.c:61-174 | an XML report that received the events of a full run has printed such a document |
| XmlReporting.ReportsSayTheSame | src/report/xml.c:61-174 | after every event of every grammatical trace the lines of the other report can be read off the pieces of this one: same plan, names, numbers, statuses, messages, suites and verdict |
| XmlReporting.XmlReport.TestDone | src/report/xml.c:138-169 | one test case element with its status and the three messages |
| XmlReporting.XmlReport.SuiteDone | src/report/xml.c:84-87 | the suite's end with its two counters |
| XmlReporting.PrintElement | src/report/xml.c:107-128 | the lines of a message inside one element; nothing for NULL and for an empty message |

## Left out

- Running.Runner.FailedAssertion: hooks, `PCUT_DEBUG` output and builds without long jump are not modelled.
- Forking.Parent.RunTestForking: creation of pipes and processes and failing calls are not modelled. The pipe is a number of bytes that it holds (`PIPE_CAPACITY`), any number that is not less than what the parent captures; a test that writes more is killed by the alarm. That needs a time-out other than 0, which would let both processes wait for ever.
- Forking.Parent.RunTestForking: a test that is killed by the alarm because it takes too long is one that ends its process with that signal at an arbitrary point; when the alarm rings is not modelled.
- Forking.Parent.RunTestForking: the standard error of a test is taken to be empty, because both reads go to the start of the same buffer (src/os/unix.c:195-196), so that mixed output is not preserved.
- Forking.Parent.RunTestForking: requires `Printable`, because otherwise the source reads behind an array, which C leaves undefined: the NUL is missing in a full buffer, or the parser leaves its input. The exact conditions are `PrintableIffRoom` and, for any bytes, `PrintableIff`.
- Forking.Parent.ReportUnparsed: requires the same, of the captured bytes.
- Scheduling.Scheduler.RunSuite: requires the same, in forking mode, of the tests of the suite that it runs; `RunAll` and `PcutMain` require it of those that they run, and nothing for one test, a listing or a refused invocation.
- Forking.OutputArrives: for output with zero bytes the statement is `AnyOutputArrives`, in terms of bytes and not of callbacks.
- Agreement.ModesAgree: says nothing about tests that print zero bytes, because these make up messages of their own; a test that ends its process has no report to compare with in single mode, where the run ends with it (`CutReport`).
- ListFix.FixList: requires that no item is reachable by two routes; a chain that imports itself, or is imported twice, sends the source into endless recursion or destroys the links.
- Program.PcutMain: hooks and other extras of the main item, the listing printed for "-l", and the choice of the XML report are not modelled; the XML report is proved on the same events separately.
- Running.Runner.Fork: the copy of the process has the same callbacks and an output of its own; the message buffers are copied, the files that the tests may share are not modelled.
- XmlReporting.ReportIsDocument: that the report received the events of a run is its hypothesis; the scheduler is proved with the other report, which receives the same events through the same calls.
- Tap.TapReport.TestDone: the report's lines and the output of the tests themselves are two logs; how they mix on one terminal is not modelled.
- Preprocessing.Preprocessor.Run: the counter is an unbounded integer and characters outside ASCII are no letters, as in the C locale; the message on standard error is left out.
- XmlReporting.PrintElement: neither the source nor the model escapes text or the end of a CDATA section; pieces of markup are values, their exact spelling is left out.
- Widths of integers: counters, ids and line numbers are unbounded.
- Format strings: the text of an assertion message is an argument; printing is a bounded copy.
- `src/os/generic.c` beyond its command line, the Windows and HelenOS back ends, `src/print.c`, time-outs of tests and the header macros: straight code or calls of the operating system.
