/** Running a test in a process of its own and reading its output (src/os/unix.c),
    and the agreement of that mode with the single-process mode. */
module Forking {
  import opened Text
  import opened Items
  import opened Messages
  import opened Channel
  import opened Tap
  import opened Life
  import opened Running

  /** Maximum size of the output that is captured. */
  const OUTPUT_BUFFER_SIZE: nat := 8192

  /** Size of the buffers for the two parts of the output (src/report/report.c). */
  const BUFFER_SIZE: nat := 4096

  // ---------------------------------------------------------------- reading

  /** The reading end of a pipe whose writer is gone. */
  class Pipe {
    var data: string

    constructor (data: string)
      ensures this.data == data
    {
      this.data := data;
    }

    /** read, behind the `at` bytes that the buffer holds already: any number of bytes
        that are there and wanted, but none only at the end of the data or when none
        are wanted. */
    method Read(buffer: array<char>, ghost held: string, at: nat, size: nat) returns (n: nat)
      requires Holds(buffer, held) && at == |held| && at + size <= buffer.Length
      modifies this, buffer
      ensures n <= size && n <= |old(data)| && (n == 0 <==> size == 0 || old(data) == "")
      ensures data == old(data)[n..] && Holds(buffer, held + old(data)[..n])
    {
      var limit := if size < |data| then size else |data|;
      n :| 0 <= n <= limit && (limit > 0 ==> n > 0);
      CopyBehind(buffer, held, at, data[..n]);
      data := data[n..];
    }
  }

  /** `s` without one final LF. */
  function DropLf(s: string): string {
    if EndsInLf(s) then s[..|s| - 1] else s
  }

  /** Read everything up to the size of the buffer, for every way in which the reads
      can come up short; a final LF of what was read becomes a zero byte. */
  method ReadAll(pipe: Pipe, buffer: array<char>, size: nat) returns (n: nat)
    requires size <= buffer.Length && Holds(buffer, "")
    modifies pipe, buffer
    ensures var got := Take(old(pipe.data), size);
            n == |DropLf(got)| && Holds(buffer, DropLf(got))
  {
    ghost var all, held := pipe.data, "";
    var at, left := 0, size;
    while true
      invariant at + left == size && held + pipe.data == all && at == |held|
      invariant Holds(buffer, held)
      decreases left
    {
      ghost var data := pipe.data;
      var actuallyRead := pipe.Read(buffer, held, at, left);
      assert data == data[..actuallyRead] + data[actuallyRead..];
      held := held + data[..actuallyRead];
      if actuallyRead > 0 {
        at, left := at + actuallyRead, left - actuallyRead;
        if left == 0 {
          break;
        }
      }
      if actuallyRead == 0 {
        break;
      }
    }
    assert held == Take(all, size);
    n := CutFinalLf(buffer, held, at);
  }

  /** A final LF in the buffer becomes a zero byte. */
  method CutFinalLf(buffer: array<char>, ghost held: string, at: nat) returns (n: nat)
    requires Holds(buffer, held) && at == |held|
    modifies buffer
    ensures n == |DropLf(held)| && Holds(buffer, DropLf(held))
  {
    n := at;
    if at > 0 && buffer[at - 1] == LF {
      buffer[at - 1] := NUL;
      n := at - 1;
      assert buffer[..] == held[..at - 1] + Nuls(buffer.Length - at + 1);
    }
  }

  /** Convert the status that wait returned to a test outcome; the exit status has
      eight bits. */
  function ConvertWaitStatus(status: WaitStatus): int {
    match status
    case Exited(code) => if code % 256 != 0 then OUTCOME_FAIL else OUTCOME_PASS
    case Signaled(_) => OUTCOME_INTERNAL_ERROR
    case Other(raw) => raw
  }

  /** How many bytes a pipe holds before a writer has to wait for a reader: any number,
      but at least as many as the parent captures (65536 by default on Linux). */
  type Capacity = n: nat | n >= OUTPUT_BUFFER_SIZE witness OUTPUT_BUFFER_SIZE

  const PIPE_CAPACITY: Capacity

  const SIGKILL: int := 9

  // ------------------------------------------ what the parent gets of a test

  /** How the process of a test ends: what run_test returns becomes its exit status. */
  function FinalStatus(control: Control): WaitStatus {
    match control
    case Returned => Exited(OUTCOME_PASS)
    case Jumped => Exited(OUTCOME_FAIL)
    case Ended(status) => status
  }

  /** The standard output of the process of a test. */
  function ChildOutput(cs: Case, test: Item): string {
    EncodeAll(TestEffect(cs, FORKED, test).frames)
  }

  /** How the process of a test ends as the parent sees it. The parent reads the standard
      error to its end, which is the end of the process, before it reads the standard
      output; so a process that writes more than the pipe holds waits until the alarm of
      the parent kills it. */
  function ForkStatus(cs: Case, test: Item): WaitStatus {
    if |ChildOutput(cs, test)| > PIPE_CAPACITY then Signaled(SIGKILL)
    else FinalStatus(TestEffect(cs, FORKED, test).control)
  }

  function ForkOutcome(cs: Case, test: Item): int {
    ConvertWaitStatus(ForkStatus(cs, test))
  }

  /** The captured output, as it is handed to the parser. */
  function Captured(stream: string): string {
    var got := DropLf(Take(stream, OUTPUT_BUFFER_SIZE - 1));
    got + Nuls(OUTPUT_BUFFER_SIZE - |got|)
  }

  ghost function ParsedOutput(cs: Case, test: Item): Parsed {
    ParseOutput(Captured(ChildOutput(cs, test)), BUFFER_SIZE, BUFFER_SIZE)
  }

  /** The output of a test can be reported: the parser stays inside its input, and
      both of its buffers end with a NUL. */
  ghost predicate Printable(cs: Case, test: Item) {
    var p := ParsedOutput(cs, test);
    p.stop != PastEnd && |p.out.stdio| < BUFFER_SIZE && |p.out.errors| < BUFFER_SIZE
  }

  /** The report of a test that ran in a process of its own. */
  ghost function ForkedDone(cs: Case, test: Item): Event {
    var out := ParsedOutput(cs, test).out;
    Event.TestDone(test, ForkOutcome(cs, test), out.errors, "", out.stdio)
  }

  /** The report of a test that ran in the process of the scheduler. */
  function SingleDone(cs: Case, test: Item): Event {
    Event.TestDone(test, Outcome(cs), MainMessage(cs), TeardownMessage(cs), "")
  }

  lemma {:induction false} FeedNulFree(s: string, ts: Turns, ioRoom: nat, errorRoom: nat)
    requires IsCut(s, ts)
    ensures var out := Feed(ts, ioRoom, errorRoom).out;
            NulFree(out.stdio) && NulFree(out.errors) && |out.stdio| <= ioRoom && |out.errors| <= errorRoom
    decreases ts
  {
    if ts.More? {
      var rest := s[ts.zeros + |ts.text| + 1..];
      if ts.zeros < 2 && |ts.text| <= ioRoom {
        FeedNulFree(rest, ts.rest, ioRoom - |ts.text|, errorRoom);
      } else if ts.zeros >= 2 && |ts.text| <= errorRoom {
        FeedNulFree(rest, ts.rest, ioRoom, errorRoom - |ts.text|);
      }
    }
  }

  // ------------------------------------------ what a test writes, and what arrives

  /** No callback that is called prints a zero byte. */
  predicate PrintsNoZero(cs: Case) {
    forall i :: 0 <= i < |Called(cs)| ==> NulFree(Called(cs)[i].out)
  }

  /** The output of a test process: plain text, a message, plain text, a message; what
      follows a message that is not there is part of the text before it. */
  datatype Pieces = Pieces(plain: string, message: string, rest: string, last: string)

  function Framed(message: string): string {
    Encode(Fail(message))
  }

  function Bytes(pc: Pieces): string {
    pc.plain + Framed(pc.message) + pc.rest + Framed(pc.last)
  }

  predicate Regular(pc: Pieces) {
    && NulFree(pc.plain) && NulFree(pc.message) && NulFree(pc.rest) && NulFree(pc.last)
    && |pc.message| < MAX_MESSAGE_LENGTH && |pc.last| < MAX_MESSAGE_LENGTH
    && (pc.message == "" ==> pc.rest == pc.last == "")
  }

  /** What the teardown prints, if it is called. */
  function TeardownOut(cs: Case): string {
    if cs.teardown == None || BodyEnd(cs).Terminates? then "" else cs.teardown.value.out
  }

  /** The message of the teardown, if it is called. */
  function LateMessage(cs: Case): string {
    if BodyEnd(cs).Terminates? then "" else TeardownMessage(cs)
  }

  /** The output of a test, from the behaviour of its callbacks. */
  function PiecesOf(cs: Case): Pieces {
    var body := Printed(Before(cs));
    if MainMessage(cs) != "" then Pieces(body, MainMessage(cs), TeardownOut(cs), LateMessage(cs))
    else Pieces(body + TeardownOut(cs), LateMessage(cs), "", "")
  }

  /** The pieces without the final LF that the reader drops. */
  function Trimmed(pc: Pieces): Pieces {
    if pc.last != "" then pc
    else if pc.message != "" then pc.(rest := DropLf(pc.rest))
    else pc.(plain := DropLf(pc.plain))
  }

  function WithLf(m: string): string {
    if m == "" then "" else m + [LF]
  }

  /** What the parser makes of the pieces: everything, or what stands before the first
      plain text that has no room. */
  function Stored(pc: Pieces): Parsed {
    if |pc.plain| > BUFFER_SIZE then Parsed(Pair("", ""), Overflow)
    else if |pc.plain| + |pc.rest| > BUFFER_SIZE then Parsed(Pair(pc.plain, WithLf(pc.message)), Overflow)
    else Parsed(Pair(pc.plain + pc.rest, WithLf(pc.message) + WithLf(pc.last)), Complete)
  }

  lemma FailureText(e: End)
    requires e.Asserts?
    ensures NulFree(Failure(e)) && 4 <= |Failure(e)| < MAX_MESSAGE_LENGTH
  {
    MessageNulFree(e.file, e.line, e.text);
  }

  lemma WrittenBytes(sc: Script)
    ensures EncodeAll(Written(sc, FORKED)) == sc.out + Framed(if sc.end.Asserts? then Failure(sc.end) else "")
  {
    OneFrame(Out(sc.out));
    if sc.end.Asserts? {
      FailureText(sc.end);
      EncodeSnoc([Out(sc.out)], Fail(Failure(sc.end)));
    }
  }

  lemma OnePrinted(sc: Script)
    ensures Printed([sc]) == sc.out
  {
    assert [sc][1..] == [];
  }

  lemma BytesJoin(fs: seq<Frame>, gs: seq<Frame>, out: string, framed: string)
    requires EncodeAll(gs) == out + framed
    ensures EncodeAll(fs + gs) == EncodeAll(fs) + out + framed
  {
    EncodeConcat(fs, gs);
    Associated(EncodeAll(fs), out, framed);
  }

  /** The setup and the body: only the last of them can have failed. */
  lemma BeforeBytes(cs: Case)
    ensures EncodeAll(WrittenBy(Before(cs), FORKED)) == Printed(Before(cs)) + Framed(MainMessage(cs))
  {
    WrittenByOne(cs.body, FORKED);
    WrittenBytes(cs.body);
    OnePrinted(cs.body);
    if cs.setup.Some? {
      var setup := cs.setup.value;
      WrittenByOne(setup, FORKED);
      WrittenBytes(setup);
      OnePrinted(setup);
      if setup.end == Passes {
        TwoScripts(cs);
      }
    }
  }

  /** A setup that passes, and the body. */
  lemma TwoScripts(cs: Case)
    requires cs.setup.Some? && cs.setup.value.end == Passes
    ensures EncodeAll(WrittenBy(Before(cs), FORKED)) == Printed(Before(cs)) + Framed(MainMessage(cs))
  {
    var setup, body := cs.setup.value, cs.body;
    assert Before(cs) == [setup] + [body] && Before(cs)[1..] == [body];
    WrittenByOne(setup, FORKED);
    WrittenByOne(body, FORKED);
    WrittenByConcat([setup], [body], FORKED);
    WrittenBytes(setup);
    WrittenBytes(body);
    OnePrinted(body);
    BytesJoin(Written(setup, FORKED), Written(body, FORKED), body.out, Framed(MainMessage(cs)));
    assert setup.out + Framed("") == setup.out;
  }

  /** The teardown, if it is called. */
  lemma TeardownBytes(cs: Case, before: seq<Frame>)
    ensures var fs := if cs.teardown == None || BodyEnd(cs).Terminates? then [] else Written(cs.teardown.value, FORKED);
            EncodeAll(before + fs) == EncodeAll(before) + TeardownOut(cs) + Framed(LateMessage(cs))
  {
    if cs.teardown.Some? && !BodyEnd(cs).Terminates? {
      WrittenBytes(cs.teardown.value);
      BytesJoin(before, Written(cs.teardown.value, FORKED), TeardownOut(cs), Framed(LateMessage(cs)));
    } else {
      assert before + [] == before;
    }
  }

  /** What a test process writes. */
  lemma StreamIsBytes(cs: Case, test: Item)
    ensures ChildOutput(cs, test) == Bytes(PiecesOf(cs))
  {
    var before := WrittenBy(Before(cs), FORKED);
    LifeCycleFrames(cs, FORKED, test);
    CalledParts(cs, FORKED);
    BeforeBytes(cs);
    TeardownBytes(cs, before);
    if MainMessage(cs) == "" {
      var body, out := Printed(Before(cs)), TeardownOut(cs);
      assert body + Framed("") == body;
      assert Bytes(PiecesOf(cs)) == body + out + Framed(LateMessage(cs));
    }
  }

  /** The message of a failure as a test process writes it: three zero bytes before it, an
      LF and a zero byte behind it. */
  function Spelled(message: string): string {
    if message == "" then "" else ['\0', '\0', '\0'] + message + ['\n', '\0']
  }

  /** The same byte by byte: what set-up and body print, the message of the one that
      failed, what the tear-down prints, and its message. */
  lemma StreamIsSpelled(cs: Case, test: Item)
    ensures ChildOutput(cs, test) == Printed(Before(cs)) + Spelled(MainMessage(cs)) + TeardownOut(cs) + Spelled(LateMessage(cs))
  {
    StreamIsBytes(cs, test);
    if MainMessage(cs) == "" {
      var body, out := Printed(Before(cs)), TeardownOut(cs);
      assert body + Spelled("") == body;
      assert Bytes(PiecesOf(cs)) == body + out + Framed(LateMessage(cs));
    }
  }

  lemma {:induction false} PrintedNulFree(scs: seq<Script>)
    requires forall i :: 0 <= i < |scs| ==> NulFree(scs[i].out)
    ensures NulFree(Printed(scs))
  {
    if scs != [] {
      PrintedNulFree(scs[1..]);
    }
  }

  lemma PiecesRegular(cs: Case)
    requires PrintsNoZero(cs)
    ensures Regular(PiecesOf(cs))
  {
    var b, all := Before(cs), Called(cs);
    assert forall i :: 0 <= i < |b| ==> b[i] == all[i];
    PrintedNulFree(b);
    if cs.teardown.Some? && !BodyEnd(cs).Terminates? {
      assert all[|b|] == cs.teardown.value;
    }
    if BodyEnd(cs).Asserts? {
      FailureText(BodyEnd(cs));
    }
    if TeardownEnd(cs).Asserts? {
      FailureText(TeardownEnd(cs));
    }
  }

  lemma LastOfConcat(a: string, b: string)
    requires b != ""
    ensures EndsInLf(a + b) <==> EndsInLf(b)
    ensures EndsInLf(b) ==> DropLf(a + b) == a + DropLf(b)
  {
  }

  /** Dropping a final LF of the stream can only shorten the last plain text: a message
      is followed by a zero byte. */
  lemma TrimmedBytes(pc: Pieces)
    requires Regular(pc)
    ensures Bytes(Trimmed(pc)) == DropLf(Bytes(pc)) && Regular(Trimmed(pc))
  {
    var before := pc.plain + Framed(pc.message);
    if pc.last != "" {
      LastOfConcat(before + pc.rest, Framed(pc.last));
    } else if pc.rest != "" {
      LastOfConcat(before, pc.rest);
      assert before + pc.rest + "" == before + pc.rest && before + DropLf(pc.rest) + "" == before + DropLf(pc.rest);
    } else if pc.message != "" {
      LastOfConcat(pc.plain, Framed(pc.message));
      assert Bytes(pc) == before;
    } else {
      assert Bytes(pc) == pc.plain && Bytes(Trimmed(pc)) == DropLf(pc.plain);
    }
  }

  /** Only the beginning of a stream is captured. */
  lemma HeldIsCaptured(stream: string, held: nat)
    requires OUTPUT_BUFFER_SIZE <= held <= |stream|
    ensures Captured(stream[..held]) == Captured(stream)
  {
    var size := OUTPUT_BUFFER_SIZE - 1;
    assert stream[..held][..size] == stream[..size];
  }

  /** The reader keeps every beginning of the stream that is short enough. */
  lemma BeginningCaptured(stream: string, x: string)
    requires x <= DropLf(stream) && |x| <= OUTPUT_BUFFER_SIZE - 2
    ensures x <= Captured(stream) && NulLast(Captured(stream)) && |Captured(stream)| == OUTPUT_BUFFER_SIZE
  {
    var taken := Take(stream, OUTPUT_BUFFER_SIZE - 1);
    var got := DropLf(taken);
    assert x <= stream;
    assert |x| <= |got|;
    assert x <= got;
  }

  /** The first plain text has no room. */
  lemma FirstTooLong(pc: Pieces)
    requires Regular(pc) && |Trimmed(pc).plain| > BUFFER_SIZE
    ensures ParseOutput(Captured(Bytes(pc)), BUFFER_SIZE, BUFFER_SIZE) == Stored(Trimmed(pc))
  {
    TrimmedBytes(pc);
    var x := Trimmed(pc).plain[..BUFFER_SIZE + 1];
    assert x <= Bytes(Trimmed(pc));
    BeginningCaptured(Bytes(pc), x);
    PlainTooLong(Captured(Bytes(pc)), x, BUFFER_SIZE, BUFFER_SIZE);
  }

  /** A beginning of the stream, and what is captured behind it. */
  lemma CapturedBehind(stream: string, first: string, x: string) returns (tail: string)
    requires first + x <= DropLf(stream) && |first + x| <= OUTPUT_BUFFER_SIZE - 2
    ensures Captured(stream) == first + tail && x <= tail && NulLast(tail) && NulLast(Captured(stream))
  {
    BeginningCaptured(stream, first + x);
    var c := Captured(stream);
    tail := c[|first|..];
    assert c[..|first|] == (first + x)[..|first|] == first;
    assert tail[..|x|] == c[|first|..|first| + |x|] == x;
    assert tail[|tail| - 1] == c[|c| - 1];
  }

  /** The second plain text has no room. */
  lemma SecondTooLong(pc: Pieces)
    requires Regular(pc) && |Trimmed(pc).plain| <= BUFFER_SIZE < |Trimmed(pc).plain| + |Trimmed(pc).rest|
    ensures ParseOutput(Captured(Bytes(pc)), BUFFER_SIZE, BUFFER_SIZE) == Stored(Trimmed(pc))
  {
    TrimmedBytes(pc);
    var tp := Trimmed(pc);
    var first, x := tp.plain + Framed(tp.message), tp.rest[..BUFFER_SIZE + 1 - |tp.plain|];
    assert first + x <= first + tp.rest <= Bytes(tp);
    var tail := CapturedBehind(Bytes(pc), first, x);
    EncodedText(tp.message);
    SecondStops(Captured(Bytes(pc)), tp.plain, tp.message + [LF], tail, x);
  }

  lemma SecondStops(c: string, plain: string, text: string, tail: string, x: string)
    requires c == plain + (Nuls(3) + text + [NUL]) + tail && NulFree(plain) && NulFree(text) && text != ""
    requires NulLast(tail) && x <= tail && NulFree(x) && |plain| <= BUFFER_SIZE < |plain| + |x| && |text| <= BUFFER_SIZE
    ensures ParseOutput(c, BUFFER_SIZE, BUFFER_SIZE) == Parsed(Pair(plain, text), Overflow)
  {
    PlainThenMessage(c, plain, text, tail, BUFFER_SIZE, BUFFER_SIZE);
    PlainTooLong(tail, x, BUFFER_SIZE - |plain|, BUFFER_SIZE - |text|);
    PlusNothing(Pair(plain, text));
  }

  /** The frames that the pieces consist of. */
  lemma FramesOf(pc: Pieces) returns (fs: seq<Frame>)
    requires Regular(pc)
    ensures ZeroFree(fs) && EncodeAll(fs) == Bytes(pc)
    ensures OutOf(fs) == pc.plain + pc.rest && ErrorsOf(fs) == WithLf(pc.message) + WithLf(pc.last)
  {
    var a, b := [Out(pc.plain)] + [Fail(pc.message)], [Out(pc.rest)] + [Fail(pc.last)];
    TwoFrames(pc.plain, pc.message);
    TwoFrames(pc.rest, pc.last);
    EncodeConcat(a, b);
    OutOfConcat(a, b);
    ErrorsOfConcat(a, b);
    Associated(pc.plain + Framed(pc.message), pc.rest, Framed(pc.last));
    fs := a + b;
  }

  lemma TwoFrames(plain: string, message: string)
    ensures var fs := [Out(plain)] + [Fail(message)];
            EncodeAll(fs) == plain + Framed(message) && OutOf(fs) == plain && ErrorsOf(fs) == WithLf(message)
  {
    var a, b := [Out(plain)], [Fail(message)];
    OneFrame(Out(plain));
    OneFrame(Fail(message));
    EncodeConcat(a, b);
    OutOfConcat(a, b);
    ErrorsOfConcat(a, b);
    assert plain + "" == plain && "" + WithLf(message) == WithLf(message);
  }

  /** A short stream is read as a whole. */
  lemma WholeCaptured(stream: string)
    requires |stream| < OUTPUT_BUFFER_SIZE
    ensures Captured(stream) == DropLf(stream) + Nuls(OUTPUT_BUFFER_SIZE - |DropLf(stream)|)
  {
  }

  lemma BytesLength(pc: Pieces)
    requires Regular(pc)
    ensures |Bytes(pc)| <= |pc.plain| + |pc.rest| + 2 * (MAX_MESSAGE_LENGTH + 4)
  {
  }

  /** Pieces that have room come back through the parser. */
  lemma PiecesReturn(tp: Pieces, pad: nat)
    requires Regular(tp) && |tp.plain| + |tp.rest| <= BUFFER_SIZE && pad >= 2
    ensures ParseOutput(Bytes(tp) + Nuls(pad), BUFFER_SIZE, BUFFER_SIZE) == Stored(tp)
  {
    var fs := FramesOf(tp);
    FramingRoundTrip(fs, pad, BUFFER_SIZE, BUFFER_SIZE);
  }

  /** Everything has room. */
  lemma AllFits(pc: Pieces)
    requires Regular(pc) && |Trimmed(pc).plain| + |Trimmed(pc).rest| <= BUFFER_SIZE
    ensures ParseOutput(Captured(Bytes(pc)), BUFFER_SIZE, BUFFER_SIZE) == Stored(Trimmed(pc))
  {
    TrimmedBytes(pc);
    BytesLength(pc);
    BytesLength(Trimmed(pc));
    WholeCaptured(Bytes(pc));
    PiecesReturn(Trimmed(pc), OUTPUT_BUFFER_SIZE - |Bytes(Trimmed(pc))|);
  }

  /** What arrives of a test, exactly: for every zero-free output of any length, and
      however the process ends. */
  lemma OutputArrives(cs: Case, test: Item)
    requires PrintsNoZero(cs)
    ensures ParsedOutput(cs, test) == Stored(Trimmed(PiecesOf(cs)))
  {
    var pc := PiecesOf(cs);
    StreamIsBytes(cs, test);
    PiecesRegular(cs);
    if |Trimmed(pc).plain| > BUFFER_SIZE {
      FirstTooLong(pc);
    } else if |Trimmed(pc).plain| + |Trimmed(pc).rest| > BUFFER_SIZE {
      SecondTooLong(pc);
    } else {
      AllFits(pc);
    }
  }

  /** What arrives of a test that may print any bytes, zero bytes included: unless one of
      the outputs exceeds its buffer, both hold their bytes in order, each byte in the
      output that the zero bytes before its text select; otherwise they hold this for
      the input before the first text that has no room. */
  lemma AnyOutputArrives(cs: Case, test: Item)
    ensures var s, p := Captured(Bytes(PiecesOf(cs))), ParsedOutput(cs, test); var d := PickedPair(s, |s|);
            && (p.stop == Overflow <==> |d.stdio| > BUFFER_SIZE || |d.errors| > BUFFER_SIZE)
            && (p.stop != Overflow ==> p.out == d && p.stop == if EndsOpen(s) then PastEnd else Complete)
            && (p.stop == Overflow ==> exists k: nat :: StopsAt(s, k, p.out, BUFFER_SIZE, BUFFER_SIZE) == true)
  {
    var s := Captured(Bytes(PiecesOf(cs)));
    StreamIsBytes(cs, test);
    BeginningCaptured(Bytes(PiecesOf(cs)), "");
    FeedIsDecode(s, BUFFER_SIZE, BUFFER_SIZE);
    DecodeIsPicked(s);
    if ParsedOutput(cs, test).stop == Overflow {
      var k, out := OverflowPoint(s, BUFFER_SIZE, BUFFER_SIZE);
    }
  }

  /** Both outputs leave room for a NUL. */
  predicate HasRoom(p: Pair) {
    |p.stdio| < BUFFER_SIZE && |p.errors| < BUFFER_SIZE
  }

  /** When any output can be reported, from the captured bytes alone: if both outputs fit
      their buffers, they have to leave room for a NUL and the last text must not end at
      the last byte but one; otherwise the texts before the first one that does not fit
      have to leave room. */
  lemma PrintableIff(cs: Case, test: Item)
    ensures var s := Captured(Bytes(PiecesOf(cs))); var d := PickedPair(s, |s|);
            NulLast(s) && (Printable(cs, test) <==>
              if |d.stdio| <= BUFFER_SIZE && |d.errors| <= BUFFER_SIZE then HasRoom(d) && !EndsOpen(s)
              else exists n: nat :: RoomBefore(Cut(s), n) == true)
  {
    var s, p := Captured(Bytes(PiecesOf(cs))), ParsedOutput(cs, test);
    AnyOutputArrives(cs, test);
    StreamIsBytes(cs, test);
    BeginningCaptured(Bytes(PiecesOf(cs)), "");
    if p.stop == Overflow {
      OverflowRoom(s, p);
    }
  }

  /** The next text is the first without room, and the `n` texts before it leave room for
      a NUL in both outputs. */
  predicate RoomBefore(ts: Turns, n: nat) {
    NoRoomFor(ts, n, FirstTurns(ts, n), BUFFER_SIZE, BUFFER_SIZE) && HasRoom(FirstTurns(ts, n))
  }

  lemma OverflowRoom(s: string, p: Parsed)
    requires NulLast(s) && p == Feed(Cut(s), BUFFER_SIZE, BUFFER_SIZE) && p.stop == Overflow
    ensures HasRoom(p.out) <==> exists n: nat :: RoomBefore(Cut(s), n) == true
  {
    CutHasNoStop(s, Cut(s));
    var n := NoRoomFound(Cut(s), BUFFER_SIZE, BUFFER_SIZE);
    assert HasRoom(p.out) == RoomBefore(Cut(s), n);
    forall m: nat | RoomBefore(Cut(s), m) ensures HasRoom(p.out) {
      NoRoomStops(Cut(s), m, FirstTurns(Cut(s), m), BUFFER_SIZE, BUFFER_SIZE);
    }
  }

  /** The plain text that is stored fills its buffer to the last byte. */
  predicate FillsBuffer(pc: Pieces) {
    if |pc.plain| + |pc.rest| > BUFFER_SIZE then |pc.plain| == BUFFER_SIZE
    else |pc.plain| + |pc.rest| == BUFFER_SIZE
  }

  /** A zero-free output can be reported unless the plain text that is stored leaves no
      room for a NUL; the parser never reads behind its input. */
  lemma PrintableIffRoom(cs: Case, test: Item)
    requires PrintsNoZero(cs)
    ensures ParsedOutput(cs, test).stop != PastEnd
    ensures Printable(cs, test) <==> !FillsBuffer(Trimmed(PiecesOf(cs)))
  {
    OutputArrives(cs, test);
    PiecesRegular(cs);
    TrimmedBytes(PiecesOf(cs));
  }

  /** A passing test that prints one long line, with or without its LF, can be reported
      unless the line has 4096 characters. */
  lemma FullBufferExample(test: Item, n: nat)
    ensures Printable(Case(None, Script(seq(n, _ => 'a'), Passes), None), test) <==> n != 4096
    ensures Printable(Case(None, Script(seq(n, _ => 'a') + ['\n'], Passes), None), test) <==> n != 4096
  {
    var text := seq(n, _ => 'a');
    LineFits(text, text, test);
    LineFits(text + ['\n'], text, test);
  }

  lemma LineFits(out: string, text: string, test: Item)
    requires NulFree(out) && DropLf(out) == text
    ensures Printable(Case(None, Script(out, Passes), None), test) <==> |text| != BUFFER_SIZE
  {
    var cs := Case(None, Script(out, Passes), None);
    OnePrinted(cs.body);
    assert PiecesOf(cs) == Pieces(out, "", "", "");
    PrintableIffRoom(cs, test);
  }

  /** A test that makes the parser read behind its input: it prints zero bytes, and a
      text that ends right before the last byte of the buffer. */
  lemma ReadsPastEnd(test: Item)
    ensures var cs := Case(None, Script(Nuls(8190) + ['a'], Passes), None);
            ParsedOutput(cs, test).stop == PastEnd
  {
    var zeros := Nuls(OUTPUT_BUFFER_SIZE - 2);
    var cs := Case(None, Script(zeros + ['a'], Passes), None);
    StreamIsBytes(cs, test);
    OnePrinted(cs.body);
    var s := Captured(ChildOutput(cs, test));
    assert ChildOutput(cs, test) == zeros + ['a'];
    assert s == zeros + ['a'] + [NUL];
    assert s[|s| - 2] == 'a' && s[|s| - 1] == NUL;
    MessageAtEnd(s, zeros);
    FeedIsDecode(s, BUFFER_SIZE, BUFFER_SIZE);
  }

  lemma MessageAtEnd(s: string, zeros: string)
    requires zeros == Nuls(OUTPUT_BUFFER_SIZE - 2) && s == zeros + ['a'] + [NUL]
    ensures Decode(s, 1, ToStdio) == Pair("", "a")
  {
    assert s == zeros + (['a'] + [NUL]);
    DecodeZeros(|zeros|, ['a'] + [NUL], 1, ToStdio);
    DecodeText(['a'], [NUL], 1 + |zeros|, ToStdio);
    assert [NUL][1..] == "";
  }

  lemma {:induction false} PrintedConcat(a: seq<Script>, b: seq<Script>)
    ensures Printed(a + b) == Printed(a) + Printed(b)
  {
    if a == [] {
      assert a + b == b;
    } else {
      assert (a + b)[1..] == a[1..] + b;
      PrintedConcat(a[1..], b);
    }
  }

  /** The plain text of a test process is all that its callbacks print, in their order. */
  lemma PiecesConserve(cs: Case)
    ensures PiecesOf(cs).plain + PiecesOf(cs).rest == Printed(Called(cs))
  {
    if cs.teardown.Some? && !BodyEnd(cs).Terminates? {
      PrintedConcat(Before(cs), [cs.teardown.value]);
      OnePrinted(cs.teardown.value);
    } else {
      assert Called(cs) == Before(cs);
    }
  }

  /** What is stored of the plain text: all of it, what stands before the first message, or
      nothing. */
  lemma StoredText(t: Pieces)
    ensures Stored(t).out.stdio
            == if |t.plain| > 4096 then "" else if |t.plain + t.rest| > 4096 then t.plain else t.plain + t.rest
  {
  }

  /** Without messages only a final LF is dropped. */
  lemma TrimmedText(cs: Case)
    requires MainMessage(cs) == "" && LateMessage(cs) == ""
    ensures var all, t := Printed(Called(cs)), Trimmed(PiecesOf(cs));
            t.rest == "" && t.plain == if all != "" && all[|all| - 1] == '\n' then all[..|all| - 1] else all
  {
    PiecesConserve(cs);
    assert PiecesOf(cs).plain + "" == PiecesOf(cs).plain;
  }

  /** What is reported as the output of a test in forking mode, when it prints no zero
      bytes: everything, but for a final LF; or what stands before the first message, if
      4096 characters are not enough for everything; or nothing, if they are not enough for
      that. In particular a test that does not fail has all its output reported, or none. */
  lemma OutputIsReported(cs: Case, test: Item)
    requires PrintsNoZero(cs)
    ensures var out, t := ForkedDone(cs, test).output, Trimmed(PiecesOf(cs));
            out == if |t.plain| > 4096 then "" else if |t.plain + t.rest| > 4096 then t.plain else t.plain + t.rest
    ensures MainMessage(cs) == "" && LateMessage(cs) == "" ==>
      var all := Printed(Called(cs));
      var text := if all != "" && all[|all| - 1] == '\n' then all[..|all| - 1] else all;
      ForkedDone(cs, test).output == if |text| > 4096 then "" else text
  {
    OutputArrives(cs, test);
    StoredText(Trimmed(PiecesOf(cs)));
    if MainMessage(cs) == "" && LateMessage(cs) == "" {
      TrimmedText(cs);
      var t := Trimmed(PiecesOf(cs));
      assert t.plain + t.rest == t.plain;
    }
  }

  // ----------------------------------- forking mode against single-process mode

  /** A message of the test ends with LF. */
  predicate SomeMessageEndsInLf(cs: Case) {
    EndsInLf(MainMessage(cs)) || EndsInLf(TeardownMessage(cs))
  }

  /** The length of the plain text before the last message, 0 when there is none. */
  function PlainBeforeLast(pc: Pieces): nat {
    if pc.last != "" then |pc.plain| + |pc.rest| else if pc.message != "" then |pc.plain| else 0
  }

  /** What would arrive of the two messages of a test in buffers without limits. */
  function Arriving(cs: Case): string {
    WithLf(MainMessage(cs)) + WithLf(LateMessage(cs))
  }

  /** The messages arrive in full if and only if the plain text before the last one
      has room; otherwise the last one is lost, or all of them are. */
  lemma MessagesStored(cs: Case)
    ensures var errors := Stored(Trimmed(PiecesOf(cs))).out.errors;
            if PlainBeforeLast(PiecesOf(cs)) <= BUFFER_SIZE then errors == Arriving(cs)
            else if LateMessage(cs) != "" && MainMessage(cs) != "" && errors != "" then errors == WithLf(MainMessage(cs))
            else errors == "" && Arriving(cs) != ""
  {
  }

  /** The lines that report the errors of a test. */
  ghost function ErrorLines(e: Event): seq<Line>
    requires e.TestDone?
  {
    Notes(ERROR_PREFIX, e.error) + Notes(ERROR_PREFIX, e.teardownError)
  }

  lemma LinesOfArrivingMessage(m: string)
    ensures !EndsInLf(m) ==> Lines(WithLf(m)) == Lines(m)
    ensures EndsInLf(m) ==> Lines(WithLf(m)) == Lines(m) + [""]
  {
    if m != "" {
      LinesOfTerminated(m);
    }
  }

  lemma PrefixedConcat(prefix: string, a: seq<string>, b: seq<string>)
    ensures Prefixed(prefix, a + b) == Prefixed(prefix, a) + Prefixed(prefix, b)
  {
  }

  /** The error lines of a test with the messages `m` and `t`, when all of them arrive
      and when they are reported at once. */
  lemma MessagesCompared(m: string, t: string)
    ensures var arrived := Notes(ERROR_PREFIX, WithLf(m) + WithLf(t)) + Notes(ERROR_PREFIX, "");
            var atOnce := Notes(ERROR_PREFIX, m) + Notes(ERROR_PREFIX, t);
            if EndsInLf(m) || EndsInLf(t) then |arrived| > |atOnce| else arrived == atOnce
  {
    LinesConcat(WithLf(m), WithLf(t));
    LinesOfArrivingMessage(m);
    LinesOfArrivingMessage(t);
    PrefixedConcat(ERROR_PREFIX, Lines(WithLf(m)), Lines(WithLf(t)));
    assert Lines("") == [];
  }

  /** A message of more than one byte is not a single empty line. */
  lemma LinesOfMessage(t: string)
    requires |t| > 1
    ensures Lines(t) != [] && Lines(t) != [""]
  {
    LinesJoinBack(t);
    UnlinesCons("", []);
  }

  /** A lost message shows: the first one, and then the second one alone. */
  lemma LossShows(m: string, t: string)
    requires |t| > 1
    ensures Notes(ERROR_PREFIX, "") + Notes(ERROR_PREFIX, "") != Notes(ERROR_PREFIX, m) + Notes(ERROR_PREFIX, t)
    ensures Notes(ERROR_PREFIX, WithLf(m)) + Notes(ERROR_PREFIX, "") != Notes(ERROR_PREFIX, m) + Notes(ERROR_PREFIX, t)
  {
    LinesOfMessage(t);
    LinesOfArrivingMessage(m);
    assert Lines("") == [];
    var kept, lost := Notes(ERROR_PREFIX, m), Notes(ERROR_PREFIX, t);
    if |lost| == 1 && EndsInLf(m) {
      assert (Notes(ERROR_PREFIX, WithLf(m)) + [])[|kept|] == Note(ERROR_PREFIX, "");
      assert (kept + lost)[|kept|] == Note(ERROR_PREFIX, Lines(t)[0]);
    }
  }

  lemma FirstLost(m: string)
    requires |m| > 1
    ensures Notes(ERROR_PREFIX, "") + Notes(ERROR_PREFIX, "") != Notes(ERROR_PREFIX, m) + Notes(ERROR_PREFIX, "")
  {
    LinesOfMessage(m);
    assert Lines("") == [];
  }

  /** The error lines agree if and only if everything arrived and no message ends with LF. */
  lemma LinesDecide(errors: string, m: string, t: string, complete: bool)
    requires (m == "" || |m| > 1) && (t == "" || |t| > 1)
    requires complete ==> errors == WithLf(m) + WithLf(t)
    requires !complete && errors != "" ==> errors == WithLf(m) && t != ""
    requires !complete && errors == "" ==> m != "" || t != ""
    ensures Notes(ERROR_PREFIX, errors) + Notes(ERROR_PREFIX, "") == Notes(ERROR_PREFIX, m) + Notes(ERROR_PREFIX, t)
       <==> complete && !EndsInLf(m) && !EndsInLf(t)
  {
    if complete {
      MessagesCompared(m, t);
    } else if t != "" {
      LossShows(m, t);
    } else {
      FirstLost(m);
    }
  }

  /** Both messages of a test that stays alive. */
  lemma MessageLengths(cs: Case)
    ensures MainMessage(cs) == "" || |MainMessage(cs)| > 1
    ensures TeardownMessage(cs) == "" || |TeardownMessage(cs)| > 1
  {
    if BodyEnd(cs).Asserts? {
      FailureText(BodyEnd(cs));
    }
    if TeardownEnd(cs).Asserts? {
      FailureText(TeardownEnd(cs));
    }
  }

  /** The messages of a test come through in every respect. */
  predicate MessagesAgree(cs: Case) {
    !SomeMessageEndsInLf(cs) && PlainBeforeLast(PiecesOf(cs)) <= BUFFER_SIZE
  }

  /** The test writes more than the pipe to the parent holds. */
  predicate Outgrows(cs: Case) {
    |Bytes(PiecesOf(cs))| > PIPE_CAPACITY
  }

  /** Fork/single agreement: for every setup, body and teardown that do not end the
      process themselves, both modes report the same outcome if and only if the pipe holds
      all that the test writes; and if they print no zero bytes, both modes print the same
      error lines if and only if no message ends with LF and the plain text before the
      last message has room in the buffer of the parent. */
  lemma ForkAgreesWithSingle(cs: Case, test: Item)
    requires Survives(cs)
    ensures ForkedDone(cs, test).outcome == SingleDone(cs, test).outcome <==> !Outgrows(cs)
    ensures PrintsNoZero(cs) ==>
      (ErrorLines(ForkedDone(cs, test)) == ErrorLines(SingleDone(cs, test)) <==> MessagesAgree(cs))
  {
    OutcomeDecides(cs, test);
    if PrintsNoZero(cs) {
      OutputArrives(cs, test);
      MessagesStored(cs);
      MessageLengths(cs);
      LinesDecide(ForkedDone(cs, test).error, MainMessage(cs), TeardownMessage(cs),
                  PlainBeforeLast(PiecesOf(cs)) <= BUFFER_SIZE);
    }
  }

  lemma OutcomeDecides(cs: Case, test: Item)
    requires Survives(cs)
    ensures ForkOutcome(cs, test) == if Outgrows(cs) then OUTCOME_INTERNAL_ERROR else Outcome(cs)
  {
    StreamIsBytes(cs, test);
    LifeCycle(cs, FORKED, test);
  }

  /** A test on which the two modes disagree: its one message ends with LF. */
  lemma ModesDisagree(test: Item)
    ensures var cs := Case(None, Script("", Asserts("f", 1, "x\n")), None);
            && Survives(cs) && PrintsNoZero(cs) && Printable(cs, test)
            && ErrorLines(ForkedDone(cs, test)) != ErrorLines(SingleDone(cs, test))
  {
    var cs := Case(None, Script("", Asserts("f", 1, "x\n")), None);
    OnePrinted(cs.body);
    assert EndsInLf(Location("f", 1) + "x\n") && MainMessage(cs) == Location("f", 1) + "x\n";
    PrintableIffRoom(cs, test);
    ForkAgreesWithSingle(cs, test);
  }

  /** Another one: it prints more than the parent has room for before it fails, and
      forking mode prints no error line at all. */
  lemma ModesDisagreeOnLength(test: Item)
    ensures var cs := Case(None, Script(seq(5000, _ => 'a'), Asserts("f", 1, "x")), None);
            && Survives(cs) && PrintsNoZero(cs) && Printable(cs, test) && !SomeMessageEndsInLf(cs)
            && ErrorLines(ForkedDone(cs, test)) == [] != ErrorLines(SingleDone(cs, test))
  {
    var cs := Case(None, Script(seq(5000, _ => 'a'), Asserts("f", 1, "x")), None);
    OnePrinted(cs.body);
    var m := Location("f", 1) + "x";
    assert m[|m| - 1] == 'x' && MainMessage(cs) == m;
    PrintableIffRoom(cs, test);
    ForkAgreesWithSingle(cs, test);
    OutputArrives(cs, test);
    assert Lines("") == [];
  }

  /** And another one: a passing test that writes more than the pipe holds is aborted in
      forking mode, though its messages agree and its output can be reported. */
  lemma ModesDisagreeOnPipe(test: Item, n: nat)
    requires n > PIPE_CAPACITY
    ensures var cs := Case(None, Script(seq(n, _ => 'a'), Passes), None);
            && Survives(cs) && PrintsNoZero(cs) && Printable(cs, test) && MessagesAgree(cs)
            && ForkedDone(cs, test).outcome == 2 && SingleDone(cs, test).outcome == 0
  {
    var cs := Case(None, Script(seq(n, _ => 'a'), Passes), None);
    OnePrinted(cs.body);
    PrintableIffRoom(cs, test);
    OutcomeDecides(cs, test);
  }

  /** The outcome that the parent gives to a test: 2 if the pipe cannot hold what the test
      writes; otherwise 1 if something asserted and nothing ended the process, and for a
      process that was ended 2 if a signal did it and 0 or 1 as its exit status is 0 or
      not, of which eight bits arrive. */
  ghost predicate IsOutcome(cs: Case, outcome: int) {
    var end := if BodyEnd(cs).Terminates? then BodyEnd(cs) else TeardownEnd(cs);
    outcome ==
      if Outgrows(cs) then 2
      else if end.Terminates? then
        match end.status
        case Signaled(_) => 2
        case Exited(code) => if code % 256 == 0 then 0 else 1
        case Other(raw) => raw
      else if BodyEnd(cs).Asserts? || TeardownEnd(cs).Asserts? then 1
      else 0
  }

  lemma OutcomeOfControl(cs: Case, control: Control)
    requires control == if Survives(cs) then (if Outcome(cs) == OUTCOME_PASS then Returned else Leave(FORKED))
                        else Ended(if BodyEnd(cs).Terminates? then BodyEnd(cs).status else TeardownEnd(cs).status)
    ensures IsOutcome(cs, ConvertWaitStatus(if Outgrows(cs) then Signaled(SIGKILL) else FinalStatus(control))) == true
  {
  }

  lemma ForkedOutcome(cs: Case, test: Item)
    ensures IsOutcome(cs, ForkOutcome(cs, test)) == true
  {
    StreamIsBytes(cs, test);
    LifeCycle(cs, FORKED, test);
    OutcomeOfControl(cs, TestEffect(cs, FORKED, test).control);
  }

  /** A test process that dies is reported as aborted if a signal killed it, which is the
      alarm's if it wrote more than the pipe holds before, and by its exit status otherwise;
      the messages that it wrote arrive in full if and only if the plain text before the
      last one has room. */
  lemma DeathIsReported(cs: Case, test: Item)
    requires !Survives(cs)
    ensures var st := if BodyEnd(cs).Terminates? then BodyEnd(cs).status else TeardownEnd(cs).status;
            var outcome := ForkedDone(cs, test).outcome;
            if Outgrows(cs) then outcome == 2
            else
              && (st.Signaled? ==> outcome == 2)
              && (st.Exited? ==> outcome == if st.code % 256 == 0 then 0 else 1)
              && (st.Other? ==> outcome == st.raw)
    ensures PrintsNoZero(cs) ==>
      (ForkedDone(cs, test).error == Arriving(cs) <==> PlainBeforeLast(PiecesOf(cs)) <= BUFFER_SIZE)
  {
    ForkedOutcome(cs, test);
    if PrintsNoZero(cs) {
      LastWords(cs, test);
    }
  }

  lemma LastWords(cs: Case, test: Item)
    requires PrintsNoZero(cs)
    ensures ForkedDone(cs, test).error == Arriving(cs) <==> PlainBeforeLast(PiecesOf(cs)) <= BUFFER_SIZE
  {
    OutputArrives(cs, test);
    MessagesStored(cs);
  }

  /** Left alone, the process of a test ends with a status that the parent takes for a
      success if and only if nothing asserted and nothing ended it otherwise. */
  predicate EndsWell(cs: Case) {
    if BodyEnd(cs).Terminates? then LooksPassed(BodyEnd(cs).status)
    else if TeardownEnd(cs).Terminates? then LooksPassed(TeardownEnd(cs).status)
    else !BodyEnd(cs).Asserts? && !TeardownEnd(cs).Asserts?
  }

  lemma FinalStatusPasses(cs: Case, control: Control)
    requires control == if Survives(cs) then (if Outcome(cs) == OUTCOME_PASS then Returned else Leave(FORKED))
                        else Ended(if BodyEnd(cs).Terminates? then BodyEnd(cs).status else TeardownEnd(cs).status)
    ensures ConvertWaitStatus(FinalStatus(control)) == OUTCOME_PASS <==> EndsWell(cs)
  {
  }

  /** The outcome in forking mode: PASS if and only if the pipe holds all that the test
      writes, and nothing asserted and nothing ended the process, or the process was ended
      with a status whose low byte is zero. */
  lemma ForkOutcomePasses(cs: Case, test: Item)
    ensures ForkOutcome(cs, test) == OUTCOME_PASS <==> !Outgrows(cs) && EndsWell(cs)
  {
    StreamIsBytes(cs, test);
    LifeCycle(cs, FORKED, test);
    FinalStatusPasses(cs, TestEffect(cs, FORKED, test).control);
  }

  /** A status that the parent takes for a success. */
  predicate LooksPassed(status: WaitStatus) {
    match status
    case Exited(code) => code % 256 == 0
    case Signaled(_) => false
    case Other(raw) => raw == OUTCOME_PASS
  }

  // ------------------------------------------------------- running one test

  /** The process that runs the scheduler, with its buffers for captured output. */
  class Parent {
    const runner: Runner
    const extraOutput: array<char>
    const stdioBuffer: array<char>
    const errorBuffer: array<char>

    ghost predicate Valid() {
      && extraOutput.Length == OUTPUT_BUFFER_SIZE
      && stdioBuffer.Length == BUFFER_SIZE && errorBuffer.Length == BUFFER_SIZE
      && extraOutput != stdioBuffer && extraOutput != errorBuffer && stdioBuffer != errorBuffer
    }

    constructor (runner: Runner)
      ensures Valid() && this.runner == runner
      ensures fresh(extraOutput) && fresh(stdioBuffer) && fresh(errorBuffer)
    {
      this.runner := runner;
      extraOutput := new char[OUTPUT_BUFFER_SIZE];
      stdioBuffer := new char[BUFFER_SIZE];
      errorBuffer := new char[BUFFER_SIZE];
    }

    /** Fork: a copy of this process runs the test and ends, if nobody stops it. */
    method Fork(test: Item, ghost s: seq<Item>, ghost k: nat, ghost cs: Case) returns (written: string, status: WaitStatus)
      requires runner.Ready() && DoublyLinked(s) && k < |s| && s[k] == test && cs == runner.CaseAt(s, k)
      ensures written == ChildOutput(cs, test)
      ensures status == FinalStatus(TestEffect(cs, FORKED, test).control)
    {
      var child := new Runner.Fork(runner);
      var c, rc := child.RunTestForked(test, s, k, cs);
      ForkedNeverJumps(cs, test);
      assert child.frames == TestEffect(cs, FORKED, test).frames;
      written := child.stdout;
      status := if c.Ended? then c.status else Exited(rc);
    }

    /** The process of a test writes to a pipe. If the pipe cannot hold what it writes, it
        is killed with the pipe full, up to a last write. */
    method RunChild(test: Item, ghost s: seq<Item>, ghost k: nat, ghost cs: Case) returns (output: string, status: WaitStatus)
      requires runner.Ready() && DoublyLinked(s) && k < |s| && s[k] == test && cs == runner.CaseAt(s, k)
      ensures Captured(output) == Captured(ChildOutput(cs, test)) && |output| <= PIPE_CAPACITY
      ensures status == ForkStatus(cs, test)
    {
      output, status := Fork(test, s, k, cs);
      if |output| > PIPE_CAPACITY {
        var held :| OUTPUT_BUFFER_SIZE <= held <= PIPE_CAPACITY;
        HeldIsCaptured(output, held);
        output, status := output[..held], Signaled(SIGKILL);
      }
    }

    /** Read the output of the test from the pipe into the zeroed buffer. */
    method Capture(output: string)
      requires Valid() && Holds(extraOutput, "")
      modifies extraOutput
      ensures extraOutput[..] == Captured(output)
    {
      var pipe := new Pipe(output);
      var size := ReadAll(pipe, extraOutput, OUTPUT_BUFFER_SIZE - 1);
    }

    /** Split the captured output and report the test as done. */
    method ReportUnparsed(test: Item, outcome: int, ghost p: Parsed)
      requires Valid() && runner.report.Valid()
      requires p == ParseOutput(extraOutput[..], BUFFER_SIZE, BUFFER_SIZE)
      requires |p.out.stdio| < BUFFER_SIZE && |p.out.errors| < BUFFER_SIZE
      modifies runner.report, stdioBuffer, errorBuffer
      ensures runner.report.Valid()
      ensures runner.report.trace == old(runner.report.trace) + [Event.TestDone(test, outcome, p.out.errors, "", p.out.stdio)]
    {
      ghost var full := extraOutput[..];
      if NulLast(full) {
        FeedNulFree(full, Cut(full), BUFFER_SIZE, BUFFER_SIZE);
      }
      var stop := ParseCommandOutput(extraOutput, stdioBuffer, errorBuffer);
      HeldText(stdioBuffer, p.out.stdio);
      HeldText(errorBuffer, p.out.errors);
      runner.report.TestDone(test, outcome, errorBuffer, null, stdioBuffer);
    }

    /** Announce the test and clear the buffer for its output. */
    method BeforeTestStart(test: Item)
      requires runner.report.Valid()
      modifies runner.report, extraOutput
      ensures runner.report.Valid() && Holds(extraOutput, "")
      ensures runner.report.trace == old(runner.report.trace) + [Event.TestStart(test)]
    {
      runner.report.TestStart(test);
      Clear(extraOutput);
    }

    /** Run the test in a process of its own and report the result. */
    method RunAndReport(test: Item, ghost s: seq<Item>, ghost k: nat, ghost cs: Case) returns (outcome: int)
      requires Valid() && runner.Ready() && DoublyLinked(s) && k < |s| && s[k] == test && cs == runner.CaseAt(s, k)
      requires Holds(extraOutput, "") && Printable(cs, test)
      modifies runner.report, extraOutput, stdioBuffer, errorBuffer
      ensures runner.report.Valid() && outcome == ForkOutcome(cs, test)
      ensures runner.report.trace == old(runner.report.trace) + [ForkedDone(cs, test)]
    {
      var output, status := RunChild(test, s, k, cs);
      outcome := ConvertWaitStatus(status);
      CaptureAndReport(test, output, outcome, ParsedOutput(cs, test));
    }

    /** Run the test in a forked environment, from its announcement to its report. */
    method RunTestForking(test: Item, ghost s: seq<Item>, ghost k: nat, ghost cs: Case) returns (outcome: int)
      requires Valid() && runner.Ready() && DoublyLinked(s) && k < |s| && s[k] == test && cs == runner.CaseAt(s, k)
      requires Printable(cs, test)
      modifies runner.report, extraOutput, stdioBuffer, errorBuffer
      ensures runner.Ready() && outcome == ForkOutcome(cs, test) && IsOutcome(cs, outcome) == true
      ensures runner.report.trace == old(runner.report.trace) + ([Event.TestStart(test)] + [ForkedDone(cs, test)])
    {
      ghost var done := ForkedDone(cs, test);
      BeforeTestStart(test);
      outcome := RunAndReport(test, s, k, cs);
      ForkedOutcome(cs, test);
      Associated(old(runner.report.trace), [Event.TestStart(test)], [done]);
    }

    /** Read the output of the test and report it. */
    method CaptureAndReport(test: Item, output: string, outcome: int, ghost p: Parsed)
      requires Valid() && runner.report.Valid() && Holds(extraOutput, "")
      requires p == ParseOutput(Captured(output), BUFFER_SIZE, BUFFER_SIZE)
      requires |p.out.stdio| < BUFFER_SIZE && |p.out.errors| < BUFFER_SIZE
      modifies runner.report, extraOutput, stdioBuffer, errorBuffer
      ensures runner.report.Valid()
      ensures runner.report.trace == old(runner.report.trace) + [Event.TestDone(test, outcome, p.out.errors, "", p.out.stdio)]
    {
      Capture(output);
      ReportUnparsed(test, outcome, p);
    }
  }

  /** In forking mode every way out of a test is an exit. */
  lemma ForkedNeverJumps(cs: Case, test: Item)
    ensures TestEffect(cs, FORKED, test).control != Jumped
  {
    LifeCycle(cs, FORKED, test);
  }

  lemma HeldText(buffer: array<char>, text: string)
    requires Holds(buffer, text) && NulFree(text) && |text| < buffer.Length
    ensures Terminated(buffer, 0) && TextOf(buffer) == text
  {
    assert buffer[|text|] == NUL;
    assert buffer[..|text|] == text;
    TextRead(buffer, text);
  }
}
