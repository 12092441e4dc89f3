/** The channel from a test process to its parent: failure messages framed with
    zero bytes inside ordinary output, and the decoder (src/report/report.c). */
module Channel {
  import opened Text

  function Nuls(n: nat): (s: string)
    ensures |s| == n && forall i :: 0 <= i < n ==> s[i] == NUL
  {
    seq(n, _ => NUL)
  }

  // -------------------------------------------------------------- the framing

  /** What a test process writes: plain output, or a failure message. */
  datatype Frame = Out(text: string) | Fail(message: string)

  /** The bytes of one frame; an empty message is not printed at all. */
  function Encode(f: Frame): string {
    match f
    case Out(text) => text
    case Fail(message) => if message == "" then "" else [NUL, NUL, NUL] + message + [LF, NUL]
  }

  function EncodeAll(fs: seq<Frame>): string {
    if fs == [] then "" else Encode(fs[0]) + EncodeAll(fs[1..])
  }

  lemma {:induction false} EncodeConcat(a: seq<Frame>, b: seq<Frame>)
    ensures EncodeAll(a + b) == EncodeAll(a) + EncodeAll(b)
  {
    if a == [] {
      assert a + b == b;
    } else {
      assert (a + b)[1..] == a[1..] + b;
      EncodeConcat(a[1..], b);
    }
  }

  lemma EncodeSnoc(fs: seq<Frame>, f: Frame)
    ensures EncodeAll(fs + [f]) == EncodeAll(fs) + Encode(f)
  {
    EncodeConcat(fs, [f]);
    assert [f][1..] == [];
  }

  datatype Pair = Pair(stdio: string, errors: string) {
    function Add(c: char, sink: Sink): Pair {
      if sink == ToStdio then Pair([c] + stdio, errors) else Pair(stdio, [c] + errors)
    }
  }

  /** What one frame contributes to the two outputs. */
  function Part(f: Frame): Pair {
    match f
    case Out(text) => Pair(text, "")
    case Fail(m) => Pair("", if m == "" then "" else m + [LF])
  }

  /** All plain output of the frames. */
  function OutOf(fs: seq<Frame>): string {
    if fs == [] then "" else Part(fs[0]).stdio + OutOf(fs[1..])
  }

  /** All messages of the frames, each ended by LF. */
  function ErrorsOf(fs: seq<Frame>): string {
    if fs == [] then "" else Part(fs[0]).errors + ErrorsOf(fs[1..])
  }

  lemma {:induction false} OutOfConcat(a: seq<Frame>, b: seq<Frame>)
    ensures OutOf(a + b) == OutOf(a) + OutOf(b)
  {
    if a == [] {
      assert a + b == b;
    } else {
      assert (a + b)[1..] == a[1..] + b;
      OutOfConcat(a[1..], b);
    }
  }

  lemma {:induction false} ErrorsOfConcat(a: seq<Frame>, b: seq<Frame>)
    ensures ErrorsOf(a + b) == ErrorsOf(a) + ErrorsOf(b)
  {
    if a == [] {
      assert a + b == b;
    } else {
      assert (a + b)[1..] == a[1..] + b;
      ErrorsOfConcat(a[1..], b);
    }
  }

  lemma OneFrame(f: Frame)
    ensures EncodeAll([f]) == Encode(f) && OutOf([f]) == Part(f).stdio && ErrorsOf([f]) == Part(f).errors
  {
    assert [f][1..] == [];
  }

  predicate ZeroFree(fs: seq<Frame>) {
    forall i :: 0 <= i < |fs| ==> match fs[i] case Out(text) => NulFree(text) case Fail(m) => NulFree(m)
  }

  // ----------------------------------------- decoding, one byte after another

  datatype Sink = ToStdio | ToErrors

  /** Where a byte goes that follows `zeros` zero bytes: three of them open a message. */
  function Route(zeros: nat, sink: Sink): Sink {
    if zeros == 0 then sink else if zeros < 3 then ToStdio else ToErrors
  }

  /** The reference decoder: every non-zero byte goes to the sink that the zero
      bytes before its text select. `zeros` of them were seen just before `s`. */
  function Decode(s: string, zeros: nat, sink: Sink): Pair {
    if s == "" then Pair("", "")
    else if s[0] == NUL then Decode(s[1..], zeros + 1, sink)
    else Decode(s[1..], 0, Route(zeros, sink)).Add(s[0], Route(zeros, sink))
  }

  /** The non-zero bytes, in order. */
  function NonZeros(s: string): string {
    if s == "" then "" else (if s[0] == NUL then "" else [s[0]]) + NonZeros(s[1..])
  }

  /** The bytes that `r` sends to `sink`, in order. */
  function Selected(bytes: string, r: seq<Sink>, sink: Sink): string
    requires |bytes| == |r|
  {
    if bytes == "" then "" else (if r[0] == sink then [bytes[0]] else "") + Selected(bytes[1..], r[1..], sink)
  }

  /** `r` sends every non-zero byte of `s` to one of the two outputs, and these are all
      bytes that it sends there, in order. */
  ghost predicate SplitsInto(s: string, r: seq<Sink>, p: Pair) {
    && |r| == |NonZeros(s)|
    && p.stdio == Selected(NonZeros(s), r, ToStdio) && p.errors == Selected(NonZeros(s), r, ToErrors)
  }

  lemma SplitsCons(c: char, s: string, sink: Sink, r: seq<Sink>, p: Pair)
    requires c != NUL && SplitsInto(s, r, p)
    ensures SplitsInto([c] + s, [sink] + r, p.Add(c, sink))
  {
    assert ([c] + s)[1..] == s && ([sink] + r)[1..] == r;
    assert ([c] + NonZeros(s))[1..] == NonZeros(s);
  }

  /** Decoder conservation: every non-zero byte goes to exactly one output, and each
      output has its bytes in the order of the input; nothing is lost or invented. */
  lemma {:induction false} DecodeConserves(s: string, zeros: nat, sink: Sink) returns (r: seq<Sink>)
    ensures SplitsInto(s, r, Decode(s, zeros, sink))
    ensures NulFree(Decode(s, zeros, sink).stdio) && NulFree(Decode(s, zeros, sink).errors)
  {
    if s == "" {
      r := [];
    } else if s[0] == NUL {
      r := DecodeConserves(s[1..], zeros + 1, sink);
      assert "" + NonZeros(s[1..]) == NonZeros(s[1..]);
    } else {
      r := DecodeConserves(s[1..], 0, Route(zeros, sink));
      SplitsCons(s[0], s[1..], Route(zeros, sink), r, Decode(s[1..], 0, Route(zeros, sink)));
      assert s == [s[0]] + s[1..];
      r := [Route(zeros, sink)] + r;
    }
  }

  function Plus(p: Pair, q: Pair): Pair {
    Pair(p.stdio + q.stdio, p.errors + q.errors)
  }

  lemma PlusAssociative(a: Pair, b: Pair, c: Pair)
    ensures Plus(Plus(a, b), c) == Plus(a, Plus(b, c))
  {
    assert (a.stdio + b.stdio) + c.stdio == a.stdio + (b.stdio + c.stdio);
    assert (a.errors + b.errors) + c.errors == a.errors + (b.errors + c.errors);
  }

  lemma PlusNothing(out: Pair)
    ensures Plus(out, Pair("", "")) == out == Plus(Pair("", ""), out)
  {
  }

  function ToSink(text: string, sink: Sink): Pair {
    if sink == ToStdio then Pair(text, "") else Pair("", text)
  }

  /** A text is decoded as a whole. */
  lemma {:induction false} DecodeText(text: string, rest: string, zeros: nat, sink: Sink)
    requires NulFree(text) && text != ""
    ensures Decode(text + rest, zeros, sink)
         == Plus(ToSink(text, Route(zeros, sink)), Decode(rest, 0, Route(zeros, sink)))
  {
    assert (text + rest)[1..] == text[1..] + rest;
    if |text| == 1 {
      assert text[1..] + rest == rest;
      assert text == [text[0]];
    } else {
      DecodeText(text[1..], rest, 0, Route(zeros, sink));
      assert text == [text[0]] + text[1..];
      assert forall t: string :: [text[0]] + (text[1..] + t) == text + t;
    }
  }

  lemma {:induction false} DecodeZeros(n: nat, rest: string, zeros: nat, sink: Sink)
    ensures Decode(Nuls(n) + rest, zeros, sink) == Decode(rest, zeros + n, sink)
  {
    if n == 0 {
      assert Nuls(0) + rest == rest;
    } else {
      assert (Nuls(n) + rest)[1..] == Nuls(n - 1) + rest;
      DecodeZeros(n - 1, rest, zeros + 1, sink);
    }
  }

  /** Where the next text goes after `zeros` is decided by the zeros alone. */
  lemma {:induction false} SinkForgotten(s: string, zeros: nat, k1: Sink, k2: Sink)
    requires zeros > 0
    ensures Decode(s, zeros, k1) == Decode(s, zeros, k2)
  {
    if s != "" && s[0] == NUL {
      SinkForgotten(s[1..], zeros + 1, k1, k2);
    }
  }

  /** The zero bytes right before `i`; one more is taken to stand before the input. */
  function ZerosBefore(s: string, i: nat): nat
    requires i <= |s|
  {
    if i == 0 then 1 else if s[i - 1] == NUL then ZerosBefore(s, i - 1) + 1 else 0
  }

  /** The output that the byte at `i` belongs to: its text is a message if and only if
      three zero bytes or more stand before that text. */
  function SinkOf(s: string, i: nat): Sink
    requires i < |s|
  {
    if i > 0 && s[i - 1] != NUL then SinkOf(s, i - 1)
    else if ZerosBefore(s, i) < 3 then ToStdio else ToErrors
  }

  /** The bytes of one output among the first `n` bytes of the input, in order. */
  function Picked(s: string, n: nat, sink: Sink): string
    requires n <= |s|
  {
    if n == 0 then "" else Picked(s, n - 1, sink) + if s[n - 1] != NUL && SinkOf(s, n - 1) == sink then [s[n - 1]] else ""
  }

  /** The output of the text that goes on at `n`, if there is one. */
  function OpenSink(s: string, n: nat): Sink
    requires n <= |s|
  {
    if n > 0 && s[n - 1] != NUL then SinkOf(s, n - 1) else ToStdio
  }

  lemma DecodeStep(s: string, n: nat)
    requires n < |s|
    ensures Decode(s[n..], ZerosBefore(s, n), OpenSink(s, n))
         == Plus(if s[n] == NUL then Pair("", "") else ToSink([s[n]], SinkOf(s, n)),
                 Decode(s[n + 1..], ZerosBefore(s, n + 1), OpenSink(s, n + 1)))
  {
    assert s[n..][1..] == s[n + 1..];
    var zeros, sink := ZerosBefore(s, n), OpenSink(s, n);
    if s[n] == NUL {
      SinkForgotten(s[n + 1..], zeros + 1, sink, ToStdio);
      PlusNothing(Decode(s[n + 1..], zeros + 1, ToStdio));
    } else {
      assert Route(zeros, sink) == SinkOf(s, n);
    }
  }

  /** Both outputs of the bytes before `n`. */
  function PickedPair(s: string, n: nat): Pair
    requires n <= |s|
  {
    Pair(Picked(s, n, ToStdio), Picked(s, n, ToErrors))
  }

  lemma PickedNext(s: string, n: nat)
    requires n < |s|
    ensures PickedPair(s, n + 1)
         == Plus(PickedPair(s, n), if s[n] == NUL then Pair("", "") else ToSink([s[n]], SinkOf(s, n)))
  {
  }

  /** What is decoded before `n`, and what is left. */
  lemma {:induction false} DecodeUpTo(s: string, n: nat)
    requires n <= |s|
    ensures Decode(s, 1, ToStdio) == Plus(PickedPair(s, n), Decode(s[n..], ZerosBefore(s, n), OpenSink(s, n)))
  {
    if n == 0 {
      assert s[0..] == s;
      PlusNothing(Decode(s, 1, ToStdio));
    } else {
      var one := if s[n - 1] == NUL then Pair("", "") else ToSink([s[n - 1]], SinkOf(s, n - 1));
      DecodeUpTo(s, n - 1);
      DecodeStep(s, n - 1);
      PickedNext(s, n - 1);
      PlusAssociative(PickedPair(s, n - 1), one, Decode(s[n..], ZerosBefore(s, n), OpenSink(s, n)));
    }
  }

  /** The reference decoder without recursion over its state: both outputs, byte by
      byte, from the zeros before each text. */
  lemma DecodeIsPicked(s: string)
    ensures Decode(s, 1, ToStdio) == Pair(Picked(s, |s|, ToStdio), Picked(s, |s|, ToErrors))
  {
    DecodeUpTo(s, |s|);
    PlusNothing(PickedPair(s, |s|));
  }

  /** Between two frames plain text would go to the standard output. */
  predicate BetweenFrames(zeros: nat, sink: Sink) {
    zeros <= 1 && (zeros == 0 ==> sink == ToStdio)
  }

  /** The zeros and the sink after one frame. */
  function StateAfter(f: Frame, zeros: nat, sink: Sink): (nat, Sink) {
    match f
    case Out(text) => if text == "" then (zeros, sink) else (0, ToStdio)
    case Fail(m) => if m == "" then (zeros, sink) else (1, ToErrors)
  }

  lemma EmptyDecoded(f: Frame, rest: string, zeros: nat, sink: Sink)
    requires Encode(f) == ""
    ensures Decode(Encode(f) + rest, zeros, sink) == Plus(Pair("", ""), Decode(rest, zeros, sink))
  {
    assert Encode(f) + rest == rest;
    PlusNothing(Decode(rest, zeros, sink));
  }

  lemma OutDecoded(text: string, rest: string, zeros: nat, sink: Sink)
    requires NulFree(text) && text != "" && BetweenFrames(zeros, sink)
    ensures Decode(Encode(Out(text)) + rest, zeros, sink) == Plus(Pair(text, ""), Decode(rest, 0, ToStdio))
  {
    DecodeText(text, rest, zeros, sink);
  }

  lemma FrameDecoded(f: Frame, rest: string, zeros: nat, sink: Sink)
    requires ZeroFree([f]) && BetweenFrames(zeros, sink)
    ensures var next := StateAfter(f, zeros, sink);
            BetweenFrames(next.0, next.1) && Decode(Encode(f) + rest, zeros, sink) == Plus(Part(f), Decode(rest, next.0, next.1))
  {
    assert [f][0] == f;
    match f
    case Out(text) =>
      if text == "" {
        EmptyDecoded(f, rest, zeros, sink);
      } else {
        OutDecoded(text, rest, zeros, sink);
      }
    case Fail(m) =>
      if m == "" {
        EmptyDecoded(f, rest, zeros, sink);
      } else {
        FailDecoded(m, rest, zeros, sink);
      }
  }

  /** Framing round trip: decoding what was encoded gives back the plain output and
      the messages, whatever way they are interleaved. */
  lemma {:induction false} DecodeOfEncode(fs: seq<Frame>, pad: nat, zeros: nat, sink: Sink)
    requires ZeroFree(fs) && BetweenFrames(zeros, sink)
    ensures Decode(EncodeAll(fs) + Nuls(pad), zeros, sink) == Pair(OutOf(fs), ErrorsOf(fs))
    decreases |fs|
  {
    var zs := Nuls(pad);
    if fs == [] {
      assert "" + zs == zs + "";
      DecodeZeros(pad, "", zeros, sink);
    } else {
      var rest := EncodeAll(fs[1..]) + zs;
      var next := StateAfter(fs[0], zeros, sink);
      assert EncodeAll(fs) + zs == Encode(fs[0]) + rest;
      FrameDecoded(fs[0], rest, zeros, sink);
      DecodeOfEncode(fs[1..], pad, next.0, next.1);
    }
  }

  lemma FailDecoded(m: string, rest: string, zeros: nat, sink: Sink)
    requires NulFree(m) && m != ""
    ensures Decode(Encode(Fail(m)) + rest, zeros, sink) == Plus(Pair("", m + [LF]), Decode(rest, 1, ToErrors))
  {
    var tail := [NUL] + rest;
    assert Encode(Fail(m)) + rest == Nuls(3) + ((m + [LF]) + tail);
    DecodeZeros(3, (m + [LF]) + tail, zeros, sink);
    DecodeText(m + [LF], tail, zeros + 3, sink);
    assert tail[1..] == rest;
  }

  // -------------------------------------- decoding, one text after another

  /** How the parser stops: at the end of its input, at the first text that does
      not fit its buffer, by reading a byte behind its input, or at once because the
      input does not end with a zero byte. */
  datatype Stop = Complete | Overflow | PastEnd | Unterminated

  datatype Parsed = Parsed(out: Pair, stop: Stop) {
    function Add(text: string, sink: Sink): Parsed {
      Parsed(Plus(ToSink(text, sink), out), stop)
    }
  }

  /** `s` starts with exactly `z` zero bytes. */
  ghost predicate IsZeros(s: string, z: nat) {
    z <= |s| && (z < |s| ==> s[z] != NUL) && forall i :: 0 <= i < z ==> s[i] == NUL
  }

  lemma {:induction false} ZerosExist(s: string)
    ensures exists z: nat :: IsZeros(s, z)
  {
    if s == "" || s[0] != NUL {
      assert IsZeros(s, 0);
    } else {
      ZerosExist(s[1..]);
      var z: nat :| IsZeros(s[1..], z);
      assert forall i :: 0 < i < z + 1 ==> s[i] == s[1..][i - 1];
      assert IsZeros(s, z + 1);
    }
  }

  /** The number of zero bytes that `s` starts with. */
  ghost function Zeros(s: string): (z: nat)
    ensures IsZeros(s, z)
  {
    ZerosExist(s);
    var z: nat :| IsZeros(s, z);
    z
  }

  predicate NulLast(s: string) {
    s != "" && s[|s| - 1] == NUL
  }

  /** `s` is `z` zero bytes, a text, its terminator and a rest. */
  ghost predicate IsTurn(s: string, z: nat, text: string, rest: string) {
    && |s| == z + |text| + 1 + |rest| && text != "" && NulFree(text)
    && (forall i :: 0 <= i < z ==> s[i] == NUL)
    && text == s[z..z + |text|] && s[z + |text|] == NUL && rest == s[z + |text| + 1..]
  }

  /** The input of the parser, cut at its turns: the zero bytes before a text, and
      the text. */
  datatype Turns = End(stop: Stop) | More(zeros: nat, text: string, rest: Turns)

  /** `ts` are the turns of `s`, an input that ends with a zero byte. */
  ghost predicate IsCut(s: string, ts: Turns) {
    match ts
    case End(stop) =>
      if s == "" then stop == PastEnd
      else stop == Complete && forall i :: 0 <= i < |s| ==> s[i] == NUL
    case More(z, text, rest) =>
      var n := z + |text| + 1;
      n <= |s| && IsTurn(s, z, text, s[n..]) && IsCut(s[n..], rest)
  }

  /** Every input with a text starts with a turn. */
  lemma FindTurn(s: string) returns (z: nat, text: string, rest: string)
    requires NulLast(s) && Zeros(s) < |s|
    ensures IsTurn(s, z, text, rest) && |rest| < |s|
  {
    z := Zeros(s);
    var tail := s[z..];
    assert tail[|tail| - 1] == NUL;
    var k := IndexOf(tail, NUL);
    assert tail[..k] == s[z..z + k];
    text, rest := tail[..k], s[z + k + 1..];
  }

  lemma {:induction false} CutExists(s: string)
    requires s == "" || NulLast(s)
    ensures exists ts :: IsCut(s, ts)
    decreases |s|
  {
    if s == "" {
      assert IsCut(s, End(PastEnd));
    } else if Zeros(s) == |s| {
      assert IsCut(s, End(Complete));
    } else {
      var z, text, rest := FindTurn(s);
      CutExists(rest);
      var ts :| IsCut(rest, ts);
      assert IsCut(s, More(z, text, ts));
    }
  }

  lemma TurnHasByte(s: string, z: nat, text: string, rest: string)
    requires IsTurn(s, z, text, rest)
    ensures z < |s| && s[z] != NUL
  {
    assert s[z] == text[0];
  }

  lemma TurnUnique(s: string, z: nat, text: string, rest: string, z': nat, text': string, rest': string)
    requires IsTurn(s, z, text, rest) && IsTurn(s, z', text', rest')
    ensures z == z' && text == text' && rest == rest'
  {
    assert s[z] == text[0] && s[z'] == text'[0];
    assert z == z';
    assert forall i :: 0 <= i < |text| ==> s[z + i] == text[i];
    assert forall i :: 0 <= i < |text'| ==> s[z + i] == text'[i];
    assert |text| == |text'|;
  }

  /** Two cuts of an input agree on its first turn. */
  lemma FirstTurnUnique(s: string, ts: Turns, ts': Turns) returns (rest: string)
    requires IsCut(s, ts) && IsCut(s, ts') && ts.More?
    ensures ts'.More? && ts.zeros == ts'.zeros && ts.text == ts'.text
    ensures IsCut(rest, ts.rest) && IsCut(rest, ts'.rest)
  {
    var n := ts.zeros + |ts.text| + 1;
    TurnHasByte(s, ts.zeros, ts.text, s[n..]);
    var n' := ts'.zeros + |ts'.text| + 1;
    TurnUnique(s, ts.zeros, ts.text, s[n..], ts'.zeros, ts'.text, s[n'..]);
    rest := s[n..];
  }

  lemma {:induction false} CutUnique(s: string, ts: Turns, ts': Turns)
    requires IsCut(s, ts) && IsCut(s, ts')
    ensures ts == ts'
    decreases ts
  {
    if ts.More? {
      var rest := FirstTurnUnique(s, ts, ts');
      CutUnique(rest, ts.rest, ts'.rest);
    } else if ts'.More? {
      TurnHasByte(s, ts'.zeros, ts'.text, s[ts'.zeros + |ts'.text| + 1..]);
    }
  }

  ghost function Cut(s: string): (ts: Turns)
    requires s == "" || NulLast(s)
    ensures IsCut(s, ts)
  {
    CutExists(s);
    var ts :| IsCut(s, ts);
    ts
  }

  /** The first turn of an input. */
  lemma CutView(s: string) returns (z: nat, text: string, rest: string)
    requires NulLast(s) && Cut(s).More?
    ensures IsTurn(s, z, text, rest) && |rest| < |s| && (rest == "" || NulLast(rest))
    ensures Cut(s) == More(z, text, Cut(rest))
  {
    var ts := Cut(s);
    z, text, rest := ts.zeros, ts.text, s[ts.zeros + |ts.text| + 1..];
    CutUnique(rest, ts.rest, Cut(rest));
  }

  lemma CutTurn(s: string, z: nat, text: string, rest: string)
    requires IsTurn(s, z, text, rest) && NulLast(s)
    ensures rest == "" || NulLast(rest)
    ensures Cut(s) == More(z, text, Cut(rest))
  {
    CutUnique(s, Cut(s), More(z, text, Cut(rest)));
  }

  /** What the parser does with its turns, with the given room in the two buffers:
      a text behind two or more counted zero bytes is a message. */
  function Feed(ts: Turns, ioRoom: nat, errorRoom: nat): Parsed {
    match ts
    case End(stop) => Parsed(Pair("", ""), stop)
    case More(zeros, text, rest) =>
      if zeros < 2 then
        if |text| > ioRoom then Parsed(Pair("", ""), Overflow)
        else Feed(rest, ioRoom - |text|, errorRoom).Add(text, ToStdio)
      else
        if |text| > errorRoom then Parsed(Pair("", ""), Overflow)
        else Feed(rest, ioRoom, errorRoom - |text|).Add(text, ToErrors)
  }

  /** One turn of the parser, in terms of the reference decoder. */
  lemma TurnDecoded(z: nat, text: string, rest: string)
    requires text != "" && NulFree(text)
    ensures Decode(Nuls(z) + (text + ([NUL] + rest)), 1, ToStdio)
         == Plus(ToSink(text, if z < 2 then ToStdio else ToErrors), Decode(rest, 1, ToStdio))
  {
    var tail := [NUL] + rest;
    DecodeZeros(z, text + tail, 1, ToStdio);
    DecodeText(text, tail, 1 + z, ToStdio);
    assert tail[1..] == rest;
    SinkForgotten(rest, 1, Route(1 + z, ToStdio), ToStdio);
  }

  /** A text ends right before the last byte, so its terminator is the last byte. */
  predicate EndsOpen(s: string) {
    |s| >= 2 && s[|s| - 2] != NUL
  }

  lemma OnlyZeros(s: string)
    requires s != "" && forall i :: 0 <= i < |s| ==> s[i] == NUL
    ensures !EndsOpen(s) && Decode(s, 1, ToStdio) == Pair("", "")
  {
    assert s == Nuls(|s|) + "";
    DecodeZeros(|s|, "", 1, ToStdio);
  }

  lemma TurnStep(s: string, z: nat, text: string, rest: string)
    requires IsTurn(s, z, text, rest)
    ensures Decode(s, 1, ToStdio)
         == Plus(ToSink(text, if z < 2 then ToStdio else ToErrors), Decode(rest, 1, ToStdio))
  {
    assert s[z..] == text + ([NUL] + rest);
    assert s[..z] == Nuls(z);
    assert s == Nuls(z) + (text + ([NUL] + rest)) by { assert s == s[..z] + s[z..]; }
    TurnDecoded(z, text, rest);
  }

  lemma TurnEnd(s: string, z: nat, text: string, rest: string)
    requires IsTurn(s, z, text, rest)
    ensures EndsOpen(s) <==> rest == "" || EndsOpen(rest)
  {
    assert s[z + |text| - 1] == text[|text| - 1];
  }

  /** The parser is exact: it stops at an overflow if and only if the reference
      outputs exceed the buffers; if they fit, its outputs are the reference outputs,
      and it reads behind its input if and only if a text ends right at the last byte. */
  lemma {:induction false} FeedIsDecode(s: string, ioRoom: nat, errorRoom: nat)
    requires NulLast(s)
    ensures var p := Feed(Cut(s), ioRoom, errorRoom); var d := Decode(s, 1, ToStdio);
            && (p.stop == Overflow <==> |d.stdio| > ioRoom || |d.errors| > errorRoom)
            && (p.stop != Overflow ==> p.out == d && p.stop == if EndsOpen(s) then PastEnd else Complete)
    decreases |s|
  {
    if Cut(s).End? {
      OnlyZeros(s);
    } else {
      var z, text, rest := CutView(s);
      TurnStep(s, z, text, rest);
      TurnEnd(s, z, text, rest);
      if rest != "" {
        if z < 2 && |text| <= ioRoom {
          FeedIsDecode(rest, ioRoom - |text|, errorRoom);
        } else if z >= 2 && |text| <= errorRoom {
          FeedIsDecode(rest, ioRoom, errorRoom - |text|);
        }
      }
    }
  }

  /** The whole of parse_command_output. */
  ghost function ParseOutput(s: string, ioRoom: nat, errorRoom: nat): Parsed {
    if NulLast(s) then Feed(Cut(s), ioRoom, errorRoom) else Parsed(Pair("", ""), Unterminated)
  }

  /** `out` is what the input before `k` decodes to, and from `k` on the parser has
      no room for the text that comes next. */
  ghost predicate StopsAt(s: string, k: nat, out: Pair, ioRoom: nat, errorRoom: nat) {
    && k < |s| && NulLast(s[k..]) && out == Decode(s[..k], 1, ToStdio)
    && |out.stdio| <= ioRoom && |out.errors| <= errorRoom
    && Feed(Cut(s[k..]), ioRoom - |out.stdio|, errorRoom - |out.errors|) == Parsed(Pair("", ""), Overflow)
  }

  /** On an overflow the outputs are those of the input before the text that does
      not fit, in full. */
  lemma {:induction false} OverflowPoint(s: string, ioRoom: nat, errorRoom: nat) returns (k: nat, out: Pair)
    requires NulLast(s) && Feed(Cut(s), ioRoom, errorRoom).stop == Overflow
    ensures out == Feed(Cut(s), ioRoom, errorRoom).out
    ensures StopsAt(s, k, out, ioRoom, errorRoom) == true
    decreases |s|, 1
  {
    var z, text, rest := CutView(s);
    if |text| > if z < 2 then ioRoom else errorRoom {
      StopsHere(s, z, text, rest, ioRoom, errorRoom);
      return 0, Pair("", "");
    }
    k, out := OverflowLater(s, z, text, rest, ioRoom, errorRoom);
  }

  /** The first text has room. */
  lemma {:induction false} OverflowLater(s: string, z: nat, text: string, rest: string, ioRoom: nat, errorRoom: nat)
    returns (k: nat, out: Pair)
    requires NulLast(s) && Feed(Cut(s), ioRoom, errorRoom).stop == Overflow && (rest == "" || NulLast(rest))
    requires IsTurn(s, z, text, rest) && Cut(s) == More(z, text, Cut(rest))
    requires |text| <= if z < 2 then ioRoom else errorRoom
    ensures out == Feed(Cut(s), ioRoom, errorRoom).out
    ensures StopsAt(s, k, out, ioRoom, errorRoom) == true
    decreases |s|, 0
  {
    var first := ToSink(text, if z < 2 then ToStdio else ToErrors);
    var p := FeedAgain(s, z, text, rest, first, ioRoom, errorRoom);
    var at, later := OverflowPoint(rest, ioRoom - |first.stdio|, errorRoom - |first.errors|);
    assert later == p.out;
    StopsLater(s, z, text, rest, at, later, ioRoom, errorRoom);
    k, out := z + |text| + 1 + at, Plus(first, later);
  }

  /** The first text had room: the overflow, if any, is in the rest. */
  lemma FeedAgain(s: string, z: nat, text: string, rest: string, first: Pair, ioRoom: nat, errorRoom: nat)
    returns (p: Parsed)
    requires NulLast(s) && (rest == "" || NulLast(rest)) && Feed(Cut(s), ioRoom, errorRoom).stop == Overflow
    requires Cut(s) == More(z, text, Cut(rest)) && |text| <= if z < 2 then ioRoom else errorRoom
    requires first == ToSink(text, if z < 2 then ToStdio else ToErrors)
    ensures |first.stdio| <= ioRoom && |first.errors| <= errorRoom && NulLast(rest)
    ensures p == Feed(Cut(rest), ioRoom - |first.stdio|, errorRoom - |first.errors|) && p.stop == Overflow
    ensures Feed(Cut(s), ioRoom, errorRoom) == Parsed(Plus(first, p.out), Overflow)
  {
    FeedStep(z, text, Cut(rest), ioRoom, errorRoom);
    p := Feed(Cut(rest), ioRoom - |first.stdio|, errorRoom - |first.errors|);
  }

  lemma StopsHere(s: string, z: nat, text: string, rest: string, ioRoom: nat, errorRoom: nat)
    requires IsTurn(s, z, text, rest) && NulLast(s)
    requires |text| > if z < 2 then ioRoom else errorRoom
    ensures StopsAt(s, 0, Pair("", ""), ioRoom, errorRoom) == true
    ensures Feed(Cut(s), ioRoom, errorRoom) == Parsed(Pair("", ""), Overflow)
  {
    CutTurn(s, z, text, rest);
    WholeSlice(s);
  }

  lemma StopsLater(s: string, z: nat, text: string, rest: string, k: nat, out: Pair, ioRoom: nat, errorRoom: nat)
    requires IsTurn(s, z, text, rest) && |text| <= if z < 2 then ioRoom else errorRoom
    requires var first := ToSink(text, if z < 2 then ToStdio else ToErrors);
             StopsAt(rest, k, out, ioRoom - |first.stdio|, errorRoom - |first.errors|) == true
    ensures var first := ToSink(text, if z < 2 then ToStdio else ToErrors);
            StopsAt(s, z + |text| + 1 + k, Plus(first, out), ioRoom, errorRoom) == true
  {
    PrefixTurn(s, z, text, rest, k);
  }

  lemma FeedStep(z: nat, text: string, ts: Turns, ioRoom: nat, errorRoom: nat)
    requires |text| <= if z < 2 then ioRoom else errorRoom
    ensures var sink := if z < 2 then ToStdio else ToErrors; var first := ToSink(text, sink);
            Feed(More(z, text, ts), ioRoom, errorRoom)
            == var p := Feed(ts, ioRoom - |first.stdio|, errorRoom - |first.errors|); Parsed(Plus(first, p.out), p.stop)
  {
  }

  lemma WholeSlice(s: string)
    ensures s[0..] == s && Decode(s[..0], 1, ToStdio) == Pair("", "")
  {
  }

  lemma PrefixTurn(s: string, z: nat, text: string, rest: string, k: nat)
    requires IsTurn(s, z, text, rest) && k <= |rest|
    ensures s[z + |text| + 1 + k..] == rest[k..]
    ensures Decode(s[..z + |text| + 1 + k], 1, ToStdio)
         == Plus(ToSink(text, if z < 2 then ToStdio else ToErrors), Decode(rest[..k], 1, ToStdio))
  {
    var p := s[..z + |text| + 1 + k];
    assert p[z..z + |text|] == s[z..z + |text|];
    assert p[z + |text| + 1..] == rest[..k];
    TurnStep(p, z, text, rest[..k]);
  }

  /** What the texts of the first `n` turns make up. */
  function FirstTurns(ts: Turns, n: nat): Pair {
    if n == 0 || ts.End? then Pair("", "")
    else Plus(ToSink(ts.text, if ts.zeros < 2 then ToStdio else ToErrors), FirstTurns(ts.rest, n - 1))
  }

  /** The turns from the `n`th on. */
  function TurnsBehind(ts: Turns, n: nat): Turns {
    if n == 0 || ts.End? then ts else TurnsBehind(ts.rest, n - 1)
  }

  /** The texts of the first `n` turns have room, and make up `out`; the next one has none. */
  predicate NoRoomFor(ts: Turns, n: nat, out: Pair, ioRoom: nat, errorRoom: nat) {
    var next := TurnsBehind(ts, n);
    && next.More? && out == FirstTurns(ts, n) && |out.stdio| <= ioRoom && |out.errors| <= errorRoom
    && |next.text| > if next.zeros < 2 then ioRoom - |out.stdio| else errorRoom - |out.errors|
  }

  lemma {:induction false} NoRoomFound(ts: Turns, ioRoom: nat, errorRoom: nat) returns (n: nat)
    requires Feed(ts, ioRoom, errorRoom).stop == Overflow && NoStop(ts)
    ensures NoRoomFor(ts, n, Feed(ts, ioRoom, errorRoom).out, ioRoom, errorRoom)
    decreases ts
  {
    n := 0;
    var first := ToSink(ts.text, if ts.zeros < 2 then ToStdio else ToErrors);
    if |first.stdio| <= ioRoom && |first.errors| <= errorRoom {
      n := NoRoomFound(ts.rest, ioRoom - |first.stdio|, errorRoom - |first.errors|);
      n := n + 1;
    }
  }

  lemma {:induction false} NoRoomStops(ts: Turns, n: nat, out: Pair, ioRoom: nat, errorRoom: nat)
    requires NoRoomFor(ts, n, out, ioRoom, errorRoom)
    ensures Feed(ts, ioRoom, errorRoom) == Parsed(out, Overflow)
    decreases n
  {
    if n > 0 {
      var first := ToSink(ts.text, if ts.zeros < 2 then ToStdio else ToErrors);
      NoRoomStops(ts.rest, n - 1, FirstTurns(ts.rest, n - 1), ioRoom - |first.stdio|, errorRoom - |first.errors|);
    }
  }

  /** The turns do not end with an overflow of their own. */
  predicate NoStop(ts: Turns) {
    match ts
    case End(stop) => stop != Overflow
    case More(_, _, rest) => NoStop(rest)
  }

  lemma {:induction false} CutHasNoStop(s: string, ts: Turns)
    requires IsCut(s, ts)
    ensures NoStop(ts)
    decreases ts
  {
    if ts.More? {
      CutHasNoStop(s[ts.zeros + |ts.text| + 1..], ts.rest);
    }
  }

  /** The parser overflows with the outputs `out` if and only if the texts of some first
      turns make up `out`, and the next text is the first without room. */
  lemma OverflowIff(s: string, out: Pair, ioRoom: nat, errorRoom: nat)
    requires NulLast(s)
    ensures Feed(Cut(s), ioRoom, errorRoom) == Parsed(out, Overflow)
       <==> exists n: nat :: NoRoomFor(Cut(s), n, out, ioRoom, errorRoom)
  {
    CutHasNoStop(s, Cut(s));
    if Feed(Cut(s), ioRoom, errorRoom) == Parsed(out, Overflow) {
      var n := NoRoomFound(Cut(s), ioRoom, errorRoom);
    }
    if n: nat :| NoRoomFor(Cut(s), n, out, ioRoom, errorRoom) {
      NoRoomStops(Cut(s), n, out, ioRoom, errorRoom);
    }
  }

  /** Framing round trip through the parser: frames followed by two zero bytes or
      more come back completely, if and only if both outputs fit their buffers. */
  lemma FramingRoundTrip(fs: seq<Frame>, pad: nat, ioRoom: nat, errorRoom: nat)
    requires ZeroFree(fs) && pad >= 2
    ensures ParseOutput(EncodeAll(fs) + Nuls(pad), ioRoom, errorRoom)
            == Parsed(Pair(OutOf(fs), ErrorsOf(fs)), Complete)
            <==> |OutOf(fs)| <= ioRoom && |ErrorsOf(fs)| <= errorRoom
  {
    var s := EncodeAll(fs) + Nuls(pad);
    DecodeOfEncode(fs, pad, 1, ToStdio);
    FeedIsDecode(s, ioRoom, errorRoom);
  }

  /** A plain text that does not fit stops the parser at once. */
  lemma PlainTooLong(s: string, text: string, ioRoom: nat, errorRoom: nat)
    requires NulLast(s) && text <= s && NulFree(text) && |text| > ioRoom
    ensures Feed(Cut(s), ioRoom, errorRoom) == Parsed(Pair("", ""), Overflow)
  {
    assert s[0] == text[0] != NUL;
    assert IsCut(s, Cut(s));
    var z, first, rest := CutView(s);
    assert z == 0 && s[|first|] == NUL;
    assert forall i :: 0 <= i < |text| ==> s[i] == text[i];
  }

  /** A message that fits: the parser goes on behind it. */
  lemma MessageFits(s: string, z: nat, text: string, tail: string, ioRoom: nat, errorRoom: nat)
    requires s == Nuls(z) + text + [NUL] + tail && text != "" && NulFree(text) && NulLast(tail)
    requires z >= 2 && |text| <= errorRoom
    ensures NulLast(s)
    ensures var p := Feed(Cut(tail), ioRoom, errorRoom - |text|);
            Feed(Cut(s), ioRoom, errorRoom) == Parsed(Plus(Pair("", text), p.out), p.stop)
  {
    MessageTurn(s, z, text, tail);
    FeedStep(z, text, Cut(tail), ioRoom, errorRoom);
  }

  /** A plain text that fits: the parser goes on behind the zero byte that ends it. */
  lemma PlainFits(s: string, text: string, tail: string, ioRoom: nat, errorRoom: nat)
    requires s == text + [NUL] + tail && text != "" && NulFree(text) && NulLast(tail) && |text| <= ioRoom
    ensures NulLast(s)
    ensures var p := Feed(Cut(tail), ioRoom - |text|, errorRoom);
            Feed(Cut(s), ioRoom, errorRoom) == Parsed(Plus(Pair(text, ""), p.out), p.stop)
  {
    assert s == Nuls(0) + text + [NUL] + tail;
    MessageTurn(s, 0, text, tail);
    FeedStep(0, text, Cut(tail), ioRoom, errorRoom);
  }

  lemma PlainAndMessage(s: string, plain: string, text: string, tail: string, ioRoom: nat, errorRoom: nat)
    requires s == plain + (Nuls(3) + text + [NUL]) + tail && plain != "" && NulFree(plain) && |plain| <= ioRoom
    requires text != "" && NulFree(text) && NulLast(tail) && |text| <= errorRoom
    ensures NulLast(s)
    ensures var p := Feed(Cut(tail), ioRoom - |plain|, errorRoom - |text|);
            Feed(Cut(s), ioRoom, errorRoom) == Parsed(Plus(Pair(plain, text), p.out), p.stop)
  {
    var rest := Nuls(2) + text + [NUL] + tail;
    assert s == plain + [NUL] + rest;
    MessageFits(rest, 2, text, tail, ioRoom - |plain|, errorRoom);
    PlainFits(s, plain, rest, ioRoom, errorRoom);
    PlusAssociative(Pair(plain, ""), Pair("", text), Feed(Cut(tail), ioRoom - |plain|, errorRoom - |text|).out);
    assert Plus(Pair(plain, ""), Pair("", text)) == Pair(plain, text);
  }

  /** A plain text that fits or is empty, then a message that fits: the parser goes on
      behind both. */
  lemma PlainThenMessage(s: string, plain: string, text: string, tail: string, ioRoom: nat, errorRoom: nat)
    requires s == plain + (Nuls(3) + text + [NUL]) + tail && NulFree(plain) && |plain| <= ioRoom
    requires text != "" && NulFree(text) && NulLast(tail) && |text| <= errorRoom
    ensures NulLast(s)
    ensures var p := Feed(Cut(tail), ioRoom - |plain|, errorRoom - |text|);
            Feed(Cut(s), ioRoom, errorRoom) == Parsed(Plus(Pair(plain, text), p.out), p.stop)
  {
    if plain == "" {
      assert s == Nuls(3) + text + [NUL] + tail;
      MessageFits(s, 3, text, tail, ioRoom, errorRoom);
    } else {
      PlainAndMessage(s, plain, text, tail, ioRoom, errorRoom);
    }
  }

  lemma EncodedText(message: string)
    requires message != ""
    ensures Encode(Fail(message)) == Nuls(3) + (message + [LF]) + [NUL]
  {
    assert Nuls(3) == [NUL, NUL, NUL];
  }

  lemma MessageTurn(s: string, z: nat, text: string, tail: string)
    requires s == Nuls(z) + text + [NUL] + tail && text != "" && NulFree(text) && NulLast(tail)
    ensures NulLast(s) && Cut(s) == More(z, text, Cut(tail))
  {
    assert IsTurn(s, z, text, tail);
    CutTurn(s, z, text, tail);
  }

  // --------------------------------------------------- the parser on buffers

  /** A buffer that holds `text` and is zero behind it. */
  ghost predicate Holds(buffer: array<char>, text: string)
    reads buffer
  {
    |text| <= buffer.Length && buffer[..] == text + Nuls(buffer.Length - |text|)
  }

  method Clear(buffer: array<char>)
    modifies buffer
    ensures Holds(buffer, "")
  {
    forall i | 0 <= i < buffer.Length {
      buffer[i] := NUL;
    }
  }

  /** memcpy behind the `at` bytes that the buffer holds already. */
  method CopyBehind(buffer: array<char>, ghost held: string, at: nat, text: string)
    requires Holds(buffer, held) && at == |held| && at + |text| <= buffer.Length
    modifies buffer
    ensures Holds(buffer, held + text)
  {
    forall i | 0 <= i < |text| {
      buffer[at + i] := text[i];
    }
    assert buffer[..at] == held;
    assert buffer[at..at + |text|] == text;
    assert buffer[at + |text|..] == Nuls(buffer.Length - at - |text|);
    assert buffer[..] == buffer[..at] + buffer[at..at + |text|] + buffer[at + |text|..];
  }

  /** Count the zero bytes at `pos`; `ended` when the input has no other byte. */
  method SkipZeros(full: array<char>, pos: nat) returns (zeros: nat, ended: bool)
    requires pos < full.Length
    ensures pos + zeros <= full.Length && ended == (pos + zeros == full.Length)
    ensures forall i :: pos <= i < pos + zeros ==> full[i] == NUL
    ensures !ended ==> full[pos + zeros] != NUL
  {
    zeros := 0;
    while full[pos + zeros] == NUL
      invariant pos + zeros < full.Length
      invariant forall i :: pos <= i < pos + zeros ==> full[i] == NUL
      decreases full.Length - pos - zeros
    {
      zeros := zeros + 1;
      if pos + zeros == full.Length {
        return zeros, true;
      }
    }
    ended := false;
  }

  /** strlen of the text at `at`. */
  method TextLength(full: array<char>, at: nat) returns (length: nat)
    requires at < full.Length && full[full.Length - 1] == NUL
    ensures at + length < full.Length && full[at + length] == NUL
    ensures forall i :: at <= i < at + length ==> full[i] != NUL
  {
    length := 0;
    while full[at + length] != NUL
      invariant at + length < full.Length
      invariant forall i :: at <= i < at + length ==> full[i] != NUL
      decreases full.Length - at - length
    {
      length := length + 1;
    }
  }

  /** What the remaining turns do completes what was parsed already. */
  ghost predicate Continues(whole: Parsed, ioRoom: nat, errorRoom: nat, out: Pair, ts: Turns) {
    && |out.stdio| <= ioRoom && |out.errors| <= errorRoom
    && var p := Feed(ts, ioRoom - |out.stdio|, errorRoom - |out.errors|);
       whole == Parsed(Plus(out, p.out), p.stop)
  }

  /** One turn that has room for its text. */
  lemma ContinueTurn(whole: Parsed, ioRoom: nat, errorRoom: nat, out: Pair, ts: Turns, out': Pair)
    requires Continues(whole, ioRoom, errorRoom, out, ts) && ts.More?
    requires out' == Plus(out, ToSink(ts.text, if ts.zeros < 2 then ToStdio else ToErrors))
    requires |out'.stdio| <= ioRoom && |out'.errors| <= errorRoom
    ensures Continues(whole, ioRoom, errorRoom, out', ts.rest)
  {
    var p := Feed(ts.rest, ioRoom - |out'.stdio|, errorRoom - |out'.errors|);
    PlusAssociative(out, ToSink(ts.text, if ts.zeros < 2 then ToStdio else ToErrors), p.out);
  }

  /** The turn that starts at `pos`. */
  lemma CutAt(s: string, pos: nat, z: nat, n: nat)
    requires NulLast(s) && pos + z + n < |s| && n > 0
    requires forall i :: pos <= i < pos + z ==> s[i] == NUL
    requires forall i :: pos + z <= i < pos + z + n ==> s[i] != NUL
    requires s[pos + z + n] == NUL
    ensures pos + z + n + 1 < |s| ==> NulLast(s[pos + z + n + 1..])
    ensures Cut(s[pos..]) == More(z, s[pos + z..pos + z + n], Cut(s[pos + z + n + 1..]))
  {
    assert s[pos..][z..z + n] == s[pos + z..pos + z + n];
    assert s[pos..][z + n + 1..] == s[pos + z + n + 1..];
    CutTurn(s[pos..], z, s[pos + z..pos + z + n], s[pos + z + n + 1..]);
  }

  lemma CutZeros(s: string, pos: nat)
    requires NulLast(s) && pos < |s|
    requires forall i :: pos <= i < |s| ==> s[i] == NUL
    ensures Cut(s[pos..]) == End(Complete)
  {
    CutUnique(s[pos..], Cut(s[pos..]), End(Complete));
  }

  /** The turns of the input from `pos` on. */
  ghost function TurnsFrom(s: string, pos: nat): Turns
    requires NulLast(s) && pos <= |s|
  {
    assert pos < |s| ==> NulLast(s[pos..]);
    Cut(s[pos..])
  }

  /** Look at one turn: count the zero bytes, then measure the text behind them. */
  method ReadTurn(full: array<char>, pos: nat) returns (ended: bool, zeros: nat, text: string, next: nat)
    requires NulLast(full[..]) && pos < full.Length
    ensures ended ==> TurnsFrom(full[..], pos) == End(Complete)
    ensures !ended ==> pos < next <= full.Length
    ensures !ended ==> TurnsFrom(full[..], pos) == More(zeros, text, TurnsFrom(full[..], next))
  {
    zeros, ended := SkipZeros(full, pos);
    ghost var s := full[..];
    if ended {
      CutZeros(s, pos);
      text, next := "", pos;
    } else {
      var length := TextLength(full, pos + zeros);
      text := full[pos + zeros..pos + zeros + length];
      next := pos + zeros + length + 1;
      CutAt(s, pos, zeros, length);
    }
  }

  /** Copy a text behind what the buffer holds, unless it does not fit. */
  method Store(buffer: array<char>, ghost held: string, size: nat, text: string) returns (fits: bool)
    requires Holds(buffer, held) && size == |held|
    modifies buffer
    ensures fits == (|text| <= buffer.Length - size)
    ensures Holds(buffer, if fits then held + text else held)
  {
    fits := |text| <= buffer.Length - size;
    if fits {
      CopyBehind(buffer, held, size, text);
    }
  }

  /** Parse the output of a single test into the two buffers. */
  method ParseCommandOutput(full: array<char>, stdio: array<char>, errors: array<char>) returns (stop: Stop)
    requires full.Length > 0 && full != stdio && full != errors && stdio != errors
    modifies stdio, errors
    ensures var p := ParseOutput(full[..], stdio.Length, errors.Length);
            stop == p.stop && Holds(stdio, p.out.stdio) && Holds(errors, p.out.errors)
  {
    Clear(stdio);
    Clear(errors);
    if full[full.Length - 1] != NUL {
      return Unterminated;
    }
    ghost var s := full[..];
    assert s[0..] == s;
    stop := ParseTurns(full, stdio, errors);
  }

  /** The outer loop of the parser. */
  method ParseTurns(full: array<char>, stdio: array<char>, errors: array<char>) returns (stop: Stop)
    requires NulLast(full[..]) && full != stdio && full != errors && stdio != errors
    requires Holds(stdio, "") && Holds(errors, "")
    modifies stdio, errors
    ensures var p := Feed(TurnsFrom(full[..], 0), stdio.Length, errors.Length);
            stop == p.stop && Holds(stdio, p.out.stdio) && Holds(errors, p.out.errors)
  {
    ghost var s, out, ts := full[..], Pair("", ""), TurnsFrom(full[..], 0);
    ghost var whole := Feed(ts, stdio.Length, errors.Length);
    var pos, ioSize, errorSize := 0, 0, 0;
    while pos < full.Length
      invariant pos <= full.Length && full[..] == s && ts == TurnsFrom(s, pos)
      invariant Continues(whole, stdio.Length, errors.Length, out, ts)
      invariant ioSize == |out.stdio| && Holds(stdio, out.stdio)
      invariant errorSize == |out.errors| && Holds(errors, out.errors)
      decreases full.Length - pos
    {
      PlusNothing(out);
      var ended, zeros, text, next := ReadTurn(full, pos);
      if ended {
        return Complete;
      }
      ghost var before := out;
      var fits;
      if zeros < 2 {
        fits := Store(stdio, out.stdio, ioSize, text);
        out, ioSize := if fits then Pair(out.stdio + text, out.errors) else out, ioSize + |text|;
      } else {
        fits := Store(errors, out.errors, errorSize, text);
        out, errorSize := if fits then Pair(out.stdio, out.errors + text) else out, errorSize + |text|;
      }
      if !fits {
        return Overflow;
      }
      ContinueTurn(whole, stdio.Length, errors.Length, before, ts, out);
      pos, ts := next, ts.rest;
    }
    PlusNothing(out);
    stop := PastEnd;
  }
}
