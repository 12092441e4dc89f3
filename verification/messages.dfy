/** Strings in character buffers, and the store of formatted assertion messages
    with its two rotating buffers (src/assert.c). */
module Messages {
  import opened Text

  /** There is a NUL at or behind `at`, so a C string can be read there. */
  ghost predicate Terminated(buffer: array<char>, at: nat)
    reads buffer
  {
    exists i :: at <= i < buffer.Length && buffer[i] == NUL
  }

  /** The C string in a buffer; NULL reads as an empty string. */
  ghost function TextOf(buffer: array?<char>): string
    reads buffer
  {
    if buffer == null then "" else CString(buffer[..])
  }

  /** strlen of the string at `at`. */
  method StrLen(buffer: array<char>, at: nat) returns (length: nat)
    requires Terminated(buffer, at)
    ensures at + length < buffer.Length && buffer[at + length] == NUL
    ensures CString(buffer[at..]) == buffer[at..at + length]
  {
    length := 0;
    while buffer[at + length] != NUL
      invariant at + length < buffer.Length && Terminated(buffer, at + length)
      invariant forall i :: at <= i < at + length ==> buffer[i] != NUL
      decreases buffer.Length - at - length
    {
      length := length + 1;
    }
    CStringAt(buffer[..], at, length);
  }

  lemma CStringAt(s: string, at: nat, length: nat)
    requires at + length < |s| && s[at + length] == NUL
    requires forall i :: at <= i < at + length ==> s[i] != NUL
    ensures CString(s[at..]) == s[at..at + length]
  {
    IndexOfUnique(s[at..], NUL, length);
    assert s[at..][..length] == s[at..at + length];
  }

  /** The buffer starts with `text` and its NUL. */
  ghost predicate HasText(buffer: array<char>, text: string)
    reads buffer
  {
    |text| < buffer.Length && NulFree(text) && buffer[..|text|] == text && buffer[|text|] == NUL
  }

  lemma TextRead(buffer: array<char>, text: string)
    requires HasText(buffer, text)
    ensures Terminated(buffer, 0) && TextOf(buffer) == text && CString(buffer[0..]) == text
  {
    assert forall i :: 0 <= i < |text| ==> buffer[i] == text[i];
    CStringAt(buffer[..], 0, |text|);
    assert buffer[0..] == buffer[..] == buffer[..][0..];
  }

  /** A bounded formatted print behind the `at` bytes held already: at most `size - 1`
      bytes of the text, and a NUL. */
  method Print(buffer: array<char>, ghost held: string, at: nat, size: nat, text: string)
    requires 0 < size && at + size <= buffer.Length && NulFree(text)
    requires at == |held| && NulFree(held) && buffer[..at] == held
    modifies buffer
    ensures HasText(buffer, held + Take(text, size - 1))
  {
    var n := if |text| <= size - 1 then |text| else size - 1;
    forall i | 0 <= i < n {
      buffer[at + i] := text[i];
    }
    buffer[at + n] := NUL;
    assert buffer[..at] == held;
    assert buffer[at..at + n] == text[..n];
    assert buffer[..at + n] == buffer[..at] + buffer[at..at + n];
  }

  /** Maximum length of a failed-assert message, with its NUL. */
  const MAX_MESSAGE_LENGTH: nat := 256

  /** What every assertion message starts with. */
  function Location(file: string, line: int): string {
    file + ":" + Decimal(line) + ": "
  }

  /** The message of a failed assertion. */
  function Message(file: string, line: int, text: string): string {
    Take(Location(file, line) + text, MAX_MESSAGE_LENGTH - 1)
  }

  lemma {:induction false} DigitsNulFree(n: nat)
    ensures NulFree(Digits(n))
  {
  }

  lemma LocationNulFree(file: string, line: int)
    requires NulFree(file)
    ensures NulFree(Location(file, line)) && Location(file, line) != ""
  {
    if line < 0 {
      DigitsNulFree(-line);
    } else {
      DigitsNulFree(line);
    }
  }

  lemma MessageNulFree(file: string, line: int, text: string)
    requires NulFree(file) && NulFree(text)
    ensures NulFree(Message(file, line, text)) && Message(file, line, text) != ""
  {
    LocationNulFree(file, line);
  }

  /** A message is the file name, the line number and the text, as long as 255 characters
      are enough for all of it; otherwise it is what the first 255 of them are. */
  lemma MessageReads(file: string, line: int, text: string)
    ensures var m, all := Message(file, line, text), file + ":" + Decimal(line) + ": " + text;
            if |all| <= 255 then m == all else |m| == 255 && m <= all
  {
    assert Location(file, line) + text == file + ":" + Decimal(line) + ": " + text;
  }

  /** The two prints of a message together keep its first 255 bytes. */
  lemma MessageParts(file: string, line: int, text: string)
    ensures var kept := Take(Location(file, line), MAX_MESSAGE_LENGTH - 1);
            Message(file, line, text) == kept + Take(text, MAX_MESSAGE_LENGTH - 1 - |kept|)
  {
  }

  /** Format a message into a buffer: the location, and behind it as much of the text as
      there is room for. */
  method FormatInto(message: array<char>, file: string, line: int, text: string)
    requires message.Length == MAX_MESSAGE_LENGTH + 1 && NulFree(file) && NulFree(text)
    modifies message
    ensures HasText(message, Message(file, line, text))
  {
    LocationNulFree(file, line);
    ghost var kept := Take(Location(file, line), MAX_MESSAGE_LENGTH - 1);
    PrintFirst(message, Location(file, line), kept);
    PrintBehind(message, kept, text);
    MessageParts(file, line, text);
  }

  method PrintFirst(message: array<char>, location: string, ghost kept: string)
    requires message.Length == MAX_MESSAGE_LENGTH + 1 && NulFree(location)
    requires kept == Take(location, MAX_MESSAGE_LENGTH - 1)
    modifies message
    ensures HasText(message, kept)
  {
    Print(message, "", 0, MAX_MESSAGE_LENGTH, location);
    assert "" + kept == kept;
  }

  method PrintBehind(message: array<char>, ghost kept: string, text: string)
    requires message.Length == MAX_MESSAGE_LENGTH + 1 && NulFree(text)
    requires HasText(message, kept) && |kept| < MAX_MESSAGE_LENGTH
    modifies message
    ensures HasText(message, kept + Take(text, MAX_MESSAGE_LENGTH - 1 - |kept|))
  {
    var offset := KeptLength(message, kept);
    if offset + 1 < MAX_MESSAGE_LENGTH {
      Print(message, kept, offset, MAX_MESSAGE_LENGTH - offset, text);
    } else {
      assert kept + Take(text, 0) == kept;
    }
  }

  method KeptLength(message: array<char>, ghost kept: string) returns (offset: nat)
    requires HasText(message, kept)
    ensures offset == |kept|
  {
    TextRead(message, kept);
    offset := StrLen(message, 0);
  }

  class MessageStore {
    const first: array<char>
    const second: array<char>
    var index: nat

    ghost predicate Valid()
      reads this
    {
      && first != second && index < 2
      && first.Length == MAX_MESSAGE_LENGTH + 1 && second.Length == MAX_MESSAGE_LENGTH + 1
    }

    /** The buffer that the next message is written to. */
    function Current(): array<char>
      reads this
    {
      if index == 0 then first else second
    }

    function Other(): array<char>
      reads this
    {
      if index == 0 then second else first
    }

    constructor ()
      ensures Valid() && fresh(first) && fresh(second)
    {
      first := new char[MAX_MESSAGE_LENGTH + 1];
      second := new char[MAX_MESSAGE_LENGTH + 1];
      index := 0;
    }

    /** A copy of the store, as a new process gets it. */
    constructor Copy(that: MessageStore)
      requires that.Valid()
      ensures Valid() && fresh(first) && fresh(second) && index == that.index
      ensures first[..] == that.first[..] && second[..] == that.second[..]
    {
      first := new char[that.first.Length](i requires 0 <= i < that.first.Length reads that.first => that.first[i]);
      second := new char[that.second.Length](i requires 0 <= i < that.second.Length reads that.second => that.second[i]);
      index := that.index;
    }

    /** Format a message into the current buffer and switch to the other one. */
    method Format(file: string, line: int, text: string) returns (message: array<char>)
      requires Valid() && NulFree(file) && NulFree(text)
      modifies this`index, Current()
      ensures Valid() && message == old(Current()) && message == Other() && Current() == old(Other())
      ensures HasText(message, Message(file, line, text))
    {
      message := Current();
      index := (index + 1) % 2;
      FormatInto(message, file, line, text);
    }
  }
}
