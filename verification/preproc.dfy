/** The preprocessor that numbers items for compilers without __COUNTER__
    (src/preproc.c): a streaming tokeniser with a counter. */
module Preprocessing {
  import opened Text
  import opened Messages

  // ------------------------------------------------------------ the tokens

  predicate IsLetter(c: char) {
    'a' <= c <= 'z' || 'A' <= c <= 'Z' || c == '_'
  }

  /** A digit belongs to an identifier only when one is already open. */
  predicate IsIdentifierChar(c: char, inside: bool) {
    IsLetter(c) || (inside && IsDigit(c))
  }

  datatype Token = Word(name: string) | Other(c: char)

  predicate IsName(w: string) {
    w != "" && IsLetter(w[0]) && forall i :: 0 <= i < |w| ==> IsIdentifierChar(w[i], true)
  }

  predicate IsToken(t: Token) {
    match t
    case Word(w) => IsName(w)
    case Other(c) => !IsLetter(c)
  }

  function TextOfToken(t: Token): string {
    match t
    case Word(w) => w
    case Other(c) => [c]
  }

  /** The first `n` tokens, written one after the other. */
  function Joined(ts: seq<Token>, n: nat): string
    requires n <= |ts|
  {
    if n == 0 then "" else Joined(ts, n - 1) + TextOfToken(ts[n - 1])
  }

  /** No identifier could be longer than it is. */
  predicate Maximal(ts: seq<Token>) {
    forall i :: 0 <= i < |ts| - 1 && ts[i].Word? ==> ts[i + 1].Other? && !IsIdentifierChar(ts[i + 1].c, true)
  }

  /** `ts` splits `s` into maximal identifiers and other characters. */
  predicate IsSplit(s: string, ts: seq<Token>) {
    Joined(ts, |ts|) == s && (forall i :: 0 <= i < |ts| ==> IsToken(ts[i])) && Maximal(ts)
  }

  // ----------------------------------------------------- splitting, left to right

  /** What the loop knows: the tokens that are complete, and the identifier that is
      open, if any. */
  datatype Scan = Scan(tokens: seq<Token>, word: string)

  function Next(st: Scan, c: char): Scan {
    if IsIdentifierChar(c, st.word != "") then st.(word := st.word + [c])
    else Scan(Closed(st) + [Other(c)], "")
  }

  /** The tokens when the open identifier ends. */
  function Closed(st: Scan): seq<Token> {
    if st.word == "" then st.tokens else st.tokens + [Word(st.word)]
  }

  /** The state after the first `n` characters. */
  function Scanned(s: string, n: nat): Scan
    requires n <= |s|
  {
    if n == 0 then Scan([], "") else Next(Scanned(s, n - 1), s[n - 1])
  }

  function Split(s: string): seq<Token> {
    Closed(Scanned(s, |s|))
  }

  /** The complete tokens do not end with an identifier that could still grow. */
  predicate IsScan(s: string, st: Scan) {
    && Joined(st.tokens, |st.tokens|) + st.word == s
    && (forall i :: 0 <= i < |st.tokens| ==> IsToken(st.tokens[i])) && Maximal(st.tokens)
    && (st.tokens != [] ==> st.tokens[|st.tokens| - 1].Other?)
    && (st.word != "" ==> IsName(st.word))
  }

  lemma {:induction false} JoinedPrefix(ts: seq<Token>, us: seq<Token>, n: nat)
    requires n <= |ts|
    ensures Joined(ts + us, n) == Joined(ts, n)
  {
    if n > 0 {
      JoinedPrefix(ts, us, n - 1);
    }
  }

  lemma JoinedSnoc(ts: seq<Token>, t: Token)
    ensures Joined(ts + [t], |ts| + 1) == Joined(ts, |ts|) + TextOfToken(t)
  {
    JoinedPrefix(ts, [t], |ts|);
  }

  lemma ClosedIsSplit(s: string, st: Scan)
    requires IsScan(s, st)
    ensures IsSplit(s, Closed(st))
  {
    JoinedSnoc(st.tokens, Word(st.word));
  }

  lemma OtherIsScan(s: string, ts: seq<Token>, c: char)
    requires IsSplit(s, ts) && !IsLetter(c)
    requires ts != [] && ts[|ts| - 1].Word? ==> !IsIdentifierChar(c, true)
    ensures IsScan(s + [c], Scan(ts + [Other(c)], ""))
  {
    JoinedSnoc(ts, Other(c));
  }

  lemma NextIsScan(s: string, st: Scan, c: char)
    requires IsScan(s, st) == true
    ensures IsScan(s + [c], Next(st, c)) == true
  {
    if IsIdentifierChar(c, st.word != "") {
      assert Joined(st.tokens, |st.tokens|) + (st.word + [c]) == s + [c];
    } else {
      ClosedIsSplit(s, st);
      OtherIsScan(s, Closed(st), c);
    }
  }

  lemma ScannedNext(s: string, n: nat)
    requires 0 < n <= |s| && IsScan(s[..n - 1], Scanned(s, n - 1)) == true
    ensures IsScan(s[..n], Scanned(s, n)) == true
  {
    NextIsScan(s[..n - 1], Scanned(s, n - 1), s[n - 1]);
    assert s[..n] == s[..n - 1] + [s[n - 1]];
  }

  lemma {:induction false} ScannedIsScan(s: string, n: nat)
    requires n <= |s|
    ensures IsScan(s[..n], Scanned(s, n)) == true
  {
    if n == 0 {
      assert s[..0] == "";
    } else {
      ScannedIsScan(s, n - 1);
      ScannedNext(s, n);
    }
  }

  /** Scanning splits the text. */
  lemma SplitIsSplit(s: string)
    ensures IsSplit(s, Split(s))
  {
    ScannedIsScan(s, |s|);
    assert s[..|s|] == s;
    ClosedIsSplit(s, Scanned(s, |s|));
  }

  lemma {:induction false} JoinedTail(ts: seq<Token>, n: nat)
    requires 0 < n <= |ts|
    ensures Joined(ts, n) == TextOfToken(ts[0]) + Joined(ts[1..], n - 1)
  {
    if n > 1 {
      JoinedTail(ts, n - 1);
      assert ts[1..][n - 2] == ts[n - 1];
    }
  }

  /** The first token of a split and what is left behind it. */
  lemma FirstToken(s: string, ts: seq<Token>)
    requires IsSplit(s, ts) && ts != []
    ensures var t := TextOfToken(ts[0]);
            && t != "" && t <= s && IsSplit(s[|t|..], ts[1..])
            && (ts[0].Word? && |t| < |s| ==> !IsIdentifierChar(s[|t|], true))
  {
    JoinedTail(ts, |ts|);
    var t := TextOfToken(ts[0]);
    assert s[|t|..] == Joined(ts[1..], |ts| - 1);
    if |ts| > 1 {
      JoinedTail(ts[1..], |ts| - 1);
      assert s[|t|..] == TextOfToken(ts[1]) + Joined(ts[1..][1..], |ts| - 2);
    }
  }

  /** There is only one split. */
  lemma {:induction false} SplitUnique(s: string, ts: seq<Token>, us: seq<Token>)
    requires IsSplit(s, ts) && IsSplit(s, us)
    ensures ts == us
    decreases |s|
  {
    if ts != [] && us != [] {
      FirstToken(s, ts);
      FirstToken(s, us);
      SameFirst(s, ts[0], us[0]);
      SplitUnique(s[|TextOfToken(ts[0])|..], ts[1..], us[1..]);
      assert ts == [ts[0]] + ts[1..] && us == [us[0]] + us[1..];
    } else if ts != [] {
      FirstToken(s, ts);
    } else if us != [] {
      FirstToken(s, us);
    }
  }

  lemma SameFirst(s: string, t: Token, u: Token)
    requires IsToken(t) && IsToken(u) && TextOfToken(t) <= s && TextOfToken(u) <= s && s != ""
    requires t.Word? && |t.name| < |s| ==> !IsIdentifierChar(s[|t.name|], true)
    requires u.Word? && |u.name| < |s| ==> !IsIdentifierChar(s[|u.name|], true)
    ensures t == u
  {
    assert TextOfToken(t)[0] == s[0] == TextOfToken(u)[0];
    if t.Word? && u.Word? {
      SameWord(s, t.name, u.name);
      SameWord(s, u.name, t.name);
      assert t.name == s[..|t.name|] && u.name == s[..|u.name|];
    }
  }

  /** A word cannot stop where the text goes on with an identifier character. */
  lemma SameWord(s: string, v: string, w: string)
    requires v <= s && w <= s && IsName(w)
    requires |v| < |s| ==> !IsIdentifierChar(s[|v|], true)
    ensures |w| <= |v|
  {
  }

  // -------------------------------------------------------------- the macros

  const MAX_IDENTIFIER_LENGTH: nat := 256

  const ITEM_NAME: string := "PCUT_ITEM_NAME"
  const ITEM_NAME_PREV: string := "PCUT_ITEM_NAME_PREV"
  const INCREMENT: string := "PCUT_ITEM_COUNTER_INCREMENT"
  const ITEM2_NAME: string := "PCUT_ITEM2_NAME"
  const ITEM3_NAME: string := "PCUT_ITEM3_NAME"

  /** The three families of generated names. */
  datatype Family = First | Second | Third

  function Stem(f: Family): string {
    match f
    case First => "pcut_item_"
    case Second => "pcut_item2_"
    case Third => "pcut_item3_"
  }

  function Generated(f: Family, n: int): string {
    Stem(f) + Decimal(n)
  }

  predicate IsMacro(w: string) {
    w == ITEM_NAME || w == ITEM_NAME_PREV || w == INCREMENT || w == ITEM2_NAME || w == ITEM3_NAME
  }

  /** How an identifier is printed when the counter stands at `n`. */
  function Expansion(w: string, n: int): string {
    if w == ITEM_NAME then Generated(First, n)
    else if w == ITEM_NAME_PREV then Generated(First, n - 1)
    else if w == INCREMENT then ""
    else if w == ITEM2_NAME then Generated(Second, n)
    else if w == ITEM3_NAME then Generated(Third, n)
    else w
  }

  function Shown(t: Token, n: int): string {
    match t
    case Word(w) => Expansion(w, n)
    case Other(c) => [c]
  }

  /** The increments among the first `n` tokens: where the counter stands then. */
  function Counter(ts: seq<Token>, n: nat): nat
    requires n <= |ts|
  {
    if n == 0 then 0 else Counter(ts, n - 1) + if ts[n - 1] == Word(INCREMENT) then 1 else 0
  }

  /** The first `n` tokens, expanded from left to right. */
  function Expanded(ts: seq<Token>, n: nat): string
    requires n <= |ts|
  {
    if n == 0 then "" else Expanded(ts, n - 1) + Shown(ts[n - 1], Counter(ts, n - 1))
  }

  predicate TooLong(t: Token) {
    t.Word? && |t.name| >= MAX_IDENTIFIER_LENGTH
  }

  /** `k` is the first identifier that is too long, or the end. */
  predicate IsEnd(ts: seq<Token>, k: nat) {
    k <= |ts| && (k < |ts| ==> TooLong(ts[k])) && forall i :: 0 <= i < k ==> !TooLong(ts[i])
  }

  /** Refinement: splitting, expanding and one LF, or everything before the first
      identifier that is too long. */
  ghost predicate Refines(input: string, output: string, code: int) {
    forall ts, k :: IsSplit(input, ts) && IsEnd(ts, k) ==> EndsAt(ts, k, output, code)
  }

  ghost predicate EndsAt(ts: seq<Token>, k: nat, output: string, code: int)
    requires k <= |ts|
  {
    if k == |ts| then output == Expanded(ts, k) + [LF] && code == 0 else output == Expanded(ts, k) && code == 1
  }

  lemma {:induction false} ExpandedPrefix(ts: seq<Token>, us: seq<Token>, n: nat)
    requires n <= |ts|
    ensures Expanded(ts + us, n) == Expanded(ts, n) && Counter(ts + us, n) == Counter(ts, n)
  {
    if n > 0 {
      ExpandedPrefix(ts, us, n - 1);
    }
  }

  /** One more token. */
  lemma ExpandedSnoc(ts: seq<Token>, t: Token)
    ensures Expanded(ts + [t], |ts| + 1) == Expanded(ts, |ts|) + Shown(t, Counter(ts, |ts|))
    ensures Counter(ts + [t], |ts| + 1) == Counter(ts, |ts|) + if t == Word(INCREMENT) then 1 else 0
  {
    ExpandedPrefix(ts, [t], |ts|);
  }

  // ------------------------------------------------------------- the program

  /** The identifier that is open begins the token behind the complete ones. */
  predicate Begins(st: Scan, ts: seq<Token>) {
    && st.tokens <= ts
    && (st.word != "" ==> |st.tokens| < |ts| && ts[|st.tokens|].Word? && st.word <= ts[|st.tokens|].name)
  }

  lemma {:induction false} ScansGrow(s: string, n: nat, m: nat)
    requires n <= m <= |s|
    ensures Begins(Scanned(s, n), Closed(Scanned(s, m)))
    decreases m
  {
    if n < m {
      ScansGrow(s, n, m - 1);
    }
  }

  /** Every split begins with what was scanned. */
  lemma SplitBegins(s: string, n: nat, ts: seq<Token>)
    requires n <= |s| && IsSplit(s, ts)
    ensures Begins(Scanned(s, n), ts)
  {
    SplitIsSplit(s);
    SplitUnique(s, ts, Split(s));
    ScansGrow(s, n, |s|);
  }

  /** An identifier that has outgrown the buffer ends the run. */
  lemma EndAtLong(st: Scan, ts: seq<Token>, k: nat)
    requires Begins(st, ts) && IsEnd(ts, k) && |st.word| >= MAX_IDENTIFIER_LENGTH
    requires forall i :: 0 <= i < |st.tokens| ==> !TooLong(st.tokens[i])
    ensures k == |st.tokens| < |ts| && Expanded(ts, k) == Expanded(st.tokens, k)
  {
    var n := |st.tokens|;
    assert TooLong(ts[n]);
    assert ts == st.tokens + ts[n..];
    ExpandedPrefix(st.tokens, ts[n..], n);
  }

  class Preprocessor {
    var counter: int
    const name: array<char>
    var length: nat
    var output: string

    ghost predicate Valid()
      reads this, name
    {
      && name.Length == MAX_IDENTIFIER_LENGTH && length < MAX_IDENTIFIER_LENGTH
      && HasText(name, name[..length])
    }

    /** The identifier in the buffer. */
    ghost function Held(): string
      requires Valid()
      reads this, name
    {
      name[..length]
    }

    constructor ()
      ensures Valid() && counter == 0 && output == "" && fresh(name)
    {
      counter, output, length := 0, "", 0;
      name := new char[MAX_IDENTIFIER_LENGTH](_ => NUL);
    }

    method IdentifierInit()
      requires Valid()
      modifies name, this`length
      ensures Valid() && Held() == ""
    {
      name[0] := NUL;
      length := 0;
    }

    /** Append a character; there must be room for it and for the NUL. */
    method IdentifierAddChar(c: char) returns (added: bool)
      requires Valid() && c != NUL
      modifies name, this`length
      ensures Valid() && added == (|old(Held())| + 1 < MAX_IDENTIFIER_LENGTH)
      ensures Held() == if added then old(Held()) + [c] else old(Held())
    {
      if length + 1 >= MAX_IDENTIFIER_LENGTH {
        return false;
      }
      ghost var held := Held();
      name[length] := c;
      length := length + 1;
      name[length] := NUL;
      assert name[..length] == held + [c];
      added := true;
    }

    method Print(text: string)
      modifies this`output
      ensures output == old(output) + text
    {
      output := output + text;
    }

    method IdentifierPrintOrExpand()
      requires Valid()
      modifies this`output, this`counter
      ensures output == old(output) + Expansion(Held(), old(counter))
      ensures counter == old(counter) + if Held() == INCREMENT then 1 else 0
    {
      var text := name[..length];
      if text == ITEM_NAME {
        Print("pcut_item_" + Decimal(counter));
      } else if text == ITEM_NAME_PREV {
        Print("pcut_item_" + Decimal(counter - 1));
      } else if text == INCREMENT {
        counter := counter + 1;
      } else if text == ITEM2_NAME {
        Print("pcut_item2_" + Decimal(counter));
      } else if text == ITEM3_NAME {
        Print("pcut_item3_" + Decimal(counter));
      } else {
        Print(text);
      }
    }

    /** The program has handled the complete tokens and holds the open identifier. */
    ghost predicate At(st: Scan, inside: bool)
      reads this, name
    {
      && Valid() && inside == (st.word != "") && (inside ==> Held() == st.word)
      && Written(st.tokens)
    }

    /** All of these tokens are written, none of them is too long. */
    ghost predicate Written(ts: seq<Token>)
      reads this
    {
      && output == Expanded(ts, |ts|) && counter == Counter(ts, |ts|)
      && forall i :: 0 <= i < |ts| ==> !TooLong(ts[i])
    }

    /** The end of an identifier. */
    method CloseIdentifier(inside: bool, ghost st: Scan)
      requires At(st, inside)
      modifies this`output, this`counter
      ensures Valid() && Written(Closed(st))
    {
      if inside {
        ExpandedSnoc(st.tokens, Word(st.word));
        IdentifierPrintOrExpand();
      }
    }

    /** One character. */
    method Character(c: char, inside: bool, ghost st: Scan) returns (added: bool, nowInside: bool)
      requires At(st, inside)
      modifies this, name
      ensures added ==> At(Next(st, c), nowInside) == true
      ensures !added ==> IsIdentifierChar(c, inside) && |Next(st, c).word| >= MAX_IDENTIFIER_LENGTH && Written(st.tokens)
    {
      if IsIdentifierChar(c, inside) {
        if !inside {
          IdentifierInit();
        }
        added := IdentifierAddChar(c);
        nowInside := true;
      } else {
        CloseIdentifier(inside, st);
        ExpandedSnoc(Closed(st), Other(c));
        Print([c]);
        added, nowInside := true, false;
      }
    }

    /** The character at `i`; without room for it the run is over. */
    method Step(input: string, i: nat, inside: bool, ghost st: Scan) returns (added: bool, nowInside: bool)
      requires i < |input| && st == Scanned(input, i) && At(st, inside) == true
      modifies this, name
      ensures added ==> At(Next(st, input[i]), nowInside) == true
      ensures !added ==> Refines(input, output, 1) == true
    {
      added, nowInside := Character(input[i], inside, st);
      if !added {
        Aborted(input, i, st, output);
      }
    }

    /** The main loop. */
    method Run(input: string) returns (code: int)
      requires Valid() && counter == 0 && output == ""
      modifies this, name
      ensures Refines(input, output, code) == true
    {
      var inside := false;
      ghost var st := Scan([], "");
      var i := 0;
      while i < |input|
        invariant i <= |input| && st == Scanned(input, i)
        invariant At(st, inside) == true
      {
        var added;
        added, inside := Step(input, i, inside, st);
        if !added {
          return 1;
        }
        i, st := i + 1, Next(st, input[i]);
      }
      Finish(input, inside, st);
      code := 0;
    }

    /** The end of the input. */
    method Finish(ghost input: string, inside: bool, ghost st: Scan)
      requires At(st, inside) == true && st == Scanned(input, |input|)
      modifies this`output, this`counter
      ensures Refines(input, output, 0) == true
    {
      CloseIdentifier(inside, st);
      Print([LF]);
      Finished(input, output);
    }
  }

  lemma AbortedAt(st: Scan, ts: seq<Token>, k: nat, output: string)
    requires Begins(st, ts) && IsEnd(ts, k) && |st.word| >= MAX_IDENTIFIER_LENGTH
    requires output == Expanded(st.tokens, |st.tokens|) && forall j :: 0 <= j < |st.tokens| ==> !TooLong(st.tokens[j])
    ensures EndsAt(ts, k, output, 1) == true
  {
    EndAtLong(st, ts, k);
  }

  lemma AbortedScan(input: string, n: nat, st: Scan, output: string)
    requires n <= |input| && st == Scanned(input, n) && |st.word| >= MAX_IDENTIFIER_LENGTH
    requires output == Expanded(st.tokens, |st.tokens|) && forall j :: 0 <= j < |st.tokens| ==> !TooLong(st.tokens[j])
    ensures Refines(input, output, 1) == true
  {
    forall ts, k | IsSplit(input, ts) && IsEnd(ts, k) ensures EndsAt(ts, k, output, 1) == true {
      SplitBegins(input, n, ts);
      AbortedAt(st, ts, k, output);
    }
  }

  /** The identifier that the character at `i` would make too long. */
  lemma Aborted(input: string, i: nat, st: Scan, output: string)
    requires i < |input| && st == Scanned(input, i) && output == Expanded(st.tokens, |st.tokens|)
    requires IsIdentifierChar(input[i], st.word != "") && |Next(st, input[i]).word| >= MAX_IDENTIFIER_LENGTH
    requires forall k :: 0 <= k < |st.tokens| ==> !TooLong(st.tokens[k])
    ensures Refines(input, output, 1) == true
  {
    AbortedScan(input, i + 1, Next(st, input[i]), output);
  }

  lemma Finished(input: string, output: string)
    requires var ts := Split(input);
             output == Expanded(ts, |ts|) + [LF] && forall k :: 0 <= k < |ts| ==> !TooLong(ts[k])
    ensures Refines(input, output, 0)
  {
    forall ts, k | IsSplit(input, ts) && IsEnd(ts, k)
      ensures EndsAt(ts, k, output, 0)
    {
      SplitIsSplit(input);
      SplitUnique(input, ts, Split(input));
    }
  }

  // -------------------------------------------------- what the output looks like

  /** What the token at `i` is printed as. */
  function ShownAt(ts: seq<Token>, i: nat): string
    requires i < |ts|
  {
    Shown(ts[i], Counter(ts, i))
  }

  lemma {:induction false} EndExists(ts: seq<Token>, n: nat) returns (k: nat)
    requires n <= |ts| && forall i :: 0 <= i < n ==> !TooLong(ts[i])
    ensures IsEnd(ts, k)
    decreases |ts| - n
  {
    k := n;
    if n < |ts| && !TooLong(ts[n]) {
      k := EndExists(ts, n + 1);
    }
  }

  /** What is written before and after the first `n` tokens. */
  lemma {:induction false} Longer(ts: seq<Token>, n: nat, m: nat)
    requires n <= m <= |ts|
    ensures Joined(ts, n) <= Joined(ts, m) && Expanded(ts, n) <= Expanded(ts, m)
    decreases m
  {
    if n < m {
      Longer(ts, n, m - 1);
    }
  }

  predicate IsPlain(t: Token) {
    t.Word? ==> !IsMacro(t.name)
  }

  lemma {:induction false} PlainPrefix(ts: seq<Token>, n: nat)
    requires n <= |ts| && forall i :: 0 <= i < n ==> IsPlain(ts[i])
    ensures Expanded(ts, n) == Joined(ts, n)
  {
    if n > 0 {
      PlainPrefix(ts, n - 1);
    }
  }

  /** The first character of the token at `k`, before and after expansion. */
  lemma FirstCharacter(ts: seq<Token>, k: nat)
    requires k < |ts|
    ensures TextOfToken(ts[k]) != "" ==>
      var at := |Joined(ts, k)|; at < |Joined(ts, |ts|)| && Joined(ts, |ts|)[at] == TextOfToken(ts[k])[0]
    ensures ShownAt(ts, k) != "" ==>
      var at := |Expanded(ts, k)|; at < |Expanded(ts, |ts|)| && Expanded(ts, |ts|)[at] == ShownAt(ts, k)[0]
  {
    Longer(ts, k + 1, |ts|);
    var joined, expanded := Joined(ts, k + 1), Expanded(ts, k + 1);
    assert joined == Joined(ts, k) + TextOfToken(ts[k]) && expanded == Expanded(ts, k) + ShownAt(ts, k);
  }

  lemma MacroStarts(w: string, n: int)
    requires IsMacro(w)
    ensures w != "" && w[0] == 'P' && (w != INCREMENT ==> Expansion(w, n) != "" && Expansion(w, n)[0] == 'p')
  {
  }

  lemma DifferAt(out: string, text: string, at: nat)
    requires at < |text| && text[at] == 'P' && at <= |out| && (at < |out| ==> out[at] != 'P')
    ensures out + [LF] != text + [LF]
  {
    assert (text + [LF])[at] == 'P' && (out + [LF])[at] != 'P';
  }

  /** An increment prints nothing. */
  lemma IncrementSilent(ts: seq<Token>, k: nat)
    requires k < |ts| && ts[k] == Word(INCREMENT)
    ensures Expanded(ts, k + 1) == Expanded(ts, k)
  {
  }

  /** What follows an identifier is printed as it is, and is no identifier character. */
  lemma BehindWord(ts: seq<Token>, k: nat)
    requires k + 1 < |ts| && ts[k].Word? && Maximal(ts)
    ensures ShownAt(ts, k + 1) != "" && ShownAt(ts, k + 1)[0] != 'P'
  {
    assert ts[k + 1].Other?;
  }

  /** Where an increment stood, the output goes on with what followed it. */
  lemma IncrementGone(ts: seq<Token>, k: nat)
    requires k < |ts| && ts[k] == Word(INCREMENT) && Maximal(ts)
    ensures var at, out := |Expanded(ts, k)|, Expanded(ts, |ts|); at <= |out| && (at < |out| ==> out[at] != 'P')
  {
    IncrementSilent(ts, k);
    if k + 1 < |ts| {
      BehindWord(ts, k);
      FirstCharacter(ts, k + 1);
    }
  }

  /** Where a macro stood, the output goes on with another character. */
  lemma MacroGone(ts: seq<Token>, k: nat)
    requires k < |ts| && ts[k].Word? && IsMacro(ts[k].name) && Maximal(ts)
    ensures var at, out := |Expanded(ts, k)|, Expanded(ts, |ts|); at <= |out| && (at < |out| ==> out[at] != 'P')
  {
    if ts[k].name == INCREMENT {
      IncrementGone(ts, k);
    } else {
      MacroStarts(ts[k].name, Counter(ts, k));
      FirstCharacter(ts, k);
    }
  }

  /** The first macro shows: the outputs differ at its first character. */
  lemma MacroShows(ts: seq<Token>, k: nat)
    requires k < |ts| && !IsPlain(ts[k]) && Maximal(ts) && forall i :: 0 <= i < k ==> IsPlain(ts[i])
    ensures Expanded(ts, |ts|) + [LF] != Joined(ts, |ts|) + [LF]
  {
    PlainPrefix(ts, k);
    MacroStarts(ts[k].name, 0);
    FirstCharacter(ts, k);
    MacroGone(ts, k);
    DifferAt(Expanded(ts, |ts|), Joined(ts, |ts|), |Joined(ts, k)|);
  }

  /** The text comes out as it is, with one LF behind it, if and only if it has no
      macro and no identifier of 256 characters or more. */
  lemma VerbatimIffPlain(input: string, output: string, code: int)
    requires Refines(input, output, code)
    ensures output == input + [LF] && code == 0
       <==> forall i :: 0 <= i < |Split(input)| ==>
              IsPlain(Split(input)[i]) && (Split(input)[i].Word? ==> |Split(input)[i].name| < 256)
  {
    var ts := Split(input);
    SplitIsSplit(input);
    var k := EndExists(ts, 0);
    assert EndsAt(ts, k, output, code);
    if k == |ts| {
      FirstMacro(ts, 0);
    }
  }

  lemma {:induction false} FirstMacro(ts: seq<Token>, k: nat)
    requires Maximal(ts) && k <= |ts| && forall i :: 0 <= i < k ==> IsPlain(ts[i])
    ensures Expanded(ts, |ts|) + [LF] == Joined(ts, |ts|) + [LF] <==> forall i :: k <= i < |ts| ==> IsPlain(ts[i])
    decreases |ts| - k
  {
    if k == |ts| {
      PlainPrefix(ts, |ts|);
    } else if IsPlain(ts[k]) {
      FirstMacro(ts, k + 1);
    } else {
      MacroShows(ts, k);
    }
  }

  // --------------------------------------------------------- generated names

  function NameOf(f: Family): string {
    match f
    case First => ITEM_NAME
    case Second => ITEM2_NAME
    case Third => ITEM3_NAME
  }

  /** Names of different families never collide, nor do those of different numbers. */
  lemma GeneratedInjective(f: Family, m: int, g: Family, n: int)
    ensures Generated(f, m) == Generated(g, n) <==> f == g && m == n
  {
    var a, b := Generated(f, m), Generated(g, n);
    assert a[|Stem(f)|..] == Decimal(m) && b[|Stem(g)|..] == Decimal(n);
    if a == b {
      assert Stem(f)[9] == a[9] == b[9] == Stem(g)[9];
      DecimalInjective(m, n);
    }
  }

  /** No increment from `i` up to `j`. */
  ghost predicate Still(ts: seq<Token>, i: nat, j: nat)
    requires j <= |ts|
  {
    forall m :: i <= m < j ==> ts[m] != Word(INCREMENT)
  }

  lemma {:induction false} CounterBetween(ts: seq<Token>, i: nat, j: nat)
    requires i <= j <= |ts|
    ensures Counter(ts, i) <= Counter(ts, j) && (Counter(ts, i) == Counter(ts, j) <==> Still(ts, i, j))
    decreases j
  {
    if i < j {
      CounterBetween(ts, i, j - 1);
    }
  }

  /** Fresh names: two generated names are the same if and only if they belong to the
      same family and there is no increment between them. */
  lemma FreshNames(ts: seq<Token>, i: nat, j: nat, f: Family, g: Family)
    requires i <= j < |ts| && ts[i] == Word(NameOf(f)) && ts[j] == Word(NameOf(g))
    ensures ShownAt(ts, i) == ShownAt(ts, j) <==> f == g && Still(ts, i, j)
  {
    CounterBetween(ts, i, j);
    GeneratedInjective(f, Counter(ts, i), g, Counter(ts, j));
  }

  /** Exactly one increment from `i` up to `j`, at `m`. */
  ghost predicate OneStep(ts: seq<Token>, i: nat, m: nat, j: nat)
    requires j <= |ts|
  {
    i <= m < j && ts[m] == Word(INCREMENT) && Still(ts, i, m) && Still(ts, m + 1, j)
  }

  lemma {:induction false} FirstIncrement(ts: seq<Token>, i: nat, j: nat) returns (m: nat)
    requires i <= j <= |ts| && !Still(ts, i, j)
    ensures i <= m < j && ts[m] == Word(INCREMENT) && Still(ts, i, m)
    decreases j - i
  {
    m := i;
    if ts[i] != Word(INCREMENT) {
      m := FirstIncrement(ts, i + 1, j);
    }
  }

  lemma StepCounts(ts: seq<Token>, i: nat, m: nat, j: nat)
    requires j <= |ts| && OneStep(ts, i, m, j)
    ensures Counter(ts, j) == Counter(ts, i) + 1
  {
    CounterBetween(ts, i, m);
    CounterBetween(ts, m + 1, j);
  }

  lemma FindStep(ts: seq<Token>, i: nat, j: nat) returns (m: nat)
    requires i <= j <= |ts| && Counter(ts, j) == Counter(ts, i) + 1
    ensures OneStep(ts, i, m, j)
  {
    CounterBetween(ts, i, j);
    m := FirstIncrement(ts, i, j);
    CounterBetween(ts, i, m);
    CounterBetween(ts, m + 1, j);
  }

  /** The counter advances by one if and only if there is exactly one increment. */
  lemma StepIffNext(ts: seq<Token>, i: nat, j: nat)
    requires i <= j <= |ts|
    ensures (exists m: nat :: OneStep(ts, i, m, j)) == (Counter(ts, j) == Counter(ts, i) + 1)
  {
    if Counter(ts, j) == Counter(ts, i) + 1 {
      var m := FindStep(ts, i, j);
    } else if m: nat :| OneStep(ts, i, m, j) {
      StepCounts(ts, i, m, j);
    }
  }

  /** Chaining: the previous-name macro prints a name that was generated before if and
      only if that name was in force just before the one increment since. */
  lemma PreviousName(ts: seq<Token>, i: nat, j: nat)
    requires i < j < |ts| && ts[i] == Word(ITEM_NAME) && ts[j] == Word(ITEM_NAME_PREV)
    ensures ShownAt(ts, j) == ShownAt(ts, i) <==> exists m: nat :: OneStep(ts, i, m, j)
  {
    GeneratedInjective(First, Counter(ts, i), First, Counter(ts, j) - 1);
    StepIffNext(ts, i, j);
  }

  // -------------------------------------------------------- finding the macros

  /** What an identifier consists of. */
  predicate WordChar(c: char) {
    'a' <= c <= 'z' || 'A' <= c <= 'Z' || '0' <= c <= '9' || c == '_'
  }

  predicate EndsInWord(ts: seq<Token>) {
    ts != [] && ts[|ts| - 1].Word?
  }

  lemma {:induction false} JoinedBehind(ts: seq<Token>, us: seq<Token>, n: nat)
    requires n <= |us|
    ensures Joined(ts + us, |ts| + n) == Joined(ts, |ts|) + Joined(us, n)
  {
    if n == 0 {
      JoinedPrefix(ts, us, |ts|);
    } else {
      JoinedBehind(ts, us, n - 1);
      assert (ts + us)[|ts| + n - 1] == us[n - 1];
      Associated(Joined(ts, |ts|), Joined(us, n - 1), TextOfToken(us[n - 1]));
    }
  }

  /** A token that would go on with an identifier behind it. */
  predicate BeginsInWord(us: seq<Token>) {
    us != [] && WordChar(FirstCharOf(us))
  }

  function FirstCharOf(us: seq<Token>): char
    requires us != []
  {
    if us[0].Other? then us[0].c else if us[0].name == "" then '_' else us[0].name[0]
  }

  /** Where the tokens of two splits stand behind each other. */
  lemma TokensJoined(ts: seq<Token>, us: seq<Token>)
    ensures forall i :: 0 <= i < |ts| ==> (ts + us)[i] == ts[i]
    ensures forall i :: |ts| <= i < |ts + us| ==> (ts + us)[i] == us[i - |ts|]
  {
  }

  lemma MaximalBroken(ts: seq<Token>, us: seq<Token>)
    requires Maximal(ts + us) && EndsInWord(ts) && us != [] && IsToken(us[0])
    ensures !BeginsInWord(us)
  {
    TokensJoined(ts, us);
    var i := |ts| - 1;
    assert (ts + us)[i].Word? && (ts + us)[i + 1] == us[0];
  }

  lemma MaximalKept(ts: seq<Token>, us: seq<Token>)
    requires Maximal(ts) && Maximal(us) && (us != [] ==> IsToken(us[0])) && (!EndsInWord(ts) || !BeginsInWord(us))
    ensures Maximal(ts + us)
  {
    TokensJoined(ts, us);
    forall i | 0 <= i < |ts + us| - 1 && (ts + us)[i].Word?
      ensures (ts + us)[i + 1].Other? && !IsIdentifierChar((ts + us)[i + 1].c, true)
    {
      if i >= |ts| {
        assert us[i - |ts|].Word? && (ts + us)[i + 1] == us[i - |ts| + 1];
      } else if i == |ts| - 1 {
        assert EndsInWord(ts) && (ts + us)[i + 1] == us[0];
      } else {
        assert ts[i].Word? && (ts + us)[i + 1] == ts[i + 1];
      }
    }
  }

  lemma MaximalJoined(ts: seq<Token>, us: seq<Token>)
    requires Maximal(ts) && Maximal(us) && forall i :: 0 <= i < |us| ==> IsToken(us[i])
    ensures Maximal(ts + us) <==> !EndsInWord(ts) || !BeginsInWord(us)
  {
    if Maximal(ts + us) && EndsInWord(ts) && us != [] {
      MaximalBroken(ts, us);
    }
    if !EndsInWord(ts) || !BeginsInWord(us) {
      MaximalKept(ts, us);
    }
  }

  lemma FirstOfSplit(t: string, us: seq<Token>)
    requires IsSplit(t, us)
    ensures BeginsInWord(us) <==> t != "" && WordChar(t[0])
  {
    if us != [] {
      FirstToken(t, us);
      assert TextOfToken(us[0])[0] == t[0];
    }
  }

  /** Two splits make up a split, unless the first one ends with an identifier that could
      go on. */
  lemma SplitsJoined(s: string, ts: seq<Token>, t: string, us: seq<Token>)
    requires IsSplit(s, ts) && IsSplit(t, us)
    ensures IsSplit(s + t, ts + us) <==> !EndsInWord(ts) || !BeginsInWord(us)
  {
    JoinedBehind(ts, us, |us|);
    MaximalJoined(ts, us);
  }

  lemma WordIsSplit(w: string)
    requires w != "" && !('0' <= w[0] <= '9') && forall i :: 0 <= i < |w| ==> WordChar(w[i])
    ensures IsSplit(w, [Word(w)])
  {
    JoinedSnoc([], Word(w));
    assert [] + [Word(w)] == [Word(w)];
  }

  lemma ThreeSplits(a: string, ts: seq<Token>, w: string, b: string, us: seq<Token>)
    requires IsSplit(a, ts) && IsSplit(b, us) && IsSplit(w, [Word(w)]) && w != "" && WordChar(w[0])
    ensures IsSplit(a + w + b, ts + [Word(w)] + us) <==> !EndsInWord(ts) && !BeginsInWord(us)
  {
    SplitsJoined(a, ts, w, [Word(w)]);
    FirstOfSplit(w, [Word(w)]);
    if EndsInWord(ts) {
      var all := ts + [Word(w)] + us;
      assert all[|ts| - 1] == ts[|ts| - 1] && all[|ts|] == Word(w);
    } else {
      SplitsJoined(a + w, ts + [Word(w)], b, us);
    }
  }

  /** What is not a split of the text is not what scanning yields. */
  lemma SplitDecides(s: string, ts: seq<Token>)
    ensures IsSplit(s, ts) <==> Split(s) == ts
  {
    SplitIsSplit(s);
    if IsSplit(s, ts) {
      SplitUnique(s, ts, Split(s));
    }
  }

  /** Identifiers are found: a word is a token of its own if and only if no identifier is
      open before it and none goes on behind it. */
  lemma WordFound(a: string, w: string, b: string)
    requires w != "" && !('0' <= w[0] <= '9') && forall i :: 0 <= i < |w| ==> WordChar(w[i])
    ensures Split(a + w + b) == Split(a) + [Word(w)] + Split(b)
       <==> !EndsInWord(Split(a)) && (b == "" || !WordChar(b[0]))
  {
    SplitIsSplit(a);
    SplitIsSplit(b);
    WordIsSplit(w);
    FirstOfSplit(b, Split(b));
    ThreeSplits(a, Split(a), w, b, Split(b));
    SplitDecides(a + w + b, Split(a) + [Word(w)] + Split(b));
  }

  /** An identifier is open at the end only behind an identifier character. */
  lemma LastOfWord(s: string)
    requires EndsInWord(Split(s))
    ensures s != "" && WordChar(s[|s| - 1])
  {
    SplitIsSplit(s);
    var ts := Split(s);
    var w := ts[|ts| - 1].name;
    assert Joined(ts, |ts|) == Joined(ts, |ts| - 1) + w;
    assert w[|w| - 1] == s[|s| - 1];
  }

  /** What a macro stands for when there are `n` increments before it. */
  function TextOfMacro(w: string, n: int): string {
    if w == "PCUT_ITEM_NAME" then "pcut_item_" + Decimal(n)
    else if w == "PCUT_ITEM_NAME_PREV" then "pcut_item_" + Decimal(n - 1)
    else if w == "PCUT_ITEM2_NAME" then "pcut_item2_" + Decimal(n)
    else if w == "PCUT_ITEM3_NAME" then "pcut_item3_" + Decimal(n)
    else ""
  }

  /** Every macro that stands alone is expanded: behind the expansion of what stands before
      it there is the text that it stands for. */
  lemma MacroExpanded(a: string, w: string, b: string, output: string, code: int)
    requires w in ["PCUT_ITEM_NAME", "PCUT_ITEM_NAME_PREV", "PCUT_ITEM_COUNTER_INCREMENT",
                   "PCUT_ITEM2_NAME", "PCUT_ITEM3_NAME"]
    requires (a == "" || !WordChar(a[|a| - 1])) && (b == "" || !WordChar(b[0]))
    requires forall i :: 0 <= i < |Split(a)| ==> !TooLong(Split(a)[i])
    requires Refines(a + w + b, output, code)
    ensures var before, all := Split(a), Split(a + w + b);
            && all == before + [Word(w)] + Split(b)
            && Expanded(before, |before|) + TextOfMacro(w, Counter(before, |before|)) <= output
            && Counter(all, |before| + 1)
               == Counter(before, |before|) + if w == "PCUT_ITEM_COUNTER_INCREMENT" then 1 else 0
  {
    MacroIsWord(w, Counter(Split(a), |Split(a)|));
    if EndsInWord(Split(a)) {
      LastOfWord(a);
    }
    WordFound(a, w, b);
    SplitIsSplit(a + w + b);
    Reached(a + w + b, Split(a), Word(w), Split(b), output, code);
  }

  lemma MacroIsWord(w: string, n: int)
    requires w in ["PCUT_ITEM_NAME", "PCUT_ITEM_NAME_PREV", "PCUT_ITEM_COUNTER_INCREMENT",
                   "PCUT_ITEM2_NAME", "PCUT_ITEM3_NAME"]
    ensures w != "" && !('0' <= w[0] <= '9') && forall i :: 0 <= i < |w| ==> WordChar(w[i])
    ensures !TooLong(Word(w)) && Shown(Word(w), n) == TextOfMacro(w, n)
    ensures Word(w) == Word(INCREMENT) <==> w == "PCUT_ITEM_COUNTER_INCREMENT"
  {
  }

  /** What the run writes up to the first `n` tokens, when none of them is too long. */
  lemma WrittenUpTo(input: string, ts: seq<Token>, n: nat, output: string, code: int)
    requires IsSplit(input, ts) && Refines(input, output, code)
    requires n <= |ts| && forall i :: 0 <= i < n ==> !TooLong(ts[i])
    ensures Expanded(ts, n) <= output
  {
    var k := EndBehind(ts, n);
    assert EndsAt(ts, k, output, code);
    Longer(ts, n, k);
  }

  lemma Reached(input: string, ts: seq<Token>, t: Token, us: seq<Token>, output: string, code: int)
    requires IsSplit(input, ts + [t] + us) && Refines(input, output, code)
    requires !TooLong(t) && forall i :: 0 <= i < |ts| ==> !TooLong(ts[i])
    ensures Expanded(ts, |ts|) + Shown(t, Counter(ts, |ts|)) <= output
    ensures Counter(ts + [t] + us, |ts| + 1) == Counter(ts, |ts|) + if t == Word(INCREMENT) then 1 else 0
  {
    ExpandedAt(ts, t, us);
    assert (ts + [t] + us)[|ts|] == t;
    WrittenUpTo(input, ts + [t] + us, |ts| + 1, output, code);
  }

  lemma ExpandedAt(ts: seq<Token>, t: Token, us: seq<Token>)
    ensures var all := ts + [t] + us;
            && Expanded(all, |ts| + 1) == Expanded(ts, |ts|) + Shown(t, Counter(ts, |ts|))
            && Counter(all, |ts| + 1) == Counter(ts, |ts|) + (if t == Word(INCREMENT) then 1 else 0)
            && forall i :: 0 <= i < |ts| ==> all[i] == ts[i]
  {
    ExpandedSnoc(ts, t);
    ExpandedPrefix(ts + [t], us, |ts| + 1);
  }

  lemma EndBehind(ts: seq<Token>, n: nat) returns (k: nat)
    requires n <= |ts| && forall i :: 0 <= i < n ==> !TooLong(ts[i])
    ensures IsEnd(ts, k) && k >= n
  {
    k := EndExists(ts, n);
  }
}
