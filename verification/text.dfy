/** Text as PCUT handles it: bytes, NUL-terminated strings, decimal numbers and
    the splitting of a message into report lines.

    A byte is a `char`; a C string is the part of a byte sequence before its
    first NUL. */
module Text {

  datatype Option<+T> = None | Some(value: T)

  const NUL: char := '\0'
  const LF: char := '\n'

  lemma Associated<T>(a: seq<T>, b: seq<T>, c: seq<T>)
    ensures (a + b) + c == a + (b + c)
  {
  }

  lemma BehindNothing<T>(s: seq<T>)
    ensures [] + s == s
  {
  }

  predicate NulFree(s: string) {
    NUL !in s
  }

  /** `k` is the index of the first `c` in `s`, or `|s|` when there is none. */
  ghost predicate IsFirst(s: string, c: char, k: nat) {
    && k <= |s| && (k < |s| ==> s[k] == c)
    && forall i :: 0 <= i < k ==> s[i] != c
  }

  lemma {:induction false} FirstExists(s: string, c: char)
    ensures exists k: nat :: IsFirst(s, c, k)
  {
    if s == [] || s[0] == c {
      assert IsFirst(s, c, 0);
    } else {
      FirstExists(s[1..], c);
      var k: nat :| IsFirst(s[1..], c, k);
      assert forall i :: 0 < i < k + 1 ==> s[i] == s[1..][i - 1];
      assert IsFirst(s, c, k + 1);
    }
  }

  /** The index of the first `c` in `s`, or `|s|` (strchr, strlen). */
  ghost function IndexOf(s: string, c: char): (k: nat)
    ensures IsFirst(s, c, k)
  {
    FirstExists(s, c);
    var k: nat :| IsFirst(s, c, k);
    k
  }

  /** The C string that starts at the beginning of `s`. */
  ghost function CString(s: string): string {
    s[..IndexOf(s, NUL)]
  }

  lemma IndexOfUnique(s: string, c: char, k: nat)
    requires IsFirst(s, c, k)
    ensures IndexOf(s, c) == k
  {
    var i := IndexOf(s, c);
    if i < k || k < i {
      assert false;
    }
  }

  /** What a bounded copy of `s` into `limit` bytes keeps. */
  function Take(s: string, limit: nat): string {
    if |s| <= limit then s else s[..limit]
  }

  // ---------------------------------------------------------------- decimal

  function Digit(d: nat): (c: char)
    requires d < 10
    ensures '0' <= c <= '9'
  {
    '0' + d as char
  }

  function DigitValue(c: char): (d: nat)
    requires '0' <= c <= '9'
    ensures d < 10 && Digit(d) == c
  {
    (c - '0') as nat
  }

  predicate IsDigit(c: char) {
    '0' <= c <= '9'
  }

  predicate AllDigits(s: string) {
    forall i :: 0 <= i < |s| ==> IsDigit(s[i])
  }

  /** The digits printed for a natural number. */
  function Digits(n: nat): (s: string)
    ensures s != [] && AllDigits(s)
  {
    if n < 10 then [Digit(n)] else Digits(n / 10) + [Digit(n % 10)]
  }

  /** What `%d` prints. */
  function Decimal(n: int): (s: string)
    ensures s != []
  {
    if n < 0 then "-" + Digits(-n) else Digits(n)
  }

  /** The value of the longest digit prefix of `s`, continuing from `acc`. */
  function DigitsValue(s: string, acc: nat): nat {
    if s == [] || !IsDigit(s[0]) then acc
    else DigitsValue(s[1..], 10 * acc + DigitValue(s[0]))
  }

  predicate IsSpace(c: char) {
    c == ' ' || '\t' <= c <= '\r'
  }

  /** atoi: leading white space, an optional sign, a digit prefix. */
  function Atoi(s: string): int {
    if s == [] then 0
    else if IsSpace(s[0]) then Atoi(s[1..])
    else if s[0] == '-' then 0 - DigitsValue(s[1..], 0)
    else if s[0] == '+' then DigitsValue(s[1..], 0)
    else DigitsValue(s, 0)
  }

  lemma {:induction false} DigitsValueSnoc(s: string, c: char, acc: nat)
    requires AllDigits(s) && IsDigit(c)
    ensures DigitsValue(s + [c], acc) == 10 * DigitsValue(s, acc) + DigitValue(c)
  {
    if s == [] {
      assert [c][1..] == [];
    } else {
      assert (s + [c])[1..] == s[1..] + [c];
      DigitsValueSnoc(s[1..], c, 10 * acc + DigitValue(s[0]));
    }
  }

  lemma {:induction false} DigitsRoundTrip(n: nat)
    ensures DigitsValue(Digits(n), 0) == n
  {
    if n < 10 {
      assert Digits(n)[1..] == [];
    } else {
      DigitsRoundTrip(n / 10);
      DigitsValueSnoc(Digits(n / 10), Digit(n % 10), 0);
    }
  }

  /** Digits stop at the first character that is none. */
  lemma {:induction false} DigitsStop(s: string, rest: string, acc: nat)
    requires AllDigits(s) && (rest != "" ==> !('0' <= rest[0] <= '9'))
    ensures DigitsValue(s + rest, acc) == DigitsValue(s, acc)
  {
    if s == "" {
      assert "" + rest == rest;
    } else {
      assert (s + rest)[1..] == s[1..] + rest;
      DigitsStop(s[1..], rest, acc * 10 + DigitValue(s[0]));
    }
  }

  lemma SignRead(sign: string, n: nat, rest: string)
    requires sign in ["", "+", "-"] && (rest != "" ==> !('0' <= rest[0] <= '9'))
    ensures Atoi(sign + (Digits(n) + rest)) == if sign == "-" then 0 - n else n
  {
    DigitsStop(Digits(n), rest, 0);
    DigitsRoundTrip(n);
    var all := sign + (Digits(n) + rest);
    assert sign == "" ==> all == Digits(n) + rest;
    assert sign != "" ==> all[1..] == Digits(n) + rest;
  }

  /** Reading a number: white space, a sign, digits, and anything behind them. */
  lemma {:induction false} AtoiReads(space: string, sign: string, n: nat, rest: string)
    requires forall i :: 0 <= i < |space| ==> space[i] in " \t\n\U{0B}\U{0C}\r"
    requires sign in ["", "+", "-"] && (rest != "" ==> !('0' <= rest[0] <= '9'))
    ensures Atoi(space + (sign + (Digits(n) + rest))) == if sign == "-" then 0 - n else n
  {
    var text := sign + (Digits(n) + rest);
    if space == "" {
      assert "" + text == text;
      SignRead(sign, n, rest);
    } else {
      assert (space + text)[1..] == space[1..] + text;
      AtoiReads(space[1..], sign, n, rest);
    }
  }

  /** Numbers are printed in base ten, the last digit last, with a minus if negative. */
  lemma DecimalPlaces(n: nat, d: nat)
    requires d < 10
    ensures Decimal(d) == ["0123456789"[d]]
    ensures n > 0 ==> Decimal(10 * n + d) == Decimal(n) + ["0123456789"[d]]
    ensures n > 0 ==> Decimal(0 - n as int) == "-" + Decimal(n)
  {
    assert (10 * n + d) / 10 == n && (10 * n + d) % 10 == d;
  }

  /** Reading back a printed number gives the number. */
  lemma AtoiOfDecimal(n: int)
    ensures Atoi(Decimal(n)) == n
  {
    if n < 0 {
      DigitsRoundTrip(-n);
      assert Decimal(n)[1..] == Digits(-n);
    } else {
      DigitsRoundTrip(n);
    }
  }

  /** Printing is injective, for every pair of numbers. */
  lemma DecimalInjective(m: int, n: int)
    ensures Decimal(m) == Decimal(n) <==> m == n
  {
    AtoiOfDecimal(m);
    AtoiOfDecimal(n);
  }

  // ------------------------------------------------------------------ lines

  /** The lines that a message is reported in: it is cut at every LF, and a
      last piece without LF is a line only when it is not empty. */
  ghost function Lines(m: string): (ls: seq<string>)
    decreases |m|
  {
    if m == [] then []
    else
      var k := IndexOf(m, LF);
      if k == |m| then [m] else [m[..k]] + Lines(m[k + 1..])
  }

  /** Every line followed by its LF. */
  function Unlines(ls: seq<string>): string {
    if ls == [] then [] else ls[0] + [LF] + Unlines(ls[1..])
  }

  predicate NoLf(ls: seq<string>) {
    forall i :: 0 <= i < |ls| ==> LF !in ls[i]
  }

  predicate EndsInLf(m: string) {
    m != [] && m[|m| - 1] == LF
  }

  /** `m` with an LF added when a last line lacks it. */
  function Completed(m: string): string {
    if m == [] || EndsInLf(m) then m else m + [LF]
  }

  lemma CompletedSplit(m: string, k: nat)
    requires k < |m| && m[k] == LF
    ensures Completed(m) == m[..k] + [LF] + Completed(m[k + 1..])
  {
    var rest := m[k + 1..];
    assert m == m[..k] + [LF] + rest;
    if rest != [] {
      assert m[|m| - 1] == rest[|rest| - 1];
    }
  }

  lemma UnlinesCons(line: string, ls: seq<string>)
    ensures Unlines([line] + ls) == line + [LF] + Unlines(ls)
  {
    assert ([line] + ls)[1..] == ls;
  }

  /** No byte of the message is lost or invented by the line split. */
  lemma {:induction false} LinesJoinBack(m: string)
    ensures NoLf(Lines(m))
    ensures Unlines(Lines(m)) == Completed(m)
    decreases |m|
  {
    if m != [] {
      var k := IndexOf(m, LF);
      if k == |m| {
        assert m[..k] == m;
        UnlinesCons(m, []);
      } else {
        LinesJoinBack(m[k + 1..]);
        UnlinesCons(m[..k], Lines(m[k + 1..]));
        CompletedSplit(m, k);
      }
    }
  }

  lemma UnlinesSplit(ls: seq<string>)
    requires NoLf(ls) && ls != []
    ensures var all := Unlines(ls); var k := |ls[0]|;
            && k < |all| && all[..k] == ls[0] && all[k] == LF
            && all[k + 1..] == Unlines(ls[1..]) && IndexOf(all, LF) == k
  {
    var all := Unlines(ls);
    var k := |ls[0]|;
    assert all[..k] == ls[0] && all[k] == LF;
    IndexOfUnique(all, LF, k);
  }

  lemma IndexOfAppend(m: string, c: char)
    ensures IndexOf(m + [c], c) == IndexOf(m, c)
  {
    var k := IndexOf(m, c);
    assert (m + [c])[..k] == m[..k];
    IndexOfUnique(m + [c], c, k);
  }

  /** How the first line of a joined text and the first line of `m` compare. */
  lemma FirstLine(ls: seq<string>, m: string)
    requires NoLf(ls) && ls != [] && Unlines(ls) == Completed(m)
    ensures m != [] && IndexOf(m, LF) == |ls[0]|
    ensures |ls[0]| == |m| ==> ls == [m]
    ensures |ls[0]| < |m| ==> m[..|ls[0]|] == ls[0] && Unlines(ls[1..]) == Completed(m[|ls[0]| + 1..])
  {
    var all := Unlines(ls);
    var k := |ls[0]|;
    UnlinesSplit(ls);
    IndexOfAppend(m, LF);
    assert IndexOf(m, LF) == k;
    if k == |m| {
      assert all == m + [LF];
      UnlinesEmpty(ls[1..]);
      assert m == all[..k];
    } else {
      CompletedSplit(m, k);
      assert m[..k] == all[..k];
    }
  }

  /** The two facts of LinesJoinBack leave no other way to split. */
  lemma {:induction false} LinesUnique(ls: seq<string>, m: string)
    requires NoLf(ls) && Unlines(ls) == Completed(m)
    ensures ls == Lines(m)
    decreases |ls|
  {
    if ls != [] {
      FirstLine(ls, m);
      if |ls[0]| < |m| {
        LinesUnique(ls[1..], m[|ls[0]| + 1..]);
        assert ls == [ls[0]] + ls[1..];
      }
    }
  }

  lemma UnlinesEmpty(ls: seq<string>)
    requires Unlines(ls) == []
    ensures ls == []
  {
  }

  lemma {:induction false} UnlinesConcat(a: seq<string>, b: seq<string>)
    ensures Unlines(a + b) == Unlines(a) + Unlines(b)
  {
    if a == [] {
      assert a + b == b;
    } else {
      UnlinesConcat(a[1..], b);
      assert a + b == [a[0]] + (a[1..] + b);
      UnlinesCons(a[0], a[1..] + b);
      assert Unlines(a) + Unlines(b) == a[0] + [LF] + (Unlines(a[1..]) + Unlines(b));
    }
  }

  lemma CompletedConcat(m: string, rest: string)
    requires m == [] || EndsInLf(m)
    ensures Completed(m + rest) == m + Completed(rest)
  {
    if rest == [] {
      assert m + rest == m;
    } else {
      assert (m + rest)[|m + rest| - 1] == rest[|rest| - 1];
      assert (m + rest) + [LF] == m + (rest + [LF]);
    }
  }

  /** A completed message and what follows it are reported one after the other. */
  lemma LinesConcat(m: string, rest: string)
    requires m == [] || EndsInLf(m)
    ensures Lines(m + rest) == Lines(m) + Lines(rest)
  {
    LinesJoinBack(m);
    LinesJoinBack(rest);
    UnlinesConcat(Lines(m), Lines(rest));
    CompletedConcat(m, rest);
    LinesUnique(Lines(m) + Lines(rest), m + rest);
  }

  /** Adding an LF changes the report of a message exactly when it has one already. */
  lemma LinesOfTerminated(m: string)
    requires m != []
    ensures EndsInLf(m) ==> Lines(m + [LF]) == Lines(m) + [""]
    ensures !EndsInLf(m) ==> Lines(m + [LF]) == Lines(m)
  {
    if EndsInLf(m) {
      LinesConcat(m, [LF]);
      assert Lines([LF]) == [""] by {
        assert [LF][..0] == "" && [LF][1..] == [];
      }
    } else {
      LinesJoinBack(m);
      assert EndsInLf(m + [LF]);
      LinesUnique(Lines(m), m + [LF]);
    }
  }
}
