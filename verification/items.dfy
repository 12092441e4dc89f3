/** The items that the PCUT macros declare, and the walks over a fixed list. */
module Items {
  import opened Text

  datatype Kind = Skip | Nested | Setup | Teardown | TestSuite | Test

  datatype Extra = TimeOut(seconds: int) | SkipTest | Last

  /** The identity of a callback function. */
  type Func = nat

  class Item {
    var previous: Item?
    var next: Item?
    var id: int
    var kind: Kind
    const name: string
    const testFunc: Func
    var setupFunc: Option<Func>
    var teardownFunc: Option<Func>
    const extras: seq<Extra>
    const nested: Item?

    /** The static initialiser of an item: linked backward only, no id yet. */
    constructor (previous: Item?, kind: Kind, name: string, testFunc: Func,
                 setupFunc: Option<Func>, teardownFunc: Option<Func>,
                 extras: seq<Extra>, nested: Item?)
      ensures this.previous == previous && next == null && id == -1 && this.kind == kind
      ensures this.name == name && this.testFunc == testFunc && this.extras == extras
      ensures this.setupFunc == setupFunc && this.teardownFunc == teardownFunc
      ensures this.nested == nested
    {
      this.previous, next, id, this.kind := previous, null, -1, kind;
      this.name, this.testFunc, this.extras, this.nested := name, testFunc, extras, nested;
      this.setupFunc, this.teardownFunc := setupFunc, teardownFunc;
    }
  }

  // ------------------------------------------------- the list, as a sequence

  /** No item occurs twice. */
  ghost predicate Unique(s: seq<Item>) {
    s != [] ==> s[|s| - 1] !in s[..|s| - 1] && Unique(s[..|s| - 1])
  }

  lemma {:induction false} UniqueIndices(s: seq<Item>)
    ensures Unique(s) <==> forall i, j :: 0 <= i < j < |s| ==> s[i] != s[j]
  {
    if s != [] {
      var n := |s| - 1;
      UniqueIndices(s[..n]);
      assert forall i :: 0 <= i < n ==> s[..n][i] == s[i];
    }
  }

  /** Neighbours in `s` point at each other. */
  ghost predicate Segment(s: seq<Item>)
    reads s`next, s`previous
  {
    && (forall i {:trigger s[i].next} :: 0 <= i < |s| - 1 ==> s[i].next == s[i + 1])
    && (forall i {:trigger s[i].previous} :: 0 < i < |s| ==> s[i].previous == s[i - 1])
  }

  ghost predicate Ended(s: seq<Item>)
    reads s`next
  {
    s != [] ==> s[|s| - 1].next == null
  }

  /** `s` is a whole doubly linked list, from head to tail. */
  ghost predicate DoublyLinked(s: seq<Item>)
    reads s`next, s`previous
  {
    s != [] && Segment(s) && s[0].previous == null && Ended(s)
  }

  /** The first item of a list. */
  function Head(s: seq<Item>): Item? {
    if s == [] then null else s[0]
  }

  /** The item itself, or nothing for NULL. */
  ghost function Only(x: Item?): set<Item> {
    if x == null then {} else {x}
  }

  /** The kinds that the items of `s` have right now. */
  ghost function Kinds(s: seq<Item>): (ks: seq<Kind>)
    reads s`kind
    ensures |ks| == |s|
    ensures forall i :: 0 <= i < |s| ==> ks[i] == s[i].kind
  {
    if s == [] then [] else Kinds(s[..|s| - 1]) + [s[|s| - 1].kind]
  }

  /** Which items a walk is after: all with actual content, or tests only. */
  datatype Choice = Content | OnlyTests

  predicate Fits(k: Kind, c: Choice) {
    if c == Content then k != Skip else k == Test
  }

  /** How many of the first `i` kinds are wanted. */
  function Rank(ks: seq<Kind>, i: nat, wanted: Choice): (n: nat)
    requires i <= |ks|
    ensures n <= i
  {
    if i == 0 then 0 else Rank(ks, i - 1, wanted) + if Fits(ks[i - 1], wanted) then 1 else 0
  }

  /** The indices before `n` of the items with content. */
  ghost function Visible(ks: seq<Kind>, n: nat): set<int>
    requires n <= |ks|
  {
    set i | 0 <= i < n && ks[i] != Skip
  }

  /** The indices before `n` of the tests. */
  ghost function Tests(ks: seq<Kind>, n: nat): set<int>
    requires n <= |ks|
  {
    set i | 0 <= i < n && ks[i] == Test
  }

  lemma OneMoreIndex(ks: seq<Kind>, n: nat)
    requires n < |ks|
    ensures |Visible(ks, n + 1)| == |Visible(ks, n)| + if ks[n] != Skip then 1 else 0
    ensures |Tests(ks, n + 1)| == |Tests(ks, n)| + if ks[n] == Test then 1 else 0
  {
    assert Visible(ks, n + 1) == Visible(ks, n) + if ks[n] != Skip then {n as int} else {};
    assert Tests(ks, n + 1) == Tests(ks, n) + if ks[n] == Test then {n as int} else {};
  }

  /** A rank is a number of items: those with content, or the tests. */
  lemma {:induction false} RankCounts(ks: seq<Kind>, n: nat)
    requires n <= |ks|
    ensures Rank(ks, n, Content) == |Visible(ks, n)| && Rank(ks, n, OnlyTests) == |Tests(ks, n)|
  {
    if n > 0 {
      RankCounts(ks, n - 1);
      OneMoreIndex(ks, n - 1);
    }
  }

  /** None of the kinds from `a` up to `b` is wanted. */
  ghost predicate Unwanted(ks: seq<Kind>, a: nat, b: nat, wanted: Choice) {
    forall i :: a <= i < b && i < |ks| ==> !Fits(ks[i], wanted)
  }

  lemma {:induction false} RankSkip(ks: seq<Kind>, a: nat, b: nat, wanted: Choice)
    requires a <= b <= |ks| && Unwanted(ks, a, b, wanted)
    ensures Rank(ks, a, wanted) == Rank(ks, b, wanted)
    decreases b
  {
    if a < b {
      RankSkip(ks, a, b - 1, wanted);
    }
  }

  lemma {:induction false} RankMonotone(ks: seq<Kind>, a: nat, b: nat, wanted: Choice)
    requires a <= b <= |ks|
    ensures Rank(ks, a, wanted) <= Rank(ks, b, wanted)
    decreases b
  {
    if a < b {
      RankMonotone(ks, a, b - 1, wanted);
    }
  }

  /** Items with content carry the ids 1, 2, ... in order, as far as index `n`. */
  ghost predicate Numbered(s: seq<Item>, ks: seq<Kind>, n: nat)
    requires n <= |s| == |ks|
    reads s`id
  {
    forall i :: 0 <= i < n && ks[i] != Skip ==> s[i].id == Rank(ks, i, Content) + 1
  }

  lemma NumberedAdvance(s: seq<Item>, ks: seq<Kind>, j: nat, n: nat)
    requires j < n <= |s| == |ks| && Numbered(s, ks, j)
    requires ks[j] != Skip && s[j].id == Rank(ks, j, Content) + 1
    requires Unwanted(ks, j + 1, n, Content)
    ensures Numbered(s, ks, n) && Rank(ks, n, Content) == Rank(ks, j, Content) + 1
  {
    RankSkip(ks, j + 1, n, Content);
  }

  /** No two items with content have the same number. */
  lemma RankInjective(ks: seq<Kind>, i: nat, j: nat)
    requires i < |ks| && j < |ks| && ks[i] != Skip && ks[j] != Skip
    ensures Rank(ks, i, Content) == Rank(ks, j, Content) <==> i == j
  {
    if i < j {
      RankMonotone(ks, i + 1, j, Content);
    } else if j < i {
      RankMonotone(ks, j + 1, i, Content);
    }
  }

  // ------------------------------------------------------- walking the list

  /** Find the next item with actual content: `j` is its index, or `|s|` at the end. */
  method GetRealNext(item: Item?, ghost s: seq<Item>, ghost k: nat) returns (r: Item?, ghost j: nat)
    requires Segment(s) && Ended(s)
    requires item != null ==> k < |s| && s[k] == item
    ensures item == null ==> r == null && j == |s|
    ensures item != null ==> k < j <= |s| && forall i :: k < i < j ==> s[i].kind == Skip
    ensures j < |s| ==> r == s[j] && s[j].kind != Skip
    ensures j == |s| ==> r == null
  {
    if item == null {
      return null, |s|;
    }
    r, j := item.next, k + 1;
    while r != null && r.kind == Skip
      invariant k < j <= |s|
      invariant j < |s| ==> r == s[j]
      invariant j == |s| ==> r == null
      invariant forall i :: k < i < j ==> s[i].kind == Skip
      decreases |s| - j
    {
      r, j := r.next, j + 1;
    }
  }

  /** Find the first item with actual content, possibly the head itself. */
  method GetReal(item: Item?, ghost s: seq<Item>) returns (r: Item?, ghost j: nat)
    requires Segment(s) && Ended(s) && item == Head(s)
    ensures j <= |s| && forall i :: 0 <= i < j ==> s[i].kind == Skip
    ensures j < |s| ==> r == s[j] && s[j].kind != Skip
    ensures j == |s| ==> r == null
  {
    if item == null {
      return null, 0;
    }
    if item.kind == Skip {
      r, j := GetRealNext(item, s, 0);
    } else {
      r, j := item, 0;
    }
  }

  /** Compute the number of all tests in a list. */
  method CountTests(head: Item?, ghost s: seq<Item>) returns (count: nat)
    requires Segment(s) && Ended(s) && head == Head(s)
    ensures count == Rank(Kinds(s), |s|, OnlyTests)
  {
    count := 0;
    ghost var ks, j := Kinds(s), 0;
    var it := head;
    while it != null
      invariant j <= |s|
      invariant j < |s| ==> it == s[j]
      invariant j == |s| ==> it == null
      invariant count == Rank(ks, j, OnlyTests)
      decreases |s| - j
    {
      if it.kind == Test {
        count := count + 1;
      }
      ghost var n;
      it, n := GetRealNext(it, s, j);
      RankSkip(ks, j + 1, n, OnlyTests);
      j := n;
    }
  }

  /** Find an item by its id among the visible items. */
  method FindById(first: Item?, id: int, ghost s: seq<Item>) returns (r: Item?)
    requires Segment(s) && Ended(s) && first == Head(s)
    ensures r != null ==> exists i :: 0 <= i < |s| && r == s[i] && s[i].kind != Skip && s[i].id == id
    ensures r == null ==> forall i :: 0 <= i < |s| && s[i].kind != Skip ==> s[i].id != id
  {
    ghost var ks := Kinds(s);
    ghost var j;
    r, j := GetReal(first, s);
    while r != null
      invariant j <= |s|
      invariant j < |s| ==> r == s[j] && r.kind != Skip
      invariant j == |s| ==> r == null
      invariant forall i :: 0 <= i < j && ks[i] != Skip ==> s[i].id != id
      decreases |s| - j
    {
      if r.id == id {
        return;
      }
      r, j := GetRealNext(r, s, j);
    }
  }
}
