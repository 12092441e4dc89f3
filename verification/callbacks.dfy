/** Binding the set-up and tear-down functions, which stand as siblings in the list,
    to the suites they belong to (src/main.c). */
module Binding {
  import opened Text
  import opened Items
  import opened Running

  predicate IsFixture(k: Kind) {
    k == Setup || k == Teardown
  }

  function Hidden(k: Kind): Kind {
    if IsFixture(k) then Skip else k
  }

  /** The last item of kind `f` before index `n` that belongs to the suite at `i`,
      or -1. */
  function LastFixture(ks: seq<Kind>, i: nat, n: nat, f: Kind): (j: int)
    requires n <= |ks|
    ensures -1 <= j < n
    ensures j >= 0 ==> ks[j] == f && SuiteIndex(ks, j) == i
    ensures forall m :: j < m < n && ks[m] == f ==> SuiteIndex(ks, m) != i
  {
    if n == 0 then -1
    else if ks[n - 1] == f && SuiteIndex(ks, n - 1) == i then n - 1
    else LastFixture(ks, i, n - 1, f)
  }

  /** A walk over items without content does not change the active suite. */
  lemma {:induction false} SuiteSkipped(ks: seq<Kind>, a: nat, b: nat)
    requires a <= b <= |ks| && forall m :: a <= m < b ==> ks[m] == Skip
    ensures SuiteIndex(ks, a as int - 1) == SuiteIndex(ks, b as int - 1)
    decreases b
  {
    if a < b {
      SuiteSkipped(ks, a, b - 1);
    }
  }

  /** Nor does it change the fixtures seen. */
  lemma {:induction false} FixtureSkipped(ks: seq<Kind>, a: nat, b: nat, i: nat, f: Kind)
    requires a <= b <= |ks| && f != Skip && forall m :: a <= m < b ==> ks[m] == Skip
    ensures LastFixture(ks, i, a, f) == LastFixture(ks, i, b, f)
    decreases b
  {
    if a < b {
      FixtureSkipped(ks, a, b - 1, i, f);
    }
  }

  /** The function that the suite at `i` ends up with: its own segment's last one. */
  function Bound(ks: seq<Kind>, funcs: seq<Option<Func>>, i: nat, n: nat, f: Kind): Option<Func>
    requires i < |ks| == |funcs| && n <= |ks|
  {
    var j := LastFixture(ks, i, n, f);
    if j >= 0 then funcs[j] else funcs[i]
  }

  ghost function Setups(s: seq<Item>): (fs: seq<Option<Func>>)
    reads s`setupFunc
    ensures |fs| == |s| && forall i :: 0 <= i < |s| ==> fs[i] == s[i].setupFunc
  {
    if s == [] then [] else Setups(s[..|s| - 1]) + [s[|s| - 1].setupFunc]
  }

  ghost function Teardowns(s: seq<Item>): (fs: seq<Option<Func>>)
    reads s`teardownFunc
    ensures |fs| == |s| && forall i :: 0 <= i < |s| ==> fs[i] == s[i].teardownFunc
  {
    if s == [] then [] else Teardowns(s[..|s| - 1]) + [s[|s| - 1].teardownFunc]
  }

  /** The state of the item at `i` after the first `n` items were looked at. */
  ghost predicate BoundAt(x: Item, ks: seq<Kind>, setups: seq<Option<Func>>, teardowns: seq<Option<Func>>, i: nat, n: nat)
    requires i < |ks| == |setups| == |teardowns| && n <= |ks|
    reads x
  {
    && x.kind == (if i < n then Hidden(ks[i]) else ks[i])
    && x.setupFunc == (if ks[i] == TestSuite then Bound(ks, setups, i, n, Setup) else setups[i])
    && x.teardownFunc == (if ks[i] == TestSuite then Bound(ks, teardowns, i, n, Teardown) else teardowns[i])
  }

  /** The state of the list after the first `n` items were looked at. */
  ghost predicate BoundUpTo(s: seq<Item>, ks: seq<Kind>, setups: seq<Option<Func>>, teardowns: seq<Option<Func>>, n: nat)
    requires n <= |s| == |ks| == |setups| == |teardowns|
    reads s
  {
    forall i :: 0 <= i < |s| ==> BoundAt(s[i], ks, setups, teardowns, i, n)
  }

  lemma BoundSkipped(s: seq<Item>, ks: seq<Kind>, setups: seq<Option<Func>>, teardowns: seq<Option<Func>>, a: nat, b: nat)
    requires a <= b <= |s| == |ks| == |setups| == |teardowns|
    requires forall m :: a <= m < b ==> ks[m] == Skip
    requires BoundUpTo(s, ks, setups, teardowns, a)
    ensures BoundUpTo(s, ks, setups, teardowns, b) == true
  {
    forall i | 0 <= i < |s| ensures BoundAt(s[i], ks, setups, teardowns, i, b) {
      assert BoundAt(s[i], ks, setups, teardowns, i, a);
      FixtureSkipped(ks, a, b, i, Setup);
      FixtureSkipped(ks, a, b, i, Teardown);
    }
  }

  /** In the end the fixtures are hidden, and nothing else. */
  lemma HiddenUpTo(s: seq<Item>, ks: seq<Kind>, setups: seq<Option<Func>>, teardowns: seq<Option<Func>>)
    requires |s| == |ks| == |setups| == |teardowns| && BoundUpTo(s, ks, setups, teardowns, |s|)
    ensures forall i :: 0 <= i < |s| ==> s[i].kind == if ks[i] == Setup || ks[i] == Teardown then Skip else ks[i]
  {
    forall i | 0 <= i < |s| ensures s[i].kind == if ks[i] == Setup || ks[i] == Teardown then Skip else ks[i] {
      assert BoundAt(s[i], ks, setups, teardowns, i, |s|);
    }
  }

  /** Add direct pointers to set-up and tear-down functions to the suites. */
  method SetSetupTeardownCallbacks(first: Item?, ghost s: seq<Item>)
    requires Segment(s) && Ended(s) && Unique(s) && first == Head(s)
    modifies s`kind, s`setupFunc, s`teardownFunc
    ensures BoundUpTo(s, old(Kinds(s)), old(Setups(s)), old(Teardowns(s)), |s|) == true
    ensures forall i :: 0 <= i < |s| ==>
      s[i].kind == if old(s[i].kind) == Setup || old(s[i].kind) == Teardown then Skip else old(s[i].kind)
  {
    ghost var ks, setups, teardowns, j := Kinds(s), Setups(s), Teardowns(s), 0;
    var activeSuite: Item? := null;
    var it := first;
    while it != null
      invariant j <= |s| && (j < |s| ==> it == s[j]) && (j == |s| ==> it == null)
      invariant activeSuite == ActiveAt(s, ks, j)
      invariant BoundUpTo(s, ks, setups, teardowns, j) == true
      decreases |s| - j
    {
      activeSuite, it, j := BindAndAdvance(it, activeSuite, s, ks, setups, teardowns, j);
    }
    HiddenUpTo(s, ks, setups, teardowns);
  }

  /** The body of the loop. */
  method BindAndAdvance(it: Item, activeSuite: Item?, ghost s: seq<Item>, ghost ks: seq<Kind>,
                        ghost setups: seq<Option<Func>>, ghost teardowns: seq<Option<Func>>, ghost j: nat)
    returns (active: Item?, next: Item?, ghost n: nat)
    requires Segment(s) && Ended(s) && Unique(s) && j < |s| == |ks| == |setups| == |teardowns| && it == s[j]
    requires activeSuite == ActiveAt(s, ks, j)
    requires BoundUpTo(s, ks, setups, teardowns, j) == true
    modifies it`kind, Only(activeSuite)`setupFunc, Only(activeSuite)`teardownFunc
    ensures j < n <= |s| && (n < |s| ==> next == s[n]) && (n == |s| ==> next == null)
    ensures active == ActiveAt(s, ks, n) && BoundUpTo(s, ks, setups, teardowns, n) == true
  {
    active := BindOne(it, activeSuite, s, ks, setups, teardowns, j);
    next, n := Advance(it, s, ks, setups, teardowns, j);
  }

  /** The suite that is active before the item at `n`. */
  function ActiveAt(s: seq<Item>, ks: seq<Kind>, n: nat): Item?
    requires n <= |s| == |ks|
  {
    var a := SuiteIndex(ks, n - 1);
    if a >= 0 then s[a] else null
  }

  /** An item that was not looked at yet still has its kind. */
  lemma NotYetLookedAt(s: seq<Item>, ks: seq<Kind>, setups: seq<Option<Func>>, teardowns: seq<Option<Func>>, a: nat, b: nat)
    requires a <= b <= |s| == |ks| == |setups| == |teardowns| && BoundUpTo(s, ks, setups, teardowns, a)
    requires forall m :: a <= m < b ==> s[m].kind == Skip
    ensures forall m :: a <= m < b ==> ks[m] == Skip
  {
    forall m | a <= m < b ensures ks[m] == Skip {
      assert BoundAt(s[m], ks, setups, teardowns, m, a);
    }
  }

  /** Items without content are passed over. */
  lemma PassedOver(s: seq<Item>, ks: seq<Kind>, setups: seq<Option<Func>>, teardowns: seq<Option<Func>>, a: nat, b: nat)
    requires a <= b <= |s| == |ks| == |setups| == |teardowns| && BoundUpTo(s, ks, setups, teardowns, a) == true
    requires forall m :: a <= m < b ==> s[m].kind == Skip
    ensures BoundUpTo(s, ks, setups, teardowns, b) == true && ActiveAt(s, ks, b) == ActiveAt(s, ks, a)
  {
    NotYetLookedAt(s, ks, setups, teardowns, a, b);
    BoundSkipped(s, ks, setups, teardowns, a, b);
    SuiteSkipped(ks, a, b);
  }

  /** The step to the next item with content. */
  method Advance(it: Item, ghost s: seq<Item>, ghost ks: seq<Kind>, ghost setups: seq<Option<Func>>,
                 ghost teardowns: seq<Option<Func>>, ghost j: nat)
    returns (next: Item?, ghost n: nat)
    requires Segment(s) && Ended(s) && j < |s| == |ks| == |setups| == |teardowns| && it == s[j]
    requires BoundUpTo(s, ks, setups, teardowns, j + 1) == true
    ensures j < n <= |s| && (n < |s| ==> next == s[n]) && (n == |s| ==> next == null)
    ensures BoundUpTo(s, ks, setups, teardowns, n) == true && ActiveAt(s, ks, n) == ActiveAt(s, ks, j + 1)
  {
    next, n := GetRealNext(it, s, j);
    PassedOver(s, ks, setups, teardowns, j + 1, n);
  }

  /** One item: a suite becomes the active one, a fixture is bound to the active
      suite, if there is one, and hidden. */
  method BindOne(it: Item, activeSuite: Item?, ghost s: seq<Item>, ghost ks: seq<Kind>,
                 ghost setups: seq<Option<Func>>, ghost teardowns: seq<Option<Func>>, ghost j: nat)
    returns (active: Item?)
    requires j < |s| == |ks| == |setups| == |teardowns| && it == s[j] && Unique(s)
    requires activeSuite == ActiveAt(s, ks, j)
    requires BoundUpTo(s, ks, setups, teardowns, j) == true
    modifies it`kind, Only(activeSuite)`setupFunc, Only(activeSuite)`teardownFunc
    ensures active == ActiveAt(s, ks, j + 1)
    ensures BoundUpTo(s, ks, setups, teardowns, j + 1) == true
  {
    UniqueIndices(s);
    active := activeSuite;
    assert BoundAt(it, ks, setups, teardowns, j, j);
    if it.kind == TestSuite {
      active := it;
    } else if it.kind == Setup {
      if activeSuite != null {
        activeSuite.setupFunc := it.setupFunc;
      }
      it.kind := Skip;
    } else if it.kind == Teardown {
      if activeSuite != null {
        activeSuite.teardownFunc := it.teardownFunc;
      }
      it.kind := Skip;
    }
    forall i | 0 <= i < |s| ensures BoundAt(s[i], ks, setups, teardowns, i, j + 1) {
      assert old(BoundAt(s[i], ks, setups, teardowns, i, j));
    }
  }

  /** `j` is the last item of kind `f` between `i` and `end`. */
  ghost predicate IsLast(ks: seq<Kind>, f: Kind, i: nat, end: nat, j: nat)
    requires end <= |ks|
  {
    i < j < end && ks[j] == f && forall m :: j < m < end ==> ks[m] != f
  }

  /** There is no item of kind `f` between `i` and `end`. */
  ghost predicate Lacks(ks: seq<Kind>, f: Kind, i: nat, end: nat)
    requires end <= |ks|
  {
    forall m :: i < m < end ==> ks[m] != f
  }

  /** Binding, declaratively: a suite ends up with the last fixture of its own segment,
      which reaches up to the next suite, or with what it had when there is none. */
  lemma BoundIsLastOfSegment(ks: seq<Kind>, funcs: seq<Option<Func>>, i: nat, end: nat, f: Kind)
    requires IsFixture(f) && i < end <= |ks| == |funcs| && ks[i] == TestSuite
    requires forall m :: i < m < end ==> ks[m] != TestSuite
    requires end < |ks| ==> ks[end] == TestSuite
    ensures forall j: nat :: IsLast(ks, f, i, end, j) ==> Bound(ks, funcs, i, |ks|, f) == funcs[j]
    ensures Lacks(ks, f, i, end) ==> Bound(ks, funcs, i, |ks|, f) == funcs[i]
  {
    forall m: nat | m < |ks| ensures SuiteIndex(ks, m) == i <==> i <= m < end {
      InSegment(ks, i, end, m);
    }
  }

  lemma {:induction false} InSegment(ks: seq<Kind>, i: nat, end: nat, m: nat)
    requires i < end <= |ks| && ks[i] == TestSuite && m < |ks|
    requires forall x :: i < x < end ==> ks[x] != TestSuite
    requires end < |ks| ==> ks[end] == TestSuite
    ensures SuiteIndex(ks, m) == i <==> i <= m < end
  {
    var own, next := ks[i], if end < |ks| then ks[end] else TestSuite;
    assert own == next == TestSuite;
  }
}
