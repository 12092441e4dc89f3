/** Turning the statically initialised, backward-linked chains into one flat,
    doubly linked and numbered list (src/list.c). */
module ListFix {
  import opened Items

  // ------------------------------------------------------ the shape of input

  /** A chain of items seen from its tail. `content` is the chain that `item`
      imports, `Nil` when it imports nothing. */
  datatype Chain = Nil | Snoc(front: Chain, item: Item, content: Chain)

  ghost function Size(c: Chain): nat {
    match c
    case Nil => 0
    case Snoc(front, _, content) => Size(front) + 1 + Size(content)
  }

  ghost function Members(c: Chain): set<Item> {
    match c
    case Nil => {}
    case Snoc(front, item, content) => Members(front) + {item} + Members(content)
  }

  lemma {:induction false} MembersAllocated(c: Chain)
    ensures forall x :: x in Members(c) ==> allocated(x)
  {
    if c.Snoc? {
      MembersAllocated(c.front);
      MembersAllocated(c.content);
    }
  }

  /** No item is reachable by two routes. */
  ghost predicate Distinct(c: Chain) {
    match c
    case Nil => true
    case Snoc(front, item, content) =>
      && Distinct(front) && Distinct(content)
      && Members(front) !! Members(content)
      && item !in Members(front) && item !in Members(content)
  }

  /** The items in memory form the chain `c` with tail `last`, and `was` records
      their kinds. */
  ghost predicate Shape(c: Chain, last: Item?, was: map<Item, Kind>)
    reads Members(c)`previous, Members(c)`kind
  {
    match c
    case Nil => last == null
    case Snoc(front, item, content) =>
      && last == item && item in was && item.kind == was[item]
      && Shape(front, item.previous, was)
      && Shape(content, if item.kind == Nested then item.nested else null, was)
  }

  lemma {:induction false} ShapeKinds(c: Chain, last: Item?, was: map<Item, Kind>)
    requires Shape(c, last, was)
    ensures forall x :: x in Members(c) ==> x in was && x.kind == was[x]
  {
    if c.Snoc? {
      ShapeKinds(c.front, c.item.previous, was);
      ShapeKinds(c.content, if c.item.kind == Nested then c.item.nested else null, was);
    }
  }

  /** The extras of every test end with a terminator. */
  ghost predicate ExtrasEnded(was: map<Item, Kind>) {
    forall x :: x in was && was[x] == Test ==> Last in x.extras
  }

  // ----------------------------------------------------- the flattened result

  /** Everything in `c` in list order, each import directly followed by what it
      brings in. */
  ghost function Flat(c: Chain): (s: seq<Item>)
    ensures c.Snoc? ==> s != []
    ensures forall i :: 0 <= i < |s| ==> s[i] in Members(c)
  {
    match c
    case Nil => []
    case Snoc(front, item, content) => Flat(front) + [item] + Kept(content)
  }

  /** What remains of a chain once it is spliced behind its import item: the link
      from its tail is redirected, so whatever that tail itself imports is lost. */
  ghost function Kept(c: Chain): (s: seq<Item>)
    ensures c.Snoc? ==> s != [] && s[|s| - 1] == c.item
    ensures c.Nil? ==> s == []
    ensures forall i :: 0 <= i < |s| ==> s[i] in Members(c)
  {
    match c
    case Nil => []
    case Snoc(front, item, _) => Flat(front) + [item]
  }

  /** The items of the chain itself, without what they import. */
  ghost function Level(c: Chain): set<Item> {
    match c
    case Nil => {}
    case Snoc(front, item, _) => Level(front) + {item}
  }

  /** No imported chain ends with an item that imports a chain. */
  ghost predicate TailsImportNothing(c: Chain) {
    match c
    case Nil => true
    case Snoc(front, _, content) =>
      && TailsImportNothing(front) && TailsImportNothing(content)
      && (content.Snoc? ==> content.content.Nil?)
  }

  lemma {:induction false} FlatUnique(c: Chain)
    requires Distinct(c)
    ensures Unique(Flat(c)) && Unique(Kept(c))
  {
    if c.Snoc? {
      FlatUnique(c.front);
      FlatUnique(c.content);
      UniqueIndices(Flat(c.front));
      UniqueIndices(Kept(c.content));
      UniqueIndices(Flat(c));
      UniqueIndices(Kept(c));
    }
  }

  /** Every item of the input is in the flat list. */
  ghost predicate VisitsAll(c: Chain) {
    forall x :: x in Members(c) ==> x in Flat(c)
  }

  lemma {:induction false} FlatComplete(c: Chain)
    requires TailsImportNothing(c)
    ensures VisitsAll(c)
  {
    if c.Snoc? {
      FlatComplete(c.front);
      FlatComplete(c.content);
      if c.content.Snoc? {
        assert Flat(c.content) == Kept(c.content) + [];
      }
    }
  }

  /** An item that the flat list lacks, one import deeper. */
  lemma StillMissing(c: Chain, x: Item)
    requires c.Snoc? && Distinct(c)
    requires (x in Members(c.front) && x !in Flat(c.front)) || (x in Members(c.content) && x !in Kept(c.content))
    ensures x in Members(c) && x !in Flat(c)
  {
  }

  lemma {:induction false} DroppedContent(c: Chain) returns (x: Item)
    requires Distinct(c) && !TailsImportNothing(c)
    ensures x in Members(c) && x !in Flat(c)
  {
    if !TailsImportNothing(c.front) {
      x := DroppedContent(c.front);
    } else if !TailsImportNothing(c.content) {
      x := DroppedContent(c.content);
      assert Flat(c.content) == Kept(c.content) + Kept(c.content.content);
    } else {
      x := c.content.content.item;
    }
    StillMissing(c, x);
  }

  /** Every item of the input is in the flat list, exactly once, if and only if no
      imported chain has an importing tail. */
  lemma FlatVisitsEachOnce(c: Chain)
    requires Distinct(c)
    ensures Unique(Flat(c)) && forall x :: x in Flat(c) ==> x in Members(c)
    ensures VisitsAll(c) <==> TailsImportNothing(c)
  {
    FlatUnique(c);
    if TailsImportNothing(c) {
      FlatComplete(c);
    } else {
      var x := DroppedContent(c);
    }
  }

  /** The smallest loss: `a` imports the chain of `b`, which itself imports the chain
      of `x`; the three items have that form in memory, and `x` is not in the list. */
  lemma LostImport(a: Item, b: Item, x: Item, was: map<Item, Kind>)
    requires a != b && a != x && b != x
    requires a.previous == null && a.kind == Nested && a.nested == b
    requires b.previous == null && b.kind == Nested && b.nested == x
    requires x.previous == null && x.kind == Test
    requires was == map[a := Nested, b := Nested, x := Test]
    ensures var c := Snoc(Nil, a, Snoc(Nil, b, Snoc(Nil, x, Nil)));
            Distinct(c) && Shape(c, a, was) && x in Members(c) && Flat(c) == [a, b]
  {
    var inner := Snoc(Nil, x, Nil);
    var middle := Snoc(Nil, b, inner);
    assert Members(inner) == {x} && Members(middle) == {b, x};
    assert Shape(inner, x, was) && Shape(middle, b, was);
    assert Kept(middle) == [b];
    assert Flat(Snoc(Nil, a, middle)) == [] + [a] + Kept(middle);
  }

  // ---------------------------------------------------- the order of the list

  /** The pointers of the declarations put `x` directly before `y`: what was declared
      before `y`, or the tail of what that imports; or else `y` begins an import. */
  ghost predicate DeclaredBefore(x: Item, y: Item)
    reads y`previous, y.previous, x`kind
  {
    if y.previous == null then x.kind == Nested && x.nested != null
    else x == if y.previous.kind == Nested && y.previous.nested != null then y.previous.nested else y.previous
  }

  ghost predicate InOrder(s: seq<Item>)
    reads s, set i | 0 <= i < |s| && s[i].previous != null :: s[i].previous
  {
    forall i :: 0 < i < |s| ==> DeclaredBefore(s[i - 1], s[i])
  }

  lemma OrderJoined(a: seq<Item>, b: seq<Item>)
    requires InOrder(a) && InOrder(b) && (a != [] && b != [] ==> DeclaredBefore(a[|a| - 1], b[0]))
    ensures InOrder(a + b)
  {
    forall i | 0 < i < |a + b| ensures DeclaredBefore((a + b)[i - 1], (a + b)[i]) {
      if i >= |a| {
        assert (a + b)[i] == b[i - |a|];
      }
    }
  }

  /** The flat list keeps the order of the declarations: before each item stands what its
      own pointer leads to, or the tail of what that imports. */
  lemma {:induction false} FlatInOrder(c: Chain, last: Item?, was: map<Item, Kind>)
    requires Shape(c, last, was)
    ensures InOrder(Flat(c)) && InOrder(Kept(c))
    ensures c.Snoc? ==> Flat(c)[0].previous == null && Kept(c)[0] == Flat(c)[0]
    ensures c.Snoc? ==>
      Flat(c)[|Flat(c)| - 1] == if c.item.kind == Nested && c.item.nested != null then c.item.nested else c.item
  {
    if c.Snoc? {
      FlatInOrder(c.front, c.item.previous, was);
      FlatInOrder(c.content, if c.item.kind == Nested then c.item.nested else null, was);
      OrderJoined(Flat(c.front), [c.item]);
      OrderJoined(Kept(c), Kept(c.content));
      assert Flat(c) == Kept(c) + Kept(c.content);
    }
  }

  // ------------------------------------------------------- kinds and numbers

  /** What a walk over the extras up to the terminator finds. */
  predicate MarkedSkip(extras: seq<Extra>) {
    extras != [] && extras[0] != Last && (extras[0] == SkipTest || MarkedSkip(extras[1..]))
  }

  /** The mark is the first of its kind to be found: it stands before the terminator. */
  lemma {:induction false} SkipMarked(extras: seq<Extra>)
    ensures MarkedSkip(extras) <==> exists k :: 0 <= k < |extras| && extras[k] == SkipTest && Last !in extras[..k]
  {
    if extras != [] && extras[0] != Last && extras[0] != SkipTest {
      SkipMarked(extras[1..]);
      if j :| 0 <= j < |extras| - 1 && extras[1..][j] == SkipTest && Last !in extras[1..][..j] {
        assert extras[..j + 1] == [extras[0]] + extras[1..][..j];
        assert extras[j + 1] == SkipTest;
      }
      if k :| 0 <= k < |extras| && extras[k] == SkipTest && Last !in extras[..k] {
        assert extras[1..][k - 1] == SkipTest && extras[1..][..k - 1] == extras[1..k];
        assert forall m :: 1 <= m < k ==> extras[m] == extras[..k][m];
      }
    }
  }

  function Inlined(k: Kind): Kind {
    if k == Nested then Skip else k
  }

  function Settled(k: Kind, extras: seq<Extra>): Kind {
    if k == Test && MarkedSkip(extras) then Skip else Inlined(k)
  }

  /** A test is hidden if and only if a skip mark stands before its terminator; imports
      are hidden, and nothing else. */
  lemma SettledIs(k: Kind, extras: seq<Extra>)
    ensures k == Test ==>
      (Settled(k, extras) == Skip <==> exists j :: 0 <= j < |extras| && extras[j] == SkipTest && Last !in extras[..j])
    ensures Settled(k, extras) != Skip ==> Settled(k, extras) == k != Nested
    ensures Settled(k, extras) == Skip ==> k == Skip || k == Nested || k == Test
  {
    SkipMarked(extras);
  }

  /** The kinds of the items once the whole chain is fixed. */
  ghost predicate AllSettled(s: set<Item>, was: map<Item, Kind>)
    reads s`kind
  {
    forall x {:trigger x in s} :: x in s ==> x in was && x.kind == Settled(was[x], x.extras)
  }

  /** Hide tests that are marked to be skipped. */
  method DetectSkippedTests(head: Item, ghost s: seq<Item>, ghost all: set<Item>)
    requires Segment(s) && Ended(s) && Unique(s) && head == Head(s)
    requires forall i :: 0 <= i < |s| && s[i].kind == Test ==> Last in s[i].extras
    requires forall i :: 0 <= i < |s| ==> s[i] in all
    modifies all`kind
    ensures forall x :: x in all && x !in s ==> x.kind == old(x.kind)
    ensures forall i :: 0 <= i < |s| ==>
      s[i].kind == if old(s[i].kind) == Test && MarkedSkip(s[i].extras) then Skip else old(s[i].kind)
  {
    var it: Item? := head;
    ghost var j := 0;
    if head.kind == Skip {
      it, j := GetRealNext(head, s, 0);
    }
    while it != null
      invariant j <= |s|
      invariant j < |s| ==> it == s[j]
      invariant j == |s| ==> it == null
      invariant forall i :: j <= i < |s| ==> s[i].kind == old(s[i].kind)
      invariant forall x :: x in all && x !in s ==> x.kind == old(x.kind)
      invariant forall i :: 0 <= i < j ==>
        s[i].kind == if old(s[i].kind) == Test && MarkedSkip(s[i].extras) then Skip else old(s[i].kind)
      decreases |s| - j
    {
      UniqueIndices(s);
      if it.kind == Test {
        var marked := FindSkipMark(it.extras);
        if marked {
          it.kind := Skip;
        }
      }
      it, j := GetRealNext(it, s, j);
    }
  }

  method FindSkipMark(extras: seq<Extra>) returns (marked: bool)
    requires Last in extras
    ensures marked == MarkedSkip(extras)
    ensures marked <==> exists k :: 0 <= k < |extras| && extras[k] == SkipTest && Last !in extras[..k]
  {
    SkipMarked(extras);
    var k := 0;
    while extras[k] != Last
      invariant k < |extras| && Last in extras[k..]
      invariant MarkedSkip(extras) == MarkedSkip(extras[k..])
      decreases |extras| - k
    {
      if extras[k] == SkipTest {
        return true;
      }
      k := k + 1;
    }
    marked := false;
  }

  /** Assign ids 1, 2, ... to the visible items. */
  method SetIds(head: Item, ghost s: seq<Item>, ghost all: set<Item>)
    requires Segment(s) && Ended(s) && Unique(s) && head == Head(s)
    requires forall i :: 0 <= i < |s| ==> s[i] in all
    modifies all`id
    ensures Numbered(s, old(Kinds(s)), |s|) == true
  {
    UniqueIndices(s);
    ghost var ks, j := Kinds(s), 0;
    var it;
    it, j := GetReal(head, s);
    var id := 1;
    RankSkip(ks, 0, j, Content);
    while it != null
      invariant j <= |s|
      invariant j < |s| ==> it == s[j] && it.kind != Skip
      invariant j == |s| ==> it == null
      invariant id == Rank(ks, j, Content) + 1
      invariant Numbered(s, ks, j)
      decreases |s| - j
    {
      it.id := id;
      id := id + 1;
      ghost var n;
      it, n := GetRealNext(it, s, j);
      NumberedAdvance(s, ks, j, n);
      j := n;
    }
  }

  // --------------------------------------------------------- links of a chain

  /** The first item of the flattened chain. */
  ghost function First(c: Chain): (x: Item)
    requires c.Snoc?
    ensures x in Members(c)
  {
    if c.front.Nil? then c.item else First(c.front)
  }

  /** The last item of the flattened chain. */
  ghost function Final(c: Chain): (x: Item)
    requires c.Snoc?
    ensures x in Members(c)
  {
    if c.content.Nil? then c.item else c.content.item
  }

  /** The links inside the kept part of `c`; its two outer links are left open. */
  ghost predicate KeptInner(c: Chain)
    requires c.Snoc? && Distinct(c)
    reads Members(c.front)`next, ({c.item} + Members(c.front) - {First(c)})`previous
    decreases c, 0
  {
    c.front.Snoc? ==>
      && Final(c.front).next == c.item && c.item.previous == Final(c.front)
      && FlatInner(c.front)
  }

  /** The links inside all that is flattened from `c`, outer links left open. */
  ghost predicate FlatInner(c: Chain)
    requires c.Snoc? && Distinct(c)
    reads (Members(c) - {Final(c)})`next, (Members(c) - {First(c)})`previous
    decreases c, 1
  {
    && KeptInner(c)
    && (c.content.Snoc? ==>
        && c.item.next == First(c.content) && First(c.content).previous == c.item
        && KeptInner(c.content))
  }

  /** The chain that consists of the items of `front` and then those of `c`. */
  ghost function Append(front: Chain, c: Chain): (r: Chain)
    ensures front.Snoc? || c.Snoc? ==> r.Snoc?
  {
    match c
    case Nil => front
    case Snoc(f, item, content) => Snoc(Append(front, f), item, content)
  }

  lemma {:induction false} AppendMembers(a: Chain, d: Chain)
    ensures Members(Append(a, d)) == Members(a) + Members(d)
    ensures Level(Append(a, d)) == Level(a) + Level(d)
  {
    if d.Snoc? {
      AppendMembers(a, d.front);
    }
  }

  lemma {:induction false} AppendMoves(front: Chain, done: Chain)
    requires front.Snoc?
    ensures Append(front, done) == Append(front.front, Append(Snoc(Nil, front.item, front.content), done))
  {
    if done.Snoc? {
      AppendMoves(front, done.front);
    }
  }

  lemma NextPiece(front: Chain, done: Chain)
    requires front.Snoc? && Distinct(Append(front, done))
    ensures Distinct(front) && Distinct(done) && Members(front) !! Members(done)
    ensures Append(front, done) == Append(front.front, Append(Snoc(Nil, front.item, front.content), done))
    ensures Size(front.front) < Size(front) <= Size(Append(front, done))
    ensures Members(front) <= Members(Append(front, done)) && Members(done) <= Members(Append(front, done))
  {
    AppendMembers(front, done);
    AppendParts(front, done);
    AppendMoves(front, done);
    AppendSize(front, done);
  }

  lemma {:induction false} AppendNil(c: Chain)
    ensures Append(Nil, c) == c
  {
    if c.Snoc? {
      AppendNil(c.front);
    }
  }

  lemma {:induction false} AppendSize(front: Chain, done: Chain)
    ensures Size(Append(front, done)) == Size(front) + Size(done)
  {
    if done.Snoc? {
      AppendSize(front, done.front);
    }
  }

  lemma {:induction false} AppendParts(a: Chain, d: Chain)
    requires Distinct(Append(a, d))
    ensures Distinct(a) && Distinct(d) && Members(a) !! Members(d)
  {
    if d.Snoc? {
      AppendParts(a, d.front);
      AppendMembers(a, d.front);
    }
  }

  lemma {:induction false} AppendDistinct(a: Chain, d: Chain)
    requires Distinct(a) && Distinct(d) && Members(a) !! Members(d)
    ensures Distinct(Append(a, d))
  {
    if d.Snoc? {
      AppendDistinct(a, d.front);
      AppendMembers(a, d.front);
    }
  }

  /** Two linked chains whose ends point at each other are one linked chain. */
  lemma {:induction false} InnerAppended(a: Chain, d: Chain)
    requires a.Snoc? && d.Snoc? && Distinct(a) && Distinct(d) && Members(a) !! Members(d)
    requires FlatInner(a) && FlatInner(d)
    requires Final(a).next == First(d) && First(d).previous == Final(a)
    ensures Distinct(Append(a, d)) && FlatInner(Append(a, d))
    ensures First(Append(a, d)) == First(a) && Final(Append(a, d)) == Final(d)
  {
    AppendDistinct(a, d);
    if d.front.Snoc? {
      InnerAppended(a, d.front);
      AppendMembers(a, d.front);
    }
  }

  // ------------------------------------------------------------ the splicing

  /** The four pointer writes of a splice: the list `first` ... `tail` moves
      between `nested` and its successor. */
  method Splice(nested: Item, tail: Item, first: Item, ghost content: Chain)
    requires content.Snoc? && Distinct(content) && KeptInner(content)
    requires tail == content.item && first == First(content)
    requires nested !in Members(content) && nested.next !in Members(content) && nested.next != nested
    modifies nested`next, tail`next, first`previous, Only(nested.next)`previous
    ensures nested.next == First(content) && First(content).previous == nested
    ensures KeptInner(content)
    ensures tail.next == old(nested.next)
    ensures old(nested.next) != null ==> old(nested.next).previous == tail
  {
    tail.next := nested.next;
    if nested.next != null {
      nested.next.previous := tail;
    }
    nested.next := first;
    first.previous := nested;
  }

  /** Fix the chain that `nested` imports and put it between `nested` and its successor. */
  method FixAndSplice(nested: Item, last: Item, ghost content: Chain, ghost was: map<Item, Kind>)
    requires content.Snoc? && Distinct(content) && Shape(content, last, was) && ExtrasEnded(was)
    requires nested !in Members(content) && nested.next !in Members(content) && nested != nested.next
    modifies ({nested} + Members(content))`next, Members(content)`kind
    modifies (Only(nested.next) + Members(content))`previous, Members(content)`id
    ensures AllSettled(Members(content), was) == true
    ensures nested.next == First(content) && First(content).previous == nested
    ensures KeptInner(content) == true && content.item.next == old(nested.next)
    ensures old(nested.next) != null ==> old(nested.next).previous == content.item
    decreases Size(content), 4
  {
    MembersAllocated(content);
    var first := FixList(last, content, was);
    Splice(nested, last, first, content);
  }

  /** In-line the chain that `nested` imports between `nested` and its successor. */
  method InlineNestedLists(nested: Item, ghost content: Chain, ghost was: map<Item, Kind>)
    requires Distinct(content) && ExtrasEnded(was)
    requires Shape(content, if nested.kind == Nested then nested.nested else null, was)
    requires nested !in Members(content) && nested.next !in Members(content) && nested != nested.next
    modifies ({nested} + Members(content))`next, ({nested} + Members(content))`kind
    modifies (Only(nested.next) + Members(content))`previous, Members(content)`id
    ensures nested.kind == Inlined(old(nested.kind)) && AllSettled(Members(content), was) == true
    ensures content.Nil? ==> nested.next == old(nested.next)
    ensures content.Nil? && nested.next != null ==> nested.next.previous == old(nested.next.previous)
    ensures content.Snoc? ==>
      && nested.next == First(content) && First(content).previous == nested
      && KeptInner(content) == true && content.item.next == old(nested.next)
    ensures content.Snoc? && old(nested.next) != null ==> old(nested.next).previous == content.item
    decreases Size(content), 5
  {
    if nested.kind != Nested {
      return;
    }
    if nested.nested == null {
      nested.kind := Skip;
      return;
    }
    FixAndSplice(nested, nested.nested, content, was);
    MembersAllocated(content);
    nested.kind := Skip;
  }

  /** The finished part `done` starts at `next`; the link back from there is left open. */
  ghost predicate Waiting(done: Chain, next: Item?)
    requires Distinct(done)
    reads Members(done)`next, (Members(done) - Only(next))`previous
  {
    if done.Nil? then next == null
    else First(done) == next && Final(done).next == null && FlatInner(done)
  }

  /** The finished part `done` starts at `next`, right behind `it`. */
  ghost predicate Linked(done: Chain, it: Item?, next: Item?)
    requires Distinct(done)
    reads Members(done)`next, Members(done)`previous
  {
    Waiting(done, next) && (done.Snoc? ==> First(done).previous == it)
  }

  /** The kinds in a finished part: what inner chains brought is settled, the
      items on the level being fixed are only inlined so far. */
  ghost predicate Advanced(s: set<Item>, level: set<Item>, was: map<Item, Kind>)
    reads s`kind
  {
    forall x {:trigger x in s} :: x in s ==> (
      && x in was
      && (x.kind == Settled(was[x], x.extras) || (x in level && x.kind == Inlined(was[x]))))
  }

  /** The last item of a chain with all it imports. */
  ghost function Piece(c: Chain): set<Item>
    requires c.Snoc?
  {
    {c.item} + Members(c.content)
  }

  /** An item with what it imports, followed by a finished part, is a finished part. */
  lemma PieceLinked(piece: Chain, done: Chain, it: Item, next: Item?)
    requires piece.Snoc? && piece.front == Nil && piece.item == it
    requires Distinct(piece) && Distinct(done) && Members(piece) !! Members(done)
    requires piece.content.Snoc? ==>
      it.next == First(piece.content) && First(piece.content).previous == it && KeptInner(piece.content)
    requires Final(piece).next == next && (next != null ==> next.previous == Final(piece))
    requires Waiting(done, next) == true
    ensures Distinct(Append(piece, done)) && Linked(Append(piece, done), it.previous, it) == true
  {
    AppendDistinct(piece, done);
    assert First(piece) == it;
    assert FlatInner(piece);
    if done.Snoc? {
      InnerAppended(piece, done);
    }
    assert Linked(Append(piece, done), it.previous, it);
  }

  /** The kinds of a finished part that got one more item. */
  lemma PieceAdvanced(piece: Chain, done: Chain, was: map<Item, Kind>)
    requires Advanced(Members(piece), Level(piece), was) && Advanced(Members(done), Level(done), was)
    ensures Advanced(Members(Append(piece, done)), Level(Append(piece, done)), was) == true
  {
    AppendMembers(piece, done);
  }

  /** In-line what `it` imports; nothing else changes. */
  method InlinePiece(it: Item, ghost piece: Chain, ghost done: Chain, ghost was: map<Item, Kind>)
    requires piece.Snoc? && piece.front == Nil && piece.item == it && Distinct(piece) && Members(piece) !! Members(done)
    requires Shape(piece.content, if it.kind == Nested then it.nested else null, was) == true && ExtrasEnded(was)
    requires it in was && it.kind == was[it] && it.next !in Members(piece)
    requires Distinct(done) && Waiting(done, it.next) == true && Advanced(Members(done), Level(done), was) == true
    modifies Piece(piece)`next, Piece(piece)`kind, Members(piece.content)`id
    modifies (Only(it.next) + Members(piece.content))`previous
    ensures piece.content.Snoc? ==>
      it.next == First(piece.content) && First(piece.content).previous == it && KeptInner(piece.content)
    ensures Final(piece).next == old(it.next)
    ensures old(it.next) != null ==>
      old(it.next).previous == if piece.content.Nil? then old(it.next.previous) else Final(piece)
    ensures Waiting(done, old(it.next)) == true
    ensures Advanced(Members(piece), Level(piece), was) == true && Advanced(Members(done), Level(done), was) == true
    decreases Size(piece), 0, 0
  {
    MembersAllocated(done);
    InlineNestedLists(it, piece.content, was);
  }

  /** Put `it`, with all it imports, in front of the finished part `done`. */
  method LinkForward(it: Item, next: Item?, ghost front: Chain, ghost done: Chain, ghost was: map<Item, Kind>)
    returns (ghost linked: Chain)
    requires front.Snoc? && Distinct(front) && Distinct(done) && Members(front) !! Members(done)
    requires Shape(front, it, was) && ExtrasEnded(was)
    requires Linked(done, it, next)
    requires Advanced(Members(done), Level(done), was) == true
    modifies Piece(front)`next, Piece(front)`kind, Piece(front)`id, (Piece(front) + Only(next))`previous
    ensures linked == Append(Snoc(Nil, it, front.content), done) && Distinct(linked)
    ensures Linked(linked, it.previous, it) == true && it.previous == old(it.previous)
    ensures Advanced(Members(linked), Level(linked), was) == true
    decreases Size(front), 0, 1
  {
    MembersAllocated(done);
    ghost var piece := Snoc(Nil, it, front.content);
    assert Size(piece) <= Size(front);
    it.next := next;
    assert Waiting(done, next) == true;
    InlinePiece(it, piece, done, was);
    linked := Append(piece, done);
    PieceAdvanced(piece, done, was);
    PieceLinked(piece, done, it, next);
  }

  lemma FirstPiece(c: Chain)
    requires c.Snoc?
    ensures var piece := Append(Snoc(Nil, c.item, c.content), Nil); piece.Snoc? && Append(c.front, piece) == c
  {
    assert Append(c.front, Nil) == c.front;
  }

  /** The chain `c` is linked from `next` on; what is left of it ends at `it`. */
  ghost predicate PartlyLinked(c: Chain, front: Chain, done: Chain, it: Item?, next: Item?, was: map<Item, Kind>)
    reads Members(front), Members(done)
  {
    && c == Append(front, done) && done.Snoc? && Distinct(done)
    && Linked(done, it, next) && Shape(front, it, was) && Advanced(Members(done), Level(done), was)
  }

  /** Link one more item of the chain. */
  method LinkOne(it: Item, next: Item?, ghost c: Chain, ghost front: Chain, ghost done: Chain, ghost was: map<Item, Kind>)
    returns (ghost linked: Chain)
    requires Distinct(c) && PartlyLinked(c, front, done, it, next, was) && ExtrasEnded(was)
    requires front.Snoc? && Size(front) < Size(c)
    modifies Members(c)`next, Members(c)`previous, Members(c)`kind, Members(c)`id
    ensures PartlyLinked(c, front.front, linked, it.previous, it, was) == true
    decreases Size(front), 0, 2
  {
    NextPiece(front, done);
    MembersAllocated(front);
    assert Shape(front.front, it.previous, was) == true;
    linked := LinkForward(it, next, front, done, was);
    assert Shape(front.front, it.previous, was) == true;
    assert Linked(linked, it.previous, it);
  }

  /** Add forward links to the chain with tail `last`, in-lining what it imports. */
  method LinkAll(last: Item, ghost c: Chain, ghost was: map<Item, Kind>) returns (head: Item)
    requires c.Snoc? && Distinct(c) && Shape(c, last, was) && ExtrasEnded(was)
    modifies Members(c)`next, Members(c)`previous, Members(c)`kind, Members(c)`id
    ensures Linked(c, null, head) == true && Advanced(Members(c), Level(c), was) == true
    decreases Size(c), 1
  {
    MembersAllocated(c);
    ghost var front := c.front;
    ghost var done := LinkForward(last, null, c, Nil, was);
    FirstPiece(c);
    assert Shape(front, last.previous, was) == true;
    var next := last;
    var it := last.previous;
    assert PartlyLinked(c, front, done, it, next, was);
    while it != null
      invariant Size(front) < Size(c)
      invariant PartlyLinked(c, front, done, it, next, was) == true  // as one goal, not unfolded
      decreases Size(front)
    {
      done := LinkOne(it, next, c, front, done, was);
      next := it;
      it := it.previous;
      front := front.front;
    }
    AppendNil(done);
    head := next;
  }

  /** Two stretches whose ends point at each other are one stretch. */
  lemma Joined(a: seq<Item>, b: seq<Item>)
    requires a != [] && b != [] && Segment(a) && Segment(b)
    requires a[|a| - 1].next == b[0] && b[0].previous == a[|a| - 1]
    ensures Segment(a + b)
  {
    assert forall i :: 0 <= i < |a| ==> (a + b)[i] == a[i];
    assert forall i :: |a| <= i < |a + b| ==> (a + b)[i] == b[i - |a|];
  }

  lemma {:induction false} KeptIsSegment(c: Chain)
    requires c.Snoc? && Distinct(c) && KeptInner(c)
    ensures Segment(Kept(c)) && Kept(c)[0] == First(c)
    decreases c, 0
  {
    if c.front.Snoc? {
      FlatIsSegment(c.front);
      Joined(Flat(c.front), [c.item]);
    }
  }

  lemma {:induction false} FlatIsSegment(c: Chain)
    requires c.Snoc? && Distinct(c) && FlatInner(c)
    ensures Segment(Flat(c)) && Flat(c)[0] == First(c) && Flat(c)[|Flat(c)| - 1] == Final(c)
    decreases c, 1
  {
    KeptIsSegment(c);
    if c.content.Nil? {
      assert Flat(c) == Kept(c);
    } else {
      KeptIsSegment(c.content);
      Joined(Kept(c), Kept(c.content));
    }
  }

  lemma {:induction false} LevelInFlat(c: Chain)
    ensures forall x :: x in Level(c) ==> x in Flat(c)
  {
    if c.Snoc? {
      LevelInFlat(c.front);
    }
  }

  /** A finished chain is a doubly linked list. */
  lemma LinkedIsList(c: Chain, head: Item)
    requires c.Snoc? && Distinct(c) && Linked(c, null, head)
    ensures DoublyLinked(Flat(c)) == true && Unique(Flat(c)) == true && head == Flat(c)[0]
    ensures forall x :: x in Level(c) ==> x in Flat(c)
  {
    FlatIsSegment(c);
    FlatUnique(c);
    LevelInFlat(c);
  }

  /** Hiding the skipped tests of a linked list settles all kinds. */
  method Hide(head: Item, ghost c: Chain, ghost was: map<Item, Kind>)
    requires c.Snoc? && Distinct(c) && Linked(c, null, head) == true && ExtrasEnded(was)
    requires Advanced(Members(c), Level(c), was)
    modifies Members(c)`kind
    ensures DoublyLinked(Flat(c)) == true && Unique(Flat(c)) == true && head == Flat(c)[0]
    ensures AllSettled(Members(c), was) == true
  {
    LinkedIsList(c, head);
    DetectSkippedTests(head, Flat(c), Members(c));
  }

  /** Hide the skipped tests, then set the ids. */
  method HideAndNumber(head: Item, ghost c: Chain, ghost was: map<Item, Kind>)
    requires c.Snoc? && Distinct(c) && Linked(c, null, head) == true && ExtrasEnded(was)
    requires Advanced(Members(c), Level(c), was) == true
    modifies Members(c)`kind, Members(c)`id
    ensures DoublyLinked(Flat(c)) == true && head == Flat(c)[0]
    ensures AllSettled(Members(c), was) == true
    ensures Numbered(Flat(c), Kinds(Flat(c)), |Flat(c)|) == true
  {
    MembersAllocated(c);
    Hide(head, c, was);
    SetIds(head, Flat(c), Members(c));
  }

  /** The kinds of the items, as they follow from the declarations: a test is hidden if and
      only if a skip mark stands before its terminator; imports are hidden, and no other
      kind changes. */
  ghost predicate KindsFollow(s: set<Item>, was: map<Item, Kind>)
    reads s`kind
  {
    forall x :: x in s ==>
      && x in was && (x.kind == was[x] != Nested || (x.kind == Skip && (was[x] == Nested || was[x] == Test)))
      && (was[x] == Test ==>
            (x.kind == Skip <==> exists j :: 0 <= j < |x.extras| && x.extras[j] == SkipTest && Last !in x.extras[..j]))
  }

  lemma SettledMembers(s: set<Item>, was: map<Item, Kind>)
    requires AllSettled(s, was)
    ensures KindsFollow(s, was) == true
  {
    forall x | x in s {
      SettledIs(was[x], x.extras);
    }
  }

  /** An id is the number of visible items before and one more. */
  ghost predicate CountedIds(s: seq<Item>, ks: seq<Kind>)
    requires |s| == |ks|
    reads s`id
  {
    forall i :: 0 <= i < |s| && ks[i] != Skip ==> s[i].id == |Visible(ks, i)| + 1
  }

  lemma IdsCount(s: seq<Item>, ks: seq<Kind>)
    requires |s| == |ks| && Numbered(s, ks, |s|)
    ensures CountedIds(s, ks) == true
  {
    forall i | 0 <= i < |s| && ks[i] != Skip ensures s[i].id == |Visible(ks, i)| + 1 {
      RankCounts(ks, i);
    }
  }

  /** Convert the backward chain with tail `last` into a flat doubly linked list. */
  method FixList(last: Item, ghost c: Chain, ghost was: map<Item, Kind>) returns (head: Item)
    requires c.Snoc? && Distinct(c) && Shape(c, last, was) && ExtrasEnded(was)
    modifies Members(c)`next, Members(c)`previous, Members(c)`kind, Members(c)`id
    ensures DoublyLinked(Flat(c)) && head == Flat(c)[0]
    ensures head == First(c) && Final(c).next == null && FlatInner(c)
    ensures AllSettled(Members(c), was) == true
    ensures KindsFollow(Members(c), was) == true
    ensures Numbered(Flat(c), Kinds(Flat(c)), |Flat(c)|)
    ensures CountedIds(Flat(c), Kinds(Flat(c))) == true
    decreases Size(c), 3
  {
    head := LinkAll(last, c, was);
    HideAndNumber(head, c, was);
    SettledMembers(Members(c), was);
    IdsCount(Flat(c), Kinds(Flat(c)));
  }

  /** In a doubly linked list the two directions agree, between any two items. */
  lemma DirectionsAgree(s: seq<Item>, i: nat, j: nat)
    requires DoublyLinked(s) && Unique(s) && i < |s| && j < |s|
    ensures s[i].next == s[j] <==> j == i + 1
    ensures s[j].previous == s[i] <==> j == i + 1
  {
    UniqueIndices(s);
  }
}
