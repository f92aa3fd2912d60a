/**
 Where insert puts things. An element the table still has is brought back to life where it is; one
 with a free place gets the first of these; and otherwise a chain of moves is made, each element
 going to the place after the one it has lost, until one finds a free place or the depth runs out.
 */
module CuckooEffects {
  import opened CuckooCache
  import opened Numbers

  // ---------------------------------------------------------------- one slot

  /** One slot is filled, and nothing else changes. */
  ghost predicate Filled(c: Cache, r: Cache, loc: nat, e: Element, recent: bool)
    requires Shape(c) && Shape(r)
  {
    && |r.table| == |c.table| && loc < |c.table| && r.table[loc] == e && !r.collected[loc] && r.recent[loc] == recent
    && (forall i :: 0 <= i < |c.table| && i != loc ==>
          r.table[i] == c.table[i] && r.collected[i] == c.collected[i] && r.recent[i] == c.recent[i])
    && r.counter == c.counter && r.epochSize == c.epochSize && r.depth == c.depth
  }

  /** The k-th place of an element is the first that is free. */
  ghost predicate FirstFreeIs(c: Cache, locs: seq<nat>, k: nat) {
    && k < |locs| && locs[k] < |c.collected| && c.collected[locs[k]]
    && forall j :: 0 <= j < k && locs[j] < |c.collected| ==> !c.collected[locs[j]]
  }

  ghost predicate NoneFree(c: Cache, locs: seq<nat>) {
    forall j :: 0 <= j < |locs| && locs[j] < |c.collected| ==> !c.collected[locs[j]]
  }

  /** The k-th place of an element is the first that holds it. */
  ghost predicate FirstHolds(c: Cache, locs: seq<nat>, e: Element, k: nat) {
    && k < |locs| && locs[k] < |c.table| && c.table[locs[k]] == e
    && forall j :: 0 <= j < k && locs[j] < |c.table| ==> c.table[locs[j]] != e
  }

  lemma {:induction false} FirstFreeAt(c: Cache, locs: seq<nat>, k: nat)
    requires FirstFreeIs(c, locs, k)
    ensures FirstFree(c, locs) == k
  {
    if k > 0 {
      assert locs[1..][k - 1] == locs[k];
      assert forall j :: 0 <= j < k - 1 ==> locs[1..][j] == locs[j + 1];
      FirstFreeAt(c, locs[1..], k - 1);
    }
  }

  lemma {:induction false} FirstHoldsAt(c: Cache, locs: seq<nat>, e: Element, k: nat)
    requires FirstHolds(c, locs, e, k)
    ensures FirstWith(c, locs, e) == k
  {
    if k > 0 {
      assert locs[1..][k - 1] == locs[k];
      assert forall j :: 0 <= j < k - 1 ==> locs[1..][j] == locs[j + 1];
      FirstHoldsAt(c, locs[1..], e, k - 1);
    }
  }

  lemma {:induction false} PutFills(c: Cache, loc: nat, e: Element, recent: bool)
    requires Shape(c) && loc < |c.table|
    ensures Shape(Put(c, loc, e, recent)) && Filled(c, Put(c, loc, e, recent), loc, e, recent)
  {
  }

  lemma {:induction false} FilledIsLive(c: Cache, r: Cache, loc: nat, e: Element, recent: bool)
    requires Shape(c) && Shape(r) && Filled(c, r, loc, e, recent)
    ensures loc in Copies(r, e) && forall x, i :: i in Copies(c, x) && i != loc ==> i in Copies(r, x)
  {
  }

  // ---------------------------------------------------------------- insert that finds or has room

  /** An element that one of its places still holds, dead or alive: the first such slot is made live and recent. */
  lemma {:induction false} InsertRevives(c: Cache, at: Element -> seq<nat>, e: Element, k: nat)
    requires Inv(c, at) && FirstHolds(EpochCheck(c), at(e), e, k)
    ensures var (r, d) := Insert(c, at, e);
      d == Nothing && Shape(r) && Filled(EpochCheck(c), r, at(e)[k], e, true)
  {
    EpochCheckKeeps(c, at);
    var m := EpochCheck(c);
    FirstHoldsAt(m, at(e), e, k);
    PutFills(m, at(e)[k], e, true);
  }

  ghost predicate Absent(c: Cache, locs: seq<nat>, e: Element) {
    forall j :: 0 <= j < |locs| && locs[j] < |c.table| ==> c.table[locs[j]] != e
  }

  lemma {:induction false} AbsentNotFound(c: Cache, locs: seq<nat>, e: Element)
    requires Absent(c, locs, e)
    ensures FirstWith(c, locs, e) == |locs|
  {
    FirstWithFacts(c, locs, e);
  }

  /** A new element with a free place gets the first of these, and nothing else changes. */
  lemma {:induction false} InsertFillsFree(c: Cache, at: Element -> seq<nat>, e: Element, k: nat)
    requires Inv(c, at) && c.depth > 0 && Absent(EpochCheck(c), at(e), e) && FirstFreeIs(EpochCheck(c), at(e), k)
    ensures var (r, d) := Insert(c, at, e);
      d == Nothing && Shape(r) && Filled(EpochCheck(c), r, at(e)[k], e, true)
  {
    EpochCheckKeeps(c, at);
    var m := EpochCheck(c);
    AbsentNotFound(m, at(e), e);
    FirstFreeAt(m, at(e), k);
    PutFills(m, at(e)[k], e, true);
  }

  /** Some place of an element is free or holds it. */
  ghost predicate HasRoom(c: Cache, locs: seq<nat>, e: Element) {
    !NoneFree(c, locs) || !Absent(c, locs, e)
  }

  lemma {:induction false} FirstOfFree(c: Cache, locs: seq<nat>) returns (k: nat)
    requires !NoneFree(c, locs)
    ensures FirstFreeIs(c, locs, k)
  {
    k := FirstFree(c, locs);
    FirstFreeFacts(c, locs);
    FreeIsFirst(c, locs);
  }

  lemma {:induction false} FirstOfHolders(c: Cache, locs: seq<nat>, e: Element) returns (k: nat)
    requires !Absent(c, locs, e)
    ensures FirstHolds(c, locs, e, k)
  {
    k := FirstWith(c, locs, e);
    FirstWithFacts(c, locs, e);
    forall j | 0 <= j < k && locs[j] < |c.table| ensures c.table[locs[j]] != e {
      if c.table[locs[j]] == e {
        FirstWithFirst(c, locs, e, j);
      }
    }
  }

  /**
   With room for it, an inserted element is live and recent afterwards, contains finds it, everything
   that epoch_check left live is still live, and nothing is dropped.
   */
  lemma {:induction false} InsertWithRoom(c: Cache, at: Element -> seq<nat>, e: Element)
    requires Inv(c, at) && c.depth > 0 && HasRoom(EpochCheck(c), at(e), e)
    ensures var (r, d) := Insert(c, at, e); var m := EpochCheck(c);
      && d == Nothing && Shape(m) && Shape(r) && Copies(r, e) != {} && Copies(r, e) <= Recent(r)
      && (forall x :: Copies(m, x) != {} ==> Copies(r, x) != {})
      && Placing(at, |r.table|) && Contains(r, at, e, false).1
  {
    EpochCheckKeeps(c, at);
    InsertKeeps(c, at, e);
    var m, r := EpochCheck(c), Insert(c, at, e).0;
    ghost var k;
    if Absent(m, at(e), e) {
      k := FirstOfFree(m, at(e));
      InsertFillsFree(c, at, e, k);
    } else {
      k := FirstOfHolders(m, at(e), e);
      InsertRevives(c, at, e, k);
    }
    FilledIsLive(m, r, at(e)[k], e, true);
    CopiesOnce(r, at, e);
    OneCopy(Copies(r, e), at(e)[k]);
    forall x | Copies(m, x) != {} ensures Copies(r, x) != {} {
      InsertConserves(c, at, e, x);
    }
    ContainsFinds(r, at, e, false, e);
  }

  lemma {:induction false} OneCopy(s: set<nat>, x: nat)
    requires x in s && |s| <= 1
    ensures s == {x}
  {
    if y :| y in s && y != x {
      assert {x, y} <= s;
      SubsetSize({x, y}, s);
    }
  }

  lemma {:induction false} SubsetSize(a: set<nat>, b: set<nat>)
    requires a <= b
    ensures |a| <= |b|
  {
    if x :| x in a {
      SubsetSize(a - {x}, b - {x});
    }
  }

  // ---------------------------------------------------------------- insert without room

  /** An element is put down at a place. */
  datatype Move = Move(e: Element, loc: nat, recent: bool)

  ghost predicate InTable(c: Cache, moves: seq<Move>) {
    Shape(c) && forall i :: 0 <= i < |moves| ==> moves[i].loc < |c.table|
  }

  ghost function Moved(c: Cache, moves: seq<Move>): (r: Cache)
    requires InTable(c, moves)
    ensures Shape(r) && |r.table| == |c.table|
    decreases |moves|
  {
    if moves == [] then c else Moved(Put(c, moves[0].loc, moves[0].e, moves[0].recent), moves[1..])
  }

  /** The place after the first occurrence of a given one, going around; the second if it does not occur. */
  ghost predicate After(locs: seq<nat>, last: int, loc: nat) {
    && |locs| == PLACES
    && (forall j :: 0 <= j < PLACES && locs[j] == last && (forall i :: 0 <= i < j ==> locs[i] != last) ==>
          loc == locs[if j == PLACES - 1 then 0 else j + 1])
    && ((forall j :: 0 <= j < PLACES ==> locs[j] != last) ==> loc == locs[1])
  }

  /** Where an element that was last at a given place is put down: the first free place, or else the next one. */
  ghost predicate Chosen(c: Cache, locs: seq<nat>, last: int, loc: nat) {
    (exists k: nat :: FirstFreeIs(c, locs, k) && loc == locs[k]) || (NoneFree(c, locs) && After(locs, last, loc))
  }

  lemma {:induction false} IndexIsFirst(locs: seq<nat>, last: int, j: nat)
    requires j < |locs| && locs[j] == last && forall i :: 0 <= i < j ==> locs[i] != last
    ensures IndexOf(locs, last) == j
  {
    if j > 0 {
      assert forall i :: 0 <= i < j ==> locs[1..][i] == locs[i + 1];
      IndexIsFirst(locs[1..], last, j - 1);
    }
  }

  lemma {:induction false} IndexIsNone(locs: seq<nat>, last: int)
    requires forall i :: 0 <= i < |locs| ==> locs[i] != last
    ensures IndexOf(locs, last) == |locs|
  {
    if locs != [] {
      IndexIsNone(locs[1..], last);
    }
  }

  lemma {:induction false} NextIsAfter(locs: seq<nat>, last: int)
    requires |locs| == PLACES
    ensures After(locs, last, NextPlace(locs, last))
  {
    forall j | 0 <= j < PLACES && locs[j] == last && (forall i :: 0 <= i < j ==> locs[i] != last)
      ensures NextPlace(locs, last) == locs[if j == PLACES - 1 then 0 else j + 1]
    {
      IndexIsFirst(locs, last, j);
    }
    if forall j :: 0 <= j < PLACES ==> locs[j] != last {
      IndexIsNone(locs, last);
    }
  }

  /** The i-th move is from what the earlier ones have left. */
  ghost function Before(c: Cache, moves: seq<Move>, i: nat): (r: Cache)
    requires InTable(c, moves) && i <= |moves|
    ensures Shape(r) && |r.table| == |c.table|
  {
    Moved(c, moves[..i])
  }

  /** What is at a place is live and is taken along. */
  ghost predicate TakenFrom(c: Cache, loc: nat, e: Element, recent: bool) {
    loc < |c.table| == |c.collected| == |c.recent| && !c.collected[loc] && c.table[loc] == e && c.recent[loc] == recent
  }

  /** Each element moved is the one whose place the move before took, and goes where it should. */
  ghost predicate Linked(c: Cache, at: Element -> seq<nat>, moves: seq<Move>, last: int, i: nat)
    requires InTable(c, moves) && i < |moves|
  {
    && Chosen(Before(c, moves, i), at(moves[i].e), if i == 0 then last else moves[i - 1].loc, moves[i].loc)
    && (i > 0 ==> TakenFrom(Before(c, moves, i - 1), moves[i - 1].loc, moves[i].e, moves[i].recent))
  }

  /**
   A chain of moves for an element, and its end: a free place was found, or as many moves were made
   as the depth allows and what the last of them displaced is dropped.
   */
  ghost predicate Chain(
    c: Cache, at: Element -> seq<nat>, moves: seq<Move>, e: Element, last: int, recent: bool, depth: nat, d: Dropped)
    requires InTable(c, moves)
  {
    var n := |moves|;
    && n <= depth && (n > 0 ==> moves[0].e == e && moves[0].recent == recent)
    && (forall i :: 0 <= i < n ==> Linked(c, at, moves, last, i))
    && (match d
        case Nothing => n > 0 && Before(c, moves, n - 1).collected[moves[n - 1].loc]
        case Dropped(x, young) =>
          n == depth && if n == 0 then x == e && young == recent
                        else TakenFrom(Before(c, moves, n - 1), moves[n - 1].loc, x, young))
  }

  lemma {:induction false} BeforeLater(c: Cache, moves: seq<Move>, i: nat)
    requires InTable(c, moves) && 0 < i <= |moves|
    ensures var p := Put(c, moves[0].loc, moves[0].e, moves[0].recent);
      InTable(p, moves[1..]) && Before(c, moves, i) == Before(p, moves[1..], i - 1)
  {
    assert moves[..i][1..] == moves[1..][..i - 1];
  }

  lemma {:induction false} LinkedLater(c: Cache, at: Element -> seq<nat>, moves: seq<Move>, last: int, i: nat)
    requires InTable(c, moves) && 0 < i < |moves|
    requires TakenFrom(c, moves[0].loc, moves[1].e, moves[1].recent)
    requires var p := Put(c, moves[0].loc, moves[0].e, moves[0].recent);
      InTable(p, moves[1..]) && Linked(p, at, moves[1..], moves[0].loc, i - 1)
    ensures Linked(c, at, moves, last, i)
  {
    BeforeLater(c, moves, i);
    if i > 1 {
      BeforeLater(c, moves, i - 1);
    } else {
      assert moves[..0] == [];
    }
  }

  /** A chain goes on with the element that was displaced. */
  lemma {:induction false} ChainFirst(
    c: Cache, at: Element -> seq<nat>, e: Element, last: int, recent: bool, loc: nat, rest: seq<Move>, depth: nat,
    d: Dropped)
    requires Shape(c) && depth > 0 && loc < |c.table| && !c.collected[loc] && Chosen(c, at(e), last, loc)
    requires var p := Put(c, loc, e, recent);
      InTable(p, rest) && Chain(p, at, rest, c.table[loc], loc, c.recent[loc], depth - 1, d)
    ensures var moves := [Move(e, loc, recent)] + rest;
      InTable(c, moves) && Chain(c, at, moves, e, last, recent, depth, d)
  {
    var moves := [Move(e, loc, recent)] + rest;
    var n := |moves|;
    assert moves[1..] == rest && moves[..0] == [];
    forall i | 0 <= i < n ensures Linked(c, at, moves, last, i) {
      if i > 0 {
        assert Linked(Put(c, loc, e, recent), at, rest, loc, i - 1);
        LinkedLater(c, at, moves, last, i);
      }
    }
    if n > 1 {
      BeforeLater(c, moves, n - 1);
    }
  }

  lemma {:induction false} ChainLast(
    c: Cache, at: Element -> seq<nat>, e: Element, last: int, recent: bool, k: nat, depth: nat)
    requires Shape(c) && depth > 0 && FirstFreeIs(c, at(e), k)
    ensures var moves := [Move(e, at(e)[k], recent)];
      && InTable(c, moves) && Moved(c, moves) == Put(c, at(e)[k], e, recent)
      && Chain(c, at, moves, e, last, recent, depth, Nothing)
  {
    var moves := [Move(e, at(e)[k], recent)];
    assert moves[..0] == [] && moves[1..] == [];
    assert Linked(c, at, moves, last, 0);
  }

  lemma {:induction false} MovedFirst(c: Cache, moves: seq<Move>, rest: seq<Move>)
    requires InTable(c, moves) && moves != [] && rest == moves[1..]
    ensures var p := Put(c, moves[0].loc, moves[0].e, moves[0].recent);
      InTable(p, rest) && Moved(c, moves) == Moved(p, rest)
  {
  }

  /** One round of the loop with a free place, and one without. */
  lemma {:induction false} SettleStops(
    c: Cache, at: Element -> seq<nat>, e: Element, last: int, recent: bool, depth: nat, k: nat)
    requires Shape(c) && Placing(at, |c.table|) && depth > 0 && k == FirstFree(c, at(e)) && k < PLACES
    ensures FirstFreeIs(c, at(e), k) && Settle(c, at, e, last, recent, depth) == (Put(c, at(e)[k], e, recent), Nothing)
  {
    FirstFreeFacts(c, at(e));
    FreeIsFirst(c, at(e));
  }

  lemma {:induction false} SettleGoesOn(
    c: Cache, at: Element -> seq<nat>, e: Element, last: int, recent: bool, depth: nat, loc: nat)
    requires Seated(c, at) && Copies(c, e) == {} && depth > 0
    requires FirstFree(c, at(e)) >= PLACES && loc == NextPlace(at(e), last)
    ensures loc < |c.table| && !c.collected[loc] && Chosen(c, at(e), last, loc)
    ensures var p := Put(c, loc, e, recent);
      && Seated(p, at) && Copies(p, c.table[loc]) == {}
      && Settle(c, at, e, last, recent, depth) == Settle(p, at, c.table[loc], loc, c.recent[loc], depth - 1)
  {
    RoundKeeps(c, at, e, last, recent);
    FirstFreeFacts(c, at(e));
    NextIsAfter(at(e), last);
  }

  lemma {:induction false} SettleChain(
    c: Cache, at: Element -> seq<nat>, e: Element, last: int, recent: bool, depth: nat, r: Cache, d: Dropped)
    returns (moves: seq<Move>)
    requires Seated(c, at) && Copies(c, e) == {} && (r, d) == Settle(c, at, e, last, recent, depth)
    ensures InTable(c, moves) && r == Moved(c, moves) && Chain(c, at, moves, e, last, recent, depth, d)
    decreases depth
  {
    if depth == 0 {
      moves := [];
    } else if FirstFree(c, at(e)) < PLACES {
      var k := FirstFree(c, at(e));
      SettleStops(c, at, e, last, recent, depth, k);
      ChainLast(c, at, e, last, recent, k, depth);
      moves := [Move(e, at(e)[k], recent)];
    } else {
      var loc := NextPlace(at(e), last);
      SettleGoesOn(c, at, e, last, recent, depth, loc);
      var rest := SettleChain(Put(c, loc, e, recent), at, c.table[loc], loc, c.recent[loc], depth - 1, r, d);
      ChainFirst(c, at, e, last, recent, loc, rest, depth, d);
      moves := [Move(e, loc, recent)] + rest;
      MovedFirst(c, moves, rest);
    }
  }

  /**
   A new element without room is put at its second place, and what was there moves on. The moves end
   at a free place, or use up the depth and drop what the last of them displaced.
   */
  lemma {:induction false} InsertChain(c: Cache, at: Element -> seq<nat>, e: Element) returns (moves: seq<Move>)
    requires Inv(c, at) && Absent(EpochCheck(c), at(e), e)
    ensures var (r, d) := Insert(c, at, e); var m := EpochCheck(c);
      InTable(m, moves) && r == Moved(m, moves) && Chain(m, at, moves, e, -1, true, m.depth, d)
  {
    EpochCheckKeeps(c, at);
    var m := EpochCheck(c);
    AbsentNotFound(m, at(e), e);
    AbsentIsDead(m, at, e);
    moves := SettleChain(m, at, e, -1, true, m.depth, Insert(c, at, e).0, Insert(c, at, e).1);
  }

  /** With depth one, what is dropped for want of room is what was at the second place, not the new element. */
  lemma {:induction false} InsertDropsOther(c: Cache, at: Element -> seq<nat>, e: Element)
    requires Inv(c, at) && c.depth == 1 && !HasRoom(EpochCheck(c), at(e), e)
    ensures var (r, d) := Insert(c, at, e); var m, loc := EpochCheck(c), at(e)[1];
      && Shape(m) && Shape(r) && loc < |m.table| && m.table[loc] != e
      && d == Dropped(m.table[loc], m.recent[loc]) && Filled(m, r, loc, e, true)
  {
    EpochCheckKeeps(c, at);
    var m := EpochCheck(c);
    var moves := InsertChain(c, at, e);
    assert moves[..0] == [];
    if |moves| == 1 {
      assert Linked(m, at, moves, -1, 0) && moves[1..] == [];
      PutFills(m, moves[0].loc, e, true);
    }
  }

  // ---------------------------------------------------------------- epochs

  /** The counter says how many insertions are left before the recent elements are counted again. */
  lemma {:induction false} EpochCheckExact(c: Cache)
    requires Shape(c)
    ensures var r, n := EpochCheck(c), |Recent(c)|;
      && r.table == c.table && |r.collected| == |r.recent| == |c.table| && r.epochSize == c.epochSize
        && r.depth == c.depth
      && (c.counter > 0 || n < c.epochSize ==> r.collected == c.collected && r.recent == c.recent)
      && (c.counter > 0 ==> r.counter == c.counter - 1)
      && (c.counter == 0 && n < c.epochSize ==>
            1 <= r.counter && c.epochSize / 16 <= r.counter && c.epochSize - n <= r.counter
            && (r.counter == 1 || r.counter == c.epochSize / 16 || r.counter == c.epochSize - n))
      && (c.counter == 0 && n >= c.epochSize ==>
            r.counter == c.epochSize
            && forall i :: 0 <= i < |c.table| ==> !r.recent[i] && r.collected[i] == (c.collected[i] || !c.recent[i]))
  {
    ScanCounts(c, |c.table|, Recent(c));
  }

  /** The live slots of the current epoch that hold an element. */
  ghost function Young(c: Cache, x: Element): set<nat>
    requires Shape(c)
  {
    set i | 0 <= i < |c.table| && !c.collected[i] && c.recent[i] && c.table[i] == x
  }

  lemma {:induction false} PutYoungSet(c: Cache, loc: nat, e: Element, recent: bool, x: Element, put: bool)
    requires Shape(c) && loc < |c.table| && put == (e == x && recent)
    ensures Young(Put(c, loc, e, recent), x) == Young(c, x) - {loc} + if put then {loc} else {}
    ensures loc in Young(c, x) <==> !c.collected[loc] && c.recent[loc] && c.table[loc] == x
  {
  }

  lemma {:induction false} PutYoung(c: Cache, loc: nat, e: Element, recent: bool, x: Element)
    requires Shape(c) && loc < |c.table|
    ensures |Young(Put(c, loc, e, recent), x)| + One(!c.collected[loc] && c.recent[loc] && c.table[loc] == x)
            == |Young(c, x)| + One(e == x && recent)
  {
    var put := e == x && recent;
    PutYoungSet(c, loc, e, recent, x, put);
    SwapOne(Young(c, x), loc, put, Young(Put(c, loc, e, recent), x));
  }

  /** Every element keeps its epoch through the moves: recent copies are conserved as all copies are. */
  lemma {:induction false} SettleEpochs(
    c: Cache, at: Element -> seq<nat>, e: Element, last: int, recent: bool, depth: nat, x: Element)
    requires Seated(c, at) && Copies(c, e) == {}
    ensures var (r, d) := Settle(c, at, e, last, recent, depth);
      && Shape(r)
      && |Young(r, x)| + One(d.Dropped? && d.recent && d.e == x) == |Young(c, x)| + One(e == x && recent)
    decreases depth
  {
    if depth > 0 {
      RoundKeeps(c, at, e, last, recent);
      PutYoung(c, at(e)[Spot(c, at(e), last)], e, recent, x);
      if FirstFree(c, at(e)) >= PLACES {
        var loc := NextPlace(at(e), last);
        SettleEpochs(Put(c, loc, e, recent), at, c.table[loc], loc, c.recent[loc], depth - 1, x);
      }
    }
  }

  // ---------------------------------------------------------------- setup and places

  /** A new table is all free, and its epochs are 45 hundredths of its size as long as the product fits 32 bits. */
  lemma {:induction false} SetupFacts(newSize: nat, depth: nat, blank: Element)
    ensures var c := Setup(newSize, depth, blank); var n := |c.table|;
      && Shape(c) && n >= 2 && n >= newSize && (n == 2 || n == newSize) && c.depth == depth
      && (forall i :: 0 <= i < n ==> c.collected[i] && !c.recent[i]) && c.counter == c.epochSize >= 1
      && (45 * n < TWO_32 ==> c.epochSize * 100 <= 45 * n + 100 && 45 * n < c.epochSize * 100 + 100)
  {
  }

  /**
   The reduction keeps the order of the hashes: the k-th place of an element is the r-th of `size`
   equal parts of the 32-bit numbers in which its k-th hash lies.
   */
  lemma {:induction false} PlacesAre(h: (nat, Element) -> Hash32, size: nat, e: Element, k: nat)
    requires k < 8
    ensures |Places(h, size)(e)| == 8
    ensures var r, x := Places(h, size)(e)[k], h(k, e); r * 0x1_0000_0000 <= x * size < (r + 1) * 0x1_0000_0000
  {
    var x := h(k, e);
    assert Places(h, size)(e)[k] == x * size / TWO_32;
  }

  /** The smallest hash that FastRange32 takes to a given place. */
  lemma {:induction false} FastRangeCovers(n: nat, r: nat) returns (x: Hash32)
    requires r < n <= TWO_32
    ensures FastRange32(x, n) == r
  {
    var a := r * TWO_32;
    var y := (a + n - 1) / n;
    CeilingFacts(a, n, y);
    CoverBound(r, n, y);
    DivIs(y * n, TWO_32, r);
    x := y;
  }

  lemma {:induction false} CeilingFacts(a: nat, n: nat, y: nat)
    requires n > 0 && y == (a + n - 1) / n
    ensures a <= y * n < a + n
  {
    var b := a + n - 1;
    var q, m := b / n, b % n;
    assert b == q * n + m;
  }

  lemma {:induction false} CoverBound(r: nat, n: nat, y: nat)
    requires r < n <= TWO_32 && y * n < r * TWO_32 + n
    ensures y < TWO_32 && y * n < (r + 1) * TWO_32
  {
    MulMono(r + 1, n, TWO_32);
    if y >= TWO_32 {
      MulMono(TWO_32, y, n);
    }
  }

  lemma {:induction false} DivIs(a: nat, d: nat, q: nat)
    requires d > 0 && q * d <= a < (q + 1) * d
    ensures a / d == q
  {
    var x := a / d;
    assert x * d <= a < (x + 1) * d;
    if x < q {
      MulMono(x + 1, q, d);
    } else if x > q {
      MulMono(q + 1, x, d);
    }
  }

  /** Eight hashes can put an element at any eight places: each place is chosen by a hash of its own. */
  lemma {:induction false} PlacesCover(size: nat, want: seq<nat>, e: Element) returns (h: (nat, Element) -> Hash32)
    requires 0 < size <= TWO_32 && |want| == PLACES && forall k :: 0 <= k < PLACES ==> want[k] < size
    ensures Places(h, size)(e) == want
  {
    var x0 := FastRangeCovers(size, want[0]);
    var x1 := FastRangeCovers(size, want[1]);
    var x2 := FastRangeCovers(size, want[2]);
    var x3 := FastRangeCovers(size, want[3]);
    var x4 := FastRangeCovers(size, want[4]);
    var x5 := FastRangeCovers(size, want[5]);
    var x6 := FastRangeCovers(size, want[6]);
    var x7 := FastRangeCovers(size, want[7]);
    h := (k: nat, y: Element) =>
      if k == 0 then x0 else if k == 1 then x1 else if k == 2 then x2 else if k == 3 then x3
      else if k == 4 then x4 else if k == 5 then x5 else if k == 6 then x6 else x7;
  }
}
