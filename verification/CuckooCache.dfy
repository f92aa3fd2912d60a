/**
 The cuckoo cache of verified signatures and scripts: a table in which every element has eight
 possible places, with a flag per slot that allows it to be overwritten and a flag that tells
 the current epoch from the previous one. Elements are erased lazily, by aging.

 Proved of every run: what is live sits at one of its own places, and only once; an insertion
 loses at most one live element, and erases more only when it ages the epochs; and the counter
 that postpones scans still bounds the live elements of each epoch.
 */
module CuckooCache {

  const PLACES := 8
  const TWO_32 := 0x1_0000_0000

  type Hash32 = x: nat | x < TWO_32
  type Element = nat

  /** FastRange32. */
  function FastRange32(x: Hash32, n: nat): nat {
    x * n / TWO_32
  }

  lemma {:induction false} FastRangeInRange(x: Hash32, n: nat)
    requires n > 0
    ensures FastRange32(x, n) < n
  {
    MulBelow(x, TWO_32, n);
    DivBelow(x * n, n);
  }

  lemma {:induction false} MulBelow(x: nat, y: nat, n: nat)
    requires x < y && n > 0
    ensures x * n < n * y
  {
  }

  lemma {:induction false} DivBelow(a: nat, n: nat)
    requires a < n * TWO_32
    ensures a / TWO_32 < n
  {
  }

  /** compute_hashes. */
  function Places(h: (nat, Element) -> Hash32, size: nat): Element -> seq<nat> {
    (e: Element) => [FastRange32(h(0, e), size), FastRange32(h(1, e), size), FastRange32(h(2, e), size),
                     FastRange32(h(3, e), size), FastRange32(h(4, e), size), FastRange32(h(5, e), size),
                     FastRange32(h(6, e), size), FastRange32(h(7, e), size)]
  }

  /** The assumption on the places of elements that the rest relies on. */
  ghost predicate Placing(at: Element -> seq<nat>, size: nat) {
    && (forall e :: |at(e)| == PLACES)
    && (forall e, k :: 0 <= k < PLACES && k < |at(e)| ==> at(e)[k] < size)
  }

  lemma {:induction false} PlacesArePlacing(h: (nat, Element) -> Hash32, size: nat)
    requires size > 0
    ensures Placing(Places(h, size), size)
  {
    var at := Places(h, size);
    forall e, k | 0 <= k < PLACES ensures at(e)[k] < size {
      FastRangeInRange(h(k, e), size);
    }
  }

  datatype Cache = Cache(
    table: seq<Element>, collected: seq<bool>, recent: seq<bool>, counter: nat, epochSize: nat, depth: nat)

  ghost predicate Shape(c: Cache) {
    |c.table| == |c.collected| == |c.recent|
  }

  // ---------------------------------------------------------------- the operations

  function Max(a: nat, b: nat): nat {
    if a < b then b else a
  }

  /** setup: 45 times the size is a 32-bit product; the depth is a rounded logarithm of the size. */
  function Setup(newSize: nat, depth: nat, blank: Element): Cache {
    var size := Max(2, newSize);
    var epochSize := Max(1, 45 * size % TWO_32 / 100);
    Cache(seq(size, i => blank), seq(size, i => true), seq(size, i => false), epochSize, epochSize, depth)
  }

  /** The live slots of the current epoch, and those of the one before. */
  ghost function Recent(c: Cache): set<nat>
    requires Shape(c)
  {
    set i | 0 <= i < |c.table| && !c.collected[i] && c.recent[i]
  }

  ghost function Aged(c: Cache): set<nat>
    requires Shape(c)
  {
    set i | 0 <= i < |c.table| && !c.collected[i] && !c.recent[i]
  }

  /** The scan of epoch_check. */
  function CountRecent(c: Cache, n: nat): nat
    requires n <= |c.collected| && n <= |c.recent|
  {
    if n == 0 then 0 else CountRecent(c, n - 1) + if c.recent[n - 1] && !c.collected[n - 1] then 1 else 0
  }

  /** A new epoch: what was old may be overwritten, what was recent is old. */
  function Age(c: Cache): Cache
    requires Shape(c)
  {
    c.(collected := seq(|c.table|, i requires 0 <= i < |c.table| && Shape(c) => c.collected[i] || !c.recent[i]),
       recent := seq(|c.table|, i => false), counter := c.epochSize)
  }

  /** epoch_check. */
  function EpochCheck(c: Cache): Cache
    requires Shape(c)
  {
    if c.counter != 0 then c.(counter := c.counter - 1)
    else
      var n := CountRecent(c, |c.table|);
      if n >= c.epochSize then Age(c)
      else c.(counter := Max(1, Max(c.epochSize / 16, c.epochSize - n)))
  }

  /** An element is put in a slot, which becomes live. */
  function Put(c: Cache, loc: nat, e: Element, recent: bool): Cache
    requires Shape(c) && loc < |c.table|
  {
    c.(table := c.table[loc := e], collected := c.collected[loc := false], recent := c.recent[loc := recent])
  }

  /** The first of some places that holds an element, that is free, or that is a given one; PLACES if there is none. */
  function FirstWith(c: Cache, locs: seq<nat>, e: Element): nat {
    if locs == [] then 0
    else if locs[0] < |c.table| && c.table[locs[0]] == e then 0
    else 1 + FirstWith(c, locs[1..], e)
  }

  function FirstFree(c: Cache, locs: seq<nat>): nat {
    if locs == [] then 0
    else if locs[0] < |c.collected| && c.collected[locs[0]] then 0
    else 1 + FirstFree(c, locs[1..])
  }

  function IndexOf(locs: seq<nat>, loc: int): nat {
    if locs == [] then 0 else if locs[0] == loc then 0 else 1 + IndexOf(locs[1..], loc)
  }

  /** The place after the last one looked at, going around; places[1] when none was. */
  function NextPlace(locs: seq<nat>, last: int): nat
    requires |locs| == PLACES
  {
    locs[(1 + IndexOf(locs, last)) % PLACES]
  }

  datatype Dropped = Nothing | Dropped(e: Element, recent: bool)

  /**
   The loop of insert. `e` has no slot yet, and was last at `last`; it belongs to the current
   epoch if `recent`. The element left over when the depth runs out is dropped.
   */
  function Settle(c: Cache, at: Element -> seq<nat>, e: Element, last: int, recent: bool, depth: nat): (Cache, Dropped)
    requires Shape(c) && Placing(at, |c.table|)
    decreases depth
  {
    if depth == 0 then (c, Dropped(e, recent))
    else
      var k := FirstFree(c, at(e));
      if k < PLACES then (Put(c, at(e)[k], e, recent), Nothing)
      else
        var loc := NextPlace(at(e), last);
        Settle(Put(c, loc, e, recent), at, c.table[loc], loc, c.recent[loc], depth - 1)
  }

  /** insert. */
  function Insert(c: Cache, at: Element -> seq<nat>, e: Element): (Cache, Dropped)
    requires Shape(c) && Placing(at, |c.table|)
  {
    var c := EpochCheck(c);
    var k := FirstWith(c, at(e), e);
    if k < PLACES then (Put(c, at(e)[k], e, true), Nothing)
    else Settle(c, at, e, -1, true, c.depth)
  }

  /** contains: whether the element is in the table, and the table with the slot released if asked. */
  function Contains(c: Cache, at: Element -> seq<nat>, e: Element, erase: bool): (Cache, bool)
    requires Shape(c) && Placing(at, |c.table|)
  {
    var k := FirstWith(c, at(e), e);
    if k < PLACES then (if erase then c.(collected := c.collected[at(e)[k] := true]) else c, true) else (c, false)
  }

  // ---------------------------------------------------------------- searching the places

  lemma {:induction false} FirstWithFacts(c: Cache, locs: seq<nat>, e: Element)
    ensures FirstWith(c, locs, e) <= |locs|
    ensures FirstWith(c, locs, e) < |locs| ==>
      var loc := locs[FirstWith(c, locs, e)]; loc < |c.table| && c.table[loc] == e
    ensures FirstWith(c, locs, e) == |locs| ==>
      forall j :: 0 <= j < |locs| && locs[j] < |c.table| ==> c.table[locs[j]] != e
  {
    if locs != [] {
      FirstWithFacts(c, locs[1..], e);
      assert forall j :: 0 < j < |locs| ==> locs[j] == locs[1..][j - 1];
    }
  }

  lemma {:induction false} FirstFreeFacts(c: Cache, locs: seq<nat>)
    ensures FirstFree(c, locs) <= |locs|
    ensures FirstFree(c, locs) < |locs| ==>
      var loc := locs[FirstFree(c, locs)]; loc < |c.collected| && c.collected[loc]
    ensures FirstFree(c, locs) == |locs| ==>
      forall j :: 0 <= j < |locs| && locs[j] < |c.collected| ==> !c.collected[locs[j]]
  {
    if locs != [] {
      FirstFreeFacts(c, locs[1..]);
      assert forall j :: 0 < j < |locs| ==> locs[j] == locs[1..][j - 1];
    }
  }

  // ---------------------------------------------------------------- the invariant

  /**
   A live slot is the first place of its element that holds the element. So live elements sit at
   their own places, and have one live copy each even if the table holds dead ones.
   */
  ghost predicate Foremost(c: Cache, at: Element -> seq<nat>, i: nat)
    requires Shape(c) && Placing(at, |c.table|) && i < |c.table|
  {
    var k := FirstWith(c, at(c.table[i]), c.table[i]);
    k < PLACES && at(c.table[i])[k] == i
  }

  ghost predicate Seated(c: Cache, at: Element -> seq<nat>) {
    var shaped := Shape(c) && Placing(at, |c.table|);
    shaped && forall i :: 0 <= i < |c.table| && !c.collected[i] ==> Foremost(c, at, i)
  }

  /** The most live elements of one epoch. */
  function Bound(epochSize: nat): nat {
    epochSize + Max(1, epochSize / 16)
  }

  /** The recent elements and the insertions before the next scan are bounded together. */
  ghost predicate Bounded(c: Cache)
    requires Shape(c)
  {
    |Recent(c)| + c.counter <= Bound(c.epochSize) && |Aged(c)| <= Bound(c.epochSize)
  }

  ghost predicate Inv(c: Cache, at: Element -> seq<nat>) {
    Seated(c, at) && Bounded(c)
  }

  /** The live slots that hold an element. */
  ghost function Copies(c: Cache, x: Element): set<nat>
    requires Shape(c)
  {
    set i | 0 <= i < |c.table| && !c.collected[i] && c.table[i] == x
  }

  // ---------------------------------------------------------------- filling one slot

  function One(b: bool): nat {
    if b then 1 else 0
  }

  lemma {:induction false} SwapOne(s: set<nat>, x: nat, put: bool, after: set<nat>)
    requires after == s - {x} + if put then {x} else {}
    ensures |after| + One(x in s) == |s| + One(put)
  {
    if x in s {
      assert s == s - {x} + {x};
    } else {
      assert s - {x} == s;
    }
  }

  lemma {:induction false} PutSets(c: Cache, loc: nat, e: Element, recent: bool)
    requires Shape(c) && loc < |c.table|
    ensures Recent(Put(c, loc, e, recent)) == Recent(c) - {loc} + if recent then {loc} else {}
    ensures Aged(Put(c, loc, e, recent)) == Aged(c) - {loc} + if recent then {} else {loc}
    ensures loc in Recent(c) <==> !c.collected[loc] && c.recent[loc]
    ensures loc in Aged(c) <==> !c.collected[loc] && !c.recent[loc]
  {
  }

  lemma {:induction false} PutCopySet(c: Cache, loc: nat, e: Element, recent: bool, x: Element)
    requires Shape(c) && loc < |c.table|
    ensures Copies(Put(c, loc, e, recent), x) == Copies(c, x) - {loc} + if e == x then {loc} else {}
    ensures loc in Copies(c, x) <==> !c.collected[loc] && c.table[loc] == x
  {
  }

  /** Filling a slot adds one to its epoch, and takes away what the slot counted for before. */
  lemma {:induction false} PutCounts(c: Cache, loc: nat, e: Element, recent: bool)
    requires Shape(c) && loc < |c.table|
    ensures |Recent(Put(c, loc, e, recent))| + One(!c.collected[loc] && c.recent[loc]) == |Recent(c)| + One(recent)
    ensures |Aged(Put(c, loc, e, recent))| + One(!c.collected[loc] && !c.recent[loc]) == |Aged(c)| + One(!recent)
  {
    var p := Put(c, loc, e, recent);
    PutSets(c, loc, e, recent);
    SwapOne(Recent(c), loc, recent, Recent(p));
    SwapOne(Aged(c), loc, !recent, Aged(p));
  }

  /** Likewise for the live copies of any element. */
  lemma {:induction false} PutCopies(c: Cache, loc: nat, e: Element, recent: bool, x: Element)
    requires Shape(c) && loc < |c.table|
    ensures |Copies(Put(c, loc, e, recent), x)| + One(!c.collected[loc] && c.table[loc] == x)
            == |Copies(c, x)| + One(e == x)
  {
    PutCopySet(c, loc, e, recent, x);
    SwapOne(Copies(c, x), loc, e == x, Copies(Put(c, loc, e, recent), x));
  }

  /** The element put down is not at any earlier place, so the slot is its first. */
  lemma {:induction false} PutFirst(c: Cache, locs: seq<nat>, k: nat, e: Element, recent: bool)
    requires Shape(c) && k < |locs| && locs[k] < |c.table|
    requires forall j :: 0 <= j < k && locs[j] < |c.table| ==> c.table[locs[j]] != e || locs[j] == locs[k]
    ensures var p := Put(c, locs[k], e, recent); var f := FirstWith(p, locs, e); f < |locs| && locs[f] == locs[k]
  {
    var p := Put(c, locs[k], e, recent);
    FirstWithFacts(p, locs, e);
    FirstWithFirst(p, locs, e, k);
  }

  lemma {:induction false} FirstWithFirst(c: Cache, locs: seq<nat>, e: Element, k: nat)
    requires k < |locs| && locs[k] < |c.table| && c.table[locs[k]] == e
    ensures FirstWith(c, locs, e) <= k
  {
    if k > 0 {
      FirstWithFirst(c, locs[1..], e, k - 1);
    }
  }

  /** For an element other than the one put down, its first place stays the first. */
  lemma {:induction false} PutOthers(c: Cache, locs: seq<nat>, loc: nat, e: Element, recent: bool, x: Element)
    requires Shape(c) && loc < |c.table| && x != e
    requires FirstWith(c, locs, x) < |locs| && locs[FirstWith(c, locs, x)] != loc
    ensures FirstWith(Put(c, loc, e, recent), locs, x) == FirstWith(c, locs, x)
  {
    if !(locs[0] < |c.table| && c.table[locs[0]] == x) {
      PutOthers(c, locs[1..], loc, e, recent, x);
    }
  }

  /** Putting down an element with no other live copy, at a place before which it is not. */
  lemma {:induction false} PutSeated(c: Cache, at: Element -> seq<nat>, k: nat, e: Element, recent: bool)
    requires Seated(c, at) && k < PLACES
    requires Copies(c, e) <= {at(e)[k]}
    requires forall j :: 0 <= j < k ==> c.table[at(e)[j]] != e || at(e)[j] == at(e)[k]
    ensures Seated(Put(c, at(e)[k], e, recent), at)
  {
    var loc := at(e)[k];
    var p := Put(c, loc, e, recent);
    PutFirst(c, at(e), k, e, recent);
    assert forall i :: 0 <= i < |c.table| && !c.collected[i] && c.table[i] == e ==> i in Copies(c, e);
    forall i | 0 <= i < |p.table| && !p.collected[i] ensures Foremost(p, at, i) {
      if i != loc {
        assert Foremost(c, at, i);
        PutOthers(c, at(c.table[i]), loc, e, recent, c.table[i]);
      }
    }
  }

  /** An overwritten live element has no other live copy. */
  lemma {:induction false} Unseated(c: Cache, at: Element -> seq<nat>, loc: nat, e: Element, recent: bool)
    requires Seated(c, at) && loc < |c.table| && !c.collected[loc] && c.table[loc] != e
    ensures Copies(Put(c, loc, e, recent), c.table[loc]) == {}
  {
    assert Foremost(c, at, loc);
    forall i | i in Copies(c, c.table[loc]) ensures i == loc {
      assert Foremost(c, at, i);
    }
  }

  // ---------------------------------------------------------------- the insertion loop

  /** Where the loop puts the element down, for good or for another one. */
  function Spot(c: Cache, locs: seq<nat>, last: int): nat
    requires |locs| == PLACES
  {
    var k := FirstFree(c, locs);
    if k < PLACES then k else (1 + IndexOf(locs, last)) % PLACES
  }

  /** When no place is free all of them are live, so the element is at none of them. */
  lemma {:induction false} SpotFacts(c: Cache, at: Element -> seq<nat>, e: Element, last: int)
    requires Seated(c, at) && Copies(c, e) == {}
    ensures var k := Spot(c, at(e), last); var loc := at(e)[k];
      && k < PLACES && loc < |c.table| && (c.collected[loc] <==> FirstFree(c, at(e)) < PLACES)
      && (forall j :: 0 <= j < k ==> c.table[at(e)[j]] != e)
      && (!c.collected[loc] ==> c.table[loc] != e)
  {
    FirstFreeFacts(c, at(e));
    FreeIsFirst(c, at(e));
    var k := Spot(c, at(e), last);
    forall j | 0 <= j < PLACES && !c.collected[at(e)[j]] ensures c.table[at(e)[j]] != e {
      assert at(e)[j] !in Copies(c, e);
    }
    forall j | 0 <= j < k ensures c.table[at(e)[j]] != e {
      assert !c.collected[at(e)[j]];
    }
  }

  lemma {:induction false} FreeIsFirst(c: Cache, locs: seq<nat>)
    ensures forall j :: 0 <= j < FirstFree(c, locs) && j < |locs| && locs[j] < |c.collected| ==> !c.collected[locs[j]]
  {
    if locs != [] {
      FreeIsFirst(c, locs[1..]);
      assert forall j :: 0 < j < |locs| ==> locs[j] == locs[1..][j - 1];
    }
  }

  /** One round of the loop: the element gets a slot, and a live element that had it has none now. */
  lemma {:induction false} RoundKeeps(c: Cache, at: Element -> seq<nat>, e: Element, last: int, recent: bool)
    requires Seated(c, at) && Copies(c, e) == {}
    ensures var loc := at(e)[Spot(c, at(e), last)];
      && loc < |c.table| && (c.collected[loc] <==> FirstFree(c, at(e)) < PLACES)
      && Seated(Put(c, loc, e, recent), at)
      && (!c.collected[loc] ==> Copies(Put(c, loc, e, recent), c.table[loc]) == {})
  {
    SpotFacts(c, at, e, last);
    var k := Spot(c, at(e), last);
    PutSeated(c, at, k, e, recent);
    if !c.collected[at(e)[k]] {
      Unseated(c, at, at(e)[k], e, recent);
    }
  }

  /** The loop changes neither the size nor the counter, and leaves live elements at their places. */
  lemma {:induction false} SettleSeated(
    c: Cache, at: Element -> seq<nat>, e: Element, last: int, recent: bool, depth: nat)
    requires Seated(c, at) && Copies(c, e) == {}
    ensures var r := Settle(c, at, e, last, recent, depth).0;
      && Seated(r, at) && |r.table| == |c.table| && r.counter == c.counter && r.epochSize == c.epochSize
      && r.depth == c.depth
    decreases depth
  {
    if depth > 0 {
      RoundKeeps(c, at, e, last, recent);
      if FirstFree(c, at(e)) >= PLACES {
        var loc := NextPlace(at(e), last);
        SettleSeated(Put(c, loc, e, recent), at, c.table[loc], loc, c.recent[loc], depth - 1);
      }
    }
  }

  /** The element carried along belongs to an epoch, and is counted when it is put down or dropped. */
  lemma {:induction false} SettleCounts(
    c: Cache, at: Element -> seq<nat>, e: Element, last: int, recent: bool, depth: nat)
    requires Seated(c, at) && Copies(c, e) == {}
    ensures var (r, d) := Settle(c, at, e, last, recent, depth);
      && Shape(r) && |Recent(r)| + One(d.Dropped? && d.recent) == |Recent(c)| + One(recent)
      && |Aged(r)| + One(d.Dropped? && !d.recent) == |Aged(c)| + One(!recent)
    decreases depth
  {
    if depth > 0 {
      RoundKeeps(c, at, e, last, recent);
      PutCounts(c, at(e)[Spot(c, at(e), last)], e, recent);
      if FirstFree(c, at(e)) >= PLACES {
        var loc := NextPlace(at(e), last);
        SettleCounts(Put(c, loc, e, recent), at, c.table[loc], loc, c.recent[loc], depth - 1);
      }
    }
  }

  /**
   Live elements are conserved: what is live afterwards, with what is dropped, is what was live and
   the new element.
   */
  lemma {:induction false} SettleConserves(
    c: Cache, at: Element -> seq<nat>, e: Element, last: int, recent: bool, depth: nat, x: Element)
    requires Seated(c, at) && Copies(c, e) == {}
    ensures var (r, d) := Settle(c, at, e, last, recent, depth);
      Shape(r) && |Copies(r, x)| + One(d.Dropped? && d.e == x) == |Copies(c, x)| + One(e == x)
    decreases depth
  {
    if depth > 0 {
      RoundKeeps(c, at, e, last, recent);
      PutCopies(c, at(e)[Spot(c, at(e), last)], e, recent, x);
      if FirstFree(c, at(e)) >= PLACES {
        var loc := NextPlace(at(e), last);
        SettleConserves(Put(c, loc, e, recent), at, c.table[loc], loc, c.recent[loc], depth - 1, x);
      }
    }
  }

  // ---------------------------------------------------------------- epochs

  lemma {:induction false} ScanCounts(c: Cache, n: nat, seen: set<nat>)
    requires Shape(c) && n <= |c.table| && seen == set i | 0 <= i < n && !c.collected[i] && c.recent[i]
    ensures CountRecent(c, n) == |seen|
  {
    if n > 0 {
      ScanCounts(c, n - 1, seen - {n - 1});
      SwapOne(seen, n - 1, false, seen - {n - 1});
    }
  }

  /** What a new epoch does: the recent elements are the old ones, and the old ones are dead. */
  lemma {:induction false} AgeSets(c: Cache)
    requires Shape(c)
    ensures Shape(Age(c)) && Recent(Age(c)) == {} && Aged(Age(c)) == Recent(c)
  {
  }

  lemma {:induction false} SameSeats(c: Cache, r: Cache, at: Element -> seq<nat>)
    requires Seated(c, at) && Shape(r) && r.table == c.table
    requires forall i :: 0 <= i < |c.table| && c.collected[i] ==> r.collected[i]
    ensures Seated(r, at)
  {
    forall i | 0 <= i < |r.table| && !r.collected[i] ensures Foremost(r, at, i) {
      assert Foremost(c, at, i);
      SameFirst(c, r, at(c.table[i]), c.table[i]);
    }
  }

  lemma {:induction false} SameFirst(c: Cache, r: Cache, locs: seq<nat>, e: Element)
    requires r.table == c.table
    ensures FirstWith(r, locs, e) == FirstWith(c, locs, e)
  {
    if locs != [] {
      SameFirst(c, r, locs[1..], e);
    }
  }

  /** epoch_check leaves room for one more recent element. */
  lemma {:induction false} EpochCheckKeeps(c: Cache, at: Element -> seq<nat>)
    requires Inv(c, at)
    ensures var r := EpochCheck(c);
      && Seated(r, at) && r.table == c.table && r.epochSize == c.epochSize && r.depth == c.depth
      && |Recent(r)| + r.counter < Bound(c.epochSize) && |Aged(r)| <= Bound(c.epochSize)
  {
    ScanCounts(c, |c.table|, Recent(c));
    AgeSets(c);
    var r := EpochCheck(c);
    if c.counter != 0 || CountRecent(c, |c.table|) < c.epochSize {
      assert Recent(r) == Recent(c) && Aged(r) == Aged(c);
    }
    SameSeats(c, r, at);
  }

  /** What stays live through epoch_check: everything, or what was recent if an epoch ends. */
  lemma {:induction false} EpochCheckErases(c: Cache, x: Element)
    requires Shape(c)
    ensures var r := EpochCheck(c);
      && Shape(r)
      && Copies(r, x) == if c.counter == 0 && CountRecent(c, |c.table|) >= c.epochSize then Copies(c, x) * Recent(c)
                         else Copies(c, x)
  {
  }

  // ---------------------------------------------------------------- insert and contains

  /** An element that is not at any of its places has no live copy. */
  lemma {:induction false} AbsentIsDead(c: Cache, at: Element -> seq<nat>, e: Element)
    requires Seated(c, at) && FirstWith(c, at(e), e) >= PLACES
    ensures Copies(c, e) == {}
  {
    forall i | 0 <= i < |c.table| && !c.collected[i] ensures c.table[i] != e {
      assert Foremost(c, at, i);
    }
  }

  /** Finding an element at its places gives its live copy, if there is one. */
  lemma {:induction false} FoundIsForemost(c: Cache, at: Element -> seq<nat>, e: Element)
    requires Seated(c, at) && FirstWith(c, at(e), e) < PLACES
    ensures var loc := at(e)[FirstWith(c, at(e), e)];
      loc < |c.table| && c.table[loc] == e && Copies(c, e) <= {loc}
  {
    FirstWithFacts(c, at(e), e);
    forall i | i in Copies(c, e) ensures i == at(e)[FirstWith(c, at(e), e)] {
      assert Foremost(c, at, i);
    }
  }

  lemma {:induction false} FoundKeeps(c: Cache, at: Element -> seq<nat>, e: Element)
    requires Seated(c, at) && FirstWith(c, at(e), e) < PLACES
    ensures Seated(Put(c, at(e)[FirstWith(c, at(e), e)], e, true), at)
  {
    FoundIsForemost(c, at, e);
    var k := FirstWith(c, at(e), e);
    forall j | 0 <= j < k ensures c.table[at(e)[j]] != e {
      if c.table[at(e)[j]] == e {
        FirstWithFirst(c, at(e), e, j);
      }
    }
    PutSeated(c, at, k, e, true);
  }

  lemma {:induction false} InsertKeeps(c: Cache, at: Element -> seq<nat>, e: Element)
    requires Inv(c, at)
    ensures Inv(Insert(c, at, e).0, at) && |Insert(c, at, e).0.table| == |c.table|
  {
    EpochCheckKeeps(c, at);
    var m := EpochCheck(c);
    var k := FirstWith(m, at(e), e);
    if k < PLACES {
      FoundKeeps(m, at, e);
      PutCounts(m, at(e)[k], e, true);
    } else {
      AbsentIsDead(m, at, e);
      SettleSeated(m, at, e, -1, true, m.depth);
      SettleCounts(m, at, e, -1, true, m.depth);
    }
  }

  /**
   What insert does to the live elements. Relative to what epoch_check leaves, the element is
   added, and at most one element is dropped, possibly the new one. If the table still has the
   element at one of its places, it is live afterwards and nothing is dropped.
   */
  lemma {:induction false} InsertConserves(c: Cache, at: Element -> seq<nat>, e: Element, x: Element)
    requires Inv(c, at)
    ensures var (r, d) := Insert(c, at, e); var m := EpochCheck(c);
      && Shape(r) && Shape(m)
      && (Copies(r, x) != {} <==> (x == e || Copies(m, x) != {}) && !(d.Dropped? && d.e == x))
      && (FirstWith(m, at(e), e) < PLACES ==> d == Nothing)
  {
    EpochCheckKeeps(c, at);
    var m := EpochCheck(c);
    var k := FirstWith(m, at(e), e);
    if k < PLACES {
      FoundIsForemost(m, at, e);
      PutCopySet(m, at(e)[k], e, true, x);
    } else {
      AbsentIsDead(m, at, e);
      SettleSeated(m, at, e, -1, true, m.depth);
      SettleConserves(m, at, e, -1, true, m.depth, x);
      CopiesOnce(m, at, x);
      CopiesOnce(Insert(c, at, e).0, at, x);
    }
  }

  /** What is dropped is the new element or one that was live. */
  lemma {:induction false} DroppedWasLive(c: Cache, at: Element -> seq<nat>, e: Element)
    requires Inv(c, at)
    ensures var d := Insert(c, at, e).1; var m := EpochCheck(c);
      Shape(m) && (d.Dropped? ==> d.e == e || Copies(m, d.e) != {})
  {
    EpochCheckKeeps(c, at);
    var (r, d) := Insert(c, at, e);
    if d.Dropped? {
      var m := EpochCheck(c);
      AbsentIsDead(m, at, e);
      SettleConserves(m, at, e, -1, true, m.depth, d.e);
    }
  }

  /** No element is live twice. */
  lemma {:induction false} CopiesOnce(c: Cache, at: Element -> seq<nat>, x: Element)
    requires Seated(c, at)
    ensures |Copies(c, x)| <= 1 && (Copies(c, x) == {} <==> |Copies(c, x)| == 0)
  {
    if FirstWith(c, at(x), x) < PLACES {
      FoundIsForemost(c, at, x);
      AtMostOne(Copies(c, x), at(x)[FirstWith(c, at(x), x)]);
    } else {
      AbsentIsDead(c, at, x);
    }
  }

  lemma {:induction false} AtMostOne(s: set<nat>, x: nat)
    requires s <= {x}
    ensures |s| <= 1
  {
    assert s == {} || s == {x};
  }

  lemma {:induction false} Less(s: set<nat>, x: nat)
    ensures |s - {x}| <= |s|
  {
    SwapOne(s, x, false, s - {x});
  }

  lemma {:induction false} ReleaseSets(c: Cache, loc: nat, r: Cache)
    requires Shape(c) && loc < |c.table| && r == c.(collected := c.collected[loc := true])
    ensures Recent(r) == Recent(c) - {loc} && Aged(r) == Aged(c) - {loc}
  {
  }

  lemma {:induction false} ContainsKeeps(c: Cache, at: Element -> seq<nat>, e: Element, erase: bool)
    requires Inv(c, at)
    ensures Inv(Contains(c, at, e, erase).0, at) && |Contains(c, at, e, erase).0.table| == |c.table|
  {
    var k, r := FirstWith(c, at(e), e), Contains(c, at, e, erase).0;
    if k < PLACES && erase {
      var loc := at(e)[k];
      ReleaseSets(c, loc, r);
      Less(Recent(c), loc);
      Less(Aged(c), loc);
      SameSeats(c, r, at);
    }
  }

  /** contains finds every live element; when asked to erase, it takes that element's liveness and no other's. */
  lemma {:induction false} ContainsFinds(c: Cache, at: Element -> seq<nat>, e: Element, erase: bool, x: Element)
    requires Inv(c, at)
    ensures var (r, found) := Contains(c, at, e, erase);
      && (Copies(c, e) != {} ==> found) && (found ==> e in c.table) && r.table == c.table && Shape(r)
      && Copies(r, x) == if erase && x == e then {} else Copies(c, x)
  {
    FirstWithFacts(c, at(e), e);
    if FirstWith(c, at(e), e) < PLACES {
      FoundIsForemost(c, at, e);
    } else {
      AbsentIsDead(c, at, e);
    }
  }

  /** An erased element is found again until its slot is needed. */
  lemma {:induction false} ErasedIsFound(c: Cache, at: Element -> seq<nat>, e: Element)
    requires Shape(c) && Placing(at, |c.table|) && Contains(c, at, e, true).1
    ensures var r := Contains(c, at, e, true).0; Shape(r) && Placing(at, |r.table|) && Contains(r, at, e, false).1
  {
    SameFirst(c, Contains(c, at, e, true).0, at(e), e);
  }

  // ---------------------------------------------------------------- every run

  datatype Op = InsertOp(e: Element) | ContainsOp(e: Element, erase: bool)

  ghost predicate Runs(c: Cache, at: Element -> seq<nat>, ops: seq<Op>, r: Cache)
    requires Shape(c) && Placing(at, |c.table|)
    decreases ops
  {
    if ops == [] then r == c
    else
      var m := match ops[0] case InsertOp(e) => Insert(c, at, e).0
        case ContainsOp(e, erase) => Contains(c, at, e, erase).0;
      Shape(m) && |m.table| == |c.table| && Runs(m, at, ops[1..], r)
  }

  lemma {:induction false} SetupInv(newSize: nat, depth: nat, blank: Element, at: Element -> seq<nat>)
    requires Placing(at, |Setup(newSize, depth, blank).table|)
    ensures Inv(Setup(newSize, depth, blank), at)
  {
    var c := Setup(newSize, depth, blank);
    assert Recent(c) == {} && Aged(c) == {};
  }

  /** In every run after setup, the live elements of an epoch are bounded, and so are all of them. */
  lemma {:induction false} RunKeeps(c: Cache, at: Element -> seq<nat>, ops: seq<Op>, r: Cache)
    requires Inv(c, at) && Runs(c, at, ops, r)
    ensures Inv(r, at) && |Recent(r)| <= Bound(r.epochSize) && |Recent(r)| + |Aged(r)| <= 2 * Bound(r.epochSize)
    decreases ops
  {
    if ops != [] {
      match ops[0]
      case InsertOp(e) =>
        InsertKeeps(c, at, e);
        RunKeeps(Insert(c, at, e).0, at, ops[1..], r);
      case ContainsOp(e, erase) =>
        ContainsKeeps(c, at, e, erase);
        RunKeeps(Contains(c, at, e, erase).0, at, ops[1..], r);
    }
  }
}
