/**
 What InitData finds for a compact block. The loops over the memory pool and over the extra
 transactions take, undo and stop early; here the outcome is given for every place at once, by
 the transactions that share its short id.
 */
module CompactSearch {
  import opened CompactBlocks

  // ---------------------------------------------------------------- what belongs in a slot

  /** The transactions that are listed under a short id, in order. */
  function Matches(e: Env, known: seq<Known>, id: nat): seq<Tx> {
    if known == [] then []
    else
      var k := known[|known| - 1];
      Matches(e, known[..|known| - 1], id) + if e.shortId(k.hash) == id then [k.tx] else []
  }

  ghost predicate Alike(e: Env, txs: seq<Tx>) {
    forall i :: 0 <= i < |txs| ==> e.witnessHash(txs[i]) == e.witnessHash(txs[0])
  }

  /**
   The transaction for a short id: the first match, unless the pool has several matches or one of
   the extra transactions has another witness hash. Then it has to be asked for.
   */
  ghost function Answer(e: Env, inPool: seq<Tx>, inExtra: seq<Tx>): Option<Tx> {
    var all := inPool + inExtra;
    if all == [] || |inPool| > 1 || !Alike(e, all) then None else Some(all[0])
  }

  ghost function Sought(e: Env, pool: seq<Known>, extra: seq<Known>, id: nat): Option<Tx> {
    Answer(e, Matches(e, pool, id), Matches(e, extra, id))
  }

  /** Every short id has its transaction. */
  ghost predicate Complete(e: Env, ids: set<nat>, pool: seq<Known>, extra: seq<Known>) {
    forall id :: id in ids ==> Sought(e, pool, extra, id).Some?
  }

  // ---------------------------------------------------------------- one transaction

  lemma {:induction false} MatchesNext(e: Env, known: seq<Known>, k: Known, id: nat)
    ensures Matches(e, known + [k], id) == Matches(e, known, id) + if e.shortId(k.hash) == id then [k.tx] else []
  {
    assert (known + [k])[..|known|] == known;
  }

  lemma {:induction false} AnswerPool(e: Env, inPool: seq<Tx>, tx: Tx)
    ensures inPool == [] ==> Answer(e, inPool + [tx], []) == Some(tx)
    ensures inPool != [] ==> Answer(e, inPool + [tx], []) == None
  {
    assert inPool + [tx] + [] == inPool + [tx];
  }

  lemma {:induction false} AnswerExtra(e: Env, inPool: seq<Tx>, inExtra: seq<Tx>, tx: Tx)
    ensures var was := Answer(e, inPool, inExtra);
      Answer(e, inPool, inExtra + [tx]) ==
        if inPool + inExtra == [] then Some(tx)
        else if was.Some? && e.witnessHash(was.value) == e.witnessHash(tx) then was
        else None
  {
    var all, more := inPool + inExtra, inPool + inExtra + [tx];
    assert inPool + (inExtra + [tx]) == more;
    assert more[|all|] == tx;
    if all != [] {
      assert Alike(e, more) <==> Alike(e, all) && e.witnessHash(tx) == e.witnessHash(all[0]) by {
        assert forall i :: 0 <= i < |all| ==> more[i] == all[i];
      }
    }
  }

  /** A place holds what the transactions looked at so far say. */
  ghost predicate Holds(e: Env, f: Finds, p: nat, inPool: seq<Tx>, inExtra: seq<Tx>) {
    && p < |f.slots| && p < |f.have|
    && f.slots[p] == Answer(e, inPool, inExtra) && (f.have[p] <==> inPool + inExtra != [])
  }

  ghost predicate HoldsFor(e: Env, places: map<nat, nat>, f: Finds, pool: seq<Known>, extra: seq<Known>, id: nat)
    requires id in places
  {
    Holds(e, f, places[id], Matches(e, pool, id), Matches(e, extra, id))
  }

  ghost predicate HoldsAll(e: Env, places: map<nat, nat>, f: Finds, pool: seq<Known>, extra: seq<Known>) {
    forall id :: id in places ==> HoldsFor(e, places, f, pool, extra, id)
  }

  lemma {:induction false} OtherPlace(e: Env, f: Finds, p: nat, q: nat, tx: Option<Tx>, more: int)
    requires p < |f.slots| && p < |f.have| && p != q
    ensures forall inPool, inExtra ::
      Holds(e, f, q, inPool, inExtra) ==> Holds(e, AtPlace(f, p, tx, more), q, inPool, inExtra)
  {
  }

  lemma {:induction false} PoolHere(e: Env, f: Finds, p: nat, inPool: seq<Tx>, tx: Tx)
    requires Holds(e, f, p, inPool, [])
    ensures var r :=
        if !f.have[p] then AtPlace(f, p, Some(tx), 1) else if f.slots[p].Some? then AtPlace(f, p, None, -1) else f;
      Holds(e, r, p, inPool + [tx], [])
  {
    AnswerPool(e, inPool, tx);
    assert inPool + [] == inPool;
  }

  lemma {:induction false} ExtraHere(e: Env, f: Finds, p: nat, inPool: seq<Tx>, inExtra: seq<Tx>, tx: Tx)
    requires Holds(e, f, p, inPool, inExtra)
    ensures var r :=
        if !f.have[p] then AtPlace(f, p, Some(tx), 1)
        else if f.slots[p].Some? && e.witnessHash(f.slots[p].value) != e.witnessHash(tx) then AtPlace(f, p, None, -1)
        else f;
      Holds(e, r, p, inPool, inExtra + [tx])
  {
    AnswerExtra(e, inPool, inExtra, tx);
  }

  lemma {:induction false} PoolNext(e: Env, places: map<nat, nat>, f: Finds, pool: seq<Known>, k: Known, id: nat)
    requires Fitting(places, f) && Injective(places) && id in places && HoldsFor(e, places, f, pool, [], id)
    ensures HoldsFor(e, places, OfferPool(e, places, f, k), pool + [k], [], id)
  {
    var its := e.shortId(k.hash);
    MatchesNext(e, pool, k, id);
    if its == id {
      PoolHere(e, f, places[id], Matches(e, pool, id), k.tx);
    } else {
      assert Matches(e, pool, id) + [] == Matches(e, pool, id);
      if its in places {
        OtherPlace(e, f, places[its], places[id], Some(k.tx), 1);
        OtherPlace(e, f, places[its], places[id], None, -1);
      }
    }
  }

  lemma {:induction false} ExtraNext(
    e: Env, places: map<nat, nat>, f: Finds, pool: seq<Known>, extra: seq<Known>, k: Known, id: nat)
    requires Fitting(places, f) && Injective(places) && id in places && HoldsFor(e, places, f, pool, extra, id)
    ensures HoldsFor(e, places, OfferExtra(e, places, f, k), pool, extra + [k], id)
  {
    var its := e.shortId(k.hash);
    MatchesNext(e, extra, k, id);
    if its == id {
      ExtraHere(e, f, places[id], Matches(e, pool, id), Matches(e, extra, id), k.tx);
    } else {
      assert Matches(e, extra, id) + [] == Matches(e, extra, id);
      if its in places {
        OtherPlace(e, f, places[its], places[id], Some(k.tx), 1);
        OtherPlace(e, f, places[its], places[id], None, -1);
      }
    }
  }

  /** The count tells whether every short id has its transaction. */
  lemma {:induction false} CountTells(e: Env, places: map<nat, nat>, f: Finds, pool: seq<Known>, extra: seq<Known>)
    requires Counted(places, f) && HoldsAll(e, places, f, pool, extra)
    ensures f.count == |places| <==> Complete(e, places.Keys, pool, extra)
  {
    forall id | id in places ensures f.slots[places[id]] == Sought(e, pool, extra, id) {
      assert HoldsFor(e, places, f, pool, extra, id);
    }
    if f.count == |places| {
      forall id | id in places ensures Sought(e, pool, extra, id).Some? {
        AllFound(places, f, id);
      }
    }
    if Complete(e, places.Keys, pool, extra) {
      forall id | id in places.Keys ensures id in FoundIds(places, f.slots) {
        assert Sought(e, pool, extra, id).Some?;
      }
      assert FoundIds(places, f.slots) == places.Keys;
    }
  }

  // ---------------------------------------------------------------- the loops

  /** From the i-th on, the scan of the pool looks at it up to the n-th: to where all is found, or to the end. */
  ghost predicate PoolStops(e: Env, ids: set<nat>, pool: seq<Known>, i: nat, n: nat) {
    && i <= n <= |pool|
    && (n < |pool| ==> i < n && Complete(e, ids, pool[..n], []))
    && forall j :: i < j < n ==> !Complete(e, ids, pool[..j], [])
  }

  ghost predicate ExtraStops(e: Env, ids: set<nat>, pool: seq<Known>, extra: seq<Known>, i: nat, n: nat) {
    && i <= n <= |extra|
    && (n < |extra| ==> i < n && Complete(e, ids, pool, extra[..n]))
    && forall j :: i < j < n ==> !Complete(e, ids, pool, extra[..j])
  }

  lemma {:induction false} PoolStopsHere(e: Env, ids: set<nat>, pool: seq<Known>, i: nat, n: nat)
    requires i <= n <= |pool| && n <= i + 1
    requires n < |pool| ==> i < n && Complete(e, ids, pool[..n], [])
    ensures PoolStops(e, ids, pool, i, n)
  {
  }

  lemma {:induction false} PoolStopsLater(e: Env, ids: set<nat>, pool: seq<Known>, i: nat, next: nat, n: nat)
    requires next == i + 1 && PoolStops(e, ids, pool, next, n) && !Complete(e, ids, pool[..next], [])
    ensures PoolStops(e, ids, pool, i, n)
  {
  }

  lemma {:induction false} ExtraStopsHere(
    e: Env, ids: set<nat>, pool: seq<Known>, extra: seq<Known>, i: nat, n: nat)
    requires i <= n <= |extra| && n <= i + 1
    requires n < |extra| ==> i < n && Complete(e, ids, pool, extra[..n])
    ensures ExtraStops(e, ids, pool, extra, i, n)
  {
  }

  lemma {:induction false} ExtraStopsLater(
    e: Env, ids: set<nat>, pool: seq<Known>, extra: seq<Known>, i: nat, next: nat, n: nat)
    requires next == i + 1 && ExtraStops(e, ids, pool, extra, next, n) && !Complete(e, ids, pool, extra[..next])
    ensures ExtraStops(e, ids, pool, extra, i, n)
  {
  }

  /** A list split after its first i transactions. */
  ghost predicate Split(known: seq<Known>, i: nat, done: seq<Known>, rest: seq<Known>) {
    i <= |known| && done == known[..i] && rest == known[i..]
  }

  lemma {:induction false} SplitNext(known: seq<Known>, i: nat, done: seq<Known>, rest: seq<Known>)
    requires Split(known, i, done, rest) && rest != []
    ensures Split(known, i + 1, done + [rest[0]], rest[1..])
  {
  }

  lemma {:induction false} PoolOne(e: Env, places: map<nat, nat>, f: Finds, done: seq<Known>, k: Known, g: Finds)
    requires Counted(places, f) && HoldsAll(e, places, f, done, []) && g == OfferPool(e, places, f, k)
    ensures Counted(places, g) && HoldsAll(e, places, g, done + [k], [])
    ensures g.count == |places| <==> Complete(e, places.Keys, done + [k], [])
  {
    OfferCounted(e, places, f, k);
    forall id | id in places ensures HoldsFor(e, places, g, done + [k], [], id) {
      PoolNext(e, places, f, done, k, id);
    }
    CountTells(e, places, g, done + [k], []);
  }

  lemma {:induction false} ExtraOne(
    e: Env, places: map<nat, nat>, f: Finds, pool: seq<Known>, done: seq<Known>, k: Known, g: Finds)
    requires Counted(places, f) && HoldsAll(e, places, f, pool, done) && g == OfferExtra(e, places, f, k)
    ensures Counted(places, g) && HoldsAll(e, places, g, pool, done + [k])
    ensures g.count == |places| <==> Complete(e, places.Keys, pool, done + [k])
  {
    OfferCounted(e, places, f, k);
    forall id | id in places ensures HoldsFor(e, places, g, pool, done + [k], id) {
      ExtraNext(e, places, f, pool, done, k, id);
    }
    CountTells(e, places, g, pool, done + [k]);
  }

  lemma {:induction false} PoolScanned(
    e: Env, places: map<nat, nat>, f: Finds, pool: seq<Known>, i: nat, done: seq<Known>, rest: seq<Known>, r: Finds)
    returns (n: nat)
    requires Split(pool, i, done, rest) && Counted(places, f) && HoldsAll(e, places, f, done, [])
    requires r == ScanPool(e, places, f, rest)
    ensures PoolStops(e, places.Keys, pool, i, n) && Counted(places, r) && HoldsAll(e, places, r, pool[..n], [])
    decreases |rest|
  {
    if rest == [] {
      n := i;
      PoolStopsHere(e, places.Keys, pool, i, n);
    } else {
      var next, g := done + [rest[0]], OfferPool(e, places, f, rest[0]);
      SplitNext(pool, i, done, rest);
      PoolOne(e, places, f, done, rest[0], g);
      if g.count == |places| {
        n := i + 1;
        PoolStopsHere(e, places.Keys, pool, i, n);
      } else {
        n := PoolScanned(e, places, g, pool, i + 1, next, rest[1..], r);
        PoolStopsLater(e, places.Keys, pool, i, i + 1, n);
      }
    }
  }

  lemma {:induction false} ExtraScanned(
    e: Env, places: map<nat, nat>, f: Finds, pool: seq<Known>, extra: seq<Known>, i: nat,
    done: seq<Known>, rest: seq<Known>, r: Finds) returns (n: nat)
    requires Split(extra, i, done, rest) && Counted(places, f) && HoldsAll(e, places, f, pool, done)
    requires r == ScanExtra(e, places, f, rest)
    ensures ExtraStops(e, places.Keys, pool, extra, i, n) && HoldsAll(e, places, r, pool, extra[..n])
    decreases |rest|
  {
    if rest == [] {
      n := i;
      ExtraStopsHere(e, places.Keys, pool, extra, i, n);
    } else {
      var next, g := done + [rest[0]], OfferExtra(e, places, f, rest[0]);
      SplitNext(extra, i, done, rest);
      ExtraOne(e, places, f, pool, done, rest[0], g);
      if g.count == |places| {
        n := i + 1;
        ExtraStopsHere(e, places.Keys, pool, extra, i, n);
      } else {
        n := ExtraScanned(e, places, g, pool, extra, i + 1, next, rest[1..], r);
        ExtraStopsLater(e, places.Keys, pool, extra, i, i + 1, n);
      }
    }
  }

  // ---------------------------------------------------------------- InitData

  /** The other slots stay as they are. */
  ghost predicate Untouched(places: map<nat, nat>, f: Finds, r: Finds) {
    && |r.slots| == |f.slots|
    && forall p :: 0 <= p < |f.slots| && p !in places.Values ==> r.slots[p] == f.slots[p]
  }

  lemma {:induction false} OfferUntouched(e: Env, places: map<nat, nat>, f: Finds, k: Known)
    requires Fitting(places, f)
    ensures Untouched(places, f, OfferPool(e, places, f, k)) && Untouched(places, f, OfferExtra(e, places, f, k))
  {
    var id := e.shortId(k.hash);
    if id in places {
      assert places[id] in places.Values;
    }
  }

  lemma {:induction false} PoolUntouched(e: Env, places: map<nat, nat>, f: Finds, pool: seq<Known>)
    requires Fitting(places, f)
    ensures Untouched(places, f, ScanPool(e, places, f, pool))
    decreases |pool|
  {
    if pool != [] {
      OfferUntouched(e, places, f, pool[0]);
      PoolUntouched(e, places, OfferPool(e, places, f, pool[0]), pool[1..]);
    }
  }

  lemma {:induction false} ExtraUntouched(e: Env, places: map<nat, nat>, f: Finds, extra: seq<Known>)
    requires Fitting(places, f)
    ensures Untouched(places, f, ScanExtra(e, places, f, extra))
    decreases |extra|
  {
    if extra != [] {
      OfferUntouched(e, places, f, extra[0]);
      ExtraUntouched(e, places, OfferExtra(e, places, f, extra[0]), extra[1..]);
    }
  }

  lemma {:induction false} NothingHolds(e: Env, places: map<nat, nat>, slots: Slots)
    requires InGaps(places, slots)
    ensures HoldsAll(e, places, Nothing(slots), [], [])
  {
    forall id | id in places ensures HoldsFor(e, places, Nothing(slots), [], [], id) {
      assert Matches(e, [], id) + Matches(e, [], id) == [];
    }
  }

  /** Both loops together, from the slots that the whole transactions fill. */
  lemma {:induction false} Scanned(
    e: Env, places: map<nat, nat>, slots: Slots, pool: seq<Known>, extra: seq<Known>, f: Finds, r: Finds)
    returns (n: nat, k: nat)
    requires Fitting(places, Nothing(slots)) && InGaps(places, slots) && Injective(places)
    requires f == ScanPool(e, places, Nothing(slots), pool) && r == ScanExtra(e, places, f, extra)
    ensures PoolStops(e, places.Keys, pool, 0, n) && ExtraStops(e, places.Keys, pool[..n], extra, 0, k)
    ensures HoldsAll(e, places, r, pool[..n], extra[..k]) && Untouched(places, Nothing(slots), r)
  {
    NothingHolds(e, places, slots);
    assert FoundIds(places, slots) == {};
    assert Split(pool, 0, [], pool) && Split(extra, 0, [], extra);
    n := PoolScanned(e, places, Nothing(slots), pool, 0, [], pool, f);
    k := ExtraScanned(e, places, f, pool[..n], extra, 0, [], extra, r);
    PoolUntouched(e, places, Nothing(slots), pool);
    ExtraUntouched(e, places, f, extra);
  }

  /** The short id of the i-th gap has that gap as its place. */
  lemma {:induction false} PlaceOf(ids: seq<nat>, at: seq<nat>, i: nat)
    requires |ids| <= |at| && i < |ids| && Distinct(ids)
    ensures ids[i] in Places(ids, at) && Places(ids, at)[ids[i]] == at[i]
  {
    PlacesSize(ids, at);
    assert ids[i] in ids;
    var j := PlacesAt(ids, at, ids[i]);
  }

  lemma {:induction false} PlacesAreGaps(ids: seq<nat>, at: seq<nat>, p: nat)
    requires |ids| <= |at| && p in Places(ids, at).Values
    ensures p in at
  {
    var id :| id in Places(ids, at) && Places(ids, at)[id] == p;
    var i := PlacesAt(ids, at, id);
  }

  ghost predicate FoundWhat(
    e: Env, ids: seq<nat>, before: Slots, after: Slots, pool: seq<Known>, extra: seq<Known>)
    requires |ids| == |Gaps(before)|
  {
    && |after| == |before|
    && (forall p :: 0 <= p < |before| && p !in Gaps(before) ==> after[p] == before[p])
    && (forall i :: 0 <= i < |ids| ==>
          Gaps(before)[i] < |after| && after[Gaps(before)[i]] == Sought(e, pool, extra, ids[i]))
  }

  /**
   InitData, once it takes a message. It looks at the pool up to the first transaction after which
   every short id has been found, then at the extra transactions in the same way. Every gap then
   holds what the transactions looked at say about its short id, and the other slots are as before.
   */
  lemma {:induction false} SearchExact(e: Env, m: Message, pool: seq<Known>, extra: seq<Known>) returns (n: nat, k: nat)
    requires InitData(e, m, pool, extra).status == Good
    ensures Prefill(e, m, |m.prefilled|).Filled? && Roomy(m, Prefill(e, m, |m.prefilled|).slots)
    ensures var ids := set id | id in m.shortIds;
      PoolStops(e, ids, pool, 0, n) && ExtraStops(e, ids, pool[..n], extra, 0, k)
    ensures var before := Prefill(e, m, |m.prefilled|).slots;
      FoundWhat(e, m.shortIds, before, InitData(e, m, pool, extra).slots, pool[..n], extra[..k])
  {
    PrefillRoom(e, m, |m.prefilled|);
    var slots := Prefill(e, m, |m.prefilled|).slots;
    n, k := SearchedExact(e, m, slots, pool, extra, Search(e, m, slots, pool, extra));
  }

  lemma {:induction false} SearchedExact(
    e: Env, m: Message, slots: Slots, pool: seq<Known>, extra: seq<Known>, r: Init) returns (n: nat, k: nat)
    requires Roomy(m, slots) && r == Search(e, m, slots, pool, extra) && r.status == Good
    ensures var ids := set id | id in m.shortIds;
      PoolStops(e, ids, pool, 0, n) && ExtraStops(e, ids, pool[..n], extra, 0, k)
    ensures FoundWhat(e, m.shortIds, slots, r.slots, pool[..n], extra[..k])
  {
    var places := Places(m.shortIds, Gaps(slots));
    PlacesInGaps(m.shortIds, slots);
    PlacesInjective(m.shortIds, slots);
    PlacesSize(m.shortIds, Gaps(slots));
    var f := ScanPool(e, places, Nothing(slots), pool);
    var found := ScanExtra(e, places, f, extra);
    n, k := Scanned(e, places, slots, pool, extra, f, found);
    assert places.Keys == set id | id in m.shortIds;
    FoundAt(e, m.shortIds, slots, places, found, pool[..n], extra[..k]);
  }

  lemma {:induction false} FoundAt(
    e: Env, ids: seq<nat>, slots: Slots, places: map<nat, nat>, r: Finds, pool: seq<Known>, extra: seq<Known>)
    requires |ids| == |Gaps(slots)| && Distinct(ids) && places == Places(ids, Gaps(slots))
    requires HoldsAll(e, places, r, pool, extra) && Untouched(places, Nothing(slots), r)
    ensures FoundWhat(e, ids, slots, r.slots, pool, extra)
  {
    forall i | 0 <= i < |ids|
      ensures Gaps(slots)[i] < |r.slots| && r.slots[Gaps(slots)[i]] == Sought(e, pool, extra, ids[i])
    {
      PlaceOf(ids, Gaps(slots), i);
      assert HoldsFor(e, places, r, pool, extra, ids[i]);
    }
    forall p | 0 <= p < |slots| && p !in Gaps(slots) ensures r.slots[p] == slots[p] {
      if p in places.Values {
        PlacesAreGaps(ids, Gaps(slots), p);
      }
    }
  }

  // ---------------------------------------------------------------- the whole transactions

  /** The places skipped before the first i whole transactions. */
  function Skips(m: Message, i: nat): nat
    requires i <= |m.prefilled|
  {
    if i == 0 then 0 else Skips(m, i - 1) + m.prefilled[i - 1].skip
  }

  /** The place of a whole transaction: all that was skipped, and one for each before it. */
  function PlaceOfWhole(m: Message, i: nat): nat
    requires i < |m.prefilled|
  {
    Skips(m, i + 1) + i
  }

  /** A whole transaction that can be placed: no gap it leaves behind is without a short id. */
  predicate Placeable(e: Env, m: Message, i: nat)
    requires i < |m.prefilled|
  {
    !e.isNull(m.prefilled[i].tx) && PlaceOfWhole(m, i) <= 65535 && Skips(m, i + 1) <= |m.shortIds|
  }

  ghost predicate AllPlaceable(e: Env, m: Message, i: nat)
    requires i <= |m.prefilled|
  {
    forall j :: 0 <= j < i ==> Placeable(e, m, j)
  }

  lemma {:induction false} AllPlaceableNext(e: Env, m: Message, j: nat, i: nat)
    requires i == j + 1 <= |m.prefilled|
    ensures AllPlaceable(e, m, i) <==> AllPlaceable(e, m, j) && Placeable(e, m, j)
  {
  }

  /** The slots hold the first i whole transactions, each in its place, and nothing else. */
  ghost predicate HasWhole(m: Message, i: nat, slots: Slots)
    requires i <= |m.prefilled|
  {
    && |slots| == Size(m)
    && (forall j :: 0 <= j < i ==>
          PlaceOfWhole(m, j) < |slots| && slots[PlaceOfWhole(m, j)] == Some(m.prefilled[j].tx))
    && (forall p :: 0 <= p < |slots| && slots[p].Some? ==> exists j :: 0 <= j < i && PlaceOfWhole(m, j) == p)
  }

  lemma {:induction false} WholeNext(m: Message, i: nat, slots: Slots, at: nat)
    requires i < |m.prefilled| && HasWhole(m, i, slots) && at == PlaceOfWhole(m, i) < |slots|
    ensures HasWhole(m, i + 1, slots[at := Some(m.prefilled[i].tx)])
  {
    var after := slots[at := Some(m.prefilled[i].tx)];
    forall j | 0 <= j < i
      ensures PlaceOfWhole(m, j) < |after| && after[PlaceOfWhole(m, j)] == Some(m.prefilled[j].tx)
    {
      WholeAscend(m, j, i);
    }
    forall p | 0 <= p < |after| && after[p].Some? ensures exists j :: 0 <= j < i + 1 && PlaceOfWhole(m, j) == p {
      if p == at {
        assert PlaceOfWhole(m, i) == p;
      } else {
        assert slots[p].Some?;
      }
    }
  }

  lemma {:induction false} WholeAscend(m: Message, i: nat, j: nat)
    requires i < j < |m.prefilled|
    ensures PlaceOfWhole(m, i) < PlaceOfWhole(m, j)
  {
    if i < j - 1 {
      WholeAscend(m, i, j - 1);
    }
  }

  /** The loop over the whole transactions: it puts each in its place, or refuses the first that has none. */
  lemma {:induction false} PrefillExact(e: Env, m: Message, i: nat)
    requires i <= |m.prefilled|
    ensures Prefill(e, m, i).Filled? <==> AllPlaceable(e, m, i)
    ensures Prefill(e, m, i).Filled? ==>
      HasWhole(m, i, Prefill(e, m, i).slots) && Prefill(e, m, i).last == if i == 0 then -1 else PlaceOfWhole(m, i - 1)
  {
    if i > 0 {
      var j := i - 1;
      PrefillExact(e, m, j);
      PrefillNext(e, m, j, i, Prefill(e, m, j), Prefill(e, m, i));
      AllPlaceableNext(e, m, j, i);
    }
  }

  lemma {:induction false} PrefillNext(e: Env, m: Message, j: nat, i: nat, f: Filled, g: Filled)
    requires i == j + 1 <= |m.prefilled| && f == Prefill(e, m, j) && g == Prefill(e, m, i)
    requires f.Filled? ==> HasWhole(m, j, f.slots) && f.last == if j == 0 then -1 else PlaceOfWhole(m, j - 1)
    ensures g.Filled? <==> f.Filled? && Placeable(e, m, j)
    ensures g.Filled? ==> HasWhole(m, i, g.slots) && g.last == PlaceOfWhole(m, j)
  {
    if f.Filled? {
      assert Skips(m, i) == Skips(m, j) + m.prefilled[j].skip;
      assert f.last == Skips(m, j) + j - 1;
      if Placeable(e, m, j) {
        WholeNext(m, j, f.slots, PlaceOfWhole(m, j));
      }
    }
  }

  /** A bucket is overfull after one of the short ids, be it the last, has been entered. */
  ghost predicate Overfull(e: Env, ids: seq<nat>) {
    exists i :: 0 <= i < |ids| && OverfullAfter(e, ids, i)
  }

  predicate OverfullAfter(e: Env, ids: seq<nat>, i: nat)
    requires i < |ids|
  {
    e.crowded(ids[..i + 1])
  }

  lemma {:induction false} CrowdsIs(e: Env, ids: seq<nat>)
    ensures Crowds(e, ids) <==> Overfull(e, ids)
  {
    if Crowds(e, ids) {
      var n :| 0 < n <= |ids| && e.crowded(ids[..n]);
      assert OverfullAfter(e, ids, n - 1);
    }
    if Overfull(e, ids) {
      var i :| 0 <= i < |ids| && OverfullAfter(e, ids, i);
      var n := i + 1;
      assert 0 < n <= |ids| && e.crowded(ids[..n]);
    }
  }

  /**
   The three answers of InitData. A message is invalid if it has no header, no transaction or more
   than a block can have, or a whole transaction without a place; it fails if two short ids are
   equal or a bucket gets overfull; every other one is taken.
   */
  lemma {:induction false} StatusExact(e: Env, m: Message, pool: seq<Known>, extra: seq<Known>)
    ensures var status := InitData(e, m, pool, extra).status;
      && (status == Invalid <==>
            || m.nullHeader || |m.shortIds| + |m.prefilled| == 0 || |m.shortIds| + |m.prefilled| > 100000
            || !AllPlaceable(e, m, |m.prefilled|))
      && (status == Failed <==> status != Invalid && (Overfull(e, m.shortIds) || !Distinct(m.shortIds)))
      && (status == Good <==> status != Invalid && status != Failed)
  {
    CrowdsIs(e, m.shortIds);
    PrefillExact(e, m, |m.prefilled|);
    var f := Prefill(e, m, |m.prefilled|);
    if f.Filled? {
      PrefillRoom(e, m, |m.prefilled|);
      PlacesSize(m.shortIds, Gaps(f.slots));
    }
  }

  // ---------------------------------------------------------------- what a caller sees

  lemma {:induction false} MatchesPrefix(e: Env, known: seq<Known>, n: nat, id: nat)
    requires n <= |known|
    ensures Matches(e, known[..n], id) <= Matches(e, known, id)
  {
    if n < |known| {
      MatchesPrefix(e, known[..|known| - 1], n, id);
      assert known[..|known| - 1][..n] == known[..n];
    } else {
      assert known[..n] == known;
    }
  }

  /** A single match in the pool, and none among the extra transactions, is found wherever it is. */
  lemma {:induction false} FoundInPool(e: Env, m: Message, pool: seq<Known>, extra: seq<Known>, i: nat, tx: Tx)
    requires InitData(e, m, pool, extra).status == Good && i < |m.shortIds| <= |Wanted(e, m)|
    requires Matches(e, pool, m.shortIds[i]) == [tx] && Matches(e, extra, m.shortIds[i]) == []
    ensures var slots := InitData(e, m, pool, extra).slots;
      Wanted(e, m)[i] < |slots| && slots[Wanted(e, m)[i]] == Some(tx)
  {
    var id := m.shortIds[i];
    var n, k := SearchExact(e, m, pool, extra);
    MatchesPrefix(e, pool, n, id);
    MatchesPrefix(e, extra, k, id);
    assert id in (set x | x in m.shortIds);
    if n < |pool| {
      assert Sought(e, pool[..n], [], id).Some?;
    } else {
      assert pool[..n] == pool;
    }
    AnswerPool(e, [], tx);
    assert [] + [tx] == [tx];
  }

  /** Two matches in the pool are both given up, unless the search was over before the second. */
  lemma {:induction false} AmbiguousInPool(e: Env, m: Message, pool: seq<Known>, extra: seq<Known>, i: nat)
    returns (n: nat)
    requires InitData(e, m, pool, extra).status == Good && i < |m.shortIds| <= |Wanted(e, m)|
    requires |Matches(e, pool, m.shortIds[i])| > 1
    ensures var ids := set id | id in m.shortIds; PoolStops(e, ids, pool, 0, n)
    ensures var slots := InitData(e, m, pool, extra).slots;
      n == |pool| ==> Wanted(e, m)[i] < |slots| && slots[Wanted(e, m)[i]] == None
  {
    var k;
    n, k := SearchExact(e, m, pool, extra);
    if n == |pool| {
      assert pool[..n] == pool;
    }
  }

  /** Without a match in the pool, the first of the extra matches is found if they all have one witness hash. */
  lemma {:induction false} FoundInExtra(e: Env, m: Message, pool: seq<Known>, extra: seq<Known>, i: nat)
    requires InitData(e, m, pool, extra).status == Good && i < |m.shortIds| <= |Wanted(e, m)|
    requires Matches(e, pool, m.shortIds[i]) == [] && Matches(e, extra, m.shortIds[i]) != []
    requires Alike(e, Matches(e, extra, m.shortIds[i]))
    ensures var slots := InitData(e, m, pool, extra).slots;
      Wanted(e, m)[i] < |slots| && slots[Wanted(e, m)[i]] == Some(Matches(e, extra, m.shortIds[i])[0])
  {
    var id := m.shortIds[i];
    var n, k := SearchExact(e, m, pool, extra);
    MatchesPrefix(e, pool, n, id);
    MatchesPrefix(e, extra, k, id);
    assert id in (set x | x in m.shortIds);
    var found := Matches(e, extra[..k], id);
    assert [] + found == found;
    if k < |extra| {
      assert Sought(e, pool[..n], extra[..k], id).Some?;
    } else {
      assert extra[..k] == extra;
    }
  }

  /** Extra matches with different witness hashes are given up, unless the search was over before. */
  lemma {:induction false} AmbiguousInExtra(e: Env, m: Message, pool: seq<Known>, extra: seq<Known>, i: nat)
    returns (n: nat, k: nat)
    requires InitData(e, m, pool, extra).status == Good && i < |m.shortIds| <= |Wanted(e, m)|
    requires Matches(e, pool, m.shortIds[i]) == [] && !Alike(e, Matches(e, extra, m.shortIds[i]))
    ensures var ids := set id | id in m.shortIds;
      PoolStops(e, ids, pool, 0, n) && ExtraStops(e, ids, pool[..n], extra, 0, k)
    ensures var slots := InitData(e, m, pool, extra).slots;
      k == |extra| ==> Wanted(e, m)[i] < |slots| && slots[Wanted(e, m)[i]] == None
  {
    var id := m.shortIds[i];
    n, k := SearchExact(e, m, pool, extra);
    MatchesPrefix(e, pool, n, id);
    if k == |extra| {
      assert extra[..k] == extra;
      assert [] + Matches(e, extra, id) == Matches(e, extra, id);
    }
  }
}
