/**
 What the calls of the address manager do to the addresses they name: what Add_ and Good_ write,
 when an entry is worth keeping, and which orders the shuffling of GetAddr_ can lead to.
 */
module AddrManUpdates {
  import opened AddrMan
  import opened AddrManInvariant
  import opened AddrManKeeps
  import opened AddrManEffects
  import opened AddrManRuns
  import opened AddrManGetAddr
  import opened AddrManCollisions

  // ---------------------------------------------------------------- quality

  /** The time is at most ten minutes ahead and thirty days back. */
  predicate SeenRecently(i: Info, now: int) {
    now - 2592000 <= i.time <= now + 600
  }

  /** Three failures without any success, or ten after a week without one. */
  predicate FailedTooOften(i: Info, now: int) {
    if i.lastSuccess == 0 then i.attempts >= 3 else i.attempts >= 10 && now - i.lastSuccess > 604800
  }

  /** An entry tried within the last minute is kept; any other if it was seen recently and did not fail too often. */
  lemma {:induction false} QualityOf(i: Info, now: int)
    ensures IsTerrible(i, now) <==> now - i.lastTry > 60 && (!SeenRecently(i, now) || FailedTooOften(i, now))
  {
  }

  /** A reported connection makes an entry worth keeping for a week, however often it failed before. */
  lemma {:induction false} GoodIsKept(e: Env, s: State, id: int, testBeforeEvict: bool, time: int, now: int)
    requires Consistent(e, s) && id in s.info && 0 < time <= now <= time + 604800
    ensures id in GoodEntry(e, s, id, testBeforeEvict, time).0.info
    ensures var i := GoodEntry(e, s, id, testBeforeEvict, time).0.info[id];
      SeenRecently(i, now) ==> !IsTerrible(i, now)
  {
    GoodOutcome(e, s, id, testBeforeEvict, time);
  }

  // ---------------------------------------------------------------- Good

  /** A collision is remembered while there are fewer than ten. */
  function Remembering(collisions: set<int>, id: int): set<int> {
    if |collisions| < 10 then collisions + {id} else collisions
  }

  /** The manager `r` that Good_ leaves, and whether it has moved the entry. */
  ghost predicate GoodResult(e: Env, s: State, r: State, moved: bool, id: int, testBeforeEvict: bool, time: int)
    requires id in s.info
  {
    var i, slot := s.info[id], TriedSlot(e, s.info[id].service);
    && moved == (!i.inTried && !(testBeforeEvict && slot in s.tried))
    && r.lastGood == time && id in r.info && Credited(i, r.info[id], time)
    && (moved ==> TookSlot(e, s, r, id) && r.collisions == s.collisions)
    && (!moved ==>
          r == s.(info := s.info[id := r.info[id]], lastGood := time,
                  collisions := if i.inTried then s.collisions else Remembering(s.collisions, id)))
  }

  /**
   Good_ for a known address. The entry is credited with the connection. If it was new, it gets
   its slot of the tried table; but if that slot is taken and is to be tested first, the
   collision is remembered and nothing else changes.
   */
  lemma {:induction false} GoodOutcome(e: Env, s: State, id: int, testBeforeEvict: bool, time: int)
    requires Sound(e, s) && id in s.info
    ensures var (r, moved) := GoodEntry(e, s, id, testBeforeEvict, time);
      GoodResult(e, s, r, moved, id, testBeforeEvict, time)
  {
    if s.info[id].inTried || (testBeforeEvict && TriedSlot(e, s.info[id].service) in s.tried) {
      HasReferences(e, s, id);
      GoodStays(e, s, id, testBeforeEvict, time);
    } else {
      HasReferences(e, s, id);
      GoodMoves(e, s, id, time);
    }
  }

  /** For an address it does not have, Good_ only notes that something could be reached. */
  lemma {:induction false} GoodUnknown(e: Env, s: State, a: Service, testBeforeEvict: bool, time: int)
    requires a !in s.index
    ensures Good(e, s, a, testBeforeEvict, time) == (s.(lastGood := time), false)
  {
  }

  lemma {:induction false} HasReferences(e: Env, s: State, id: int)
    requires Coherent(e, s, {}, {}) && id in s.info
    ensures s.info[id].inTried || s.info[id].refCount > 0
  {
    assert RefsOk(s.info[id], id, SlotsOf(s.news, id), {}, {});
  }

  lemma {:induction false} GoodStays(e: Env, s: State, id: int, testBeforeEvict: bool, time: int)
    requires id in s.info && (s.info[id].inTried || s.info[id].refCount > 0)
    requires s.info[id].inTried || (testBeforeEvict && TriedSlot(e, s.info[id].service) in s.tried)
    ensures var (r, moved) := GoodEntry(e, s, id, testBeforeEvict, time);
      GoodResult(e, s, r, moved, id, testBeforeEvict, time)
  {
  }

  lemma {:induction false} GoodMoves(e: Env, s: State, id: int, time: int)
    requires Sound(e, s) && id in s.info && !s.info[id].inTried
    ensures var p := Praised(s, id, time); var r := MakeTried(e, p, id);
      && r.lastGood == time && r.collisions == s.collisions && id in r.info && Credited(s.info[id], r.info[id], time)
      && TookSlot(e, s, r, id)
  {
    var p := Praised(s, id, time);
    PraisedKeeps(e, s, id, time);
    MakeTriedTable(e, p, id);
    MakeTriedLoses(e, p, id);
    MakeTriedClock(e, p, id);
    MakeTriedFewer(e, p, id);
    PraisedTried(e, s, p, MakeTried(e, p, id), id);
  }

  // ---------------------------------------------------------------- Add

  /** A source announcing itself is taken at its word. */
  function PenaltyFor(a: Address, source: NetAddr, penalty: int): int {
    if a.service.host == source then 0 else penalty
  }

  /**
   The time of a known entry moves only if the new one, less the penalty, is ahead by more than an
   hour for addresses seen within a day, by more than a day for others.
   */
  function NewTime(was: int, time: int, penalty: int, now: int): int {
    if was + penalty < time - (if now < time + 86400 then 3600 else 86400)
    then (if time < penalty then 0 else time - penalty) else was
  }

  lemma {:induction false} RefreshedIs(i: Info, a: Address, penalty: int, now: int)
    ensures Refreshed(i, a, penalty, now)
            == i.(time := NewTime(i.time, a.time, penalty, now), services := i.services + a.services)
    ensures penalty >= 0 && i.time >= 0 ==> Refreshed(i, a, penalty, now).time >= i.time
  {
  }

  /** Entry `id` has the slot, whose former owner is lost if it had no other; nothing else is different. */
  ghost predicate GotSlot(s: State, r: State, id: int, slot: Slot) {
    && r.news == s.news[slot := id] && r.tried == s.tried && r.info.Keys == s.info.Keys - Victim(s, slot)
    && Fewer(s.info, r.info) && r.collisions == s.collisions && r.lastGood == s.lastGood && r.nIdCount == s.nIdCount
  }

  /** An announcement that may give a known entry one more slot. */
  predicate WorthMore(i: Info, time: int, lucky: bool) {
    time > i.time && !i.inTried && i.refCount != 8 && lucky
  }

  /**
   AddSingle for a known address. Its time and services are brought up to date. One more slot goes
   to it if the announcement is worth it and the slot for its source is open; the entry found there
   is lost if it had no other. Otherwise nothing else changes.
   */
  lemma {:induction false} AddKnown(
    e: Env, s: State, a: Address, source: NetAddr, penalty: int, now: int, lucky: bool)
    requires Consistent(e, s) && e.routable(a.service) && a.service in s.index
    ensures var (r, added) := AddSingle(e, s, a, source, penalty, now, lucky);
      var id := s.index[a.service]; var slot := NewSlot(e, a.service, source);
      var i := s.info[id].(time := NewTime(s.info[id].time, a.time, PenaltyFor(a, source, penalty), now),
                           services := s.info[id].services + a.services);
      && id in r.info
      && (added <==> WorthMore(i, a.time, lucky) && SlotOpen(s, id, slot, now))
      && (!added ==> r == s.(info := s.info[id := i]))
      && (added ==>
            && GotSlot(s.(info := s.info[id := i]), r, id, slot)
            && SameEntry(r.info[id], i.(refCount := i.refCount + 1)))
  {
    var id := s.index[a.service];
    var p := PenaltyFor(a, source, penalty);
    var i := Refreshed(s.info[id], a, p, now);
    RefreshedIs(s.info[id], a, p, now);
    RefreshKeeps(e, s, id, i, source, now);
    var q := s.(info := s.info[id := i]);
    UpdateStats(e, s, id, i, {}, {});
    Idle(e, q, id);
    if !i.inTried {
      KnownOffered(e, q, id, source, now);
      KnownSlot(s, q, id, i, NewSlot(e, a.service, source), now);
    }
  }

  lemma {:induction false} KnownSlot(s: State, q: State, id: int, i: Info, slot: Slot, now: int)
    requires id in s.info && q == s.(info := s.info[id := i]) && i.refCount == s.info[id].refCount
    ensures SlotOpen(q, id, slot, now) <==> SlotOpen(s, id, slot, now)
    ensures Victim(q, slot) == Victim(s, slot) && q.info.Keys == s.info.Keys
  {
  }

  /** Offering a slot to an entry that has others. */
  lemma {:induction false} KnownOffered(e: Env, q: State, id: int, source: NetAddr, now: int)
    requires Coherent(e, q, {}, {}) && id in q.info && !q.info[id].inTried
    ensures var (r, added) := Offer(e, q, id, source, now); var slot := NewSlot(e, q.info[id].service, source);
      && (added <==> SlotOpen(q, id, slot, now)) && id in r.info
      && (!added ==> r == q)
      && (added ==>
            && GotSlot(q, r, id, slot)
            && SameEntry(r.info[id], q.info[id].(refCount := q.info[id].refCount + 1)))
  {
    Idle(e, q, id);
    OfferEffect(e, q, id, source, now);
    OfferFewer(e, q, id, source, now);
    assert RefsOk(q.info[id], id, SlotsOf(q.news, id), {}, {});
    var slot := NewSlot(e, q.info[id].service, source);
    if slot in q.news && q.news[slot] != id {
      ClearNewFrame(e, q, slot, id);
    }
  }

  /** The entry made for an address seen for the first time. */
  predicate Introduced(i: Info, a: Address, source: NetAddr, penalty: int) {
    && i.service == a.service && i.source == source && i.services == a.services
    && i.time == (if a.time < penalty then 0 else a.time - penalty)
    && i.lastTry == i.lastCountAttempt == i.lastSuccess == 0 && i.attempts == 0 && i.refCount == 1 && !i.inTried
  }

  /** The entry in a slot can make room for an address seen for the first time. */
  ghost predicate OpenToNew(s: State, slot: Slot, now: int) {
    slot in s.news ==>
      s.news[slot] in s.info && (IsTerrible(s.info[s.news[slot]], now) || s.info[s.news[slot]].refCount > 1)
  }

  /** What adding an address seen for the first time leads to. */
  ghost predicate Announced(e: Env, s: State, o: (State, bool), a: Address, source: NetAddr, penalty: int, now: int) {
    var (r, added) := o;
    var id, slot := s.nIdCount, NewSlot(e, a.service, source);
    && (added <==> OpenToNew(s, slot, now))
    && (added ==>
          && r.news == s.news[slot := id] && id in r.info && Introduced(r.info[id], a, source, penalty)
          && r.info.Keys == s.info.Keys + {id} - Victim(s, slot))
    && (!added ==> r.news == s.news && r.info.Keys == s.info.Keys)
    && Fewer(s.info, r.info - {id}) && r.tried == s.tried && r.collisions == s.collisions
    && r.lastGood == s.lastGood && r.nIdCount == id + 1
  }

  /**
   AddSingle for an address it does not have. If the slot for its source is open, the address gets a
   new entry there, made from what was announced; the entry found there is lost if it had no other
   slot. Otherwise the address stays unknown, and the tables and entries are as before.
   */
  lemma {:induction false} AddUnknown(
    e: Env, s: State, a: Address, source: NetAddr, penalty: int, now: int, lucky: bool)
    requires Consistent(e, s) && e.routable(a.service) && a.service !in s.index
    ensures Announced(e, s, AddSingle(e, s, a, source, penalty, now, lucky), a, source,
                      PenaltyFor(a, source, penalty), now)
  {
    var p := PenaltyFor(a, source, penalty);
    var c := Create(e, s, Penalised(a, p), source);
    assert AddSingle(e, s, a, source, penalty, now, lucky) == Offer(e, c, s.nIdCount, source, now);
    Created(e, s, Penalised(a, p), source);
    CreatedIs(e, s, Penalised(a, p), source, c);
    OfferedUnknown(e, s, c, a, source, p, now);
  }

  lemma {:induction false} OfferedUnknown(
    e: Env, s: State, c: State, a: Address, source: NetAddr, penalty: int, now: int)
    requires Coherent(e, s, {}, {}) && Coherent(e, c, {}, {s.nIdCount})
    requires s.nIdCount !in s.info && c.info.Keys == s.info.Keys + {s.nIdCount} && c.news == s.news
    requires s.nIdCount in c.info && c.info[s.nIdCount]
             == Info(a.service, source, Later(0, a.time - penalty), a.services, 0, 0, 0, 0, 0, false, |s.random|)
    requires forall k :: k in s.info ==> k in c.info && c.info[k] == s.info[k]
    requires c.tried == s.tried && c.collisions == s.collisions && c.lastGood == s.lastGood
    requires c.nIdCount == s.nIdCount + 1
    ensures Announced(e, s, Offer(e, c, s.nIdCount, source, now), a, source, penalty, now)
  {
    var slot := NewSlot(e, a.service, source);
    NewOffered(e, c, s.nIdCount, source, now);
    NewSlotOpen(e, s, c, s.nIdCount, slot, now);
    var (r, added) := Offer(e, c, s.nIdCount, source, now);
    OfferFewer(e, c, s.nIdCount, source, now);
    forall k | k in r.info - {s.nIdCount} ensures k in s.info && Likewise(s.info[k], r.info[k]) {
      assert k in c.info.Keys && Likewise(c.info[k], r.info[k]);
    }
    AddedUnknown(e, s, c, r, added, a, source, penalty, now);
  }

  lemma {:induction false} AddedUnknown(
    e: Env, s: State, c: State, r: State, added: bool, a: Address, source: NetAddr, penalty: int, now: int)
    requires var id, slot := s.nIdCount, NewSlot(e, a.service, source);
      && id !in s.info && c.info.Keys == s.info.Keys + {id} && c.news == s.news
      && id in c.info && Victim(c, slot) == Victim(s, slot)
      && c.info[id] == Info(a.service, source, Later(0, a.time - penalty), a.services, 0, 0, 0, 0, 0, false, |s.random|)
      && (added <==> OpenToNew(s, slot, now))
      && (added ==>
            && r.news == c.news[slot := id] && id in r.info && r.info.Keys == c.info.Keys - Victim(c, slot)
            && SameEntry(r.info[id], c.info[id].(refCount := 1)))
      && (!added ==> r.news == c.news && r.info.Keys == c.info.Keys - {id})
      && Fewer(s.info, r.info - {id}) && r.tried == s.tried && r.collisions == s.collisions
      && r.lastGood == s.lastGood && r.nIdCount == id + 1
    ensures Announced(e, s, (r, added), a, source, penalty, now)
  {
  }

  lemma {:induction false} CreatedIs(e: Env, s: State, a: Address, source: NetAddr, c: State)
    requires Coherent(e, s, {}, {}) && c == Create(e, s, a, source)
    ensures s.nIdCount !in s.info && c.info.Keys == s.info.Keys + {s.nIdCount} && c.news == s.news
    ensures forall k :: k in s.info ==> k in c.info && c.info[k] == s.info[k]
    ensures c.tried == s.tried && c.collisions == s.collisions && c.lastGood == s.lastGood
    ensures c.nIdCount == s.nIdCount + 1
    ensures c.info[s.nIdCount]
            == Info(a.service, source, a.time, a.services, 0, 0, 0, 0, 0, false, |s.random|)
  {
  }

  lemma {:induction false} NewSlotOpen(e: Env, s: State, c: State, id: int, slot: Slot, now: int)
    requires Coherent(e, s, {}, {}) && id !in s.info && id in c.info && c.news == s.news && c.info[id].refCount == 0
    requires forall k :: k in s.info ==> k in c.info && c.info[k] == s.info[k]
    ensures SlotOpen(c, id, slot, now) <==> OpenToNew(s, slot, now)
    ensures Victim(c, slot) == Victim(s, slot)
  {
    if slot in s.news {
      SlotEntry(e, s, slot, {}, {});
    }
  }

  lemma {:induction false} NewOffered(e: Env, c: State, id: int, source: NetAddr, now: int)
    requires Coherent(e, c, {}, {id}) && id in c.info && !c.info[id].inTried && c.info[id].refCount == 0
    ensures var (r, added) := Offer(e, c, id, source, now); var slot := NewSlot(e, c.info[id].service, source);
      && (added <==> SlotOpen(c, id, slot, now))
      && (added ==>
            && r.news == c.news[slot := id] && id in r.info && r.info.Keys == c.info.Keys - Victim(c, slot)
            && SameEntry(r.info[id], c.info[id].(refCount := 1)))
      && (!added ==> r.news == c.news && r.info.Keys == c.info.Keys - {id})
  {
    OfferEffect(e, c, id, source, now);
    var slot := NewSlot(e, c.info[id].service, source);
    if slot in c.news && c.news[slot] != id {
      ClearNewFrame(e, c, slot, id);
    }
  }

  /** A first failed attempt counts even if no connection has ever succeeded. */
  lemma {:induction false} FirstFailureCounts(
    e: Env, a: Address, source: NetAddr, penalty: int, now: int, lucky: bool, time: int)
    requires e.routable(a.service)
    ensures var s := AddSingle(e, Fresh(), a, source, penalty, now, lucky).0;
      && a.service in s.index && s.index[a.service] in s.info && s.info[s.index[a.service]].attempts == 0
      && Attempt(s, a.service, true, time).info[s.index[a.service]].attempts == 1
  {
    var p := PenaltyFor(a, source, penalty);
    var c := Create(e, Fresh(), Penalised(a, p), source);
    assert c.news == map[] && AddSingle(e, Fresh(), a, source, penalty, now, lucky).0
           == Occupy(c, NewSlot(e, a.service, source), 0);
  }

  /** An announcement of an address that cannot be routed to changes nothing. */
  lemma {:induction false} AddUnroutable(
    e: Env, s: State, a: Address, source: NetAddr, penalty: int, now: int, lucky: bool)
    requires !e.routable(a.service)
    ensures AddSingle(e, s, a, source, penalty, now, lucky) == (s, false)
  {
  }

  lemma {:induction false} AddSingleIdle(
    e: Env, s: State, a: Address, source: NetAddr, penalty: int, now: int, lucky: bool)
    requires Consistent(e, s)
    ensures var (r, added) := AddSingle(e, s, a, source, penalty, now, lucky);
      !added ==> r.news == s.news && r.tried == s.tried && r.info.Keys == s.info.Keys
  {
    AddSingleTried(e, s, a, source, penalty, now, lucky);
    if e.routable(a.service) {
      if a.service in s.index {
        AddKnown(e, s, a, source, penalty, now, lucky);
      } else {
        AddUnknown(e, s, a, source, penalty, now, lucky);
      }
    }
  }

  /** Add_ counts the announcements that got a slot: if none did, the tables are as before. */
  lemma {:induction false} AddCounts(e: Env, s: State, c: seq<Candidate>, source: NetAddr, penalty: int)
    requires Consistent(e, s)
    ensures var (r, n) := Add(e, s, c, source, penalty);
      && n <= |c| && (n == 0 ==> r.news == s.news && r.tried == s.tried && r.info.Keys == s.info.Keys)
    ensures c != [] ==>
      var (q, m) := Add(e, s, c[..|c| - 1], source, penalty);
      var last := c[|c| - 1];
      Add(e, s, c, source, penalty).1
      == m + if AddSingle(e, q, last.address, source, penalty, last.now, last.lucky).1 then 1 else 0
  {
    if c != [] {
      var front, last := c[..|c| - 1], c[|c| - 1];
      AddCounts(e, s, front, source, penalty);
      AddKeeps(e, s, front, source, penalty);
      AddSingleIdle(e, Add(e, s, front, source, penalty).0, last.address, source, penalty, last.now, last.lucky);
    }
  }

  // ---------------------------------------------------------------- GetAddr

  lemma {:induction false} ShuffleAgrees(
    s: State, n: nat, draw: nat -> nat, other: nat -> nat, r: State, t: State)
    requires (forall k :: 0 <= k < n ==> draw(k) == other(k)) && r == Shuffle(s, n, draw) && t == Shuffle(s, n, other)
    ensures r == t
  {
    if n > 0 {
      var m := n - 1;
      var q, u := Shuffle(s, m, draw), Shuffle(s, m, other);
      ShuffleAgrees(s, m, draw, other, q, u);
      ShuffleNext(s, m, n, draw, q, r);
      ShuffleNext(s, m, n, other, q, t);
      SameDraw(q, m, draw, other);
    }
  }

  lemma {:induction false} SameDraw(q: State, m: nat, draw: nat -> nat, other: nat -> nat)
    requires draw(m) == other(m)
    ensures ShuffleOne(q, m, draw) == ShuffleOne(q, m, other)
  {
  }

  lemma {:induction false} PlaceInRandom(e: Env, r: State, n: nat, want: seq<int>, id: int)
    requires Consistent(e, r) && n <= |r.random| && r.random[..n] == want && id in r.info && id !in want
    ensures var j := r.info[id].randomPos; n <= j < |r.random| && r.random[j] == id
  {
    assert forall k :: 0 <= k < n ==> r.random[k] == want[k];
  }

  /**
   The exchanges of GetAddr_ can bring any entries to the front in any order: nothing that passes
   the filters is left out by the way they are drawn.
   */
  lemma {:induction false} EveryOrderDrawn(e: Env, s: State, want: seq<int>) returns (draw: nat -> nat)
    requires Consistent(e, s) && Distinct(want) && (forall k :: k in want ==> k in s.info) && |want| <= |s.random|
    ensures var r := Shuffle(s, |want|, draw); |r.random| == |s.random| && r.random[..|want|] == want
  {
    if want == [] {
      draw := k => 0;
    } else {
      var n, front, id := |want| - 1, want[..|want| - 1], want[|want| - 1];
      assert want == front + [id];
      var first := EveryOrderDrawn(e, s, front);
      draw := OneMoreDrawn(e, s, n, first, Shuffle(s, n, first), front, id);
    }
  }

  /** The same draws, with one more. */
  function OneMore(first: nat -> nat, n: nat, d: nat): nat -> nat {
    k => if k == n then d else first(k)
  }

  lemma {:induction false} OneMoreDrawn(
    e: Env, s: State, n: nat, first: nat -> nat, r: State, front: seq<int>, id: int) returns (draw: nat -> nat)
    requires Consistent(e, s) && n < |s.random| && r == Shuffle(s, n, first) && |r.random| == |s.random|
    requires r.random[..n] == front && id in s.info && id !in front
    ensures var t := Shuffle(s, n + 1, draw); |t.random| == |s.random| && t.random[..n + 1] == front + [id]
  {
    var j := NextPlace(e, s, n, first, r, front, id);
    draw := OneMore(first, n, j - n);
    DrawnNext(s, n, n + 1, first, draw, r, Shuffle(s, n + 1, draw));
    FrontGrows(r, n, j, draw, Shuffle(s, n + 1, draw), front, id);
  }

  lemma {:induction false} NextPlace(
    e: Env, s: State, n: nat, first: nat -> nat, r: State, front: seq<int>, id: int) returns (j: nat)
    requires Consistent(e, s) && n < |s.random| && r == Shuffle(s, n, first) && |r.random| == |s.random|
    requires r.random[..n] == front && id in s.info && id !in front
    ensures n <= j < |r.random| && r.random[j] == id && RandomOk(r.info, r.random)
  {
    ShuffleKeeps(e, s, n, first, r);
    ShuffleKeys(s, n, first);
    assert id in r.info.Keys;
    PlaceInRandom(e, r, n, front, id);
    j := r.info[id].randomPos;
  }

  lemma {:induction false} DrawnNext(
    s: State, n: nat, next: nat, first: nat -> nat, draw: nat -> nat, r: State, t: State)
    requires r == Shuffle(s, n, first) && (forall k :: 0 <= k < n ==> draw(k) == first(k))
    requires next == n + 1 && t == Shuffle(s, next, draw)
    ensures t == ShuffleOne(r, n, draw)
  {
    ShuffleAgrees(s, n, draw, first, Shuffle(s, n, draw), r);
    ShuffleNext(s, n, next, draw, r, t);
  }

  lemma {:induction false} FrontGrows(
    r: State, n: nat, j: nat, draw: nat -> nat, t: State, front: seq<int>, id: int)
    requires RandomOk(r.info, r.random) && n <= j < |r.random| && draw(n) == j - n && r.random[j] == id
    requires t == ShuffleOne(r, n, draw) && r.random[..n] == front
    ensures |t.random| == |r.random| && t.random[..n + 1] == front + [id]
  {
    assert t == SwapRandom(r, n, j);
    SwapPrefix(r, n, j);
  }
}
