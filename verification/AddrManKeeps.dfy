/**
 Every operation of the address manager keeps it consistent, from any consistent state and for
 every outcome of the random draws and the clock; hence so does every run.
 */
module AddrManKeeps {
  import opened AddrMan
  import opened AddrManInvariant

  // ---------------------------------------------------------------- deleting and clearing

  /** The same entry, whatever its place in the random vector. */
  ghost predicate SameEntry(i: Info, j: Info) {
    i.(randomPos := 0) == j.(randomPos := 0)
  }

  /** One entry survives a step with at most its place in the random vector changed. */
  ghost predicate Survives(s: State, r: State, k: int) {
    k in s.info && k in r.info && SameEntry(s.info[k], r.info[k])
  }

  lemma {:induction false} DeleteFrame(e: Env, s: State, id: int, k: int)
    requires id in s.info && k in s.info && k != id
    ensures Survives(s, Delete(e, s, id), k)
  {
  }

  /** What the entry in a new slot is like. */
  lemma {:induction false} SlotEntry(e: Env, s: State, slot: Slot, out: set<int>, idle: set<int>)
    requires Coherent(e, s, out, idle) && slot in s.news
    ensures s.news[slot] in s.info && !s.info[s.news[slot]].inTried && s.info[s.news[slot]].refCount > 0
    ensures s.news[slot] !in out
  {
    var id := s.news[slot];
    assert NewSlotOk(e, s.info, slot, id);
    assert slot in SlotsOf(s.news, id);
    assert RefsOk(s.info[id], id, SlotsOf(s.news, id), out, idle);
  }

  lemma {:induction false} ClearNewKeeps(e: Env, s: State, slot: Slot, out: set<int>, idle: set<int>)
    requires Coherent(e, s, out, idle) && (slot in s.news ==> s.news[slot] !in idle)
    ensures Coherent(e, ClearNew(e, s, slot), out, idle)
  {
    if slot in s.news {
      var id := s.news[slot];
      SlotEntry(e, s, slot, out, idle);
      var r := Release(s, slot);
      assert (idle + {id}) - {id} == idle;
      assert Coherent(e, r, out, idle + {id}) by { ReleaseKeeps(e, s, slot, out, idle); }
      if r.info[id].refCount == 0 {
        DeleteKeeps(e, r, id, out, idle + {id});
      } else {
        Tighten(e, r, id, out, idle + {id});
      }
    }
  }

  lemma {:induction false} ClearNewFrame(e: Env, s: State, slot: Slot, k: int)
    requires k in s.info && (slot in s.news ==> s.news[slot] != k)
    ensures Survives(s, ClearNew(e, s, slot), k)
  {
    if slot in s.news && s.news[slot] in s.info {
      var id, r := s.news[slot], Release(s, slot);
      if r.info[id].refCount == 0 {
        DeleteFrame(e, r, id, k);
      }
    }
  }

  // ---------------------------------------------------------------- moving to the tried table

  lemma {:induction false} WithdrawKeeps(e: Env, s: State, id: int, out: set<int>, idle: set<int>)
    requires Coherent(e, s, out, idle) && id in s.info && !s.info[id].inTried
    ensures Coherent(e, Withdraw(s, id), out, idle + {id})
  {
    var i := s.info[id].(refCount := 0);
    EntryFrame(e, s, id, i, out, idle);
    RandomFrame(s.info, s.random, id, i);
    WithdrawRefs(s, id, out, idle);
    WithdrawSlots(e, s.info[id := i], s.news, id, Withdraw(s, id).news);
  }

  lemma {:induction false} WithdrawSlots(e: Env, info: map<int, Info>, news: Table, id: int, after: Table)
    requires NewSlotsOk(e, info, news) && after == map slot | slot in news && news[slot] != id :: news[slot]
    ensures NewSlotsOk(e, info, after)
  {
    forall t | t in after ensures NewSlotOk(e, info, t, after[t]) {
      assert NewSlotOk(e, info, t, news[t]);
    }
  }

  lemma {:induction false} WithdrawRefs(s: State, id: int, out: set<int>, idle: set<int>)
    requires CountedRefs(s.info, s.news, out, idle) && id in s.info
    ensures CountedRefs(Withdraw(s, id).info, Withdraw(s, id).news, out, idle + {id})
  {
    var r := Withdraw(s, id);
    forall k | k in r.info ensures RefsOk(r.info[k], k, SlotsOf(r.news, k), out, idle + {id}) {
      assert RefsOk(s.info[k], k, SlotsOf(s.news, k), out, idle);
      assert SlotsOf(r.news, k) == if k == id then {} else SlotsOf(s.news, k);
    }
  }

  /** An entry that is out of the tables has no slot in the new table. */
  lemma {:induction false} OutHasNoSlot(e: Env, s: State, id: int, slot: Slot, out: set<int>, idle: set<int>)
    requires Coherent(e, s, out, idle) && id in out
    ensures id in s.info && !s.info[id].inTried && s.info[id].refCount == 0 && (slot in s.news ==> s.news[slot] != id)
  {
    assert RefsOk(s.info[id], id, SlotsOf(s.news, id), out, idle);
    assert slot in s.news && s.news[slot] == id ==> slot in SlotsOf(s.news, id);
  }

  /** The last step of an eviction: the evicted entry is counted and placed again. */
  lemma {:induction false} ReplaceKeeps(e: Env, s: State, id: int, home: Slot, out: set<int>)
    requires Coherent(e, s, out, {}) && id in out && home !in s.news && id in s.info
    requires home.bucket < NEW_BUCKET_COUNT && home.pos == e.newPos(home.bucket, s.info[id].service)
    ensures Coherent(e, Occupy(Recount(e, s, id), home, id), out - {id}, {})
  {
    OutHasNoSlot(e, s, id, home, out, {});
    RecountKeeps(e, s, id, out, {});
    var r := Recount(e, s, id);
    assert NewSlotOk(e, r.info, home, id);
    OccupyKeeps(e, r, home, id, out - {id}, {} + {id});
    assert ({} + {id}) - {id} == {};
  }

  /** An evicted entry goes back to its own new slot; whatever was there loses a reference. */
  lemma {:induction false} EvictKeeps(e: Env, s: State, slot: Slot, out: set<int>)
    requires Coherent(e, s, out, {}) && slot in s.tried
    ensures s.tried[slot] in s.info && Coherent(e, Evict(e, s, slot), out, {})
  {
    var id := s.tried[slot];
    UntryKeeps(e, s, slot, out, {});
    var u := Untry(e, s, slot);
    var home := NewSlot(e, s.info[id].service, s.info[id].source);
    OutHasNoSlot(e, u, id, home, out + {id}, {});
    ClearNewKeeps(e, u, home, out + {id}, {});
    ClearNewFrame(e, u, home, id);
    EvictEnds(e, u, ClearNew(e, u, home), id, home, out);
  }

  lemma {:induction false} EvictEnds(e: Env, u: State, r: State, id: int, home: Slot, out: set<int>)
    requires Coherent(e, r, out + {id}, {}) && Survives(u, r, id) && id !in out && home !in r.news
    requires home.bucket < NEW_BUCKET_COUNT && home.pos == e.newPos(home.bucket, u.info[id].service)
    ensures Coherent(e, Occupy(Recount(e, r, id), home, id), out, {})
  {
    ReplaceKeeps(e, r, id, home, out + {id});
    assert (out + {id}) - {id} == out;
  }

  /** The rest of a tried table is not touched by an eviction, nor is any entry outside the two slots. */
  lemma {:induction false} EvictFrame(e: Env, s: State, slot: Slot, k: int)
    requires slot in s.tried && s.tried[slot] in s.info && k in s.info && k != s.tried[slot]
    requires forall t :: t in s.news ==> s.news[t] != k
    ensures Evict(e, s, slot).tried == s.tried - {slot} && Survives(s, Evict(e, s, slot), k)
  {
    var id := s.tried[slot];
    var u := Untry(e, s, slot);
    ClearNewFrame(e, u, NewSlot(e, s.info[id].service, s.info[id].source), k);
  }

  lemma {:induction false} LoosenedKeeps(e: Env, s: State, id: int)
    requires Coherent(e, s, {}, {}) && id in s.info && !s.info[id].inTried
    ensures Coherent(e, Loosened(e, s, id), {id}, {})
  {
    WithdrawKeeps(e, s, id, {}, {});
    UncountKeeps(e, Withdraw(s, id), id, {}, {} + {id});
    assert ({} + {id}) - {id} == {} && {} + {id} == {id};
  }

  /** The tried slot is made free, and the moving entry is untouched by that. */
  lemma {:induction false} RoomMade(e: Env, u: State, id: int, slot: Slot)
    requires Coherent(e, u, {id}, {}) && id in u.info
    ensures var r := MakeRoom(e, u, slot);
      Coherent(e, r, {id}, {}) && Survives(u, r, id) && r.tried == u.tried - {slot}
  {
    if slot in u.tried {
      EvictKeeps(e, u, slot, {id});
      forall t | t in u.news ensures u.news[t] != id {
        OutHasNoSlot(e, u, id, t, {id}, {});
      }
      EvictFrame(e, u, slot, id);
    }
  }

  /** Once the slot is free the entry is entered there. */
  lemma {:induction false} Entered(e: Env, r: State, id: int)
    requires Coherent(e, r, {id}, {}) && id in r.info
    requires TriedSlot(e, r.info[id].service) !in r.tried
    ensures Coherent(e, Try(e, r, id), {}, {})
  {
    TryKeeps(e, r, id, {id}, {});
    assert {id} - {id} == {};
  }

  lemma {:induction false} MakeTriedKeeps(e: Env, s: State, id: int)
    requires Coherent(e, s, {}, {}) && id in s.info && !s.info[id].inTried
    ensures Coherent(e, MakeTried(e, s, id), {}, {})
  {
    var slot := TriedSlot(e, s.info[id].service);
    LoosenedKeeps(e, s, id);
    RoomMade(e, Loosened(e, s, id), id, slot);
    Entered(e, MakeRoom(e, Loosened(e, s, id), slot), id);
  }

  // ---------------------------------------------------------------- adding

  lemma {:induction false} Idle(e: Env, s: State, id: int)
    requires Coherent(e, s, {}, {}) && id in s.info
    ensures Coherent(e, s, {}, {id})
  {
    forall k | k in s.info ensures RefsOk(s.info[k], k, SlotsOf(s.news, k), {}, {id}) {
      assert RefsOk(s.info[k], k, SlotsOf(s.news, k), {}, {});
    }
  }

  lemma {:induction false} Placed(e: Env, s: State, slot: Slot, id: int)
    requires Coherent(e, s, {}, {id}) && slot !in s.news && id in s.info
    requires NewSlotOk(e, s.info, slot, id) && s.info[id].refCount < NEW_BUCKETS_PER_ADDRESS
    ensures Coherent(e, Occupy(s, slot, id), {}, {})
  {
    OccupyKeeps(e, s, slot, id, {}, {id});
    assert {id} - {id} == {};
  }

  lemma {:induction false} OfferKeeps(e: Env, s: State, id: int, source: NetAddr, now: int)
    requires Coherent(e, s, {}, {id}) && id in s.info
    requires !s.info[id].inTried && s.info[id].refCount < NEW_BUCKETS_PER_ADDRESS
    ensures Coherent(e, Offer(e, s, id, source, now).0, {}, {})
  {
    var slot := NewSlot(e, s.info[id].service, source);
    assert RefsOk(s.info[id], id, SlotsOf(s.news, id), {}, {id});
    if slot !in s.news {
      Placed(e, s, slot, id);
    } else {
      SlotEntry(e, s, slot, {}, {id});
      if s.news[slot] == id {
        Settled(e, s, id);
      } else {
        OfferContested(e, s, id, slot, source, now);
      }
    }
  }

  lemma {:induction false} Settled(e: Env, s: State, id: int)
    requires Coherent(e, s, {}, {id}) && (id in s.info ==> s.info[id].refCount > 0)
    ensures Coherent(e, s, {}, {})
  {
    Tighten(e, s, id, {}, {id});
    assert {id} - {id} == {};
  }

  lemma {:induction false} OfferContested(e: Env, s: State, id: int, slot: Slot, source: NetAddr, now: int)
    requires Coherent(e, s, {}, {id}) && id in s.info && slot == NewSlot(e, s.info[id].service, source)
    requires !s.info[id].inTried && 0 <= s.info[id].refCount < NEW_BUCKETS_PER_ADDRESS
    requires slot in s.news && s.news[slot] != id && s.news[slot] in s.info
    ensures Coherent(e, Offer(e, s, id, source, now).0, {}, {})
  {
    var there := s.info[s.news[slot]];
    if IsTerrible(there, now) || (there.refCount > 1 && s.info[id].refCount == 0) {
      var r := ClearNew(e, s, slot);
      ClearNewKeeps(e, s, slot, {}, {id});
      ClearNewFrame(e, s, slot, id);
      PlacedAfter(e, s, r, slot, id);
    } else if s.info[id].refCount == 0 {
      DeleteKeeps(e, s, id, {}, {id});
      assert {id} - {id} == {};
    } else {
      Settled(e, s, id);
    }
  }

  lemma {:induction false} PlacedAfter(e: Env, s: State, r: State, slot: Slot, id: int)
    requires Coherent(e, r, {}, {id}) && slot !in r.news && Survives(s, r, id) && !s.info[id].inTried
    requires slot.bucket < NEW_BUCKET_COUNT && slot.pos == e.newPos(slot.bucket, s.info[id].service)
    requires s.info[id].refCount < NEW_BUCKETS_PER_ADDRESS
    ensures Coherent(e, Occupy(r, slot, id), {}, {})
  {
    assert NewSlotOk(e, r.info, slot, id);
    Placed(e, r, slot, id);
  }

  // ---------------------------------------------------------------- collisions stay meaningful

  /** No entry appears, none becomes tried, and none changes what is known of its address. */
  ghost predicate Fewer(info: map<int, Info>, after: map<int, Info>) {
    forall k :: k in after ==> k in info && Likewise(info[k], after[k])
  }

  ghost predicate Likewise(i: Info, j: Info) {
    && j == i.(refCount := j.refCount, inTried := j.inTried, randomPos := j.randomPos)
    && (j.inTried ==> i.inTried)
  }

  lemma {:induction false} FewerTimes(info: map<int, Info>, after: map<int, Info>)
    requires Fewer(info, after) && TimesOk(info)
    ensures TimesOk(after)
  {
  }

  lemma {:induction false} FewerAgain(a: map<int, Info>, b: map<int, Info>, c: map<int, Info>)
    requires Fewer(a, b) && Fewer(b, c)
    ensures Fewer(a, c)
  {
  }

  lemma {:induction false} DeleteFewer(e: Env, s: State, id: int)
    requires id in s.info
    ensures Fewer(s.info, Delete(e, s, id).info) && Delete(e, s, id).tried == s.tried
    ensures Delete(e, s, id).nIdCount == s.nIdCount && Delete(e, s, id).collisions == s.collisions
    ensures Delete(e, s, id).lastGood == s.lastGood
  {
  }

  lemma {:induction false} ClearNewFewer(e: Env, s: State, slot: Slot)
    ensures Fewer(s.info, ClearNew(e, s, slot).info) && ClearNew(e, s, slot).tried == s.tried
    ensures ClearNew(e, s, slot).nIdCount == s.nIdCount && ClearNew(e, s, slot).collisions == s.collisions
    ensures ClearNew(e, s, slot).lastGood == s.lastGood
  {
    if slot in s.news && s.news[slot] in s.info {
      DeleteFewer(e, Release(s, slot), s.news[slot]);
    }
  }

  lemma {:induction false} EvictFewer(e: Env, s: State, slot: Slot)
    requires slot in s.tried && s.tried[slot] in s.info
    ensures Fewer(s.info, Evict(e, s, slot).info) && Evict(e, s, slot).tried == s.tried - {slot}
    ensures Evict(e, s, slot).nIdCount == s.nIdCount && Evict(e, s, slot).collisions == s.collisions
  {
    var i := s.info[s.tried[slot]];
    ClearNewFewer(e, Untry(e, s, slot), NewSlot(e, i.service, i.source));
  }

  lemma {:induction false} MakeTriedFewer(e: Env, s: State, id: int)
    requires id in s.info
    ensures Fewer(s.info, MakeTried(e, s, id).info - {id})
    ensures id in MakeTried(e, s, id).info ==> MakeTried(e, s, id).info[id].service == s.info[id].service
    ensures MakeTried(e, s, id).nIdCount == s.nIdCount && MakeTried(e, s, id).collisions == s.collisions
  {
    var slot := TriedSlot(e, s.info[id].service);
    var u := Loosened(e, s, id);
    RoomFewer(e, u, slot);
    FewerAgain(s.info, u.info, MakeRoom(e, u, slot).info);
  }

  lemma {:induction false} RoomFewer(e: Env, u: State, slot: Slot)
    ensures var r := MakeRoom(e, u, slot);
      Fewer(u.info, r.info) && r.nIdCount == u.nIdCount && r.collisions == u.collisions
  {
    if slot in u.tried && u.tried[slot] in u.info {
      EvictFewer(e, u, slot);
    }
  }

  /** The tried table gains exactly the entry's own slot. */
  lemma {:induction false} MakeTriedTable(e: Env, s: State, id: int)
    requires Coherent(e, s, {}, {}) && id in s.info && !s.info[id].inTried
    ensures MakeTried(e, s, id).tried == s.tried[TriedSlot(e, s.info[id].service) := id]
    ensures id in MakeTried(e, s, id).info
    ensures SameEntry(MakeTried(e, s, id).info[id], s.info[id].(inTried := true, refCount := 0))
  {
    var slot := TriedSlot(e, s.info[id].service);
    LoosenedKeeps(e, s, id);
    RoomMade(e, Loosened(e, s, id), id, slot);
    TryEffect(e, s, MakeRoom(e, Loosened(e, s, id), slot), id);
  }

  lemma {:induction false} TryEffect(e: Env, s: State, r: State, id: int)
    requires id in s.info && Survives(Loosened(e, s, id), r, id)
             && r.tried == s.tried - {TriedSlot(e, s.info[id].service)}
    ensures Try(e, r, id).tried == s.tried[TriedSlot(e, s.info[id].service) := id]
    ensures SameEntry(Try(e, r, id).info[id], s.info[id].(inTried := true, refCount := 0))
  {
  }

  lemma {:induction false} OfferFewer(e: Env, s: State, id: int, source: NetAddr, now: int)
    requires id in s.info
    ensures var r := Offer(e, s, id, source, now).0;
      && Fewer(s.info, r.info) && r.tried == s.tried && r.nIdCount == s.nIdCount && r.collisions == s.collisions
      && r.lastGood == s.lastGood
  {
    var slot := NewSlot(e, s.info[id].service, source);
    var r := Offer(e, s, id, source, now).0;
    if r == Delete(e, s, id) {
      DeleteFewer(e, s, id);
    } else if slot in s.news {
      ClearNewFewer(e, s, slot);
      OccupyFewer(s, ClearNew(e, s, slot), slot, id);
    }
  }

  lemma {:induction false} OccupyFewer(s: State, r: State, slot: Slot, id: int)
    requires Fewer(s.info, r.info)
    ensures id in r.info ==> Fewer(s.info, Occupy(r, slot, id).info)
  {
  }

  /** Ids are not reused, and tried slots do not become free. */
  ghost predicate Evolves(s: State, r: State) {
    var before := s.nIdCount;
    && before <= r.nIdCount && s.tried.Keys <= r.tried.Keys
    && (forall k :: k in r.info && k < s.nIdCount ==> k in s.info && r.info[k].service == s.info[k].service)
  }

  lemma {:induction false} EvolvesCollisions(e: Env, s: State, r: State)
    requires CollisionsOk(e, s) && Evolves(s, r) && r.collisions <= s.collisions
    ensures CollisionsOk(e, r)
  {
    assert r.collisions + (s.collisions - r.collisions) == s.collisions;
  }

  lemma {:induction false} ConsistentAfter(e: Env, s: State, r: State)
    requires Consistent(e, s) && Coherent(e, r, {}, {}) && TimesOk(r.info)
    requires Evolves(s, r) && r.collisions <= s.collisions
    ensures Consistent(e, r)
  {
    EvolvesCollisions(e, s, r);
  }

  // ---------------------------------------------------------------- Add

  /** An address already known: its entry is refreshed and perhaps offered another slot. */
  lemma {:induction false} RefreshKeeps(e: Env, s: State, id: int, i: Info, source: NetAddr, now: int)
    requires Coherent(e, s, {}, {}) && id in s.info
    requires i == s.info[id].(time := i.time, services := i.services)
    ensures var r := s.(info := s.info[id := i]);
      && Coherent(e, r, {}, {})
      && (!i.inTried && i.refCount != NEW_BUCKETS_PER_ADDRESS ==> Coherent(e, Offer(e, r, id, source, now).0, {}, {}))
  {
    assert RefsOk(s.info[id], id, SlotsOf(s.news, id), {}, {});
    UpdateStats(e, s, id, i, {}, {});
    var r := s.(info := s.info[id := i]);
    if !i.inTried && i.refCount != NEW_BUCKETS_PER_ADDRESS {
      Idle(e, r, id);
      OfferKeeps(e, r, id, source, now);
    }
  }

  lemma {:induction false} AddAgainKeeps(
    e: Env, s: State, id: int, a: Address, source: NetAddr, penalty: int, now: int, lucky: bool)
    requires Consistent(e, s) && id in s.info
    ensures Consistent(e, AddAgain(e, s, id, a, source, penalty, now, lucky).0)
  {
    var i := Refreshed(s.info[id], a, penalty, now);
    RefreshKeeps(e, s, id, i, source, now);
    OfferFewer(e, s.(info := s.info[id := i]), id, source, now);
    FewerTimes(s.info[id := i], Offer(e, s.(info := s.info[id := i]), id, source, now).0.info);
    ConsistentAfter(e, s, AddAgain(e, s, id, a, source, penalty, now, lucky).0);
  }

  /** A state reached from a consistent one, with a newly made entry waiting for its first slot. */
  ghost predicate Awaiting(e: Env, s: State, c: State, id: int) {
    var coherent := Coherent(e, c, {}, {id});
    && coherent && TimesOk(c.info) && CollisionsOk(e, s) && Evolves(s, c) && c.collisions == s.collisions
    && id in c.info && !c.info[id].inTried && c.info[id].refCount == 0
  }

  lemma {:induction false} CreatedRest(e: Env, s: State, a: Address, source: NetAddr)
    requires TimesOk(s.info)
    ensures var c := Create(e, s, a, source);
      && TimesOk(c.info) && Evolves(s, c) && c.collisions == s.collisions
      && s.nIdCount in c.info && !c.info[s.nIdCount].inTried && c.info[s.nIdCount].refCount == 0
  {
  }

  lemma {:induction false} Created(e: Env, s: State, a: Address, source: NetAddr)
    requires Consistent(e, s) && a.service !in s.index
    ensures Awaiting(e, s, Create(e, s, a, source), s.nIdCount)
  {
    CreateKeeps(e, s, a, source, {}, {}, {s.nIdCount});
    CreatedRest(e, s, a, source);
  }

  lemma {:induction false} OfferEvolves(e: Env, s: State, c: State, id: int, source: NetAddr, now: int)
    requires Evolves(s, c) && id in c.info
    ensures Evolves(s, Offer(e, c, id, source, now).0) && Offer(e, c, id, source, now).0.collisions == c.collisions
  {
    OfferFewer(e, c, id, source, now);
  }

  lemma {:induction false} OfferedFirst(e: Env, s: State, c: State, id: int, source: NetAddr, now: int)
    requires Awaiting(e, s, c, id)
    ensures Consistent(e, Offer(e, c, id, source, now).0)
  {
    OfferKeeps(e, c, id, source, now);
    OfferFewer(e, c, id, source, now);
    FewerTimes(c.info, Offer(e, c, id, source, now).0.info);
    OfferEvolves(e, s, c, id, source, now);
    EvolvesCollisions(e, s, Offer(e, c, id, source, now).0);
  }

  lemma {:induction false} AddFirstKeeps(e: Env, s: State, a: Address, source: NetAddr, penalty: int, now: int)
    requires Consistent(e, s) && a.service !in s.index
    ensures Consistent(e, AddFirst(e, s, a, source, penalty, now).0)
  {
    var b := Penalised(a, penalty);
    Created(e, s, b, source);
    OfferedFirst(e, s, Create(e, s, b, source), s.nIdCount, source, now);
  }

  lemma {:induction false} AddSingleKeeps(
    e: Env, s: State, a: Address, source: NetAddr, penalty: int, now: int, lucky: bool)
    requires Consistent(e, s)
    ensures Consistent(e, AddSingle(e, s, a, source, penalty, now, lucky).0)
  {
    var p := if a.service.host == source then 0 else penalty;
    if e.routable(a.service) {
      if a.service in s.index {
        AddAgainKeeps(e, s, s.index[a.service], a, source, p, now, lucky);
      } else {
        AddFirstKeeps(e, s, a, source, p, now);
      }
    }
  }

  lemma {:induction false} AddKeeps(e: Env, s: State, c: seq<Candidate>, source: NetAddr, penalty: int)
    requires Consistent(e, s)
    ensures Consistent(e, Add(e, s, c, source, penalty).0)
  {
    if c != [] {
      AddKeeps(e, s, c[..|c| - 1], source, penalty);
      var last := c[|c| - 1];
      AddSingleKeeps(e, Add(e, s, c[..|c| - 1], source, penalty).0, last.address, source, penalty, last.now,
                     last.lucky);
    }
  }

  // ---------------------------------------------------------------- Good and the collisions

  lemma {:induction false} PraisedKeeps(e: Env, s: State, id: int, time: int)
    requires Coherent(e, s, {}, {}) && id in s.info
    ensures Coherent(e, Praised(s, id, time), {}, {})
  {
    UpdateStats(e, s, id, s.info[id].(lastSuccess := time, lastTry := time, attempts := 0), {}, {});
  }

  lemma {:induction false} PraisedCollisions(e: Env, s: State, id: int, time: int)
    requires CollisionsOk(e, s) && id in s.info && 0 <= id < s.nIdCount
    ensures Evolves(s, Praised(s, id, time)) && CollisionsOk(e, Praised(s, id, time))
    ensures TriedSlot(e, s.info[id].service) in s.tried ==> CollisionsOk(e, Collide(Praised(s, id, time), id))
  {
  }

  lemma {:induction false} MakeTriedConsistent(e: Env, s: State, id: int)
    requires Coherent(e, s, {}, {}) && CollisionsOk(e, s) && id in s.info && !s.info[id].inTried
    ensures var r := MakeTried(e, s, id);
      Coherent(e, r, {}, {}) && CollisionsOk(e, r) && Evolves(s, r)
  {
    MakeTriedKeeps(e, s, id);
    MakeTriedTable(e, s, id);
    MakeTriedFewer(e, s, id);
    EvolvesCollisions(e, s, MakeTried(e, s, id));
  }

  lemma {:induction false} MakeTriedTimes(e: Env, s: State, id: int)
    requires Coherent(e, s, {}, {}) && id in s.info && !s.info[id].inTried
    requires TimesOk(s.info) && s.info[id].lastSuccess > 0
    ensures TimesOk(MakeTried(e, s, id).info)
  {
    MakeTriedTable(e, s, id);
    MakeTriedFewer(e, s, id);
    FewerTimes(s.info, MakeTried(e, s, id).info - {id});
    TimesButOne(MakeTried(e, s, id).info, id);
  }

  lemma {:induction false} TimesButOne(info: map<int, Info>, id: int)
    requires TimesOk(info - {id}) && id in info && TimeOk(info[id])
    ensures TimesOk(info)
  {
    forall k | k in info ensures TimeOk(info[k]) {
      if k != id { assert k in info - {id}; }
    }
  }

  /** Consistency without the times. */
  ghost predicate Sound(e: Env, s: State) {
    var coherent := Coherent(e, s, {}, {});
    coherent && CollisionsOk(e, s)
  }

  /**
   The times for which Good_ leaves a consistent manager: an entry may not be stamped with a
   time before the epoch, nor a tried one with the epoch itself.
   */
  predicate GoodTime(e: Env, s: State, id: int, testBeforeEvict: bool, time: int)
    requires id in s.info
  {
    time > 0 || (time == 0 && !s.info[id].inTried && testBeforeEvict && TriedSlot(e, s.info[id].service) in s.tried)
  }

  /** Good_ keeps the structure whatever the time. */
  lemma {:induction false} GoodSound(e: Env, s: State, id: int, testBeforeEvict: bool, time: int)
    requires Sound(e, s) && id in s.info
    ensures Sound(e, GoodEntry(e, s, id, testBeforeEvict, time).0)
  {
    var i, p := s.info[id], Praised(s, id, time);
    PraisedKeeps(e, s, id, time);
    PraisedCollisions(e, s, id, time);
    if i.inTried || i.refCount <= 0 {
    } else if testBeforeEvict && TriedSlot(e, i.service) in s.tried {
    } else {
      MakeTriedConsistent(e, p, id);
    }
  }

  predicate Stamped(i: Info, j: Info, time: int, inTried: bool) {
    j.lastSuccess == time && j.lastTry == time && j.service == i.service && j.inTried == inTried
  }

  lemma {:induction false} PraisedMoves(e: Env, s: State, id: int, time: int)
    requires Coherent(e, s, {}, {}) && id in s.info && !s.info[id].inTried
    ensures s.info[id].refCount > 0
    ensures var r := MakeTried(e, Praised(s, id, time), id); id in r.info && Stamped(s.info[id], r.info[id], time, true)
  {
    assert RefsOk(s.info[id], id, SlotsOf(s.news, id), {}, {});
    PraisedKeeps(e, s, id, time);
    MakeTriedTable(e, Praised(s, id, time), id);
  }

  /** What Good_ makes of a known address: it is stamped, and it is tried from then on if it was moved. */
  lemma {:induction false} GoodEffect(e: Env, s: State, id: int, testBeforeEvict: bool, time: int)
    requires Sound(e, s) && id in s.info
    ensures var (r, moved) := GoodEntry(e, s, id, testBeforeEvict, time); var i := s.info[id];
      && moved == (!i.inTried && !(testBeforeEvict && TriedSlot(e, i.service) in s.tried))
      && id in r.info && Stamped(i, r.info[id], time, i.inTried || moved)
  {
    if !s.info[id].inTried {
      PraisedMoves(e, s, id, time);
    }
  }

  lemma {:induction false} PraisedTimes(s: State, id: int, time: int)
    requires TimesOk(s.info) && id in s.info
    ensures time > 0 || (time == 0 && !s.info[id].inTried) ==> TimesOk(Praised(s, id, time).info)
  {
  }

  lemma {:induction false} GoodTimes(e: Env, s: State, id: int, testBeforeEvict: bool, time: int)
    requires Sound(e, s) && TimesOk(s.info) && id in s.info && GoodTime(e, s, id, testBeforeEvict, time)
    ensures TimesOk(GoodEntry(e, s, id, testBeforeEvict, time).0.info)
  {
    var p := Praised(s, id, time);
    PraisedTimes(s, id, time);
    if !s.info[id].inTried && !(testBeforeEvict && TriedSlot(e, s.info[id].service) in s.tried) {
      PraisedKeeps(e, s, id, time);
      MakeTriedTimes(e, p, id);
    }
  }

  /** Good_ keeps a manager consistent exactly when the time it is given is acceptable. */
  lemma {:induction false} GoodKeeps(e: Env, s: State, id: int, testBeforeEvict: bool, time: int)
    requires Consistent(e, s) && id in s.info
    ensures Consistent(e, GoodEntry(e, s, id, testBeforeEvict, time).0) <==> GoodTime(e, s, id, testBeforeEvict, time)
  {
    GoodSound(e, s, id, testBeforeEvict, time);
    GoodEffect(e, s, id, testBeforeEvict, time);
    if GoodTime(e, s, id, testBeforeEvict, time) {
      GoodTimes(e, s, id, testBeforeEvict, time);
    } else {
      assert !TimeOk(GoodEntry(e, s, id, testBeforeEvict, time).0.info[id]);
    }
  }

  /** Resolving a collision keeps the structure at any time. */
  lemma {:induction false} ResolveOneSound(e: Env, s: State, id: int, now: int)
    requires Sound(e, s)
    ensures Sound(e, ResolveOne(e, s, id, now))
  {
    ErasedSound(e, s, id);
    if id in s.info {
      GoodSound(e, Erased(s, id), id, false, now);
    }
  }

  lemma {:induction false} ErasedSound(e: Env, s: State, id: int)
    requires Sound(e, s)
    ensures Sound(e, Erased(s, id))
  {
    EvolvesCollisions(e, s, Erased(s, id));
  }
}
