/**
 What the address manager forgets. Moving an address to the tried table and adding an address
 can each push out at most one other entry, and only one that had no other reference.
 */
module AddrManEffects {
  import opened AddrMan
  import opened AddrManInvariant
  import opened AddrManKeeps

  /** The entry that loses its last reference when a slot is cleared, if there is one. */
  ghost function Victim(s: State, slot: Slot): set<int> {
    if slot in s.news && s.news[slot] in s.info && s.info[s.news[slot]].refCount == 1 then {s.news[slot]} else {}
  }

  lemma {:induction false} DeleteLoses(e: Env, s: State, id: int)
    requires RandomOk(s.info, s.random) && id in s.info
    ensures Delete(e, s, id).info.Keys == s.info.Keys - {id}
  {
  }

  lemma {:induction false} ClearNewLoses(e: Env, s: State, slot: Slot, out: set<int>, idle: set<int>)
    requires Coherent(e, s, out, idle)
    ensures ClearNew(e, s, slot).info.Keys == s.info.Keys - Victim(s, slot)
  {
    if slot in s.news {
      SlotEntry(e, s, slot, out, idle);
      ReleaseKeeps(e, s, slot, out, idle);
      ClearNewLosesAt(e, s, slot);
    }
  }

  lemma {:induction false} ClearNewLosesAt(e: Env, s: State, slot: Slot)
    requires slot in s.news && s.news[slot] in s.info
    requires RandomOk(Release(s, slot).info, Release(s, slot).random)
    ensures ClearNew(e, s, slot).info.Keys == s.info.Keys - Victim(s, slot)
  {
    var r := Release(s, slot);
    assert r.info.Keys == s.info.Keys;
    DeleteLoses(e, r, s.news[slot]);
  }

  /** Clearing a slot frees that slot and no other. */
  lemma {:induction false} ClearNewTable(e: Env, s: State, slot: Slot, out: set<int>, idle: set<int>)
    requires Coherent(e, s, out, idle)
    ensures ClearNew(e, s, slot).news == s.news - {slot}
  {
    if slot in s.news {
      SlotEntry(e, s, slot, out, idle);
    }
  }

  /** Where an evicted entry goes. */
  ghost function Home(e: Env, s: State, id: int): Slot
    requires id in s.info
  {
    NewSlot(e, s.info[id].service, s.info[id].source)
  }

  lemma {:induction false} EvictLoses(e: Env, s: State, slot: Slot, out: set<int>)
    requires Coherent(e, s, out, {}) && slot in s.tried && s.tried[slot] in s.info
    ensures var was := s.tried[slot]; var home := Home(e, s, was); var r := Evict(e, s, slot);
      && r.info.Keys == s.info.Keys - Victim(s, home)
      && was in r.info && SameEntry(r.info[was], s.info[was].(inTried := false, refCount := 1))
      && r.news == s.news[home := was]
  {
    var id := s.tried[slot];
    var home := Home(e, s, id);
    var u := Untry(e, s, slot);
    UntryKeeps(e, s, slot, out, {});
    OutHasNoSlot(e, u, id, home, out + {id}, {});
    ClearNewLoses(e, u, home, out + {id}, {});
    ClearNewTable(e, u, home, out + {id}, {});
    ClearNewFrame(e, u, home, id);
    EvictLosesAfter(s, u, ClearNew(e, u, home), id, home, e);
  }

  lemma {:induction false} EvictLosesAfter(s: State, u: State, c: State, id: int, home: Slot, e: Env)
    requires id in s.info && u.info == s.info[id := s.info[id].(inTried := false)] && u.news == s.news
    requires s.info[id].refCount == 0 && (home in s.news ==> s.news[home] != id)
    requires c.info.Keys == u.info.Keys - Victim(u, home) && Survives(u, c, id) && c.news == u.news - {home}
    ensures var r := Occupy(Recount(e, c, id), home, id);
      && r.info.Keys == s.info.Keys - Victim(s, home)
      && id in r.info && SameEntry(r.info[id], s.info[id].(inTried := false, refCount := 1))
      && r.news == s.news[home := id]
  {
    assert Victim(u, home) == Victim(s, home);
    assert u.info.Keys == s.info.Keys;
  }

  /** What is lost when `id` becomes tried. */
  ghost function Displaced(e: Env, s: State, id: int): set<int>
    requires id in s.info
  {
    var slot := TriedSlot(e, s.info[id].service);
    if slot in s.tried && s.tried[slot] in s.info then Victim(s, Home(e, s, s.tried[slot])) - {id} else {}
  }

  lemma {:induction false} LoosenedVictim(e: Env, s: State, id: int, home: Slot)
    requires id in s.info
    ensures var u := Loosened(e, s, id);
      u.info.Keys == s.info.Keys && Victim(u, home) == Victim(s, home) - {id} && u.tried == s.tried
  {
  }

  /** A table without the slots of one entry. */
  function Without(news: Table, id: int): Table {
    map slot | slot in news && news[slot] != id :: news[slot]
  }

  /** The entry `was` is back in its own place of the new table, as it was but for that. */
  ghost predicate SentBack(e: Env, s: State, r: State, was: int)
    requires was in s.info
  {
    && was in r.info && SameEntry(r.info[was], s.info[was].(inTried := false, refCount := 1))
    && Home(e, s, was) in r.news && r.news[Home(e, s, was)] == was
  }

  /**
   What moving an address to the tried table leaves. It gives up its new slots for its tried slot. If
   that was taken, the entry there goes back to its own place in the new table, unchanged but with one
   reference. The only entry that can be lost is the one that had its only reference in that place.
   All other slots stay as they are, and nothing that is known of any other address changes.
   */
  ghost predicate Tried(e: Env, s: State, r: State, id: int)
    requires id in s.info
  {
    var slot := TriedSlot(e, s.info[id].service);
    && r.tried == s.tried[slot := id] && r.info.Keys == s.info.Keys - Displaced(e, s, id)
    && Fewer(s.info, r.info - {id}) && r.nIdCount == s.nIdCount && r.collisions == s.collisions
    && (if slot in s.tried && s.tried[slot] in s.info
        then SentBack(e, s, r, s.tried[slot])
             && r.news == Without(s.news, id)[Home(e, s, s.tried[slot]) := s.tried[slot]]
        else r.news == Without(s.news, id))
  }

  lemma {:induction false} MakeTriedLoses(e: Env, s: State, id: int)
    requires Coherent(e, s, {}, {}) && id in s.info && !s.info[id].inTried
    ensures Tried(e, s, MakeTried(e, s, id), id)
    ensures var slot := TriedSlot(e, s.info[id].service);
      slot in s.tried ==> s.tried[slot] in s.info && s.tried[slot] != id
  {
    var slot := TriedSlot(e, s.info[id].service);
    var u := Loosened(e, s, id);
    LoosenedKeeps(e, s, id);
    MakeTriedTable(e, s, id);
    MakeTriedFewer(e, s, id);
    if slot in s.tried {
      LoosenedVictim(e, s, id, Home(e, s, s.tried[slot]));
      EvictLoses(e, u, slot, {id});
      MakeTriedLosesAfter(e, s, id, u, s.tried[slot], Evict(e, u, slot));
    }
  }

  lemma {:induction false} MakeTriedLosesAfter(e: Env, s: State, id: int, u: State, was: int, r: State)
    requires id in s.info && u == Loosened(e, s, id) && !s.info[id].inTried
    requires var slot := TriedSlot(e, s.info[id].service);
      slot in s.tried && s.tried[slot] == was && was in s.info && r == MakeRoom(e, u, slot)
    requires was != id && r.info.Keys == s.info.Keys - Displaced(e, s, id)
    requires was in u.info && was in r.info && SameEntry(r.info[was], u.info[was].(inTried := false, refCount := 1))
    requires r.news == u.news[Home(e, s, was) := was]
    ensures var r := MakeTried(e, s, id);
      && r.info.Keys == s.info.Keys - Displaced(e, s, id) && SentBack(e, s, r, was)
      && r.news == Without(s.news, id)[Home(e, s, was) := was]
  {
    assert id !in Displaced(e, s, id);
  }

  // ---------------------------------------------------------------- adding

  /**
   A new-table slot an entry may have: a free one, or that of another entry which is no longer
   worth keeping, or which has other slots while this one has none.
   */
  ghost predicate SlotOpen(s: State, id: int, slot: Slot, now: int)
    requires id in s.info
  {
    slot in s.news ==>
      && s.news[slot] != id && s.news[slot] in s.info
      && (|| IsTerrible(s.info[s.news[slot]], now)
          || (s.info[s.news[slot]].refCount > 1 && s.info[id].refCount == 0))
  }

  /**
   Offering an entry its slot: on success the slot is its own and at most the previous owner is
   lost; on failure the new table is as before, and an entry without references is dropped.
   */
  lemma {:induction false} OfferEffect(e: Env, s: State, id: int, source: NetAddr, now: int)
    requires Coherent(e, s, {}, {id}) && id in s.info && !s.info[id].inTried
    ensures var (r, added) := Offer(e, s, id, source, now); var slot := NewSlot(e, s.info[id].service, source);
      && (added <==> SlotOpen(s, id, slot, now))
      && (added ==>
            && r.news == s.news[slot := id] && id in r.info && r.info[id].refCount == s.info[id].refCount + 1
            && r.info.Keys == s.info.Keys - Victim(s, slot))
      && (!added ==>
            && r.news == s.news
            && r.info.Keys == if s.info[id].refCount == 0 then s.info.Keys - {id} else s.info.Keys)
  {
    var slot := NewSlot(e, s.info[id].service, source);
    if slot in s.news {
      SlotEntry(e, s, slot, {}, {id});
      if s.news[slot] != id {
        OfferWon(e, s, id, slot);
        if s.info[id].refCount == 0 {
          OfferLost(e, s, id);
        }
      } else {
        OwnSlot(e, s, id, slot);
      }
    }
  }

  lemma {:induction false} OwnSlot(e: Env, s: State, id: int, slot: Slot)
    requires Coherent(e, s, {}, {id}) && id in s.info && slot in s.news && s.news[slot] == id
    ensures s.info[id].refCount != 0
  {
    SlotEntry(e, s, slot, {}, {id});
  }

  /** The slot of another entry is taken over. */
  lemma {:induction false} OfferWon(e: Env, s: State, id: int, slot: Slot)
    requires Coherent(e, s, {}, {id}) && id in s.info && slot in s.news && s.news[slot] != id
    ensures var c := ClearNew(e, s, slot);
      && id in c.info && c.info[id].refCount == s.info[id].refCount
      && Occupy(c, slot, id).info.Keys == s.info.Keys - Victim(s, slot)
      && Occupy(c, slot, id).news == s.news[slot := id]
  {
    ClearNewTable(e, s, slot, {}, {id});
    ClearNewLoses(e, s, slot, {}, {id});
    ClearNewFrame(e, s, slot, id);
    assert id in ClearNew(e, s, slot).info.Keys;
  }

  lemma {:induction false} OfferLost(e: Env, s: State, id: int)
    requires Coherent(e, s, {}, {id}) && id in s.info
    ensures Delete(e, s, id).news == s.news && Delete(e, s, id).info.Keys == s.info.Keys - {id}
  {
    DeleteLoses(e, s, id);
  }
}
