/**
 Test before evict. An entry of the tried table gives up its slot only to a newcomer that
 ResolveCollisions_ finds waiting for it, and only if nothing has been heard from the entry for
 four hours and it was tried without success meanwhile, or could not be tried in time.
 */
module AddrManCollisions {
  import opened AddrMan
  import opened AddrManInvariant
  import opened AddrManKeeps
  import opened AddrManEffects
  import opened AddrManRuns

  // ---------------------------------------------------------------- one collision

  /** A connection succeeded less than four hours ago. */
  predicate Proven(i: Info, now: int) {
    now - i.lastSuccess < 14400
  }

  /** A connection was tried between one minute and four hours ago. */
  predicate Tested(i: Info, now: int) {
    60 < now - i.lastTry < 14400
  }

  /** No connection was tried for four hours, and the newcomer has waited for more than forty minutes. */
  predicate Untestable(there: Info, newcomer: Info, now: int) {
    now - there.lastTry >= 14400 && now - newcomer.lastSuccess > 2400
  }

  predicate MayReplace(there: Info, newcomer: Info, now: int) {
    !Proven(there, now) && (Tested(there, now) || Untestable(there, newcomer, now))
  }

  /** The entry has its slot of the tried table, and whatever was there is back in its own new slot. */
  ghost predicate TookSlot(e: Env, s: State, r: State, id: int)
    requires id in s.info
  {
    Tried(e, s, r.(collisions := s.collisions), id) && id in r.info && r.info[id].inTried && r.info[id].refCount == 0
  }

  /** The entry after a connection at the given time. */
  predicate Credited(i: Info, j: Info, time: int) {
    && j.lastSuccess == time && j.lastTry == time && j.attempts == 0
    && j.service == i.service && j.source == i.source && j.time == i.time && j.services == i.services
    && j.lastCountAttempt == i.lastCountAttempt
  }

  /** The outcome of a collision decided for the newcomer. */
  ghost predicate Promoted(e: Env, s: State, r: State, id: int, now: int)
    requires id in s.info
  {
    && r.collisions == s.collisions - {id} && r.lastGood == now
    && id in r.info && Credited(s.info[id], r.info[id], now)
    && (if s.info[id].inTried then r.tried == s.tried else TookSlot(e, s, r, id))
  }

  lemma {:induction false} EvictClock(e: Env, s: State, slot: Slot)
    requires slot in s.tried && s.tried[slot] in s.info
    ensures Evict(e, s, slot).lastGood == s.lastGood
  {
    var i := s.info[s.tried[slot]];
    ClearNewFewer(e, Untry(e, s, slot), NewSlot(e, i.service, i.source));
  }

  lemma {:induction false} RoomClock(e: Env, u: State, slot: Slot)
    ensures MakeRoom(e, u, slot).lastGood == u.lastGood
  {
    if slot in u.tried && u.tried[slot] in u.info {
      EvictClock(e, u, slot);
    }
  }

  lemma {:induction false} MakeTriedClock(e: Env, s: State, id: int)
    requires id in s.info
    ensures MakeTried(e, s, id).lastGood == s.lastGood
  {
    RoomClock(e, Loosened(e, s, id), TriedSlot(e, s.info[id].service));
  }

  lemma {:induction false} PromotedBy(e: Env, s: State, id: int, now: int)
    requires Sound(e, s) && id in s.info
    ensures Promoted(e, s, GoodEntry(e, Erased(s, id), id, false, now).0, id, now)
  {
    var q := Erased(s, id);
    var p := Praised(q, id, now);
    ErasedSound(e, s, id);
    GoodEffect(e, q, id, false, now);
    if !s.info[id].inTried {
      PraisedMoves(e, q, id, now);
      PraisedKeeps(e, q, id, now);
      MakeTriedTable(e, p, id);
      MakeTriedLoses(e, p, id);
      MakeTriedClock(e, p, id);
      MakeTriedFewer(e, p, id);
      PraisedTried(e, s, p, MakeTried(e, p, id), id);
    }
  }

  /** What was praised before it was moved was moved as it was. */
  lemma {:induction false} PraisedTried(e: Env, s: State, p: State, r: State, id: int)
    requires id in s.info && id in p.info && p.info == s.info[id := p.info[id]]
    requires p.info[id].service == s.info[id].service && p.info[id].refCount == s.info[id].refCount
    requires p.tried == s.tried && p.news == s.news && p.nIdCount == s.nIdCount
    requires Tried(e, p, r, id)
    requires var slot := TriedSlot(e, s.info[id].service); slot in s.tried ==> s.tried[slot] != id
    ensures Tried(e, s, r.(collisions := s.collisions), id)
  {
    var slot := TriedSlot(e, s.info[id].service);
    if slot in s.tried && s.tried[slot] in s.info {
      var home := Home(e, s, s.tried[slot]);
      assert Home(e, p, s.tried[slot]) == home;
      assert Victim(p, home) == Victim(s, home);
    }
    assert p.info.Keys == s.info.Keys && Displaced(e, p, id) == Displaced(e, s, id);
    forall k | k in r.info - {id} ensures k in s.info && Likewise(s.info[k], r.info[k]) {
      assert k in p.info && Likewise(p.info[k], (r.info - {id})[k]);
    }
  }

  /** What one round leaves behind. */
  ghost predicate Resolved(e: Env, s: State, r: State, id: int, now: int) {
    var forgotten := s.(collisions := s.collisions - {id});
    if id !in s.info || !e.valid(s.info[id].service) then r == forgotten
    else
      var slot := TriedSlot(e, s.info[id].service);
      if slot !in s.tried then Promoted(e, s, r, id, now)
      else
        && s.tried[slot] in s.info
        && var there, newcomer := s.info[s.tried[slot]], s.info[id];
           && (Proven(there, now) ==> r == forgotten)
           && (MayReplace(there, newcomer, now) ==> Promoted(e, s, r, id, now))
           && (!Proven(there, now) && !MayReplace(there, newcomer, now) ==> r == s)
  }

  lemma {:induction false} ResolvedAs(e: Env, s: State, r: State, id: int, now: int)
    requires TriedOk(e, s.info, s.tried)
    requires Decide(e, s, id, now) == Keep ==> r == s
    requires Decide(e, s, id, now) == Erase ==> r == Erased(s, id)
    requires Decide(e, s, id, now) == Replace && id in s.info ==> Promoted(e, s, r, id, now)
    ensures Resolved(e, s, r, id, now)
  {
  }

  /**
   One round of ResolveCollisions_. A collision whose newcomer is gone or no longer valid is
   forgotten; so is one with an entry that has proven itself, which keeps its slot. The newcomer
   gets the slot if it is free, or if its entry failed its test or could not be tested. In every
   other case nothing changes and the collision stays remembered.
   */
  lemma {:induction false} ResolveEffect(e: Env, s: State, id: int, now: int)
    requires Sound(e, s)
    ensures Resolved(e, s, ResolveOne(e, s, id, now), id, now)
  {
    if id in s.info {
      PromotedBy(e, s, id, now);
    }
    ResolvedAs(e, s, ResolveOne(e, s, id, now), id, now);
  }

  // ---------------------------------------------------------------- every run

  /** Some newcomer may take this slot now. */
  ghost predicate UpForEviction(e: Env, s: State, slot: Slot, id: int, now: int) {
    && id in s.info && e.valid(s.info[id].service) && TriedSlot(e, s.info[id].service) == slot
    && slot in s.tried && s.tried[slot] in s.info && MayReplace(s.info[s.tried[slot]], s.info[id], now)
  }

  /** The occupied slots keep their entries. */
  ghost predicate Kept(s: State, r: State) {
    forall slot :: slot in s.tried ==> slot in r.tried && r.tried[slot] == s.tried[slot]
  }

  lemma {:induction false} ResolveOneEvicts(e: Env, s: State, r: State, id: int, now: int, slot: Slot)
    requires Resolved(e, s, r, id, now) && slot in s.tried
    ensures slot in r.tried && (r.tried[slot] != s.tried[slot] ==> UpForEviction(e, s, slot, id, now))
  {
  }

  /** A manager after one more round. */
  lemma {:induction false} ResolveNext(
    e: Env, s: State, ids: seq<int>, clock: int -> int, q: State, last: int, r: State)
    requires ids != [] && last == ids[|ids| - 1] && q == Resolve(e, s, ids[..|ids| - 1], clock) && Sound(e, q)
    requires r == Resolve(e, s, ids, clock)
    ensures Sound(e, r) && Resolved(e, q, r, last, clock(last))
  {
    ResolveOneSound(e, q, last, clock(last));
    ResolveEffect(e, q, last, clock(last));
  }

  /** The first rounds of ResolveCollisions_ lead to a manager that has the slot up for eviction in the next. */
  ghost predicate EvictsAt(e: Env, s: State, ids: seq<int>, clock: int -> int, slot: Slot, j: nat) {
    && j < |ids| && slot in s.tried
    && var q := Resolve(e, s, ids[..j], clock);
       slot in q.tried && q.tried[slot] == s.tried[slot] && UpForEviction(e, q, slot, ids[j], clock(ids[j]))
  }

  lemma {:induction false} EvictsLonger(
    e: Env, s: State, ids: seq<int>, clock: int -> int, slot: Slot, j: nat, front: seq<int>)
    requires ids != [] && front == ids[..|ids| - 1] && EvictsAt(e, s, front, clock, slot, j)
    ensures EvictsAt(e, s, ids, clock, slot, j)
  {
    assert front[..j] == ids[..j];
  }

  /** The round of ResolveCollisions_ that gives a slot away finds its entry up for eviction. */
  lemma {:induction false} ResolveEvicts(e: Env, s: State, ids: seq<int>, clock: int -> int, slot: Slot, r: State)
    returns (j: nat)
    requires Sound(e, s) && slot in s.tried && r == Resolve(e, s, ids, clock)
    ensures Sound(e, r) && slot in r.tried
    ensures r.tried[slot] != s.tried[slot] ==> EvictsAt(e, s, ids, clock, slot, j)
  {
    j := 0;
    if ids != [] {
      var front, last := ids[..|ids| - 1], ids[|ids| - 1];
      var q := Resolve(e, s, front, clock);
      j := ResolveEvicts(e, s, front, clock, slot, q);
      ResolveNext(e, s, ids, clock, q, last, r);
      j := EvictsNext(e, s, ids, clock, slot, front, q, r, j);
    }
  }

  lemma {:induction false} EvictsNext(
    e: Env, s: State, ids: seq<int>, clock: int -> int, slot: Slot, front: seq<int>, q: State, r: State, i: nat)
    returns (j: nat)
    requires ids != [] && front == ids[..|ids| - 1] && q == Resolve(e, s, front, clock)
    requires slot in s.tried && slot in q.tried
    requires q.tried[slot] != s.tried[slot] ==> EvictsAt(e, s, front, clock, slot, i)
    requires var last := ids[|ids| - 1]; Resolved(e, q, r, last, clock(last))
    ensures slot in r.tried && (r.tried[slot] != s.tried[slot] ==> EvictsAt(e, s, ids, clock, slot, j))
  {
    var last := ids[|ids| - 1];
    ResolveOneEvicts(e, q, r, last, clock(last), slot);
    j := i;
    if q.tried[slot] == s.tried[slot] {
      j := |ids| - 1;
    } else {
      EvictsLonger(e, s, ids, clock, slot, i, front);
    }
  }

  lemma {:induction false} AddSingleTried(
    e: Env, s: State, a: Address, source: NetAddr, penalty: int, now: int, lucky: bool)
    ensures AddSingle(e, s, a, source, penalty, now, lucky).0.tried == s.tried
  {
    if e.routable(a.service) {
      if a.service in s.index && s.index[a.service] in s.info {
        var id := s.index[a.service];
        var penalty := if a.service.host == source then 0 else penalty;
        OfferFewer(e, s.(info := s.info[id := Refreshed(s.info[id], a, penalty, now)]), id, source, now);
      } else {
        var penalty := if a.service.host == source then 0 else penalty;
        OfferFewer(e, Create(e, s, Penalised(a, penalty), source), s.nIdCount, source, now);
      }
    }
  }

  lemma {:induction false} AddTried(e: Env, s: State, c: seq<Candidate>, source: NetAddr, penalty: int)
    ensures Add(e, s, c, source, penalty).0.tried == s.tried
  {
    if c != [] {
      var last := c[|c| - 1];
      AddTried(e, s, c[..|c| - 1], source, penalty);
      AddSingleTried(e, Add(e, s, c[..|c| - 1], source, penalty).0, last.address, source, penalty, last.now,
                     last.lucky);
    }
  }

  /** A reported connection never takes an occupied slot. */
  lemma {:induction false} GoodTried(e: Env, s: State, a: Service, time: int)
    requires Sound(e, s)
    ensures Kept(s, Good(e, s, a, true, time).0)
  {
    if a in s.index && s.index[a] in s.info {
      var id := s.index[a];
      if !s.info[id].inTried && TriedSlot(e, s.info[id].service) !in s.tried {
        PraisedKeeps(e, s, id, time);
        MakeTriedTable(e, Praised(s, id, time), id);
      }
    }
  }

  lemma {:induction false} ShuffleTried(s: State, n: nat, draw: nat -> nat)
    ensures Shuffle(s, n, draw).tried == s.tried
  {
    if n > 0 {
      ShuffleTried(s, n - 1, draw);
    }
  }

  /** No call but ResolveCollisions_ takes an occupied slot of the tried table away. */
  lemma {:induction false} OtherCallsKeep(e: Env, s: State, op: Op)
    requires Consistent(e, s) && CanCall(s, op) && !op.ResolveOp?
    ensures Kept(s, Call(e, s, op))
  {
    match op
    case AddOp(candidates, source, penalty) => AddTried(e, s, candidates, source, penalty);
    case GoodOp(a, time) => GoodTried(e, s, a, time);
    case GetAddrOp(visited, draw) => ShuffleTried(s, visited, draw);
    case _ =>
  }

  /** The eviction that a run makes in a slot: the call, the manager before it, and the round. */
  datatype Eviction = None | At(call: nat, before: State, round: nat)

  ghost predicate IsEviction(e: Env, s: State, ops: seq<Op>, slot: Slot, v: Eviction) {
    && v.At? && v.call < |ops| && ops[v.call].ResolveOp? && Runs(e, s, ops[..v.call], v.before)
    && slot in s.tried && slot in v.before.tried && v.before.tried[slot] == s.tried[slot]
    && EvictsAt(e, v.before, ops[v.call].ids, ops[v.call].clock, slot, v.round)
  }

  lemma {:induction false} LaterEviction(
    e: Env, s: State, ops: seq<Op>, slot: Slot, q: State, rest: seq<Op>, v: Eviction, w: Eviction)
    requires ops != [] && rest == ops[1..] && CanCall(s, ops[0]) && q == Call(e, s, ops[0])
    requires slot in s.tried && slot in q.tried && q.tried[slot] == s.tried[slot] && IsEviction(e, q, rest, slot, v)
    requires w == At(v.call + 1, v.before, v.round)
    ensures IsEviction(e, s, ops, slot, w)
  {
    var front := ops[..w.call];
    assert front[1..] == rest[..v.call] && front[0] == ops[0];
    assert Runs(e, s, front, v.before);
  }

  /**
   Over every run from a consistent manager, an entry of the tried table still has its slot at
   the end unless a round of ResolveCollisions_ found it up for eviction. Nothing that peers
   send, and no connection reported for another address, takes it away.
   */
  lemma {:induction false} TestBeforeEvict(e: Env, s: State, ops: seq<Op>, r: State, slot: Slot)
    returns (v: Eviction)
    requires Consistent(e, s) && Runs(e, s, ops, r) && slot in s.tried
    ensures slot in r.tried && (r.tried[slot] != s.tried[slot] ==> IsEviction(e, s, ops, slot, v))
    decreases ops
  {
    v := None;
    if ops != [] {
      var q := Call(e, s, ops[0]);
      CallKeeps(e, s, ops[0]);
      if ops[0].ResolveOp? {
        var j := ResolveEvicts(e, s, ops[0].ids, ops[0].clock, slot, q);
        if q.tried[slot] != s.tried[slot] {
          v := At(0, s, j);
          assert Runs(e, s, ops[..0], s);
          var _ := TestBeforeEvict(e, q, ops[1..], r, slot);
          return;
        }
      } else {
        OtherCallsKeep(e, s, ops[0]);
      }
      v := TestBeforeEvict(e, q, ops[1..], r, slot);
      if r.tried[slot] != s.tried[slot] {
        var w := At(v.call + 1, v.before, v.round);
        LaterEviction(e, s, ops, slot, q, ops[1..], v, w);
        v := w;
      }
    }
  }
}
