/**
 What an address manager can become. Over any run, ids are never used again, a tried slot that
 was once occupied stays occupied, and the only new entries are for routable addresses.
 */
module AddrManEvolution {
  import opened AddrMan
  import opened AddrManInvariant
  import opened AddrManKeeps
  import opened AddrManRuns

  predicate Routable(e: Env, i: Info) {
    e.routable(i.service)
  }

  /** Manager r is what s has become. */
  ghost predicate Descends(e: Env, s: State, r: State) {
    var evolves := Evolves(s, r);
    evolves && forall k :: k in r.info && k >= s.nIdCount ==> Routable(e, r.info[k])
  }

  ghost predicate Bounded(s: State) {
    forall k :: k in s.info ==> k < s.nIdCount
  }

  lemma {:induction false} DescendsOn(e: Env, s: State, r: State, t: State)
    requires Descends(e, s, r) && Descends(e, r, t)
    ensures Descends(e, s, t)
  {
    forall k | k in t.info && k >= s.nIdCount ensures Routable(e, t.info[k]) {
      if k < r.nIdCount {
        assert Routable(e, r.info[k]);
      }
    }
  }

  lemma {:induction false} ConsistentBounded(e: Env, s: State)
    requires Coherent(e, s, {}, {})
    ensures Bounded(s)
  {
  }

  /** Nothing is added, and no tried slot given up. */
  lemma {:induction false} FewerDescends(e: Env, s: State, r: State)
    requires Bounded(s) && Evolves(s, r) && r.nIdCount == s.nIdCount
    requires forall k :: k in r.info ==> k in s.info
    ensures Descends(e, s, r)
  {
  }

  lemma {:induction false} StampDescends(e: Env, s: State, id: int, i: Info, r: State)
    requires Bounded(s) && id in s.info && i.service == s.info[id].service
    requires r.info == s.info[id := i] && r.nIdCount == s.nIdCount && r.tried == s.tried
    ensures Descends(e, s, r)
  {
    FewerDescends(e, s, r);
  }

  // ---------------------------------------------------------------- Add

  lemma {:induction false} OfferDescends(e: Env, s: State, id: int, source: NetAddr, now: int)
    requires Bounded(s) && id in s.info
    ensures Descends(e, s, Offer(e, s, id, source, now).0)
  {
    OfferFewer(e, s, id, source, now);
    FewerDescends(e, s, Offer(e, s, id, source, now).0);
  }

  lemma {:induction false} AddAgainDescends(
    e: Env, s: State, id: int, a: Address, source: NetAddr, penalty: int, now: int, lucky: bool)
    requires Bounded(s) && id in s.info
    ensures Descends(e, s, AddAgain(e, s, id, a, source, penalty, now, lucky).0)
  {
    var i := Refreshed(s.info[id], a, penalty, now);
    var r := s.(info := s.info[id := i]);
    StampDescends(e, s, id, i, r);
    OfferDescends(e, r, id, source, now);
    DescendsOn(e, s, r, Offer(e, r, id, source, now).0);
  }

  lemma {:induction false} CreateDescends(e: Env, s: State, a: Address, source: NetAddr)
    requires Bounded(s) && e.routable(a.service)
    ensures Descends(e, s, Create(e, s, a, source)) && Bounded(Create(e, s, a, source))
  {
    assert Routable(e, Create(e, s, a, source).info[s.nIdCount]);
  }

  lemma {:induction false} AddFirstDescends(e: Env, s: State, a: Address, source: NetAddr, penalty: int, now: int)
    requires Bounded(s) && e.routable(a.service)
    ensures Descends(e, s, AddFirst(e, s, a, source, penalty, now).0)
  {
    var c := Create(e, s, Penalised(a, penalty), source);
    CreateDescends(e, s, Penalised(a, penalty), source);
    OfferDescends(e, c, s.nIdCount, source, now);
    DescendsOn(e, s, c, Offer(e, c, s.nIdCount, source, now).0);
  }

  lemma {:induction false} AddSingleDescends(
    e: Env, s: State, a: Address, source: NetAddr, penalty: int, now: int, lucky: bool)
    requires Bounded(s)
    ensures Descends(e, s, AddSingle(e, s, a, source, penalty, now, lucky).0)
  {
    if e.routable(a.service) {
      var penalty := if a.service.host == source then 0 else penalty;
      if a.service in s.index && s.index[a.service] in s.info {
        AddAgainDescends(e, s, s.index[a.service], a, source, penalty, now, lucky);
      } else {
        AddFirstDescends(e, s, a, source, penalty, now);
      }
    } else {
      FewerDescends(e, s, s);
    }
  }

  lemma {:induction false} AddDescends(e: Env, s: State, c: seq<Candidate>, source: NetAddr, penalty: int)
    requires Consistent(e, s)
    ensures Descends(e, s, Add(e, s, c, source, penalty).0)
  {
    ConsistentBounded(e, s);
    if c == [] {
      FewerDescends(e, s, s);
    } else {
      var r, last := Add(e, s, c[..|c| - 1], source, penalty).0, c[|c| - 1];
      AddDescends(e, s, c[..|c| - 1], source, penalty);
      AddKeeps(e, s, c[..|c| - 1], source, penalty);
      ConsistentBounded(e, r);
      AddSingleDescends(e, r, last.address, source, penalty, last.now, last.lucky);
      DescendsOn(e, s, r, AddSingle(e, r, last.address, source, penalty, last.now, last.lucky).0);
    }
  }

  // ---------------------------------------------------------------- Good and the statistics

  lemma {:induction false} MakeTriedDescends(e: Env, s: State, id: int)
    requires Sound(e, s) && id in s.info && !s.info[id].inTried
    ensures Descends(e, s, MakeTried(e, s, id))
  {
    MakeTriedConsistent(e, s, id);
    MakeTriedFewer(e, s, id);
    ConsistentBounded(e, s);
    FewerDescends(e, s, MakeTried(e, s, id));
  }

  lemma {:induction false} GoodEntryDescends(e: Env, s: State, id: int, testBeforeEvict: bool, time: int)
    requires Sound(e, s) && id in s.info
    ensures Descends(e, s, GoodEntry(e, s, id, testBeforeEvict, time).0)
  {
    var i, p := s.info[id], Praised(s, id, time);
    ConsistentBounded(e, s);
    StampDescends(e, s, id, p.info[id], p);
    if i.inTried || i.refCount <= 0 {
    } else if testBeforeEvict && TriedSlot(e, i.service) in s.tried {
      StampDescends(e, s, id, p.info[id], Collide(p, id));
    } else {
      PraisedKeeps(e, s, id, time);
      PraisedCollisions(e, s, id, time);
      MakeTriedDescends(e, p, id);
      DescendsOn(e, s, p, MakeTried(e, p, id));
    }
  }

  lemma {:induction false} ResolveOneDescends(e: Env, s: State, id: int, now: int)
    requires Sound(e, s)
    ensures Descends(e, s, ResolveOne(e, s, id, now))
  {
    var r := Erased(s, id);
    ConsistentBounded(e, s);
    FewerDescends(e, s, s);
    FewerDescends(e, s, r);
    if id in s.info {
      ErasedDescends(e, s, r, id, now);
    }
    ResolvedTo(e, s, r, id, now);
  }

  lemma {:induction false} ResolvedTo(e: Env, s: State, r: State, id: int, now: int)
    requires r == Erased(s, id)
    ensures var t := ResolveOne(e, s, id, now);
      t == s || t == r || (id in r.info && t == GoodEntry(e, r, id, false, now).0)
  {
  }

  lemma {:induction false} ErasedDescends(e: Env, s: State, r: State, id: int, now: int)
    requires Sound(e, s) && id in s.info && r == Erased(s, id) && Descends(e, s, r)
    ensures Descends(e, s, GoodEntry(e, r, id, false, now).0)
  {
    ErasedSound(e, s, id);
    GoodEntryDescends(e, r, id, false, now);
    DescendsOn(e, s, r, GoodEntry(e, r, id, false, now).0);
  }

  lemma {:induction false} ResolveDescends(e: Env, s: State, ids: seq<int>, clock: int -> int)
    requires Sound(e, s)
    ensures Sound(e, Resolve(e, s, ids, clock)) && Descends(e, s, Resolve(e, s, ids, clock))
  {
    ConsistentBounded(e, s);
    if ids == [] {
      FewerDescends(e, s, s);
    } else {
      var front, last := ids[..|ids| - 1], ids[|ids| - 1];
      var r := Resolve(e, s, front, clock);
      ResolveDescends(e, s, front, clock);
      ResolveOneSound(e, r, last, clock(last));
      ResolveOneDescends(e, r, last, clock(last));
      DescendsOn(e, s, r, ResolveOne(e, r, last, clock(last)));
    }
  }

  lemma {:induction false} ShuffleDescends(e: Env, s: State, n: nat, draw: nat -> nat)
    requires Bounded(s)
    ensures Descends(e, s, Shuffle(s, n, draw)) && Bounded(Shuffle(s, n, draw))
  {
    if n == 0 {
      FewerDescends(e, s, s);
    } else {
      var r := Shuffle(s, n - 1, draw);
      ShuffleDescends(e, s, n - 1, draw);
      FewerDescends(e, r, ShuffleOne(r, n - 1, draw));
      DescendsOn(e, s, r, ShuffleOne(r, n - 1, draw));
    }
  }

  lemma {:induction false} StatisticsDescend(e: Env, s: State, r: State)
    requires Bounded(s) && r.nIdCount == s.nIdCount && r.tried == s.tried && r.info.Keys == s.info.Keys
    requires forall k :: k in s.info ==> r.info[k].service == s.info[k].service
    ensures Descends(e, s, r)
  {
    assert forall k :: k in r.info ==> k in r.info.Keys;
    FewerDescends(e, s, r);
  }

  // ---------------------------------------------------------------- every run

  lemma {:induction false} GoodDescends(e: Env, s: State, a: Service, time: int)
    requires Sound(e, s)
    ensures Descends(e, s, Good(e, s, a, true, time).0)
  {
    if a in s.index && s.index[a] in s.info {
      GoodEntryDescends(e, s, s.index[a], true, time);
    } else {
      ConsistentBounded(e, s);
      StatisticsDescend(e, s, s.(lastGood := time));
    }
  }

  /** Attempt, Connected, SetServices and SelectTriedCollision neither add nor remove entries. */
  lemma {:induction false} QuietDescends(e: Env, s: State, op: Op)
    requires Bounded(s) && (op.AttemptOp? || op.ConnectedOp? || op.SetServicesOp? || op.SelectOp?)
    ensures Descends(e, s, Call(e, s, op))
  {
    StatisticsDescend(e, s, Call(e, s, op));
  }

  lemma {:induction false} CallDescends(e: Env, s: State, op: Op)
    requires Consistent(e, s) && CanCall(s, op)
    ensures Descends(e, s, Call(e, s, op))
  {
    ConsistentBounded(e, s);
    match op
    case AddOp(candidates, source, penalty) => AddDescends(e, s, candidates, source, penalty);
    case GoodOp(a, time) => GoodDescends(e, s, a, time);
    case GetAddrOp(visited, draw) => ShuffleDescends(e, s, visited, draw);
    case ResolveOp(ids, clock) => ResolveDescends(e, s, ids, clock);
    case _ => QuietDescends(e, s, op);
  }

  /** Over every run, no id is used again, tried slots stay occupied, and what is new is routable. */
  lemma {:induction false} RunDescends(e: Env, s: State, ops: seq<Op>, r: State)
    requires Consistent(e, s) && Runs(e, s, ops, r)
    ensures Descends(e, s, r)
    decreases ops
  {
    if ops == [] {
      ConsistentBounded(e, s);
      FewerDescends(e, s, s);
    } else {
      var next := Call(e, s, ops[0]);
      CallKeeps(e, s, ops[0]);
      CallDescends(e, s, ops[0]);
      RunDescends(e, next, ops[1..], r);
      DescendsOn(e, s, next, r);
    }
  }
}
