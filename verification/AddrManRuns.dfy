/**
 Runs of the address manager: every sequence of calls, with any addresses, times after the
 epoch, clock readings and random draws, leaves it consistent.
 */
module AddrManRuns {
  import opened AddrMan
  import opened AddrManInvariant
  import opened AddrManKeeps

  // ---------------------------------------------------------------- statistics

  lemma {:induction false} StampKeeps(e: Env, s: State, id: int, i: Info)
    requires Consistent(e, s) && id in s.info
    requires i.service == s.info[id].service && i.randomPos == s.info[id].randomPos
    requires i.refCount == s.info[id].refCount && i.inTried == s.info[id].inTried && TimeOk(i)
    ensures Consistent(e, s.(info := s.info[id := i]))
  {
    UpdateStats(e, s, id, i, {}, {});
  }

  /** Only one entry is different. */
  predicate OnlyEntry(s: State, r: State, id: int, i: Info) {
    r == s.(info := s.info[id := i])
  }

  /** Attempt_ keeps a manager consistent exactly when the time is not before the epoch. */
  lemma {:induction false} AttemptKeeps(e: Env, s: State, a: Service, countFailure: bool, time: int)
    requires Consistent(e, s)
    ensures Consistent(e, Attempt(s, a, countFailure, time)) <==> a !in s.index || time >= 0
  {
    if a in s.index {
      var id := s.index[a];
      var r := Attempt(s, a, countFailure, time);
      if time >= 0 {
        StampKeeps(e, s, id, r.info[id]);
      } else {
        assert !TimeOk(r.info[id]);
      }
    }
  }

  /**
   Attempt_ notes the time. A failure is counted only if none was counted since the last
   successful connection to any address.
   */
  lemma {:induction false} AttemptNotes(e: Env, s: State, a: Service, countFailure: bool, time: int)
    requires Consistent(e, s)
    ensures a !in s.index ==> Attempt(s, a, countFailure, time) == s
    ensures a in s.index ==>
      var i := s.info[s.index[a]]; var counted := countFailure && i.lastCountAttempt < s.lastGood;
      && OnlyEntry(s, Attempt(s, a, countFailure, time), s.index[a], Attempt(s, a, countFailure, time).info[s.index[a]])
      && var j := Attempt(s, a, countFailure, time).info[s.index[a]];
         && j.lastTry == time && j.attempts == i.attempts + (if counted then 1 else 0)
         && j.lastCountAttempt == (if counted then time else i.lastCountAttempt)
         && j.(lastTry := i.lastTry, attempts := i.attempts, lastCountAttempt := i.lastCountAttempt) == i
  {
  }

  /** So any number of failures in a row, with no success in between, counts once. */
  lemma {:induction false} FailuresCountOnce(e: Env, s: State, a: Service, first: int, again: int)
    requires Consistent(e, s) && a in s.index && first >= s.lastGood && first >= 0
    ensures var once := Attempt(s, a, true, first); var twice := Attempt(once, a, true, again);
      && twice.info[s.index[a]].attempts == once.info[s.index[a]].attempts
      && twice.info[s.index[a]].lastTry == again
  {
    AttemptKeeps(e, s, a, true, first);
    AttemptNotes(e, s, a, true, first);
  }

  /** Connected_ brings the time of a known address up to date once it is more than twenty minutes old. */
  lemma {:induction false} ConnectedKeeps(e: Env, s: State, a: Service, time: int)
    requires Consistent(e, s)
    ensures Consistent(e, Connected(s, a, time))
    ensures a !in s.index ==> Connected(s, a, time) == s
    ensures a in s.index ==>
      var i := s.info[s.index[a]]; var stale := i.time + 1200 < time;
      OnlyEntry(s, Connected(s, a, time), s.index[a], i.(time := if stale then time else i.time))
  {
    if a in s.index {
      var id := s.index[a];
      assert TimeOk(s.info[id]);
      StampKeeps(e, s, id, s.info[id].(time := time));
    }
  }

  /** SetServices_ replaces the services of a known address. */
  lemma {:induction false} SetServicesKeeps(e: Env, s: State, a: Service, services: set<nat>)
    requires Consistent(e, s)
    ensures Consistent(e, SetServices(s, a, services))
    ensures a !in s.index ==> SetServices(s, a, services) == s
    ensures a in s.index ==>
      OnlyEntry(s, SetServices(s, a, services), s.index[a], s.info[s.index[a]].(services := services))
  {
    if a in s.index {
      var id := s.index[a];
      assert TimeOk(s.info[id]);
      StampKeeps(e, s, id, s.info[id].(services := services));
    }
  }

  // ---------------------------------------------------------------- GetAddr

  lemma {:induction false} SwapConsistent(e: Env, s: State, i: int, j: int)
    requires Consistent(e, s) && 0 <= i < |s.random| && 0 <= j < |s.random|
    ensures Consistent(e, SwapRandom(s, i, j)) && |SwapRandom(s, i, j).random| == |s.random|
  {
    SwapKeeps(e, s, i, j, {}, {});
    SwapRest(e, s, i, j);
  }

  lemma {:induction false} SwapRest(e: Env, s: State, i: int, j: int)
    requires TimesOk(s.info) && CollisionsOk(e, s)
    ensures TimesOk(SwapRandom(s, i, j).info) && CollisionsOk(e, SwapRandom(s, i, j))
  {
  }

  lemma {:induction false} ShuffleStep(e: Env, r: State, n: nat, draw: nat -> nat, t: State)
    requires Consistent(e, r) && n < |r.random| && t == ShuffleOne(r, n, draw)
    ensures Consistent(e, t) && |t.random| == |r.random|
  {
    SwapConsistent(e, r, n, Drawn(|r.random|, n, draw));
  }

  lemma {:induction false} ShuffleNext(s: State, m: nat, n: nat, draw: nat -> nat, q: State, r: State)
    requires n == m + 1 && q == Shuffle(s, m, draw) && r == Shuffle(s, n, draw)
    ensures r == ShuffleOne(q, m, draw)
  {
  }

  lemma {:induction false} ShuffleKeeps(e: Env, s: State, n: nat, draw: nat -> nat, r: State)
    requires Consistent(e, s) && n <= |s.random| && r == Shuffle(s, n, draw)
    ensures Consistent(e, r) && |r.random| == |s.random|
  {
    if n > 0 {
      var m := n - 1;
      var q := Shuffle(s, m, draw);
      ShuffleKeeps(e, s, m, draw, q);
      ShuffleNext(s, m, n, draw, q, r);
      ShuffleStep(e, q, m, draw, r);
    }
  }

  // ---------------------------------------------------------------- collisions

  lemma {:induction false} ErasedKeeps(e: Env, s: State, id: int)
    requires Consistent(e, s)
    ensures Consistent(e, Erased(s, id))
  {
    EvolvesCollisions(e, s, Erased(s, id));
  }

  /** One round of ResolveCollisions_, at any time after the epoch. */
  lemma {:induction false} ResolveOneKeeps(e: Env, s: State, id: int, now: int)
    requires Consistent(e, s) && now > 0
    ensures Consistent(e, ResolveOne(e, s, id, now))
  {
    ErasedKeeps(e, s, id);
    if id in s.info {
      GoodKeeps(e, Erased(s, id), id, false, now);
    }
  }

  lemma {:induction false} ResolveKeeps(e: Env, s: State, ids: seq<int>, clock: int -> int)
    requires Consistent(e, s) && forall id :: clock(id) > 0
    ensures Consistent(e, Resolve(e, s, ids, clock))
  {
    if ids != [] {
      ResolveKeeps(e, s, ids[..|ids| - 1], clock);
      ResolveOneKeeps(e, Resolve(e, s, ids[..|ids| - 1], clock), ids[|ids| - 1], clock(ids[|ids| - 1]));
    }
  }

  /**
   SelectTriedCollision_ looks up the tried entry a collision is with. That entry is always
   there: the slot stays occupied for as long as the collision is remembered.
   */
  lemma {:induction false} SelectFinds(e: Env, s: State, id: int)
    requires Consistent(e, s) && id in s.collisions
    ensures var (r, found) := SelectTriedCollision(e, s, id);
      && Consistent(e, r)
      && (id !in s.info ==> found == Nothing && r == s.(collisions := s.collisions - {id}))
      && (id in s.info ==>
            && r == s && found.Entry? && found.id in s.info && s.info[found.id].inTried
            && TriedSlot(e, s.info[found.id].service) == TriedSlot(e, s.info[id].service))
  {
    if id !in s.info {
      ErasedKeeps(e, s, id);
    }
  }

  // ---------------------------------------------------------------- every run

  /** Calls of the public interface, each with what the clock and the random source give it. */
  datatype Op =
    | AddOp(candidates: seq<Candidate>, source: NetAddr, penalty: int)
    | GoodOp(a: Service, time: int)
    | AttemptOp(a: Service, countFailure: bool, time: int)
    | ConnectedOp(a: Service, time: int)
    | SetServicesOp(a: Service, services: set<nat>)
    | GetAddrOp(visited: nat, draw: nat -> nat)
    | ResolveOp(ids: seq<int>, clock: int -> int)
    | SelectOp(id: int)

  /** Calls that can be made: times are after the epoch, and draws are made from what there is. */
  ghost predicate CanCall(s: State, op: Op) {
    match op
    case GoodOp(a, time) => time > 0
    case AttemptOp(a, countFailure, time) => time >= 0
    case GetAddrOp(visited, draw) => visited <= |s.random|
    case ResolveOp(ids, clock) => forall id :: clock(id) > 0
    case SelectOp(id) => id in s.collisions
    case _ => true
  }

  function Call(e: Env, s: State, op: Op): State {
    match op
    case AddOp(candidates, source, penalty) => Add(e, s, candidates, source, penalty).0
    case GoodOp(a, time) => Good(e, s, a, true, time).0
    case AttemptOp(a, countFailure, time) => Attempt(s, a, countFailure, time)
    case ConnectedOp(a, time) => Connected(s, a, time)
    case SetServicesOp(a, services) => SetServices(s, a, services)
    case GetAddrOp(visited, draw) => Shuffle(s, visited, draw)
    case ResolveOp(ids, clock) => Resolve(e, s, ids, clock)
    case SelectOp(id) => SelectTriedCollision(e, s, id).0
  }

  lemma {:induction false} GoodConsistent(e: Env, s: State, a: Service, time: int)
    requires Consistent(e, s) && time > 0
    ensures Consistent(e, Good(e, s, a, true, time).0)
  {
    if a in s.index {
      GoodKeeps(e, s, s.index[a], true, time);
    }
  }

  lemma {:induction false} CallKeeps(e: Env, s: State, op: Op)
    requires Consistent(e, s) && CanCall(s, op)
    ensures Consistent(e, Call(e, s, op))
  {
    match op
    case AddOp(candidates, source, penalty) => AddKeeps(e, s, candidates, source, penalty);
    case GoodOp(a, time) => GoodConsistent(e, s, a, time);
    case AttemptOp(a, countFailure, time) => AttemptKeeps(e, s, a, countFailure, time);
    case ConnectedOp(a, time) => ConnectedKeeps(e, s, a, time);
    case SetServicesOp(a, services) => SetServicesKeeps(e, s, a, services);
    case GetAddrOp(visited, draw) => ShuffleKeeps(e, s, visited, draw, Shuffle(s, visited, draw));
    case ResolveOp(ids, clock) => ResolveKeeps(e, s, ids, clock);
    case SelectOp(id) => SelectFinds(e, s, id);
  }

  ghost predicate Runs(e: Env, s: State, ops: seq<Op>, r: State)
    decreases ops
  {
    if ops == [] then r == s
    else CanCall(s, ops[0]) && Runs(e, Call(e, s, ops[0]), ops[1..], r)
  }

  lemma {:induction false} FreshConsistent(e: Env)
    ensures Consistent(e, Fresh())
  {
    assert NewIds(Fresh().info, {}) == {} && TriedIds(Fresh().info) == {};
    forall net ensures CountOf(Fresh().counts, net)
                       == Count(|OnNet(e, Fresh().info, {}, net)|, |OnNet(e, Fresh().info, {}, net)|)
    {
      assert OnNet(e, Fresh().info, {}, net) == {};
    }
  }

  /** A manager that has been told of one address. */
  function Told(e: Env, a: Service): State {
    AddSingle(e, Fresh(), Address(a, 0, {}), a.host, 0, 0, true).0
  }

  lemma {:induction false} ToldKnows(e: Env, a: Service)
    requires e.routable(a)
    ensures Consistent(e, Told(e, a)) && a in Told(e, a).index && Told(e, a).index[a] in Told(e, a).info
    ensures !Told(e, a).info[Told(e, a).index[a]].inTried && Told(e, a).tried == map[]
  {
    FreshConsistent(e);
    AddSingleKeeps(e, Fresh(), Address(a, 0, {}), a.host, 0, 0, true);
  }

  /** A connection reported at time zero spoils a consistent manager: the condition of GoodKeeps is needed. */
  lemma {:induction false} GoodAtEpochFails(e: Env, a: Service)
    requires e.routable(a)
    ensures Consistent(e, Told(e, a)) && !Consistent(e, Good(e, Told(e, a), a, true, 0).0)
  {
    ToldKnows(e, a);
    GoodKeeps(e, Told(e, a), Told(e, a).index[a], true, 0);
  }

  /** So does an attempt reported a second before the epoch. */
  lemma {:induction false} AttemptBeforeEpochFails(e: Env, a: Service)
    requires e.routable(a)
    ensures Consistent(e, Told(e, a)) && !Consistent(e, Attempt(Told(e, a), a, false, -1))
  {
    ToldKnows(e, a);
    AttemptKeeps(e, Told(e, a), a, false, -1);
  }

  /** Every run from a consistent manager, such as a new one, ends in a consistent manager. */
  lemma {:induction false} RunKeeps(e: Env, s: State, ops: seq<Op>, r: State)
    requires Consistent(e, s) && Runs(e, s, ops, r)
    ensures Consistent(e, r)
    decreases ops
  {
    if ops != [] {
      CallKeeps(e, s, ops[0]);
      RunKeeps(e, Call(e, s, ops[0]), ops[1..], r);
    }
  }
}
