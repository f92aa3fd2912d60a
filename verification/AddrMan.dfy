/**
 The address manager: a map of entries by id, an index by address, a shuffled vector of all
 ids, two bucketed tables, counters per network and a set of tried-table collisions, which
 must all agree. Here are the state and what each operation does to it, as functions;
 AddrManInvariant.dfy proves that they keep it consistent.
 */
module AddrMan {

  const TRIED_BUCKET_COUNT := 256
  const NEW_BUCKET_COUNT := 1024
  const BUCKET_SIZE := 64
  const NEW_BUCKETS_PER_ADDRESS := 8
  const SET_TRIED_COLLISION_SIZE := 10

  // times in seconds
  const MINUTE := 60
  const HOUR := 3600
  const DAY := 86400
  const HORIZON := 30 * DAY
  const RETRIES := 3
  const MAX_FAILURES := 10
  const MIN_FAIL := 7 * DAY
  const REPLACEMENT := 4 * HOUR
  const TEST_WINDOW := 40 * MINUTE

  type TriedBucket = b: nat | b < TRIED_BUCKET_COUNT
  type NewBucket = b: nat | b < NEW_BUCKET_COUNT
  type Position = p: nat | p < BUCKET_SIZE

  /** An address with its port, and the address alone. */
  datatype Service = Service(host: NetAddr, port: nat)
  datatype NetAddr = NetAddr(bytes: nat)
  type Network = nat

  /** An address as gossiped. */
  datatype Address = Address(service: Service, time: int, services: set<nat>)

  datatype Info = Info(
    service: Service, source: NetAddr, time: int, services: set<nat>,
    lastTry: int, lastCountAttempt: int, lastSuccess: int, attempts: int,
    refCount: int, inTried: bool, randomPos: int)

  /**
   The keyed hashes that place an address, and what the network layer says about it. All are
   arbitrary functions; the hashes are reduced to the sizes of the tables.
   */
  datatype Env = Env(
    triedBucket: Service -> TriedBucket, triedPos: (TriedBucket, Service) -> Position,
    newBucket: (Service, NetAddr) -> NewBucket, newPos: (NewBucket, Service) -> Position,
    network: Service -> Network, netClass: Service -> Network, routable: Service -> bool, valid: Service -> bool)

  datatype Slot = Slot(bucket: nat, pos: nat)
  type Table = map<Slot, int>

  datatype Count = Count(news: nat, tries: nat)

  /** Free slots of a table are the ones absent from its map. */
  datatype State = State(
    nIdCount: int, info: map<int, Info>, index: map<Service, int>, random: seq<int>,
    tried: Table, news: Table, nTried: int, nNew: int,
    counts: map<Network, Count>, collisions: set<int>, lastGood: int)

  function Fresh(): State {
    State(0, map[], map[], [], map[], map[], 0, 0, map[], {}, 1)
  }

  function TriedSlot(e: Env, a: Service): Slot {
    var b := e.triedBucket(a);
    Slot(b, e.triedPos(b, a))
  }

  function NewSlot(e: Env, a: Service, source: NetAddr): Slot {
    var b := e.newBucket(a, source);
    Slot(b, e.newPos(b, a))
  }

  function CountOf(counts: map<Network, Count>, net: Network): Count {
    if net in counts then counts[net] else Count(0, 0)
  }

  /** Adds to a network's counters; they never go below zero in a consistent manager. */
  function Bump(counts: map<Network, Count>, net: Network, news: int, tries: int): map<Network, Count> {
    var c := CountOf(counts, net);
    var n, t := c.news + news, c.tries + tries;
    counts[net := Count(if n < 0 then 0 else n, if t < 0 then 0 else t)]
  }

  // ---------------------------------------------------------------- small steps

  /** Create. */
  function Create(e: Env, s: State, a: Address, source: NetAddr): State {
    var id := s.nIdCount;
    var info := Info(a.service, source, a.time, a.services, 0, 0, 0, 0, 0, false, |s.random|);
    s.(nIdCount := id + 1, info := s.info[id := info], index := s.index[a.service := id],
       random := s.random + [id], nNew := s.nNew + 1, counts := Bump(s.counts, e.network(a.service), 1, 0))
  }

  /** SwapRandom; what it asserts of its arguments holds whenever it is called. */
  function SwapRandom(s: State, i: int, j: int): State {
    if i == j || !(0 <= i < |s.random| && 0 <= j < |s.random| && s.random[i] in s.info && s.random[j] in s.info) then s
    else
      var a, b := s.random[i], s.random[j];
      s.(info := s.info[a := s.info[a].(randomPos := j)][b := s.info[b].(randomPos := i)],
         random := s.random[i := b][j := a])
  }

  /** The part of Delete that forgets an entry. */
  function Forget(e: Env, s: State, id: int): State
    requires id in s.info
  {
    var a := s.info[id].service;
    s.(counts := Bump(s.counts, e.network(a), -1, 0), index := s.index - {a}, info := s.info - {id}, nNew := s.nNew - 1)
  }

  /** An entry takes another place in the random vector. */
  function Moved(info: map<int, Info>, id: int, pos: int): map<int, Info> {
    if id in info then info[id := info[id].(randomPos := pos)] else info
  }

  /** Delete: the last id of the random vector takes the place of the deleted one. */
  function Delete(e: Env, s: State, id: int): State
    requires id in s.info
  {
    var n, p := |s.random|, s.info[id].randomPos;
    if 0 <= p < n then
      var last := s.random[n - 1];
      var a := s.info[id].service;
      State(s.nIdCount, Moved(s.info, last, p) - {id}, s.index - {a}, s.random[p := last][..n - 1], s.tried, s.news,
            s.nTried, s.nNew - 1, Bump(s.counts, e.network(a), -1, 0), s.collisions, s.lastGood)
    else s
  }

  /** A new-table slot is emptied and its entry's reference count goes down. */
  function Release(s: State, slot: Slot): State
    requires slot in s.news && s.news[slot] in s.info
  {
    var id := s.news[slot];
    s.(news := s.news - {slot}, info := s.info[id := s.info[id].(refCount := s.info[id].refCount - 1)])
  }

  /** A free new-table slot is filled and its entry's reference count goes up. */
  function Occupy(s: State, slot: Slot, id: int): State
    requires id in s.info
  {
    s.(news := s.news[slot := id], info := s.info[id := s.info[id].(refCount := s.info[id].refCount + 1)])
  }

  /** An entry without references stops being counted as new, or is counted again. */
  function Uncount(e: Env, s: State, id: int): State
    requires id in s.info
  {
    s.(nNew := s.nNew - 1, counts := Bump(s.counts, e.network(s.info[id].service), -1, 0))
  }

  function Recount(e: Env, s: State, id: int): State
    requires id in s.info
  {
    s.(nNew := s.nNew + 1, counts := Bump(s.counts, e.network(s.info[id].service), 1, 0))
  }

  /** A tried entry leaves the tried table. */
  function Untry(e: Env, s: State, slot: Slot): State
    requires slot in s.tried && s.tried[slot] in s.info
  {
    var id := s.tried[slot];
    s.(info := s.info[id := s.info[id].(inTried := false)], tried := s.tried - {slot}, nTried := s.nTried - 1,
       counts := Bump(s.counts, e.network(s.info[id].service), 0, -1))
  }

  /** An uncounted entry enters the tried table. */
  function Try(e: Env, s: State, id: int): State
    requires id in s.info
  {
    var a := s.info[id].service;
    s.(tried := s.tried[TriedSlot(e, a) := id], nTried := s.nTried + 1,
       info := s.info[id := s.info[id].(inTried := true)], counts := Bump(s.counts, e.network(a), 0, 1))
  }

  // ---------------------------------------------------------------- the operations

  /** ClearNew: a slot is emptied, and an entry that loses its last reference is deleted. */
  function ClearNew(e: Env, s: State, slot: Slot): State {
    if slot in s.news && s.news[slot] in s.info then
      var id, r := s.news[slot], Release(s, slot);
      if r.info[id].refCount == 0 then Delete(e, r, id) else r
    else s
  }

  /** The loop of MakeTried that takes an entry out of every new bucket. */
  function Withdraw(s: State, id: int): State
    requires id in s.info
  {
    s.(news := map slot | slot in s.news && s.news[slot] != id :: s.news[slot],
       info := s.info[id := s.info[id].(refCount := 0)])
  }

  /** The part of MakeTried that moves a tried entry back to the new table. */
  function Evict(e: Env, s: State, slot: Slot): State
    requires slot in s.tried && s.tried[slot] in s.info
  {
    var id := s.tried[slot];
    var home := NewSlot(e, s.info[id].service, s.info[id].source);
    var r := ClearNew(e, Untry(e, s, slot), home);
    if id in r.info then Occupy(Recount(e, r, id), home, id) else r
  }

  /** MakeTried up to the point where the entry is in no table. */
  function Loosened(e: Env, s: State, id: int): State
    requires id in s.info
  {
    Uncount(e, Withdraw(s, id), id)
  }

  /** The part of MakeTried that frees a tried slot. */
  function MakeRoom(e: Env, s: State, slot: Slot): State {
    if slot in s.tried && s.tried[slot] in s.info then Evict(e, s, slot) else s
  }

  function MakeTried(e: Env, s: State, id: int): State
    requires id in s.info
  {
    var r := MakeRoom(e, Loosened(e, s, id), TriedSlot(e, s.info[id].service));
    if id in r.info then Try(e, r, id) else r
  }

  predicate IsTerrible(i: Info, now: int) {
    && now - i.lastTry > MINUTE
    && (|| i.time > now + 10 * MINUTE
        || now - i.time > HORIZON
        || (i.lastSuccess == 0 && i.attempts >= RETRIES)
        || (now - i.lastSuccess > MIN_FAIL && i.attempts >= MAX_FAILURES))
  }

  function Later(a: int, b: int): int {
    if a < b then b else a
  }

  /** What AddSingle writes to an entry it already has. */
  function Refreshed(i: Info, a: Address, penalty: int, now: int): Info {
    var interval := if now - a.time < DAY then HOUR else DAY;
    var time := if i.time < a.time - interval - penalty then Later(0, a.time - penalty) else i.time;
    i.(time := time, services := i.services + a.services)
  }

  /** The second half of AddSingle: an entry is offered the slot that its source gives it. */
  function Offer(e: Env, s: State, id: int, source: NetAddr, now: int): (State, bool)
    requires id in s.info
  {
    var slot := NewSlot(e, s.info[id].service, source);
    if slot !in s.news then (Occupy(s, slot, id), true)
    else if s.news[slot] == id || s.news[slot] !in s.info then (s, false)
    else
      var there := s.info[s.news[slot]];
      if IsTerrible(there, now) || (there.refCount > 1 && s.info[id].refCount == 0) then
        var r := ClearNew(e, s, slot);
        (if id in r.info then Occupy(r, slot, id) else r, true)
      else if s.info[id].refCount == 0 then (Delete(e, s, id), false)
      else (s, false)
  }

  /**
   AddSingle for an address it has. `lucky` is the outcome of the random test that an entry
   with n references passes once in 2^n times.
   */
  function AddAgain(
    e: Env, s: State, id: int, a: Address, source: NetAddr, penalty: int, now: int, lucky: bool): (State, bool)
    requires id in s.info
  {
    var i := Refreshed(s.info[id], a, penalty, now);
    var r := s.(info := s.info[id := i]);
    if a.time <= i.time || i.inTried || i.refCount == NEW_BUCKETS_PER_ADDRESS || !lucky then (r, false)
    else Offer(e, r, id, source, now)
  }

  function Penalised(a: Address, penalty: int): Address {
    Address(a.service, Later(0, a.time - penalty), a.services)
  }

  /** AddSingle for an address it does not have; the penalty is taken off the time of the new entry. */
  function AddFirst(e: Env, s: State, a: Address, source: NetAddr, penalty: int, now: int): (State, bool) {
    Offer(e, Create(e, s, Penalised(a, penalty), source), s.nIdCount, source, now)
  }

  function AddSingle(
    e: Env, s: State, a: Address, source: NetAddr, penalty: int, now: int, lucky: bool): (State, bool)
  {
    if !e.routable(a.service) then (s, false)
    else
      var penalty := if a.service.host == source then 0 else penalty;
      if a.service in s.index && s.index[a.service] in s.info
      then AddAgain(e, s, s.index[a.service], a, source, penalty, now, lucky)
      else AddFirst(e, s, a, source, penalty, now)
  }

  datatype Candidate = Candidate(address: Address, now: int, lucky: bool)

  /** Add_: the number of additions decides the answer. */
  function Add(e: Env, s: State, c: seq<Candidate>, source: NetAddr, penalty: int): (State, nat) {
    if c == [] then (s, 0)
    else
      var (r, n) := Add(e, s, c[..|c| - 1], source, penalty);
      var last := c[|c| - 1];
      var (t, ok) := AddSingle(e, r, last.address, source, penalty, last.now, last.lucky);
      (t, if ok then n + 1 else n)
  }

  /** A successful connection is noted. */
  function Praised(s: State, id: int, time: int): State
    requires id in s.info
  {
    s.(lastGood := time, info := s.info[id := s.info[id].(lastSuccess := time, lastTry := time, attempts := 0)])
  }

  /** A collision is remembered if there is room. */
  function Collide(s: State, id: int): State {
    if |s.collisions| < SET_TRIED_COLLISION_SIZE then s.(collisions := s.collisions + {id}) else s
  }

  /** Good_ for a known address. */
  function GoodEntry(e: Env, s: State, id: int, testBeforeEvict: bool, time: int): (State, bool)
    requires id in s.info
  {
    var i, p := s.info[id], Praised(s, id, time);
    if i.inTried || i.refCount <= 0 then (p, false)
    else if testBeforeEvict && TriedSlot(e, i.service) in s.tried then (Collide(p, id), false)
    else (MakeTried(e, p, id), true)
  }

  function Good(e: Env, s: State, a: Service, testBeforeEvict: bool, time: int): (State, bool) {
    if a in s.index && s.index[a] in s.info then GoodEntry(e, s, s.index[a], testBeforeEvict, time)
    else (s.(lastGood := time), false)
  }

  /** Attempt_. */
  function Attempt(s: State, a: Service, countFailure: bool, time: int): State {
    if a !in s.index || s.index[a] !in s.info then s
    else
      var id := s.index[a];
      var i := s.info[id].(lastTry := time);
      var i := if countFailure && i.lastCountAttempt < s.lastGood
               then i.(lastCountAttempt := time, attempts := i.attempts + 1) else i;
      s.(info := s.info[id := i])
  }

  /** Connected_. */
  function Connected(s: State, a: Service, time: int): State {
    if a !in s.index || s.index[a] !in s.info then s
    else
      var id := s.index[a];
      if time - s.info[id].time > 20 * MINUTE then s.(info := s.info[id := s.info[id].(time := time)]) else s
  }

  /** SetServices_. */
  function SetServices(s: State, a: Service, services: set<nat>): State {
    if a !in s.index || s.index[a] !in s.info then s
    else
      var id := s.index[a];
      s.(info := s.info[id := s.info[id].(services := services)])
  }

  /** The exchanges of GetAddr_ at the first `n` places; `draw` stands for the random numbers. */
  function Shuffle(s: State, n: nat, draw: nat -> nat): State {
    if n == 0 then s
    else
      ShuffleOne(Shuffle(s, n - 1, draw), n - 1, draw)
  }

  function ShuffleOne(r: State, k: nat, draw: nat -> nat): State {
    SwapRandom(r, k, Drawn(|r.random|, k, draw))
  }

  /** A place between k and the end. */
  function Drawn(size: nat, k: nat, draw: nat -> nat): nat {
    if k + draw(k) < size then k + draw(k) else k
  }

  datatype Decision = Keep | Erase | Replace

  /** What ResolveCollisions_ does about one collision. */
  function Decide(e: Env, s: State, id: int, now: int): Decision {
    if id !in s.info || !e.valid(s.info[id].service) then Erase
    else
      var slot := TriedSlot(e, s.info[id].service);
      if slot !in s.tried || s.tried[slot] !in s.info then Replace
      else
        var there := s.info[s.tried[slot]];
        if now - there.lastSuccess < REPLACEMENT then Erase
        else if now - there.lastTry < REPLACEMENT then (if now - there.lastTry > MINUTE then Replace else Keep)
        else if now - s.info[id].lastSuccess > TEST_WINDOW then Replace
        else Keep
  }

  function Erased(s: State, id: int): State {
    s.(collisions := s.collisions - {id})
  }

  /** One round of the loop of ResolveCollisions_. */
  function ResolveOne(e: Env, s: State, id: int, now: int): State {
    match Decide(e, s, id, now)
    case Keep => s
    case Erase => Erased(s, id)
    case Replace => if id in s.info then GoodEntry(e, Erased(s, id), id, false, now).0 else Erased(s, id)
  }

  /** ResolveCollisions_ over the given ids, in order; `clock` is the time seen for each. */
  function Resolve(e: Env, s: State, ids: seq<int>, clock: int -> int): State {
    if ids == [] then s
    else ResolveOne(e, Resolve(e, s, ids[..|ids| - 1], clock), ids[|ids| - 1], clock(ids[|ids| - 1]))
  }

  datatype Found = Nothing | Entry(id: int)

  /** SelectTriedCollision_ for the collision it has drawn: the state after, and the tried entry to test. */
  function SelectTriedCollision(e: Env, s: State, id: int): (State, Found) {
    if id !in s.info then (Erased(s, id), Nothing)
    else
      var slot := TriedSlot(e, s.info[id].service);
      (s, if slot in s.tried then Entry(s.tried[slot]) else Nothing)
  }
}
