/**
 What it means for an address manager to be consistent, and that each small step keeps it.

 `MakeTried` and `AddSingle` pass through states in which an entry is in no table. The
 invariant is therefore stated relative to two sets: `out` holds the entries that are counted
 as neither new nor tried, `idle` those that are counted as new without being referenced.
 */
module AddrManInvariant {
  import opened AddrMan

  // ---------------------------------------------------------------- the invariant

  ghost predicate IndexOk(info: map<int, Info>, index: map<Service, int>, nIdCount: int) {
    && 0 <= nIdCount
    && (forall id :: id in info ==>
          0 <= id < nIdCount && info[id].service in index && index[info[id].service] == id)
    && (forall a :: a in index ==> index[a] in info && info[index[a]].service == a)
  }

  /** vRandom and nRandomPos are inverse to each other. */
  ghost predicate RandomOk(info: map<int, Info>, random: seq<int>) {
    var size := |random|;
    && size == |info|
    && (forall id :: id in info ==> 0 <= info[id].randomPos < |random| && random[info[id].randomPos] == id)
    && (forall i :: 0 <= i < |random| ==> random[i] in info && info[random[i]].randomPos == i)
  }

  ghost predicate TriedOk(e: Env, info: map<int, Info>, tried: Table) {
    && (forall slot :: slot in tried ==>
          tried[slot] in info && info[tried[slot]].inTried && TriedSlot(e, info[tried[slot]].service) == slot)
    && (forall id :: id in info && info[id].inTried ==>
          && TriedSlot(e, info[id].service) in tried && tried[TriedSlot(e, info[id].service)] == id
          && info[id].refCount == 0)
  }

  /** The new-table slots an entry occupies. */
  ghost function SlotsOf(news: Table, id: int): set<Slot> {
    set slot | slot in news && news[slot] == id
  }

  ghost predicate NewSlotOk(e: Env, info: map<int, Info>, slot: Slot, id: int) {
    && slot.bucket < NEW_BUCKET_COUNT
    && id in info && !info[id].inTried && slot.pos == e.newPos(slot.bucket, info[id].service)
  }

  ghost predicate RefsOk(i: Info, id: int, slots: set<Slot>, out: set<int>, idle: set<int>) {
    !i.inTried ==>
      && i.refCount == |slots| <= NEW_BUCKETS_PER_ADDRESS
      && (id in out ==> i.refCount == 0)
      && (i.refCount == 0 ==> id in out || id in idle)
  }

  ghost predicate NewSlotsOk(e: Env, info: map<int, Info>, news: Table) {
    forall slot :: slot in news ==> NewSlotOk(e, info, slot, news[slot])
  }

  ghost predicate CountedRefs(info: map<int, Info>, news: Table, out: set<int>, idle: set<int>) {
    forall id :: id in info ==> RefsOk(info[id], id, SlotsOf(news, id), out, idle)
  }

  ghost function NewIds(info: map<int, Info>, out: set<int>): set<int> {
    set id | id in info && !info[id].inTried && id !in out
  }

  ghost function TriedIds(info: map<int, Info>): set<int> {
    set id | id in info && info[id].inTried
  }

  ghost function OnNet(e: Env, info: map<int, Info>, ids: set<int>, net: Network): set<int> {
    set id | id in ids && id in info && e.network(info[id].service) == net
  }

  ghost predicate TotalsOk(info: map<int, Info>, nNew: int, nTried: int, out: set<int>) {
    nNew == |NewIds(info, out)| && nTried == |TriedIds(info)|
  }

  ghost predicate NetsOk(
    e: Env, info: map<int, Info>, counts: map<Network, Count>, newIds: set<int>, triedIds: set<int>)
  {
    forall net :: CountOf(counts, net) == Count(|OnNet(e, info, newIds, net)|, |OnNet(e, info, triedIds, net)|)
  }

  /** No entry has a time before the epoch, and tried entries have succeeded some time after it. */
  ghost predicate TimesOk(info: map<int, Info>) {
    forall id :: id in info ==> TimeOk(info[id])
  }

  predicate TimeOk(i: Info) {
    i.lastTry >= 0 && i.lastSuccess >= 0 && (i.inTried ==> i.lastSuccess > 0)
  }

  ghost predicate OutOk(info: map<int, Info>, out: set<int>) {
    forall id :: id in out ==> id in info && !info[id].inTried
  }

  /** The index, the tables and the counters, with some entries between the tables. */
  ghost predicate Tabled(e: Env, s: State, out: set<int>, idle: set<int>) {
    var outOk := OutOk(s.info, out);
    && outOk && IndexOk(s.info, s.index, s.nIdCount) && TriedOk(e, s.info, s.tried)
    && NewSlotsOk(e, s.info, s.news) && CountedRefs(s.info, s.news, out, idle)
    && TotalsOk(s.info, s.nNew, s.nTried, out) 
    && NetsOk(e, s.info, s.counts, NewIds(s.info, out), TriedIds(s.info))
  }

  /** Everything but the times and the collision set. */
  ghost predicate Coherent(e: Env, s: State, out: set<int>, idle: set<int>) {
    var tabled := Tabled(e, s, out, idle);
    tabled && RandomOk(s.info, s.random)
  }

  /** Colliding entries that are still around aim at occupied tried slots. */
  ghost predicate CollisionsOk(e: Env, s: State) {
    var size := |s.collisions|;
    && size <= SET_TRIED_COLLISION_SIZE
    && (forall id :: id in s.collisions ==> 0 <= id < s.nIdCount)
    && (forall id :: id in s.collisions && id in s.info ==> TriedSlot(e, s.info[id].service) in s.tried)
  }

  /** A manager between calls. */
  ghost predicate Consistent(e: Env, s: State) {
    var coherent := Coherent(e, s, {}, {});
    coherent && TimesOk(s.info) && CollisionsOk(e, s)
  }

  // ---------------------------------------------------------------- changing one entry

  lemma {:induction false} IndexFrame(info: map<int, Info>, index: map<Service, int>, n: int, id: int, i: Info)
    requires IndexOk(info, index, n) && id in info && i.service == info[id].service
    ensures IndexOk(info[id := i], index, n)
  {
  }

  lemma {:induction false} RandomFrame(info: map<int, Info>, random: seq<int>, id: int, i: Info)
    requires RandomOk(info, random) && id in info && i.randomPos == info[id].randomPos
    ensures RandomOk(info[id := i], random)
  {
    assert info[id := i].Keys == info.Keys;
  }

  lemma {:induction false} TriedFrame(e: Env, info: map<int, Info>, tried: Table, id: int, i: Info)
    requires TriedOk(e, info, tried) && id in info && i.service == info[id].service && i.inTried == info[id].inTried
    requires i.inTried ==> i.refCount == 0
    ensures TriedOk(e, info[id := i], tried)
  {
  }

  lemma {:induction false} NewSlotsFrame(e: Env, info: map<int, Info>, news: Table, id: int, i: Info)
    requires NewSlotsOk(e, info, news) && id in info
    requires i.service == info[id].service && (!info[id].inTried ==> !i.inTried)
    ensures NewSlotsOk(e, info[id := i], news)
  {
    forall slot | slot in news ensures NewSlotOk(e, info[id := i], slot, news[slot]) {
      assert NewSlotOk(e, info, slot, news[slot]);
    }
  }

  lemma {:induction false} RefsFrame(
    info: map<int, Info>, news: Table, id: int, i: Info, out: set<int>, idle: set<int>)
    requires CountedRefs(info, news, out, idle) && id in info
    requires i.inTried == info[id].inTried && i.refCount == info[id].refCount
    ensures CountedRefs(info[id := i], news, out, idle)
  {
    forall k | k in info[id := i] ensures RefsOk(info[id := i][k], k, SlotsOf(news, k), out, idle) {
      assert RefsOk(info[k], k, SlotsOf(news, k), out, idle);
    }
  }

  lemma {:induction false} SameIds(info: map<int, Info>, id: int, i: Info, out: set<int>)
    requires id in info && i.inTried == info[id].inTried
    ensures NewIds(info[id := i], out) == NewIds(info, out) && TriedIds(info[id := i]) == TriedIds(info)
  {
  }

  lemma {:induction false} SameNet(e: Env, info: map<int, Info>, ids: set<int>, net: Network, id: int, i: Info)
    requires id in info && i.service == info[id].service
    ensures OnNet(e, info[id := i], ids, net) == OnNet(e, info, ids, net)
  {
  }

  lemma {:induction false} NetsFrame(
    e: Env, info: map<int, Info>, counts: map<Network, Count>, newIds: set<int>, triedIds: set<int>, id: int, i: Info)
    requires NetsOk(e, info, counts, newIds, triedIds) && id in info && i.service == info[id].service
    ensures NetsOk(e, info[id := i], counts, newIds, triedIds)
  {
    forall net ensures CountOf(counts, net)
                       == Count(|OnNet(e, info[id := i], newIds, net)|, |OnNet(e, info[id := i], triedIds, net)|)
    {
      SameNet(e, info, newIds, net, id, i);
      SameNet(e, info, triedIds, net, id, i);
    }
  }

  /** What any change of one entry's statistics, position or reference count leaves alone. */
  lemma {:induction false} EntryFrame(e: Env, s: State, id: int, i: Info, out: set<int>, idle: set<int>)
    requires Tabled(e, s, out, idle) && id in s.info
    requires i.service == s.info[id].service && i.inTried == s.info[id].inTried
    requires i.inTried ==> i.refCount == 0
    ensures var info := s.info[id := i];
      && OutOk(info, out) && IndexOk(info, s.index, s.nIdCount)
      && TriedOk(e, info, s.tried) && NewSlotsOk(e, info, s.news)
      && TotalsOk(info, s.nNew, s.nTried, out)
      && NetsOk(e, info, s.counts, NewIds(info, out), TriedIds(info))
  {
    IndexFrame(s.info, s.index, s.nIdCount, id, i);
    TriedFrame(e, s.info, s.tried, id, i);
    NewSlotsFrame(e, s.info, s.news, id, i);
    SameIds(s.info, id, i, out);
    NetsFrame(e, s.info, s.counts, NewIds(s.info, out), TriedIds(s.info), id, i);
  }

  /** Statistics may be updated freely. */
  lemma {:induction false} UpdateTabled(e: Env, s: State, id: int, i: Info, out: set<int>, idle: set<int>)
    requires Tabled(e, s, out, idle) && id in s.info
    requires i.service == s.info[id].service
    requires i.refCount == s.info[id].refCount && i.inTried == s.info[id].inTried
    ensures Tabled(e, s.(info := s.info[id := i]), out, idle)
  {
    EntryFrame(e, s, id, i, out, idle);
    RefsFrame(s.info, s.news, id, i, out, idle);
  }

  lemma {:induction false} UpdateStats(e: Env, s: State, id: int, i: Info, out: set<int>, idle: set<int>)
    requires Coherent(e, s, out, idle) && id in s.info
    requires i.service == s.info[id].service && i.randomPos == s.info[id].randomPos
    requires i.refCount == s.info[id].refCount && i.inTried == s.info[id].inTried
    ensures Coherent(e, s.(info := s.info[id := i]), out, idle)
  {
    UpdateTabled(e, s, id, i, out, idle);
    RandomFrame(s.info, s.random, id, i);
  }

  // ---------------------------------------------------------------- the random vector

  lemma {:induction false} MovePos(e: Env, s: State, id: int, pos: int, out: set<int>, idle: set<int>)
    requires Tabled(e, s, out, idle) && id in s.info
    ensures Tabled(e, s.(info := Moved(s.info, id, pos)), out, idle)
  {
    UpdateTabled(e, s, id, s.info[id].(randomPos := pos), out, idle);
  }

  lemma {:induction false} RandomAfterSwap(info: map<int, Info>, random: seq<int>, i: nat, j: nat)
    requires RandomOk(info, random) && i < |random| && j < |random| && i != j
    ensures var a, b := random[i], random[j];
      RandomOk(info[a := info[a].(randomPos := j)][b := info[b].(randomPos := i)], random[i := b][j := a])
  {
    var a, b := random[i], random[j];
    assert info[a := info[a].(randomPos := j)][b := info[b].(randomPos := i)].Keys == info.Keys;
  }

  /** Exchanging two places of the random vector, with both back-references. */
  lemma {:induction false} SwapKeeps(e: Env, s: State, i: nat, j: nat, out: set<int>, idle: set<int>)
    requires Coherent(e, s, out, idle) && i < |s.random| && j < |s.random|
    ensures s.random[i] in s.info && s.random[j] in s.info
    ensures Coherent(e, SwapRandom(s, i, j), out, idle)
  {
    if i != j {
      var a, b := s.random[i], s.random[j];
      RandomAfterSwap(s.info, s.random, i, j);
      MovePos(e, s, a, j, out, idle);
      MovePos(e, s.(info := Moved(s.info, a, j)), b, i, out, idle);
    }
  }

  // ---------------------------------------------------------------- the new table

  lemma {:induction false} SlotsAfterRemove(news: Table, slot: Slot, id: int)
    ensures SlotsOf(news - {slot}, id) == SlotsOf(news, id) - {slot}
  {
  }

  lemma {:induction false} SlotsAfterAdd(news: Table, slot: Slot, owner: int, id: int)
    requires slot !in news
    ensures SlotsOf(news[slot := owner], id) == if id == owner then SlotsOf(news, id) + {slot} else SlotsOf(news, id)
    ensures slot !in SlotsOf(news, id)
  {
  }

  lemma {:induction false} RefsRelease(
    info: map<int, Info>, news: Table, slot: Slot, i: Info, out: set<int>, idle: set<int>)
    requires CountedRefs(info, news, out, idle) && slot in news && news[slot] in info && !info[news[slot]].inTried
    requires i == info[news[slot]].(refCount := info[news[slot]].refCount - 1)
    ensures CountedRefs(info[news[slot] := i], news - {slot}, out, idle + {news[slot]})
    ensures i.refCount >= 0 && news[slot] !in out
  {
    var id := news[slot];
    assert slot in SlotsOf(news, id);
    forall k | k in info[id := i] ensures RefsOk(info[id := i][k], k, SlotsOf(news - {slot}, k), out, idle + {id}) {
      SlotsAfterRemove(news, slot, k);
      assert RefsOk(info[k], k, SlotsOf(news, k), out, idle);
      assert k != id ==> slot !in SlotsOf(news, k);
    }
    assert RefsOk(info[id], id, SlotsOf(news, id), out, idle);
  }

  /** Emptying a slot leaves its entry counted, at worst without references. */
  lemma {:induction false} ReleaseKeeps(e: Env, s: State, slot: Slot, out: set<int>, idle: set<int>)
    requires Coherent(e, s, out, idle) && slot in s.news
    ensures s.news[slot] in s.info && s.news[slot] !in out
    ensures Coherent(e, Release(s, slot), out, idle + {s.news[slot]})
  {
    var id := s.news[slot];
    assert NewSlotOk(e, s.info, slot, id);
    var i := s.info[id].(refCount := s.info[id].refCount - 1);
    EntryFrame(e, s, id, i, out, idle);
    RandomFrame(s.info, s.random, id, i);
    RefsRelease(s.info, s.news, slot, i, out, idle);
    FewerSlots(e, s.info[id := i], s.news, slot);
  }

  lemma {:induction false} FewerSlots(e: Env, info: map<int, Info>, news: Table, slot: Slot)
    requires NewSlotsOk(e, info, news)
    ensures NewSlotsOk(e, info, news - {slot})
  {
    forall t | t in news - {slot} ensures NewSlotOk(e, info, t, (news - {slot})[t]) {
      assert NewSlotOk(e, info, t, news[t]);
    }
  }

  lemma {:induction false} MoreSlots(e: Env, info: map<int, Info>, news: Table, slot: Slot, id: int, after: Table)
    requires NewSlotsOk(e, info, news) && NewSlotOk(e, info, slot, id) && after == news[slot := id]
    ensures NewSlotsOk(e, info, after)
  {
    forall t | t in after ensures NewSlotOk(e, info, t, after[t]) {
      if t != slot { assert NewSlotOk(e, info, t, news[t]); }
    }
  }

  lemma {:induction false} RefsOccupy(
    info: map<int, Info>, news: Table, slot: Slot, id: int, i: Info, out: set<int>, idle: set<int>,
    info': map<int, Info>, news': Table)
    requires CountedRefs(info, news, out, idle) && slot !in news && id in info && id !in out
    requires !info[id].inTried && info[id].refCount < NEW_BUCKETS_PER_ADDRESS
    requires i == info[id].(refCount := info[id].refCount + 1) && info' == info[id := i] && news' == news[slot := id]
    ensures CountedRefs(info', news', out, idle - {id})
  {
    assert RefsOk(info[id], id, SlotsOf(news, id), out, idle);
    forall k | k in info' ensures RefsOk(info'[k], k, SlotsOf(news', k), out, idle - {id}) {
      SlotsAfterAdd(news, slot, id, k);
      assert RefsOk(info[k], k, SlotsOf(news, k), out, idle);
    }
  }

  /** Filling a free slot at the entry's own position. */
  lemma {:induction false} OccupyKeeps(e: Env, s: State, slot: Slot, id: int, out: set<int>, idle: set<int>)
    requires Coherent(e, s, out, idle) && slot !in s.news && id in s.info && id !in out
    requires NewSlotOk(e, s.info, slot, id) && s.info[id].refCount < NEW_BUCKETS_PER_ADDRESS
    ensures Coherent(e, Occupy(s, slot, id), out, idle - {id})
  {
    var i := s.info[id].(refCount := s.info[id].refCount + 1);
    EntryFrame(e, s, id, i, out, idle);
    RandomFrame(s.info, s.random, id, i);
    RefsOccupy(s.info, s.news, slot, id, i, out, idle, s.info[id := i], s.news[slot := id]);
    assert NewSlotOk(e, s.info[id := i], slot, id);
    MoreSlots(e, s.info[id := i], s.news, slot, id, s.news[slot := id]);
  }

  lemma {:induction false} RefsTighten(info: map<int, Info>, news: Table, id: int, out: set<int>, idle: set<int>)
    requires CountedRefs(info, news, out, idle) && (id in info ==> info[id].refCount > 0 || info[id].inTried)
    ensures CountedRefs(info, news, out, idle - {id})
  {
    forall k | k in info ensures RefsOk(info[k], k, SlotsOf(news, k), out, idle - {id}) {
      assert RefsOk(info[k], k, SlotsOf(news, k), out, idle);
    }
  }

  /** An entry with references need not be listed as idle. */
  lemma {:induction false} Tighten(e: Env, s: State, id: int, out: set<int>, idle: set<int>)
    requires Coherent(e, s, out, idle) && (id in s.info ==> s.info[id].refCount > 0 || s.info[id].inTried)
    ensures Coherent(e, s, out, idle - {id})
  {
    RefsTighten(s.info, s.news, id, out, idle);
  }

  // ---------------------------------------------------------------- the counters

  lemma {:induction false} NetLess(e: Env, info: map<int, Info>, ids: set<int>, id: int, net: Network)
    requires id in ids && id in info
    ensures |OnNet(e, info, ids - {id}, net)|
            == |OnNet(e, info, ids, net)| - if e.network(info[id].service) == net then 1 else 0
  {
    assert OnNet(e, info, ids - {id}, net) == OnNet(e, info, ids, net) - {id};
  }

  lemma {:induction false} NetMore(e: Env, info: map<int, Info>, ids: set<int>, id: int, net: Network)
    requires id !in ids && id in info
    ensures |OnNet(e, info, ids + {id}, net)|
            == |OnNet(e, info, ids, net)| + if e.network(info[id].service) == net then 1 else 0
  {
    if e.network(info[id].service) == net {
      assert OnNet(e, info, ids + {id}, net) == OnNet(e, info, ids, net) + {id};
    } else {
      assert OnNet(e, info, ids + {id}, net) == OnNet(e, info, ids, net);
    }
  }

  /** One entry joins or leaves the new or the tried ones. */
  lemma {:induction false} NewLess(
    e: Env, info: map<int, Info>, counts: map<Network, Count>, newIds: set<int>, triedIds: set<int>, id: int)
    requires NetsOk(e, info, counts, newIds, triedIds) && id in newIds && id in info
    ensures NetsOk(e, info, Bump(counts, e.network(info[id].service), -1, 0), newIds - {id}, triedIds)
  {
    forall net ensures CountOf(Bump(counts, e.network(info[id].service), -1, 0), net)
                       == Count(|OnNet(e, info, newIds - {id}, net)|, |OnNet(e, info, triedIds, net)|)
    {
      NetLess(e, info, newIds, id, net);
      assert CountOf(counts, net) == Count(|OnNet(e, info, newIds, net)|, |OnNet(e, info, triedIds, net)|);
    }
  }

  lemma {:induction false} NewMore(
    e: Env, info: map<int, Info>, counts: map<Network, Count>, newIds: set<int>, triedIds: set<int>, id: int)
    requires NetsOk(e, info, counts, newIds, triedIds) && id !in newIds && id in info
    ensures NetsOk(e, info, Bump(counts, e.network(info[id].service), 1, 0), newIds + {id}, triedIds)
  {
    forall net ensures CountOf(Bump(counts, e.network(info[id].service), 1, 0), net)
                       == Count(|OnNet(e, info, newIds + {id}, net)|, |OnNet(e, info, triedIds, net)|)
    {
      NetMore(e, info, newIds, id, net);
      assert CountOf(counts, net) == Count(|OnNet(e, info, newIds, net)|, |OnNet(e, info, triedIds, net)|);
    }
  }

  lemma {:induction false} TriedLess(
    e: Env, info: map<int, Info>, counts: map<Network, Count>, newIds: set<int>, triedIds: set<int>, id: int)
    requires NetsOk(e, info, counts, newIds, triedIds) && id in triedIds && id in info
    ensures NetsOk(e, info, Bump(counts, e.network(info[id].service), 0, -1), newIds, triedIds - {id})
  {
    forall net ensures CountOf(Bump(counts, e.network(info[id].service), 0, -1), net)
                       == Count(|OnNet(e, info, newIds, net)|, |OnNet(e, info, triedIds - {id}, net)|)
    {
      NetLess(e, info, triedIds, id, net);
      assert CountOf(counts, net) == Count(|OnNet(e, info, newIds, net)|, |OnNet(e, info, triedIds, net)|);
    }
  }

  lemma {:induction false} TriedMore(
    e: Env, info: map<int, Info>, counts: map<Network, Count>, newIds: set<int>, triedIds: set<int>, id: int)
    requires NetsOk(e, info, counts, newIds, triedIds) && id !in triedIds && id in info
    ensures NetsOk(e, info, Bump(counts, e.network(info[id].service), 0, 1), newIds, triedIds + {id})
  {
    forall net ensures CountOf(Bump(counts, e.network(info[id].service), 0, 1), net)
                       == Count(|OnNet(e, info, newIds, net)|, |OnNet(e, info, triedIds + {id}, net)|)
    {
      NetMore(e, info, triedIds, id, net);
      assert CountOf(counts, net) == Count(|OnNet(e, info, newIds, net)|, |OnNet(e, info, triedIds, net)|);
    }
  }

  lemma {:induction false} RefsOut(info: map<int, Info>, news: Table, id: int, out: set<int>, idle: set<int>)
    requires CountedRefs(info, news, out, idle) && id in info && info[id].refCount == 0
    ensures CountedRefs(info, news, out + {id}, idle - {id})
  {
    forall k | k in info ensures RefsOk(info[k], k, SlotsOf(news, k), out + {id}, idle - {id}) {
      assert RefsOk(info[k], k, SlotsOf(news, k), out, idle);
    }
  }

  lemma {:induction false} RefsBack(info: map<int, Info>, news: Table, id: int, out: set<int>, idle: set<int>)
    requires CountedRefs(info, news, out, idle)
    ensures CountedRefs(info, news, out - {id}, idle + {id})
  {
    forall k | k in info ensures RefsOk(info[k], k, SlotsOf(news, k), out - {id}, idle + {id}) {
      assert RefsOk(info[k], k, SlotsOf(news, k), out, idle);
    }
  }

  lemma {:induction false} UncountKeeps(e: Env, s: State, id: int, out: set<int>, idle: set<int>)
    requires Coherent(e, s, out, idle) && id in s.info && !s.info[id].inTried && s.info[id].refCount == 0 && id !in out
    ensures Coherent(e, Uncount(e, s, id), out + {id}, idle - {id})
  {
    RefsOut(s.info, s.news, id, out, idle);
    assert NewIds(s.info, out + {id}) == NewIds(s.info, out) - {id};
    NewLess(e, s.info, s.counts, NewIds(s.info, out), TriedIds(s.info), id);
  }

  lemma {:induction false} RecountKeeps(e: Env, s: State, id: int, out: set<int>, idle: set<int>)
    requires Coherent(e, s, out, idle) && id in out
    ensures id in s.info && Coherent(e, Recount(e, s, id), out - {id}, idle + {id})
  {
    RefsBack(s.info, s.news, id, out, idle);
    assert NewIds(s.info, out - {id}) == NewIds(s.info, out) + {id};
    NewMore(e, s.info, s.counts, NewIds(s.info, out), TriedIds(s.info), id);
  }

  // ---------------------------------------------------------------- the tried table

  lemma {:induction false} TriedAfterUntry(e: Env, info: map<int, Info>, tried: Table, slot: Slot)
    requires TriedOk(e, info, tried) && slot in tried
    ensures tried[slot] in info
    ensures TriedOk(e, info[tried[slot] := info[tried[slot]].(inTried := false)], tried - {slot})
  {
  }

  lemma {:induction false} RefsAfterUntry(
    e: Env, info: map<int, Info>, news: Table, id: int, i: Info, out: set<int>, idle: set<int>)
    requires CountedRefs(info, news, out, idle) && NewSlotsOk(e, info, news) && id in info && info[id].inTried
    requires i == info[id].(inTried := false) && i.refCount == 0
    ensures CountedRefs(info[id := i], news, out + {id}, idle)
  {
    forall k | k in info[id := i] ensures RefsOk(info[id := i][k], k, SlotsOf(news, k), out + {id}, idle) {
      assert RefsOk(info[k], k, SlotsOf(news, k), out, idle);
      if k == id {
        NoNewSlots(e, info, news, id);
      }
    }
  }

  /** Tried entries are not in the new table. */
  lemma {:induction false} NoNewSlots(e: Env, info: map<int, Info>, news: Table, id: int)
    requires NewSlotsOk(e, info, news) && id in info && info[id].inTried
    ensures SlotsOf(news, id) == {}
  {
    assert forall slot :: slot in news ==> NewSlotOk(e, info, slot, news[slot]);
  }

  lemma {:induction false} IdsAfterUntry(info: map<int, Info>, id: int, i: Info, out: set<int>)
    requires id in info && info[id].inTried && !i.inTried && id !in out
    ensures NewIds(info[id := i], out + {id}) == NewIds(info, out)
    ensures TriedIds(info[id := i]) == TriedIds(info) - {id}
  {
  }

  lemma {:induction false} UntryKeeps(e: Env, s: State, slot: Slot, out: set<int>, idle: set<int>)
    requires Coherent(e, s, out, idle) && slot in s.tried
    ensures s.tried[slot] in s.info && s.tried[slot] !in out
    ensures Coherent(e, Untry(e, s, slot), out + {s.tried[slot]}, idle)
  {
    var id := s.tried[slot];
    var i := s.info[id].(inTried := false);
    IndexFrame(s.info, s.index, s.nIdCount, id, i);
    RandomFrame(s.info, s.random, id, i);
    TriedAfterUntry(e, s.info, s.tried, slot);
    NewSlotsFrame(e, s.info, s.news, id, i);
    RefsAfterUntry(e, s.info, s.news, id, i, out, idle);
    IdsAfterUntry(s.info, id, i, out);
    TriedLess(e, s.info, s.counts, NewIds(s.info, out), TriedIds(s.info), id);
    NetsFrame(e, s.info, Untry(e, s, slot).counts, NewIds(s.info, out), TriedIds(s.info) - {id}, id, i);
  }

  lemma {:induction false} TriedAfterTry(e: Env, info: map<int, Info>, tried: Table, slot: Slot, id: int, i: Info)
    requires TriedOk(e, info, tried) && id in info && slot == TriedSlot(e, info[id].service) && slot !in tried
    requires i == info[id].(inTried := true) && i.refCount == 0 && !info[id].inTried
    ensures TriedOk(e, info[id := i], tried[slot := id])
  {
  }

  lemma {:induction false} RefsAfterTry(
    info: map<int, Info>, news: Table, id: int, i: Info, out: set<int>, idle: set<int>)
    requires CountedRefs(info, news, out, idle) && id in info && i.inTried
    ensures CountedRefs(info[id := i], news, out - {id}, idle)
  {
    forall k | k in info[id := i] ensures RefsOk(info[id := i][k], k, SlotsOf(news, k), out - {id}, idle) {
      assert RefsOk(info[k], k, SlotsOf(news, k), out, idle);
    }
  }

  /** An entry without references has no slot to lose by becoming tried. */
  lemma {:induction false} SlotsAfterTry(e: Env, info: map<int, Info>, news: Table, id: int, i: Info)
    requires NewSlotsOk(e, info, news) && id in info && i.service == info[id].service && SlotsOf(news, id) == {}
    ensures NewSlotsOk(e, info[id := i], news)
  {
    forall slot | slot in news ensures NewSlotOk(e, info[id := i], slot, news[slot]) {
      assert NewSlotOk(e, info, slot, news[slot]);
      assert news[slot] == id ==> slot in SlotsOf(news, id);
    }
  }

  lemma {:induction false} IdsAfterTry(info: map<int, Info>, id: int, i: Info, out: set<int>)
    requires id in info && !info[id].inTried && i.inTried && id in out
    ensures NewIds(info[id := i], out - {id}) == NewIds(info, out)
    ensures TriedIds(info[id := i]) == TriedIds(info) + {id}
  {
  }

  lemma {:induction false} TryKeeps(e: Env, s: State, id: int, out: set<int>, idle: set<int>)
    requires Coherent(e, s, out, idle) && id in out && id in s.info
    requires TriedSlot(e, s.info[id].service) !in s.tried
    ensures Coherent(e, Try(e, s, id), out - {id}, idle)
  {
    var i := s.info[id].(inTried := true);
    assert RefsOk(s.info[id], id, SlotsOf(s.news, id), out, idle);
    IndexFrame(s.info, s.index, s.nIdCount, id, i);
    RandomFrame(s.info, s.random, id, i);
    TriedAfterTry(e, s.info, s.tried, TriedSlot(e, s.info[id].service), id, i);
    SlotsAfterTry(e, s.info, s.news, id, i);
    RefsAfterTry(s.info, s.news, id, i, out, idle);
    IdsAfterTry(s.info, id, i, out);
    TriedMore(e, s.info, s.counts, NewIds(s.info, out), TriedIds(s.info), id);
    NetsFrame(e, s.info, Try(e, s, id).counts, NewIds(s.info, out), TriedIds(s.info) + {id}, id, i);
  }

  // ---------------------------------------------------------------- entries come and go

  lemma {:induction false} RandomAfterCreate(info: map<int, Info>, random: seq<int>, id: int, i: Info)
    requires RandomOk(info, random) && id !in info && i.randomPos == |random|
    ensures RandomOk(info[id := i], random + [id])
  {
    assert info[id := i].Keys == info.Keys + {id};
    assert |info[id := i].Keys| == |info| + 1;
  }

  lemma {:induction false} RefsAfterCreate(
    info: map<int, Info>, news: Table, e: Env, id: int, i: Info, out: set<int>, idle: set<int>, after: set<int>)
    requires CountedRefs(info, news, out, idle) && NewSlotsOk(e, info, news) && id !in info
    requires !i.inTried && i.refCount == 0 && after == idle + {id}
    ensures CountedRefs(info[id := i], news, out, after)
  {
    forall k | k in info[id := i] ensures RefsOk(info[id := i][k], k, SlotsOf(news, k), out, after) {
      if k == id {
        NoSlotsOfMissing(e, info, news, id);
      } else {
        assert RefsOk(info[k], k, SlotsOf(news, k), out, idle);
      }
    }
  }

  lemma {:induction false} NoSlotsOfMissing(e: Env, info: map<int, Info>, news: Table, id: int)
    requires NewSlotsOk(e, info, news) && id !in info
    ensures SlotsOf(news, id) == {}
  {
    assert forall slot :: slot in news ==> NewSlotOk(e, info, slot, news[slot]);
  }

  lemma {:induction false} SlotsAfterCreate(e: Env, info: map<int, Info>, news: Table, id: int, i: Info)
    requires NewSlotsOk(e, info, news) && id !in info
    ensures NewSlotsOk(e, info[id := i], news)
  {
    forall slot | slot in news ensures NewSlotOk(e, info[id := i], slot, news[slot]) {
      assert NewSlotOk(e, info, slot, news[slot]);
    }
  }

  lemma {:induction false} IdsAfterCreate(info: map<int, Info>, id: int, i: Info, out: set<int>)
    requires id !in info && !i.inTried && id !in out
    ensures NewIds(info[id := i], out) == NewIds(info, out) + {id} && TriedIds(info[id := i]) == TriedIds(info)
    ensures id !in NewIds(info, out)
  {
  }

  lemma {:induction false} NetsAfterCreate(
    e: Env, info: map<int, Info>, counts: map<Network, Count>, newIds: set<int>, triedIds: set<int>, id: int, i: Info)
    requires NetsOk(e, info, counts, newIds, triedIds) && id !in info && id !in newIds && id !in triedIds
    ensures NetsOk(e, info[id := i], counts, newIds, triedIds)
  {
    forall net ensures CountOf(counts, net)
                       == Count(|OnNet(e, info[id := i], newIds, net)|, |OnNet(e, info[id := i], triedIds, net)|)
    {
      assert OnNet(e, info[id := i], newIds, net) == OnNet(e, info, newIds, net);
      assert OnNet(e, info[id := i], triedIds, net) == OnNet(e, info, triedIds, net);
    }
  }

  lemma {:induction false} CreateKeeps(
    e: Env, s: State, a: Address, source: NetAddr, out: set<int>, idle: set<int>, after: set<int>)
    requires Coherent(e, s, out, idle) && a.service !in s.index && after == idle + {s.nIdCount}
    ensures Coherent(e, Create(e, s, a, source), out, after)
  {
    var id := s.nIdCount;
    var i := Info(a.service, source, a.time, a.services, 0, 0, 0, 0, 0, false, |s.random|);
    IndexAfterCreate(s.info, s.index, id, i);
    OutAfterCreate(s.info, id, i, out);
    RandomAfterCreate(s.info, s.random, id, i);
    SlotsAfterCreate(e, s.info, s.news, id, i);
    RefsAfterCreate(s.info, s.news, e, id, i, out, idle, after);
    TriedAfterCreate(e, s.info, s.tried, id, i);
    CountsAfterCreate(e, s, id, i, out);
  }

  lemma {:induction false} OutAfterCreate(info: map<int, Info>, id: int, i: Info, out: set<int>)
    requires OutOk(info, out) && id !in info
    ensures id !in out && OutOk(info[id := i], out)
  {
  }

  lemma {:induction false} CountsAfterCreate(e: Env, s: State, id: int, i: Info, out: set<int>)
    requires id !in s.info && id !in out && !i.inTried
    requires TotalsOk(s.info, s.nNew, s.nTried, out)
             && NetsOk(e, s.info, s.counts, NewIds(s.info, out), TriedIds(s.info))
    ensures var info := s.info[id := i];
      && TotalsOk(info, s.nNew + 1, s.nTried, out)
      && NetsOk(e, info, Bump(s.counts, e.network(i.service), 1, 0), NewIds(info, out), TriedIds(info))
  {
    IdsAfterCreate(s.info, id, i, out);
    NetsAfterCreate(e, s.info, s.counts, NewIds(s.info, out), TriedIds(s.info), id, i);
    NewMore(e, s.info[id := i], s.counts, NewIds(s.info, out), TriedIds(s.info), id);
  }

  lemma {:induction false} IndexAfterCreate(info: map<int, Info>, index: map<Service, int>, n: int, i: Info)
    requires IndexOk(info, index, n) && i.service !in index
    ensures n !in info && IndexOk(info[n := i], index[i.service := n], n + 1)
  {
  }

  lemma {:induction false} TriedAfterCreate(e: Env, info: map<int, Info>, tried: Table, id: int, i: Info)
    requires TriedOk(e, info, tried) && id !in info && !i.inTried
    ensures TriedOk(e, info[id := i], tried)
  {
  }

  lemma {:induction false} RandomAfterDelete(info: map<int, Info>, random: seq<int>, id: int)
    requires RandomOk(info, random) && id in info
    ensures 0 <= info[id].randomPos < |random|
    ensures var n, p := |random|, info[id].randomPos;
      RandomOk(Moved(info, random[n - 1], p) - {id}, random[p := random[n - 1]][..n - 1])
  {
    var n, p := |random|, info[id].randomPos;
    var after := Moved(info, random[n - 1], p) - {id};
    assert after.Keys == info.Keys - {id};
    assert |after.Keys| == |info| - 1;
  }

  lemma {:induction false} IndexAfterDrop(info: map<int, Info>, index: map<Service, int>, n: int, id: int)
    requires IndexOk(info, index, n) && id in info
    ensures IndexOk(info - {id}, index - {info[id].service}, n)
  {
  }

  lemma {:induction false} TriedAfterDrop(e: Env, info: map<int, Info>, tried: Table, id: int)
    requires TriedOk(e, info, tried) && id in info && !info[id].inTried
    ensures TriedOk(e, info - {id}, tried)
  {
  }

  lemma {:induction false} SlotsAfterDrop(e: Env, info: map<int, Info>, news: Table, id: int)
    requires NewSlotsOk(e, info, news) && SlotsOf(news, id) == {}
    ensures NewSlotsOk(e, info - {id}, news)
  {
    forall slot | slot in news ensures NewSlotOk(e, info - {id}, slot, news[slot]) {
      assert NewSlotOk(e, info, slot, news[slot]);
      assert news[slot] == id ==> slot in SlotsOf(news, id);
    }
  }

  lemma {:induction false} RefsAfterDrop(info: map<int, Info>, news: Table, id: int, out: set<int>, idle: set<int>)
    requires CountedRefs(info, news, out, idle)
    ensures CountedRefs(info - {id}, news, out, idle - {id})
  {
    forall k | k in info - {id} ensures RefsOk((info - {id})[k], k, SlotsOf(news, k), out, idle - {id}) {
      assert RefsOk(info[k], k, SlotsOf(news, k), out, idle);
    }
  }

  lemma {:induction false} IdsAfterDrop(info: map<int, Info>, id: int, out: set<int>)
    requires id in info && !info[id].inTried && id !in out
    ensures NewIds(info - {id}, out) == NewIds(info, out) - {id} && TriedIds(info - {id}) == TriedIds(info)
    ensures id in NewIds(info, out) && id !in TriedIds(info)
  {
  }

  lemma {:induction false} NetsAfterDrop(
    e: Env, info: map<int, Info>, counts: map<Network, Count>, newIds: set<int>, triedIds: set<int>, id: int)
    requires NetsOk(e, info, counts, newIds, triedIds) && id !in newIds && id !in triedIds
    ensures NetsOk(e, info - {id}, counts, newIds, triedIds)
  {
    forall net ensures CountOf(counts, net)
                       == Count(|OnNet(e, info - {id}, newIds, net)|, |OnNet(e, info - {id}, triedIds, net)|)
    {
      assert OnNet(e, info - {id}, newIds, net) == OnNet(e, info, newIds, net);
      assert OnNet(e, info - {id}, triedIds, net) == OnNet(e, info, triedIds, net);
    }
  }

  lemma {:induction false} ForgetKeeps(e: Env, s: State, id: int, out: set<int>, idle: set<int>)
    requires Tabled(e, s, out, idle) && id in s.info && id !in out && !s.info[id].inTried && s.info[id].refCount == 0
    ensures Tabled(e, Forget(e, s, id), out, idle - {id})
  {
    assert RefsOk(s.info[id], id, SlotsOf(s.news, id), out, idle);
    IndexAfterDrop(s.info, s.index, s.nIdCount, id);
    TriedAfterDrop(e, s.info, s.tried, id);
    SlotsAfterDrop(e, s.info, s.news, id);
    RefsAfterDrop(s.info, s.news, id, out, idle);
    IdsAfterDrop(s.info, id, out);
    NewLess(e, s.info, s.counts, NewIds(s.info, out), TriedIds(s.info), id);
    NetsAfterDrop(e, s.info, Forget(e, s, id).counts, NewIds(s.info, out) - {id}, TriedIds(s.info), id);
  }

  lemma {:induction false} TabledAfterDelete(
    e: Env, s: State, id: int, last: int, p: int, out: set<int>, idle: set<int>)
    requires Tabled(e, s, out, idle) && id in s.info && id !in out && !s.info[id].inTried && s.info[id].refCount == 0
    requires last in s.info
    ensures Tabled(e, Forget(e, s.(info := Moved(s.info, last, p)), id), out, idle - {id})
  {
    MovePos(e, s, last, p, out, idle);
    ForgetKeeps(e, s.(info := Moved(s.info, last, p)), id, out, idle);
  }

  lemma {:induction false} DeleteKeeps(e: Env, s: State, id: int, out: set<int>, idle: set<int>)
    requires Coherent(e, s, out, idle) && id in s.info && id !in out && !s.info[id].inTried && s.info[id].refCount == 0
    ensures Coherent(e, Delete(e, s, id), out, idle - {id})
  {
    RandomAfterDelete(s.info, s.random, id);
    TabledAfterDelete(e, s, id, s.random[|s.random| - 1], s.info[id].randomPos, out, idle);
  }
}
