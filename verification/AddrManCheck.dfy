/**
 CheckAddrman, the node's own test of an address manager. It accepts every consistent manager,
 and so it accepts after every call. What it accepts is characterised exactly.
 */
module AddrManCheck {
  import opened AddrMan
  import opened AddrManInvariant
  import opened AddrManRuns
  import opened AddrManGetAddr
  import opened AddrManImpls

  // ---------------------------------------------------------------- what is checked

  predicate EntryChecked(s: State, id: int)
    requires id in s.info
  {
    var i := s.info[id];
    && (if i.inTried then i.lastSuccess != 0 && i.refCount == 0 else 1 <= i.refCount <= NEW_BUCKETS_PER_ADDRESS)
    && i.service in s.index && s.index[i.service] == id
    && 0 <= i.randomPos < |s.random| && s.random[i.randomPos] == id
    && i.lastTry >= 0 && i.lastSuccess >= 0
  }

  ghost predicate EntriesChecked(s: State) {
    forall id :: id in s.info ==> EntryChecked(s, id)
  }

  predicate TriedSlotChecked(e: Env, s: State, slot: Slot, id: int) {
    id in s.info && s.info[id].inTried && TriedSlot(e, s.info[id].service) == slot
  }

  /** A tried entry is in the table. */
  predicate Placed(e: Env, s: State, id: int)
    requires id in s.info
  {
    TriedSlot(e, s.info[id].service) in s.tried && s.tried[TriedSlot(e, s.info[id].service)] == id
  }

  ghost predicate TriedChecked(e: Env, s: State) {
    && (forall slot :: slot in s.tried ==> TriedSlotChecked(e, s, slot, s.tried[slot]))
    && (forall id :: id in s.info && s.info[id].inTried ==> Placed(e, s, id))
  }

  predicate NewSlotChecked(e: Env, s: State, slot: Slot, id: int) {
    id in s.info && !s.info[id].inTried && slot.bucket < NEW_BUCKET_COUNT
    && e.newPos(slot.bucket, s.info[id].service) == slot.pos
  }

  ghost predicate NewChecked(e: Env, s: State) {
    && (forall slot :: slot in s.news ==> NewSlotChecked(e, s, slot, s.news[slot]))
    && (forall id :: id in s.info && !s.info[id].inTried ==> |SlotsOf(s.news, id)| == s.info[id].refCount)
  }

  /** The networks of some entries. */
  ghost function NetsOf(e: Env, info: map<int, Info>, ids: set<int>): set<Network> {
    set id | id in ids && id in info :: e.network(info[id].service)
  }

  /**
   The counters of the networks that have any are right, and there are enough of them. This does
   not say that every network with entries has counters.
   */
  ghost predicate CountsChecked(e: Env, s: State) {
    && |s.counts| >= |NetsOf(e, s.info, s.info.Keys)|
    && (forall net :: net in s.counts ==>
          s.counts[net] == Count(|OnNet(e, s.info, NewIds(s.info, {}), net)|,
                                 |OnNet(e, s.info, TriedIds(s.info), net)|))
  }

  ghost predicate Checked(e: Env, s: State) {
    && |s.random| == s.nTried + s.nNew
    && EntriesChecked(s) && TotalsOk(s.info, s.nNew, s.nTried, {})
    && TriedChecked(e, s) && NewChecked(e, s) && CountsChecked(e, s)
  }

  // ---------------------------------------------------------------- consistent managers pass

  lemma {:induction false} EntriesPass(e: Env, s: State)
    requires Consistent(e, s)
    ensures EntriesChecked(s)
  {
    forall id | id in s.info ensures EntryChecked(s, id) {
      assert TimeOk(s.info[id]);
      assert RefsOk(s.info[id], id, SlotsOf(s.news, id), {}, {});
    }
  }

  lemma {:induction false} TablesPass(e: Env, s: State)
    requires Consistent(e, s)
    ensures TriedChecked(e, s) && NewChecked(e, s)
  {
    forall slot | slot in s.news ensures NewSlotChecked(e, s, slot, s.news[slot]) {
      assert NewSlotOk(e, s.info, slot, s.news[slot]);
    }
    forall id | id in s.info && !s.info[id].inTried ensures |SlotsOf(s.news, id)| == s.info[id].refCount {
      assert RefsOk(s.info[id], id, SlotsOf(s.news, id), {}, {});
    }
  }

  /** Every network with entries has counters, since its count is not zero. */
  lemma {:induction false} NetsCounted(e: Env, s: State, net: Network)
    requires NetsOk(e, s.info, s.counts, NewIds(s.info, {}), TriedIds(s.info)) && net in NetsOf(e, s.info, s.info.Keys)
    ensures net in s.counts
  {
    var id :| id in s.info.Keys && id in s.info && e.network(s.info[id].service) == net;
    assert id in OnNet(e, s.info, NewIds(s.info, {}), net) || id in OnNet(e, s.info, TriedIds(s.info), net);
    assert CountOf(s.counts, net)
           == Count(|OnNet(e, s.info, NewIds(s.info, {}), net)|, |OnNet(e, s.info, TriedIds(s.info), net)|);
  }

  lemma {:induction false} CountsPass(e: Env, s: State)
    requires NetsOk(e, s.info, s.counts, NewIds(s.info, {}), TriedIds(s.info))
    ensures CountsChecked(e, s)
  {
    var nets := NetsOf(e, s.info, s.info.Keys);
    forall net | net in nets ensures net in s.counts.Keys {
      NetsCounted(e, s, net);
    }
    SubsetSize(nets, s.counts.Keys);
    forall net | net in s.counts
      ensures s.counts[net] == Count(|OnNet(e, s.info, NewIds(s.info, {}), net)|,
                                     |OnNet(e, s.info, TriedIds(s.info), net)|)
    {
      assert CountOf(s.counts, net) == s.counts[net];
    }
  }

  lemma {:induction false} SizesPass(e: Env, s: State)
    requires Consistent(e, s)
    ensures |s.random| == s.nTried + s.nNew
  {
    assert NewIds(s.info, {}) + TriedIds(s.info) == s.info.Keys;
    assert NewIds(s.info, {}) !! TriedIds(s.info);
  }

  /** A consistent manager passes. */
  lemma {:induction false} ConsistentPasses(e: Env, s: State)
    requires Consistent(e, s)
    ensures Checked(e, s)
  {
    SizesPass(e, s);
    EntriesPass(e, s);
    TablesPass(e, s);
    CountsPass(e, s);
  }

  /** So CheckAddrman returns zero after every run from a new manager. */
  lemma {:induction false} EveryRunPasses(e: Env, ops: seq<Op>, r: State)
    requires Runs(e, Fresh(), ops, r)
    ensures Checked(e, r)
  {
    FreshConsistent(e);
    RunKeeps(e, Fresh(), ops, r);
    ConsistentPasses(e, r);
  }

  // ---------------------------------------------------------------- what passing means

  /** All ids have a place of their own, and there are as many places: so every place is taken. */
  lemma {:induction false} PlacesTaken(info: map<int, Info>, random: seq<int>)
    requires |random| == |info|
    requires forall id :: id in info ==> 0 <= info[id].randomPos < |random| && random[info[id].randomPos] == id
    ensures RandomOk(info, random)
  {
    var taken := set id | id in info.Keys :: info[id].randomPos;
    TakenSize(info, random, info.Keys, taken);
    SameSize(taken, UpTo(|random|));
    forall i | 0 <= i < |random| ensures random[i] in info && info[random[i]].randomPos == i {
      assert i in taken;
    }
  }

  lemma {:induction false} TakenSize(info: map<int, Info>, random: seq<int>, ids: set<int>, taken: set<int>)
    requires ids <= info.Keys && taken == set id | id in ids :: info[id].randomPos
    requires forall id :: id in info ==> 0 <= info[id].randomPos < |random| && random[info[id].randomPos] == id
    ensures |taken| == |ids|
    decreases |ids|
  {
    if ids == {} {
      assert taken == {};
    } else {
      SomeMember(ids);
      var id :| id in ids;
      var fewer := set k | k in ids - {id} :: info[k].randomPos;
      assert taken == fewer + {info[id].randomPos};
      assert info[id].randomPos !in fewer by {
        forall k | k in ids - {id} ensures info[k].randomPos != info[id].randomPos {
          assert random[info[k].randomPos] == k;
        }
      }
      TakenSize(info, random, ids - {id}, fewer);
    }
  }

  ghost function UpTo(n: nat): (all: set<int>)
    ensures |all| == n && forall i :: i in all <==> 0 <= i < n
  {
    if n == 0 then {} else UpTo(n - 1) + {n - 1}
  }

  lemma {:induction false} SameSize(a: set<int>, b: set<int>)
    requires a <= b && |a| == |b|
    ensures a == b
  {
    assert b == a + (b - a);
    assert |b - a| == 0;
  }

  /** What CheckAddrman does not look at: stale addresses, ids, uncounted networks, collisions. */
  ghost predicate Unseen(e: Env, s: State) {
    && 0 <= s.nIdCount && (forall id :: id in s.info ==> 0 <= id < s.nIdCount)
    && (forall a :: a in s.index ==> s.index[a] in s.info && s.info[s.index[a]].service == a)
    && NetsOf(e, s.info, s.info.Keys) <= s.counts.Keys
    && CollisionsOk(e, s)
  }

  lemma {:induction false} CountsMean(e: Env, s: State)
    requires CountsChecked(e, s)
    ensures NetsOf(e, s.info, s.info.Keys) <= s.counts.Keys
            <==> NetsOk(e, s.info, s.counts, NewIds(s.info, {}), TriedIds(s.info))
  {
    var nets, news, tries := NetsOf(e, s.info, s.info.Keys), NewIds(s.info, {}), TriedIds(s.info);
    if nets <= s.counts.Keys {
      forall net ensures CountOf(s.counts, net)
        == Count(|OnNet(e, s.info, news, net)|, |OnNet(e, s.info, tries, net)|) {
        if net !in s.counts {
          NothingOnNet(e, s, news, net);
          NothingOnNet(e, s, tries, net);
        }
      }
    } else if NetsOk(e, s.info, s.counts, news, tries) {
      forall net | net in nets ensures net in s.counts.Keys {
        NetsCounted(e, s, net);
      }
    }
  }

  lemma {:induction false} NothingOnNet(e: Env, s: State, ids: set<int>, net: Network)
    requires net !in NetsOf(e, s.info, s.info.Keys)
    ensures OnNet(e, s.info, ids, net) == {}
  {
    assert forall id :: id in s.info.Keys ==> e.network(s.info[id].service) in NetsOf(e, s.info, s.info.Keys);
  }

  lemma {:induction false} PassedPlaces(e: Env, s: State)
    requires Checked(e, s)
    ensures RandomOk(s.info, s.random)
  {
    AllIds(s.info);
    forall id | id in s.info ensures 0 <= s.info[id].randomPos < |s.random| && s.random[s.info[id].randomPos] == id {
      PlaceChecked(e, s, id);
    }
    PlacesTaken(s.info, s.random);
  }

  /** Every entry is new or tried. */
  lemma {:induction false} AllIds(info: map<int, Info>)
    ensures |info| == |NewIds(info, {})| + |TriedIds(info)|
  {
    var news, tries := NewIds(info, {}), TriedIds(info);
    assert news + tries == info.Keys && news !! tries;
    assert |news + tries| == |news| + |tries|;
  }

  lemma {:induction false} PlaceChecked(e: Env, s: State, id: int)
    requires Checked(e, s) && id in s.info
    ensures 0 <= s.info[id].randomPos < |s.random| && s.random[s.info[id].randomPos] == id
  {
    assert EntryChecked(s, id);
  }

  lemma {:induction false} PassedTables(e: Env, s: State)
    requires Checked(e, s)
    ensures TriedOk(e, s.info, s.tried) && NewSlotsOk(e, s.info, s.news)
    ensures CountedRefs(s.info, s.news, {}, {}) && TimesOk(s.info)
  {
    assert forall id :: id in s.info ==> EntryChecked(s, id);
    forall slot | slot in s.tried
      ensures s.tried[slot] in s.info && s.info[s.tried[slot]].inTried
              && TriedSlot(e, s.info[s.tried[slot]].service) == slot
    {
      assert TriedSlotChecked(e, s, slot, s.tried[slot]);
    }
    forall id | id in s.info && s.info[id].inTried
      ensures TriedSlot(e, s.info[id].service) in s.tried && s.tried[TriedSlot(e, s.info[id].service)] == id
    {
      assert Placed(e, s, id);
    }
    forall slot | slot in s.news ensures NewSlotOk(e, s.info, slot, s.news[slot]) {
      assert NewSlotChecked(e, s, slot, s.news[slot]);
    }
  }

  /** The check passes exactly the managers that are consistent up to what it does not look at. */
  lemma {:induction false} CheckIsExact(e: Env, s: State)
    ensures Checked(e, s) && Unseen(e, s) <==> Consistent(e, s)
  {
    if Checked(e, s) && Unseen(e, s) {
      PassedPlaces(e, s);
      PassedTables(e, s);
      CountsMean(e, s);
      assert IndexOk(s.info, s.index, s.nIdCount) by {
        assert forall id :: id in s.info ==> EntryChecked(s, id);
      }
    } else if Consistent(e, s) {
      ConsistentPasses(e, s);
      CountsMean(e, s);
    }
  }

  /** One new entry on network 7, while the only counters kept are zeroes for network 0. */
  ghost function Miscounted(e: Env, a: Service): State {
    State(1, map[0 := Info(a, NetAddr(0), 0, {}, 0, 0, 0, 0, 1, false, 0)], map[a := 0], [0],
          map[], map[Slot(0, e.newPos(0, a)) := 0], 0, 1, map[0 := Count(0, 0)], {}, 1)
  }

  /** Counters left over from a network without entries can hide that another one is not counted. */
  lemma {:induction false} MiscountPasses(e: Env, a: Service)
    requires e.network(a) == 7
    ensures Checked(e, Miscounted(e, a)) && !Consistent(e, Miscounted(e, a))
  {
    var s := Miscounted(e, a);
    assert NewIds(s.info, {}) == {0} && TriedIds(s.info) == {};
    assert SlotsOf(s.news, 0) == {Slot(0, e.newPos(0, a))};
    assert NetsOf(e, s.info, s.info.Keys) == {7} by {
      assert 0 in s.info.Keys;
    }
    assert OnNet(e, s.info, {0}, 0) == {} && OnNet(e, s.info, {}, 0) == {};
    CheckIsExact(e, s);
    assert 7 !in s.counts.Keys;
  }

  // ---------------------------------------------------------------- the scans of the tables

  predicate Before(slot: Slot, n: nat, i: nat) {
    slot.bucket < n || (slot.bucket == n && slot.pos < i)
  }

  lemma {:induction false} BeforeNext(n: nat, i: nat, next: nat)
    requires next == i + 1
    ensures forall slot: Slot :: Before(slot, n, next) <==> Before(slot, n, i) || slot == Slot(n, i)
  {
    forall slot: Slot ensures Before(slot, n, next) <==> Before(slot, n, i) || slot == Slot(n, i) {
      assert slot == Slot(slot.bucket, slot.pos);
    }
  }

  ghost predicate Within(t: Table, buckets: nat) {
    forall slot :: slot in t ==> slot.bucket < buckets && slot.pos < BUCKET_SIZE
  }

  /** The slots before (n, i) are right, and `rest` are the tried entries not met in them. */
  ghost predicate TriedScan(e: Env, s: State, n: nat, i: nat, rest: set<int>) {
    && (forall slot :: slot in s.tried && Before(slot, n, i) ==> TriedSlotChecked(e, s, slot, s.tried[slot]))
    && (forall id :: id in rest <==>
          id in TriedIds(s.info) && !(Placed(e, s, id) && Before(TriedSlot(e, s.info[id].service), n, i)))
  }

  lemma {:induction false} TriedSkip(e: Env, s: State, n: nat, i: nat, rest: set<int>)
    requires TriedScan(e, s, n, i, rest) && Slot(n, i) !in s.tried
    ensures TriedScan(e, s, n, i + 1, rest)
  {
    BeforeNext(n, i, i + 1);
  }

  lemma {:induction false} TriedVisit(e: Env, s: State, n: nat, i: nat, rest: set<int>, id: int)
    requires TriedScan(e, s, n, i, rest) && Slot(n, i) in s.tried && id == s.tried[Slot(n, i)]
    ensures id in rest && TriedSlotChecked(e, s, Slot(n, i), id) ==> TriedScan(e, s, n, i + 1, rest - {id})
  {
    BeforeNext(n, i, i + 1);
  }

  lemma {:induction false} TriedMiss(e: Env, s: State, n: nat, i: nat, rest: set<int>, id: int)
    requires TriedScan(e, s, n, i, rest) && Slot(n, i) in s.tried && id == s.tried[Slot(n, i)]
    requires id !in rest || !TriedSlotChecked(e, s, Slot(n, i), id)
    ensures !TriedChecked(e, s)
  {
    assert TriedChecked(e, s) ==> TriedSlotChecked(e, s, Slot(n, i), s.tried[Slot(n, i)]);
    assert !Before(Slot(n, i), n, i);
  }

  lemma {:induction false} TriedRow(e: Env, s: State, n: nat, rest: set<int>)
    requires TriedScan(e, s, n, BUCKET_SIZE, rest) && Within(s.tried, TRIED_BUCKET_COUNT)
    ensures TriedScan(e, s, n + 1, 0, rest)
  {
    assert forall slot: Slot :: slot.pos < BUCKET_SIZE ==> (Before(slot, n + 1, 0) <==> Before(slot, n, BUCKET_SIZE));
  }

  lemma {:induction false} TriedOver(e: Env, s: State, rest: set<int>)
    requires TriedScan(e, s, TRIED_BUCKET_COUNT, 0, rest) && Within(s.tried, TRIED_BUCKET_COUNT)
    ensures TriedChecked(e, s) <==> rest == {}
  {
    assert forall id :: id in rest <==> id in TriedIds(s.info) && !Placed(e, s, id);
    if rest != {} {
      SomeMember(rest);
      var id :| id in rest;
      assert id in s.info && !Placed(e, s, id);
    }
  }

  /** The slots before (n, i) that refer to an entry. */
  ghost function Seen(news: Table, id: int, n: nat, i: nat): set<Slot> {
    set slot | slot in news && news[slot] == id && Before(slot, n, i)
  }

  ghost predicate LeftAt(s: State, n: nat, i: nat, left: map<int, int>, id: int)
    requires id in s.info
  {
    var seen, refs := |Seen(s.news, id, n, i)|, s.info[id].refCount;
    if s.info[id].inTried then id !in left
    else seen <= refs && (id in left <==> seen < refs) && (id in left ==> left[id] == refs - seen)
  }

  /** The slots before (n, i) are right, and `left` says how many references are still to come. */
  ghost predicate NewScan(e: Env, s: State, n: nat, i: nat, left: map<int, int>) {
    && left.Keys <= s.info.Keys
    && (forall slot :: slot in s.news && Before(slot, n, i) ==> NewSlotChecked(e, s, slot, s.news[slot]))
    && (forall id :: id in s.info ==> LeftAt(s, n, i, left, id))
  }

  function RefCounts(info: map<int, Info>): map<int, int> {
    map id | id in info && !info[id].inTried :: info[id].refCount
  }

  lemma {:induction false} NewStart(e: Env, s: State)
    requires EntriesChecked(s)
    ensures NewScan(e, s, 0, 0, RefCounts(s.info))
  {
    forall id | id in s.info ensures LeftAt(s, 0, 0, RefCounts(s.info), id) {
      assert EntryChecked(s, id);
      assert Seen(s.news, id, 0, 0) == {};
    }
  }

  lemma {:induction false} SeenNext(news: Table, id: int, n: nat, i: nat)
    ensures Seen(news, id, n, i + 1)
            == if Slot(n, i) in news && news[Slot(n, i)] == id then Seen(news, id, n, i) + {Slot(n, i)}
              else Seen(news, id, n, i)
    ensures Slot(n, i) !in Seen(news, id, n, i)
  {
    BeforeNext(n, i, i + 1);
  }

  lemma {:induction false} NewSkip(e: Env, s: State, n: nat, i: nat, left: map<int, int>)
    requires NewScan(e, s, n, i, left) && Slot(n, i) !in s.news
    ensures NewScan(e, s, n, i + 1, left)
  {
    BeforeNext(n, i, i + 1);
    forall id | id in s.info ensures LeftAt(s, n, i + 1, left, id) {
      assert LeftAt(s, n, i, left, id);
      SeenNext(s.news, id, n, i);
    }
  }

  /** One reference less to come. */
  function Fewer(left: map<int, int>, id: int): map<int, int>
    requires id in left
  {
    if left[id] == 1 then left - {id} else left[id := left[id] - 1]
  }

  lemma {:induction false} NewVisit(e: Env, s: State, n: nat, i: nat, left: map<int, int>, id: int)
    requires NewScan(e, s, n, i, left) && Slot(n, i) in s.news && id == s.news[Slot(n, i)]
    requires id in left && NewSlotChecked(e, s, Slot(n, i), id)
    ensures NewScan(e, s, n, i + 1, Fewer(left, id))
  {
    BeforeNext(n, i, i + 1);
    forall k | k in s.info ensures LeftAt(s, n, i + 1, Fewer(left, id), k) {
      assert LeftAt(s, n, i, left, k);
      SeenNext(s.news, k, n, i);
    }
  }

  lemma {:induction false} NewMiss(e: Env, s: State, n: nat, i: nat, left: map<int, int>, id: int)
    requires NewScan(e, s, n, i, left) && Slot(n, i) in s.news && id == s.news[Slot(n, i)]
    requires id !in left || !NewSlotChecked(e, s, Slot(n, i), id)
    ensures !NewChecked(e, s)
  {
    if NewChecked(e, s) {
      assert NewSlotChecked(e, s, Slot(n, i), s.news[Slot(n, i)]);
      assert LeftAt(s, n, i, left, id);
      SeenNext(s.news, id, n, i);
      SubsetSize(Seen(s.news, id, n, i + 1), SlotsOf(s.news, id));
    }
  }

  lemma {:induction false} NewRow(e: Env, s: State, n: nat, left: map<int, int>)
    requires NewScan(e, s, n, BUCKET_SIZE, left) && Within(s.news, NEW_BUCKET_COUNT)
    ensures NewScan(e, s, n + 1, 0, left)
  {
    assert forall slot: Slot :: slot.pos < BUCKET_SIZE ==> (Before(slot, n + 1, 0) <==> Before(slot, n, BUCKET_SIZE));
    forall id | id in s.info ensures LeftAt(s, n + 1, 0, left, id) {
      assert LeftAt(s, n, BUCKET_SIZE, left, id);
      assert Seen(s.news, id, n + 1, 0) == Seen(s.news, id, n, BUCKET_SIZE);
    }
  }

  lemma {:induction false} NewOver(e: Env, s: State, left: map<int, int>)
    requires NewScan(e, s, NEW_BUCKET_COUNT, 0, left) && Within(s.news, NEW_BUCKET_COUNT)
    ensures NewChecked(e, s) <==> left == map[]
  {
    forall id | id in s.info ensures !s.info[id].inTried ==>
      (id in left <==> |SlotsOf(s.news, id)| != s.info[id].refCount) {
      assert LeftAt(s, NEW_BUCKET_COUNT, 0, left, id);
      assert Seen(s.news, id, NEW_BUCKET_COUNT, 0) == SlotsOf(s.news, id);
    }
    if left != map[] {
      assert left.Keys != {};
      SomeMember(left.Keys);
      var id :| id in left.Keys;
      assert id in s.info && LeftAt(s, NEW_BUCKET_COUNT, 0, left, id);
    }
  }

  // ---------------------------------------------------------------- CheckAddrman

  /** The checks on one entry, in their order. */
  method CheckEntry(m: AddrManImpl, id: int) returns (err: int)
    requires id in m.info
    ensures err == 0 <==> EntryChecked(m.Model(), id)
  {
    var i := m.info[id];
    if i.inTried {
      if i.lastSuccess == 0 { return -1; }
      if i.refCount != 0 { return -2; }
    } else {
      if i.refCount < 0 || i.refCount > NEW_BUCKETS_PER_ADDRESS { return -3; }
      if i.refCount == 0 { return -4; }
    }
    if i.service !in m.index || m.index[i.service] != id { return -5; }
    if i.randomPos < 0 || i.randomPos >= |m.random| || m.random[i.randomPos] != id { return -14; }
    if i.lastTry < 0 { return -6; }
    if i.lastSuccess < 0 { return -8; }
    return 0;
  }

  /** What has been gathered from the entries outside `todo`. */
  ghost predicate Gathered(
    e: Env, info: map<int, Info>, todo: set<int>, tried: set<int>, news: map<int, int>, local: map<Network, Count>)
  {
    var done := info.Keys - todo;
    && tried == TriedIds(info) - todo && news == RefCounts(info) - todo
    && NetsOk(e, info, local, NewIds(info, {}) - todo, TriedIds(info) - todo)
    && local.Keys == NetsOf(e, info, done)
  }

  lemma {:induction false} GatherNothing(e: Env, info: map<int, Info>)
    ensures Gathered(e, info, info.Keys, {}, map[], map[])
  {
    assert TriedIds(info) - info.Keys == {} && NewIds(info, {}) - info.Keys == {};
    assert NetsOf(e, info, info.Keys - info.Keys) == {};
    assert forall net :: OnNet(e, info, {}, net) == {};
  }

  lemma {:induction false} NetsMore(e: Env, info: map<int, Info>, todo: set<int>, id: int)
    requires id in info && id in todo
    ensures NetsOf(e, info, info.Keys - (todo - {id}))
            == NetsOf(e, info, info.Keys - todo) + {e.network(info[id].service)}
  {
    var less, more := info.Keys - todo, info.Keys - (todo - {id});
    assert more == less + {id};
    assert id in more;
  }

  lemma {:induction false} GatherTried(
    e: Env, info: map<int, Info>, todo: set<int>, tried: set<int>, news: map<int, int>, local: map<Network, Count>,
    id: int)
    requires Gathered(e, info, todo, tried, news, local) && id in todo && id in info && info[id].inTried
    ensures Gathered(e, info, todo - {id}, tried + {id}, news, Bump(local, e.network(info[id].service), 0, 1))
  {
    TriedMore(e, info, local, NewIds(info, {}) - todo, TriedIds(info) - todo, id);
    assert TriedIds(info) - todo + {id} == TriedIds(info) - (todo - {id});
    assert NewIds(info, {}) - todo == NewIds(info, {}) - (todo - {id});
    assert RefCounts(info) - todo == RefCounts(info) - (todo - {id});
    NetsMore(e, info, todo, id);
  }

  lemma {:induction false} GatherNew(
    e: Env, info: map<int, Info>, todo: set<int>, tried: set<int>, news: map<int, int>, local: map<Network, Count>,
    id: int)
    requires Gathered(e, info, todo, tried, news, local) && id in todo && id in info && !info[id].inTried
    ensures Gathered(e, info, todo - {id}, tried, news[id := info[id].refCount],
                     Bump(local, e.network(info[id].service), 1, 0))
  {
    NewMore(e, info, local, NewIds(info, {}) - todo, TriedIds(info) - todo, id);
    assert TriedIds(info) - todo == TriedIds(info) - (todo - {id});
    assert NewIds(info, {}) - todo + {id} == NewIds(info, {}) - (todo - {id});
    assert (RefCounts(info) - todo)[id := info[id].refCount] == RefCounts(info) - (todo - {id});
    NetsMore(e, info, todo, id);
  }

  /** The loop over all entries. */
  method CheckEntries(m: AddrManImpl)
    returns (err: int, tried: set<int>, news: map<int, int>, local: map<Network, Count>)
    ensures err == 0 <==> EntriesChecked(m.Model())
    ensures err == 0 ==> Gathered(m.e, m.info, {}, tried, news, local)
  {
    tried, news, local := {}, map[], map[];
    var todo := m.info.Keys;
    GatherNothing(m.e, m.info);
    while todo != {}
      invariant todo <= m.info.Keys && Gathered(m.e, m.info, todo, tried, news, local)
      invariant forall id :: id in m.info && id !in todo ==> EntryChecked(m.Model(), id)
      decreases todo
    {
      SomeMember(todo);
      var id :| id in todo;
      err := CheckEntry(m, id);
      if err != 0 { return; }
      var i := m.info[id];
      if i.inTried {
        GatherTried(m.e, m.info, todo, tried, news, local, id);
        tried, local := tried + {id}, Bump(local, m.e.network(i.service), 0, 1);
      } else {
        GatherNew(m.e, m.info, todo, tried, news, local, id);
        news, local := news[id := i.refCount], Bump(local, m.e.network(i.service), 1, 0);
      }
      todo := todo - {id};
    }
    err := 0;
  }

  method CheckTried(m: AddrManImpl, tried: set<int>) returns (err: int, rest: set<int>)
    requires m.Valid() && tried == TriedIds(m.info)
    ensures err != 0 ==> !TriedChecked(m.e, m.Model())
    ensures err == 0 ==> (TriedChecked(m.e, m.Model()) <==> rest == {})
  {
    rest := tried;
    ghost var s := m.Model();
    for n := 0 to TRIED_BUCKET_COUNT
      invariant TriedScan(m.e, s, n, 0, rest)
    {
      for i := 0 to BUCKET_SIZE
        invariant TriedScan(m.e, s, n, i, rest)
      {
        var id := m.vvTried[n, i];
        if id == FREE {
          TriedSkip(m.e, s, n, i, rest);
        } else {
          TriedVisit(m.e, s, n, i, rest, id);
          if id !in rest || id !in m.info || TriedSlot(m.e, m.info[id].service) != Slot(n, i) {
            TriedMiss(m.e, s, n, i, rest, id);
            if id !in rest { return -11, rest; }
            if id !in m.info || m.e.triedBucket(m.info[id].service) != n { return -17, rest; }
            return -18, rest;
          }
          rest := rest - {id};
        }
      }
      TriedRow(m.e, s, n, rest);
    }
    TriedOver(m.e, s, rest);
    err := 0;
  }

  method CheckNewSlot(m: AddrManImpl, n: nat, i: nat, left: map<int, int>) returns (err: int, left': map<int, int>)
    requires m.Valid() && n < NEW_BUCKET_COUNT && i < BUCKET_SIZE && NewScan(m.e, m.Model(), n, i, left)
    ensures err != 0 ==> !NewChecked(m.e, m.Model())
    ensures err == 0 ==> NewScan(m.e, m.Model(), n, i + 1, left')
  {
    err, left' := 0, left;
    var id := m.vvNew[n, i];
    if id == FREE {
      NewSkip(m.e, m.Model(), n, i, left);
    } else if id !in left || id !in m.info || m.e.newPos(n, m.info[id].service) != i {
      NewMiss(m.e, m.Model(), n, i, left, id);
      err := if id !in left then -12 else -19;
    } else {
      NewVisit(m.e, m.Model(), n, i, left, id);
      left' := Fewer(left, id);
    }
  }

  method CheckNewBucket(m: AddrManImpl, n: nat, left: map<int, int>) returns (err: int, left': map<int, int>)
    requires m.Valid() && n < NEW_BUCKET_COUNT && NewScan(m.e, m.Model(), n, 0, left)
    ensures err != 0 ==> !NewChecked(m.e, m.Model())
    ensures err == 0 ==> NewScan(m.e, m.Model(), n + 1, 0, left')
  {
    left' := left;
    for i := 0 to BUCKET_SIZE
      invariant NewScan(m.e, m.Model(), n, i, left')
    {
      err, left' := CheckNewSlot(m, n, i, left');
      if err != 0 { return; }
    }
    NewRow(m.e, m.Model(), n, left');
    err := 0;
  }

  method CheckNew(m: AddrManImpl, news: map<int, int>) returns (err: int, left: map<int, int>)
    requires m.Valid() && news == RefCounts(m.info) && EntriesChecked(m.Model())
    ensures err != 0 ==> !NewChecked(m.e, m.Model())
    ensures err == 0 ==> (NewChecked(m.e, m.Model()) <==> left == map[])
  {
    left := news;
    NewStart(m.e, m.Model());
    for n := 0 to NEW_BUCKET_COUNT
      invariant NewScan(m.e, m.Model(), n, 0, left)
    {
      err, left := CheckNewBucket(m, n, left);
      if err != 0 { return; }
    }
    NewOver(m.e, m.Model(), left);
    err := 0;
  }

  method CheckCounts(m: AddrManImpl, local: map<Network, Count>) returns (err: int)
    requires local.Keys == NetsOf(m.e, m.info, m.info.Keys)
    requires NetsOk(m.e, m.info, local, NewIds(m.info, {}), TriedIds(m.info))
    ensures err == 0 <==> CountsChecked(m.e, m.Model())
  {
    assert |local| == |local.Keys|;
    if |m.counts| < |local| { return -20; }
    var todo := m.counts.Keys;
    while todo != {}
      invariant todo <= m.counts.Keys
      invariant forall net :: net in m.counts && net !in todo ==> m.counts[net] == CountOf(local, net)
      decreases todo
    {
      var net :| net in todo;
      assert CountOf(local, net)
             == Count(|OnNet(m.e, m.info, NewIds(m.info, {}), net)|, |OnNet(m.e, m.info, TriedIds(m.info), net)|);
      if CountOf(local, net) != m.counts[net] { return -21; }
      todo := todo - {net};
    }
    err := 0;
  }

  method CheckTables(m: AddrManImpl, tried: set<int>, news: map<int, int>) returns (err: int)
    requires m.Valid() && tried == TriedIds(m.info) && news == RefCounts(m.info) && EntriesChecked(m.Model())
    ensures err == 0 <==> TriedChecked(m.e, m.Model()) && NewChecked(m.e, m.Model())
  {
    var rest, left;
    err, rest := CheckTried(m, tried);
    if err != 0 { return; }
    err, left := CheckNew(m, news);
    if err != 0 { return; }
    if rest != {} { return -13; }
    if left != map[] { return -15; }
  }

  /** CheckAddrman: zero exactly for the managers that pass, whatever state they are in. */
  method CheckAddrman(m: AddrManImpl) returns (err: int)
    requires m.Valid()
    ensures err == 0 <==> Checked(m.e, m.Model())
  {
    ghost var e, s := m.e, m.Model();
    if |m.random| != m.nTried + m.nNew { return -7; }
    var tried, news, local;
    err, tried, news, local := CheckEntries(m);
    if err != 0 { return; }
    GatheredAll(m.e, m.info, tried, news, local);
    if |tried| != m.nTried { return -9; }
    if |news| != m.nNew { return -10; }
    err := CheckTables(m, tried, news);
    if err != 0 { return; }
    err := CheckCounts(m, local);
    assert err == 0 <==> CountsChecked(e, s);
  }

  lemma {:induction false} GatheredAll(
    e: Env, info: map<int, Info>, tried: set<int>, news: map<int, int>, local: map<Network, Count>)
    requires Gathered(e, info, {}, tried, news, local)
    ensures tried == TriedIds(info) && news == RefCounts(info) && |news| == |NewIds(info, {})|
    ensures NetsOk(e, info, local, NewIds(info, {}), TriedIds(info)) && local.Keys == NetsOf(e, info, info.Keys)
  {
    assert TriedIds(info) - {} == TriedIds(info) && NewIds(info, {}) - {} == NewIds(info, {});
    assert info.Keys - {} == info.Keys;
    assert RefCounts(info) - {} == RefCounts(info);
    assert RefCounts(info).Keys == NewIds(info, {});
  }
}
