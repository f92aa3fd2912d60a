/**
 Which files load. A file with totals that fit, different addresses and plausible times loads
 whatever the placement of addresses has become since it was written: entries that find no slot are
 dropped, and what remains is consistent. So a changed map of networks never makes a file unreadable.
 */
module AddrManLoads {
  import opened AddrMan
  import opened AddrManInvariant
  import opened AddrManKeeps
  import opened AddrManCheck
  import opened AddrManFile
  import AddrManGetAddr
  import AddrManRestore

  /** The state with its id counter and totals replaced; loading sets these apart from the entries. */
  function Sized(s: State, n: int, news: int, tries: int): State {
    s.(nIdCount := n, nNew := news, nTried := tries)
  }

  function Below(n: nat): (ids: set<int>)
    ensures forall id :: id in ids <==> 0 <= id < n
  {
    if n == 0 then {} else Below(n - 1) + {n - 1}
  }

  // ---------------------------------------------------------------- new entries

  /** An entry read is one created, with the statistics of the file. */
  function Introduced(e: Env, s: State, r: Record): State {
    var c := Create(e, s, Address(r.service, r.time, r.services), r.source);
    c.(info := c.info[s.nIdCount := FromRecord(r, false, |s.random|)])
  }

  lemma {:induction false} IntroducedKeeps(e: Env, s: State, r: Record, idle: set<int>, after: set<int>)
    requires Coherent(e, s, {}, idle) && r.service !in s.index && after == idle + {s.nIdCount}
    ensures Coherent(e, Introduced(e, s, r), {}, after)
  {
    var a := Address(r.service, r.time, r.services);
    CreateKeeps(e, s, a, r.source, {}, idle, after);
    UpdateStats(e, Create(e, s, a, r.source), s.nIdCount, FromRecord(r, false, |s.random|), {}, after);
  }

  lemma {:induction false} BelowNext(n: nat, next: nat)
    requires next == n + 1
    ensures Below(next) == Below(n) + {n}
  {
  }

  lemma {:induction false} AddNewIs(e: Env, s: State, n: nat, next: nat, r: Record)
    requires next == n + 1
    ensures Sized(AddNew(e, s, n, r), next, next, 0) == Introduced(e, Sized(s, n, n, 0), r)
  {
    assert s.info[n := Info(r.service, r.source, r.time, r.services, 0, 0, 0, 0, 0, false, |s.random|)]
                 [n := FromRecord(r, false, |s.random|)]
           == s.info[n := FromRecord(r, false, |s.random|)];
  }

  ghost predicate DistinctRecords(rs: seq<Record>) {
    forall i, j :: 0 <= i < j < |rs| ==> rs[i].service != rs[j].service
  }

  /** What the new entries of a file become: record k has the id k. */
  ghost predicate HasNews(s: State, rs: seq<Record>) {
    && (forall id :: id in s.info <==> 0 <= id < |rs|)
    && (forall id :: id in s.info ==> s.info[id] == FromRecord(rs[id], false, s.info[id].randomPos))
    && (forall a :: a in s.index ==> exists k :: 0 <= k < |rs| && rs[k].service == a)
    && s.news == map[] && s.tried == map[] && s.collisions == {}
  }

  lemma {:induction false} HasNewsNext(e: Env, s: State, rs: seq<Record>, front: seq<Record>, last: Record)
    requires rs == front + [last] && HasNews(s, front)
    ensures HasNews(AddNew(e, s, |front|, last), rs)
  {
    var r := AddNew(e, s, |front|, last);
    forall a | a in r.index ensures exists k :: 0 <= k < |rs| && rs[k].service == a {
      if a == last.service {
        assert rs[|front|].service == a;
      } else {
        var k :| 0 <= k < |front| && front[k].service == a;
        assert rs[k].service == a;
      }
    }
  }

  /** A manager without entries. */
  ghost predicate Bare(s: State) {
    s.(lastGood := 0, nIdCount := 0, nNew := 0, nTried := 0) == Fresh().(lastGood := 0)
  }

  lemma {:induction false} BareCoherent(e: Env, s: State)
    requires Bare(s)
    ensures Coherent(e, Sized(s, 0, 0, 0), {}, Below(0))
  {
    var r := Sized(s, 0, 0, 0);
    assert NewIds(r.info, {}) == {} && TriedIds(r.info) == {};
    forall net ensures CountOf(r.counts, net) == Count(|OnNet(e, r.info, {}, net)|, |OnNet(e, r.info, {}, net)|) {
      assert OnNet(e, r.info, {}, net) == {};
    }
  }

  lemma {:induction false} NewsLoaded(e: Env, s: State, rs: seq<Record>, r: State)
    requires Bare(s) && DistinctRecords(rs) && r == LoadNew(e, s, rs)
    ensures HasNews(r, rs) && Coherent(e, Sized(r, |rs|, |rs|, 0), {}, Below(|rs|))
  {
    if rs == [] {
      BareCoherent(e, s);
    } else {
      var front, last := rs[..|rs| - 1], rs[|rs| - 1];
      var q := LoadNew(e, s, front);
      NewsLoaded(e, s, front, q);
      OneNew(e, q, rs, front, last, |front|, |rs|, r);
    }
  }

  lemma {:induction false} OneNew(
    e: Env, q: State, rs: seq<Record>, front: seq<Record>, last: Record, n: nat, next: nat, r: State)
    requires rs != [] && front == rs[..|rs| - 1] && last == rs[|rs| - 1] && n == |front| && next == n + 1
    requires DistinctRecords(rs) && HasNews(q, front) && Coherent(e, Sized(q, n, n, 0), {}, Below(n))
    requires r == AddNew(e, q, n, last)
    ensures HasNews(r, rs) && Coherent(e, Sized(r, next, next, 0), {}, Below(next))
  {
    assert rs == front + [last];
    HasNewsNext(e, q, rs, front, last);
    NewUnknown(q, rs, front, last);
    NewCounted(e, q, last, n, next, r);
  }

  lemma {:induction false} NewCounted(e: Env, q: State, last: Record, n: nat, next: nat, r: State)
    requires next == n + 1 && Coherent(e, Sized(q, n, n, 0), {}, Below(n)) && last.service !in q.index
    requires r == AddNew(e, q, n, last)
    ensures Coherent(e, Sized(r, next, next, 0), {}, Below(next))
  {
    AddNewIs(e, q, n, next, last);
    BelowNext(n, next);
    IntroducedKeeps(e, Sized(q, n, n, 0), last, Below(n), Below(next));
  }

  lemma {:induction false} NewUnknown(s: State, rs: seq<Record>, front: seq<Record>, last: Record)
    requires rs == front + [last] && DistinctRecords(rs) && HasNews(s, front)
    ensures last.service !in s.index
  {
    assert rs[|front|] == last;
    forall k | 0 <= k < |front| ensures front[k].service != last.service {
      assert rs[k] == front[k];
    }
  }

  // ---------------------------------------------------------------- tried entries

  lemma {:induction false} BumpThrice(counts: map<Network, Count>, net: Network)
    ensures Bump(Bump(Bump(counts, net, 1, 0), net, -1, 0), net, 0, 1) == Bump(counts, net, 0, 1)
  {
  }

  /** A tried entry is introduced, taken off the count of new ones, and enters the tried table. */
  lemma {:induction false} AddTriedIs(e: Env, s: State, r: Record, news: nat, tries: nat)
    ensures var n := s.nIdCount; var c := Introduced(e, Sized(s, n, news, tries), r);
      n in c.info && Sized(AddTried(e, s, r), n + 1, news, tries + 1) == Try(e, Uncount(e, c, n), n)
  {
    var n := s.nIdCount;
    BumpThrice(s.counts, e.network(r.service));
    var c := Introduced(e, Sized(s, n, news, tries), r);
    assert c.info[n] == FromRecord(r, false, |s.random|);
    assert c.info[n := c.info[n].(inTried := true)] == s.info[n := FromRecord(r, true, |s.random|)];
  }

  lemma {:induction false} TriedKeeps(e: Env, s: State, r: Record, idle: set<int>)
    requires Coherent(e, s, {}, idle) && r.service !in s.index && s.nIdCount !in idle
    requires TriedSlot(e, r.service) !in s.tried
    ensures var c := Introduced(e, s, r);
      s.nIdCount in c.info && Coherent(e, Try(e, Uncount(e, c, s.nIdCount), s.nIdCount), {}, idle)
  {
    var n, c := s.nIdCount, Introduced(e, s, r);
    IntroducedKeeps(e, s, r, idle, idle + {n});
    UncountKeeps(e, c, n, {}, idle + {n});
    assert {} + {n} == {n} && idle + {n} - {n} == idle && {n} - {n} == {};
    TryKeeps(e, Uncount(e, c, n), n, {n}, idle);
  }

  /** What is known of the entries while tried ones are read. */
  ghost predicate HasEntries(e: Env, s: State, news: seq<Record>, tries: seq<Record>) {
    && |news| <= s.nIdCount && s.news == map[] && s.collisions == {}
    && (forall id :: id in s.info ==> 0 <= id < s.nIdCount && EntryFits(e, s.info[id], id, |news|))
    && (forall a :: a in s.index ==> Listed(a, news) || Listed(a, tries))
  }

  /** New entries have the first ids; tried ones are valid and have succeeded; none has a reference yet. */
  predicate EntryFits(e: Env, i: Info, id: int, n: nat) {
    && (id < n <==> !i.inTried) && (i.inTried ==> e.valid(i.service)) && i.refCount == 0 && TimeOk(i)
  }

  ghost predicate Listed(a: Service, rs: seq<Record>) {
    exists k :: 0 <= k < |rs| && rs[k].service == a
  }

  /** Times that can be kept: none before the epoch, and tried entries have succeeded. */
  predicate TimesFit(f: File) {
    && (forall k :: 0 <= k < |f.news| ==> f.news[k].lastSuccess >= 0)
    && (forall k :: 0 <= k < |f.tries| ==> f.tries[k].lastSuccess > 0)
  }

  lemma {:induction false} ListedMore(a: Service, front: seq<Record>, rs: seq<Record>)
    requires Listed(a, front) && |front| <= |rs| && front == rs[..|front|]
    ensures Listed(a, rs)
  {
    var k :| 0 <= k < |front| && front[k].service == a;
    assert rs[k].service == a;
  }

  lemma {:induction false} EntriesNext(
    e: Env, s: State, news: seq<Record>, rs: seq<Record>, front: seq<Record>, last: Record)
    requires rs == front + [last] && HasEntries(e, s, news, front) && last.lastSuccess > 0
    ensures HasEntries(e, s, news, rs)
    ensures e.valid(last.service) ==> HasEntries(e, AddTried(e, s, last), news, rs)
  {
    forall a | a in s.index ensures Listed(a, news) || Listed(a, rs) {
      if Listed(a, front) { ListedMore(a, front, rs); }
    }
    assert rs[|front|].service == last.service;
    assert Listed(last.service, rs);
  }

  ghost predicate NoneListedTwice(f: File) {
    DistinctRecords(f.news + f.tries)
  }

  lemma {:induction false} TriedUnknown(
    e: Env, s: State, news: seq<Record>, all: seq<Record>, rs: seq<Record>, front: seq<Record>, last: Record)
    requires DistinctRecords(all) && all == news + rs && rs == front + [last] && HasEntries(e, s, news, front)
    ensures last.service !in s.index
  {
    assert all[|news| + |front|] == last;
    forall k | 0 <= k < |news| ensures news[k].service != last.service {
      assert all[k] == news[k];
    }
    forall k | 0 <= k < |front| ensures front[k].service != last.service {
      assert all[|news| + k] == front[k];
    }
    assert !Listed(last.service, news) && !Listed(last.service, front);
  }

  /** The tried entries of a file; the others are counted as lost. */
  lemma {:induction false} TriesLoaded(
    e: Env, s: State, news: seq<Record>, rs: seq<Record>, all: seq<Record>, t: State, lost: nat)
    requires HasEntries(e, s, news, []) && Coherent(e, Sized(s, s.nIdCount, |news|, 0), {}, Below(|news|))
    requires all == news + rs && DistinctRecords(all) && (forall k :: 0 <= k < |rs| ==> rs[k].lastSuccess > 0)
    requires (t, lost) == LoadTried(e, s, rs)
    ensures lost <= |rs| && t.nNew == s.nNew && HasEntries(e, t, news, rs)
    ensures Coherent(e, Sized(t, t.nIdCount, |news|, |rs| - lost), {}, Below(|news|))
  {
    if rs != [] {
      var front, last := rs[..|rs| - 1], rs[|rs| - 1];
      var (q, before) := LoadTried(e, s, front);
      assert rs == front + [last];
      ShorterDistinct(news, rs, all, front, news + front);
      TriesLoaded(e, s, news, front, news + front, q, before);
      EntriesNext(e, q, news, rs, front, last);
      if !Lost(e, q, last) {
        TriedUnknown(e, q, news, all, rs, front, last);
        OneTried(e, q, last, |news|, |front| - before);
      }
    }
  }

  lemma {:induction false} ShorterDistinct(
    news: seq<Record>, rs: seq<Record>, all: seq<Record>, front: seq<Record>, less: seq<Record>)
    requires DistinctRecords(all) && all == news + rs && rs != [] && front == rs[..|rs| - 1] && less == news + front
    ensures DistinctRecords(less)
  {
    assert less == all[..|all| - 1];
  }

  lemma {:induction false} OneTried(e: Env, q: State, r: Record, n: nat, tries: nat)
    requires Coherent(e, Sized(q, q.nIdCount, n, tries), {}, Below(n)) && n <= q.nIdCount && r.service !in q.index
    requires TriedSlot(e, r.service) !in q.tried
    ensures var t := AddTried(e, q, r); Coherent(e, Sized(t, t.nIdCount, n, tries + 1), {}, Below(n))
  {
    AddTriedIs(e, q, r, n, tries);
    TriedKeeps(e, Sized(q, q.nIdCount, n, tries), r, Below(n));
  }

  /** All the entries of a file, before any new one has its slot. */
  lemma {:induction false} EntriesLoaded(e: Env, f: File, s: State)
    requires !Refused(f) && NoneListedTwice(f) && TimesFit(f) && s == Entries(e, f)
    ensures HasEntries(e, s, f.news, f.tries) && Coherent(e, s, {}, Below(|f.news|))
  {
    var start := Fresh().(nNew := f.nNew, nTried := f.nTried);
    var a := LoadNew(e, start, f.news);
    NewsDistinct(f);
    NewsLoaded(e, start, f.news, a);
    var b := a.(nIdCount := f.nNew);
    NewsAreEntries(e, f, a, b);
    assert Sized(b, b.nIdCount, |f.news|, 0) == Sized(a, |f.news|, |f.news|, 0);
    var (t, lost) := LoadTried(e, b, f.tries);
    TriesLoaded(e, b, f.news, f.tries, f.news + f.tries, t, lost);
    TotalsKept(e, start, f.news);
    assert s == Sized(t, t.nIdCount, |f.news|, |f.tries| - lost);
  }

  lemma {:induction false} TotalsKept(e: Env, s: State, rs: seq<Record>)
    ensures LoadNew(e, s, rs).nNew == s.nNew
  {
    if rs != [] {
      TotalsKept(e, s, rs[..|rs| - 1]);
    }
  }

  lemma {:induction false} NewsDistinct(f: File)
    requires NoneListedTwice(f)
    ensures DistinctRecords(f.news)
  {
    assert forall i :: 0 <= i < |f.news| ==> (f.news + f.tries)[i] == f.news[i];
  }

  lemma {:induction false} NewsAreEntries(e: Env, f: File, a: State, b: State)
    requires HasNews(a, f.news) && TimesFit(f) && b == a.(nIdCount := f.nNew) && f.nNew == |f.news|
    ensures HasEntries(e, b, f.news, [])
  {
    forall id | id in b.info ensures EntryFits(e, b.info[id], id, |f.news|) {
      assert b.info[id] == FromRecord(f.news[id], false, b.info[id].randomPos);
    }
  }

  // ---------------------------------------------------------------- slots

  /** Entries with the first n ids are new and valid once they have a reference; the others are tried and valid. */
  ghost predicate Placing(e: Env, s: State, n: nat) {
    s.collisions == {} && forall id :: id in s.info ==> PlacedWell(e, s.info[id], id, n)
  }

  predicate PlacedWell(e: Env, i: Info, id: int, n: nat) {
    (id < n <==> !i.inTried) && (i.inTried || i.refCount > 0 ==> e.valid(i.service)) && TimeOk(i)
  }

  lemma {:induction false} IdleMore(e: Env, s: State, idle: set<int>, more: set<int>)
    requires Coherent(e, s, {}, idle) && idle <= more
    ensures Coherent(e, s, {}, more)
  {
    forall id | id in s.info ensures RefsOk(s.info[id], id, SlotsOf(s.news, id), {}, more) {
      assert RefsOk(s.info[id], id, SlotsOf(s.news, id), {}, idle);
    }
  }

  lemma {:induction false} SlotForOk(e: Env, s: State, id: int, b: nat, restore: bool)
    requires id in s.info && !s.info[id].inTried
    ensures NewSlotOk(e, s.info, SlotFor(e, s, s.info[id], b, restore), id)
  {
  }

  lemma {:induction false} SlotOccupied(e: Env, s: State, slot: Slot, id: int, n: nat, r: State)
    requires Coherent(e, s, {}, Below(n)) && Placing(e, s, n) && id in s.info && e.valid(s.info[id].service)
    requires NewSlotOk(e, s.info, slot, id) && slot !in s.news && s.info[id].refCount < NEW_BUCKETS_PER_ADDRESS
    requires r == Occupy(s, slot, id)
    ensures Coherent(e, r, {}, Below(n)) && Placing(e, r, n)
  {
    OccupyKeeps(e, s, slot, id, {}, Below(n));
    IdleMore(e, r, Below(n) - {id}, Below(n));
    forall k | k in r.info ensures PlacedWell(e, r.info[k], k, n) {
      assert PlacedWell(e, s.info[k], k, n);
    }
  }

  /** One slot of a file: nothing changes, or a new and valid entry gets it. */
  lemma {:induction false} LoadSlotIs(e: Env, s: State, pair: (nat, int), restore: bool, r: State)
    requires r == LoadSlot(e, s, pair, restore) && r != s
    ensures var id := pair.1;
      && id in s.info && e.valid(s.info[id].service) && s.info[id].refCount < NEW_BUCKETS_PER_ADDRESS
      && var slot := SlotFor(e, s, s.info[id], pair.0, restore); slot !in s.news && r == Occupy(s, slot, id)
  {
  }

  lemma {:induction false} SlotLoaded(e: Env, s: State, pair: (nat, int), restore: bool, n: nat, r: State)
    requires Coherent(e, s, {}, Below(n)) && Placing(e, s, n) && 0 <= pair.1 < n && r == LoadSlot(e, s, pair, restore)
    ensures Coherent(e, r, {}, Below(n)) && Placing(e, r, n)
  {
    if r != s {
      var id := pair.1;
      LoadSlotIs(e, s, pair, restore, r);
      assert PlacedWell(e, s.info[id], id, n);
      var slot := SlotFor(e, s, s.info[id], pair.0, restore);
      SlotForOk(e, s, id, pair.0, restore);
      SlotOccupied(e, s, slot, id, n, r);
    }
  }

  ghost predicate PairsBelow(pairs: seq<(nat, int)>, n: int) {
    forall k :: 0 <= k < |pairs| ==> 0 <= pairs[k].1 < n
  }

  lemma {:induction false} RowPairsBelow(row: seq<int>, b: nat, n: int)
    ensures PairsBelow(RowPairs(row, b, n), n)
  {
    if row != [] {
      RowPairsBelow(row[..|row| - 1], b, n);
    }
  }

  lemma {:induction false} AllPairsBelow(rows: seq<seq<int>>, n: int)
    ensures PairsBelow(Pairs(rows, n), n)
  {
    if rows != [] {
      AllPairsBelow(rows[..|rows| - 1], n);
      RowPairsBelow(rows[|rows| - 1], |rows| - 1, n);
    }
  }

  lemma {:induction false} SlotsLoaded(e: Env, s: State, pairs: seq<(nat, int)>, restore: bool, n: nat, r: State)
    requires Coherent(e, s, {}, Below(n)) && Placing(e, s, n) && PairsBelow(pairs, n)
    requires r == LoadSlots(e, s, pairs, restore)
    ensures Coherent(e, r, {}, Below(n)) && Placing(e, r, n)
  {
    if pairs != [] {
      var front, last := pairs[..|pairs| - 1], pairs[|pairs| - 1];
      var q := LoadSlots(e, s, front, restore);
      SlotsLoaded(e, s, front, restore, n, q);
      LastSlot(e, s, pairs, restore, front, last, q, r);
      SlotLoaded(e, q, last, restore, n, r);
    }
  }

  lemma {:induction false} LastSlot(
    e: Env, s: State, pairs: seq<(nat, int)>, restore: bool, front: seq<(nat, int)>, last: (nat, int),
    q: State, r: State)
    requires pairs != [] && front == pairs[..|pairs| - 1] && last == pairs[|pairs| - 1]
    requires q == LoadSlots(e, s, front, restore) && r == LoadSlots(e, s, pairs, restore)
    ensures r == LoadSlot(e, q, last, restore)
  {
  }

  // ---------------------------------------------------------------- pruning

  lemma {:induction false} PruneOneKeeps(e: Env, s: State, id: int, n: nat, r: State)
    requires Coherent(e, s, {}, Below(n)) && Placing(e, s, n) && r == PruneOne(e, s, id)
    ensures Coherent(e, r, {}, Below(n)) && Placing(e, r, n) && !Unreferenced(r, id)
    ensures forall k :: !Unreferenced(s, k) ==> !Unreferenced(r, k)
    ensures r.info.Keys <= s.info.Keys
  {
    if Unreferenced(s, id) {
      DeleteKeeps(e, s, id, {}, Below(n));
      IdleMore(e, r, Below(n) - {id}, Below(n));
      DeletedRest(e, s, id, n, r);
    }
  }

  lemma {:induction false} DeletedRest(e: Env, s: State, id: int, n: nat, r: State)
    requires RandomOk(s.info, s.random) && Placing(e, s, n) && id in s.info && r == Delete(e, s, id)
    ensures Placing(e, r, n) && id !in r.info && r.info.Keys <= s.info.Keys
    ensures forall k :: !Unreferenced(s, k) ==> !Unreferenced(r, k)
  {
    assert r.info.Keys == s.info.Keys - {id};
    forall k | k in r.info ensures PlacedWell(e, r.info[k], k, n) && k in s.info && SameEntry(s.info[k], r.info[k]) {
      assert k in r.info.Keys;
      assert PlacedWell(e, s.info[k], k, n);
      DeleteFrame(e, s, id, k);
    }
  }

  lemma {:induction false} Pruned(e: Env, s: State, walk: seq<int>, n: nat, r: State)
    requires Coherent(e, s, {}, Below(n)) && Placing(e, s, n) && r == Prune(e, s, walk)
    ensures Coherent(e, r, {}, Below(n)) && Placing(e, r, n)
    ensures forall k :: k in walk || !Unreferenced(s, k) ==> !Unreferenced(r, k)
    ensures r.info.Keys <= s.info.Keys
  {
    if walk != [] {
      var front, last := walk[..|walk| - 1], walk[|walk| - 1];
      assert walk == front + [last];
      var q := Prune(e, s, front);
      Pruned(e, s, front, n, q);
      PruneOneKeeps(e, q, last, n, r);
    }
  }

  /** Once no entry is without reference, the manager is consistent. */
  lemma {:induction false} AllSettled(e: Env, s: State, n: nat)
    requires Coherent(e, s, {}, Below(n)) && Placing(e, s, n) && forall id :: !Unreferenced(s, id)
    ensures Consistent(e, s) && AddrManRestore.AllValid(e, s.info)
  {
    forall id | id in s.info
      ensures RefsOk(s.info[id], id, SlotsOf(s.news, id), {}, {}) && TimeOk(s.info[id])
      ensures AddrManRestore.Valid(e, s.info[id])
    {
      assert RefsOk(s.info[id], id, SlotsOf(s.news, id), {}, Below(n));
      assert PlacedWell(e, s.info[id], id, n);
      assert !Unreferenced(s, id);
    }
  }

  // ---------------------------------------------------------------- every file

  lemma {:induction false} EntriesPlacing(e: Env, f: File, s: State)
    requires HasEntries(e, s, f.news, f.tries)
    ensures Placing(e, s, |f.news|)
  {
    forall id | id in s.info ensures PlacedWell(e, s.info[id], id, |f.news|) {
      assert EntryFits(e, s.info[id], id, |f.news|);
    }
  }

  /**
   A file that is not refused, lists no address twice and has plausible times loads, for every
   placement of addresses and every checksum; all the addresses that remain are valid.
   */
  lemma {:induction false} FileLoads(e: Env, f: File, checksum: nat, walk: seq<int>)
    requires !Refused(f) && NoneListedTwice(f) && TimesFit(f)
    requires forall id :: 0 <= id < |f.news| ==> id in walk
    ensures Read(e, f, checksum, walk).Loaded?
    ensures AddrManRestore.AllValid(e, Read(e, f, checksum, walk).state.info)
  {
    var n, s := |f.news|, Entries(e, f);
    EntriesLoaded(e, f, s);
    EntriesPlacing(e, f, s);
    AllPairsBelow(f.rows, f.nNew);
    var t := LoadSlots(e, s, Pairs(f.rows, f.nNew), Restores(f, checksum));
    SlotsLoaded(e, s, Pairs(f.rows, f.nNew), Restores(f, checksum), n, t);
    var r := Prune(e, t, walk);
    Pruned(e, t, walk, n, r);
    NothingLeft(e, t, r, n, walk);
    AllSettled(e, r, n);
    ConsistentPasses(e, r);
  }

  lemma {:induction false} NothingLeft(e: Env, t: State, r: State, n: nat, walk: seq<int>)
    requires Placing(e, t, n) && (forall id :: 0 <= id < n ==> id in walk)
    requires IndexOk(t.info, t.index, t.nIdCount)
    requires forall k :: k in walk || !Unreferenced(t, k) ==> !Unreferenced(r, k)
    ensures forall id :: !Unreferenced(r, id)
  {
    forall id ensures !Unreferenced(r, id) {
      if Unreferenced(t, id) {
        assert PlacedWell(e, t.info[id], id, n);
        assert 0 <= id < n;
      }
    }
  }

  // ---------------------------------------------------------------- files of a manager

  lemma {:induction false} TimeAt(info: map<int, Info>, id: int)
    requires TimesOk(info) && id in info
    ensures info[id].lastSuccess >= 0 && (info[id].inTried ==> info[id].lastSuccess > 0)
  {
    assert TimeOk(info[id]);
  }

  lemma {:induction false} TriedAt(info: map<int, Info>, ids: seq<int>, k: nat)
    requires Known(info, ids) && k < |ids| && forall id :: id in ids ==> id in info && info[id].inTried
    ensures ids[k] in info && info[ids[k]].inTried
  {
    var id := ids[k];
    assert id in ids;
    assert id in info && info[id].inTried;
  }

  lemma {:induction false} NewTimes(info: map<int, Info>, ids: seq<int>, rs: seq<Record>)
    requires TimesOk(info) && Known(info, ids) && rs == Records(info, ids)
    ensures forall k :: 0 <= k < |rs| ==> rs[k].lastSuccess >= 0
  {
    AddrManRestore.RecordsAt(info, ids);
    forall k | 0 <= k < |rs| ensures rs[k].lastSuccess >= 0 {
      assert rs[k] == ToRecord(info[ids[k]]);
      TimeAt(info, ids[k]);
    }
  }

  lemma {:induction false} TriedTimes(info: map<int, Info>, ids: seq<int>, rs: seq<Record>)
    requires TimesOk(info) && Known(info, ids) && rs == Records(info, ids)
    requires forall id :: id in ids ==> id in info && info[id].inTried
    ensures forall k :: 0 <= k < |rs| ==> rs[k].lastSuccess > 0
  {
    AddrManRestore.RecordsAt(info, ids);
    forall k | 0 <= k < |rs| ensures rs[k].lastSuccess > 0 {
      TriedAt(info, ids, k);
      assert rs[k] == ToRecord(info[ids[k]]);
      TimeAt(info, ids[k]);
    }
  }

  lemma {:induction false} WrittenKinds(e: Env, s: State, ids: seq<int>, known: seq<int>, tries: seq<int>)
    requires Consistent(e, s) && AddrManRestore.Lists(s.info, ids)
    requires known == NewsIn(s.info, ids) && tries == TriesIn(s.info, ids)
    ensures AddrManGetAddr.Distinct(known) && AddrManGetAddr.Distinct(tries)
    ensures forall id :: id in known ==> id !in tries
    ensures forall id :: id in tries ==> id in s.info && s.info[id].inTried
  {
    AddrManRestore.SizesSaved(e, s, ids);
    AddrManRestore.NewsFacts(s.info, ids);
    AddrManRestore.TriesFacts(s.info, ids);
  }

  lemma {:induction false} ServiceAt(info: map<int, Info>, ids: seq<int>, rs: seq<Record>, k: nat)
    requires Known(info, ids) && rs == Records(info, ids) && k < |rs|
    ensures |rs| == |ids| && ids[k] in info && rs[k].service == info[ids[k]].service
  {
    AddrManRestore.RecordsAt(info, ids);
  }

  lemma {:induction false} ServicesDiffer(s: State, a: int, b: int)
    requires IndexOk(s.info, s.index, s.nIdCount) && a in s.info && b in s.info && a != b
    ensures s.info[a].service != s.info[b].service
  {
    assert s.index[s.info[a].service] == a && s.index[s.info[b].service] == b;
  }

  lemma {:induction false} RecordsDiffer(s: State, ids: seq<int>, rs: seq<Record>)
    requires IndexOk(s.info, s.index, s.nIdCount) && Known(s.info, ids) && AddrManGetAddr.Distinct(ids)
    requires rs == Records(s.info, ids)
    ensures DistinctRecords(rs)
  {
    forall i, j | 0 <= i < j < |rs| ensures rs[i].service != rs[j].service {
      ServiceAt(s.info, ids, rs, i);
      ServiceAt(s.info, ids, rs, j);
      ServicesDiffer(s, ids[i], ids[j]);
    }
  }

  lemma {:induction false} RecordsJoin(info: map<int, Info>, a: seq<int>, b: seq<int>)
    requires Known(info, a) && Known(info, b)
    ensures Known(info, a + b) && Records(info, a + b) == Records(info, a) + Records(info, b)
  {
    AddrManRestore.RecordsAt(info, a);
    AddrManRestore.RecordsAt(info, b);
    AddrManRestore.RecordsAt(info, a + b);
  }

  lemma {:induction false} WrittenFits(e: Env, s: State, ids: seq<int>, checksum: nat, f: File)
    requires Consistent(e, s) && AddrManRestore.Lists(s.info, ids) && f == Write(s, ids, checksum)
    ensures !Refused(f) && NoneListedTwice(f) && TimesFit(f) && |f.news| == s.nNew
  {
    var known, tries := NewsIn(s.info, ids), TriesIn(s.info, ids);
    AddrManRestore.SizesSaved(e, s, ids);
    AddrManRestore.NotRefused(e, s, ids, checksum, f);
    WrittenKinds(e, s, ids, known, tries);
    NewTimes(s.info, known, f.news);
    TriedTimes(s.info, tries, f.tries);
    AddrManRestore.DistinctSum(known, tries);
    RecordsJoin(s.info, known, tries);
    RecordsDiffer(s, known + tries, f.news + f.tries);
  }

  /**
   What a consistent manager has written loads wherever it is read: `other` may place addresses in any
   other way and have any checksum. Entries may be dropped, but the file is never refused.
   */
  lemma {:induction false} WrittenLoads(
    e: Env, s: State, ids: seq<int>, checksum: nat, other: Env, otherChecksum: nat, walk: seq<int>)
    requires Consistent(e, s) && AddrManRestore.Lists(s.info, ids) && forall id :: 0 <= id < s.nNew ==> id in walk
    ensures var result := Read(other, Write(s, ids, checksum), otherChecksum, walk);
      result.Loaded? && Consistent(other, result.state) && AddrManRestore.AllValid(other, result.state.info)
  {
    var f := Write(s, ids, checksum);
    WrittenFits(e, s, ids, checksum, f);
    FileLoads(other, f, otherChecksum, walk);
    LoadedIsConsistent(other, f, otherChecksum, walk);
  }
}
