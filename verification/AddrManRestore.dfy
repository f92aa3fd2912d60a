/**
 Saving a consistent manager and loading it again loses nothing: every entry comes back, in the
 same slots of both tables, with the same reference counts and counters. Only the ids change.
 */
module AddrManRestore {
  import opened AddrMan
  import opened AddrManInvariant
  import opened AddrManGetAddr
  import AddrManImpls
  import opened AddrManCheck
  import opened AddrManFile
  import opened AddrManRuns
  import opened AddrManEvolution

  // ---------------------------------------------------------------- what is saved

  /** `ids` lists each entry once. */
  ghost predicate Lists(info: map<int, Info>, ids: seq<int>) {
    Distinct(ids) && forall id :: id in ids <==> id in info
  }

  predicate Valid(e: Env, i: Info) {
    e.valid(i.service)
  }

  ghost predicate AllValid(e: Env, info: map<int, Info>) {
    forall id :: id in info ==> Valid(e, info[id])
  }

  lemma {:induction false} ValidAt(e: Env, info: map<int, Info>, id: int)
    requires AllValid(e, info) && id in info
    ensures Valid(e, info[id])
  {
  }

  /** The entries as a file numbers them: `all[k]` gets the id k. */
  ghost predicate Saved(e: Env, s: State, all: seq<int>, n: nat) {
    var good := Consistent(e, s);
    && good && n <= |all| && Lists(s.info, all)
    && (forall k :: 0 <= k < |all| ==> all[k] in s.info && (s.info[all[k]].inTried <==> k >= n))
    && AllValid(e, s.info)
  }

  lemma {:induction false} NewsFacts(info: map<int, Info>, ids: seq<int>)
    requires Distinct(ids)
    ensures Distinct(NewsIn(info, ids))
    ensures forall id :: id in NewsIn(info, ids) <==> id in ids && id in info && info[id].refCount != 0
  {
    if ids != [] {
      var front, last := ids[..|ids| - 1], ids[|ids| - 1];
      NewsFacts(info, front);
      assert ids == front + [last];
      assert last !in front;
    }
  }

  lemma {:induction false} TriesFacts(info: map<int, Info>, ids: seq<int>)
    requires Distinct(ids)
    ensures Distinct(TriesIn(info, ids))
    ensures forall id :: id in TriesIn(info, ids) <==> id in ids && id in info && info[id].inTried
  {
    if ids != [] {
      var front, last := ids[..|ids| - 1], ids[|ids| - 1];
      TriesFacts(info, front);
      assert ids == front + [last];
      assert last !in front;
    }
  }

  /** In a consistent manager an entry is new exactly if it has references. */
  lemma {:induction false} NewIsReferenced(e: Env, s: State, id: int)
    requires Consistent(e, s) && id in s.info
    ensures s.info[id].refCount != 0 <==> !s.info[id].inTried
  {
    assert RefsOk(s.info[id], id, SlotsOf(s.news, id), {}, {});
  }

  lemma {:induction false} DistinctSum(a: seq<int>, b: seq<int>)
    requires Distinct(a) && Distinct(b) && forall k :: k in a ==> k !in b
    ensures Distinct(a + b)
  {
    forall i, j | 0 <= i < j < |a + b| ensures (a + b)[i] != (a + b)[j] {
      assert i < |a| ==> a[i] in a;
      assert j >= |a| ==> b[j - |a|] in b;
    }
  }

  /** As many entries of each kind are written as the counters say. */
  lemma {:induction false} SizesSaved(e: Env, s: State, ids: seq<int>)
    requires Consistent(e, s) && Lists(s.info, ids)
    ensures |NewsIn(s.info, ids)| == s.nNew && |TriesIn(s.info, ids)| == s.nTried
    ensures forall id :: id in s.info ==> (id in NewsIn(s.info, ids) <==> !s.info[id].inTried)
  {
    var known, tries := NewsIn(s.info, ids), TriesIn(s.info, ids);
    NewsFacts(s.info, ids);
    TriesFacts(s.info, ids);
    forall id | id in s.info ensures id in known <==> !s.info[id].inTried { NewIsReferenced(e, s, id); }
    DistinctCount(known, NewIds(s.info, {}));
    DistinctCount(tries, TriedIds(s.info));
  }

  lemma {:induction false} SavedAll(e: Env, s: State, ids: seq<int>)
    requires Consistent(e, s) && Lists(s.info, ids) && AllValid(e, s.info)
    ensures var known, tries := NewsIn(s.info, ids), TriesIn(s.info, ids);
      Saved(e, s, known + tries, |known|) && |known| == s.nNew && |tries| == s.nTried
  {
    var known, tries := NewsIn(s.info, ids), TriesIn(s.info, ids);
    NewsFacts(s.info, ids);
    TriesFacts(s.info, ids);
    SizesSaved(e, s, ids);
    DistinctSum(known, tries);
    SumIndices(known, tries, known + tries);
  }

  lemma {:induction false} SumIndices(a: seq<int>, b: seq<int>, all: seq<int>)
    requires all == a + b
    ensures forall k :: 0 <= k < |all| ==> if k < |a| then all[k] in a else all[k] in b
    ensures forall id :: id in all <==> id in a || id in b
  {
  }

  /** Two entries have different addresses, and two tried entries different slots. */
  lemma {:induction false} Apart(e: Env, s: State, all: seq<int>, n: nat, i: nat, j: nat)
    requires Saved(e, s, all, n) && i < |all| && j < |all| && i != j
    ensures all[i] != all[j] && s.info[all[i]].service != s.info[all[j]].service
    ensures i >= n && j >= n ==> TriedSlot(e, s.info[all[i]].service) != TriedSlot(e, s.info[all[j]].service)
  {
    assert if i < j then all[i] != all[j] else all[j] != all[i];
    assert s.index[s.info[all[i]].service] == all[i] && s.index[s.info[all[j]].service] == all[j];
  }

  lemma {:induction false} RecordsAt(info: map<int, Info>, ids: seq<int>)
    requires Known(info, ids)
    ensures |Records(info, ids)| == |ids|
    ensures forall k :: 0 <= k < |ids| ==> Records(info, ids)[k] == ToRecord(info[ids[k]])
  {
    if ids != [] {
      RecordsAt(info, ids[..|ids| - 1]);
    }
  }

  lemma {:induction false} PlaceOf(ids: seq<int>, k: nat)
    requires Distinct(ids) && k < |ids|
    ensures PlaceIn(ids, ids[k]) == k
  {
    if k < |ids| - 1 {
      PlaceOf(ids[..|ids| - 1], k);
    }
  }

  // ---------------------------------------------------------------- the entries

  /** An entry as it comes back: what is kept in memory only starts afresh. */
  function Blank(i: Info, k: int): Info {
    FromRecord(ToRecord(i), i.inTried, k)
  }

  ghost predicate InfoLoaded(s: State, all: seq<int>, n: nat, info: map<int, Info>)
    requires n <= |all| && Known(s.info, all)
  {
    && (forall k :: k in info <==> 0 <= k < n)
    && (forall k :: 0 <= k < n ==> info[k] == Blank(s.info[all[k]], k))
  }

  ghost predicate IndexLoaded(s: State, all: seq<int>, n: nat, index: map<Service, int>)
    requires n <= |all| && Known(s.info, all)
  {
    && (forall k :: 0 <= k < n ==> s.info[all[k]].service in index && index[s.info[all[k]].service] == k)
    && (forall a :: a in index ==> 0 <= index[a] < n && s.info[all[index[a]]].service == a)
  }

  ghost predicate TriedLoaded(e: Env, s: State, all: seq<int>, n: nat, tried: Table)
    requires n <= |all| && Known(s.info, all)
  {
    && (forall k :: 0 <= k < n && s.info[all[k]].inTried ==>
          var slot := TriedSlot(e, s.info[all[k]].service); slot in tried && tried[slot] == k)
    && (forall slot :: slot in tried ==>
          && 0 <= tried[slot] < n && s.info[all[tried[slot]]].inTried
          && slot == TriedSlot(e, s.info[all[tried[slot]]].service))
  }

  ghost predicate RandomLoaded(n: nat, random: seq<int>) {
    |random| == n && forall k :: 0 <= k < n ==> random[k] == k
  }

  /** The first n entries have been loaded, and no slots of the new table yet. */
  ghost predicate Loading(e: Env, s: State, all: seq<int>, n: nat, r: State) {
    var known := n <= |all| && Known(s.info, all);
    && known && InfoLoaded(s, all, n, r.info) && IndexLoaded(s, all, n, r.index) && RandomLoaded(n, r.random)
    && TriedLoaded(e, s, all, n, r.tried) && r.news == map[] && r.collisions == {}
    && NetsOk(e, r.info, r.counts, NewIds(r.info, {}), TriedIds(r.info))
  }

  /** The n-th entry is valid and shares neither its address nor its tried slot with the earlier ones. */
  ghost predicate Newcomer(e: Env, s: State, all: seq<int>, n: nat) {
    var known := n < |all| && Known(s.info, all);
    known &&
    var i := s.info[all[n]];
    && Valid(e, i)
    && (forall k :: 0 <= k < n ==> s.info[all[k]].service != i.service)
    && (forall k :: 0 <= k < n && s.info[all[k]].inTried && i.inTried ==>
          TriedSlot(e, s.info[all[k]].service) != TriedSlot(e, i.service))
  }

  lemma {:induction false} IsNewcomer(e: Env, s: State, all: seq<int>, known: nat, n: nat)
    requires Saved(e, s, all, known) && n < |all|
    ensures Newcomer(e, s, all, n) && (s.info[all[n]].inTried <==> n >= known)
  {
    forall k | 0 <= k < n
      ensures s.info[all[k]].service != s.info[all[n]].service
      ensures s.info[all[k]].inTried && s.info[all[n]].inTried ==>
        TriedSlot(e, s.info[all[k]].service) != TriedSlot(e, s.info[all[n]].service)
    {
      Apart(e, s, all, known, k, n);
    }
    ValidAt(e, s.info, all[n]);
  }

  /** What loading relies on. */
  ghost predicate Listed(e: Env, s: State, all: seq<int>, known: nat) {
    var some := known <= |all|;
    some && forall n :: 0 <= n < |all| ==> Newcomer(e, s, all, n) && (s.info[all[n]].inTried <==> n >= known)
  }

  lemma {:induction false} SavedListed(e: Env, s: State, all: seq<int>, known: nat)
    requires Saved(e, s, all, known)
    ensures Listed(e, s, all, known)
  {
    forall n | 0 <= n < |all| ensures Newcomer(e, s, all, n) && (s.info[all[n]].inTried <==> n >= known) {
      IsNewcomer(e, s, all, known, n);
    }
  }

  lemma {:induction false} IndexStep(e: Env, s: State, all: seq<int>, n: nat, index: map<Service, int>, a: Service)
    requires Newcomer(e, s, all, n) && IndexLoaded(s, all, n, index) && a == s.info[all[n]].service
    ensures IndexLoaded(s, all, n + 1, index[a := n])
  {
  }

  lemma {:induction false} TriedStep(e: Env, s: State, all: seq<int>, n: nat, tried: Table, slot: Slot)
    requires Newcomer(e, s, all, n) && s.info[all[n]].inTried && TriedLoaded(e, s, all, n, tried)
    requires slot == TriedSlot(e, s.info[all[n]].service)
    ensures slot !in tried && TriedLoaded(e, s, all, n + 1, tried[slot := n])
  {
  }

  lemma {:induction false} NetsStep(
    e: Env, info: map<int, Info>, counts: map<Network, Count>, id: int, i: Info, after: map<int, Info>)
    requires NetsOk(e, info, counts, NewIds(info, {}), TriedIds(info)) && id !in info && after == info[id := i]
    ensures NetsOk(e, after, Bump(counts, e.network(i.service), if i.inTried then 0 else 1, if i.inTried then 1 else 0),
                   NewIds(after, {}), TriedIds(after))
  {
    var news, tries := NewIds(info, {}), TriedIds(info);
    NetsAfterCreate(e, info, counts, news, tries, id, i);
    if i.inTried {
      TriedMore(e, after, counts, news, tries, id);
      assert NewIds(after, {}) == news && TriedIds(after) == tries + {id};
    } else {
      NewMore(e, after, counts, news, tries, id);
      assert NewIds(after, {}) == news + {id} && TriedIds(after) == tries;
    }
  }

  lemma {:induction false} NewStep(e: Env, s: State, all: seq<int>, n: nat, r: State)
    requires Newcomer(e, s, all, n) && !s.info[all[n]].inTried && Loading(e, s, all, n, r)
    ensures Loading(e, s, all, n + 1, AddNew(e, r, n, ToRecord(s.info[all[n]])))
  {
    var i := s.info[all[n]];
    var blank := Blank(i, n);
    IndexStep(e, s, all, n, r.index, i.service);
    NetsStep(e, r.info, r.counts, n, blank, r.info[n := blank]);
  }

  lemma {:induction false} TriedNext(e: Env, s: State, all: seq<int>, n: nat, r: State)
    requires Newcomer(e, s, all, n) && s.info[all[n]].inTried && Loading(e, s, all, n, r) && r.nIdCount == n
    ensures !Lost(e, r, ToRecord(s.info[all[n]]))
    ensures Loading(e, s, all, n + 1, AddTried(e, r, ToRecord(s.info[all[n]])))
  {
    var i := s.info[all[n]];
    var blank := Blank(i, n);
    IndexStep(e, s, all, n, r.index, i.service);
    TriedStep(e, s, all, n, r.tried, TriedSlot(e, i.service));
    NetsStep(e, r.info, r.counts, n, blank, r.info[n := blank]);
  }

  ghost predicate Header(s: State, r: State, n: int) {
    r.nNew == s.nNew && r.nTried == s.nTried && r.nIdCount == n && r.lastGood == 1
  }

  ghost predicate LoadedTo(e: Env, s: State, all: seq<int>, n: nat, r: State, ids: int) {
    var loading, header := Loading(e, s, all, n, r), Header(s, r, ids);
    loading && header
  }

  /** A part of the records of the entries, from a place on. */
  ghost predicate RecordsOf(s: State, all: seq<int>, from: nat, rs: seq<Record>) {
    var fits := from + |rs| <= |all| && Known(s.info, all);
    fits && forall k :: 0 <= k < |rs| ==> rs[k] == ToRecord(s.info[all[from + k]])
  }

  ghost predicate Source(e: Env, s: State, all: seq<int>, known: nat, from: nat, rs: seq<Record>) {
    var listed, records := Listed(e, s, all, known), RecordsOf(s, all, from, rs);
    listed && records
  }

  lemma {:induction false} NothingLoaded(e: Env, s: State, all: seq<int>, start: State)
    requires Known(s.info, all) && start == Fresh().(nNew := s.nNew, nTried := s.nTried)
    ensures LoadedTo(e, s, all, 0, start, 0)
  {
    assert NewIds(start.info, {}) == {} && TriedIds(start.info) == {};
    assert forall net :: OnNet(e, start.info, {}, net) == {};
  }

  lemma {:induction false} LoadNewLast(
    e: Env, s: State, all: seq<int>, known: nat, rs: seq<Record>, n: nat, ids: int, q: State, r: State)
    requires Source(e, s, all, known, 0, rs) && n + 1 == |rs| <= known && LoadedTo(e, s, all, n, q, ids)
    requires r == AddNew(e, q, n, rs[n])
    ensures LoadedTo(e, s, all, |rs|, r, ids)
  {
    assert Newcomer(e, s, all, n) && rs[n] == ToRecord(s.info[all[n]]);
    NewStep(e, s, all, n, q);
  }

  lemma {:induction false} LoadNewBack(
    e: Env, s: State, all: seq<int>, known: nat, rs: seq<Record>, ids: int, start: State, r: State)
    requires Source(e, s, all, known, 0, rs) && |rs| <= known && LoadedTo(e, s, all, 0, start, ids)
    requires r == LoadNew(e, start, rs)
    ensures LoadedTo(e, s, all, |rs|, r, ids)
  {
    if rs != [] {
      var n := |rs| - 1;
      var q := LoadNew(e, start, rs[..n]);
      SourceFront(e, s, all, known, 0, rs, n);
      LoadNewBack(e, s, all, known, rs[..n], ids, start, q);
      LoadNewLast(e, s, all, known, rs, n, ids, q, r);
    }
  }

  lemma {:induction false} SourceFront(e: Env, s: State, all: seq<int>, known: nat, from: nat, rs: seq<Record>, n: nat)
    requires Source(e, s, all, known, from, rs) && n <= |rs|
    ensures Source(e, s, all, known, from, rs[..n])
  {
  }

  lemma {:induction false} LoadTriedLast(
    e: Env, s: State, all: seq<int>, known: nat, rs: seq<Record>, n: nat, at: nat, q: State, next: nat)
    requires Source(e, s, all, known, known, rs) && n + 1 == |rs| && at == known + n && next == at + 1
    requires LoadedTo(e, s, all, at, q, at)
    ensures !Lost(e, q, rs[n]) && LoadedTo(e, s, all, next, AddTried(e, q, rs[n]), next)
  {
    assert Newcomer(e, s, all, at) && rs[n] == ToRecord(s.info[all[known + n]]);
    TriedNext(e, s, all, at, q);
  }

  lemma {:induction false} LoadTriedSplits(
    e: Env, start: State, rs: seq<Record>, n: nat, q: State, before: nat, r: State, lost: nat)
    requires n + 1 == |rs| && (q, before) == LoadTried(e, start, rs[..n]) && (r, lost) == LoadTried(e, start, rs)
    requires !Lost(e, q, rs[n])
    ensures r == AddTried(e, q, rs[n]) && lost == before
  {
  }

  lemma {:induction false} LoadTriedBack(
    e: Env, s: State, all: seq<int>, known: nat, rs: seq<Record>, start: State, next: nat, r: State, lost: nat)
    requires Source(e, s, all, known, known, rs) && LoadedTo(e, s, all, known, start, known) && next == known + |rs|
    requires (r, lost) == LoadTried(e, start, rs)
    ensures lost == 0
    ensures LoadedTo(e, s, all, next, r, next)
  {
    if rs != [] {
      var n := |rs| - 1;
      var at := known + n;
      var (q, before) := LoadTried(e, start, rs[..n]);
      SourceFront(e, s, all, known, known, rs, n);
      LoadTriedBack(e, s, all, known, rs[..n], start, at, q, before);
      LoadTriedLast(e, s, all, known, rs, n, at, q, next);
      LoadTriedSplits(e, start, rs, n, q, before, r, lost);
    }
  }

  lemma {:induction false} Renumbered(e: Env, s: State, all: seq<int>, n: nat, r: State, t: State, was: int, now: int)
    requires LoadedTo(e, s, all, n, r, was) && t == r.(nIdCount := now, nTried := s.nTried)
    ensures LoadedTo(e, s, all, n, t, now)
  {
  }

  lemma {:induction false} EntriesBack(
    e: Env, s: State, all: seq<int>, known: nat, f: File, start: State, news: State, next: State, r: State)
    requires Source(e, s, all, known, 0, f.news) && Source(e, s, all, known, known, f.tries)
    requires f.nNew == s.nNew == known == |f.news| && f.nTried == s.nTried == |all| - known == |f.tries|
    requires start == Fresh().(nNew := f.nNew, nTried := f.nTried) && news == LoadNew(e, start, f.news)
    requires next == news.(nIdCount := f.nNew) && r == Entries(e, f)
    ensures LoadedTo(e, s, all, |all|, r, |all|)
  {
    NothingLoaded(e, s, all, start);
    LoadNewBack(e, s, all, known, f.news, 0, start, news);
    Renumbered(e, s, all, known, news, next, 0, known);
    var (last, lost) := LoadTried(e, next, f.tries);
    LoadTriedBack(e, s, all, known, f.tries, next, |all|, last, lost);
    Renumbered(e, s, all, |all|, last, r, |all|, |all|);
  }

  // ---------------------------------------------------------------- the new table

  /** An entry that has come back, with some of its references. */
  function Counted(i: Info, k: int, refs: int): Info {
    Info(i.service, i.source, i.time, i.services, 0, 0, i.lastSuccess, i.attempts, refs, i.inTried, k)
  }

  /** The entries with the references from slots before (n, i). */
  ghost predicate InfoBack(s: State, all: seq<int>, n: nat, i: nat, info: map<int, Info>) {
    && Known(s.info, all) && (forall k :: k in info <==> 0 <= k < |all|)
    && (forall k :: 0 <= k < |all| ==>
          info[k] == Counted(s.info[all[k]], k, if s.info[all[k]].inTried then 0 else |Seen(s.news, all[k], n, i)|))
  }

  /** The slots before (n, i) are back. */
  ghost predicate SlotsBack(s: State, all: seq<int>, n: nat, i: nat, news: Table) {
    && (forall slot :: slot in news <==> slot in s.news && Before(slot, n, i))
    && (forall slot :: slot in news ==> 0 <= news[slot] < |all| && all[news[slot]] == s.news[slot])
  }

  ghost predicate Placing(s: State, all: seq<int>, n: nat, i: nat, start: State, r: State) {
    var same := r == start.(info := r.info, news := r.news);
    same && InfoBack(s, all, n, i, r.info) && SlotsBack(s, all, n, i, r.news)
  }

  lemma {:induction false} PlacingStarts(e: Env, s: State, all: seq<int>, start: State)
    requires Loading(e, s, all, |all|, start)
    ensures Placing(s, all, 0, 0, start, start)
  {
    forall k | 0 <= k < |all| ensures |Seen(s.news, all[k], 0, 0)| == 0 {
      assert Seen(s.news, all[k], 0, 0) == {};
    }
  }

  lemma {:induction false} PlacingSkips(s: State, all: seq<int>, n: nat, i: nat, start: State, r: State)
    requires Placing(s, all, n, i, start, r) && Slot(n, i) !in s.news
    ensures Placing(s, all, n, i + 1, start, r)
  {
    BeforeNext(n, i, i + 1);
    forall k | 0 <= k < |all| ensures Seen(s.news, all[k], n, i + 1) == Seen(s.news, all[k], n, i) {
      SeenNext(s.news, all[k], n, i);
    }
  }

  lemma {:induction false} NewsWithin(e: Env, s: State)
    requires Consistent(e, s)
    ensures Within(s.news, NEW_BUCKET_COUNT)
  {
    forall slot | slot in s.news ensures slot.bucket < NEW_BUCKET_COUNT && slot.pos < BUCKET_SIZE {
      assert NewSlotOk(e, s.info, slot, s.news[slot]);
    }
  }

  lemma {:induction false} PlacingRow(s: State, all: seq<int>, n: nat, start: State, r: State)
    requires Within(s.news, NEW_BUCKET_COUNT) && Placing(s, all, n, BUCKET_SIZE, start, r)
    ensures Placing(s, all, n + 1, 0, start, r)
  {
    forall slot | slot in s.news ensures Before(slot, n + 1, 0) <==> Before(slot, n, BUCKET_SIZE) {
    }
    forall k | 0 <= k < |all| ensures Seen(s.news, all[k], n + 1, 0) == Seen(s.news, all[k], n, BUCKET_SIZE) {
    }
  }

  /** An occupied slot is where its entry's hash puts it, and not all its references come before. */
  lemma {:induction false} SlotPlaced(e: Env, s: State, n: nat, i: nat, id: int)
    requires Consistent(e, s) && Slot(n, i) in s.news && id == s.news[Slot(n, i)]
    ensures id in s.info && !s.info[id].inTried && n < NEW_BUCKET_COUNT && i == e.newPos(n, s.info[id].service)
    ensures |Seen(s.news, id, n, i)| < NEW_BUCKETS_PER_ADDRESS
  {
    assert NewSlotOk(e, s.info, Slot(n, i), id);
    assert RefsOk(s.info[id], id, SlotsOf(s.news, id), {}, {});
    SeenNext(s.news, id, n, i);
    SubsetSize(Seen(s.news, id, n, i + 1), SlotsOf(s.news, id));
  }

  lemma {:induction false} InfoVisits(s: State, all: seq<int>, n: nat, i: nat, info: map<int, Info>, k: nat)
    requires InfoBack(s, all, n, i, info) && Distinct(all) && k < |all| && !s.info[all[k]].inTried
    requires Slot(n, i) in s.news && s.news[Slot(n, i)] == all[k]
    ensures InfoBack(s, all, n, i + 1, info[k := info[k].(refCount := info[k].refCount + 1)])
  {
    forall j | 0 <= j < |all|
      ensures |Seen(s.news, all[j], n, i + 1)| == |Seen(s.news, all[j], n, i)| + if j == k then 1 else 0
    {
      SeenNext(s.news, all[j], n, i);
      assert j != k ==> all[j] != all[k];
    }
  }

  lemma {:induction false} SlotsVisits(s: State, all: seq<int>, n: nat, i: nat, news: Table, k: nat)
    requires SlotsBack(s, all, n, i, news) && k < |all| && Slot(n, i) in s.news && s.news[Slot(n, i)] == all[k]
    ensures SlotsBack(s, all, n, i + 1, news[Slot(n, i) := k])
  {
    BeforeNext(n, i, i + 1);
  }

  lemma {:induction false} PlacingVisits(s: State, all: seq<int>, n: nat, i: nat, start: State, r: State, k: nat)
    requires Placing(s, all, n, i, start, r) && Distinct(all) && k < |all| && !s.info[all[k]].inTried
    requires Slot(n, i) in s.news && s.news[Slot(n, i)] == all[k]
    ensures Placing(s, all, n, i + 1, start, Occupy(r, Slot(n, i), k))
  {
    InfoVisits(s, all, n, i, r.info, k);
    SlotsVisits(s, all, n, i, r.news, k);
  }

  lemma {:induction false} LoadsSlot(e: Env, s: State, all: seq<int>, n: nat, i: nat, start: State, r: State, k: nat)
    requires Consistent(e, s) && AllValid(e, s.info) && Placing(s, all, n, i, start, r) && k < |all|
    requires Slot(n, i) in s.news && s.news[Slot(n, i)] == all[k]
    ensures LoadSlot(e, r, (n, k), true) == Occupy(r, Slot(n, i), k)
  {
    SlotPlaced(e, s, n, i, all[k]);
    ValidAt(e, s.info, all[k]);
    assert Slot(n, i) !in r.news;
  }

  // ---------------------------------------------------------------- the rows of the file

  /** The pairs read from the rows before n and from the first i places of row n. */
  ghost function PairsBefore(s: State, known: seq<int>, rows: seq<seq<int>>, n: nat, i: nat): seq<(nat, int)>
    requires n <= |rows|
  {
    Pairs(rows[..n], |known|) + RowPairs(Row(s.news, known, n, i), n, |known|)
  }

  lemma {:induction false} RowSnoc(row: seq<int>, x: int, b: nat, nNew: int)
    ensures RowPairs(row + [x], b, nNew) == RowPairs(row, b, nNew) + if 0 <= x < nNew then [(b, x)] else []
  {
    assert (row + [x])[..|row|] == row;
  }

  lemma {:induction false} PairsNext(s: State, known: seq<int>, rows: seq<seq<int>>, n: nat, i: nat)
    requires n <= |rows|
    ensures PairsBefore(s, known, rows, n, i + 1)
            == if Slot(n, i) in s.news && PlaceIn(known, s.news[Slot(n, i)]) < |known|
               then PairsBefore(s, known, rows, n, i) + [(n, PlaceIn(known, s.news[Slot(n, i)]))]
               else PairsBefore(s, known, rows, n, i)
  {
    if Slot(n, i) in s.news {
      RowSnoc(Row(s.news, known, n, i), PlaceIn(known, s.news[Slot(n, i)]), n, |known|);
    }
  }

  lemma {:induction false} PairsRow(s: State, known: seq<int>, rows: seq<seq<int>>, n: nat)
    requires n < |rows| && rows[n] == Row(s.news, known, n, BUCKET_SIZE)
    ensures PairsBefore(s, known, rows, n + 1, 0) == PairsBefore(s, known, rows, n, BUCKET_SIZE)
  {
    assert rows[..n + 1][..n] == rows[..n];
  }

  lemma {:induction false} SlotsSnoc(e: Env, s: State, pairs: seq<(nat, int)>, x: (nat, int), restore: bool)
    ensures LoadSlots(e, s, pairs + [x], restore) == LoadSlot(e, LoadSlots(e, s, pairs, restore), x, restore)
  {
    assert (pairs + [x])[..|pairs|] == pairs;
  }

  /** The rows of a saved manager. */
  ghost predicate RowsOf(s: State, known: seq<int>, rows: seq<seq<int>>) {
    |rows| == NEW_BUCKET_COUNT && forall b :: 0 <= b < |rows| ==> rows[b] == Row(s.news, known, b, BUCKET_SIZE)
  }

  lemma {:induction false} PlaceOfNew(e: Env, s: State, all: seq<int>, known: seq<int>, id: int) returns (k: nat)
    requires Saved(e, s, all, |known|) && known == all[..|known|] && id in s.info && !s.info[id].inTried
    ensures k < |known| && all[k] == id && PlaceIn(known, id) == k
  {
    assert id in all;
    k :| k < |all| && all[k] == id;
    assert Distinct(known);
    PlaceOf(known, k);
  }

  /** A saved manager, its rows, and its entries when they have been loaded. */
  ghost predicate Reading(e: Env, s: State, all: seq<int>, known: seq<int>, rows: seq<seq<int>>, start: State) {
    var saved, ordered := Saved(e, s, all, |known|), |known| <= |all| && known == all[..|known|];
    var written, loaded := RowsOf(s, known, rows), Loading(e, s, all, |all|, start);
    saved && ordered && written && loaded
  }

  /** Loading the slots before (n, i) brings them back. */
  ghost predicate Back(
    e: Env, s: State, all: seq<int>, known: seq<int>, rows: seq<seq<int>>, n: nat, i: nat, start: State)
    requires n <= |rows|
  {
    var placed := Placing(s, all, n, i, start, LoadSlots(e, start, PairsBefore(s, known, rows, n, i), true));
    placed
  }

  lemma {:induction false} ScanStep(
    e: Env, s: State, all: seq<int>, known: seq<int>, rows: seq<seq<int>>, n: nat, i: nat, next: nat, start: State)
    requires Reading(e, s, all, known, rows, start) && n <= |rows| && next == i + 1
    ensures Back(e, s, all, known, rows, n, next, start)
    decreases n, i, 2
  {
    ScanBack(e, s, all, known, rows, n, i, start);
    var r := LoadSlots(e, start, PairsBefore(s, known, rows, n, i), true);
    PairsNext(s, known, rows, n, i);
    if Slot(n, i) in s.news {
      SlotPlaced(e, s, n, i, s.news[Slot(n, i)]);
      var k := PlaceOfNew(e, s, all, known, s.news[Slot(n, i)]);
      SlotsSnoc(e, start, PairsBefore(s, known, rows, n, i), (n, k), true);
      LoadsSlot(e, s, all, n, i, start, r, k);
      PlacingVisits(s, all, n, i, start, r, k);
    } else {
      PlacingSkips(s, all, n, i, start, r);
    }
  }

  lemma {:induction false} ScanRow(
    e: Env, s: State, all: seq<int>, known: seq<int>, rows: seq<seq<int>>, n: nat, next: nat, i: nat, start: State)
    requires Reading(e, s, all, known, rows, start) && n < |rows| && next == n + 1 && i == 0
    ensures Back(e, s, all, known, rows, next, i, start)
    decreases n, BUCKET_SIZE, 2
  {
    ScanBack(e, s, all, known, rows, n, BUCKET_SIZE, start);
    NewsWithin(e, s);
    PairsRow(s, known, rows, n);
    PlacingRow(s, all, n, start, LoadSlots(e, start, PairsBefore(s, known, rows, n + 1, 0), true));
  }

  lemma {:induction false} ScanStarts(
    e: Env, s: State, all: seq<int>, known: seq<int>, rows: seq<seq<int>>, n: nat, i: nat, start: State)
    requires Reading(e, s, all, known, rows, start) && n == i == 0
    ensures Back(e, s, all, known, rows, n, i, start)
  {
    PlacingStarts(e, s, all, start);
    assert PairsBefore(s, known, rows, 0, 0) == [];
  }

  lemma {:induction false} ScanBack(
    e: Env, s: State, all: seq<int>, known: seq<int>, rows: seq<seq<int>>, n: nat, i: nat, start: State)
    requires Reading(e, s, all, known, rows, start) && n <= |rows|
    ensures Back(e, s, all, known, rows, n, i, start)
    decreases n, i, 1
  {
    if i > 0 {
      ScanStep(e, s, all, known, rows, n, i - 1, i, start);
    } else if n > 0 {
      ScanRow(e, s, all, known, rows, n - 1, n, i, start);
    } else {
      ScanStarts(e, s, all, known, rows, n, i, start);
    }
  }

  // ---------------------------------------------------------------- sizes

  lemma {:induction false} ImageSize<T>(ids: set<int>, f: map<int, T>, image: set<T>)
    requires ids <= f.Keys && (forall i, j :: i in ids && j in ids && i != j ==> f[i] != f[j])
    requires image == set i | i in ids :: f[i]
    ensures |image| == |ids|
    decreases |ids|
  {
    if |ids| == 0 {
      assert image == {};
    } else {
      AddrManImpls.SomeMember(ids);
      var id :| id in ids;
      var fewer := set i | i in ids - {id} :: f[i];
      assert image == fewer + {f[id]} && f[id] !in fewer;
      ImageSize(ids - {id}, f, fewer);
    }
  }

  function Number(slot: Slot): nat {
    slot.bucket * BUCKET_SIZE + slot.pos
  }

  /** Entries with different slots are no more than there are slots. */
  lemma {:induction false} NoMoreThanSlots(ids: set<int>, f: map<int, Slot>, buckets: nat)
    requires ids <= f.Keys && (forall i, j :: i in ids && j in ids && i != j ==> f[i] != f[j])
    requires forall i :: i in ids ==> f[i].bucket < buckets && f[i].pos < BUCKET_SIZE
    ensures |ids| <= buckets * BUCKET_SIZE
  {
    var g := map i | i in ids :: Number(f[i]);
    var image := set i | i in ids :: g[i];
    ImageSize(ids, g, image);
    forall x | x in image ensures x in UpTo(buckets * BUCKET_SIZE) {
      assert exists i :: i in ids && g[i] == x;
    }
    SubsetSize(image, UpTo(buckets * BUCKET_SIZE));
  }

  ghost function SomeSlot(slots: set<Slot>): (slot: Slot)
    requires |slots| > 0
    ensures slot in slots
  {
    var slot :| slot in slots; slot
  }

  lemma {:induction false} SizesFit(e: Env, s: State)
    requires Consistent(e, s)
    ensures 0 <= s.nNew <= NEW_BUCKET_COUNT * BUCKET_SIZE && 0 <= s.nTried <= TRIED_BUCKET_COUNT * BUCKET_SIZE
  {
    var tried := TriedIds(s.info);
    NoMoreThanSlots(tried, map id | id in tried :: TriedSlot(e, s.info[id].service), TRIED_BUCKET_COUNT);
    var news := NewIds(s.info, {});
    forall id | id in news ensures |SlotsOf(s.news, id)| > 0 {
      assert RefsOk(s.info[id], id, SlotsOf(s.news, id), {}, {});
    }
    NewsWithin(e, s);
    NoMoreThanSlots(news, map id | id in news :: SomeSlot(SlotsOf(s.news, id)), NEW_BUCKET_COUNT);
  }

  // ---------------------------------------------------------------- the manager that comes back

  /** A table with its ids renamed. */
  ghost predicate SameTable(all: seq<int>, t: Table, was: Table) {
    && (forall slot :: slot in t <==> slot in was)
    && (forall slot :: slot in t ==> 0 <= t[slot] < |all| && all[t[slot]] == was[slot])
  }

  /** An index with its ids renamed. */
  ghost predicate SameIndex(all: seq<int>, index: map<Service, int>, was: map<Service, int>) {
    && (forall a :: a in index <==> a in was)
    && (forall a :: a in index ==> 0 <= index[a] < |all| && all[index[a]] == was[a])
  }

  /** The entries with their ids renamed. */
  ghost predicate SameInfo(all: seq<int>, info: map<int, Info>, was: map<int, Info>) {
    && Lists(was, all) && Known(was, all) && (forall k :: k in info <==> 0 <= k < |all|)
    && (forall k :: 0 <= k < |all| ==> info[k] == Counted(was[all[k]], k, was[all[k]].refCount))
  }

  ghost predicate SameCounts(counts: map<Network, Count>, was: map<Network, Count>) {
    forall net :: CountOf(counts, net) == CountOf(was, net)
  }

  /**
   Manager r is manager s with the entry `all[k]` called k. What is kept in memory only is gone:
   the times of the last attempts and the collisions.
   */
  ghost predicate Renamed(s: State, r: State, all: seq<int>) {
    var info, index := SameInfo(all, r.info, s.info), SameIndex(all, r.index, s.index);
    var tried, news := SameTable(all, r.tried, s.tried), SameTable(all, r.news, s.news);
    var counts, sizes := SameCounts(r.counts, s.counts), r.nNew == s.nNew && r.nTried == s.nTried;
    var random := RandomLoaded(|all|, r.random);
    info && index && tried && news && counts && sizes && random && r.nIdCount == |all| && r.collisions == {}
  }

  lemma {:induction false} ListsAt(info: map<int, Info>, all: seq<int>, id: int) returns (k: nat)
    requires Lists(info, all) && id in info
    ensures k < |all| && all[k] == id
  {
    assert id in all;
    k :| k < |all| && all[k] == id;
  }

  lemma {:induction false} OnlyOnce(all: seq<int>, i: nat, j: nat)
    requires Distinct(all) && i < |all| && j < |all| && all[i] == all[j]
    ensures i == j
  {
  }

  lemma {:induction false} InfoComplete(e: Env, s: State, all: seq<int>, n: nat, info: map<int, Info>)
    requires Consistent(e, s) && Lists(s.info, all) && n == NEW_BUCKET_COUNT && InfoBack(s, all, n, 0, info)
    ensures SameInfo(all, info, s.info)
  {
    forall k | 0 <= k < |all| ensures info[k] == Counted(s.info[all[k]], k, s.info[all[k]].refCount) {
      AllSeen(e, s, n, all[k]);
    }
  }

  /** After the last bucket every reference has been seen. */
  lemma {:induction false} AllSeen(e: Env, s: State, n: nat, id: int)
    requires Consistent(e, s) && n == NEW_BUCKET_COUNT && id in s.info
    ensures s.info[id].refCount == if s.info[id].inTried then 0 else |Seen(s.news, id, n, 0)|
  {
    NewsWithin(e, s);
    assert Seen(s.news, id, n, 0) == SlotsOf(s.news, id);
    assert RefsOk(s.info[id], id, SlotsOf(s.news, id), {}, {});
    if s.info[id].inTried {
      TriedAt(e, s.info, s.tried, id);
    }
  }

  lemma {:induction false} NewsComplete(s: State, all: seq<int>, n: nat, news: Table)
    requires Within(s.news, n) && SlotsBack(s, all, n, 0, news)
    ensures SameTable(all, news, s.news)
  {
    assert forall slot :: slot in s.news ==> Before(slot, n, 0);
  }

  lemma {:induction false} TriedComplete(e: Env, s: State, all: seq<int>, n: nat, tried: Table)
    requires TriedOk(e, s.info, s.tried) && Lists(s.info, all) && Known(s.info, all) && n == |all|
    requires TriedLoaded(e, s, all, n, tried)
    ensures SameTable(all, tried, s.tried)
  {
    forall slot | slot in s.tried ensures slot in tried {
      var k := ListsAt(s.info, all, s.tried[slot]);
      assert TriedSlot(e, s.info[all[k]].service) == slot;
    }
    forall slot | slot in tried ensures slot in s.tried && all[tried[slot]] == s.tried[slot] {
      assert all[tried[slot]] in s.info;
    }
  }

  lemma {:induction false} IndexComplete(s: State, all: seq<int>, n: nat, index: map<Service, int>)
    requires IndexOk(s.info, s.index, s.nIdCount) && Lists(s.info, all) && Known(s.info, all) && n == |all|
    requires IndexLoaded(s, all, n, index)
    ensures SameIndex(all, index, s.index)
  {
    forall a | a in s.index ensures a in index {
      var k := ListsAt(s.info, all, s.index[a]);
      assert s.info[all[k]].service == a;
    }
    forall a | a in index ensures a in s.index && all[index[a]] == s.index[a] {
      assert all[index[a]] in s.info;
    }
  }

  /** Two sets of entries that correspond are of the same size. */
  lemma {:induction false} SameSizes(was: map<int, Info>, all: seq<int>, ks: set<int>, ids: set<int>)
    requires Lists(was, all) && ids <= was.Keys && (forall k :: k in ks ==> 0 <= k < |all|)
    requires forall k :: 0 <= k < |all| ==> (k in ks <==> all[k] in ids)
    ensures |ks| == |ids|
  {
    var f := map k | k in ks :: all[k];
    var image := set k | k in ks :: f[k];
    ImageSize(ks, f, image);
    forall id | id in ids ensures id in image {
      var k := ListsAt(was, all, id);
      assert f[k] == id;
    }
    forall id | id in image ensures id in ids {
      var k :| k in ks && f[k] == id;
    }
    assert image == ids;
  }

  /** Entries that keep their address and their table under the renaming. */
  ghost predicate Alike(all: seq<int>, info: map<int, Info>, was: map<int, Info>) {
    && Lists(was, all) && Known(was, all) && (forall k :: k in info <==> 0 <= k < |all|)
    && (forall k :: 0 <= k < |all| ==> info[k].service == was[all[k]].service && info[k].inTried == was[all[k]].inTried)
  }

  lemma {:induction false} SameTotals(all: seq<int>, info: map<int, Info>, was: map<int, Info>)
    requires Alike(all, info, was)
    ensures |NewIds(info, {})| == |NewIds(was, {})| && |TriedIds(info)| == |TriedIds(was)|
  {
    SameSizes(was, all, NewIds(info, {}), NewIds(was, {}));
    SameSizes(was, all, TriedIds(info), TriedIds(was));
  }

  lemma {:induction false} SameOnNet(e: Env, all: seq<int>, info: map<int, Info>, was: map<int, Info>, net: Network)
    requires Alike(all, info, was)
    ensures |OnNet(e, info, NewIds(info, {}), net)| == |OnNet(e, was, NewIds(was, {}), net)|
    ensures |OnNet(e, info, TriedIds(info), net)| == |OnNet(e, was, TriedIds(was), net)|
  {
    SameSizes(was, all, OnNet(e, info, NewIds(info, {}), net), OnNet(e, was, NewIds(was, {}), net));
    SameSizes(was, all, OnNet(e, info, TriedIds(info), net), OnNet(e, was, TriedIds(was), net));
  }

  lemma {:induction false} CountsComplete(
    e: Env, all: seq<int>, info: map<int, Info>, was: map<int, Info>, counts: map<Network, Count>,
    before: map<Network, Count>)
    requires Alike(all, info, was) && NetsOk(e, info, counts, NewIds(info, {}), TriedIds(info))
    requires NetsOk(e, was, before, NewIds(was, {}), TriedIds(was))
    ensures SameCounts(counts, before)
  {
    forall net ensures CountOf(counts, net) == CountOf(before, net) {
      SameOnNet(e, all, info, was, net);
      assert CountOf(counts, net) == Count(|OnNet(e, info, NewIds(info, {}), net)|,
                                           |OnNet(e, info, TriedIds(info), net)|);
      assert CountOf(before, net) == Count(|OnNet(e, was, NewIds(was, {}), net)|, |OnNet(e, was, TriedIds(was), net)|);
    }
  }

  /** When all slots have been loaded, everything is back. */
  lemma {:induction false} AllBack(
    e: Env, s: State, all: seq<int>, known: nat, start: State, r: State, n: nat, size: nat)
    requires Saved(e, s, all, known) && n == NEW_BUCKET_COUNT && size == |all|
    requires LoadedTo(e, s, all, size, start, size) && Placing(s, all, n, 0, start, r)
    ensures Renamed(s, r, all)
  {
    NewsWithin(e, s);
    InfoComplete(e, s, all, n, r.info);
    NewsComplete(s, all, n, r.news);
    TriedComplete(e, s, all, size, r.tried);
    IndexComplete(s, all, size, r.index);
    CountsComplete(e, all, start.info, s.info, start.counts, s.counts);
  }

  // ---------------------------------------------------------------- it passes the closing test

  lemma {:induction false} IndexAt(info: map<int, Info>, index: map<Service, int>, n: int, id: int)
    requires IndexOk(info, index, n) && id in info
    ensures info[id].service in index && index[info[id].service] == id
  {
  }

  lemma {:induction false} TriedAt(e: Env, info: map<int, Info>, tried: Table, id: int)
    requires TriedOk(e, info, tried) && id in info && info[id].inTried
    ensures TriedSlot(e, info[id].service) in tried && tried[TriedSlot(e, info[id].service)] == id
            && info[id].refCount == 0
  {
  }

  lemma {:induction false} TimeAt(info: map<int, Info>, id: int)
    requires TimesOk(info) && id in info
    ensures TimeOk(info[id])
  {
  }

  lemma {:induction false} IndexRenamed(s: State, r: State, all: seq<int>)
    requires Renamed(s, r, all) && IndexOk(s.info, s.index, s.nIdCount)
    ensures IndexOk(r.info, r.index, r.nIdCount)
  {
    forall k | k in r.info ensures r.info[k].service in r.index && r.index[r.info[k].service] == k {
      var a := s.info[all[k]].service;
      IndexAt(s.info, s.index, s.nIdCount, all[k]);
      OnlyOnce(all, r.index[a], k);
    }
    forall a | a in r.index ensures r.index[a] in r.info && r.info[r.index[a]].service == a {
      assert s.info[s.index[a]].service == a;
    }
  }

  lemma {:induction false} InfoSize(info: map<int, Info>, n: nat)
    requires forall k :: k in info <==> 0 <= k < n
    ensures |info| == n
  {
    assert info.Keys == UpTo(n);
    assert |info| == |info.Keys|;
  }

  lemma {:induction false} RandomRenamed(info: map<int, Info>, random: seq<int>, n: nat)
    requires (forall k :: k in info <==> 0 <= k < n) && (forall k :: 0 <= k < n ==> info[k].randomPos == k)
    requires RandomLoaded(n, random)
    ensures RandomOk(info, random)
  {
    InfoSize(info, n);
  }

  lemma {:induction false} PlacesRenamed(s: State, r: State, all: seq<int>, n: nat)
    requires SameInfo(all, r.info, s.info) && n == |all| && RandomLoaded(n, r.random)
    ensures RandomOk(r.info, r.random)
  {
    forall k | 0 <= k < n ensures r.info[k].randomPos == k {}
    RandomRenamed(r.info, r.random, n);
  }

  lemma {:induction false} TriedRenamed(e: Env, s: State, r: State, all: seq<int>)
    requires Renamed(s, r, all) && TriedOk(e, s.info, s.tried)
    ensures TriedOk(e, r.info, r.tried)
  {
    forall slot | slot in r.tried
      ensures r.tried[slot] in r.info && r.info[r.tried[slot]].inTried
              && TriedSlot(e, r.info[r.tried[slot]].service) == slot
    {
      assert slot in s.tried && all[r.tried[slot]] == s.tried[slot];
    }
    forall k | k in r.info && r.info[k].inTried
      ensures TriedSlot(e, r.info[k].service) in r.tried && r.tried[TriedSlot(e, r.info[k].service)] == k
      ensures r.info[k].refCount == 0
    {
      var slot := TriedSlot(e, s.info[all[k]].service);
      TriedAt(e, s.info, s.tried, all[k]);
      OnlyOnce(all, r.tried[slot], k);
    }
  }

  lemma {:induction false} NewsRenamed(e: Env, s: State, r: State, all: seq<int>)
    requires Renamed(s, r, all) && NewSlotsOk(e, s.info, s.news) && CountedRefs(s.info, s.news, {}, {})
    ensures NewSlotsOk(e, r.info, r.news) && CountedRefs(r.info, r.news, {}, {})
  {
    forall slot | slot in r.news ensures NewSlotOk(e, r.info, slot, r.news[slot]) {
      assert NewSlotOk(e, s.info, slot, s.news[slot]);
    }
    forall k | k in r.info ensures RefsOk(r.info[k], k, SlotsOf(r.news, k), {}, {}) {
      SlotsRenamed(s, r, all, k);
      assert RefsOk(s.info[all[k]], all[k], SlotsOf(s.news, all[k]), {}, {});
    }
  }

  lemma {:induction false} SlotsRenamed(s: State, r: State, all: seq<int>, k: nat)
    requires Renamed(s, r, all) && k < |all|
    ensures SlotsOf(r.news, k) == SlotsOf(s.news, all[k])
  {
    forall slot | slot in s.news && s.news[slot] == all[k] ensures slot in r.news && r.news[slot] == k {
      OnlyOnce(all, r.news[slot], k);
    }
  }

  lemma {:induction false} CountsRenamed(e: Env, s: State, r: State, all: seq<int>)
    requires Renamed(s, r, all) && TotalsOk(s.info, s.nNew, s.nTried, {})
    requires NetsOk(e, s.info, s.counts, NewIds(s.info, {}), TriedIds(s.info))
    ensures TotalsOk(r.info, r.nNew, r.nTried, {}) && NetsOk(e, r.info, r.counts, NewIds(r.info, {}), TriedIds(r.info))
  {
    SameTotals(all, r.info, s.info);
    forall net ensures CountOf(r.counts, net)
                       == Count(|OnNet(e, r.info, NewIds(r.info, {}), net)|, |OnNet(e, r.info, TriedIds(r.info), net)|)
    {
      SameOnNet(e, all, r.info, s.info, net);
      assert CountOf(s.counts, net)
             == Count(|OnNet(e, s.info, NewIds(s.info, {}), net)|, |OnNet(e, s.info, TriedIds(s.info), net)|);
    }
  }

  lemma {:induction false} TimesRenamed(s: State, r: State, all: seq<int>)
    requires Renamed(s, r, all) && TimesOk(s.info)
    ensures TimesOk(r.info)
  {
    forall k | k in r.info ensures TimeOk(r.info[k]) {
      TimeAt(s.info, all[k]);
    }
  }

  lemma {:induction false} RenamedConsistent(e: Env, s: State, r: State, all: seq<int>)
    requires Consistent(e, s) && Renamed(s, r, all)
    ensures Consistent(e, r)
  {
    IndexRenamed(s, r, all);
    PlacesRenamed(s, r, all, |all|);
    TriedRenamed(e, s, r, all);
    NewsRenamed(e, s, r, all);
    CountsRenamed(e, s, r, all);
    TimesRenamed(s, r, all);
  }

  lemma {:induction false} NothingPruned(e: Env, s: State, walk: seq<int>)
    requires forall id :: !Unreferenced(s, id)
    ensures Prune(e, s, walk) == s
  {
    if walk != [] {
      NothingPruned(e, s, walk[..|walk| - 1]);
    }
  }

  lemma {:induction false} AllReferenced(e: Env, s: State)
    requires Consistent(e, s)
    ensures forall id :: !Unreferenced(s, id)
  {
    forall id ensures !Unreferenced(s, id) {
      if id in s.info {
        NewIsReferenced(e, s, id);
      }
    }
  }

  // ---------------------------------------------------------------- saving and loading

  lemma {:induction false} AllPairs(s: State, known: seq<int>, rows: seq<seq<int>>, n: nat)
    requires n == |rows|
    ensures PairsBefore(s, known, rows, n, 0) == Pairs(rows, |known|)
  {
    assert rows[..n] == rows;
  }

  lemma {:induction false} NotRefused(e: Env, s: State, ids: seq<int>, checksum: nat, f: File)
    requires Consistent(e, s) && f == Write(s, ids, checksum)
    requires |NewsIn(s.info, ids)| == s.nNew && |TriesIn(s.info, ids)| == s.nTried
    ensures !Refused(f) && Restores(f, checksum)
  {
    SizesFit(e, s);
    RecordsAt(s.info, NewsIn(s.info, ids));
    RecordsAt(s.info, TriesIn(s.info, ids));
  }

  lemma {:induction false} SourcesSaved(e: Env, s: State, known: seq<int>, tries: seq<int>, all: seq<int>, n: nat)
    requires all == known + tries && n == |known| && Saved(e, s, all, n) && Known(s.info, known) && Known(s.info, tries)
    ensures Source(e, s, all, n, 0, Records(s.info, known)) && Source(e, s, all, n, n, Records(s.info, tries))
  {
    SavedListed(e, s, all, n);
    RecordsAt(s.info, known);
    RecordsAt(s.info, tries);
  }

  /** Loading the entries of a saved manager, and then its slots. */
  lemma {:induction false} SlotsLoaded(
    e: Env, s: State, f: File, known: seq<int>, all: seq<int>, n: nat, size: nat, start: State, r: State)
    requires Saved(e, s, all, n) && n == |known| <= |all| == size && known == all[..n] && RowsOf(s, known, f.rows)
    requires LoadedTo(e, s, all, size, start, size) && r == LoadSlots(e, start, Pairs(f.rows, n), true)
    ensures Renamed(s, r, all)
  {
    var last := NEW_BUCKET_COUNT;
    ScanBack(e, s, all, known, f.rows, last, 0, start);
    AllPairs(s, known, f.rows, last);
    AllBack(e, s, all, n, start, r, last, size);
  }

  lemma {:induction false} EntriesLoaded(
    e: Env, s: State, ids: seq<int>, f: File, known: seq<int>, tries: seq<int>, all: seq<int>, n: nat, size: nat,
    start: State)
    requires known == NewsIn(s.info, ids) && tries == TriesIn(s.info, ids) && all == known + tries
    requires n == |known| == s.nNew && |tries| == s.nTried && size == |all| && Saved(e, s, all, n)
    requires f == Write(s, ids, f.checksum) && start == Entries(e, f)
    ensures LoadedTo(e, s, all, size, start, size)
  {
    SourcesSaved(e, s, known, tries, all, n);
    RecordsAt(s.info, known);
    RecordsAt(s.info, tries);
    var empty := Fresh().(nNew := f.nNew, nTried := f.nTried);
    var news := LoadNew(e, empty, f.news);
    EntriesBack(e, s, all, n, f, empty, news, news.(nIdCount := f.nNew), start);
  }

  /** The manager a saved file is rebuilt into. */
  lemma {:induction false} Restored(
    e: Env, s: State, ids: seq<int>, checksum: nat, f: File, walk: seq<int>, all: seq<int>)
    requires Consistent(e, s) && AllValid(e, s.info) && Lists(s.info, ids) && f == Write(s, ids, checksum)
    requires all == NewsIn(s.info, ids) + TriesIn(s.info, ids)
    ensures !Refused(f) && Renamed(s, Rebuilt(e, f, checksum, walk), all)
            && Consistent(e, Rebuilt(e, f, checksum, walk))
  {
    var known, tries := NewsIn(s.info, ids), TriesIn(s.info, ids);
    var n, size := |known|, |all|;
    SavedAll(e, s, ids);
    NotRefused(e, s, ids, checksum, f);
    var start := Entries(e, f);
    EntriesLoaded(e, s, ids, f, known, tries, all, n, size, start);
    var r := LoadSlots(e, start, Pairs(f.rows, f.nNew), true);
    SlotsLoaded(e, s, f, known, all, n, size, start, r);
    RenamedConsistent(e, s, r, all);
    AllReferenced(e, r);
    NothingPruned(e, r, walk);
  }

  /**
   A consistent manager whose addresses are all valid, written in any order and read back under
   the same checksum, loads; and what loads is the same manager up to the names of the ids.
   */
  lemma {:induction false} SavingLosesNothing(e: Env, s: State, ids: seq<int>, checksum: nat, walk: seq<int>)
    requires Consistent(e, s) && AllValid(e, s.info) && Lists(s.info, ids)
    ensures var result := Read(e, Write(s, ids, checksum), checksum, walk);
      result.Loaded? && Renamed(s, result.state, NewsIn(s.info, ids) + TriesIn(s.info, ids))
  {
    var f := Write(s, ids, checksum);
    Restored(e, s, ids, checksum, f, walk, NewsIn(s.info, ids) + TriesIn(s.info, ids));
    ConsistentPasses(e, Rebuilt(e, f, checksum, walk));
  }

  /** A routable address is a valid one. */
  ghost predicate RoutableIsValid(e: Env) {
    forall a: Service :: e.routable(a) ==> e.valid(a)
  }

  lemma {:induction false} RunsAreValid(e: Env, ops: seq<Op>, s: State)
    requires Runs(e, Fresh(), ops, s) && RoutableIsValid(e)
    ensures Consistent(e, s) && AllValid(e, s.info)
  {
    FreshConsistent(e);
    RunKeeps(e, Fresh(), ops, s);
    RunDescends(e, Fresh(), ops, s);
    ConsistentBounded(e, s);
    forall id | id in s.info ensures Valid(e, s.info[id]) {
      IdAt(e, s, id);
      assert Routable(e, s.info[id]);
    }
  }

  lemma {:induction false} IdAt(e: Env, s: State, id: int)
    requires Consistent(e, s) && id in s.info
    ensures 0 <= id < s.nIdCount
  {
  }

  /** So at the end of every run from a new manager, saving and loading lose nothing. */
  lemma {:induction false} EveryRunIsSaved(
    e: Env, ops: seq<Op>, s: State, ids: seq<int>, checksum: nat, walk: seq<int>)
    requires Runs(e, Fresh(), ops, s) && RoutableIsValid(e) && Lists(s.info, ids)
    ensures var result := Read(e, Write(s, ids, checksum), checksum, walk);
      result.Loaded? && Renamed(s, result.state, NewsIn(s.info, ids) + TriesIn(s.info, ids))
  {
    RunsAreValid(e, ops, s);
    SavingLosesNothing(e, s, ids, checksum, walk);
  }
}
