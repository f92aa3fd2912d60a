/**
 The address manager on disk. A file holds the entries of both tables, renumbered, and for each
 new bucket the numbers of the entries in it; everything else is rebuilt on loading. Here are
 writing and reading as functions, and the proof that whatever a file holds, a manager that
 loads is consistent.
 */
module AddrManFile {
  import opened AddrMan
  import opened AddrManInvariant
  import opened AddrManRuns
  import opened AddrManCheck

  const FILE_FORMAT := 4
  const V2_ASMAP := 2
  const INCOMPATIBILITY_BASE := 32

  /** What is stored of an entry. */
  datatype Record = Record(
    service: Service, time: int, services: set<nat>, source: NetAddr, lastSuccess: int, attempts: int)

  /**
   What a file parses to. `buckets` is the number of new buckets it was written for; there is a
   row for each, with the numbers of the new entries in that bucket.
   */
  datatype File = File(
    format: nat, compat: nat, nNew: int, nTried: int, buckets: nat,
    news: seq<Record>, tries: seq<Record>, rows: seq<seq<int>>, checksum: nat)

  function ToRecord(i: Info): Record {
    Record(i.service, i.time, i.services, i.source, i.lastSuccess, i.attempts)
  }

  function FromRecord(r: Record, inTried: bool, randomPos: int): Info {
    Info(r.service, r.source, r.time, r.services, 0, 0, r.lastSuccess, r.attempts, 0, inTried, randomPos)
  }

  // ---------------------------------------------------------------- writing

  predicate Known(info: map<int, Info>, ids: seq<int>) {
    forall k :: 0 <= k < |ids| ==> ids[k] in info
  }

  /** The entries with references among some ids, in their order. */
  function NewsIn(info: map<int, Info>, ids: seq<int>): (r: seq<int>)
    ensures Known(info, r)
  {
    if ids == [] then []
    else
      var r, last := NewsIn(info, ids[..|ids| - 1]), ids[|ids| - 1];
      if last in info && info[last].refCount != 0 then r + [last] else r
  }

  /** The tried entries among some ids, in their order. */
  function TriesIn(info: map<int, Info>, ids: seq<int>): (r: seq<int>)
    ensures Known(info, r)
  {
    if ids == [] then []
    else
      var r, last := TriesIn(info, ids[..|ids| - 1]), ids[|ids| - 1];
      if last in info && info[last].inTried then r + [last] else r
  }

  function Records(info: map<int, Info>, ids: seq<int>): seq<Record>
    requires Known(info, ids)
  {
    if ids == [] then [] else Records(info, ids[..|ids| - 1]) + [ToRecord(info[ids[|ids| - 1]])]
  }

  /** The place of an id in a list. */
  function PlaceIn(ids: seq<int>, id: int): nat {
    if ids == [] then 0 else if ids[|ids| - 1] == id then |ids| - 1 else PlaceIn(ids[..|ids| - 1], id)
  }

  /** The numbers of the entries in the first p places of a bucket. */
  function Row(news: Table, known: seq<int>, b: nat, p: nat): seq<int> {
    if p == 0 then []
    else
      var r := Row(news, known, b, p - 1);
      if Slot(b, p - 1) in news then r + [PlaceIn(known, news[Slot(b, p - 1)])] else r
  }

  function Rows(news: Table, known: seq<int>): seq<seq<int>> {
    seq(NEW_BUCKET_COUNT, (b: nat) => Row(news, known, b, BUCKET_SIZE))
  }

  /** Serialize; `ids` is the order in which the map of entries is walked. */
  function Write(s: State, ids: seq<int>, checksum: nat): File {
    var known := NewsIn(s.info, ids);
    File(FILE_FORMAT, INCOMPATIBILITY_BASE + FILE_FORMAT, s.nNew, s.nTried, NEW_BUCKET_COUNT,
         Records(s.info, known), Records(s.info, TriesIn(s.info, ids)),
         Rows(s.news, known), checksum)
  }

  // ---------------------------------------------------------------- reading

  /** An entry of the new table, not in any bucket yet. */
  function AddNew(e: Env, s: State, n: int, r: Record): State {
    s.(info := s.info[n := FromRecord(r, false, |s.random|)], index := s.index[r.service := n],
       random := s.random + [n], counts := Bump(s.counts, e.network(r.service), 1, 0))
  }

  function LoadNew(e: Env, s: State, rs: seq<Record>): State {
    if rs == [] then s else AddNew(e, LoadNew(e, s, rs[..|rs| - 1]), |rs| - 1, rs[|rs| - 1])
  }

  /** A tried entry is lost if its address is invalid or its slot taken. */
  predicate Lost(e: Env, s: State, r: Record) {
    !e.valid(r.service) || TriedSlot(e, r.service) in s.tried
  }

  function AddTried(e: Env, s: State, r: Record): State {
    var n := s.nIdCount;
    s.(info := s.info[n := FromRecord(r, true, |s.random|)], index := s.index[r.service := n],
       random := s.random + [n], tried := s.tried[TriedSlot(e, r.service) := n], nIdCount := n + 1,
       counts := Bump(s.counts, e.network(r.service), 0, 1))
  }

  /** The loop over the tried entries, with the number of those lost. */
  function LoadTried(e: Env, s: State, rs: seq<Record>): (State, nat) {
    if rs == [] then (s, 0)
    else
      var (t, lost) := LoadTried(e, s, rs[..|rs| - 1]);
      if Lost(e, t, rs[|rs| - 1]) then (t, lost + 1) else (AddTried(e, t, rs[|rs| - 1]), lost)
  }

  /** The entries of a row that exist, with their bucket. */
  function RowPairs(row: seq<int>, b: nat, nNew: int): seq<(nat, int)> {
    if row == [] then []
    else
      var r, last := RowPairs(row[..|row| - 1], b, nNew), row[|row| - 1];
      if 0 <= last < nNew then r + [(b, last)] else r
  }

  function Pairs(rows: seq<seq<int>>, nNew: int): seq<(nat, int)> {
    if rows == [] then [] else Pairs(rows[..|rows| - 1], nNew) + RowPairs(rows[|rows| - 1], |rows| - 1, nNew)
  }

  /** The slot an entry gets: the stored bucket's, or else the one for its own source. */
  function SlotFor(e: Env, s: State, i: Info, b: nat, restore: bool): Slot {
    if restore && b < NEW_BUCKET_COUNT && Slot(b, e.newPos(b, i.service)) !in s.news
    then Slot(b, e.newPos(b, i.service))
    else NewSlot(e, i.service, i.source)
  }

  function LoadSlot(e: Env, s: State, pair: (nat, int), restore: bool): State {
    var (b, id) := pair;
    if id !in s.info || !e.valid(s.info[id].service) || s.info[id].refCount >= NEW_BUCKETS_PER_ADDRESS then s
    else
      var slot := SlotFor(e, s, s.info[id], b, restore);
      if slot in s.news then s else Occupy(s, slot, id)
  }

  function LoadSlots(e: Env, s: State, pairs: seq<(nat, int)>, restore: bool): State {
    if pairs == [] then s
    else LoadSlot(e, LoadSlots(e, s, pairs[..|pairs| - 1], restore), pairs[|pairs| - 1], restore)
  }

  predicate Unreferenced(s: State, id: int) {
    id in s.info && !s.info[id].inTried && s.info[id].refCount == 0
  }

  function PruneOne(e: Env, s: State, id: int): State {
    if Unreferenced(s, id) then Delete(e, s, id) else s
  }

  /** Entries that got no slot are deleted again; `ids` is the order of the walk. */
  function Prune(e: Env, s: State, ids: seq<int>): State {
    if ids == [] then s else PruneOne(e, Prune(e, s, ids[..|ids| - 1]), ids[|ids| - 1])
  }

  datatype Result = Failed | Loaded(state: State)

  /** What is refused before any entry is read, or for want of data. */
  predicate Refused(f: File) {
    || f.compat < INCOMPATIBILITY_BASE || f.compat - INCOMPATIBILITY_BASE > FILE_FORMAT
    || f.nNew > NEW_BUCKET_COUNT * BUCKET_SIZE || f.nNew < 0
    || f.nTried > TRIED_BUCKET_COUNT * BUCKET_SIZE || f.nTried < 0
    || |f.news| != f.nNew || |f.tries| != f.nTried || |f.rows| != f.buckets
  }

  /** The entries of a file. */
  function Entries(e: Env, f: File): State {
    var s := LoadNew(e, Fresh().(nNew := f.nNew, nTried := f.nTried), f.news);
    var (t, lost) := LoadTried(e, s.(nIdCount := f.nNew), f.tries);
    t.(nTried := f.nTried - lost)
  }

  predicate Restores(f: File, checksum: nat) {
    f.buckets == NEW_BUCKET_COUNT && (if f.format >= V2_ASMAP then f.checksum else 0) == checksum
  }

  function Rebuilt(e: Env, f: File, checksum: nat, walk: seq<int>): State {
    Prune(e, LoadSlots(e, Entries(e, f), Pairs(f.rows, f.nNew), Restores(f, checksum)), walk)
  }

  /** Unserialize into a new manager. */
  ghost function Read(e: Env, f: File, checksum: nat, walk: seq<int>): Result {
    if Refused(f) then Failed
    else
      var s := Rebuilt(e, f, checksum, walk);
      if Checked(e, s) then Loaded(s) else Failed
  }

  // ---------------------------------------------------------------- what every file gives

  /** What holds of a manager all through loading. */
  ghost predicate Orderly(e: Env, s: State) {
    var places := RandomOk(s.info, s.random);
    && places && Addresses(s.info, s.index) && NetsKnown(e, s.info, s.counts) && s.collisions == {}
  }

  /** The index leads to entries of the right address. */
  ghost predicate Addresses(info: map<int, Info>, index: map<Service, int>) {
    forall a :: a in index ==> index[a] in info && info[index[a]].service == a
  }

  ghost predicate NetsKnown(e: Env, info: map<int, Info>, counts: map<Network, Count>) {
    forall id :: id in info ==> e.network(info[id].service) in counts
  }

  ghost predicate IdsBelow(info: map<int, Info>, n: int) {
    forall id :: id in info ==> 0 <= id < n
  }

  lemma {:induction false} AddNewOrderly(e: Env, s: State, n: int, r: Record)
    requires Orderly(e, s) && n !in s.info
    ensures Orderly(e, AddNew(e, s, n, r))
  {
    RandomAfterCreate(s.info, s.random, n, FromRecord(r, false, |s.random|));
  }

  lemma {:induction false} LoadNewOrderly(e: Env, s: State, rs: seq<Record>)
    requires Orderly(e, s) && s.info == map[]
    ensures Orderly(e, LoadNew(e, s, rs)) && IdsBelow(LoadNew(e, s, rs).info, |rs|)
  {
    if rs != [] {
      LoadNewOrderly(e, s, rs[..|rs| - 1]);
      AddNewOrderly(e, LoadNew(e, s, rs[..|rs| - 1]), |rs| - 1, rs[|rs| - 1]);
    }
  }

  lemma {:induction false} AddTriedOrderly(e: Env, s: State, r: Record)
    requires Orderly(e, s) && s.nIdCount !in s.info
    ensures Orderly(e, AddTried(e, s, r))
  {
    RandomAfterCreate(s.info, s.random, s.nIdCount, FromRecord(r, true, |s.random|));
  }

  lemma {:induction false} LoadTriedOrderly(e: Env, s: State, rs: seq<Record>)
    requires Orderly(e, s) && 0 <= s.nIdCount && IdsBelow(s.info, s.nIdCount)
    ensures var t := LoadTried(e, s, rs).0; Orderly(e, t) && 0 <= t.nIdCount && IdsBelow(t.info, t.nIdCount)
  {
    if rs != [] {
      LoadTriedOrderly(e, s, rs[..|rs| - 1]);
      AddTriedOrderly(e, LoadTried(e, s, rs[..|rs| - 1]).0, rs[|rs| - 1]);
    }
  }

  lemma {:induction false} OccupyOrderly(e: Env, s: State, slot: Slot, id: int)
    requires Orderly(e, s) && id in s.info
    ensures Orderly(e, Occupy(s, slot, id))
  {
    RandomFrame(s.info, s.random, id, s.info[id].(refCount := s.info[id].refCount + 1));
  }

  lemma {:induction false} LoadSlotsOrderly(e: Env, s: State, pairs: seq<(nat, int)>, restore: bool)
    requires Orderly(e, s)
    ensures var t := LoadSlots(e, s, pairs, restore);
      Orderly(e, t) && t.info.Keys == s.info.Keys && t.nIdCount == s.nIdCount
  {
    if pairs != [] {
      LoadSlotsOrderly(e, s, pairs[..|pairs| - 1], restore);
      var t, pair := LoadSlots(e, s, pairs[..|pairs| - 1], restore), pairs[|pairs| - 1];
      if pair.1 in t.info {
        OccupyOrderly(e, t, SlotFor(e, t, t.info[pair.1], pair.0, restore), pair.1);
      }
    }
  }

  lemma {:induction false} DeleteOrderly(e: Env, s: State, id: int)
    requires Orderly(e, s) && id in s.info
    ensures Orderly(e, Delete(e, s, id)) && Delete(e, s, id).info.Keys <= s.info.Keys
            && Delete(e, s, id).nIdCount == s.nIdCount
  {
    RandomAfterDelete(s.info, s.random, id);
  }

  lemma {:induction false} PruneOrderly(e: Env, s: State, ids: seq<int>)
    requires Orderly(e, s)
    ensures var t := Prune(e, s, ids); Orderly(e, t) && t.info.Keys <= s.info.Keys && t.nIdCount == s.nIdCount
  {
    if ids != [] {
      PruneOrderly(e, s, ids[..|ids| - 1]);
      var t := Prune(e, s, ids[..|ids| - 1]);
      if Unreferenced(t, ids[|ids| - 1]) {
        DeleteOrderly(e, t, ids[|ids| - 1]);
      }
    }
  }

  lemma {:induction false} EntriesOrderly(e: Env, f: File)
    requires f.nNew == |f.news|
    ensures var s := Entries(e, f); Orderly(e, s) && 0 <= s.nIdCount && IdsBelow(s.info, s.nIdCount)
  {
    var start := Fresh().(nNew := f.nNew, nTried := f.nTried);
    LoadNewOrderly(e, start, f.news);
    LoadTriedOrderly(e, LoadNew(e, start, f.news).(nIdCount := f.nNew), f.tries);
  }

  lemma {:induction false} OrderlyUnseen(e: Env, s: State)
    requires Orderly(e, s) && 0 <= s.nIdCount && IdsBelow(s.info, s.nIdCount)
    ensures Unseen(e, s)
  {
  }

  /** Whatever is in a file, and however the entries are walked: what loads is consistent. */
  lemma {:induction false} LoadedIsConsistent(e: Env, f: File, checksum: nat, walk: seq<int>)
    requires Read(e, f, checksum, walk).Loaded?
    ensures Consistent(e, Read(e, f, checksum, walk).state)
  {
    var s := Entries(e, f);
    EntriesOrderly(e, f);
    LoadSlotsOrderly(e, s, Pairs(f.rows, f.nNew), Restores(f, checksum));
    var t := LoadSlots(e, s, Pairs(f.rows, f.nNew), Restores(f, checksum));
    PruneOrderly(e, t, walk);
    var r := Prune(e, t, walk);
    assert forall id :: id in r.info.Keys ==> id in s.info.Keys;
    OrderlyUnseen(e, r);
    CheckIsExact(e, r);
  }
}
