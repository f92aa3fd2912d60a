/**
 Serialize and Unserialize as the loops that write and read an address manager, proved to do
 what the functions of AddrManFile say.
 */
module AddrManFiles {
  import opened AddrMan
  import opened AddrManInvariant
  import opened AddrManGetAddr
  import opened AddrManImpls
  import opened AddrManCheck
  import opened AddrManFile
  import opened AddrManRestore

  // ---------------------------------------------------------------- writing

  /** The new entries among some ids have been written and numbered. */
  ghost predicate Numbered(info: map<int, Info>, some: seq<int>, news: seq<Record>, numbers: map<int, int>, n: nat) {
    var known := NewsIn(info, some);
    && news == Records(info, known) && n == |known|
    && (forall id :: id in known ==> id in numbers && numbers[id] == PlaceIn(known, id))
  }

  lemma {:induction false} NumberedNext(
    info: map<int, Info>, ids: seq<int>, k: nat, news: seq<Record>, numbers: map<int, int>, n: nat)
    requires Distinct(ids) && k < |ids| && ids[k] in info && Numbered(info, ids[..k], news, numbers, n)
    ensures if info[ids[k]].refCount != 0
      then Numbered(info, ids[..k + 1], news + [ToRecord(info[ids[k]])], numbers[ids[k] := n], n + 1)
      else Numbered(info, ids[..k + 1], news, numbers[ids[k] := n], n)
  {
    var known, id := NewsIn(info, ids[..k]), ids[k];
    assert ids[..k + 1][..k] == ids[..k];
    NewsFacts(info, ids[..k]);
    assert id !in known;
    if info[id].refCount != 0 {
      assert (known + [id])[..|known|] == known;
    }
  }

  lemma {:induction false} NewsGrow(info: map<int, Info>, ids: seq<int>, k: nat)
    requires k <= |ids|
    ensures |NewsIn(info, ids[..k])| <= |NewsIn(info, ids)| && |TriesIn(info, ids[..k])| <= |TriesIn(info, ids)|
  {
    if k < |ids| {
      NewsGrow(info, ids[..|ids| - 1], k);
      assert ids[..|ids| - 1][..k] == ids[..k];
    } else {
      assert ids[..k] == ids;
    }
  }

  /** The counters are never exceeded, so the assertions of Serialize hold. */
  lemma {:induction false} RoomLeft(e: Env, s: State, ids: seq<int>, k: nat)
    requires Consistent(e, s) && Lists(s.info, ids) && k < |ids| && ids[k] in s.info
    ensures s.info[ids[k]].refCount != 0 ==> |NewsIn(s.info, ids[..k])| < s.nNew
    ensures s.info[ids[k]].inTried ==> |TriesIn(s.info, ids[..k])| < s.nTried
  {
    SizesSaved(e, s, ids);
    NewsGrow(s.info, ids, k + 1);
    assert ids[..k + 1][..k] == ids[..k];
  }

  method WriteNews(m: AddrManImpl, ids: seq<int>) returns (news: seq<Record>, numbers: map<int, int>)
    requires Consistent(m.e, m.Model()) && Lists(m.info, ids)
    ensures Numbered(m.info, ids, news, numbers, |news|)
  {
    news, numbers := [], map[];
    var n: nat := 0;
    for k := 0 to |ids|
      invariant Numbered(m.info, ids[..k], news, numbers, n) && |news| == n
    {
      var id := ids[k];
      assert id in ids;
      NumberedNext(m.info, ids, k, news, numbers, n);
      numbers := numbers[id := n];
      if m.info[id].refCount != 0 {
        RoomLeft(m.e, m.Model(), ids, k);
        assert n != m.nNew;
        news := news + [ToRecord(m.info[id])];
        n := n + 1;
      }
    }
    assert ids[..|ids|] == ids;
  }

  /** The tried entries among some ids have been written. */
  ghost predicate Written(info: map<int, Info>, some: seq<int>, tries: seq<Record>, n: nat) {
    var chosen := TriesIn(info, some);
    tries == Records(info, chosen) && n == |chosen|
  }

  lemma {:induction false} WrittenNext(info: map<int, Info>, ids: seq<int>, k: nat, tries: seq<Record>, n: nat)
    requires k < |ids| && ids[k] in info && Written(info, ids[..k], tries, n)
    ensures if info[ids[k]].inTried then Written(info, ids[..k + 1], tries + [ToRecord(info[ids[k]])], n + 1)
      else Written(info, ids[..k + 1], tries, n)
  {
    var chosen := TriesIn(info, ids[..k]);
    assert ids[..k + 1][..k] == ids[..k];
    assert (chosen + [ids[k]])[..|chosen|] == chosen;
  }

  method WriteTries(m: AddrManImpl, ids: seq<int>) returns (tries: seq<Record>)
    requires Consistent(m.e, m.Model()) && Lists(m.info, ids)
    ensures tries == Records(m.info, TriesIn(m.info, ids))
  {
    tries := [];
    var n: nat := 0;
    for k := 0 to |ids|
      invariant Written(m.info, ids[..k], tries, n)
    {
      var id := ids[k];
      assert id in ids;
      WrittenNext(m.info, ids, k, tries, n);
      if m.info[id].inTried {
        RoomLeft(m.e, m.Model(), ids, k);
        assert n != m.nTried;
        tries := tries + [ToRecord(m.info[id])];
        n := n + 1;
      }
    }
    assert ids[..|ids|] == ids;
  }

  method WriteRow(m: AddrManImpl, b: nat, numbers: map<int, int>, ghost known: seq<int>) returns (row: seq<int>)
    requires m.Valid() && b < NEW_BUCKET_COUNT
    requires forall id :: id in known ==> id in numbers && numbers[id] == PlaceIn(known, id)
    requires forall slot :: slot in m.Model().news ==> m.Model().news[slot] in known
    ensures row == Row(m.Model().news, known, b, BUCKET_SIZE)
  {
    row := [];
    ghost var news := m.Model().news;
    for i := 0 to BUCKET_SIZE
      invariant row == Row(news, known, b, i)
    {
      if m.vvNew[b, i] != FREE {
        assert Slot(b, i) in news && news[Slot(b, i)] == m.vvNew[b, i];
        row := row + [numbers[m.vvNew[b, i]]];
      } else {
        assert Slot(b, i) !in news;
      }
    }
  }

  lemma {:induction false} SlotsKnown(e: Env, s: State, ids: seq<int>)
    requires Consistent(e, s) && Lists(s.info, ids)
    ensures forall slot :: slot in s.news ==> s.news[slot] in NewsIn(s.info, ids)
  {
    SizesSaved(e, s, ids);
    forall slot | slot in s.news ensures s.news[slot] in NewsIn(s.info, ids) {
      assert NewSlotOk(e, s.info, slot, s.news[slot]);
    }
  }

  method WriteRows(m: AddrManImpl, numbers: map<int, int>, ghost known: seq<int>) returns (rows: seq<seq<int>>)
    requires m.Valid()
    requires forall id :: id in known ==> id in numbers && numbers[id] == PlaceIn(known, id)
    requires forall slot :: slot in m.Model().news ==> m.Model().news[slot] in known
    ensures rows == Rows(m.Model().news, known)
  {
    rows := [];
    ghost var news := m.Model().news;
    for b := 0 to NEW_BUCKET_COUNT
      invariant |rows| == b && forall c :: 0 <= c < b ==> rows[c] == Row(news, known, c, BUCKET_SIZE)
    {
      var row := WriteRow(m, b, numbers, known);
      rows := rows + [row];
    }
  }

  /** Serialize; `ids` is the order in which the entries are walked. */
  method WriteFile(m: AddrManImpl, ids: seq<int>, checksum: nat) returns (f: File)
    requires m.Valid() && Consistent(m.e, m.Model()) && Lists(m.info, ids)
    ensures f == Write(m.Model(), ids, checksum)
  {
    var news, numbers := WriteNews(m, ids);
    var tries := WriteTries(m, ids);
    ghost var known := NewsIn(m.info, ids);
    SlotsKnown(m.e, m.Model(), ids);
    var rows := WriteRows(m, numbers, known);
    f := File(FILE_FORMAT, INCOMPATIBILITY_BASE + FILE_FORMAT, m.nNew, m.nTried, NEW_BUCKET_COUNT, news, tries, rows,
              checksum);
  }

  // ---------------------------------------------------------------- reading

  method AddNewRecord(m: AddrManImpl, n: int, r: Record)
    modifies m`info, m`index, m`random, m`counts
    ensures m.Model() == AddNew(m.e, old(m.Model()), n, r)
  {
    m.info := m.info[n := FromRecord(r, false, |m.random|)];
    m.index := m.index[r.service := n];
    m.random := m.random + [n];
    m.counts := Bump(m.counts, m.e.network(r.service), 1, 0);
  }

  method LoadNews(m: AddrManImpl, rs: seq<Record>)
    modifies m`info, m`index, m`random, m`counts
    ensures m.Model() == LoadNew(m.e, old(m.Model()), rs)
  {
    for n := 0 to |rs|
      invariant m.Model() == LoadNew(m.e, old(m.Model()), rs[..n])
    {
      assert rs[..n + 1][..n] == rs[..n];
      AddNewRecord(m, n, rs[n]);
    }
    assert rs[..|rs|] == rs;
  }

  method PlaceTriedRecord(m: AddrManImpl, r: Record, b: TriedBucket, p: Position)
    requires m.Valid() && m.nIdCount >= 0 && Slot(b, p) == TriedSlot(m.e, r.service)
    modifies m`info, m`index, m`random, m`counts, m`nIdCount, m.vvTried
    ensures m.Model() == AddTried(m.e, old(m.Model()), r) && m.nIdCount >= 0
  {
    var n := m.nIdCount;
    m.SetTried(b, p, n);
    m.info := m.info[n := FromRecord(r, true, |m.random|)];
    m.random := m.random + [n];
    m.index := m.index[r.service := n];
    m.nIdCount := n + 1;
    m.counts := Bump(m.counts, m.e.network(r.service), 0, 1);
  }

  method AddTriedRecord(m: AddrManImpl, r: Record) returns (lost: bool)
    requires m.Valid() && m.nIdCount >= 0
    modifies m`info, m`index, m`random, m`counts, m`nIdCount, m.vvTried
    ensures lost == Lost(m.e, old(m.Model()), r)
    ensures m.Model() == if lost then old(m.Model()) else AddTried(m.e, old(m.Model()), r)
    ensures m.nIdCount >= 0
  {
    var b := m.e.triedBucket(r.service);
    var p := m.e.triedPos(b, r.service);
    if m.e.valid(r.service) && m.vvTried[b, p] == FREE {
      PlaceTriedRecord(m, r, b, p);
      return false;
    }
    return true;
  }

  method LoadTries(m: AddrManImpl, rs: seq<Record>) returns (lost: nat)
    requires m.Valid() && m.nIdCount >= 0
    modifies m`info, m`index, m`random, m`counts, m`nIdCount, m.vvTried
    ensures (m.Model(), lost) == LoadTried(m.e, old(m.Model()), rs)
  {
    lost := 0;
    for n := 0 to |rs|
      invariant (m.Model(), lost) == LoadTried(m.e, old(m.Model()), rs[..n]) && m.nIdCount >= 0
    {
      assert rs[..n + 1][..n] == rs[..n];
      var gone := AddTriedRecord(m, rs[n]);
      if gone { lost := lost + 1; }
    }
    assert rs[..|rs|] == rs;
  }

  method CollectRow(row: seq<int>, b: nat, nNew: int) returns (pairs: seq<(nat, int)>)
    ensures pairs == RowPairs(row, b, nNew)
  {
    pairs := [];
    for i := 0 to |row|
      invariant pairs == RowPairs(row[..i], b, nNew)
    {
      assert row[..i + 1][..i] == row[..i];
      if 0 <= row[i] < nNew {
        pairs := pairs + [(b, row[i])];
      }
    }
    assert row[..|row|] == row;
  }

  method CollectPairs(rows: seq<seq<int>>, nNew: int) returns (pairs: seq<(nat, int)>)
    ensures pairs == Pairs(rows, nNew)
  {
    pairs := [];
    for b := 0 to |rows|
      invariant pairs == Pairs(rows[..b], nNew)
    {
      assert rows[..b + 1][..b] == rows[..b];
      var row := CollectRow(rows[b], b, nNew);
      pairs := pairs + row;
    }
    assert rows[..|rows|] == rows;
  }

  /** Pairs name buckets there are rows for, and entries there are records for. */
  ghost predicate InRange(pairs: seq<(nat, int)>, buckets: nat) {
    forall i :: 0 <= i < |pairs| ==> pairs[i].0 < buckets && pairs[i].1 >= 0
  }

  lemma {:induction false} RowInRange(row: seq<int>, b: nat, nNew: int, buckets: nat)
    requires b < buckets
    ensures InRange(RowPairs(row, b, nNew), buckets)
  {
    if row != [] {
      RowInRange(row[..|row| - 1], b, nNew, buckets);
    }
  }

  lemma {:induction false} PairsInRange(rows: seq<seq<int>>, nNew: int, buckets: nat)
    requires |rows| <= buckets
    ensures InRange(Pairs(rows, nNew), buckets)
  {
    if rows != [] {
      PairsInRange(rows[..|rows| - 1], nNew, buckets);
      RowInRange(rows[|rows| - 1], |rows| - 1, nNew, buckets);
    }
  }

  /** One stored reference: its bucket again if that is allowed and free, or else the entry's own. */
  method LoadPair(m: AddrManImpl, pair: (nat, int), restore: bool)
    requires m.Valid() && pair.1 >= 0 && (restore ==> pair.0 < NEW_BUCKET_COUNT)
    modifies m`info, m.vvNew
    ensures m.Model() == LoadSlot(m.e, old(m.Model()), pair, restore)
  {
    var (bucket, id) := pair;
    if id !in m.info || !m.e.valid(m.info[id].service) { return; }
    if m.info[id].refCount >= NEW_BUCKETS_PER_ADDRESS { return; }
    var i := m.info[id];
    if restore {
      var pos := m.e.newPos(bucket, i.service);
      if m.vvNew[bucket, pos] == FREE {
        assert Slot(bucket, pos) !in m.Model().news;
        m.AddReference(bucket, pos, id);
        return;
      }
      assert Slot(bucket, pos) in m.Model().news;
    }
    var home := m.e.newBucket(i.service, i.source);
    var pos := m.e.newPos(home, i.service);
    if m.vvNew[home, pos] == FREE {
      assert Slot(home, pos) !in m.Model().news;
      m.AddReference(home, pos, id);
    } else {
      assert Slot(home, pos) in m.Model().news;
    }
  }

  method LoadPairs(m: AddrManImpl, pairs: seq<(nat, int)>, restore: bool, ghost buckets: nat)
    requires m.Valid() && InRange(pairs, buckets) && (restore ==> buckets == NEW_BUCKET_COUNT)
    modifies m`info, m.vvNew
    ensures m.Model() == LoadSlots(m.e, old(m.Model()), pairs, restore)
  {
    for i := 0 to |pairs|
      invariant m.Model() == LoadSlots(m.e, old(m.Model()), pairs[..i], restore)
    {
      assert pairs[..i + 1][..i] == pairs[..i];
      LoadPair(m, pairs[i], restore);
    }
    assert pairs[..|pairs|] == pairs;
  }

  /** The pruning walk: every entry once, in some order. */
  method PruneEntries(m: AddrManImpl) returns (walk: seq<int>)
    requires m.Valid() && Orderly(m.e, m.Model())
    modifies m
    ensures m.Model() == Prune(m.e, old(m.Model()), walk) && Lists(old(m.info), walk)
  {
    walk := [];
    ghost var s := m.Model();
    var todo := m.info.Keys;
    while todo != {}
      invariant Walking(m.e, s, m.Model(), walk, todo)
      decreases todo
    {
      SomeMember(todo);
      var id :| id in todo;
      WalkingNext(m.e, s, m.Model(), walk, todo, id);
      if id in m.info && !m.info[id].inTried && m.info[id].refCount == 0 {
        m.DeleteEntry(id);
      }
      walk := walk + [id];
      todo := todo - {id};
    }
  }

  ghost predicate Walking(e: Env, s: State, r: State, walk: seq<int>, todo: set<int>) {
    var orderly := Orderly(e, r);
    && orderly && r == Prune(e, s, walk) && Distinct(walk)
    && (forall id :: id in s.info <==> id in walk || id in todo) && (forall id :: id in walk ==> id !in todo)
  }

  lemma {:induction false} WalkingNext(e: Env, s: State, r: State, walk: seq<int>, todo: set<int>, id: int)
    requires Walking(e, s, r, walk, todo) && id in todo
    ensures Walking(e, s, PruneOne(e, r, id), walk + [id], todo - {id})
  {
    assert (walk + [id])[..|walk|] == walk;
    if Unreferenced(r, id) {
      DeleteOrderly(e, r, id);
    }
    assert forall k :: k in walk + [id] <==> k in walk || k == id;
  }

  /** Unserialize into a new manager. */
  method ReadFile(m: AddrManImpl, f: File, checksum: nat) returns (ok: bool, walk: seq<int>)
    requires m.Valid() && m.Model() == Fresh()
    modifies m, m.vvNew, m.vvTried
    ensures m.Valid() && ok == Read(m.e, f, checksum, walk).Loaded?
    ensures ok ==> m.Model() == Read(m.e, f, checksum, walk).state && Consistent(m.e, m.Model())
  {
    walk := [];
    if Refused(f) { return false, walk; }
    ReadEntries(m, f);
    EntriesOrderly(m.e, f);
    var pairs := CollectPairs(f.rows, f.nNew);
    PairsInRange(f.rows, f.nNew, f.buckets);
    LoadSlotsOrderly(m.e, m.Model(), pairs, Restores(f, checksum));
    LoadPairs(m, pairs, Restores(f, checksum), f.buckets);
    walk := PruneEntries(m);
    var err := CheckAddrman(m);
    if err == 0 { LoadedIsConsistent(m.e, f, checksum, walk); }
    return err == 0, walk;
  }

  method ReadEntries(m: AddrManImpl, f: File)
    requires m.Valid() && m.Model() == Fresh() && f.nNew >= 0
    modifies m, m.vvTried
    ensures m.Model() == Entries(m.e, f)
  {
    m.nNew, m.nTried := f.nNew, f.nTried;
    LoadNews(m, f.news);
    m.nIdCount := f.nNew;
    var lost := LoadTries(m, f.tries);
    m.nTried := m.nTried - lost;
  }
}
