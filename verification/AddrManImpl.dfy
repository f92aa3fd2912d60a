/**
 The address manager as the node holds it: maps, a vector and two arrays of buckets, changed in
 place. Every method is proved to do to this state what the corresponding function of AddrMan
 does to the abstract one.
 */
module AddrManImpls {
  import opened AddrMan
  import opened AddrManInvariant
  import opened AddrManKeeps
  import opened AddrManRuns
  import opened AddrManGetAddr

  const FREE := -1

  /** The occupied slots of a bucket array. */
  ghost function TableOf(t: array2<int>): Table
    reads t
  {
    map b: nat, p: nat | b < t.Length0 && p < t.Length1 && t[b, p] != FREE :: Slot(b, p) := t[b, p]
  }

  /** The state without its last entry of the random vector. */
  function WithoutLast(e: Env, r: State, id: int): State
    requires |r.random| > 0 && id in r.info
  {
    var a := r.info[id].service;
    State(r.nIdCount, r.info - {id}, r.index - {a}, r.random[..|r.random| - 1], r.tried, r.news,
          r.nTried, r.nNew - 1, Bump(r.counts, e.network(a), -1, 0), r.collisions, r.lastGood)
  }

  lemma {:induction false} SwapThenDropInfo(s: State, id: int, r: State)
    requires RandomOk(s.info, s.random) && id in s.info && r == SwapRandom(s, s.info[id].randomPos, |s.random| - 1)
    ensures 0 <= s.info[id].randomPos < |s.random| == |r.random|
    ensures id in r.info && r.info[id].service == s.info[id].service
    ensures r.info - {id} == Moved(s.info, s.random[|s.random| - 1], s.info[id].randomPos) - {id}
  {
  }

  /** Swapping an entry's place with the last one and dropping it is what Delete does. */
  lemma {:induction false} SwapThenDrop(e: Env, s: State, id: int, r: State)
    requires RandomOk(s.info, s.random) && id in s.info && r == SwapRandom(s, s.info[id].randomPos, |s.random| - 1)
    ensures 0 <= s.info[id].randomPos < |s.random| == |r.random| && id in r.info
    ensures WithoutLast(e, r, id) == Delete(e, s, id)
  {
    SwapThenDropInfo(s, id, r);
    var n, p := |s.random|, s.info[id].randomPos;
    assert r.random[..n - 1] == s.random[p := s.random[n - 1]][..n - 1];
  }

  /** Some of an entry's new-table references have been dropped, and nothing else. */
  ghost predicate Partly(s: State, r: State, id: int)
    requires id in s.info && id in r.info
  {
    && r == s.(info := s.info[id := s.info[id].(refCount := r.info[id].refCount)], news := r.news)
    && (forall slot :: slot in r.news ==> slot in s.news && r.news[slot] == s.news[slot])
    && (forall slot :: slot in s.news && s.news[slot] != id ==> slot in r.news)
  }

  lemma {:induction false} PartlyRelease(s: State, r: State, id: int, slot: Slot)
    requires id in s.info && id in r.info && Partly(s, r, id) && slot in r.news && r.news[slot] == id
    ensures Partly(s, Release(r, slot), id)
  {
  }

  lemma {:induction false} PartlyDone(s: State, r: State, id: int)
    requires id in s.info && id in r.info && Partly(s, r, id)
    requires r.info[id].refCount == 0 && forall slot :: slot in r.news ==> r.news[slot] != id
    ensures r == Withdraw(s, id)
  {
    assert r.news == Withdraw(s, id).news;
  }

  /** The distance from one new bucket to another, going upwards and around. */
  ghost function Ahead(start: nat, b: nat): int {
    if b < start then b + NEW_BUCKET_COUNT - start else b - start
  }

  /** The search for references of `id` that started in state s: n buckets have been visited. */
  ghost predicate Searching(e: Env, s: State, r: State, id: int, start: nat, n: nat) {
    var known := id in s.info && id in r.info;
    && known && !s.info[id].inTried && start < NEW_BUCKET_COUNT && n <= NEW_BUCKET_COUNT
    && Coherent(e, r, {}, {id}) && Partly(s, r, id)
    && (forall slot :: slot in r.news && r.news[slot] == id ==> n <= Ahead(start, slot.bucket))
  }

  ghost function Visited(e: Env, s: State, id: int, bucket: NewBucket): Slot
    requires id in s.info
  {
    Slot(bucket, e.newPos(bucket, s.info[id].service))
  }

  lemma {:induction false} SearchStarts(e: Env, s: State, id: int, start: nat)
    requires Coherent(e, s, {}, {}) && id in s.info && !s.info[id].inTried && start < NEW_BUCKET_COUNT
    ensures Searching(e, s, s, id, start, 0)
  {
    Idle(e, s, id);
    assert s.info[id := s.info[id].(refCount := s.info[id].refCount)] == s.info;
    assert forall slot :: slot in s.news ==> 0 <= Ahead(start, slot.bucket);
  }

  lemma {:induction false} SearchMisses(e: Env, s: State, r: State, id: int, start: nat, n: nat, bucket: NewBucket)
    requires Searching(e, s, r, id, start, n) && n < NEW_BUCKET_COUNT && bucket == (start + n) % NEW_BUCKET_COUNT
    requires Visited(e, s, id, bucket) in r.news ==> r.news[Visited(e, s, id, bucket)] != id
    ensures Searching(e, s, r, id, start, n + 1)
  {
    forall slot | slot in r.news && r.news[slot] == id ensures n + 1 <= Ahead(start, slot.bucket) {
      assert NewSlotOk(e, r.info, slot, id);
      OneBucketAhead(start, n, slot.bucket, bucket);
    }
  }

  lemma {:induction false} OneBucketAhead(start: nat, n: nat, b: nat, bucket: nat)
    requires start < NEW_BUCKET_COUNT && n < NEW_BUCKET_COUNT && b < NEW_BUCKET_COUNT
    requires bucket == (start + n) % NEW_BUCKET_COUNT
    ensures Ahead(start, b) == n <==> b == bucket
  {
  }

  lemma {:induction false} SearchHits(e: Env, s: State, r: State, id: int, start: nat, n: nat, slot: Slot)
    requires Searching(e, s, r, id, start, n) && slot in r.news && r.news[slot] == id
    ensures Searching(e, s, Release(r, slot), id, start, n) && slot !in Release(r, slot).news
  {
    ReleaseKeeps(e, r, slot, {}, {id});
    assert {id} + {id} == {id};
    PartlyRelease(s, r, id, slot);
  }

  /** The search is over when the count is zero, or when it has gone all the way around. */
  lemma {:induction false} SearchOver(e: Env, s: State, r: State, id: int, start: nat, n: nat)
    requires Searching(e, s, r, id, start, n) && (r.info[id].refCount == 0 || n == NEW_BUCKET_COUNT)
    ensures r == Withdraw(s, id)
  {
    assert RefsOk(r.info[id], id, SlotsOf(r.news, id), {}, {id});
    assert SlotsOf(r.news, id) == {} by {
      if n == NEW_BUCKET_COUNT {
        assert forall slot :: slot in r.news ==> NewSlotOk(e, r.info, slot, r.news[slot]);
      }
    }
    assert forall slot :: slot in r.news && r.news[slot] == id ==> slot in SlotsOf(r.news, id);
    PartlyDone(s, r, id);
  }

  // ---------------------------------------------------------------- Size

  datatype Kind = AnyTable | InNew | InTried

  /** The entries that Size counts. */
  ghost function Members(e: Env, s: State, filter: Filter, kind: Kind): set<int> {
    set id | id in s.info && (filter.Only? ==> e.network(s.info[id].service) == filter.net)
             && (kind != AnyTable ==> s.info[id].inTried == kind.InTried?)
  }

  lemma {:induction false} SizeCounts(e: Env, s: State, filter: Filter, kind: Kind)
    requires Consistent(e, s)
    ensures filter.AnyNetwork? ==>
      |Members(e, s, filter, kind)| == match kind case AnyTable => |s.random| case InNew => s.nNew
        case InTried => s.nTried
    ensures filter.Only? ==>
      var c := CountOf(s.counts, filter.net);
      |Members(e, s, filter, kind)| == match kind case AnyTable => c.news + c.tries case InNew => c.news
        case InTried => c.tries
  {
    var news, tries := NewIds(s.info, {}), TriedIds(s.info);
    if filter.AnyNetwork? {
      assert Members(e, s, filter, InNew) == news && Members(e, s, filter, InTried) == tries;
      assert Members(e, s, filter, AnyTable) == s.info.Keys;
    } else {
      assert Members(e, s, filter, InNew) == OnNet(e, s.info, news, filter.net);
      assert Members(e, s, filter, InTried) == OnNet(e, s.info, tries, filter.net);
      assert Members(e, s, filter, AnyTable)
             == OnNet(e, s.info, news, filter.net) + OnNet(e, s.info, tries, filter.net);
      assert CountOf(s.counts, filter.net)
             == Count(|OnNet(e, s.info, news, filter.net)|, |OnNet(e, s.info, tries, filter.net)|);
    }
  }

  lemma {:induction false} AddLast(
    e: Env, s: State, c: seq<Candidate>, k: nat, source: NetAddr, penalty: int, r: State, n: nat)
    requires k < |c| && (r, n) == Add(e, s, c[..k], source, penalty)
    ensures var (t, ok) := AddSingle(e, r, c[k].address, source, penalty, c[k].now, c[k].lucky);
      Add(e, s, c[..k + 1], source, penalty) == (t, if ok then n + 1 else n)
  {
    assert c[..k + 1][..k] == c[..k];
  }

  ghost predicate Ascending(ids: seq<int>) {
    forall i, j :: 0 <= i < j < |ids| ==> ids[i] < ids[j]
  }

  lemma {:induction false} SomeMember(ids: set<int>)
    requires ids != {}
    ensures exists k :: k in ids
  {
    assert (forall k :: k !in ids) ==> ids == {};
  }

  method Smallest(ids: set<int>) returns (m: int)
    requires ids != {}
    ensures m in ids && forall k :: k in ids ==> m <= k
  {
    SomeMember(ids);
    m :| m in ids;
    var rest := ids - {m};
    while rest != {}
      invariant m in ids && rest <= ids && forall k :: k in ids && k !in rest ==> m <= k
      decreases rest
    {
      SomeMember(rest);
      var k :| k in rest;
      m := if k < m then k else m;
      rest := rest - {k};
    }
  }

  /** Some ids have been handled, in ascending order, and the others are all larger. */
  ghost predicate Handled(all: set<int>, ids: seq<int>, todo: set<int>) {
    && Ascending(ids) && (forall id :: id in all <==> id in ids || id in todo)
    && (forall i, id :: 0 <= i < |ids| && id in todo ==> ids[i] < id)
  }

  lemma {:induction false} HandleNext(all: set<int>, ids: seq<int>, todo: set<int>, id: int)
    requires Handled(all, ids, todo) && id in todo && forall k :: k in todo ==> id <= k
    ensures Handled(all, ids + [id], todo - {id})
  {
  }

  /** Evicting in two steps: out of the tried table, and home to the new one. */
  lemma {:induction false} EvictIs(e: Env, s: State, slot: Slot, id: int, u: State)
    requires slot in s.tried && id == s.tried[slot] && id in s.info && u == Untry(e, s, slot) && id in u.info
    requires id in ClearNew(e, u, NewSlot(e, u.info[id].service, u.info[id].source)).info
    ensures var home := NewSlot(e, u.info[id].service, u.info[id].source);
      MakeRoom(e, s, slot) == Occupy(Recount(e, ClearNew(e, u, home), id), home, id)
  {
  }

  class AddrManImpl {
    const e: Env
    const vvTried: array2<int>
    const vvNew: array2<int>
    var nIdCount: int
    var info: map<int, Info>
    var index: map<Service, int>
    var random: seq<int>
    var nTried: int
    var nNew: int
    var counts: map<Network, Count>
    var collisions: set<int>
    var lastGood: int

    ghost predicate Valid()
      reads this
    {
      && vvTried != vvNew
      && vvTried.Length0 == TRIED_BUCKET_COUNT && vvTried.Length1 == BUCKET_SIZE
      && vvNew.Length0 == NEW_BUCKET_COUNT && vvNew.Length1 == BUCKET_SIZE
    }

    ghost function Model(): State
      reads this, vvTried, vvNew
    {
      State(nIdCount, info, index, random, TableOf(vvTried), TableOf(vvNew), nTried, nNew, counts, collisions, lastGood)
    }

    constructor (e: Env)
      ensures Valid() && Model() == Fresh() && this.e == e && fresh(vvTried) && fresh(vvNew)
    {
      this.e := e;
      vvTried := new int[TRIED_BUCKET_COUNT, BUCKET_SIZE]((i, j) => FREE);
      vvNew := new int[NEW_BUCKET_COUNT, BUCKET_SIZE]((i, j) => FREE);
      nIdCount, info, index, random := 0, map[], map[], [];
      nTried, nNew, counts, collisions, lastGood := 0, 0, map[], {}, 1;
    }

    // -------------------------------------------------------------- the buckets

    method SetNew(b: nat, p: nat, id: int)
      requires Valid() && b < NEW_BUCKET_COUNT && p < BUCKET_SIZE
      modifies vvNew
      ensures TableOf(vvNew) == if id == FREE then old(TableOf(vvNew)) - {Slot(b, p)}
              else old(TableOf(vvNew))[Slot(b, p) := id]
    {
      vvNew[b, p] := id;
    }

    method SetTried(b: nat, p: nat, id: int)
      requires Valid() && b < TRIED_BUCKET_COUNT && p < BUCKET_SIZE
      modifies vvTried
      ensures TableOf(vvTried) == if id == FREE then old(TableOf(vvTried)) - {Slot(b, p)}
              else old(TableOf(vvTried))[Slot(b, p) := id]
    {
      vvTried[b, p] := id;
    }

    // -------------------------------------------------------------- entries

    /** The id of an address, or FREE. */
    method Find(a: Service) returns (id: int)
      requires IndexOk(info, index, nIdCount)
      ensures id == if a in index then index[a] else FREE
      ensures id == FREE <==> a !in index
      ensures id != FREE ==> id in info && info[id].service == a
    {
      if a in index && index[a] in info { return index[a]; }
      return FREE;
    }

    method CreateEntry(a: Address, source: NetAddr) returns (id: int)
      requires Valid()
      modifies `nIdCount, `index, `info, `random, `nNew, `counts
      ensures Valid() && Model() == Create(e, old(Model()), a, source) && id == old(nIdCount)
    {
      id := nIdCount;
      nIdCount, index := nIdCount + 1, index[a.service := id];
      info := info[id := Info(a.service, source, a.time, a.services, 0, 0, 0, 0, 0, false, |random|)];
      random, nNew, counts := random + [id], nNew + 1, Bump(counts, e.network(a.service), 1, 0);
      assert TableOf(vvTried) == old(TableOf(vvTried)) && TableOf(vvNew) == old(TableOf(vvNew));
    }

    method SwapPlaces(i: nat, j: nat)
      requires Valid() && i < |random| && j < |random| && random[i] in info && random[j] in info
      modifies `info, `random
      ensures Model() == SwapRandom(old(Model()), i, j)
    {
      if i == j { return; }
      var a, b := random[i], random[j];
      info := info[a := info[a].(randomPos := j)];
      info := info[b := info[b].(randomPos := i)];
      random := random[i := b];
      random := random[j := a];
    }

    method DropLastEntry(id: int)
      requires Valid() && |random| > 0 && id in info
      modifies this
      ensures Model() == WithoutLast(e, old(Model()), id)
    {
      counts := Bump(counts, e.network(info[id].service), -1, 0);
      random := random[..|random| - 1];
      index := index - {info[id].service};
      info := info - {id};
      nNew := nNew - 1;
    }

    /** Delete, called only for entries in neither table. */
    method DeleteEntry(id: int)
      requires Valid() && RandomOk(info, random) && id in info && !info[id].inTried && info[id].refCount == 0
      modifies this
      ensures Model() == Delete(e, old(Model()), id)
    {
      ghost var s := Model();
      SwapThenDrop(e, s, id, SwapRandom(s, s.info[id].randomPos, |s.random| - 1));
      SwapPlaces(info[id].randomPos, |random| - 1);
      DropLastEntry(id);
    }

    // -------------------------------------------------------------- the new table

    method DropReference(b: nat, p: nat)
      requires Valid() && b < NEW_BUCKET_COUNT && p < BUCKET_SIZE && vvNew[b, p] != FREE && vvNew[b, p] in info
      modifies `info, vvNew
      ensures Slot(b, p) in old(Model()).news && old(Model()).news[Slot(b, p)] == old(vvNew[b, p])
      ensures Model() == Release(old(Model()), Slot(b, p))
    {
      var id := vvNew[b, p];
      assert Slot(b, p) in TableOf(vvNew) && TableOf(vvNew)[Slot(b, p)] == id;
      info := info[id := info[id].(refCount := info[id].refCount - 1)];
      SetNew(b, p, FREE);
    }

    method AddReference(b: nat, p: nat, id: int)
      requires Valid() && b < NEW_BUCKET_COUNT && p < BUCKET_SIZE && id in info && id != FREE && vvNew[b, p] == FREE
      modifies `info, vvNew
      ensures Model() == Occupy(old(Model()), Slot(b, p), id)
    {
      info := info[id := info[id].(refCount := info[id].refCount + 1)];
      SetNew(b, p, id);
    }

    method ClearSlot(b: nat, p: nat, ghost out: set<int>, ghost idle: set<int>)
      requires Valid() && b < NEW_BUCKET_COUNT && p < BUCKET_SIZE && Coherent(e, Model(), out, idle)
      modifies this, vvNew
      ensures Model() == ClearNew(e, old(Model()), Slot(b, p)) && vvNew[b, p] == FREE
    {
      ghost var s := Model();
      if vvNew[b, p] != FREE {
        var id := vvNew[b, p];
        assert Slot(b, p) in s.news;
        SlotEntry(e, s, Slot(b, p), out, idle);
        assert info[id].refCount > 0;
        ReleaseKeeps(e, s, Slot(b, p), out, idle);
        DropReference(b, p);
        if info[id].refCount == 0 {
          DeleteEntry(id);
        }
      }
    }

    // -------------------------------------------------------------- the tried table

    /** One bucket of the loop at the start of MakeTried; tells whether the last reference is gone. */
    method VisitBucket(id: int, start: nat, n: nat, ghost s: State) returns (done: bool, next: nat)
      requires Valid() && Searching(e, s, Model(), id, start, n) && n < NEW_BUCKET_COUNT
      modifies `info, vvNew
      ensures Searching(e, s, Model(), id, start, next) && next == (if done then n else n + 1) <= NEW_BUCKET_COUNT
      ensures id in info && (done ==> info[id].refCount == 0)
    {
      next := n + 1;
      var bucket: NewBucket := (start + n) % NEW_BUCKET_COUNT;
      var pos := e.newPos(bucket, info[id].service);
      if vvNew[bucket, pos] == id {
        SearchHits(e, s, Model(), id, start, n, Slot(bucket, pos));
        DropReference(bucket, pos);
        if info[id].refCount == 0 { return true, n; }
      }
      SearchMisses(e, s, Model(), id, start, n, bucket);
      done := false;
    }

    /** The visit to one bucket after another. */
    method SearchBuckets(id: int, start: nat, ghost s: State)
      requires Valid() && Searching(e, s, Model(), id, start, 0)
      modifies `info, vvNew
      ensures Model() == Withdraw(s, id)
    {
      var n: nat, done := 0, false;
      while n < NEW_BUCKET_COUNT && !done
        invariant Searching(e, s, Model(), id, start, n) && n <= NEW_BUCKET_COUNT
        invariant id in info && (done ==> info[id].refCount == 0)
        decreases NEW_BUCKET_COUNT - n, !done
      {
        done, n := VisitBucket(id, start, n, s);
      }
      SearchOver(e, s, Model(), id, start, n);
    }

    /**
     MakeTried takes the entry out of all new buckets, going around from the bucket of its own
     source and stopping early once the last reference is gone.
     */
    method WithdrawEntry(id: int)
      requires Valid() && id in info && !info[id].inTried && Coherent(e, Model(), {}, {})
      modifies `info, vvNew
      ensures Model() == Withdraw(old(Model()), id)
    {
      var start: nat := e.newBucket(info[id].service, info[id].source);
      SearchStarts(e, Model(), id, start);
      SearchBuckets(id, start, Model());
    }

    method UntryEntry(b: nat, p: nat)
      requires Valid() && b < TRIED_BUCKET_COUNT && p < BUCKET_SIZE && vvTried[b, p] != FREE && vvTried[b, p] in info
      modifies this, vvTried
      ensures Slot(b, p) in old(Model()).tried && old(Model()).tried[Slot(b, p)] == old(vvTried[b, p])
      ensures Model() == Untry(e, old(Model()), Slot(b, p)) && vvTried[b, p] == FREE
    {
      var id := vvTried[b, p];
      assert Slot(b, p) in TableOf(vvTried) && TableOf(vvTried)[Slot(b, p)] == id;
      info := info[id := info[id].(inTried := false)];
      SetTried(b, p, FREE);
      nTried := nTried - 1;
      counts := Bump(counts, e.network(info[id].service), 0, -1);
    }

    method TryEntry(b: nat, p: nat, id: int)
      requires Valid() && b < TRIED_BUCKET_COUNT && p < BUCKET_SIZE && id in info && id != FREE
      requires Slot(b, p) == TriedSlot(e, info[id].service) && vvTried[b, p] == FREE
      modifies this, vvTried
      ensures Model() == Try(e, old(Model()), id)
    {
      SetTried(b, p, id);
      nTried := nTried + 1;
      info := info[id := info[id].(inTried := true)];
      counts := Bump(counts, e.network(info[id].service), 0, 1);
    }

    method CountNew(id: int)
      requires Valid() && id in info
      modifies this
      ensures Model() == Recount(e, old(Model()), id)
    {
      nNew := nNew + 1;
      counts := Bump(counts, e.network(info[id].service), 1, 0);
    }

    method UncountNew(id: int)
      requires Valid() && id in info
      modifies this
      ensures Model() == Uncount(e, old(Model()), id)
    {
      nNew := nNew - 1;
      counts := Bump(counts, e.network(info[id].service), -1, 0);
    }

    /** An entry in neither table is entered at its home slot of the new table. */
    method ReturnHome(id: int, home: NewBucket, pos: Position, ghost out: set<int>)
      requires Valid() && id in info && id in out && Coherent(e, Model(), out, {})
      requires Slot(home, pos) == NewSlot(e, info[id].service, info[id].source)
      modifies this, vvNew
      ensures var r := ClearNew(e, old(Model()), Slot(home, pos));
        id in r.info && Model() == Occupy(Recount(e, r, id), Slot(home, pos), id)
    {
      OutHasNoSlot(e, Model(), id, Slot(home, pos), out, {});
      ClearNewFrame(e, Model(), Slot(home, pos), id);
      ClearSlot(home, pos, out, {});
      CountNew(id);
      AddReference(home, pos, id);
    }

    method TakeOut(b: nat, p: nat, ghost out: set<int>) returns (id: int)
      requires Valid() && b < TRIED_BUCKET_COUNT && p < BUCKET_SIZE && vvTried[b, p] != FREE
      requires Coherent(e, Model(), out, {})
      modifies this, vvTried
      ensures Slot(b, p) in old(Model()).tried && id == old(Model()).tried[Slot(b, p)] && id in old(info)
      ensures Model() == Untry(e, old(Model()), Slot(b, p)) && vvTried[b, p] == FREE
      ensures id in info && Coherent(e, Model(), out + {id}, {})
    {
      assert Slot(b, p) in Model().tried;
      id := vvTried[b, p];
      UntryKeeps(e, Model(), Slot(b, p), out, {});
      UntryEntry(b, p);
    }

    /** The tried entry in a slot goes back to the new table. */
    method EvictEntry(b: nat, p: nat, ghost out: set<int>)
      requires Valid() && b < TRIED_BUCKET_COUNT && p < BUCKET_SIZE && vvTried[b, p] != FREE
      requires Coherent(e, Model(), out, {})
      modifies this, vvTried, vvNew
      ensures Model() == MakeRoom(e, old(Model()), Slot(b, p)) && vvTried[b, p] == FREE
    {
      ghost var s := Model();
      var id := TakeOut(b, p, out);
      var home := e.newBucket(info[id].service, info[id].source);
      ghost var u := Model();
      ReturnHome(id, home, e.newPos(home, info[id].service), out + {id});
      EvictIs(e, s, Slot(b, p), id, u);
    }

    /** MakeTried. */
    method PromoteEntry(id: int)
      requires Valid() && id in info && !info[id].inTried && Coherent(e, Model(), {}, {})
      modifies this, vvTried, vvNew
      ensures Model() == MakeTried(e, old(Model()), id)
    {
      ghost var s := Model();
      WithdrawEntry(id);
      UncountNew(id);
      assert info[id].refCount == 0;
      LoosenedKeeps(e, s, id);
      ghost var u := Model();
      var bucket := e.triedBucket(info[id].service);
      var pos := e.triedPos(bucket, info[id].service);
      RoomMade(e, u, id, Slot(bucket, pos));
      if vvTried[bucket, pos] != FREE {
        EvictEntry(bucket, pos, {id});
      }
      TryEntry(bucket, pos, id);
    }

    // -------------------------------------------------------------- Add

    /** The second half of AddSingle. */
    method OfferEntry(id: int, source: NetAddr, now: int) returns (added: bool)
      requires Valid() && id in info && !info[id].inTried && Coherent(e, Model(), {}, {id})
      modifies this, vvNew
      ensures (Model(), added) == Offer(e, old(Model()), id, source, now)
    {
      ghost var s := Model();
      var a := info[id].service;
      var bucket := e.newBucket(a, source);
      var pos := e.newPos(bucket, a);
      ghost var slot := Slot(bucket, pos);
      added := vvNew[bucket, pos] == FREE;
      if vvNew[bucket, pos] != id {
        if !added {
          assert slot in s.news && s.news[slot] == vvNew[bucket, pos];
          SlotEntry(e, s, slot, {}, {id});
          var there := info[vvNew[bucket, pos]];
          added := IsTerrible(there, now) || (there.refCount > 1 && info[id].refCount == 0);
        }
        if added {
          ClearNewFrame(e, s, slot, id);
          ClearSlot(bucket, pos, {}, {id});
          AddReference(bucket, pos, id);
        } else if info[id].refCount == 0 {
          DeleteEntry(id);
        }
      }
    }

    /** AddSingle for a known address; `lucky` is the outcome of its random test. */
    method AddKnown(id: int, a: Address, source: NetAddr, penalty: int, now: int, lucky: bool) returns (added: bool)
      requires Valid() && id in info && Coherent(e, Model(), {}, {})
      modifies this, vvNew
      ensures (Model(), added) == AddAgain(e, old(Model()), id, a, source, penalty, now, lucky)
    {
      ghost var s := Model();
      var i := Refreshed(info[id], a, penalty, now);
      info := info[id := i];
      if a.time <= i.time || i.inTried || i.refCount == NEW_BUCKETS_PER_ADDRESS || !lucky { return false; }
      RefreshKeeps(e, s, id, i, source, now);
      Idle(e, Model(), id);
      added := OfferEntry(id, source, now);
    }

    method AddUnknown(a: Address, source: NetAddr, penalty: int, now: int) returns (added: bool)
      requires Valid() && Consistent(e, Model()) && a.service !in index
      modifies this, vvNew
      ensures (Model(), added) == AddFirst(e, old(Model()), a, source, penalty, now)
    {
      Created(e, Model(), Penalised(a, penalty), source);
      var id := CreateEntry(Penalised(a, penalty), source);
      added := OfferEntry(id, source, now);
    }

    /** AddSingle. */
    method AddOne(a: Address, source: NetAddr, timePenalty: int, now: int, lucky: bool) returns (added: bool)
      requires Valid() && Consistent(e, Model())
      modifies this, vvNew
      ensures (Model(), added) == AddSingle(e, old(Model()), a, source, timePenalty, now, lucky)
    {
      if !e.routable(a.service) { return false; }
      var penalty := if a.service.host == source then 0 else timePenalty;
      var id := Find(a.service);
      if id != FREE {
        added := AddKnown(id, a, source, penalty, now, lucky);
      } else {
        added := AddUnknown(a, source, penalty, now);
      }
    }

    /** One round of the loop of Add_. */
    method AddNext(c: seq<Candidate>, k: nat, source: NetAddr, penalty: int, n: nat, ghost s: State)
      returns (added: nat)
      requires Valid() && k < |c| && Consistent(e, Model())
      requires (Model(), n) == Add(e, s, c[..k], source, penalty)
      modifies this, vvNew
      ensures (Model(), added) == Add(e, s, c[..k + 1], source, penalty) && Consistent(e, Model())
    {
      AddLast(e, s, c, k, source, penalty, Model(), n);
      AddSingleKeeps(e, Model(), c[k].address, source, penalty, c[k].now, c[k].lucky);
      var ok := AddOne(c[k].address, source, penalty, c[k].now, c[k].lucky);
      return if ok then n + 1 else n;
    }

    /** Add_. */
    method AddAll(c: seq<Candidate>, source: NetAddr, penalty: int) returns (any: bool)
      requires Valid() && Consistent(e, Model())
      modifies this, vvNew
      ensures Model() == Add(e, old(Model()), c, source, penalty).0
              && any == (Add(e, old(Model()), c, source, penalty).1 > 0)
      ensures Consistent(e, Model())
    {
      ghost var s := Model();
      var added := 0;
      for k := 0 to |c|
        invariant (Model(), added) == Add(e, s, c[..k], source, penalty) && Consistent(e, Model())
      {
        added := AddNext(c, k, source, penalty, added, s);
      }
      assert c[..|c|] == c;
      return added > 0;
    }

    // -------------------------------------------------------------- Good and the statistics

    method Praise(id: int, time: int)
      requires Valid() && id in info
      modifies `info, `lastGood
      ensures Model() == Praised(old(Model()), id, time)
    {
      lastGood := time;
      info := info[id := info[id].(lastSuccess := time, lastTry := time, attempts := 0)];
    }

    method Remember(id: int)
      requires Valid()
      modifies `collisions
      ensures Model() == Collide(old(Model()), id)
    {
      if |collisions| < SET_TRIED_COLLISION_SIZE {
        collisions := collisions + {id};
      }
    }

    method TriedTaken(id: int) returns (taken: bool)
      requires Valid() && id in info
      ensures taken == (TriedSlot(e, info[id].service) in Model().tried)
    {
      var bucket := e.triedBucket(info[id].service);
      return vvTried[bucket, e.triedPos(bucket, info[id].service)] != FREE;
    }

    /** Good_ for a known address. */
    method GoodKnown(id: int, testBeforeEvict: bool, time: int) returns (moved: bool)
      requires Valid() && id in info && Coherent(e, Model(), {}, {})
      modifies this, vvTried, vvNew
      ensures (Model(), moved) == GoodEntry(e, old(Model()), id, testBeforeEvict, time)
    {
      PraisedKeeps(e, Model(), id, time);
      Praise(id, time);
      if info[id].inTried || info[id].refCount <= 0 { return false; }
      var taken := TriedTaken(id);
      if testBeforeEvict && taken {
        Remember(id);
        return false;
      }
      PromoteEntry(id);
      return true;
    }

    /** Good_. */
    method MarkGood(a: Service, testBeforeEvict: bool, time: int) returns (moved: bool)
      requires Valid() && Sound(e, Model())
      modifies this, vvTried, vvNew
      ensures (Model(), moved) == Good(e, old(Model()), a, testBeforeEvict, time)
    {
      var id := Find(a);
      if id == FREE {
        lastGood := time;
        return false;
      }
      moved := GoodKnown(id, testBeforeEvict, time);
    }

    method MarkAttempt(a: Service, countFailure: bool, time: int)
      requires Valid() && IndexOk(info, index, nIdCount)
      modifies `info
      ensures Model() == Attempt(old(Model()), a, countFailure, time)
    {
      var id := Find(a);
      if id == FREE { return; }
      info := info[id := info[id].(lastTry := time)];
      if countFailure && info[id].lastCountAttempt < lastGood {
        info := info[id := info[id].(lastCountAttempt := time, attempts := info[id].attempts + 1)];
      }
    }

    method MarkConnected(a: Service, time: int)
      requires Valid() && IndexOk(info, index, nIdCount)
      modifies `info
      ensures Model() == Connected(old(Model()), a, time)
    {
      var id := Find(a);
      if id == FREE { return; }
      if time - info[id].time > 20 * MINUTE {
        info := info[id := info[id].(time := time)];
      }
    }

    method UpdateServices(a: Service, services: set<nat>)
      requires Valid() && IndexOk(info, index, nIdCount)
      modifies `info
      ensures Model() == SetServices(old(Model()), a, services)
    {
      var id := Find(a);
      if id == FREE { return; }
      info := info[id := info[id].(services := services)];
    }

    // -------------------------------------------------------------- collisions

    method DecideCollision(id: int, now: int) returns (d: Decision)
      requires Valid() && TriedOk(e, info, TableOf(vvTried))
      ensures d == Decide(e, Model(), id, now)
    {
      if id !in info || !e.valid(info[id].service) { return Erase; }
      var i := info[id];
      var bucket := e.triedBucket(i.service);
      var pos := e.triedPos(bucket, i.service);
      if vvTried[bucket, pos] == FREE { return Replace; }
      assert Slot(bucket, pos) in TableOf(vvTried);
      var there := info[vvTried[bucket, pos]];
      if now - there.lastSuccess < REPLACEMENT { return Erase; }
      if now - there.lastTry < REPLACEMENT {
        return if now - there.lastTry > MINUTE then Replace else Keep;
      }
      return if now - i.lastSuccess > TEST_WINDOW then Replace else Keep;
    }

    /** One round of the loop of ResolveCollisions_. */
    method ResolveCollision(id: int, now: int)
      requires Valid() && Coherent(e, Model(), {}, {})
      modifies this, vvTried, vvNew
      ensures Model() == ResolveOne(e, old(Model()), id, now)
    {
      var d := DecideCollision(id, now);
      if d != Keep {
        collisions := collisions - {id};
        if d == Replace {
          var moved := GoodKnown(id, false, now);
        }
      }
    }

    method ResolveNext(id: int, now: int, ghost s: State, ghost ids: seq<int>, ghost clock: int -> int)
      requires Valid() && Sound(e, Model()) && Model() == Resolve(e, s, ids, clock) && now == clock(id)
      modifies this, vvTried, vvNew
      ensures Sound(e, Model()) && Model() == Resolve(e, s, ids + [id], clock)
    {
      ResolveOneSound(e, Model(), id, now);
      assert (ids + [id])[..|ids|] == ids;
      ResolveCollision(id, now);
    }

    /** ResolveCollisions_: the collisions in ascending order, each with the time the clock shows for it. */
    method ResolveCollisions(clock: int -> int) returns (ids: seq<int>)
      requires Valid() && Sound(e, Model())
      modifies this, vvTried, vvNew
      ensures Ascending(ids) && (forall id :: id in ids <==> id in old(collisions))
      ensures Model() == Resolve(e, old(Model()), ids, clock) && Sound(e, Model())
    {
      ghost var s := Model();
      var todo := collisions;
      ids := [];
      while todo != {}
        invariant Sound(e, Model()) && Model() == Resolve(e, s, ids, clock)
        invariant Handled(s.collisions, ids, todo)
        decreases todo
      {
        var id := Smallest(todo);
        HandleNext(s.collisions, ids, todo, id);
        ResolveNext(id, clock(id), s, ids, clock);
        ids := ids + [id];
        todo := todo - {id};
      }
    }

    /** SelectTriedCollision_; any of the collisions may be drawn. */
    method SelectCollision() returns (found: Found, ghost drawn: int)
      requires Valid()
      modifies `collisions
      ensures old(collisions) == {} ==> found == Nothing && Model() == old(Model())
      ensures old(collisions) != {} ==>
        drawn in old(collisions) && (Model(), found) == SelectTriedCollision(e, old(Model()), drawn)
    {
      drawn := 0;
      if collisions == {} { return Nothing, drawn; }
      SomeMember(collisions);
      var id :| id in collisions;
      drawn := id;
      if id !in info {
        collisions := collisions - {id};
        return Nothing, drawn;
      }
      var bucket := e.triedBucket(info[id].service);
      var pos := e.triedPos(bucket, info[id].service);
      return if vvTried[bucket, pos] == FREE then Nothing else Entry(vvTried[bucket, pos]), drawn;
    }

    // -------------------------------------------------------------- GetAddr

    /**
     GetAddr_: returns the ids whose addresses are sent, and how many places were looked at.
     */
    method GetAddr(maxAddresses: nat, maxPct: nat, filter: Filter, now: int, draw: nat -> nat)
      returns (ids: seq<int>, ghost visited: nat)
      requires Valid() && Consistent(e, Model())
      modifies `info, `random
      ensures visited <= |old(random)| && Model() == Shuffle(old(Model()), visited, draw)
      ensures Distinct(ids) && forall k :: k in ids ==> k in Eligible(e, old(Model()), filter, now)
      ensures var limit, all := Limit(|old(random)|, maxAddresses, maxPct), |Eligible(e, old(Model()), filter, now)|;
        |ids| == if limit < all then limit else all
    {
      ghost var s := Model();
      var limit := Limit(|random|, maxAddresses, maxPct);
      var n: nat := 0;
      ids := [];
      GatherStarts(e, s, draw, filter, now);
      while n < |random| && |ids| < limit
        invariant Gathering(e, s, Model(), n, ids, draw, filter, now) && |ids| <= limit
        decreases |s.random| - n
      {
        ids := VisitPlace(n, ids, draw, filter, now, s);
        n := n + 1;
      }
      visited := n;
      GatherEnds(e, s, Model(), n, ids, draw, filter, now, limit);
    }

    method VisitPlace(n: nat, ids: seq<int>, draw: nat -> nat, filter: Filter, now: int, ghost s: State)
      returns (more: seq<int>)
      requires Valid() && n < |random| && Gathering(e, s, Model(), n, ids, draw, filter, now)
      modifies `info, `random
      ensures Gathering(e, s, Model(), n + 1, more, draw, filter, now) && |more| <= |ids| + 1
    {
      GatherStep(e, s, Model(), n, ids, draw, filter, now);
      SwapPlaces(n, Drawn(|random|, n, draw));
      return if Wanted(e, info[random[n]], filter, now) then ids + [random[n]] else ids;
    }

    /** Size_: the counters give the numbers of entries. */
    method Size(filter: Filter, kind: Kind) returns (n: int)
      requires Valid() && Consistent(e, Model())
      ensures n == |Members(e, Model(), filter, kind)|
    {
      SizeCounts(e, Model(), filter, kind);
      if filter.AnyNetwork? {
        return if kind == InNew then nNew else if kind == InTried then nTried else |random|;
      }
      if filter.net !in counts { return 0; }
      var c := counts[filter.net];
      return if kind == InNew then c.news else if kind == InTried then c.tries else c.news + c.tries;
    }
  }
}
