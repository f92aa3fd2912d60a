/**
 How the coin database writes a cache that does not fit into one batch. Before the first coin is
 written the database is marked as being between two blocks, and only the last batch removes the
 mark. So a database found after an interruption tells what it was in the middle of, holds nothing
 that is neither old nor new, and is completed by writing the same cache again.
 */
module CoinsDatabase {
  import opened Coins

  /** The coins, the best block unless the database is between blocks, and then those two blocks. */
  datatype Database = Database(coins: Utxos, best: Hash, heads: seq<Hash>)

  datatype Change =
    | Begin(hash: Hash, oldTip: Hash)
    | Save(o: OutPoint, coin: Coin)
    | Remove(o: OutPoint)
    | End(hash: Hash)

  function Apply(db: Database, c: Change): Database {
    match c
    case Begin(hash, oldTip) => db.(best := NULL_HASH, heads := [hash, oldTip])
    case Save(o, coin) => db.(coins := db.coins[o := coin])
    case Remove(o) => db.(coins := db.coins - {o})
    case End(hash) => db.(best := hash, heads := [])
  }

  function ApplyAll(db: Database, cs: seq<Change>): Database {
    if cs == [] then db else Apply(ApplyAll(db, cs[..|cs| - 1]), cs[|cs| - 1])
  }

  /** The block the coins are at, or were at before the interruption. */
  function OldTip(db: Database): Hash {
    if db.best == NULL_HASH && |db.heads| == 2 then db.heads[1] else db.best
  }

  /** What is written for one entry of the cache: nothing unless it is DIRTY. */
  function ChangesFor(child: CoinsMap, o: OutPoint): seq<Change>
    requires o in child
  {
    if !child[o].isDirty then [] else if child[o].coin.IsSpent() then [Remove(o)] else [Save(o, child[o].coin)]
  }

  /** The changes for some entries, in the order in which they are visited. */
  function Changes(child: CoinsMap, order: seq<OutPoint>): seq<Change>
    requires forall i :: 0 <= i < |order| ==> order[i] in child
  {
    if order == [] then []
    else Changes(child, order[..|order| - 1]) + ChangesFor(child, order[|order| - 1])
  }

  /** An order in which every entry is visited. */
  ghost predicate Visits(child: CoinsMap, order: seq<OutPoint>) {
    (forall i :: 0 <= i < |order| ==> order[i] in child) && forall o :: o in child ==> o in order
  }

  /** Everything BatchWrite writes, one change after the other. */
  ghost function Plan(db: Database, child: CoinsMap, order: seq<OutPoint>, hash: Hash): seq<Change>
    requires Visits(child, order)
  {
    [Begin(hash, OldTip(db))] + Changes(child, order) + [End(hash)]
  }

  // ---------------------------------------------------------------- changes in sequence

  lemma {:induction false} ApplySplit(db: Database, a: seq<Change>, b: seq<Change>)
    ensures ApplyAll(db, a + b) == ApplyAll(ApplyAll(db, a), b)
  {
    if b == [] {
      assert a + b == a;
    } else {
      ApplySplit(db, a, b[..|b| - 1]);
      assert (a + b)[..|a + b| - 1] == a + b[..|b| - 1];
    }
  }

  lemma {:induction false} ApplyOne(db: Database, c: Change)
    ensures ApplyAll(db, [c]) == Apply(db, c)
  {
    assert [c][..0] == [];
    assert ApplyAll(db, []) == db;
  }

  /** A change of the coin at one outpoint to what the cache has for it. */
  predicate IsCoinChange(child: CoinsMap, c: Change) {
    match c
    case Save(o, coin) => o in child && child[o].isDirty && !child[o].coin.IsSpent() && coin == child[o].coin
    case Remove(o) => o in child && child[o].isDirty && child[o].coin.IsSpent()
    case _ => false
  }

  lemma {:induction false} ChangesAreCoins(child: CoinsMap, order: seq<OutPoint>)
    requires forall i :: 0 <= i < |order| ==> order[i] in child
    ensures forall i :: 0 <= i < |Changes(child, order)| ==> IsCoinChange(child, Changes(child, order)[i])
  {
    if order != [] {
      ChangesAreCoins(child, order[..|order| - 1]);
    }
  }

  function CoinAt(coins: Utxos, o: OutPoint): Option<Coin> {
    if o in coins then Some(coins[o]) else None
  }

  /** The coin that the cache wants at an outpoint; what it has not modified it leaves alone. */
  function Wanted(coins: Utxos, child: CoinsMap, o: OutPoint): Option<Coin> {
    if o !in child || !child[o].isDirty then CoinAt(coins, o)
    else if child[o].coin.IsSpent() then None
    else Some(child[o].coin)
  }

  /** Every coin is as it was or as the cache wants it. */
  ghost predicate Between(before: Utxos, child: CoinsMap, coins: Utxos) {
    forall o :: CoinAt(coins, o) == CoinAt(before, o) || CoinAt(coins, o) == Wanted(before, child, o)
  }

  lemma {:induction false} CoinChanges(db: Database, child: CoinsMap, cs: seq<Change>, before: Utxos)
    requires (forall i :: 0 <= i < |cs| ==> IsCoinChange(child, cs[i])) && Between(before, child, db.coins)
    ensures Between(before, child, ApplyAll(db, cs).coins)
    ensures ApplyAll(db, cs).best == db.best && ApplyAll(db, cs).heads == db.heads
  {
    if cs != [] {
      CoinChanges(db, child, cs[..|cs| - 1], before);
      assert IsCoinChange(child, cs[|cs| - 1]);
    }
  }

  lemma {:induction false} VisitOne(q: Database, child: CoinsMap, last: OutPoint, o: OutPoint)
    requires last in child
    ensures var e, r := child[last], ApplyAll(q, ChangesFor(child, last));
      CoinAt(r.coins, o) ==
        if o != last || !e.isDirty then CoinAt(q.coins, o) else if e.coin.IsSpent() then None else Some(e.coin)
  {
    assert ApplyAll(q, []) == q;
    ApplyOne(q, Remove(last));
    ApplyOne(q, Save(last, child[last].coin));
  }

  /** Once an entry has been visited, its coin is as the cache wants it. */
  lemma {:induction false} Visited(db: Database, child: CoinsMap, order: seq<OutPoint>, o: OutPoint)
    requires forall i :: 0 <= i < |order| ==> order[i] in child
    ensures var r := ApplyAll(db, Changes(child, order));
      CoinAt(r.coins, o) == if o in order then Wanted(db.coins, child, o) else CoinAt(db.coins, o)
  {
    if order == [] {
      assert ApplyAll(db, []) == db;
    } else {
      var front, last := order[..|order| - 1], order[|order| - 1];
      assert order == front + [last];
      Visited(db, child, front, o);
      ApplySplit(db, Changes(child, front), ChangesFor(child, last));
      VisitOne(ApplyAll(db, Changes(child, front)), child, last, o);
    }
  }

  // ---------------------------------------------------------------- the whole plan

  lemma {:induction false} SameCoins(a: Utxos, b: Utxos)
    requires forall o :: CoinAt(a, o) == CoinAt(b, o)
    ensures a == b
  {
    assert forall o :: o in a <==> o in b by {
      forall o ensures o in a <==> o in b {
        assert CoinAt(a, o) == CoinAt(b, o);
      }
    }
    forall o | o in a ensures a[o] == b[o] {
      assert CoinAt(a, o) == CoinAt(b, o);
    }
  }

  lemma {:induction false} WrittenIsWanted(coins: Utxos, child: CoinsMap, o: OutPoint)
    ensures CoinAt(WriteCoins(coins, child), o) == Wanted(coins, child, o)
  {
  }

  /** Written to the end, the database has the coins and the block of the cache, and no mark. */
  lemma {:induction false} Completed(db: Database, child: CoinsMap, order: seq<OutPoint>, hash: Hash)
    requires Visits(child, order)
    ensures ApplyAll(db, Plan(db, child, order, hash)) == Database(WriteCoins(db.coins, child), hash, [])
  {
    var begin, changes := Begin(hash, OldTip(db)), Changes(child, order);
    var b := Apply(db, begin);
    ApplySplit(db, [begin] + changes, [End(hash)]);
    ApplySplit(db, [begin], changes);
    ApplyOne(db, begin);
    var c := ApplyAll(b, changes);
    ApplyOne(c, End(hash));
    forall o ensures CoinAt(c.coins, o) == CoinAt(WriteCoins(db.coins, child), o) {
      Visited(b, child, order, o);
      WrittenIsWanted(db.coins, child, o);
    }
    SameCoins(c.coins, WriteCoins(db.coins, child));
  }

  /**
   Interrupted anywhere between the first change and the last, the database has no best block, is
   marked with the block it was going to and the one it came from, and every coin in it is as it was
   or as it will be.
   */
  lemma {:induction false} Interrupted(db: Database, child: CoinsMap, order: seq<OutPoint>, hash: Hash, n: nat)
    requires Visits(child, order) && 0 < n < |Plan(db, child, order, hash)|
    ensures var r := ApplyAll(db, Plan(db, child, order, hash)[..n]);
      r.best == NULL_HASH && r.heads == [hash, OldTip(db)] && Between(db.coins, child, r.coins)
  {
    var begin, changes := Begin(hash, OldTip(db)), Changes(child, order);
    var done := changes[..n - 1];
    assert Plan(db, child, order, hash)[..n] == [begin] + done;
    ApplySplit(db, [begin], done);
    ApplyOne(db, begin);
    ChangesAreCoins(child, order);
    CoinChanges(Apply(db, begin), child, done, db.coins);
  }

  /**
   Writing the same cache again, in any order, completes an interrupted write: the block named by
   the mark is the one asserted, the old block is still known, and the result is the same.
   */
  lemma {:induction false} Resumed(
    db: Database, child: CoinsMap, order: seq<OutPoint>, hash: Hash, n: nat, again: seq<OutPoint>)
    requires Visits(child, order) && 0 < n < |Plan(db, child, order, hash)| && Visits(child, again)
    ensures var r := ApplyAll(db, Plan(db, child, order, hash)[..n]);
      && |r.heads| == 2 && r.heads[0] == hash && OldTip(r) == OldTip(db)
      && ApplyAll(r, Plan(r, child, again, hash)) == Database(WriteCoins(db.coins, child), hash, [])
  {
    var r := ApplyAll(db, Plan(db, child, order, hash)[..n]);
    Interrupted(db, child, order, hash, n);
    Completed(r, child, again, hash);
    forall o ensures CoinAt(WriteCoins(r.coins, child), o) == CoinAt(WriteCoins(db.coins, child), o) {
      WrittenIsWanted(r.coins, child, o);
      WrittenIsWanted(db.coins, child, o);
      assert CoinAt(r.coins, o) == CoinAt(db.coins, o) || CoinAt(r.coins, o) == Wanted(db.coins, child, o);
    }
    SameCoins(WriteCoins(r.coins, child), WriteCoins(db.coins, child));
  }

  // ---------------------------------------------------------------- BatchWrite

  /** The first i entries have been visited; of the changes for them, those in `batch` wait to be written. */
  ghost predicate Progress(
    was: Database, child: CoinsMap, order: seq<OutPoint>, hash: Hash, i: nat,
    written: seq<Change>, batch: seq<Change>, db: Database)
  {
    && Visits(child, order) && i <= |order| && db == ApplyAll(was, written)
    && written + batch == [Begin(hash, OldTip(was))] + Changes(child, order[..i])
  }

  lemma {:induction false} ProgressStarts(
    was: Database, child: CoinsMap, order: seq<OutPoint>, hash: Hash, batch: seq<Change>)
    requires Visits(child, order) && batch == [Begin(hash, OldTip(was))]
    ensures Progress(was, child, order, hash, 0, [], batch, was)
  {
    assert order[..0] == [];
    assert [] + batch == batch && batch + [] == batch;
  }

  lemma {:induction false} ProgressEntry(
    was: Database, child: CoinsMap, order: seq<OutPoint>, hash: Hash, i: nat,
    written: seq<Change>, batch: seq<Change>, db: Database)
    requires Progress(was, child, order, hash, i, written, batch, db) && i < |order|
    ensures Progress(was, child, order, hash, i + 1, written, batch + ChangesFor(child, order[i]), db)
  {
    var more := ChangesFor(child, order[i]);
    assert order[..i + 1][..i] == order[..i];
    assert Changes(child, order[..i + 1]) == Changes(child, order[..i]) + more;
    Regroup(written, batch, more);
    Regroup([Begin(hash, OldTip(was))], Changes(child, order[..i]), more);
  }

  lemma {:induction false} Regroup(a: seq<Change>, b: seq<Change>, c: seq<Change>)
    ensures a + (b + c) == a + b + c
  {
  }

  lemma {:induction false} ProgressWrites(
    was: Database, child: CoinsMap, order: seq<OutPoint>, hash: Hash, i: nat,
    written: seq<Change>, batch: seq<Change>, db: Database)
    requires Progress(was, child, order, hash, i, written, batch, db)
    ensures Progress(was, child, order, hash, i, written + batch, [], ApplyAll(db, batch))
  {
    ApplySplit(was, written, batch);
    assert written + batch + [] == written + batch;
  }

  lemma {:induction false} ProgressEnds(
    was: Database, child: CoinsMap, order: seq<OutPoint>, hash: Hash,
    written: seq<Change>, batch: seq<Change>, db: Database)
    requires Progress(was, child, order, hash, |order|, written, batch, db)
    ensures written + (batch + [End(hash)]) == Plan(was, child, order, hash)
    ensures ApplyAll(db, batch + [End(hash)]) == Database(WriteCoins(was.coins, child), hash, [])
  {
    assert order[..|order|] == order;
    Regroup(written, batch, [End(hash)]);
    ApplySplit(was, written, batch + [End(hash)]);
    Completed(was, child, order, hash);
  }

  /** A batch is written as a whole or not at all. */
  class CoinDatabase {
    var db: Database
    ghost var written: seq<Change>

    constructor (db: Database)
      ensures this.db == db && written == []
    {
      this.db, written := db, [];
    }

    method WriteBatch(batch: seq<Change>)
      modifies this
      ensures db == ApplyAll(old(db), batch) && written == old(written) + batch
    {
      for i := 0 to |batch|
        invariant db == ApplyAll(old(db), batch[..i]) && written == old(written)
      {
        assert batch[..i + 1][..i] == batch[..i];
        db := Apply(db, batch[i]);
      }
      assert batch[..|batch|] == batch;
      written := written + batch;
    }

    /**
     Partial batches are written whenever the current one has outgrown the limit; `written` is what
     has reached the database so far, always the beginning of the plan.
     */
    method BatchWrite(child: CoinsMap, order: seq<OutPoint>, hash: Hash, limit: nat)
      requires hash != NULL_HASH && Visits(child, order) && written == []
      requires db.best == NULL_HASH && |db.heads| == 2 ==> db.heads[0] == hash
      modifies this
      ensures db == Database(WriteCoins(old(db).coins, child), hash, [])
      ensures written == Plan(old(db), child, order, hash)
    {
      ghost var was := db;
      var oldTip := db.best;
      if oldTip == NULL_HASH && |db.heads| == 2 {
        assert db.heads[0] == hash;
        oldTip := db.heads[1];
      }
      var batch := [Begin(hash, oldTip)];
      ProgressStarts(was, child, order, hash, batch);
      for i := 0 to |order|
        invariant Progress(was, child, order, hash, i, written, batch, db)
      {
        ProgressEntry(was, child, order, hash, i, written, batch, db);
        batch := AddChanges(batch, child, order[i]);
        if |batch| > limit {
          ProgressWrites(was, child, order, hash, i + 1, written, batch, db);
          WriteBatch(batch);
          batch := [];
        }
      }
      ProgressEnds(was, child, order, hash, written, batch, db);
      WriteBatch(batch + [End(hash)]);
    }

    method AddChanges(batch: seq<Change>, child: CoinsMap, o: OutPoint) returns (r: seq<Change>)
      requires o in child
      ensures r == batch + ChangesFor(child, o)
    {
      r := batch;
      if child[o].isDirty {
        r := r + [if child[o].coin.IsSpent() then Remove(o) else Save(o, child[o].coin)];
      }
    }
  }
}
