/**
 CCoinsViewCache and the coin database below it as mutable objects. Every method is proved
 against the function on `Coins.Stack` that says what it does to the whole stack.
 */
module CoinsViewCaches {
  import opened Coins

  /** The coin database at the bottom of a stack. */
  class CoinsViewDb {
    var coins: Utxos
    var best: Hash

    constructor (coins: Utxos, best: Hash)
      ensures this.coins == coins && this.best == best
    {
      this.coins, this.best := coins, best;
    }

    ghost function Model(): Stack
      reads this
    {
      Bottom(coins, best)
    }

    method GetCoin(o: OutPoint) returns (found: bool, coin: Coin)
      ensures Lookup(Model(), found, coin) == Get(Model(), o)
    {
      found, coin := o in coins, if o in coins then coins[o] else EMPTY_COIN;
    }

    method WriteCoin(o: OutPoint, e: Entry)
      modifies this`coins
      ensures coins == Written(old(coins), o, e)
    {
      if e.isDirty {
        coins := if e.coin.IsSpent() then coins - {o} else coins[o := e.coin];
      }
    }

    /** Writes the dirty entries; `left` is what remains of the child's map. */
    method BatchWrite(child: CoinsMap, hash: Hash, erase: bool) returns (left: CoinsMap)
      requires hash != NULL_HASH
      modifies this
      ensures Model() == Coins.BatchWrite(old(Model()), child, hash)
      ensures left == if erase then map[] else child
    {
      var todo := child.Keys;
      ghost var was := coins;
      WritingStart(was, child);
      while todo != {}
        invariant Writing(was, child, todo, coins)
        decreases |todo|
      {
        var o :| o in todo;
        WritingNext(was, child, todo, o, coins);
        WriteCoin(o, child[o]);
        todo := todo - {o};
      }
      WritingEnd(was, child, coins);
      best := hash;
      left := if erase then map[] else child;
    }
  }

  function Restrict(m: CoinsMap, keys: set<OutPoint>): CoinsMap {
    map o | o in m && o in keys :: m[o]
  }

  lemma {:induction false} RestrictAll(m: CoinsMap)
    ensures Restrict(m, m.Keys) == m && Restrict(m, m.Keys - {}) == m
    ensures Restrict(m, m.Keys - m.Keys) == map[] && Restrict(m, {}) == map[]
  {
  }

  lemma {:induction false} RestrictStep(m: CoinsMap, todo: set<OutPoint>, o: OutPoint)
    requires o in todo && todo <= m.Keys
    ensures m.Keys - todo + {o} == m.Keys - (todo - {o})
    ensures Restrict(m, todo - {o}) == Restrict(m, todo) - {o}
    ensures Restrict(m, m.Keys - (todo - {o})) == Restrict(m, m.Keys - todo)[o := m[o]]
  {
  }

  /** A set of coins after one entry of a cache has been written to it. */
  function Written(coins: Utxos, o: OutPoint, e: Entry): Utxos {
    if !e.isDirty then coins else if e.coin.IsSpent() then coins - {o} else coins[o := e.coin]
  }

  lemma {:induction false} WriteCoinsStep(coins: Utxos, child: CoinsMap, o: OutPoint, e: Entry)
    requires o !in child
    ensures WriteCoins(coins, child[o := e]) == Written(WriteCoins(coins, child), o, e)
  {
  }

  /** The entries outside `todo` have been written. */
  ghost predicate Writing(was: Utxos, child: CoinsMap, todo: set<OutPoint>, coins: Utxos) {
    todo <= child.Keys && coins == WriteCoins(was, Restrict(child, child.Keys - todo))
  }

  lemma {:induction false} WritingStart(was: Utxos, child: CoinsMap)
    ensures Writing(was, child, child.Keys, was)
  {
    RestrictAll(child);
    assert WriteCoins(was, map[]) == was;
  }

  lemma {:induction false} WritingNext(was: Utxos, child: CoinsMap, todo: set<OutPoint>, o: OutPoint, coins: Utxos)
    requires o in todo && Writing(was, child, todo, coins)
    ensures o in child && Writing(was, child, todo - {o}, Written(coins, o, child[o]))
  {
    RestrictStep(child, todo, o);
    WriteCoinsStep(was, Restrict(child, child.Keys - todo), o, child[o]);
  }

  lemma {:induction false} WritingEnd(was: Utxos, child: CoinsMap, coins: Utxos)
    requires Writing(was, child, {}, coins)
    ensures coins == WriteCoins(was, child)
  {
    RestrictAll(child);
  }

  ghost predicate NoneMisapplied(cache: CoinsMap, child: CoinsMap, done: set<OutPoint>) {
    forall o :: o in child && o in done ==> !Misapplied(Find(cache, o), child[o])
  }

  lemma {:induction false} MergeNone(cache: CoinsMap, child: CoinsMap)
    ensures MergeMap(cache, child, {}) == cache && NoneMisapplied(cache, child, {})
  {
  }

  lemma {:induction false} MergeStep(cache: CoinsMap, child: CoinsMap, done: set<OutPoint>, o: OutPoint)
    requires o in child && o !in done
    ensures Find(MergeMap(cache, child, done), o) == Find(cache, o)
    ensures NoneMisapplied(cache, child, done) ==>
              (NoneMisapplied(cache, child, done + {o}) <==> !Misapplied(Find(cache, o), child[o]))
    ensures MergeMap(cache, child, done + {o})
            == Put(MergeMap(cache, child, done), o, MergeEntry(Find(cache, o), child[o]))
  {
  }

  function Put(m: CoinsMap, o: OutPoint, e: Option<Entry>): CoinsMap {
    if e.Some? then m[o := e.value] else m - {o}
  }

  /** What a cache sits on: CCoinsView is a database or another cache. */
  datatype CoinsView = OnDb(db: CoinsViewDb) | OnCache(cache: CoinsViewCache)

  class CoinsViewCache {
    const base: CoinsView
    var hashBlock: Hash
    var cacheCoins: CoinsMap
    var cachedCoinsUsage: int

    /** This cache and every object below it. */
    ghost const repr: set<object>

    ghost predicate Valid()
      decreases repr
    {
      match base
      case OnDb(db) => repr == {this, db}
      case OnCache(c) => this !in c.repr && repr == {this} + c.repr && c.Valid()
    }

    ghost function BaseModel(): Stack
      requires Valid()
      reads repr
      decreases repr, 0
    {
      match base
      case OnDb(db) => db.Model()
      case OnCache(c) => c.Model()
    }

    ghost function Model(): (s: Stack)
      requires Valid()
      reads repr
      ensures s.Layer?
      decreases repr, 1
    {
      Layer(cacheCoins, cachedCoinsUsage, hashBlock, BaseModel())
    }

    constructor Over(c: CoinsViewCache)
      requires c.Valid()
      ensures Valid() && base == OnCache(c) && fresh(this) && repr == {this} + c.repr
      ensures Model() == Layer(map[], 0, NULL_HASH, c.Model())
    {
      base, repr := OnCache(c), {this} + c.repr;
      hashBlock, cacheCoins, cachedCoinsUsage := NULL_HASH, map[], 0;
    }

    constructor OverDb(db: CoinsViewDb)
      ensures Valid() && base == OnDb(db) && fresh(this) && repr == {this, db}
      ensures Model() == Layer(map[], 0, NULL_HASH, db.Model())
    {
      base, repr := OnDb(db), {this, db};
      hashBlock, cacheCoins, cachedCoinsUsage := NULL_HASH, map[], 0;
    }

    method FetchCoin(o: OutPoint)
      requires Valid()
      modifies repr
      ensures Model() == Fetch(old(Model()), o)
      decreases repr, 0
    {
      if o in cacheCoins {
        return;
      }
      var found, coin;
      match base {
        case OnDb(db) => found, coin := db.GetCoin(o);
        case OnCache(c) => found, coin := c.GetCoin(o);
      }
      if !found {
        return;
      }
      cacheCoins := cacheCoins[o := Entry(coin, false, false)];
      if coin.IsSpent() {
        cacheCoins := cacheCoins[o := Entry(coin, false, true)];
      }
      cachedCoinsUsage := cachedCoinsUsage + coin.Usage();
    }

    method GetCoin(o: OutPoint) returns (found: bool, coin: Coin)
      requires Valid()
      modifies repr
      ensures Lookup(Model(), found, coin) == Get(old(Model()), o)
      decreases repr, 1
    {
      FetchCoin(o);
      if o in cacheCoins {
        return !cacheCoins[o].coin.IsSpent(), cacheCoins[o].coin;
      }
      return false, EMPTY_COIN;
    }

    /** Answers from the view, for a well-formed stack. */
    method HaveCoin(o: OutPoint) returns (have: bool)
      requires Valid() && WF(Model())
      modifies repr
      ensures have <==> o in old(View(Model()))
      ensures WF(Model()) && Views(Model()) == old(Views(Model())) && Model() == Fetch(old(Model()), o)
    {
      FetchCorrect(Model(), o);
      FetchCoin(o);
      have := o in cacheCoins && !cacheCoins[o].coin.IsSpent();
    }

    method AddCoin(o: OutPoint, coin: Coin, overwrite: bool) returns (threw: bool)
      requires Valid() && !coin.IsSpent()
      modifies this
      ensures threw == AddThrows(old(Model()), o, coin, overwrite)
      ensures Model() == Add(old(Model()), o, coin, overwrite)
    {
      if coin.out.script.IsUnspendable() {
        return false;
      }
      var inserted := o !in cacheCoins;
      var entry := if inserted then Entry(EMPTY_COIN, false, false) else cacheCoins[o];
      var freshNow := false;
      if !inserted {
        cachedCoinsUsage := cachedCoinsUsage - entry.coin.Usage();
      }
      if !overwrite {
        if !entry.coin.IsSpent() {
          return true;
        }
        freshNow := !entry.isDirty;
      }
      cacheCoins := cacheCoins[o := Entry(coin, true, entry.isFresh || freshNow)];
      cachedCoinsUsage := cachedCoinsUsage + coin.Usage();
      return false;
    }

    method SpendCoin(o: OutPoint) returns (spent: bool, moved: Coin)
      requires Valid()
      modifies repr
      ensures Spending(Model(), spent, moved) == Spend(old(Model()), o)
    {
      FetchCoin(o);
      if o !in cacheCoins {
        return false, EMPTY_COIN;
      }
      var entry := cacheCoins[o];
      cachedCoinsUsage := cachedCoinsUsage - entry.coin.Usage();
      moved := entry.coin;
      if entry.isFresh {
        cacheCoins := cacheCoins - {o};
      } else {
        cacheCoins := cacheCoins[o := Entry(EMPTY_COIN, true, entry.isFresh)];
      }
      spent := true;
    }

    method Uncache(o: OutPoint)
      requires Valid()
      modifies this
      ensures Model() == Coins.Uncache(old(Model()), o)
    {
      if o in cacheCoins && !cacheCoins[o].isDirty && !cacheCoins[o].isFresh {
        cachedCoinsUsage := cachedCoinsUsage - cacheCoins[o].coin.Usage();
        cacheCoins := cacheCoins - {o};
      }
    }

    method GetBestBlock() returns (hash: Hash)
      requires Valid()
      modifies repr
      ensures hash == BestBlock(old(Model())) && Model() == FillBest(old(Model()))
      decreases repr
    {
      if hashBlock == NULL_HASH {
        match base {
          case OnDb(db) => hashBlock := db.best;
          case OnCache(c) =>
            var below := c.GetBestBlock();
            hashBlock := below;
        }
      }
      hash := hashBlock;
    }

    /** The body of BatchWrite's loop: one entry of the child. */
    method WriteEntry(o: OutPoint, entry: Entry) returns (threw: bool)
      modifies this
      ensures threw == Misapplied(Find(old(cacheCoins), o), entry)
      ensures !threw ==> cacheCoins == Put(old(cacheCoins), o, MergeEntry(Find(old(cacheCoins), o), entry))
      ensures cachedCoinsUsage - SumUsage(cacheCoins) == old(cachedCoinsUsage - SumUsage(cacheCoins))
      ensures hashBlock == old(hashBlock)
    {
      threw := false;
      if !entry.isDirty {
        assert Put(cacheCoins, o, Find(cacheCoins, o)) == cacheCoins;
        return;
      }
      if o !in cacheCoins {
        if !(entry.isFresh && entry.coin.IsSpent()) {
          SumUsageUpdate(cacheCoins, o, Entry(entry.coin, true, entry.isFresh));
          cacheCoins := cacheCoins[o := Entry(entry.coin, true, entry.isFresh)];
          cachedCoinsUsage := cachedCoinsUsage + entry.coin.Usage();
        } else {
          assert cacheCoins - {o} == cacheCoins;
        }
      } else {
        var own := cacheCoins[o];
        if entry.isFresh && !own.coin.IsSpent() {
          return true;
        }
        SumUsageUpdate(cacheCoins, o, Entry(entry.coin, true, own.isFresh));
        cachedCoinsUsage := cachedCoinsUsage - own.coin.Usage();
        if own.isFresh && entry.coin.IsSpent() {
          cacheCoins := cacheCoins - {o};
        } else {
          cacheCoins := cacheCoins[o := Entry(entry.coin, true, own.isFresh)];
          cachedCoinsUsage := cachedCoinsUsage + entry.coin.Usage();
        }
      }
    }

    /** BatchWrite's loop, in whatever order the child's map is walked. */
    method WriteEntries(child: CoinsMap) returns (threw: bool)
      modifies this
      ensures threw <==> !NoneMisapplied(old(cacheCoins), child, child.Keys)
      ensures !threw ==> cacheCoins == MergeMap(old(cacheCoins), child, child.Keys)
      ensures cachedCoinsUsage - SumUsage(cacheCoins) == old(cachedCoinsUsage - SumUsage(cacheCoins))
    {
      var todo := child.Keys;
      ghost var done := {};
      MergeNone(cacheCoins, child);
      while todo != {}
        invariant todo <= child.Keys && done == child.Keys - todo
        invariant cacheCoins == MergeMap(old(cacheCoins), child, done)
        invariant cachedCoinsUsage - SumUsage(cacheCoins) == old(cachedCoinsUsage - SumUsage(cacheCoins))
        invariant NoneMisapplied(old(cacheCoins), child, done)
        decreases |todo|
      {
        var o :| o in todo;
        RestrictStep(child, todo, o);
        MergeStep(old(cacheCoins), child, done, o);
        threw := WriteEntry(o, child[o]);
        if threw {
          return;
        }
        todo, done := todo - {o}, done + {o};
      }
      threw := false;
    }

    /**
     BatchWrite throws exactly when some entry's FRESH flag is misapplied; otherwise `left`
     is what remains of the child's map.
     */
    method BatchWrite(child: CoinsMap, hash: Hash, erase: bool) returns (threw: bool, left: CoinsMap)
      requires Valid()
      modifies this
      ensures threw <==> BatchThrows(old(Model()), child)
      ensures !threw ==> Model() == Coins.BatchWrite(old(Model()), child, hash)
      ensures !threw ==> left == if erase then map[] else child
    {
      threw := WriteEntries(child);
      if !threw {
        hashBlock := hash;
      }
      left := if erase then map[] else child;
    }

    /** Hands this cache's entries to its base. */
    method WriteToBase(erase: bool) returns (threw: bool, left: CoinsMap)
      requires Valid() && (base.OnDb? ==> hashBlock != NULL_HASH)
      modifies repr
      ensures unchanged(this)
      ensures threw <==> BatchThrows(old(BaseModel()), cacheCoins)
      ensures !threw ==> BaseModel() == Coins.BatchWrite(old(BaseModel()), cacheCoins, hashBlock)
      ensures !threw ==> left == if erase then map[] else cacheCoins
    {
      match base {
        case OnDb(db) =>
          left := db.BatchWrite(cacheCoins, hashBlock, erase);
          threw := false;
        case OnCache(c) => threw, left := c.BatchWrite(cacheCoins, hashBlock, erase);
      }
    }

    method Flush() returns (threw: bool)
      requires Valid() && (base.OnDb? ==> hashBlock != NULL_HASH)
      modifies repr
      ensures threw <==> BatchThrows(old(BaseModel()), old(cacheCoins))
      ensures !threw ==> Model() == Coins.Flush(old(Model()))
    {
      var left;
      threw, left := WriteToBase(true);
      if !threw {
        cacheCoins := left;
        if cacheCoins != map[] {
          return true;
        }
        cachedCoinsUsage := 0;
      }
    }

    method Sync() returns (threw: bool)
      requires Valid() && (base.OnDb? ==> hashBlock != NULL_HASH)
      modifies repr
      ensures threw <==> BatchThrows(old(BaseModel()), old(cacheCoins))
      ensures !threw ==> Model() == Coins.Sync(old(Model()))
    {
      var left;
      threw, left := WriteToBase(false);
      if !threw {
        ClearFlags();
      }
    }

    /** The second half of Sync: spent entries go, the others lose their flags. */
    method ClearFlags()
      requires Valid()
      modifies this
      ensures cacheCoins == Cleaned(old(cacheCoins))
      ensures cachedCoinsUsage == old(cachedCoinsUsage) + SumUsage(cacheCoins) - SumUsage(old(cacheCoins))
      ensures hashBlock == old(hashBlock)
    {
      var todo := cacheCoins.Keys;
      while todo != {}
        invariant todo <= old(cacheCoins).Keys && hashBlock == old(hashBlock)
        invariant cacheCoins == PartlyCleaned(old(cacheCoins), todo)
        invariant cachedCoinsUsage == old(cachedCoinsUsage) + SumUsage(cacheCoins) - SumUsage(old(cacheCoins))
        decreases |todo|
      {
        var o :| o in todo;
        ghost var before := cacheCoins;
        SumUsageRemove(cacheCoins, o);
        if cacheCoins[o].coin.IsSpent() {
          cachedCoinsUsage := cachedCoinsUsage - cacheCoins[o].coin.Usage();
          cacheCoins := cacheCoins - {o};
        } else {
          SumUsageUpdate(cacheCoins, o, Entry(cacheCoins[o].coin, false, false));
          cacheCoins := cacheCoins[o := Entry(cacheCoins[o].coin, false, false)];
        }
        todo := todo - {o};
        assert cacheCoins == PartlyCleaned(old(cacheCoins), todo);
      }
    }

    /** The asserts of SanityCheck, as a verdict. */
    method SanityCheck() returns (ok: bool)
      ensures ok <==> (forall o :: o in cacheCoins ==> cacheCoins[o].Legal())
                      && cachedCoinsUsage == SumUsage(cacheCoins)
    {
      var todo, recomputed := cacheCoins.Keys, 0;
      RestrictAll(cacheCoins);
      while todo != {}
        invariant todo <= cacheCoins.Keys
        invariant recomputed == SumUsage(cacheCoins) - SumUsage(Restrict(cacheCoins, todo))
        invariant forall o :: o in cacheCoins && o !in todo ==> cacheCoins[o].Legal()
        decreases |todo|
      {
        var o :| o in todo;
        var entry := cacheCoins[o];
        if !entry.Legal() {
          return false;
        }
        SumUsageRemove(Restrict(cacheCoins, todo), o);
        RestrictStep(cacheCoins, todo, o);
        recomputed := recomputed + entry.coin.Usage();
        todo := todo - {o};
      }
      ok := recomputed == cachedCoinsUsage;
    }

    /** A transaction's inputs are available exactly when the view has all of them. */
    method HaveInputs(tx: Transaction) returns (have: bool)
      requires Valid() && WF(Model())
      modifies repr
      ensures have <==> tx.coinBase || forall i :: 0 <= i < |tx.vin| ==> tx.vin[i] in old(View(Model()))
      ensures WF(Model()) && Views(Model()) == old(Views(Model()))
    {
      if !tx.coinBase {
        for i := 0 to |tx.vin|
          invariant WF(Model()) && Views(Model()) == old(Views(Model()))
          invariant forall j :: 0 <= j < i ==> tx.vin[j] in old(View(Model()))
        {
          assert View(Model()) == Views(Model())[0];
          var known := HaveCoin(tx.vin[i]);
          if !known {
            return false;
          }
        }
      }
      return true;
    }
  }

  function PartlyCleaned(cache: CoinsMap, todo: set<OutPoint>): CoinsMap {
    map o | o in cache && (o in todo || !cache[o].coin.IsSpent())
      :: if o in todo then cache[o] else Entry(cache[o].coin, false, false)
  }

  datatype Transaction = Transaction(txid: Hash, coinBase: bool, vin: seq<OutPoint>, vout: seq<TxOut>)

  /** The spendable outputs among the first `n` of a transaction. */
  function Outputs(tx: Transaction, height: nat, n: nat): Utxos
    requires n <= |tx.vout|
  {
    if n == 0 then map[]
    else
      var out := tx.vout[n - 1];
      if out.script.IsUnspendable() then Outputs(tx, height, n - 1)
      else Outputs(tx, height, n - 1)[OutPoint(tx.txid, n - 1) := Coin(out, tx.coinBase, height)]
  }

  lemma {:induction false} OutputsKeys(tx: Transaction, height: nat, n: nat)
    requires n <= |tx.vout|
    ensures forall o :: o in Outputs(tx, height, n) ==> o.txid == tx.txid && o.n < n
  {
    if n > 0 {
      OutputsKeys(tx, height, n - 1);
    }
  }

  lemma {:induction false} PlusUpdate(m: Utxos, n: Utxos, o: OutPoint, coin: Coin)
    ensures (m + n)[o := coin] == m + n[o := coin]
  {
  }

  /** One output of AddCoins. */
  method AddOutput(cache: CoinsViewCache, o: OutPoint, coin: Coin, check: bool, mayOverwrite: bool)
    returns (threw: bool)
    requires cache.Valid() && (check ==> WF(cache.Model())) && !coin.IsSpent()
    modifies cache.repr
    ensures old(WF(cache.Model())) && (check || mayOverwrite || o !in old(View(cache.Model()))) ==>
              && !threw && WF(cache.Model())
              && Views(cache.Model())
                 == (if coin.out.script.IsUnspendable() then old(Views(cache.Model()))
                     else old(Views(cache.Model()))[0 := old(View(cache.Model()))[o := coin]])
  {
    var overwrite := mayOverwrite;
    if check {
      overwrite := cache.HaveCoin(o);
    }
    assert View(cache.Model()) == Views(cache.Model())[0];
    if WF(cache.Model()) {
      AddCorrect(cache.Model(), o, coin, overwrite);
    }
    threw := cache.AddCoin(o, coin, overwrite);
  }

  /**
   AddCoins puts exactly the spendable outputs into the top view. With the overwrite check it
   never throws; without it, the same holds of a coinbase and of outputs the view does not have.
   */
  method AddCoins(cache: CoinsViewCache, tx: Transaction, height: nat, check: bool) returns (threw: bool)
    requires cache.Valid() && WF(cache.Model())
    requires forall i :: 0 <= i < |tx.vout| ==> tx.vout[i].value != -1
    modifies cache.repr
    ensures check || tx.coinBase || Absent(tx, old(View(cache.Model()))) ==>
              && !threw && WF(cache.Model())
              && Views(cache.Model())
                 == old(Views(cache.Model()))[0 := old(View(cache.Model())) + Outputs(tx, height, |tx.vout|)]
  {
    ghost var was, views := View(cache.Model()), Views(cache.Model());
    ghost var clean := check || tx.coinBase || Absent(tx, was);
    assert was + map[] == was;
    threw := false;
    for i := 0 to |tx.vout|
      invariant clean ==> !threw && Holding(cache.Model(), views, was + Outputs(tx, height, i))
    {
      threw := AddNextOutput(cache, tx, height, i, check, was, views);
      if threw {
        return;
      }
    }
  }

  /** A well-formed stack that means `views`, but for the top level, which means `top`. */
  ghost predicate Holding(s: Stack, views: seq<Utxos>, top: Utxos) {
    var wf := |views| > 0 && WF(s);
    wf && Views(s) == views[0 := top] && View(s) == top
  }

  /** One round of the loop of AddCoins. */
  method AddNextOutput(
    cache: CoinsViewCache, tx: Transaction, height: nat, i: nat, check: bool, ghost was: Utxos, ghost views: seq<Utxos>)
    returns (threw: bool)
    requires cache.Valid() && (check ==> WF(cache.Model())) && i < |tx.vout| && tx.vout[i].value != -1
    modifies cache.repr
    ensures (check || tx.coinBase || Absent(tx, was))
            && old(Holding(cache.Model(), views, was + Outputs(tx, height, i))) ==>
              !threw && Holding(cache.Model(), views, was + Outputs(tx, height, i + 1))
  {
    var o := OutPoint(tx.txid, i);
    var coin := Coin(tx.vout[i], tx.coinBase, height);
    OutputsKeys(tx, height, i);
    threw := AddOutput(cache, o, coin, check, tx.coinBase);
    PlusUpdate(was, Outputs(tx, height, i), o, coin);
  }

  ghost predicate Absent(tx: Transaction, view: Utxos) {
    forall i :: 0 <= i < |tx.vout| ==> OutPoint(tx.txid, i) !in view
  }

  /** The consistency check passes on every well-formed stack. */
  lemma {:induction false} SanityCheckPasses(s: Stack)
    requires s.Layer? && WF(s)
    ensures (forall o :: o in s.cache ==> s.cache[o].Legal()) && s.usage == SumUsage(s.cache)
  {
    assert forall o :: o in s.cache ==> EntryOk(o, s.cache[o], View(s.base));
  }
}
