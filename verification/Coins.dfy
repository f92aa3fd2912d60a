/**
 The UTXO cache stack: coins, cache entries with their DIRTY and FRESH flags, and the
 values a stack of caches over a coin database goes through.

 A `Stack` is the state of one cache together with everything below it. The operations
 here are functions on stacks; `CoinsViewCache` in CoinsViewCache.dfy is the mutable
 object whose methods are proved to compute them.
 */
module Coins {

  datatype Option<+T> = None | Some(value: T)

  /** A block or transaction hash; the null hash is 0. */
  type Hash = nat
  const NULL_HASH: Hash := 0

  const MAX_SCRIPT_SIZE := 10000
  const OP_RETURN := 0x6a

  datatype OutPoint = OutPoint(txid: Hash, n: nat)

  /** A script's bytes, and the heap memory its storage occupies. */
  datatype Script = Script(bytes: seq<nat>, heapBytes: nat) {
    predicate IsUnspendable() {
      (|bytes| > 0 && bytes[0] == OP_RETURN) || |bytes| > MAX_SCRIPT_SIZE
    }
  }

  datatype TxOut = TxOut(value: int, script: Script)

  datatype Coin = Coin(out: TxOut, coinBase: bool, height: nat) {
    predicate IsSpent() {
      out.value == -1
    }

    function Usage(): nat {
      out.script.heapBytes
    }
  }

  /** The coin `Coin::Clear` leaves behind. */
  const EMPTY_COIN := Coin(TxOut(-1, Script([], 0)), false, 0)

  datatype Entry = Entry(coin: Coin, isDirty: bool, isFresh: bool) {
    /** The five flag states of the entry comment; SanityCheck aborts on the other three. */
    predicate Legal() {
      && !(isFresh && !isDirty && !coin.IsSpent())
      && !(coin.IsSpent() && !isDirty && !isFresh)
      && !(coin.IsSpent() && isDirty && isFresh)
    }
  }

  type CoinsMap = map<OutPoint, Entry>
  type Utxos = map<OutPoint, Coin>

  /**
   A cache and everything below it. The bottom is the coin database (or any other base
   view): it may answer a lookup with a spent coin, which caches must cope with.
   */
  datatype Stack =
    | Bottom(coins: Utxos, best: Hash)
    | Layer(cache: CoinsMap, usage: int, best: Hash, base: Stack)

  /** Memory used by all coins of a cache, the quantity cachedCoinsUsage tracks. */
  ghost function SumUsage(m: CoinsMap): nat {
    if m == map[] then 0
    else
      var o :| o in m;
      m[o].coin.Usage() + SumUsage(m - {o})
  }

  // ---------------------------------------------------------------- meaning

  /** The unspent outputs a stack stands for. */
  function View(s: Stack): Utxos {
    match s
    case Bottom(coins, _) => map o | o in coins && !coins[o].IsSpent() :: coins[o]
    case Layer(cache, _, _, base) => Overlay(cache, View(base))
  }

  function Overlay(cache: CoinsMap, below: Utxos): Utxos {
    map o | o in below.Keys + cache.Keys && (o in cache ==> !cache[o].coin.IsSpent())
      :: if o in cache then cache[o].coin else below[o]
  }

  /** The meaning of every level, top first. */
  function Views(s: Stack): (vs: seq<Utxos>)
    ensures |vs| == Depth(s) + 1 && vs[0] == View(s)
  {
    match s
    case Bottom(_, _) => [View(s)]
    case Layer(_, _, _, base) => [View(s)] + Views(base)
  }

  function Depth(s: Stack): nat {
    if s.Bottom? then 0 else 1 + Depth(s.base)
  }

  /** The best-block hash every level holds, top first; a cache that was not told yet holds the null hash. */
  function Hashes(s: Stack): (hs: seq<Hash>)
    ensures |hs| == Depth(s) + 1 && hs[0] == s.best
  {
    match s
    case Bottom(_, best) => [best]
    case Layer(_, _, best, base) => [best] + Hashes(base)
  }

  /** What an entry may say about its outpoint, given the meaning of the level below. */
  ghost predicate EntryOk(o: OutPoint, e: Entry, below: Utxos) {
    && e.Legal()
    && (e.isFresh ==> o !in below)
    && (!e.isDirty ==> (if e.coin.IsSpent() then o !in below else o in below && below[o] == e.coin))
  }

  ghost predicate CacheOk(cache: CoinsMap, below: Utxos) {
    forall o :: o in cache ==> EntryOk(o, cache[o], below)
  }

  /** The inductive invariant of a stack. */
  ghost predicate WF(s: Stack) {
    s.Layer? ==>
      && WF(s.base)
      && CacheOk(s.cache, View(s.base))
      && s.usage == SumUsage(s.cache)
  }

  function BestBlock(s: Stack): Hash {
    if s.Layer? && s.best == NULL_HASH then BestBlock(s.base) else s.best
  }

  /** GetBestBlock remembers the hash it had to ask the base for. */
  function FillBest(s: Stack): Stack {
    if s.Layer? && s.best == NULL_HASH then s.(base := FillBest(s.base), best := BestBlock(s)) else s
  }

  // ---------------------------------------------------------------- operations

  datatype Lookup = Lookup(stack: Stack, found: bool, coin: Coin)

  /** FetchCoin: brings an outpoint into the top cache if the base knows it. */
  function Fetch(s: Stack, o: OutPoint): Stack
    requires s.Layer?
    decreases s, 0
  {
    if o in s.cache then s
    else
      var below := Get(s.base, o);
      if !below.found then s.(base := below.stack)
      else s.(cache := s.cache[o := Entry(below.coin, false, below.coin.IsSpent())],
              usage := s.usage + below.coin.Usage(),
              base := below.stack)
  }

  /** GetCoin; a lookup fills the caches it passes through. */
  function Get(s: Stack, o: OutPoint): Lookup
    decreases s, 1
  {
    match s
    case Bottom(coins, _) =>
      if o in coins then Lookup(s, true, coins[o]) else Lookup(s, false, EMPTY_COIN)
    case Layer(_, _, _, _) =>
      var t := Fetch(s, o);
      if o in t.cache then Lookup(t, !t.cache[o].coin.IsSpent(), t.cache[o].coin)
      else Lookup(t, false, EMPTY_COIN)
  }

  /** AddCoin refuses to overwrite an unspent coin of its own cache unless told it may. */
  predicate AddThrows(s: Stack, o: OutPoint, coin: Coin, overwrite: bool)
    requires s.Layer?
  {
    && !coin.out.script.IsUnspendable()
    && !overwrite
    && o in s.cache
    && !s.cache[o].coin.IsSpent()
  }

  /** AddCoin. On the throwing path the usage counter has already been reduced. */
  function Add(s: Stack, o: OutPoint, coin: Coin, overwrite: bool): Stack
    requires s.Layer?
  {
    if coin.out.script.IsUnspendable() then s
    else
      var was := if o in s.cache then s.cache[o] else Entry(EMPTY_COIN, false, false);
      var usage := if o in s.cache then s.usage - was.coin.Usage() else s.usage;
      if AddThrows(s, o, coin, overwrite) then s.(usage := usage)
      else
        var isFresh := !overwrite && !was.isDirty;
        s.(cache := s.cache[o := Entry(coin, true, was.isFresh || isFresh)], usage := usage + coin.Usage())
  }

  datatype Spending = Spending(stack: Stack, spent: bool, moved: Coin)

  /** SpendCoin. */
  function Spend(s: Stack, o: OutPoint): Spending
    requires s.Layer?
  {
    var t := Fetch(s, o);
    if o !in t.cache then Spending(t, false, EMPTY_COIN)
    else
      Spending(Wipe(t, o), true, t.cache[o].coin)
  }

  /** The second half of SpendCoin: FRESH entries vanish, others become spent and DIRTY. */
  function Wipe(s: Stack, o: OutPoint): Stack
    requires s.Layer? && o in s.cache
  {
    s.(cache := if s.cache[o].isFresh then s.cache - {o} else s.cache[o := Entry(EMPTY_COIN, true, false)],
       usage := s.usage - s.cache[o].coin.Usage())
  }

  function Uncache(s: Stack, o: OutPoint): Stack
    requires s.Layer?
  {
    if o in s.cache && !s.cache[o].isDirty && !s.cache[o].isFresh
    then s.(cache := s.cache - {o}, usage := s.usage - s.cache[o].coin.Usage())
    else s
  }

  function Find(m: CoinsMap, o: OutPoint): Option<Entry> {
    if o in m then Some(m[o]) else None
  }

  /** The "FRESH flag misapplied" condition of BatchWrite. */
  predicate Misapplied(own: Option<Entry>, child: Entry) {
    child.isDirty && child.isFresh && own.Some? && !own.value.coin.IsSpent()
  }

  /** What BatchWrite makes of one child entry. */
  function MergeEntry(own: Option<Entry>, child: Entry): Option<Entry> {
    if !child.isDirty then own
    else match own {
      case None =>
        if child.isFresh && child.coin.IsSpent() then None else Some(Entry(child.coin, true, child.isFresh))
      case Some(e) =>
        if e.isFresh && child.coin.IsSpent() then None else Some(Entry(child.coin, true, e.isFresh))
    }
  }

  /** The entry a cache holds for `o` once the child's entries in `done` have been written. */
  function Merged(cache: CoinsMap, child: CoinsMap, done: set<OutPoint>, o: OutPoint): Option<Entry> {
    if o in child && o in done then MergeEntry(Find(cache, o), child[o]) else Find(cache, o)
  }

  function MergeMap(cache: CoinsMap, child: CoinsMap, done: set<OutPoint>): CoinsMap {
    map o | o in cache.Keys + child.Keys && Merged(cache, child, done, o).Some?
      :: Merged(cache, child, done, o).value
  }

  /** The database's BatchWrite: dirty entries are written, or erased when spent. */
  function WriteCoins(coins: Utxos, child: CoinsMap): Utxos {
    map o | o in coins.Keys + child.Keys && (o in child && child[o].isDirty ==> !child[o].coin.IsSpent())
             && (o in coins || child[o].isDirty)
      :: if o in child && child[o].isDirty then child[o].coin else coins[o]
  }

  ghost function BatchWrite(s: Stack, child: CoinsMap, hash: Hash): Stack {
    match s
    case Bottom(coins, _) => Bottom(WriteCoins(coins, child), hash)
    case Layer(cache, usage, _, base) =>
      var merged := MergeMap(cache, child, child.Keys);
      Layer(merged, usage + SumUsage(merged) - SumUsage(cache), hash, base)
  }

  ghost predicate BatchThrows(s: Stack, child: CoinsMap) {
    s.Layer? && exists o :: o in child && Misapplied(Find(s.cache, o), child[o])
  }

  ghost function Flush(s: Stack): Stack
    requires s.Layer?
  {
    Layer(map[], 0, s.best, BatchWrite(s.base, s.cache, s.best))
  }

  function Cleaned(cache: CoinsMap): CoinsMap {
    map o | o in cache && !cache[o].coin.IsSpent() :: Entry(cache[o].coin, false, false)
  }

  ghost function Sync(s: Stack): Stack
    requires s.Layer?
  {
    Layer(Cleaned(s.cache), s.usage + SumUsage(Cleaned(s.cache)) - SumUsage(s.cache), s.best,
          BatchWrite(s.base, s.cache, s.best))
  }

  // ---------------------------------------------------------------- memory accounting

  lemma {:induction false} SumUsageRemove(m: CoinsMap, o: OutPoint)
    requires o in m
    ensures SumUsage(m) == m[o].coin.Usage() + SumUsage(m - {o})
    decreases m
  {
    var p :| p in m && SumUsage(m) == m[p].coin.Usage() + SumUsage(m - {p});
    if p != o {
      SumUsageRemove(m - {p}, o);
      SumUsageRemove(m - {o}, p);
      assert m - {p} - {o} == m - {o} - {p};
    }
  }

  lemma {:induction false} SumUsageUpdate(m: CoinsMap, o: OutPoint, e: Entry)
    ensures SumUsage(m[o := e]) == SumUsage(m - {o}) + e.coin.Usage()
    ensures o !in m ==> SumUsage(m - {o}) == SumUsage(m)
    ensures o in m ==> SumUsage(m - {o}) == SumUsage(m) - m[o].coin.Usage()
  {
    SumUsageRemove(m[o := e], o);
    assert m[o := e] - {o} == m - {o};
    if o in m {
      SumUsageRemove(m, o);
    } else {
      assert m - {o} == m;
    }
  }

  // ---------------------------------------------------------------- one level

  lemma {:induction false} OverlayUpdate(cache: CoinsMap, below: Utxos, o: OutPoint, e: Entry)
    requires CacheOk(cache, below)
    ensures CacheOk(cache[o := e], below) <==> EntryOk(o, e, below)
    ensures Overlay(cache[o := e], below)
            == if e.coin.IsSpent() then Overlay(cache, below) - {o} else Overlay(cache, below)[o := e.coin]
  {
    assert cache[o := e][o] == e;
    assert forall p :: p in cache && p != o ==> cache[o := e][p] == cache[p];
  }

  lemma {:induction false} OverlayRemove(cache: CoinsMap, below: Utxos, o: OutPoint)
    requires CacheOk(cache, below) && o in cache
    ensures CacheOk(cache - {o}, below)
    ensures cache[o].isFresh ==> Overlay(cache - {o}, below) == Overlay(cache, below) - {o}
    ensures !cache[o].isFresh && !cache[o].isDirty ==> Overlay(cache - {o}, below) == Overlay(cache, below)
  {
    assert EntryOk(o, cache[o], below);
    forall p | p in cache - {o} ensures EntryOk(p, (cache - {o})[p], below) {
      assert EntryOk(p, cache[p], below);
    }
  }

  /** The three levels around a BatchWrite, one outpoint at a time. */
  lemma {:induction false} MergeEntryOk(o: OutPoint, cache: CoinsMap, child: CoinsMap, below: Utxos)
    requires CacheOk(cache, below) && CacheOk(child, Overlay(cache, below))
    ensures var m := MergeMap(cache, child, child.Keys);
            && (o in m ==> EntryOk(o, m[o], below))
            && (o in child ==> !Misapplied(Find(cache, o), child[o]))
            && (o in Overlay(m, below) <==> o in Overlay(child, Overlay(cache, below)))
            && (o in Overlay(m, below) ==> Overlay(m, below)[o] == Overlay(child, Overlay(cache, below))[o])
  {
    var m := MergeMap(cache, child, child.Keys);
    assert o in m <==> Merged(cache, child, child.Keys, o).Some?;
    if o in cache { assert EntryOk(o, cache[o], below); }
    if o in child { assert EntryOk(o, child[o], Overlay(cache, below)); }
  }

  lemma {:induction false} MergeCorrect(cache: CoinsMap, child: CoinsMap, below: Utxos)
    requires CacheOk(cache, below) && CacheOk(child, Overlay(cache, below))
    ensures forall o :: o in child ==> !Misapplied(Find(cache, o), child[o])
    ensures CacheOk(MergeMap(cache, child, child.Keys), below)
    ensures Overlay(MergeMap(cache, child, child.Keys), below) == Overlay(child, Overlay(cache, below))
  {
    forall o { MergeEntryOk(o, cache, child, below); }
  }

  /** The parent, or the child where the parent has no entry, says whether the level below may know a coin. */
  predicate UnknownBelow(own: Option<Entry>, child: Entry) {
    if own.Some? then own.value.isFresh else child.isFresh
  }

  /**
   What a child's entry leaves in its parent: nothing new unless it is DIRTY; no entry for a coin that
   is spent and unknown below; and otherwise the coin, to be written, FRESH if it is unknown below.
   */
  lemma {:induction false} MergedEntry(cache: CoinsMap, child: CoinsMap, o: OutPoint)
    requires o in child
    ensures var m, own, e := MergeMap(cache, child, child.Keys), Find(cache, o), child[o];
      && (!e.isDirty ==> Find(m, o) == own)
      && (e.isDirty && e.coin.IsSpent() && UnknownBelow(own, e) ==> o !in m)
      && (e.isDirty && !(e.coin.IsSpent() && UnknownBelow(own, e)) ==>
            o in m && m[o] == Entry(e.coin, true, UnknownBelow(own, e)))
  {
    var m := MergeMap(cache, child, child.Keys);
    assert o in m <==> Merged(cache, child, child.Keys, o).Some?;
  }

  lemma {:induction false} WriteCoinsCorrect(coins: Utxos, best: Hash, child: CoinsMap)
    requires CacheOk(child, View(Bottom(coins, best)))
    ensures View(Bottom(WriteCoins(coins, child), best)) == Overlay(child, View(Bottom(coins, best)))
  {
    assert forall o :: o in child ==> EntryOk(o, child[o], View(Bottom(coins, best)));
  }

  /** A synced cache repeats what the level below now says. */
  lemma {:induction false} CleanedCorrect(cache: CoinsMap, below: Utxos)
    ensures CacheOk(Cleaned(cache), Overlay(cache, below))
    ensures Overlay(Cleaned(cache), Overlay(cache, below)) == Overlay(cache, below)
  {
  }

  // ---------------------------------------------------------------- lookups

  /** A lookup answers from the view and changes no level's meaning. */
  lemma {:induction false} GetCorrect(s: Stack, o: OutPoint)
    requires WF(s)
    ensures var r := Get(s, o);
            && WF(r.stack) && Views(r.stack) == Views(s) && r.stack.Layer? == s.Layer?
            && (o in View(s) ==> r.found && r.coin == View(s)[o])
            && (r.found && !r.coin.IsSpent() ==> o in View(s))
            && (s.Layer? ==> (r.found <==> o in View(s)))
    ensures BestBlock(Get(s, o).stack) == BestBlock(s)
    decreases s, 1
  {
    if s.Layer? {
      FetchCorrect(s, o);
    }
  }

  lemma {:induction false} FetchCorrect(s: Stack, o: OutPoint)
    requires WF(s) && s.Layer?
    ensures var t := Fetch(s, o);
            && t.Layer? && WF(t) && Views(t) == Views(s) && t.best == s.best && BestBlock(t) == BestBlock(s)
            && (o in View(s) ==> o in t.cache && t.cache[o].coin == View(s)[o])
            && (o !in View(s) && o in t.cache ==> t.cache[o].coin.IsSpent())
    decreases s, 0
  {
    if o !in s.cache {
      GetCorrect(s.base, o);
      var below := Get(s.base, o);
      assert View(below.stack) == Views(below.stack)[0] == Views(s.base)[0] == View(s.base);
      if below.found {
        FetchedEntry(s.cache, View(s.base), o, below.coin);
      }
    }
  }

  /** The cache of a level, counted from the top. */
  function CacheAt(s: Stack, i: nat): CoinsMap
    requires i < Depth(s)
  {
    if i == 0 then s.cache else CacheAt(s.base, i - 1)
  }

  /** The first i caches of a stack do not have the outpoint. */
  ghost predicate Lacking(s: Stack, o: OutPoint, i: nat) {
    i < Depth(s) && forall j :: 0 <= j < i ==> o !in CacheAt(s, j)
  }

  ghost predicate Holding(s: Stack, o: OutPoint, i: nat, coin: Coin) {
    i < Depth(s) && o in CacheAt(s, i) && CacheAt(s, i)[o].coin == coin
  }

  /**
   A lookup leaves the coin in every cache it passes: down to the first that had the outpoint, or
   all of them, each has it afterwards if the coin was found.
   */
  lemma {:induction false} FetchFills(s: Stack, o: OutPoint, i: nat)
    requires WF(s) && Lacking(s, o, i) && o in View(s)
    ensures Holding(Fetch(s, o), o, i, View(s)[o])
    decreases i
  {
    if i == 0 {
      FetchCorrect(s, o);
    } else {
      assert o !in CacheAt(s, 0);
      FetchesBelow(s, o);
      LackingBelow(s, o, i, i - 1);
      FetchFills(s.base, o, i - 1);
    }
  }

  lemma {:induction false} LackingBelow(s: Stack, o: OutPoint, i: nat, k: nat)
    requires Lacking(s, o, i) && i == k + 1
    ensures s.Layer? && s.base.Layer? && Lacking(s.base, o, k)
  {
    assert Depth(s) == 1 + Depth(s.base) && Depth(s.base) > 0;
    forall j | 0 <= j < k ensures o !in CacheAt(s.base, j) {
      var next := j + 1;
      assert CacheAt(s, next) == CacheAt(s.base, j);
    }
  }

  /** A coin that a cache lacks is fetched by the cache below. */
  lemma {:induction false} FetchesBelow(s: Stack, o: OutPoint)
    requires s.Layer? && s.base.Layer? && o !in s.cache && o in View(s)
    ensures o in View(s.base) && View(s.base)[o] == View(s)[o] && Fetch(s, o).base == Fetch(s.base, o)
  {
  }

  /** An entry fetched from below says what the level below says. */
  lemma {:induction false} FetchedEntry(cache: CoinsMap, below: Utxos, o: OutPoint, coin: Coin)
    requires CacheOk(cache, below) && o !in cache
    requires if o in below then coin == below[o] && !coin.IsSpent() else coin.IsSpent()
    ensures var after := cache[o := Entry(coin, false, coin.IsSpent())];
      && CacheOk(after, below) && SumUsage(after) == SumUsage(cache) + coin.Usage()
      && Overlay(after, below) == Overlay(cache, below)
  {
    var e := Entry(coin, false, coin.IsSpent());
    SumUsageUpdate(cache, o, e);
    OverlayUpdate(cache, below, o, e);
    assert EntryOk(o, e, below);
  }

  // ---------------------------------------------------------------- additions and spends

  /**
   AddCoin leaves a well-formed stack exactly when overwriting is announced, the script is
   unspendable, or the view has no such coin: its own check only consults the top cache.
   */
  lemma {:induction false} AddCorrect(s: Stack, o: OutPoint, coin: Coin, overwrite: bool)
    requires WF(s) && s.Layer? && !coin.IsSpent()
    ensures overwrite || coin.out.script.IsUnspendable() || o !in View(s)
            <==> !AddThrows(s, o, coin, overwrite) && WF(Add(s, o, coin, overwrite))
    ensures !AddThrows(s, o, coin, overwrite) ==>
              Views(Add(s, o, coin, overwrite))
              == (if coin.out.script.IsUnspendable() then Views(s) else Views(s)[0 := View(s)[o := coin]])
  {
    var t := Add(s, o, coin, overwrite);
    if !coin.out.script.IsUnspendable() && !AddThrows(s, o, coin, overwrite) {
      SumUsageUpdate(s.cache, o, t.cache[o]);
      OverlayUpdate(s.cache, View(s.base), o, t.cache[o]);
      if o in s.cache { assert EntryOk(o, s.cache[o], View(s.base)); }
    }
  }

  /**
   What becomes of the call itself: outputs that can never be spent, those that begin with
   OP_RETURN or have a script of more than 10000 bytes, are left out; a refused overwrite has
   already reduced the usage counter; any other coin is in the cache afterwards, to be written, and
   FRESH if it was, or if no overwrite is announced and nothing there waits to be written.
   */
  lemma {:induction false} AddOutcome(s: Stack, o: OutPoint, coin: Coin, overwrite: bool)
    requires s.Layer?
    ensures var script, t := coin.out.script.bytes, Add(s, o, coin, overwrite);
      var never := (|script| > 0 && script[0] == 0x6a) || |script| > 10000;
      var refused := !never && !overwrite && o in s.cache && s.cache[o].coin.out.value != -1;
      && (AddThrows(s, o, coin, overwrite) <==> refused)
      && (never ==> t == s)
      && (refused ==> t == s.(usage := s.usage - s.cache[o].coin.out.script.heapBytes))
      && (!never && !refused ==>
            && t.Layer? && t.base == s.base && t.best == s.best
            && t.usage == s.usage + coin.out.script.heapBytes
                          - (if o in s.cache then s.cache[o].coin.out.script.heapBytes else 0)
            && (forall p :: p in s.cache && p != o ==> t.cache[p] == s.cache[p])
            && t.cache.Keys == s.cache.Keys + {o} && t.cache[o].coin == coin && t.cache[o].isDirty
            && (t.cache[o].isFresh <==>
                  || (o in s.cache && s.cache[o].isFresh) || (!overwrite && (o in s.cache ==> !s.cache[o].isDirty))))
  {
  }

  /** The database stands for its coins but those with the value of a spent one. */
  lemma {:induction false} DatabaseView(coins: Utxos, best: Hash, o: OutPoint)
    ensures var v := View(Bottom(coins, best));
      (o in v <==> o in coins && coins[o].out.value != -1) && (o in v ==> v[o] == coins[o])
  {
  }

  /** Announcing no overwrite over a coin the base still holds brings that coin back on spending. */
  lemma {:induction false} AddMisuseResurrects()
    ensures
      var o := OutPoint(1, 0);
      var older, newer := Coin(TxOut(5, Script([], 0)), false, 1), Coin(TxOut(6, Script([], 0)), false, 2);
      var s := Layer(map[], 0, 7, Bottom(map[o := older], 7));
      && WF(s) && !AddThrows(s, o, newer, false)
      && o in View(Spend(Add(s, o, newer, false), o).stack)
  {
    var o := OutPoint(1, 0);
    var older, newer := Coin(TxOut(5, Script([], 0)), false, 1), Coin(TxOut(6, Script([], 0)), false, 2);
    var s := Layer(map[], 0, 7, Bottom(map[o := older], 7));
    var t := Add(s, o, newer, false);
    assert t.cache == map[o := Entry(newer, true, true)];
    assert Spend(t, o).stack.cache == map[];
    assert o in View(s.base);
  }

  lemma {:induction false} WipeCorrect(s: Stack, o: OutPoint)
    requires WF(s) && s.Layer? && o in s.cache
    ensures WF(Wipe(s, o)) && View(Wipe(s, o)) == View(s) - {o}
  {
    SumUsageUpdate(s.cache, o, Entry(EMPTY_COIN, true, false));
    OverlayUpdate(s.cache, View(s.base), o, Entry(EMPTY_COIN, true, false));
    OverlayRemove(s.cache, View(s.base), o);
    assert EntryOk(o, s.cache[o], View(s.base));
  }

  /** Spending removes one outpoint from the top view and nothing from any other. */
  lemma {:induction false} SpendCorrect(s: Stack, o: OutPoint)
    requires WF(s) && s.Layer?
    ensures var r := Spend(s, o);
            && WF(r.stack) && Views(r.stack) == Views(s)[0 := View(s) - {o}]
            && BestBlock(r.stack) == BestBlock(s)
            && (o in View(s) ==> r.spent && r.moved == View(s)[o])
            && (!r.spent ==> o !in View(s))
  {
    FetchCorrect(s, o);
    var t := Fetch(s, o);
    assert Views(t) == [View(t)] + Views(t.base);
    if o in t.cache {
      WipeCorrect(t, o);
    } else {
      assert View(s) - {o} == View(s);
    }
  }

  /** SpendCoin reports success exactly if some level knows the outpoint, be it as spent. */
  lemma {:induction false} SpendReports(s: Stack, o: OutPoint)
    requires WF(s) && s.Layer?
    ensures Spend(s, o).spent <==> o in s.cache || if s.base.Layer? then o in View(s.base) else o in s.base.coins
  {
    GetCorrect(s.base, o);
  }

  /** Dropping an unmodified entry is invisible; a modified one stays, and so does every other entry. */
  lemma {:induction false} UncacheCorrect(s: Stack, o: OutPoint)
    requires WF(s) && s.Layer?
    ensures WF(Uncache(s, o)) && Views(Uncache(s, o)) == Views(s) && BestBlock(Uncache(s, o)) == BestBlock(s)
    ensures Uncache(s, o).Layer?
    ensures o in Uncache(s, o).cache <==> o in s.cache && (s.cache[o].isDirty || s.cache[o].isFresh)
    ensures forall p :: p in s.cache && (p == o ==> p in Uncache(s, o).cache) ==>
      p in Uncache(s, o).cache && Uncache(s, o).cache[p] == s.cache[p]
    ensures Uncache(s, o).cache.Keys <= s.cache.Keys
  {
    if o in s.cache {
      SumUsageRemove(s.cache, o);
      OverlayRemove(s.cache, View(s.base), o);
    }
  }

  // ---------------------------------------------------------------- flushing

  /**
   Writing a child's entries into its parent never meets a misapplied FRESH flag, gives the
   parent the child's meaning, and keeps it well-formed against the grandparent.
   */
  lemma {:induction false} BatchWriteCorrect(s: Stack, child: CoinsMap, hash: Hash)
    requires WF(s) && CacheOk(child, View(s))
    ensures !BatchThrows(s, child)
    ensures WF(BatchWrite(s, child, hash))
    ensures Views(BatchWrite(s, child, hash)) == Views(s)[0 := Overlay(child, View(s))]
  {
    match s
    case Bottom(coins, best) => BottomWriteCorrect(coins, best, child, hash);
    case Layer(_, _, _, _) => LayerWriteCorrect(s, child, hash);
  }

  lemma {:induction false} LayerWriteCorrect(s: Stack, child: CoinsMap, hash: Hash)
    requires s.Layer? && WF(s) && CacheOk(child, View(s))
    ensures !BatchThrows(s, child)
    ensures WF(BatchWrite(s, child, hash))
    ensures Views(BatchWrite(s, child, hash)) == Views(s)[0 := Overlay(child, View(s))]
  {
    var r := BatchWrite(s, child, hash);
    MergeCorrect(s.cache, child, View(s.base));
    assert View(r) == Overlay(child, View(s));
    assert Views(s) == [View(s)] + Views(s.base) && Views(r) == [View(r)] + Views(s.base);
  }

  lemma {:induction false} BottomWriteCorrect(coins: Utxos, best: Hash, child: CoinsMap, hash: Hash)
    requires CacheOk(child, View(Bottom(coins, best)))
    ensures Views(Bottom(WriteCoins(coins, child), hash)) == [Overlay(child, View(Bottom(coins, best)))]
  {
    WriteCoinsCorrect(coins, best, child);
  }

  /** Flush moves a level's meaning to the level below, keeps it, and empties the cache. */
  lemma {:induction false} FlushCorrect(s: Stack)
    requires WF(s) && s.Layer?
    ensures !BatchThrows(s.base, s.cache)
    ensures WF(Flush(s)) && Views(Flush(s)) == Views(s)[1 := View(s)]
    ensures Flush(s).Layer? && Flush(s).cache == map[]
  {
    BatchWriteCorrect(s.base, s.cache, s.best);
    assert View(Flush(s)) == View(Flush(s).base);
    assert View(Flush(s).base) == Views(Flush(s).base)[0];
  }

  /** So does Sync, which keeps exactly the unspent entries cached, as unmodified ones. */
  lemma {:induction false} SyncCorrect(s: Stack)
    requires WF(s) && s.Layer?
    ensures !BatchThrows(s.base, s.cache)
    ensures WF(Sync(s)) && Views(Sync(s)) == Views(s)[1 := View(s)]
    ensures Sync(s).Layer? && forall o :: o in Sync(s).cache <==> o in s.cache && !s.cache[o].coin.IsSpent()
    ensures forall o :: o in Sync(s).cache ==>
      Sync(s).cache[o].coin == s.cache[o].coin && !Sync(s).cache[o].isDirty && !Sync(s).cache[o].isFresh
  {
    BatchWriteCorrect(s.base, s.cache, s.best);
    CleanedCorrect(s.cache, View(s.base));
    assert View(Sync(s).base) == Views(Sync(s).base)[0];
  }

  /** A cache that was told its best block passes it down, whatever it sits on. */
  lemma {:induction false} BestBlockIsWritten(s: Stack)
    requires s.Layer? && s.best != NULL_HASH
    ensures BestBlock(Flush(s).base) == s.best && BestBlock(Flush(s)) == s.best
    ensures BestBlock(Sync(s).base) == s.best && BestBlock(Sync(s)) == s.best
  {
  }

  /**
   Flushing a cache whose own best-block hash was never set writes the null hash into its
   base: the best block survives exactly when the hash is set or the base adds nothing of
   its own to the level below it.
   */
  lemma {:induction false} FlushBestBlock(s: Stack)
    requires s.Layer? && s.base.Layer?
    ensures BestBlock(Flush(s)) == BestBlock(s)
            <==> s.best != NULL_HASH || s.base.best == NULL_HASH || s.base.best == BestBlock(s.base.base)
    ensures s.best != NULL_HASH ==> BestBlock(Flush(s).base) == s.best
  {
  }

  /** Two caches over a database, the lower of which has moved on: flushing the upper loses the best block. */
  lemma {:induction false} FlushLosesBestBlock()
    ensures var s := Layer(map[], 0, NULL_HASH, Layer(map[], 0, 5, Bottom(map[], 3)));
      WF(s) && BestBlock(s) == 5 && BestBlock(Flush(s)) == 3
  {
    var base := Layer(map[], 0, 5, Bottom(map[], 3));
    var s := Layer(map[], 0, NULL_HASH, base);
    assert WF(Bottom(map[], 3));
    assert WF(base);
    assert WF(s);
    assert Flush(s).base.best == NULL_HASH;
  }

  // ---------------------------------------------------------------- FRESH entries

  /** A coin made and spent in one cache leaves no trace: nothing of it is ever written below. */
  lemma {:induction false} ShortLivedCoin(s: Stack, o: OutPoint, coin: Coin)
    requires s.Layer? && o !in s.cache && !coin.out.script.IsUnspendable()
    ensures !AddThrows(s, o, coin, false) && Spend(Add(s, o, coin, false), o) == Spending(s, true, coin)
  {
    var t := Add(s, o, coin, false);
    assert t.cache[o] == Entry(coin, true, true);
    assert t.cache - {o} == s.cache;
  }

  /** A flush hands FRESH on, so a coin unknown below the parent still vanishes when the parent spends it. */
  lemma {:induction false} FlushedStaysFresh(s: Stack, o: OutPoint, coin: Coin)
    requires s.Layer? && s.base.Layer? && o !in s.cache && o !in s.base.cache
    requires !coin.out.script.IsUnspendable() && !coin.IsSpent()
    ensures var parent := Flush(Add(s, o, coin, false)).base;
      && o in parent.cache && parent.cache[o] == Entry(coin, true, true)
      && o !in Spend(parent, o).stack.cache
  {
    var child := Add(s, o, coin, false).cache;
    assert child[o] == Entry(coin, true, true);
    assert Merged(s.base.cache, child, child.Keys, o) == Some(child[o]);
  }

  /** A coin the parent holds as FRESH and the child spends is gone from the parent after the flush. */
  lemma {:induction false} SpentAboveVanishes(s: Stack, o: OutPoint)
    requires WF(s) && s.Layer? && s.base.Layer?
    requires o in s.base.cache && s.base.cache[o].isFresh && !s.base.cache[o].coin.IsSpent()
    ensures Flush(Spend(s, o).stack).base.Layer? && o !in Flush(Spend(s, o).stack).base.cache
  {
    assert Fetch(s.base, o) == s.base;
    assert Get(s.base, o) == Lookup(s.base, true, s.base.cache[o].coin);
    var t := Fetch(s, o);
    assert o in View(s.base);
    if o in s.cache {
      assert EntryOk(o, s.cache[o], View(s.base));
    }
    var child := Wipe(t, o).cache;
    assert t.base == s.base && child[o] == Entry(EMPTY_COIN, true, false);
    assert Merged(s.base.cache, child, child.Keys, o) == None;
  }

  // ---------------------------------------------------------------- the best block remembered

  lemma {:induction false} FillBestCorrect(s: Stack)
    requires WF(s)
    ensures WF(FillBest(s)) && Views(FillBest(s)) == Views(s) && View(FillBest(s)) == View(s)
    ensures BestBlock(FillBest(s)) == BestBlock(s) && FillBest(s).best == BestBlock(s)
    ensures FillBest(s).Layer? == s.Layer?
  {
    if s.Layer? {
      FillBestCorrect(s.base);
    }
  }

  // ---------------------------------------------------------------- whole runs

  /** One call on a stack; `k` picks the level it is made on, 0 being the top. */
  datatype Op =
    | GetAt(k: nat, o: OutPoint)
    | UncacheAt(k: nat, o: OutPoint)
    | FlushAt(k: nat)
    | SyncAt(k: nat)
    | BestAt(k: nat)
    | SetBestAt(k: nat, hash: Hash)
    | AddTop(o: OutPoint, coin: Coin, overwrite: bool)
    | SpendTop(o: OutPoint)
    | Push
    | Pop

  /** The level `k` below the top. */
  function Level(s: Stack, k: nat): (l: Stack)
    requires k <= Depth(s)
    ensures k < Depth(s) ==> l.Layer?
  {
    if k == 0 then s else Level(s.base, k - 1)
  }

  /**
   The calls the callers may make: levels exist, a coin is only added without an overwrite
   announcement where the view has none, and the database is given a block hash.
   */
  ghost predicate Allowed(s: Stack, op: Op) {
    match op
    case GetAt(k, _) => k < Depth(s)
    case UncacheAt(k, _) => k < Depth(s)
    case FlushAt(k) => k < Depth(s) && (Level(s, k).base.Bottom? ==> Level(s, k).best != NULL_HASH)
    case SyncAt(k) => k < Depth(s) && (Level(s, k).base.Bottom? ==> Level(s, k).best != NULL_HASH)
    case BestAt(k) => k < Depth(s)
    case SetBestAt(k, _) => k < Depth(s)
    case AddTop(o, coin, overwrite) =>
      s.Layer? && !coin.IsSpent() && (overwrite || coin.out.script.IsUnspendable() || o !in View(s))
    case SpendTop(_) => s.Layer?
    case Push => true
    case Pop => s.Layer?
  }

  /** Calls that add and spend nothing. */
  predicate IsQuiet(op: Op) {
    !op.AddTop? && !op.SpendTop? && !op.Push? && !op.Pop?
  }

  ghost function Quiet(s: Stack, op: Op): Stack
    requires s.Layer? && IsQuiet(op)
  {
    match op
    case GetAt(_, o) => Get(s, o).stack
    case UncacheAt(_, o) => Uncache(s, o)
    case FlushAt(_) => Flush(s)
    case SyncAt(_) => Sync(s)
    case BestAt(_) => FillBest(s)
    case SetBestAt(_, hash) => s.(best := hash)
  }

  /** Applies a call that adds and spends nothing to the level `k` below the top. */
  ghost function QuietAt(s: Stack, k: nat, op: Op): Stack
    requires k < Depth(s) && IsQuiet(op)
  {
    if k == 0 then Quiet(s, op) else s.(base := QuietAt(s.base, k - 1, op))
  }

  ghost function Step(s: Stack, op: Op): Stack
    requires Allowed(s, op)
  {
    match op
    case AddTop(o, coin, overwrite) => Add(s, o, coin, overwrite)
    case SpendTop(o) => Spend(s, o).stack
    case Push => Layer(map[], 0, NULL_HASH, s)
    case Pop => s.base
    case _ => QuietAt(s, op.k, op)
  }

  /** What a call does to the unspent outputs of every level, as if these were plain maps. */
  function PlainViews(vs: seq<Utxos>, op: Op): seq<Utxos>
    requires Fits(|vs|, op)
  {
    match op
    case FlushAt(k) => vs[k + 1 := vs[k]]
    case SyncAt(k) => vs[k + 1 := vs[k]]
    case AddTop(o, coin, _) => if coin.out.script.IsUnspendable() then vs else vs[0 := vs[0][o := coin]]
    case SpendTop(o) => vs[0 := vs[0] - {o}]
    case Push => [vs[0]] + vs
    case Pop => if |vs| > 1 then vs[1..] else vs
    case _ => vs
  }

  /** What it does to the best-block hash of every level. */
  function PlainHashes(hs: seq<Hash>, op: Op): seq<Hash>
    requires Fits(|hs|, op)
  {
    match op
    case Push => [NULL_HASH] + hs
    case Pop => if |hs| > 1 then hs[1..] else hs
    case AddTop(_, _, _) => hs
    case SpendTop(_) => hs
    case _ => QuietHashes(hs, op.k, op)
  }

  /** The same for a call on level `k` that adds and spends nothing. */
  function QuietHashes(hs: seq<Hash>, k: nat, op: Op): seq<Hash>
    requires k + 1 < |hs| && IsQuiet(op)
  {
    match op
    case FlushAt(_) => hs[k + 1 := hs[k]]
    case SyncAt(_) => hs[k + 1 := hs[k]]
    case BestAt(_) => hs[..k] + Filled(hs[k..])
    case SetBestAt(_, hash) => hs[k := hash]
    case _ => hs
  }

  /** A call on `levels` levels names one that exists, and a flush one with another below it. */
  predicate Fits(levels: nat, op: Op) {
    levels > 0 && (IsQuiet(op) ==> op.k + 1 < levels)
  }

  lemma {:induction false} QuietCorrect(s: Stack, op: Op)
    requires WF(s) && s.Layer? && IsQuiet(op)
    ensures WF(Quiet(s, op))
    ensures Views(Quiet(s, op)) == if op.FlushAt? || op.SyncAt? then Views(s)[1 := Views(s)[0]] else Views(s)
  {
    match op
    case GetAt(_, o) => GetCorrect(s, o);
    case UncacheAt(_, o) => UncacheCorrect(s, o);
    case FlushAt(_) => FlushCorrect(s);
    case SyncAt(_) => SyncCorrect(s);
    case BestAt(_) => FillBestCorrect(s);
    case SetBestAt(_, _) =>
  }

  lemma {:induction false} QuietAtCorrect(s: Stack, k: nat, op: Op)
    requires WF(s) && k < Depth(s)
    requires IsQuiet(op)
    ensures WF(QuietAt(s, k, op))
    ensures Views(QuietAt(s, k, op))
            == if op.FlushAt? || op.SyncAt? then Views(s)[k + 1 := Views(s)[k]] else Views(s)
  {
    if k == 0 {
      QuietCorrect(s, op);
    } else {
      QuietAtCorrect(s.base, k - 1, op);
      OverSameMeaning(s, QuietAt(s.base, k - 1, op));
      CopyBelow(Views(s), k, Views(s.base));
    }
  }

  lemma {:induction false} CopyBelow(vs: seq<Utxos>, k: nat, below: seq<Utxos>)
    requires 0 < k && k + 1 < |vs| && below == vs[1..]
    ensures vs == [vs[0]] + below && vs[k + 1 := vs[k]] == [vs[0]] + below[k := below[k - 1]]
  {
  }

  /** A cache may sit on any base with the meaning of its own. */
  lemma {:induction false} OverSameMeaning(s: Stack, b: Stack)
    requires WF(s) && s.Layer? && WF(b) && Views(b)[0] == Views(s.base)[0]
    ensures WF(s.(base := b)) && Views(s.(base := b)) == [View(s)] + Views(b)
  {
    assert View(b) == View(s.base);
  }

  /** Every allowed call keeps the invariant and acts on the views as on plain maps. */
  lemma {:induction false} StepCorrect(s: Stack, op: Op)
    requires WF(s) && Allowed(s, op)
    ensures WF(Step(s, op))
    ensures Fits(Depth(s) + 1, op) && Views(Step(s, op)) == PlainViews(Views(s), op)
  {
    match op
    case AddTop(o, coin, overwrite) => AddCorrect(s, o, coin, overwrite);
    case SpendTop(o) => SpendCorrect(s, o);
    case Push => assert View(Step(s, op)) == View(s);
    case Pop =>
    case _ => QuietAtCorrect(s, op.k, op);
  }

  // ---------------------------------------------------------------- best blocks

  /** The first hash that is set, or the last one. */
  function Tip(hs: seq<Hash>): Hash
    requires |hs| > 0
  {
    if |hs| > 1 && hs[0] == NULL_HASH then Tip(hs[1..]) else hs[0]
  }

  /** Every level above the first hash that is set learns it. */
  function Filled(hs: seq<Hash>): (r: seq<Hash>)
    requires |hs| > 0
    ensures |r| == |hs|
  {
    if |hs| > 1 && hs[0] == NULL_HASH then [Tip(hs)] + Filled(hs[1..]) else hs
  }

  /** The best block of a stack is the hash of the first level that has one. */
  lemma {:induction false} BestIsTip(s: Stack)
    ensures BestBlock(s) == Tip(Hashes(s))
  {
    if s.Layer? {
      BestIsTip(s.base);
      assert Hashes(s)[1..] == Hashes(s.base);
    }
  }

  /** The best block of every level is the first hash set at or below it. */
  predicate TipsAreBest(s: Stack) {
    forall k :: 0 <= k <= Depth(s) ==> BestBlock(Level(s, k)) == Tip(Hashes(s)[k..])
  }

  lemma {:induction false} LevelBest(s: Stack, k: nat)
    requires k <= Depth(s)
    ensures BestBlock(Level(s, k)) == Tip(Hashes(s)[k..])
  {
    if k == 0 {
      BestIsTip(s);
      assert Hashes(s)[0..] == Hashes(s);
    } else {
      LevelBest(s.base, k - 1);
      assert Hashes(s)[k..] == Hashes(s.base)[k - 1..];
    }
  }

  /** Where the tip is: at the first level with a hash, all levels above it having none. */
  lemma {:induction false} TipIsFirst(hs: seq<Hash>) returns (k: nat)
    requires |hs| > 0
    ensures k < |hs| && Tip(hs) == hs[k] && (hs[k] == NULL_HASH ==> k == |hs| - 1)
    ensures forall i :: 0 <= i < k ==> hs[i] == NULL_HASH && Filled(hs)[i] == hs[k]
    ensures Filled(hs)[k..] == hs[k..]
  {
    if |hs| > 1 && hs[0] == NULL_HASH {
      var j := TipIsFirst(hs[1..]);
      k := j + 1;
      assert hs[1..][j..] == hs[k..];
      assert Filled(hs)[k..] == Filled(hs[1..])[j..];
    } else {
      k := 0;
    }
  }

  /** Lookups touch no level's hash. */
  lemma {:induction false} LookupHashes(s: Stack, o: OutPoint)
    ensures Hashes(Get(s, o).stack) == Hashes(s)
    ensures s.Layer? ==> Hashes(Fetch(s, o)) == Hashes(s)
  {
    if s.Layer? {
      LookupHashes(s.base, o);
    }
  }

  lemma {:induction false} FillHashes(s: Stack)
    ensures Hashes(FillBest(s)) == Filled(Hashes(s))
  {
    BestIsTip(s);
    if s.Layer? {
      FillHashes(s.base);
      assert Hashes(s)[1..] == Hashes(s.base);
    }
  }

  lemma {:induction false} QuietTopHashes(s: Stack, op: Op)
    requires s.Layer? && IsQuiet(op)
    ensures Hashes(Quiet(s, op)) == QuietHashes(Hashes(s), 0, op)
  {
    match op
    case GetAt(_, o) => LookupHashes(s, o);
    case BestAt(_) => FillHashes(s);
    case _ =>
  }

  lemma {:induction false} UpdateBelow(hs: seq<Hash>, k: nat, x: Hash, below: seq<Hash>)
    requires 0 < k < |hs| && below == hs[1..]
    ensures hs[k := x] == [hs[0]] + below[k - 1 := x]
  {
  }

  lemma {:induction false} FilledBelow(hs: seq<Hash>, k: nat, below: seq<Hash>)
    requires 0 < k < |hs| && below == hs[1..]
    ensures hs[..k] + Filled(hs[k..]) == [hs[0]] + (below[..k - 1] + Filled(below[k - 1..]))
  {
    assert below[k - 1..] == hs[k..];
    assert hs[..k] == [hs[0]] + below[..k - 1];
  }

  lemma {:induction false} QuietHashesBelow(hs: seq<Hash>, k: nat, op: Op, below: seq<Hash>)
    requires 0 < k && k + 1 < |hs| && IsQuiet(op) && below == hs[1..]
    ensures QuietHashes(hs, k, op) == [hs[0]] + QuietHashes(below, k - 1, op)
  {
    match op
    case FlushAt(_) => UpdateBelow(hs, k + 1, hs[k], below);
    case SyncAt(_) => UpdateBelow(hs, k + 1, hs[k], below);
    case BestAt(_) => FilledBelow(hs, k, below);
    case SetBestAt(_, hash) => UpdateBelow(hs, k, hash, below);
    case _ =>
  }

  lemma {:induction false} QuietAtHashes(s: Stack, k: nat, op: Op)
    requires k < Depth(s) && IsQuiet(op)
    ensures Hashes(QuietAt(s, k, op)) == QuietHashes(Hashes(s), k, op)
  {
    if k == 0 {
      QuietTopHashes(s, op);
    } else {
      QuietAtHashes(s.base, k - 1, op);
      QuietHashesBelow(Hashes(s), k, op, Hashes(s.base));
    }
  }

  /** Every allowed call acts on the best-block hashes of all levels as on plain hashes. */
  lemma {:induction false} StepHashes(s: Stack, op: Op)
    requires Allowed(s, op)
    ensures Fits(Depth(s) + 1, op) && Hashes(Step(s, op)) == PlainHashes(Hashes(s), op)
  {
    match op
    case AddTop(_, _, _) =>
    case SpendTop(o) => LookupHashes(s, o);
    case Push =>
    case Pop =>
    case _ => QuietAtHashes(s, op.k, op);
  }

  // ---------------------------------------------------------------- runs

  ghost predicate AllowedRun(s: Stack, ops: seq<Op>)
    decreases |ops|
  {
    ops != [] ==> Allowed(s, ops[0]) && AllowedRun(Step(s, ops[0]), ops[1..])
  }

  ghost function Run(s: Stack, ops: seq<Op>): Stack
    requires AllowedRun(s, ops)
    decreases |ops|
  {
    if ops == [] then s else Run(Step(s, ops[0]), ops[1..])
  }

  /** The same calls on a stack of plain maps and plain hashes lead from `vs` and `hs` to `toVs` and `toHs`. */
  ghost predicate PlainRun(vs: seq<Utxos>, hs: seq<Hash>, ops: seq<Op>, toVs: seq<Utxos>, toHs: seq<Hash>)
    decreases |ops|
  {
    if ops == [] then toVs == vs && toHs == hs
    else
      && Fits(|vs|, ops[0]) && Fits(|hs|, ops[0])
      && PlainRun(PlainViews(vs, ops[0]), PlainHashes(hs, ops[0]), ops[1..], toVs, toHs)
  }

  /**
   Over any stack of caches and any run of calls, every level means what a stack of plain
   outpoint-to-coin maps holds after the same calls, and has the hash that a stack of plain
   hashes holds; a level's best block is the first hash set at or below it.
   */
  lemma {:induction false} RunCorrect(s: Stack, ops: seq<Op>)
    requires WF(s) && AllowedRun(s, ops)
    ensures WF(Run(s, ops))
    ensures PlainRun(Views(s), Hashes(s), ops, Views(Run(s, ops)), Hashes(Run(s, ops)))
    ensures TipsAreBest(Run(s, ops))
    decreases |ops|
  {
    if ops == [] {
      forall k | 0 <= k <= Depth(s) { LevelBest(s, k); }
    } else {
      StepCorrect(s, ops[0]);
      StepHashes(s, ops[0]);
      RunCorrect(Step(s, ops[0]), ops[1..]);
    }
  }
}
