/**
 Compact blocks: a block announced by short transaction ids and a few whole transactions is put
 together again from the memory pool, from extra transactions kept around, and from those asked
 for. Here are the message and the steps of reconstruction as functions, and the proof that they
 give back the block.
 */
module CompactBlocks {

  datatype Option<+T> = None | Some(value: T)

  type Hash = nat
  datatype Tx = Tx(serial: nat)

  const MAX_INDEX := 0xFFFF
  const MAX_BLOCK_WEIGHT := 4000000
  const MIN_SERIALIZABLE_TRANSACTION_WEIGHT := 40

  /**
   The salted short id of a witness hash, the witness hash of a transaction, whether it is null,
   and whether a table holding some short ids has an overfull bucket. Nothing is assumed of them.
   */
  datatype Env = Env(
    shortId: Hash -> nat, witnessHash: Tx -> Hash, isNull: Tx -> bool, crowded: seq<nat> -> bool)

  /** A whole transaction, with the number of places skipped since the one before it. */
  datatype Prefilled = Prefilled(skip: nat, tx: Tx)

  datatype Message = Message(nullHeader: bool, shortIds: seq<nat>, prefilled: seq<Prefilled>)

  /** A transaction of the pool or of the extra ones, listed with its witness hash. */
  datatype Known = Known(hash: Hash, tx: Tx)

  type Slots = seq<Option<Tx>>

  datatype Status = Good | Invalid | Failed | CheckFailed

  function Size(m: Message): nat {
    |m.shortIds| + |m.prefilled|
  }

  /** CBlockHeaderAndShortTxIDs of a block: the first transaction whole, the others by short id. */
  function Announce(e: Env, vtx: seq<Tx>): Message
    requires vtx != []
  {
    Message(false, ShortIds(e, vtx[1..]), [Prefilled(0, vtx[0])])
  }

  function ShortIds(e: Env, txs: seq<Tx>): seq<nat> {
    if txs == [] then [] else ShortIds(e, txs[..|txs| - 1]) + [ShortIdOf(e, txs[|txs| - 1])]
  }

  function ShortIdOf(e: Env, tx: Tx): nat {
    e.shortId(e.witnessHash(tx))
  }

  // ---------------------------------------------------------------- InitData

  datatype Filled = Bad | Filled(slots: Slots, last: int)

  /** The slots after the first i whole transactions have been put in their places. */
  function Prefill(e: Env, m: Message, i: nat): (r: Filled)
    requires i <= |m.prefilled|
    ensures r.Filled? ==> |r.slots| == Size(m) && -1 <= r.last < |m.shortIds| + i
  {
    if i == 0 then Filled(seq(Size(m), k => None), -1)
    else match Prefill(e, m, i - 1)
      case Bad => Bad
      case Filled(slots, last) =>
        var p := m.prefilled[i - 1];
        var at := last + p.skip + 1;
        if e.isNull(p.tx) || at > MAX_INDEX || at > |m.shortIds| + (i - 1) then Bad
        else Filled(slots[at := Some(p.tx)], at)
  }

  /** The slots when the loop over the whole transactions ends, which is at the first that is refused. */
  function Kept(e: Env, m: Message, i: nat): Slots
    requires i <= |m.prefilled|
  {
    match Prefill(e, m, i)
    case Filled(slots, _) => slots
    case Bad => Kept(e, m, i - 1)
  }

  /** The empty slots, in order. */
  function Gaps(slots: Slots): seq<nat> {
    if slots == [] then []
    else Gaps(slots[..|slots| - 1]) + if slots[|slots| - 1].None? then [|slots| - 1] else []
  }

  /** The place of each short id; of equal ones the last counts. */
  function Places(ids: seq<nat>, at: seq<nat>): map<nat, nat>
    requires |ids| <= |at|
  {
    if ids == [] then map[] else Places(ids[..|ids| - 1], at)[ids[|ids| - 1] := at[|ids| - 1]]
  }

  /** What has been found: the slots, where something was found, and how many slots that filled. */
  datatype Finds = Finds(slots: Slots, have: seq<bool>, count: int)

  ghost predicate Fitting(places: map<nat, nat>, f: Finds) {
    |f.have| == |f.slots| && forall id :: id in places ==> places[id] < |f.slots|
  }

  function AtPlace(f: Finds, p: nat, tx: Option<Tx>, more: int): Finds
    requires p < |f.slots| && p < |f.have|
  {
    Finds(f.slots[p := tx], f.have[p := true], f.count + more)
  }

  /** A transaction of the pool: the first with a short id is taken, a second one undoes it. */
  function OfferPool(e: Env, places: map<nat, nat>, f: Finds, k: Known): Finds
    requires Fitting(places, f)
  {
    var id := e.shortId(k.hash);
    if id !in places then f
    else if !f.have[places[id]] then AtPlace(f, places[id], Some(k.tx), 1)
    else if f.slots[places[id]].Some? then AtPlace(f, places[id], None, -1)
    else f
  }

  /** An extra transaction: a second one with a short id undoes the first only if they differ. */
  function OfferExtra(e: Env, places: map<nat, nat>, f: Finds, k: Known): Finds
    requires Fitting(places, f)
  {
    var id := e.shortId(k.hash);
    if id !in places then f
    else if !f.have[places[id]] then AtPlace(f, places[id], Some(k.tx), 1)
    else if f.slots[places[id]].Some? && e.witnessHash(f.slots[places[id]].value) != e.witnessHash(k.tx)
    then AtPlace(f, places[id], None, -1)
    else f
  }

  /** The loop over the pool, which stops once every short id has been found. */
  function ScanPool(e: Env, places: map<nat, nat>, f: Finds, pool: seq<Known>): (r: Finds)
    requires Fitting(places, f)
    ensures Fitting(places, r) && |r.slots| == |f.slots|
    decreases |pool|
  {
    if pool == [] then f
    else
      var g := OfferPool(e, places, f, pool[0]);
      if g.count == |places| then g else ScanPool(e, places, g, pool[1..])
  }

  function ScanExtra(e: Env, places: map<nat, nat>, f: Finds, extra: seq<Known>): (r: Finds)
    requires Fitting(places, f)
    ensures Fitting(places, r) && |r.slots| == |f.slots|
    decreases |extra|
  {
    if extra == [] then f
    else
      var g := OfferExtra(e, places, f, extra[0]);
      if g.count == |places| then g else ScanExtra(e, places, g, extra[1..])
  }

  /** A bucket gets overfull while the short ids are entered. */
  ghost predicate Crowds(e: Env, ids: seq<nat>) {
    exists n :: 0 < n <= |ids| && e.crowded(ids[..n])
  }

  datatype Init = Init(status: Status, slots: Slots)

  predicate Malformed(m: Message) {
    m.nullHeader || Size(m) == 0 || Size(m) > MAX_BLOCK_WEIGHT / MIN_SERIALIZABLE_TRANSACTION_WEIGHT
  }

  /** Every short id has a gap of its own. */
  predicate Roomy(m: Message, slots: Slots) {
    |Gaps(slots)| == |m.shortIds|
  }

  ghost predicate InGaps(places: map<nat, nat>, slots: Slots) {
    forall id :: id in places ==> places[id] < |slots| && slots[places[id]].None?
  }

  function Nothing(slots: Slots): Finds {
    Finds(slots, seq(|slots|, i => false), 0)
  }

  /** InitData into an empty partial block, given the slots that the whole transactions fill. */
  ghost function Search(e: Env, m: Message, slots: Slots, pool: seq<Known>, extra: seq<Known>): Init
    requires Roomy(m, slots)
  {
    var places := Places(m.shortIds, Gaps(slots));
    if Crowds(e, m.shortIds) || |places| != |m.shortIds| then Init(Failed, slots)
    else
      PlacesInGaps(m.shortIds, slots);
      Init(Good, ScanExtra(e, places, ScanPool(e, places, Nothing(slots), pool), extra).slots)
  }

  lemma {:induction false} PlacesInGaps(ids: seq<nat>, slots: Slots)
    requires |ids| <= |Gaps(slots)|
    ensures InGaps(Places(ids, Gaps(slots)), slots) && Fitting(Places(ids, Gaps(slots)), Nothing(slots))
  {
    if ids != [] {
      PlacesInGaps(ids[..|ids| - 1], slots);
      GapsEmpty(slots);
    }
  }

  lemma {:induction false} GapsEmpty(slots: Slots)
    ensures forall i :: 0 <= i < |Gaps(slots)| ==> Gaps(slots)[i] < |slots| && slots[Gaps(slots)[i]].None?
  {
    if slots != [] {
      GapsEmpty(slots[..|slots| - 1]);
    }
  }

  /** Every empty slot is among the gaps, and nothing else is. */
  lemma {:induction false} GapsAre(slots: Slots, p: nat)
    ensures p in Gaps(slots) <==> p < |slots| && slots[p].None?
  {
    if slots != [] {
      GapsAre(slots[..|slots| - 1], p);
    }
  }

  // ---------------------------------------------------------------- FillBlock

  /** The slots in order, their gaps filled with the transactions asked for, and what is left of those. */
  function Merge(slots: Slots, missing: seq<Tx>): Option<seq<Tx>> {
    if slots == [] then (if missing == [] then Some([]) else None)
    else if slots[0].Some? then Then(slots[0].value, Merge(slots[1..], missing))
    else if missing == [] then None
    else Then(missing[0], Merge(slots[1..], missing[1..]))
  }

  function Then(tx: Tx, rest: Option<seq<Tx>>): Option<seq<Tx>> {
    if rest.Some? then Some([tx] + rest.value) else None
  }

  /** The transactions of a block that a partial block lacks. */
  function Missing(vtx: seq<Tx>, slots: Slots): seq<Tx>
    requires |vtx| == |slots|
  {
    if slots == [] then []
    else (if slots[0].None? then [vtx[0]] else []) + Missing(vtx[1..], slots[1..])
  }

  /** What is in a slot is the block's transaction at that place. */
  ghost predicate Right(vtx: seq<Tx>, slots: Slots) {
    |slots| == |vtx| && forall p :: 0 <= p < |slots| && slots[p].Some? ==> slots[p].value == vtx[p]
  }

  lemma {:induction false} MergeRight(vtx: seq<Tx>, slots: Slots)
    requires Right(vtx, slots)
    ensures Merge(slots, Missing(vtx, slots)) == Some(vtx)
  {
    if slots != [] {
      assert Right(vtx[1..], slots[1..]) by {
        assert forall p :: 0 <= p < |slots[1..]| ==> slots[1..][p] == slots[p + 1] && vtx[1..][p] == vtx[p + 1];
      }
      MergeRight(vtx[1..], slots[1..]);
      assert [vtx[0]] + vtx[1..] == vtx;
      if slots[0].None? {
        assert ([vtx[0]] + Missing(vtx[1..], slots[1..]))[1..] == Missing(vtx[1..], slots[1..]);
      } else {
        assert [] + Missing(vtx[1..], slots[1..]) == Missing(vtx[1..], slots[1..]);
      }
    }
  }

  /** FillBlock succeeds exactly with as many transactions as there are gaps; they fill these in order. */
  lemma {:induction false} MergeExact(slots: Slots, missing: seq<Tx>)
    ensures Merge(slots, missing).Some? <==> |missing| == |Gaps(slots)|
    ensures Merge(slots, missing).Some? ==> FilledIn(slots, missing, Merge(slots, missing).value)
  {
    if slots != [] {
      GapsFront(slots);
      var more := if slots[0].None? && missing != [] then missing[1..] else missing;
      var rest := Merge(slots[1..], more);
      MergeExact(slots[1..], more);
      if rest.Some? && (slots[0].Some? || missing != []) {
        FilledFront(slots, missing, more, rest.value, Merge(slots, missing).value);
      }
    }
  }

  /** What was in a slot is still there, and the j-th gap has the j-th of the transactions asked for. */
  ghost predicate FilledIn(slots: Slots, missing: seq<Tx>, vtx: seq<Tx>) {
    && |vtx| == |slots| && |Gaps(slots)| == |missing|
    && (forall p :: 0 <= p < |slots| && slots[p].Some? ==> vtx[p] == slots[p].value)
    && (forall j :: 0 <= j < |missing| ==> 0 <= Gaps(slots)[j] < |vtx| && vtx[Gaps(slots)[j]] == missing[j])
  }

  lemma {:induction false} FilledFront(
    slots: Slots, missing: seq<Tx>, more: seq<Tx>, rest: seq<Tx>, vtx: seq<Tx>)
    requires slots != [] && FilledIn(slots[1..], more, rest) && |vtx| == |slots| && vtx[1..] == rest
    requires if slots[0].Some? then more == missing && vtx[0] == slots[0].value
             else missing != [] && more == missing[1..] && vtx[0] == missing[0]
    ensures FilledIn(slots, missing, vtx)
  {
    GapsFront(slots);
    forall p | 0 < p < |slots| && slots[p].Some? ensures vtx[p] == slots[p].value {
      assert slots[1..][p - 1] == slots[p] && vtx[p] == rest[p - 1];
    }
    var d := if slots[0].None? then 1 else 0;
    forall j | 0 <= j < |missing| ensures 0 <= Gaps(slots)[j] < |vtx| && vtx[Gaps(slots)[j]] == missing[j] {
      if j >= d {
        var k := j - d;
        assert Gaps(slots)[k + d] == Gaps(slots[1..])[k] + 1 && rest[Gaps(slots[1..])[k]] == more[k];
      }
    }
  }

  /** The gaps of all slots but the first are one place further on. */
  lemma {:induction false} GapsFront(slots: Slots)
    requires slots != []
    ensures var d := if slots[0].None? then 1 else 0; var rest := Gaps(slots[1..]);
      && |Gaps(slots)| == |rest| + d && (d == 1 ==> Gaps(slots)[0] == 0)
      && forall i :: 0 <= i < |rest| ==> Gaps(slots)[i + d] == rest[i] + 1
  {
    if |slots| > 1 {
      GapsFront(slots[..|slots| - 1]);
      assert slots[..|slots| - 1][1..] == slots[1..][..|slots[1..]| - 1];
    } else {
      assert slots[..0] == [] && slots[1..] == [];
    }
  }

  // ---------------------------------------------------------------- room for every short id

  lemma {:induction false} GapsPlaced(slots: Slots, at: nat, tx: Tx)
    requires at < |slots| && slots[at].None?
    ensures |Gaps(slots[at := Some(tx)])| == |Gaps(slots)| - 1
  {
    var front, after := slots[..|slots| - 1], slots[at := Some(tx)];
    if at < |slots| - 1 {
      GapsPlaced(front, at, tx);
      assert after[..|after| - 1] == front[at := Some(tx)];
    } else {
      assert after[..|after| - 1] == front;
    }
  }

  lemma {:induction false} AllGaps(slots: Slots)
    requires forall p :: 0 <= p < |slots| ==> slots[p].None?
    ensures |Gaps(slots)| == |slots| && forall i :: 0 <= i < |slots| ==> Gaps(slots)[i] == i
  {
    if slots != [] {
      AllGaps(slots[..|slots| - 1]);
    }
  }

  /** The whole transactions fill different slots, so there is a gap for every short id. */
  lemma {:induction false} PrefillRoom(e: Env, m: Message, i: nat)
    requires i <= |m.prefilled| && Prefill(e, m, i).Filled?
    ensures var f := Prefill(e, m, i);
      |Gaps(f.slots)| == Size(m) - i && forall p :: f.last < p < |f.slots| ==> f.slots[p].None?
  {
    var f := Prefill(e, m, i);
    if i == 0 {
      AllGaps(f.slots);
    } else {
      var j := i - 1;
      var g := Prefill(e, m, j);
      PrefillRoom(e, m, j);
      PrefillStep(e, m, j, i, g, f);
      GapsPlaced(g.slots, f.last, m.prefilled[j].tx);
    }
  }

  lemma {:induction false} PrefillStep(e: Env, m: Message, j: nat, i: nat, g: Filled, f: Filled)
    requires i == j + 1 <= |m.prefilled| && g == Prefill(e, m, j) && f == Prefill(e, m, i) && f.Filled?
    ensures g.Filled? && g.last < f.last < |g.slots| && f.slots == g.slots[f.last := Some(m.prefilled[j].tx)]
  {
  }

  /** InitData into an empty partial block. */
  ghost function InitData(e: Env, m: Message, pool: seq<Known>, extra: seq<Known>): Init {
    if Malformed(m) then Init(Invalid, [])
    else match Prefill(e, m, |m.prefilled|)
      case Bad => Init(Invalid, Kept(e, m, |m.prefilled|))
      case Filled(slots, _) =>
        PrefillRoom(e, m, |m.prefilled|);
        Search(e, m, slots, pool, extra)
  }

  // ---------------------------------------------------------------- the right transactions

  /** A message tells of a block: whole transactions in their places, and short ids for the others. */
  ghost predicate Describes(e: Env, m: Message, vtx: seq<Tx>) {
    var f := Prefill(e, m, |m.prefilled|);
    && f.Filled? && Right(vtx, f.slots) && |Gaps(f.slots)| == |m.shortIds|
    && forall i :: 0 <= i < |m.shortIds| ==>
         Gaps(f.slots)[i] < |vtx| && m.shortIds[i] == ShortIdOf(e, vtx[Gaps(f.slots)[i]])
  }

  /** No transaction at hand has the short id of a different one that is wanted at the given places. */
  ghost predicate NoCollision(e: Env, vtx: seq<Tx>, wanted: seq<nat>, known: seq<Known>) {
    forall i, p :: 0 <= i < |known| && p in wanted && p < |vtx| && e.shortId(known[i].hash) == ShortIdOf(e, vtx[p]) ==>
      known[i].tx == vtx[p]
  }

  /** The places that a message leaves to be found. */
  function Wanted(e: Env, m: Message): seq<nat> {
    match Prefill(e, m, |m.prefilled|)
    case Bad => []
    case Filled(slots, _) => Gaps(slots)
  }

  ghost predicate PlacesRight(e: Env, vtx: seq<Tx>, wanted: seq<nat>, places: map<nat, nat>) {
    forall id :: id in places ==> places[id] in wanted && places[id] < |vtx| && id == ShortIdOf(e, vtx[places[id]])
  }

  lemma {:induction false} DescribedPlaces(e: Env, vtx: seq<Tx>, ids: seq<nat>, at: seq<nat>)
    requires |ids| <= |at|
    requires forall i :: 0 <= i < |ids| ==> at[i] < |vtx| && ids[i] == ShortIdOf(e, vtx[at[i]])
    ensures PlacesRight(e, vtx, at, Places(ids, at))
  {
    if ids != [] {
      DescribedPlaces(e, vtx, ids[..|ids| - 1], at);
    }
  }

  lemma {:induction false} OfferRight(
    e: Env, vtx: seq<Tx>, wanted: seq<nat>, places: map<nat, nat>, f: Finds, k: Known)
    requires Fitting(places, f) && PlacesRight(e, vtx, wanted, places) && Right(vtx, f.slots)
             && NoCollision(e, vtx, wanted, [k])
    ensures Right(vtx, OfferPool(e, places, f, k).slots) && Right(vtx, OfferExtra(e, places, f, k).slots)
  {
    var id := e.shortId(k.hash);
    if id in places {
      assert [k][0].tx == vtx[places[id]];
    }
  }

  lemma {:induction false} NoCollisionSplits(e: Env, vtx: seq<Tx>, wanted: seq<nat>, known: seq<Known>)
    requires NoCollision(e, vtx, wanted, known) && known != []
    ensures NoCollision(e, vtx, wanted, [known[0]]) && NoCollision(e, vtx, wanted, known[1..])
  {
  }

  lemma {:induction false} PoolRight(
    e: Env, vtx: seq<Tx>, wanted: seq<nat>, places: map<nat, nat>, f: Finds, pool: seq<Known>)
    requires Fitting(places, f) && PlacesRight(e, vtx, wanted, places) && Right(vtx, f.slots)
             && NoCollision(e, vtx, wanted, pool)
    ensures Right(vtx, ScanPool(e, places, f, pool).slots)
    decreases |pool|
  {
    if pool != [] {
      NoCollisionSplits(e, vtx, wanted, pool);
      OfferRight(e, vtx, wanted, places, f, pool[0]);
      PoolRight(e, vtx, wanted, places, OfferPool(e, places, f, pool[0]), pool[1..]);
    }
  }

  lemma {:induction false} ExtraRight(
    e: Env, vtx: seq<Tx>, wanted: seq<nat>, places: map<nat, nat>, f: Finds, extra: seq<Known>)
    requires Fitting(places, f) && PlacesRight(e, vtx, wanted, places) && Right(vtx, f.slots)
             && NoCollision(e, vtx, wanted, extra)
    ensures Right(vtx, ScanExtra(e, places, f, extra).slots)
    decreases |extra|
  {
    if extra != [] {
      NoCollisionSplits(e, vtx, wanted, extra);
      OfferRight(e, vtx, wanted, places, f, extra[0]);
      ExtraRight(e, vtx, wanted, places, OfferExtra(e, places, f, extra[0]), extra[1..]);
    }
  }

  /** With no collision, InitData puts nothing into a slot but the block's own transaction. */
  lemma {:induction false} SlotsRight(e: Env, m: Message, vtx: seq<Tx>, pool: seq<Known>, extra: seq<Known>)
    requires Describes(e, m, vtx) && NoCollision(e, vtx, Wanted(e, m), pool) && NoCollision(e, vtx, Wanted(e, m), extra)
    requires InitData(e, m, pool, extra).status == Good
    ensures Right(vtx, InitData(e, m, pool, extra).slots)
  {
    var slots := Prefill(e, m, |m.prefilled|).slots;
    var places := Places(m.shortIds, Gaps(slots));
    DescribedPlaces(e, vtx, m.shortIds, Gaps(slots));
    PlacesInGaps(m.shortIds, slots);
    PoolRight(e, vtx, Gaps(slots), places, Nothing(slots), pool);
    ExtraRight(e, vtx, Gaps(slots), places, ScanPool(e, places, Nothing(slots), pool), extra);
  }

  /**
   Reconstruction: from any description of a block, any pool and any extra transactions without a
   collision, filling in exactly the missing transactions in order gives back the block.
   */
  lemma {:induction false} Rebuilds(e: Env, m: Message, vtx: seq<Tx>, pool: seq<Known>, extra: seq<Known>)
    requires Describes(e, m, vtx) && NoCollision(e, vtx, Wanted(e, m), pool) && NoCollision(e, vtx, Wanted(e, m), extra)
    requires InitData(e, m, pool, extra).status == Good
    ensures var slots := InitData(e, m, pool, extra).slots;
      |slots| == |vtx| && Merge(slots, Missing(vtx, slots)) == Some(vtx)
  {
    SlotsRight(e, m, vtx, pool, extra);
    MergeRight(vtx, InitData(e, m, pool, extra).slots);
  }

  // ---------------------------------------------------------------- announced blocks

  lemma {:induction false} ShortIdsAt(e: Env, txs: seq<Tx>)
    ensures |ShortIds(e, txs)| == |txs|
    ensures forall i :: 0 <= i < |txs| ==> ShortIds(e, txs)[i] == ShortIdOf(e, txs[i])
  {
    if txs != [] {
      ShortIdsAt(e, txs[..|txs| - 1]);
    }
  }

  lemma {:induction false} GapsAfterFirst(slots: Slots)
    requires slots != [] && slots[0].Some? && forall p :: 0 < p < |slots| ==> slots[p].None?
    ensures |Gaps(slots)| == |slots| - 1 && forall i :: 0 <= i < |slots| - 1 ==> Gaps(slots)[i] == i + 1
  {
    if |slots| > 1 {
      GapsAfterFirst(slots[..|slots| - 1]);
    }
  }

  /** A block is announced by its first transaction and the short ids of the witness hashes of the others, in order. */
  lemma {:induction false} AnnouncedAs(e: Env, vtx: seq<Tx>)
    requires vtx != []
    ensures var m := Announce(e, vtx);
      && !m.nullHeader && m.prefilled == [Prefilled(0, vtx[0])] && |m.shortIds| + 1 == |vtx|
      && forall i :: 0 < i < |vtx| ==> m.shortIds[i - 1] == e.shortId(e.witnessHash(vtx[i]))
  {
    ShortIdsAt(e, vtx[1..]);
    forall i | 0 < i < |vtx| ensures ShortIds(e, vtx[1..])[i - 1] == e.shortId(e.witnessHash(vtx[i])) {
      assert vtx[1..][i - 1] == vtx[i];
    }
  }

  /** What a node announces describes its block. */
  lemma {:induction false} AnnounceDescribes(e: Env, vtx: seq<Tx>)
    requires vtx != [] && !e.isNull(vtx[0])
    ensures Describes(e, Announce(e, vtx), vtx)
  {
    var m := Announce(e, vtx);
    ShortIdsAt(e, vtx[1..]);
    var empty := Prefill(e, m, 0);
    var f := Prefill(e, m, 1);
    assert f == Filled(empty.slots[0 := Some(vtx[0])], 0);
    GapsAfterFirst(f.slots);
  }

  ghost predicate Distinct(ids: seq<nat>) {
    forall i, j :: 0 <= i < j < |ids| ==> ids[i] != ids[j]
  }

  lemma {:induction false} PlacesSize(ids: seq<nat>, at: seq<nat>)
    requires |ids| <= |at|
    ensures forall id :: id in Places(ids, at) <==> id in ids
    ensures |Places(ids, at)| <= |ids| && (|Places(ids, at)| == |ids| <==> Distinct(ids))
  {
    if ids != [] {
      var front, last := ids[..|ids| - 1], ids[|ids| - 1];
      PlacesSize(front, at);
      assert ids == front + [last];
      var before, after := Places(front, at), Places(ids, at);
      assert after.Keys == before.Keys + {last};
      assert |after| == |before| + if last in before then 0 else 1;
      assert last in front <==> exists i :: 0 <= i < |front| && front[i] == last;
      assert Distinct(ids) <==> Distinct(front) && last !in front by {
        assert forall i :: 0 <= i < |front| ==> ids[i] == front[i];
        assert ids[|ids| - 1] == last;
      }
    }
  }

  /** InitData takes a described block exactly if its short ids differ and no bucket gets overfull. */
  lemma {:induction false} TakenExactly(e: Env, m: Message, vtx: seq<Tx>, pool: seq<Known>, extra: seq<Known>)
    requires Describes(e, m, vtx) && !Malformed(m)
    ensures InitData(e, m, pool, extra).status == Good <==> Distinct(m.shortIds) && !Crowds(e, m.shortIds)
  {
    PlacesSize(m.shortIds, Gaps(Prefill(e, m, |m.prefilled|).slots));
  }

  /** A block announced by one node is rebuilt by another. */
  lemma {:induction false} AnnouncedIsRebuilt(e: Env, vtx: seq<Tx>, pool: seq<Known>, extra: seq<Known>)
    requires vtx != [] && !e.isNull(vtx[0]) && |vtx| <= MAX_INDEX
    requires var wanted := Wanted(e, Announce(e, vtx));
      NoCollision(e, vtx, wanted, pool) && NoCollision(e, vtx, wanted, extra)
    requires var ids := Announce(e, vtx).shortIds; Distinct(ids) && !Crowds(e, ids)
    ensures var r := InitData(e, Announce(e, vtx), pool, extra);
      r.status == Good && |r.slots| == |vtx| && Merge(r.slots, Missing(vtx, r.slots)) == Some(vtx)
  {
    var m := Announce(e, vtx);
    AnnounceDescribes(e, vtx);
    ShortIdsAt(e, vtx[1..]);
    TakenExactly(e, m, vtx, pool, extra);
    Rebuilds(e, m, vtx, pool, extra);
  }

  // ---------------------------------------------------------------- the count of what was found

  ghost predicate Injective(places: map<nat, nat>) {
    forall i, j :: i in places && j in places && i != j ==> places[i] != places[j]
  }

  ghost function FoundIds(places: map<nat, nat>, slots: Slots): set<nat> {
    set id | id in places && places[id] < |slots| && slots[places[id]].Some?
  }

  /** The count is the number of short ids whose slot is filled. So it does not drop below zero. */
  ghost predicate Counted(places: map<nat, nat>, f: Finds) {
    var fitting := Fitting(places, f);
    && fitting && Injective(places) && f.count == |FoundIds(places, f.slots)|
    && (forall id :: id in places && !f.have[places[id]] ==> f.slots[places[id]].None?)
  }

  lemma {:induction false} FoundIdsChange(places: map<nat, nat>, slots: Slots, id: nat, tx: Option<Tx>)
    requires Injective(places) && id in places && places[id] < |slots|
    ensures var before, after := FoundIds(places, slots), FoundIds(places, slots[places[id] := tx]);
      after == if tx.Some? then before + {id} else before - {id}
  {
  }

  lemma {:induction false} TakenCounted(places: map<nat, nat>, f: Finds, id: nat, tx: Tx)
    requires Counted(places, f) && id in places && !f.have[places[id]]
    ensures Counted(places, AtPlace(f, places[id], Some(tx), 1))
  {
    FoundIdsChange(places, f.slots, id, Some(tx));
  }

  lemma {:induction false} UndoneCounted(places: map<nat, nat>, f: Finds, id: nat)
    requires Counted(places, f) && id in places && f.slots[places[id]].Some?
    ensures Counted(places, AtPlace(f, places[id], None, -1))
  {
    FoundIdsChange(places, f.slots, id, None);
  }

  lemma {:induction false} OfferCounted(e: Env, places: map<nat, nat>, f: Finds, k: Known)
    requires Counted(places, f)
    ensures Counted(places, OfferPool(e, places, f, k)) && Counted(places, OfferExtra(e, places, f, k))
  {
    var id := e.shortId(k.hash);
    if id in places {
      if !f.have[places[id]] {
        TakenCounted(places, f, id, k.tx);
      } else if f.slots[places[id]].Some? {
        UndoneCounted(places, f, id);
      }
    }
  }

  lemma {:induction false} PoolCounted(e: Env, places: map<nat, nat>, f: Finds, pool: seq<Known>)
    requires Counted(places, f)
    ensures Counted(places, ScanPool(e, places, f, pool))
    decreases |pool|
  {
    if pool != [] {
      OfferCounted(e, places, f, pool[0]);
      PoolCounted(e, places, OfferPool(e, places, f, pool[0]), pool[1..]);
    }
  }

  lemma {:induction false} ExtraCounted(e: Env, places: map<nat, nat>, f: Finds, extra: seq<Known>)
    requires Counted(places, f)
    ensures Counted(places, ScanExtra(e, places, f, extra))
    decreases |extra|
  {
    if extra != [] {
      OfferCounted(e, places, f, extra[0]);
      ExtraCounted(e, places, OfferExtra(e, places, f, extra[0]), extra[1..]);
    }
  }

  lemma {:induction false} GapsAscend(slots: Slots)
    ensures forall i, j :: 0 <= i < j < |Gaps(slots)| ==> Gaps(slots)[i] < Gaps(slots)[j]
  {
    if slots != [] {
      GapsAscend(slots[..|slots| - 1]);
      GapsEmpty(slots[..|slots| - 1]);
    }
  }

  lemma {:induction false} PlacesAt(ids: seq<nat>, at: seq<nat>, id: nat) returns (i: nat)
    requires |ids| <= |at| && id in Places(ids, at)
    ensures i < |ids| && ids[i] == id && Places(ids, at)[id] == at[i]
  {
    var last := |ids| - 1;
    if ids[last] == id {
      i := last;
    } else {
      i := PlacesAt(ids[..last], at, id);
    }
  }

  lemma {:induction false} PlacesInjective(ids: seq<nat>, slots: Slots)
    requires |ids| <= |Gaps(slots)|
    ensures Injective(Places(ids, Gaps(slots)))
  {
    var at := Gaps(slots);
    var places := Places(ids, at);
    GapsAscend(slots);
    forall a, b | a in places && b in places && a != b ensures places[a] != places[b] {
      var i := PlacesAt(ids, at, a);
      var j := PlacesAt(ids, at, b);
      assert if i < j then at[i] < at[j] else at[j] < at[i];
    }
  }

  /**
   All through the search the count is exact: it is never negative, and the search stops early only
   when all is found.
   */
  lemma {:induction false} SearchCounted(e: Env, m: Message, slots: Slots, pool: seq<Known>, extra: seq<Known>)
    requires Roomy(m, slots)
    ensures var places := Places(m.shortIds, Gaps(slots));
      && Fitting(places, Nothing(slots)) && Counted(places, ScanPool(e, places, Nothing(slots), pool))
      && Counted(places, ScanExtra(e, places, ScanPool(e, places, Nothing(slots), pool), extra))
  {
    var places := Places(m.shortIds, Gaps(slots));
    PlacesInGaps(m.shortIds, slots);
    PlacesInjective(m.shortIds, slots);
    assert FoundIds(places, slots) == {};
    PoolCounted(e, places, Nothing(slots), pool);
    ExtraCounted(e, places, ScanPool(e, places, Nothing(slots), pool), extra);
  }

  /** When the count reaches the number of short ids, nothing is missing any more. */
  lemma {:induction false} AllFound(places: map<nat, nat>, f: Finds, id: nat)
    requires Counted(places, f) && f.count == |places| && id in places
    ensures f.slots[places[id]].Some?
  {
    var found := FoundIds(places, f.slots);
    assert found <= places.Keys;
    if id !in found {
      assert found <= places.Keys - {id};
      assert |places.Keys - {id}| == |places| - 1;
      Smaller(found, places.Keys - {id});
    }
  }

  lemma {:induction false} Smaller(a: set<nat>, b: set<nat>)
    requires a <= b
    ensures |a| <= |b|
  {
    assert a + (b - a) == b;
  }
}
