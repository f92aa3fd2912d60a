/**
 PartiallyDownloadedBlock: the object that collects a block's transactions. Its methods do what
 the functions of CompactBlocks say.
 */
module PartialBlocks {
  import opened CompactBlocks

  // ---------------------------------------------------------------- facts for the loops

  lemma {:induction false} StaysBad(e: Env, m: Message, i: nat, j: nat)
    requires i <= j <= |m.prefilled| && Prefill(e, m, i) == Bad
    ensures Prefill(e, m, j) == Bad && Kept(e, m, j) == Kept(e, m, i)
  {
    if i < j {
      StaysBad(e, m, i, j - 1);
    }
  }

  lemma {:induction false} GapsPrefix(slots: Slots, c: nat)
    requires c <= |slots|
    ensures Gaps(slots[..c]) <= Gaps(slots)
  {
    if c < |slots| {
      GapsPrefix(slots[..|slots| - 1], c);
      assert slots[..|slots| - 1][..c] == slots[..c];
    } else {
      assert slots[..c] == slots;
    }
  }

  lemma {:induction false} GapsNext(slots: Slots, c: nat)
    requires c < |slots|
    ensures Gaps(slots[..c + 1]) == Gaps(slots[..c]) + if slots[c].None? then [c] else []
  {
    assert slots[..c + 1][..c] == slots[..c];
  }

  /** The first c slots have been passed, and i of them were gaps. */
  ghost predicate Passed(slots: Slots, c: nat, i: nat) {
    c <= |slots| && |Gaps(slots[..c])| == i
  }

  /** While gaps are left there are slots left; a filled one is passed by. */
  lemma {:induction false} PassFilled(slots: Slots, c: nat, i: nat)
    requires Passed(slots, c, i) && i < |Gaps(slots)|
    ensures c < |slots| && (slots[c].Some? ==> Passed(slots, c + 1, i))
  {
    assert slots[..|slots|] == slots;
    GapsNext(slots, c);
  }

  lemma {:induction false} PassGap(slots: Slots, c: nat, i: nat)
    requires Passed(slots, c, i) && c < |slots| && slots[c].None?
    ensures Passed(slots, c + 1, i + 1) && i < |Gaps(slots)| && Gaps(slots)[i] == c
  {
    GapsNext(slots, c);
    GapsPrefix(slots, c + 1);
    assert Gaps(slots[..c + 1])[i] == c;
  }

  lemma {:induction false} PlacesNext(ids: seq<nat>, at: seq<nat>, i: nat)
    requires i < |ids| <= |at|
    ensures Places(ids[..i + 1], at) == Places(ids[..i], at)[ids[i] := at[i]]
  {
    assert ids[..i + 1][..i] == ids[..i];
  }

  /** Some transactions in front of the rest of a merge. */
  function After(done: seq<Tx>, rest: Option<seq<Tx>>): Option<seq<Tx>> {
    if rest.Some? then Some(done + rest.value) else None
  }

  lemma {:induction false} AfterThen(done: seq<Tx>, tx: Tx, rest: Option<seq<Tx>>)
    ensures After(done, Then(tx, rest)) == After(done + [tx], rest) && After([], rest) == rest
  {
    if rest.Some? {
      assert done + ([tx] + rest.value) == done + [tx] + rest.value;
      assert [] + rest.value == rest.value;
    }
  }

  lemma {:induction false} MergeNext(slots: Slots, missing: seq<Tx>, i: nat, k: nat, done: seq<Tx>)
    requires i < |slots| && k <= |missing|
    requires Merge(slots, missing) == After(done, Merge(slots[i..], missing[k..]))
    ensures slots[i].Some? ==>
      Merge(slots, missing) == After(done + [slots[i].value], Merge(slots[i + 1..], missing[k..]))
    ensures slots[i].None? && k == |missing| ==> Merge(slots, missing) == None
    ensures slots[i].None? && k < |missing| ==>
      Merge(slots, missing) == After(done + [missing[k]], Merge(slots[i + 1..], missing[k + 1..]))
  {
    assert slots[i..][1..] == slots[i + 1..];
    if slots[i].Some? {
      AfterThen(done, slots[i].value, Merge(slots[i + 1..], missing[k..]));
    } else if k < |missing| {
      assert missing[k..][1..] == missing[k + 1..];
      AfterThen(done, missing[k], Merge(slots[i + 1..], missing[k + 1..]));
    }
  }

  /** The first i slots have been taken out. */
  function Emptied(slots: Slots, i: nat): Slots {
    seq(|slots|, p requires 0 <= p < |slots| => if p < i then None else slots[p])
  }

  /** What is left over after the last slot. */
  function TooMany(missing: seq<Tx>): Option<seq<Tx>> {
    if missing == [] then Some([]) else None
  }

  /** The first i slots have been taken, their gaps filled with the first transactions given. */
  ghost predicate Taking(slots: Slots, missing: seq<Tx>, i: nat, used: nat, done: seq<Tx>) {
    && i <= |slots| && used <= |missing| && Passed(slots, i, used)
    && Merge(slots, missing) == After(done, Merge(slots[i..], missing[used..]))
  }

  lemma {:induction false} TakingStart(slots: Slots, missing: seq<Tx>)
    ensures Taking(slots, missing, 0, 0, []) && Emptied(slots, 0) == slots
  {
    assert slots[0..] == slots && missing[0..] == missing;
    AfterThen([], Tx(0), Merge(slots, missing));
  }

  lemma {:induction false} TakingNext(slots: Slots, missing: seq<Tx>, i: nat, used: nat, done: seq<Tx>)
    requires Taking(slots, missing, i, used, done) && i < |slots|
    ensures Emptied(slots, i)[i] == slots[i] && Emptied(slots, i)[i := None] == Emptied(slots, i + 1)
    ensures slots[i].Some? ==> Taking(slots, missing, i + 1, used, done + [slots[i].value])
    ensures slots[i].None? && used == |missing| ==> used < |Gaps(slots)| && Gaps(slots)[used] == i
    ensures slots[i].None? && used < |missing| ==> Taking(slots, missing, i + 1, used + 1, done + [missing[used]])
  {
    MergeNext(slots, missing, i, used, done);
    GapsNext(slots, i);
    if slots[i].None? {
      PassGap(slots, i, used);
    }
  }

  lemma {:induction false} TakingEnd(slots: Slots, missing: seq<Tx>, used: nat, done: seq<Tx>)
    requires Taking(slots, missing, |slots|, used, done)
    ensures used == |Gaps(slots)| && After(done, TooMany(missing[used..])) == Merge(slots, missing)
  {
    assert slots[..|slots|] == slots && slots[|slots|..] == [];
  }

  // ---------------------------------------------------------------- the object

  class PartiallyDownloadedBlock {
    var hasHeader: bool
    var available: Slots
    var mempoolCount: int

    constructor ()
      ensures !hasHeader && available == [] && mempoolCount == 0
    {
      hasHeader, available, mempoolCount := false, [], 0;
    }

    /** The loop over the whole transactions. */
    method PlacePrefilled(e: Env, m: Message) returns (ok: bool)
      requires available == seq(Size(m), k => None)
      modifies `available
      ensures ok == Prefill(e, m, |m.prefilled|).Filled?
      ensures available == Kept(e, m, |m.prefilled|)
    {
      var last := -1;
      for i := 0 to |m.prefilled|
        invariant Prefill(e, m, i) == Filled(available, last)
      {
        var p := m.prefilled[i];
        if e.isNull(p.tx) || last + p.skip + 1 > MAX_INDEX || last + p.skip + 1 > |m.shortIds| + i {
          StaysBad(e, m, i + 1, |m.prefilled|);
          return false;
        }
        last := last + p.skip + 1;
        available := available[last := Some(p.tx)];
      }
      return true;
    }

    /** Moves on to the next gap; there is one while short ids are left. */
    method SkipFilled(i: nat, offset: nat) returns (next: nat)
      requires Passed(available, i + offset, i) && i < |Gaps(available)|
      ensures i + next < |available| && available[i + next].None? && Passed(available, i + next, i)
    {
      next := offset;
      PassFilled(available, i + next, i);
      while available[i + next].Some?
        invariant i + next < |available| && Passed(available, i + next, i)
        decreases |available| - next
      {
        PassFilled(available, i + next, i);
        PassFilled(available, i + next + 1, i);
        next := next + 1;
      }
    }

    /** The loop that gives each short id the next gap; it never runs past the last slot. */
    method PlaceShortIds(e: Env, ids: seq<nat>) returns (crowded: bool, places: map<nat, nat>)
      requires |Gaps(available)| == |ids| && |available| <= MAX_INDEX
      ensures crowded == Crowds(e, ids)
      ensures !crowded ==> places == Places(ids, Gaps(available))
    {
      places := map[];
      var offset: nat := 0;
      for i := 0 to |ids|
        invariant Passed(available, i + offset, i)
        invariant places == Places(ids[..i], Gaps(available))
        invariant forall n :: 0 < n <= i ==> !e.crowded(ids[..n])
      {
        offset := SkipFilled(i, offset);
        assert offset <= MAX_INDEX && i + offset <= MAX_INDEX;
        PassGap(available, i + offset, i);
        PlacesNext(ids, Gaps(available), i);
        places := places[ids[i] := i + offset];
        if e.crowded(ids[..i + 1]) { return true, places; }
      }
      assert ids[..|ids|] == ids;
      return false, places;
    }

    /** One transaction of the pool. */
    method TryPool(e: Env, places: map<nat, nat>, have: seq<bool>, k: Known) returns (have': seq<bool>)
      requires Fitting(places, Finds(available, have, mempoolCount))
      modifies `available, `mempoolCount
      ensures Finds(available, have', mempoolCount)
              == OfferPool(e, places, old(Finds(available, have, mempoolCount)), k)
    {
      have' := have;
      var id := e.shortId(k.hash);
      if id in places {
        var p := places[id];
        if !have[p] {
          available := available[p := Some(k.tx)];
          have' := have[p := true];
          mempoolCount := mempoolCount + 1;
        } else if available[p].Some? {
          available := available[p := None];
          mempoolCount := mempoolCount - 1;
          assert have == have[p := true];
        }
      }
    }

    method TryExtra(e: Env, places: map<nat, nat>, have: seq<bool>, k: Known) returns (have': seq<bool>)
      requires Fitting(places, Finds(available, have, mempoolCount))
      modifies `available, `mempoolCount
      ensures Finds(available, have', mempoolCount)
              == OfferExtra(e, places, old(Finds(available, have, mempoolCount)), k)
    {
      have' := have;
      var id := e.shortId(k.hash);
      if id in places {
        var p := places[id];
        if !have[p] {
          available := available[p := Some(k.tx)];
          have' := have[p := true];
          mempoolCount := mempoolCount + 1;
        } else if available[p].Some? && e.witnessHash(available[p].value) != e.witnessHash(k.tx) {
          available := available[p := None];
          mempoolCount := mempoolCount - 1;
          assert have == have[p := true];
        }
      }
    }

    method SearchPool(e: Env, places: map<nat, nat>, have: seq<bool>, pool: seq<Known>) returns (have': seq<bool>)
      requires Fitting(places, Finds(available, have, mempoolCount))
      modifies `available, `mempoolCount
      ensures Finds(available, have', mempoolCount)
              == ScanPool(e, places, old(Finds(available, have, mempoolCount)), pool)
    {
      have' := have;
      ghost var end := ScanPool(e, places, Finds(available, have, mempoolCount), pool);
      for i := 0 to |pool|
        invariant Fitting(places, Finds(available, have', mempoolCount))
        invariant end == ScanPool(e, places, Finds(available, have', mempoolCount), pool[i..])
      {
        assert pool[i..][1..] == pool[i + 1..];
        have' := TryPool(e, places, have', pool[i]);
        if mempoolCount == |places| { return; }
      }
    }

    method SearchExtra(e: Env, places: map<nat, nat>, have: seq<bool>, extra: seq<Known>) returns (have': seq<bool>)
      requires Fitting(places, Finds(available, have, mempoolCount))
      modifies `available, `mempoolCount
      ensures Finds(available, have', mempoolCount)
              == ScanExtra(e, places, old(Finds(available, have, mempoolCount)), extra)
    {
      have' := have;
      ghost var end := ScanExtra(e, places, Finds(available, have, mempoolCount), extra);
      for i := 0 to |extra|
        invariant Fitting(places, Finds(available, have', mempoolCount))
        invariant end == ScanExtra(e, places, Finds(available, have', mempoolCount), extra[i..])
      {
        assert extra[i..][1..] == extra[i + 1..];
        have' := TryExtra(e, places, have', extra[i]);
        if mempoolCount == |places| { return; }
      }
    }

    /** InitData. A message off the wire has no more transactions than a 16-bit index can count. */
    method InitData(e: Env, m: Message, pool: seq<Known>, extra: seq<Known>) returns (status: Status)
      requires Size(m) <= MAX_INDEX && (!hasHeader && available == [] ==> mempoolCount == 0)
      modifies this
      ensures old(hasHeader) || old(available) != [] ==>
        status == Invalid && hasHeader == old(hasHeader) && available == old(available)
      ensures old(!hasHeader && available == []) ==>
        Init(status, available) == CompactBlocks.InitData(e, m, pool, extra) && hasHeader == !Malformed(m)
    {
      if Malformed(m) { return Invalid; }
      if hasHeader || available != [] { return Invalid; }
      hasHeader := true;
      available := seq(Size(m), k => None);
      var ok := PlacePrefilled(e, m);
      if !ok { return Invalid; }
      PrefillRoom(e, m, |m.prefilled|);
      ghost var slots := available;
      var crowded, places := PlaceShortIds(e, m.shortIds);
      if crowded { return Failed; }
      if |places| != |m.shortIds| { return Failed; }
      PlacesInGaps(m.shortIds, slots);
      var have := seq(|available|, i => false);
      have := SearchPool(e, places, have, pool);
      have := SearchExtra(e, places, have, extra);
      return Good;
    }

    /** What is not available is what has to be asked for: the gaps. */
    method IsTxAvailable(index: nat) returns (there: bool)
      requires hasHeader ==> index < |available|
      ensures there <==> hasHeader && index !in Gaps(available)
    {
      GapsAre(available, index);
      return hasHeader && available[index].Some?;
    }

    /** The loop of FillBlock; the transactions it takes leave their slots empty. */
    method TakeSlots(missing: seq<Tx>) returns (enough: bool, used: nat, vtx: seq<Tx>)
      modifies `available
      ensures enough <==> |missing| >= |Gaps(old(available))|
      ensures enough ==>
        used == |Gaps(old(available))| && After(vtx, TooMany(missing[used..])) == Merge(old(available), missing)
      ensures !enough ==> available == Emptied(old(available), Gaps(old(available))[|missing|])
    {
      vtx, used := [], 0;
      ghost var slots := available;
      TakingStart(slots, missing);
      for i := 0 to |available|
        invariant available == Emptied(slots, i) && Taking(slots, missing, i, used, vtx)
      {
        TakingNext(slots, missing, i, used, vtx);
        if available[i].None? {
          if |missing| <= used { return false, used, vtx; }
          vtx, used := vtx + [missing[used]], used + 1;
        } else {
          vtx := vtx + [available[i].value];
          available := available[i := None];
        }
      }
      TakingEnd(slots, missing, used, vtx);
      return true, used, vtx;
    }

    /**
     FillBlock; `check` is the verdict on the finished block. With too few transactions the header
     stays, and so do the slots from the first gap that could not be filled. Otherwise the object is
     cleared, and a second call is refused.
     */
    method FillBlock(missing: seq<Tx>, check: seq<Tx> -> Status) returns (status: Status, vtx: seq<Tx>)
      modifies this
      ensures !old(hasHeader) ==> status == Invalid && !hasHeader && available == old(available)
      ensures old(hasHeader) && |missing| < |Gaps(old(available))| ==>
        status == Invalid && hasHeader && available == Emptied(old(available), Gaps(old(available))[|missing|])
      ensures old(hasHeader) && |missing| >= |Gaps(old(available))| ==> !hasHeader && available == []
      ensures old(hasHeader) ==>
        match Merge(old(available), missing)
        case None => status == Invalid
        case Some(txs) => vtx == txs && status == check(txs)
    {
      vtx := [];
      if !hasHeader { return Invalid, vtx; }
      MergeExact(available, missing);
      var enough, used;
      enough, used, vtx := TakeSlots(missing);
      if !enough { return Invalid, vtx; }
      hasHeader := false;
      available := [];
      if |missing| != used { return Invalid, vtx; }
      assert vtx + [] == vtx;
      return check(vtx), vtx;
    }
  }
}
