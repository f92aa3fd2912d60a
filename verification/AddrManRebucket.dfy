/**
 Loading a file whose new table cannot be used as it is, because the number of buckets or the map of
 networks has changed: every entry is offered the one slot that its own source gives it.
 */
module AddrManRebucket {
  import opened AddrMan
  import opened AddrManFile

  /** What is refused unread: formats of the future, totals beyond the tables, and missing data. */
  lemma {:induction false} RefusedExactly(f: File)
    ensures !Refused(f) <==>
      && 32 <= f.compat <= 36 && 0 <= f.nNew <= 65536 && 0 <= f.nTried <= 16384
      && |f.news| == f.nNew && |f.tries| == f.nTried && |f.rows| == f.buckets
  {
  }

  /** The slot that the source of an entry gives it. */
  function HomeOf(e: Env, i: Info): Slot {
    NewSlot(e, i.service, i.source)
  }

  /** An entry with a reference has it in its home slot. */
  ghost predicate HasHome(e: Env, news: Table, id: int, i: Info) {
    i.refCount == if HomeOf(e, i) in news && news[HomeOf(e, i)] == id then 1 else 0
  }

  /** Every slot that is taken is the home of its entry, and references are counted. */
  ghost predicate AtHome(e: Env, s: State) {
    && (forall slot :: slot in s.news ==> s.news[slot] in s.info && HomeOf(e, s.info[s.news[slot]]) == slot)
    && (forall id :: id in s.info ==> HasHome(e, s.news, id, s.info[id]))
  }

  /** No listed entry that is valid could have been placed and was not. */
  ghost predicate HomesTaken(e: Env, s: State, pairs: seq<(nat, int)>) {
    forall k :: 0 <= k < |pairs| && pairs[k].1 in s.info && e.valid(s.info[pairs[k].1].service) ==>
      HomeOf(e, s.info[pairs[k].1]) in s.news
  }

  // ---------------------------------------------------------------- entries just read

  ghost predicate Blank(s: State) {
    s.news == map[] && forall id :: id in s.info ==> s.info[id].refCount == 0
  }

  lemma {:induction false} LoadNewBlank(e: Env, s: State, rs: seq<Record>)
    requires Blank(s)
    ensures Blank(LoadNew(e, s, rs))
  {
    if rs != [] {
      LoadNewBlank(e, s, rs[..|rs| - 1]);
    }
  }

  lemma {:induction false} LoadTriedBlank(e: Env, s: State, rs: seq<Record>)
    requires Blank(s)
    ensures Blank(LoadTried(e, s, rs).0)
  {
    if rs != [] {
      LoadTriedBlank(e, s, rs[..|rs| - 1]);
    }
  }

  lemma {:induction false} EntriesBlank(e: Env, f: File)
    ensures Blank(Entries(e, f))
  {
    var start := Fresh().(nNew := f.nNew, nTried := f.nTried);
    assert Blank(start);
    LoadNewBlank(e, start, f.news);
    LoadTriedBlank(e, LoadNew(e, start, f.news).(nIdCount := f.nNew), f.tries);
  }

  // ---------------------------------------------------------------- placing them

  /** An entry that gets its home, which was free. */
  lemma {:induction false} OccupyHome(e: Env, s: State, id: int, slot: Slot)
    requires AtHome(e, s) && id in s.info && slot == HomeOf(e, s.info[id]) && slot !in s.news
    ensures AtHome(e, Occupy(s, slot, id))
  {
    var r := Occupy(s, slot, id);
    forall k | k in r.info ensures HasHome(e, r.news, k, r.info[k]) {
      assert HasHome(e, s.news, k, s.info[k]);
    }
  }

  /** Entries keep their addresses and sources, and slots stay taken. */
  ghost predicate Grown(s: State, r: State) {
    && s.news.Keys <= r.news.Keys && r.info.Keys == s.info.Keys
    && forall id :: id in s.info ==> r.info[id].service == s.info[id].service && r.info[id].source == s.info[id].source
  }

  lemma {:induction false} LoadHome(e: Env, s: State, pair: (nat, int), r: State)
    requires AtHome(e, s) && r == LoadSlot(e, s, pair, false)
    ensures AtHome(e, r) && Grown(s, r)
    ensures pair.1 in r.info && e.valid(r.info[pair.1].service) ==> HomeOf(e, r.info[pair.1]) in r.news
  {
    var id := pair.1;
    if id in s.info {
      var slot := HomeOf(e, s.info[id]);
      assert HasHome(e, s.news, id, s.info[id]);
      if slot !in s.news {
        OccupyHome(e, s, id, slot);
      }
    }
  }

  lemma {:induction false} TakenOn(e: Env, s: State, r: State, front: seq<(nat, int)>, pairs: seq<(nat, int)>)
    requires pairs != [] && front == pairs[..|pairs| - 1] && HomesTaken(e, s, front) && Grown(s, r)
    requires var id := pairs[|pairs| - 1].1;
      id in r.info && e.valid(r.info[id].service) ==> HomeOf(e, r.info[id]) in r.news
    ensures HomesTaken(e, r, pairs)
  {
    forall k | 0 <= k < |pairs| && pairs[k].1 in r.info && e.valid(r.info[pairs[k].1].service)
      ensures HomeOf(e, r.info[pairs[k].1]) in r.news
    {
      if k < |front| {
        var id := front[k].1;
        assert front[k] == pairs[k] && id in r.info.Keys;
        assert id in s.info && r.info[id].service == s.info[id].service && r.info[id].source == s.info[id].source;
        assert HomeOf(e, s.info[id]) in s.news.Keys;
      }
    }
  }

  /**
   When the buckets cannot be restored, every slot that gets an entry is that entry's home, no entry
   has two, and a valid entry that the file lists is without one only if its home went to another.
   */
  lemma {:induction false} Rebucketed(e: Env, s: State, pairs: seq<(nat, int)>, r: State)
    requires AtHome(e, s) && r == LoadSlots(e, s, pairs, false)
    ensures AtHome(e, r) && HomesTaken(e, r, pairs)
  {
    if pairs != [] {
      var front := pairs[..|pairs| - 1];
      var q := LoadSlots(e, s, front, false);
      Rebucketed(e, s, front, q);
      LoadHome(e, q, pairs[|pairs| - 1], r);
      TakenOn(e, q, r, front, pairs);
    }
  }

  /** So it is for every file that was written with another map of networks or other buckets. */
  lemma {:induction false} FileRebucketed(e: Env, f: File, checksum: nat)
    requires f.buckets != 1024 || (if f.format >= V2_ASMAP then f.checksum else 0) != checksum
    ensures var pairs := Pairs(f.rows, f.nNew);
      var r := LoadSlots(e, Entries(e, f), pairs, Restores(f, checksum)); AtHome(e, r) && HomesTaken(e, r, pairs)
  {
    var pairs := Pairs(f.rows, f.nNew);
    EntriesBlank(e, f);
    Rebucketed(e, Entries(e, f), pairs, LoadSlots(e, Entries(e, f), pairs, false));
  }

  // ---------------------------------------------------------------- buckets that are restored

  /** The slot that a file lists for an entry. */
  function Listed(e: Env, i: Info, b: nat): Slot
    requires b < 1024
  {
    Slot(b, e.newPos(b, i.service))
  }

  /** The listed slot is taken; if it went to another entry, so is the home of this one. */
  ghost predicate Served(e: Env, s: State, b: nat, id: int)
    requires b < 1024 && id in s.info
  {
    var i := s.info[id];
    i.refCount < 8 ==> Listed(e, i, b) in s.news && (s.news[Listed(e, i, b)] == id || HomeOf(e, i) in s.news)
  }

  ghost predicate AllServed(e: Env, s: State, pairs: seq<(nat, int)>) {
    forall k ::
      0 <= k < |pairs| && pairs[k].0 < 1024 && pairs[k].1 in s.info && e.valid(s.info[pairs[k].1].service) ==>
      Served(e, s, pairs[k].0, pairs[k].1)
  }

  /** An entry has a slot only if the file lists the entry, there or in a slot that was taken. */
  ghost predicate Earned(e: Env, s: State, pairs: seq<(nat, int)>, slot: Slot, id: int) {
    && id in s.info && e.valid(s.info[id].service)
    && exists k ::
         && 0 <= k < |pairs| && pairs[k].1 == id
         && ((pairs[k].0 < 1024 && slot == Listed(e, s.info[id], pairs[k].0)) || slot == HomeOf(e, s.info[id]))
  }

  ghost predicate AllEarned(e: Env, s: State, pairs: seq<(nat, int)>) {
    forall slot :: slot in s.news ==> Earned(e, s, pairs, slot, s.news[slot])
  }

  /** Slots keep their entries, entries their addresses, and reference counts do not go down. */
  ghost predicate GrownTo(s: State, r: State) {
    && r.info.Keys == s.info.Keys && (forall slot :: slot in s.news ==> slot in r.news && r.news[slot] == s.news[slot])
    && forall id :: id in s.info ==>
         && r.info[id].service == s.info[id].service && r.info[id].source == s.info[id].source
         && r.info[id].refCount >= s.info[id].refCount
  }

  lemma {:induction false} LoadListed(e: Env, s: State, pair: (nat, int), r: State)
    requires r == LoadSlot(e, s, pair, true)
    ensures GrownTo(s, r)
    ensures pair.0 < 1024 && pair.1 in r.info && e.valid(r.info[pair.1].service) ==> Served(e, r, pair.0, pair.1)
    ensures forall slot :: slot in r.news && slot !in s.news ==> Earned(e, r, [pair], slot, r.news[slot])
  {
    var (b, id) := pair;
    if r != s {
      var slot := SlotFor(e, s, s.info[id], b, true);
      assert r == Occupy(s, slot, id) && [pair][0] == pair;
      assert Earned(e, r, [pair], slot, id);
    }
  }

  lemma {:induction false} ServedOn(e: Env, q: State, r: State, b: nat, id: int)
    requires GrownTo(q, r) && b < 1024 && id in q.info && id in r.info && Served(e, q, b, id)
    ensures Served(e, r, b, id)
  {
    assert Listed(e, r.info[id], b) == Listed(e, q.info[id], b) && HomeOf(e, r.info[id]) == HomeOf(e, q.info[id]);
  }

  lemma {:induction false} EarnedOn(
    e: Env, q: State, r: State, some: seq<(nat, int)>, pairs: seq<(nat, int)>, from: nat, slot: Slot, id: int)
    requires GrownTo(q, r) && Earned(e, q, some, slot, id)
    requires from + |some| <= |pairs| && pairs[from..from + |some|] == some
    ensures Earned(e, r, pairs, slot, id)
  {
    assert id in r.info.Keys;
    var k :| 0 <= k < |some| && some[k].1 == id
             && ((some[k].0 < 1024 && slot == Listed(e, q.info[id], some[k].0)) || slot == HomeOf(e, q.info[id]));
    assert pairs[from + k] == some[k];
  }

  /**
   When the buckets are restored, a valid entry gets each slot that the file lists for it, unless that
   is taken by an earlier one; then it gets its home, unless that is taken too. It has no other slots,
   and no more than eight.
   */
  lemma {:induction false} Restored(e: Env, s: State, pairs: seq<(nat, int)>, r: State)
    requires s.news == map[] && r == LoadSlots(e, s, pairs, true)
    ensures AllServed(e, r, pairs) && AllEarned(e, r, pairs) && GrownTo(s, r)
  {
    if pairs != [] {
      var n := |pairs| - 1;
      var front, last := pairs[..n], pairs[n];
      var q := LoadSlots(e, s, front, true);
      Restored(e, s, front, q);
      LoadListed(e, q, last, r);
      forall k | 0 <= k < |pairs| && pairs[k].0 < 1024 && pairs[k].1 in r.info && e.valid(r.info[pairs[k].1].service)
        ensures Served(e, r, pairs[k].0, pairs[k].1)
      {
        if k < n {
          assert front[k] == pairs[k] && pairs[k].1 in q.info.Keys;
          ServedOn(e, q, r, pairs[k].0, pairs[k].1);
        }
      }
      RestoredEarned(e, q, r, front, pairs);
    }
  }

  lemma {:induction false} RestoredEarned(
    e: Env, q: State, r: State, front: seq<(nat, int)>, pairs: seq<(nat, int)>)
    requires pairs != [] && front == pairs[..|pairs| - 1] && GrownTo(q, r) && AllEarned(e, q, front)
    requires forall slot :: slot in r.news && slot !in q.news ==>
               Earned(e, r, [pairs[|pairs| - 1]], slot, r.news[slot])
    ensures AllEarned(e, r, pairs)
  {
    var n := |pairs| - 1;
    forall slot | slot in r.news ensures Earned(e, r, pairs, slot, r.news[slot]) {
      if slot in q.news {
        EarnedOn(e, q, r, front, pairs, 0, slot, q.news[slot]);
      } else {
        assert pairs[n..n + 1] == [pairs[n]];
        EarnedOn(e, r, r, [pairs[n]], pairs, n, slot, r.news[slot]);
      }
    }
  }

  /** So it is for every file with the buckets and the map of networks of the reader. */
  lemma {:induction false} FileRestored(e: Env, f: File, checksum: nat)
    requires f.buckets == 1024 && (if f.format >= V2_ASMAP then f.checksum else 0) == checksum
    ensures var pairs := Pairs(f.rows, f.nNew);
      var r := LoadSlots(e, Entries(e, f), pairs, Restores(f, checksum));
      AllServed(e, r, pairs) && AllEarned(e, r, pairs)
  {
    EntriesBlank(e, f);
    var pairs := Pairs(f.rows, f.nNew);
    Restored(e, Entries(e, f), pairs, LoadSlots(e, Entries(e, f), pairs, true));
  }
}
