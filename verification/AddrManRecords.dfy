/**
 What a file holds of each entry, and what an entry read from a file is: the address, its source,
 its time and services, the last success and the attempts; nothing else survives.
 */
module AddrManRecords {
  import opened AddrMan
  import opened AddrManInvariant
  import opened AddrManKeeps
  import opened AddrManFile
  import opened AddrManRestore

  /** A record says this of an address. */
  predicate Tells(r: Record, i: Info) {
    && r.service == i.service && r.source == i.source && r.time == i.time && r.services == i.services
    && r.lastSuccess == i.lastSuccess && r.attempts == i.attempts
  }

  /** An entry as it is made from a record: it has never been tried since. */
  predicate MadeFrom(i: Info, r: Record) {
    Tells(r, i) && i.lastTry == 0 && i.lastCountAttempt == 0
  }

  // ---------------------------------------------------------------- writing

  /** Some record of a list tells of the entry. */
  ghost predicate ToldBy(rs: seq<Record>, i: Info) {
    exists k :: 0 <= k < |rs| && Tells(rs[k], i)
  }

  lemma {:induction false} RecordAt(info: map<int, Info>, ids: seq<int>, id: int)
    requires Known(info, ids) && id in ids
    ensures id in info && ToldBy(Records(info, ids), info[id])
  {
    RecordsAt(info, ids);
    var k :| 0 <= k < |ids| && ids[k] == id;
    assert Tells(Records(info, ids)[k], info[id]);
  }

  /** Every entry is written: the new ones among the new, the tried ones among the tried. */
  lemma {:induction false} EveryEntryWritten(e: Env, s: State, ids: seq<int>, checksum: nat, id: int)
    requires Consistent(e, s) && Lists(s.info, ids) && id in s.info
    ensures var f := Write(s, ids, checksum);
      && f.format == 4 && f.compat == 36 && f.buckets == 1024 && f.checksum == checksum
      && f.nNew == s.nNew && f.nTried == s.nTried && |f.rows| == 1024
      && ToldBy(if s.info[id].inTried then f.tries else f.news, s.info[id])
  {
    assert RefsOk(s.info[id], id, SlotsOf(s.news, id), {}, {});
    assert id in ids;
    if s.info[id].inTried {
      TriesFacts(s.info, ids);
      RecordAt(s.info, TriesIn(s.info, ids), id);
    } else {
      NewsFacts(s.info, ids);
      RecordAt(s.info, NewsIn(s.info, ids), id);
    }
  }

  // ---------------------------------------------------------------- reading

  /** The new entries are numbered like their records, the others come from those of the tried table. */
  ghost predicate ComeFrom(info: map<int, Info>, rs: seq<Record>, ts: seq<Record>) {
    forall id :: id in info ==> ComesFrom(info[id], id, rs, ts)
  }

  ghost predicate ComesFrom(i: Info, id: int, rs: seq<Record>, ts: seq<Record>) {
    if id < |rs| then 0 <= id && !i.inTried && MadeFrom(i, rs[id]) else MadeFromSome(i, ts)
  }

  ghost predicate MadeFromSome(i: Info, ts: seq<Record>) {
    exists k :: 0 <= k < |ts| && MadeFrom(i, ts[k])
  }

  lemma {:induction false} NewComeFrom(e: Env, s: State, rs: seq<Record>, n: nat)
    requires s.info == map[] && n <= |rs|
    ensures ComeFrom(LoadNew(e, s, rs[..n]).info, rs, [])
    ensures forall id :: id in LoadNew(e, s, rs[..n]).info ==> id < n
  {
    if n == 0 {
      assert rs[..n] == [];
    } else {
      var m := n - 1;
      NewComeFrom(e, s, rs, m);
      assert rs[..n][..m] == rs[..m] && rs[..n][m] == rs[m];
    }
  }

  lemma {:induction false} TriedComeFrom(e: Env, s: State, rs: seq<Record>, ts: seq<Record>, n: nat)
    requires ComeFrom(s.info, rs, []) && s.nIdCount >= |rs| && n <= |ts|
    ensures var t := LoadTried(e, s, ts[..n]).0; ComeFrom(t.info, rs, ts) && t.nIdCount >= |rs|
  {
    if n == 0 {
      assert ts[..n] == [];
      MoreTries(s.info, rs, ts);
    } else {
      var m := n - 1;
      TriedComeFrom(e, s, rs, ts, m);
      var t := LoadTried(e, s, ts[..m]).0;
      assert ts[..n][..m] == ts[..m] && ts[..n][m] == ts[m];
      OneTried(e, t, rs, ts, m);
    }
  }

  lemma {:induction false} MoreTries(info: map<int, Info>, rs: seq<Record>, ts: seq<Record>)
    requires ComeFrom(info, rs, [])
    ensures ComeFrom(info, rs, ts)
  {
    forall id | id in info ensures ComesFrom(info[id], id, rs, ts) {
      assert ComesFrom(info[id], id, rs, []);
    }
  }

  lemma {:induction false} OneTried(e: Env, t: State, rs: seq<Record>, ts: seq<Record>, m: nat)
    requires ComeFrom(t.info, rs, ts) && t.nIdCount >= |rs| && m < |ts|
    ensures ComeFrom(AddTried(e, t, ts[m]).info, rs, ts)
  {
    var r := AddTried(e, t, ts[m]);
    assert MadeFrom(r.info[t.nIdCount], ts[m]);
    forall id | id in r.info ensures ComesFrom(r.info[id], id, rs, ts) {
      if id != t.nIdCount {
        assert ComesFrom(t.info[id], id, rs, ts);
      }
    }
  }

  lemma {:induction false} FewerComeFrom(info: map<int, Info>, after: map<int, Info>, rs: seq<Record>, ts: seq<Record>)
    requires ComeFrom(info, rs, ts) && Fewer(info, after)
    ensures ComeFrom(after, rs, ts)
  {
    forall id | id in after ensures ComesFrom(after[id], id, rs, ts) {
      assert Likewise(info[id], after[id]) && ComesFrom(info[id], id, rs, ts);
      if id >= |rs| {
        var k :| 0 <= k < |ts| && MadeFrom(info[id], ts[k]);
        assert MadeFrom(after[id], ts[k]);
      }
    }
  }

  lemma {:induction false} SlotsFewer(e: Env, s: State, pairs: seq<(nat, int)>, restore: bool)
    ensures Fewer(s.info, LoadSlots(e, s, pairs, restore).info)
  {
    if pairs != [] {
      SlotsFewer(e, s, pairs[..|pairs| - 1], restore);
    }
  }

  lemma {:induction false} PruneFewer(e: Env, s: State, ids: seq<int>)
    ensures Fewer(s.info, Prune(e, s, ids).info)
  {
    if ids != [] {
      var t := Prune(e, s, ids[..|ids| - 1]);
      PruneFewer(e, s, ids[..|ids| - 1]);
      if Unreferenced(t, ids[|ids| - 1]) {
        DeleteFewer(e, t, ids[|ids| - 1]);
        FewerAgain(s.info, t.info, Delete(e, t, ids[|ids| - 1]).info);
      }
    }
  }

  /** Whatever a file holds: every entry of the manager that loads is made from one of its records. */
  lemma {:induction false} LoadedFromRecords(e: Env, f: File, checksum: nat, walk: seq<int>)
    requires Read(e, f, checksum, walk).Loaded?
    ensures ComeFrom(Read(e, f, checksum, walk).state.info, f.news, f.tries)
  {
    var start := Fresh().(nNew := f.nNew, nTried := f.nTried);
    assert f.news[..|f.news|] == f.news && f.tries[..|f.tries|] == f.tries;
    NewComeFrom(e, start, f.news, |f.news|);
    var s := LoadNew(e, start, f.news).(nIdCount := f.nNew);
    TriedComeFrom(e, s, f.news, f.tries, |f.tries|);
    var t, pairs := Entries(e, f), Pairs(f.rows, f.nNew);
    SlotsFewer(e, t, pairs, Restores(f, checksum));
    var u := LoadSlots(e, t, pairs, Restores(f, checksum));
    PruneFewer(e, u, walk);
    FewerComeFrom(t.info, u.info, f.news, f.tries);
    FewerComeFrom(u.info, Prune(e, u, walk).info, f.news, f.tries);
  }

  /** A valid entry of the tried table goes without its slot only if another has it. */
  lemma {:induction false} TriedPlaced(e: Env, s: State, ts: seq<Record>, k: nat)
    requires k < |ts| && e.valid(ts[k].service)
    ensures TriedSlot(e, ts[k].service) in LoadTried(e, s, ts).0.tried
    decreases |ts|
  {
    var n := |ts| - 1;
    if k < n {
      TriedPlaced(e, s, ts[..n], k);
    }
  }
}
