/**
 GetAddr_: a random selection of known addresses. It shuffles the random vector one place at a
 time and takes what passes its filters until it has enough. Proved: the answer has no
 duplicates and nothing that should have been filtered out, and it has exactly as many
 addresses as the limit and the eligible entries allow.
 */
module AddrManGetAddr {
  import opened AddrMan
  import opened AddrManInvariant
  import opened AddrManKeeps
  import opened AddrManRuns

  datatype Filter = AnyNetwork | Only(net: Network)

  predicate Wanted(e: Env, i: Info, filter: Filter, now: int) {
    (filter.Only? ==> e.netClass(i.service) == filter.net) && !IsTerrible(i, now)
  }

  /** The entries GetAddr_ may return. */
  ghost function Eligible(e: Env, s: State, filter: Filter, now: int): set<int> {
    set id | id in s.info && Wanted(e, s.info[id], filter, now)
  }

  /** The most addresses GetAddr_ returns; zero stands for no limit. */
  function Limit(size: nat, maxAddresses: nat, maxPct: nat): nat {
    var n := if maxPct != 0 then maxPct * size / 100 else size;
    if maxAddresses != 0 && maxAddresses < n then maxAddresses else n
  }

  /** The limit is the largest number within the share and the maximum asked for. */
  lemma {:induction false} LimitIs(size: nat, maxAddresses: nat, maxPct: nat)
    ensures var n := Limit(size, maxAddresses, maxPct);
      && (maxAddresses != 0 ==> n <= maxAddresses)
      && (if maxPct != 0 then 100 * n <= maxPct * size else n <= size)
      && (n == maxAddresses || if maxPct != 0 then maxPct * size < 100 * n + 100 else n == size)
  {
  }

  /** With a network given, only its addresses are wanted; never those not worth keeping. */
  lemma {:induction false} WantedAre(e: Env, i: Info, net: Network, now: int)
    ensures Wanted(e, i, AnyNetwork, now) <==> !IsTerrible(i, now)
    ensures Wanted(e, i, Only(net), now) <==> !IsTerrible(i, now) && e.netClass(i.service) == net
  {
  }

  /** The wanted ones among some ids, in order. */
  function Picked(e: Env, info: map<int, Info>, ids: seq<int>, filter: Filter, now: int): seq<int> {
    if ids == [] then []
    else
      var id, rest := ids[|ids| - 1], Picked(e, info, ids[..|ids| - 1], filter, now);
      if id in info && Wanted(e, info[id], filter, now) then rest + [id] else rest
  }

  ghost predicate Distinct(ids: seq<int>) {
    forall i, j :: 0 <= i < j < |ids| ==> ids[i] != ids[j]
  }

  lemma {:induction false} PickedMembers(e: Env, info: map<int, Info>, ids: seq<int>, filter: Filter, now: int, k: int)
    ensures k in Picked(e, info, ids, filter, now) <==> k in ids && k in info && Wanted(e, info[k], filter, now)
  {
    if ids != [] {
      PickedMembers(e, info, ids[..|ids| - 1], filter, now, k);
      assert ids == ids[..|ids| - 1] + [ids[|ids| - 1]];
    }
  }

  lemma {:induction false} PickedDistinct(e: Env, info: map<int, Info>, ids: seq<int>, filter: Filter, now: int)
    requires Distinct(ids)
    ensures Distinct(Picked(e, info, ids, filter, now)) && |Picked(e, info, ids, filter, now)| <= |ids|
  {
    if ids != [] {
      PickedDistinct(e, info, ids[..|ids| - 1], filter, now);
      PickedMembers(e, info, ids[..|ids| - 1], filter, now, ids[|ids| - 1]);
    }
  }

  lemma {:induction false} DistinctCount(ids: seq<int>, members: set<int>)
    requires Distinct(ids) && forall k :: k in ids <==> k in members
    ensures |ids| == |members|
  {
    if ids == [] {
      assert forall k :: k in members ==> k in ids;
      assert members == {};
    } else {
      var last := ids[|ids| - 1];
      assert ids == ids[..|ids| - 1] + [last];
      assert last in members;
      forall k ensures k in ids[..|ids| - 1] <==> k in members - {last} {
        if k in ids[..|ids| - 1] { assert k in ids; }
      }
      DistinctCount(ids[..|ids| - 1], members - {last});
    }
  }

  // ---------------------------------------------------------------- shuffling

  /** Shuffling keeps every entry. */
  lemma {:induction false} SwapSurvives(s: State, r: State, i: int, j: int, k: int)
    requires Survives(s, r, k)
    ensures Survives(s, SwapRandom(r, i, j), k)
  {
  }

  lemma {:induction false} ShuffleSurvives(s: State, n: nat, draw: nat -> nat, k: int)
    requires k in s.info
    ensures Survives(s, Shuffle(s, n, draw), k)
  {
    if n > 0 {
      ShuffleSurvives(s, n - 1, draw, k);
      var r := Shuffle(s, n - 1, draw);
      SwapSurvives(s, r, n - 1, Drawn(|r.random|, n - 1, draw), k);
    }
  }

  lemma {:induction false} ShuffleKeys(s: State, n: nat, draw: nat -> nat)
    ensures Shuffle(s, n, draw).info.Keys == s.info.Keys
  {
    if n > 0 {
      ShuffleKeys(s, n - 1, draw);
    }
  }

  /** A later exchange does not reach the places already looked at. */
  lemma {:induction false} SwapPrefix(r: State, n: nat, j: nat)
    requires RandomOk(r.info, r.random) && n <= j < |r.random|
    ensures var t := SwapRandom(r, n, j);
      |t.random| == |r.random| && t.random[..n] == r.random[..n] && t.random[..n + 1] == r.random[..n] + [t.random[n]]
  {
  }

  lemma {:induction false} RandomDistinct(info: map<int, Info>, random: seq<int>)
    requires RandomOk(info, random)
    ensures Distinct(random) && forall k :: k in random <==> k in info
  {
    forall i, j | 0 <= i < j < |random| ensures random[i] != random[j] {
      assert info[random[i]].randomPos == i && info[random[j]].randomPos == j;
    }
  }

  // ---------------------------------------------------------------- the answer

  /** Whether an entry is wanted does not depend on its place. */
  lemma {:induction false} PickedSurvivors(e: Env, s: State, r: State, ids: seq<int>, filter: Filter, now: int)
    requires forall k :: k in s.info ==> Survives(s, r, k)
    requires forall k :: k in ids ==> k in s.info
    ensures Picked(e, r.info, ids, filter, now) == Picked(e, s.info, ids, filter, now)
  {
    if ids != [] {
      var last := ids[|ids| - 1];
      assert last in ids;
      assert Survives(s, r, last);
      PickedSurvivors(e, s, r, ids[..|ids| - 1], filter, now);
    }
  }

  /** The ids of the answer: what is picked from the first n places after n exchanges. */
  function Answer(e: Env, s: State, n: nat, draw: nat -> nat, filter: Filter, now: int): seq<int>
    requires n <= |Shuffle(s, n, draw).random|
  {
    Picked(e, s.info, Shuffle(s, n, draw).random[..n], filter, now)
  }

  /**
   An answer from the first n places holds distinct eligible entries, no more than there are,
   and all of them once every place has been looked at.
   */
  lemma {:induction false} AnswerFacts(e: Env, s: State, n: nat, draw: nat -> nat, filter: Filter, now: int)
    requires Consistent(e, s) && n <= |s.random|
    ensures n <= |Shuffle(s, n, draw).random|
    ensures var ids := Answer(e, s, n, draw, filter, now);
      && Distinct(ids) && (forall k :: k in ids ==> k in Eligible(e, s, filter, now))
      && |ids| <= |Eligible(e, s, filter, now)|
      && (n == |s.random| ==> |ids| == |Eligible(e, s, filter, now)|)
  {
    var r := Shuffle(s, n, draw);
    ShuffleKeeps(e, s, n, draw, r);
    ShuffleKeys(s, n, draw);
    RandomDistinct(r.info, r.random);
    forall k ensures k in r.random <==> k in s.info {
      assert k in r.info <==> k in r.info.Keys;
      assert k in s.info <==> k in s.info.Keys;
    }
    PickedFacts(e, s, r.random, n, filter, now);
  }

  lemma {:induction false} PickedFacts(e: Env, s: State, random: seq<int>, n: nat, filter: Filter, now: int)
    requires n <= |random| && Distinct(random) && forall k :: k in random <==> k in s.info
    ensures var ids := Picked(e, s.info, random[..n], filter, now);
      && Distinct(ids) && (forall k :: k in ids ==> k in Eligible(e, s, filter, now))
      && |ids| <= |Eligible(e, s, filter, now)|
      && (n == |random| ==> |ids| == |Eligible(e, s, filter, now)|)
  {
    PickedDistinct(e, s.info, random[..n], filter, now);
    var ids, all := Picked(e, s.info, random[..n], filter, now), Eligible(e, s, filter, now);
    forall k ensures k in ids <==> k in all && k in random[..n] {
      PickedMembers(e, s.info, random[..n], filter, now, k);
    }
    var some := set k | k in all && k in random[..n];
    DistinctCount(ids, some);
    SubsetSize(some, all);
    if n == |random| {
      assert random[..n] == random;
      assert forall k :: k in all ==> k in s.info && k in random;
      assert some == all;
    }
  }

  lemma {:induction false} SubsetSize<T>(a: set<T>, b: set<T>)
    requires a <= b
    ensures |a| <= |b|
  {
    assert a + (b - a) == b;
  }

  /** The loop of GetAddr_ after n rounds. */
  ghost predicate Gathering(
    e: Env, s: State, r: State, n: nat, ids: seq<int>, draw: nat -> nat, filter: Filter, now: int)
  {
    var shuffled := r == Shuffle(s, n, draw);
    && shuffled && n <= |r.random| == |s.random| && Consistent(e, s) && Consistent(e, r)
    && ids == Picked(e, s.info, r.random[..n], filter, now)
  }

  lemma {:induction false} GatherStarts(e: Env, s: State, draw: nat -> nat, filter: Filter, now: int)
    requires Consistent(e, s)
    ensures Gathering(e, s, s, 0, [], draw, filter, now)
  {
  }

  /** One more place is filled by an exchange and its entry is taken if it is wanted. */
  function Taken(e: Env, t: State, n: nat, ids: seq<int>, filter: Filter, now: int): seq<int>
    requires n < |t.random| && t.random[n] in t.info
  {
    if Wanted(e, t.info[t.random[n]], filter, now) then ids + [t.random[n]] else ids
  }

  lemma {:induction false} GatherStep(
    e: Env, s: State, r: State, n: nat, ids: seq<int>, draw: nat -> nat, filter: Filter, now: int)
    requires Gathering(e, s, r, n, ids, draw, filter, now) && n < |r.random|
    ensures var t := SwapRandom(r, n, Drawn(|r.random|, n, draw));
      && n < |t.random| && t.random[n] in t.info
      && Gathering(e, s, t, n + 1, Taken(e, t, n, ids, filter, now), draw, filter, now)
  {
    var t := SwapRandom(r, n, Drawn(|r.random|, n, draw));
    ShuffleStep(e, r, n, draw, t);
    SwapPrefix(r, n, Drawn(|r.random|, n, draw));
    GatherPicked(e, s, r, t, n, draw, ids, filter, now);
  }

  lemma {:induction false} GatherPicked(
    e: Env, s: State, r: State, t: State, n: nat, draw: nat -> nat, ids: seq<int>, filter: Filter, now: int)
    requires n < |t.random| && t == Shuffle(s, n + 1, draw) && RandomOk(t.info, t.random)
    requires n <= |r.random| && t.random[..n + 1] == r.random[..n] + [t.random[n]]
    requires ids == Picked(e, s.info, r.random[..n], filter, now)
    ensures t.random[n] in t.info
    ensures Taken(e, t, n, ids, filter, now) == Picked(e, s.info, t.random[..n + 1], filter, now)
  {
    var id := t.random[n];
    ShuffleKeys(s, n + 1, draw);
    assert id in t.info.Keys;
    ShuffleSurvives(s, n + 1, draw, id);
    assert t.random[..n + 1][..n] == r.random[..n];
  }

  /** The loop ends with as many as it may return, or with all there are. */
  lemma {:induction false} GatherEnds(
    e: Env, s: State, r: State, n: nat, ids: seq<int>, draw: nat -> nat, filter: Filter, now: int, limit: nat)
    requires Gathering(e, s, r, n, ids, draw, filter, now) && |ids| <= limit && (n == |r.random| || |ids| == limit)
    ensures Distinct(ids) && forall k :: k in ids ==> k in Eligible(e, s, filter, now)
    ensures var all := |Eligible(e, s, filter, now)|; |ids| == if limit < all then limit else all
  {
    AnswerFacts(e, s, n, draw, filter, now);
  }
}
