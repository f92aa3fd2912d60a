/**
 The cuckoo cache as the node holds it: arrays for the elements and the epoch flags, and the
 collection flags packed eight to a byte. Each method does what the function of CuckooCache says.
 */
module CuckooCaches {
  import opened CuckooCache
  import opened PackedBits

  // ---------------------------------------------------------------- packed flags

  /** The flags held by some bytes. */
  ghost function Unpacked(bytes: seq<bv8>, n: nat): seq<bool>
    requires n <= 8 * |bytes|
  {
    seq(n, s requires 0 <= s < n => TestBit(bytes[s / 8], s % 8))
  }

  /** Changing one byte so that one bit changes and the others stay. */
  lemma {:induction false} UnpackedUpdate(bytes: seq<bv8>, n: nat, s: nat, m: bv8, b: bool)
    requires s < n <= 8 * |bytes|
    requires forall j :: 0 <= j < 8 ==> TestBit(m, j) == if j == s % 8 then b else TestBit(bytes[s / 8], j)
    ensures Unpacked(bytes[s / 8 := m], n) == Unpacked(bytes, n)[s := b]
  {
    var after := bytes[s / 8 := m];
    forall t | 0 <= t < n ensures Unpacked(after, n)[t] == Unpacked(bytes, n)[s := b][t] {
      assert t != s && t / 8 == s / 8 ==> t % 8 != s % 8;
    }
  }

  lemma {:induction false} UnpackedSet(bytes: seq<bv8>, n: nat, s: nat, m: bv8)
    requires s < n <= 8 * |bytes| && m == bytes[s / 8] | Mask(s % 8)
    ensures Unpacked(bytes[s / 8 := m], n) == Unpacked(bytes, n)[s := true]
  {
    forall j | 0 <= j < 8 ensures TestBit(m, j) == if j == s % 8 then true else TestBit(bytes[s / 8], j) {
      SetBit(bytes[s / 8], s % 8, j);
    }
    UnpackedUpdate(bytes, n, s, m, true);
  }

  lemma {:induction false} UnpackedUnset(bytes: seq<bv8>, n: nat, s: nat, m: bv8)
    requires s < n <= 8 * |bytes| && m == bytes[s / 8] & !Mask(s % 8)
    ensures Unpacked(bytes[s / 8 := m], n) == Unpacked(bytes, n)[s := false]
  {
    forall j | 0 <= j < 8 ensures TestBit(m, j) == if j == s % 8 then false else TestBit(bytes[s / 8], j) {
      UnsetBit(bytes[s / 8], s % 8, j);
    }
    UnpackedUpdate(bytes, n, s, m, false);
  }

  /** bit_packed_atomic_flags. */
  class BitPackedFlags {
    const mem: array<bv8>

    constructor (size: nat)
      ensures fresh(mem) && size <= 8 * mem.Length && Unpacked(mem[..], size) == seq(size, i => true)
    {
      mem := new bv8[(size + 7) / 8](i => 0xFF);
      new;
      forall s | 0 <= s < size ensures Unpacked(mem[..], size)[s] {
        PlainBytes(s % 8);
      }
    }

    method BitSet(s: nat, ghost n: nat)
      requires s < n <= 8 * mem.Length
      modifies mem
      ensures Unpacked(mem[..], n) == Unpacked(old(mem[..]), n)[s := true]
    {
      var m := mem[s / 8] | Mask(s % 8);
      UnpackedSet(mem[..], n, s, m);
      mem[s / 8] := m;
      assert mem[..] == old(mem[..])[s / 8 := m];
    }

    method BitUnset(s: nat, ghost n: nat)
      requires s < n <= 8 * mem.Length
      modifies mem
      ensures Unpacked(mem[..], n) == Unpacked(old(mem[..]), n)[s := false]
    {
      var m := mem[s / 8] & !Mask(s % 8);
      UnpackedUnset(mem[..], n, s, m);
      mem[s / 8] := m;
      assert mem[..] == old(mem[..])[s / 8 := m];
    }

    method BitIsSet(s: nat, ghost n: nat) returns (b: bool)
      requires s < n <= 8 * mem.Length
      ensures b == Unpacked(mem[..], n)[s]
    {
      return mem[s / 8] & Mask(s % 8) != 0;
    }
  }

  // ---------------------------------------------------------------- the cache

  /** Settling an element from here on ends as told. */
  ghost predicate SettlesTo(
    c: Cache, at: Element -> seq<nat>, e: Element, last: int, recent: bool, depth: nat, end: (Cache, Dropped))
  {
    var shaped := Shape(c) && Placing(at, |c.table|);
    shaped && Settle(c, at, e, last, recent, depth) == end
  }

  class SignatureCache {
    const size: nat
    const table: array<Element>
    const flags: BitPackedFlags
    const epochFlags: array<bool>
    const depthLimit: nat
    const epochSize: nat
    const at: Element -> seq<nat>
    var counter: nat

    ghost predicate Valid()
      reads this
    {
      && Placing(at, size)
      && size >= 2 && table.Length == size && epochFlags.Length == size && size <= 8 * flags.mem.Length
      && (table as object) != flags.mem && (epochFlags as object) != flags.mem && (table as object) != epochFlags
    }

    ghost function Model(): Cache
      requires Valid()
      reads this, table, flags.mem, epochFlags
    {
      Cache(table[..], Unpacked(flags.mem[..], size), epochFlags[..], counter, epochSize, depthLimit)
    }

    /** setup, for a table filled with blank elements; the depth is a rounded logarithm of the size. */
    constructor (newSize: nat, depth: nat, blank: Element, hash: (nat, Element) -> Hash32)
      ensures at == Places(hash, size) && Valid() && Model() == Setup(newSize, depth, blank) && Inv(Model(), at)
      ensures fresh(table) && fresh(flags.mem) && fresh(epochFlags)
    {
      var n := Max(2, newSize);
      size := n;
      at := Places(hash, n);
      PlacesArePlacing(hash, n);
      depthLimit := depth;
      var epoch := Max(1, 45 * n % TWO_32 / 100);
      epochSize, counter := epoch, epoch;
      table := new Element[n](i => blank);
      flags := new BitPackedFlags(n);
      epochFlags := new bool[n](i => false);
      new;
      assert table[..] == seq(n, i => blank);
      assert epochFlags[..] == seq(n, i => false);
      SetupInv(newSize, depth, blank, at);
    }

    method PlaceAt(loc: nat, e: Element, recent: bool)
      requires Valid() && loc < size
      modifies table, flags.mem, epochFlags
      ensures Model() == Put(old(Model()), loc, e, recent)
    {
      table[loc] := e;
      flags.BitUnset(loc, size);
      epochFlags[loc] := recent;
      assert table[..] == old(table[..])[loc := e];
      assert epochFlags[..] == old(epochFlags[..])[loc := recent];
    }

    // -------------------------------------------------------------- epochs

    /** The scan of epoch_check. */
    method CountEpoch() returns (n: nat)
      requires Valid()
      ensures n == CountRecent(Model(), size)
    {
      n := 0;
      for i := 0 to size
        invariant n == CountRecent(Model(), i)
      {
        var collected := flags.BitIsSet(i, size);
        n := n + if epochFlags[i] && !collected then 1 else 0;
      }
    }

    /** The second scan of epoch_check. */
    method AgeEpoch()
      requires Valid()
      modifies flags.mem, epochFlags
      ensures Model() == Age(old(Model())).(counter := counter)
    {
      ghost var c := Model();
      for i := 0 to size
        invariant counter == c.counter && table[..] == c.table
        invariant forall j :: 0 <= j < size ==> epochFlags[j] == if j < i then false else c.recent[j]
        invariant forall j :: 0 <= j < size ==>
          Unpacked(flags.mem[..], size)[j] == if j < i then c.collected[j] || !c.recent[j] else c.collected[j]
      {
        if epochFlags[i] {
          epochFlags[i] := false;
        } else {
          flags.BitSet(i, size);
        }
      }
      assert epochFlags[..] == Age(c).recent;
      assert Unpacked(flags.mem[..], size) == Age(c).collected;
    }

    /** epoch_check. */
    method CheckEpoch()
      requires Valid()
      modifies this, flags.mem, epochFlags
      ensures Model() == EpochCheck(old(Model()))
    {
      if counter != 0 {
        counter := counter - 1;
        return;
      }
      var n := CountEpoch();
      if n >= epochSize {
        AgeEpoch();
        counter := epochSize;
      } else {
        counter := Max(1, Max(epochSize / 16, epochSize - n));
      }
    }

    // -------------------------------------------------------------- searching

    method FindElement(locs: seq<nat>, e: Element) returns (k: nat)
      requires Valid() && forall j :: 0 <= j < |locs| ==> locs[j] < size
      ensures k == FirstWith(Model(), locs, e)
    {
      k := 0;
      while k < |locs| && table[locs[k]] != e
        invariant k <= |locs| && FirstWith(Model(), locs, e) == k + FirstWith(Model(), locs[k..], e)
      {
        assert locs[k..][1..] == locs[k + 1..];
        k := k + 1;
      }
    }

    method FindFree(locs: seq<nat>) returns (k: nat)
      requires Valid() && forall j :: 0 <= j < |locs| ==> locs[j] < size
      ensures k == FirstFree(Model(), locs)
    {
      for i := 0 to |locs|
        invariant FirstFree(Model(), locs) == i + FirstFree(Model(), locs[i..])
      {
        var collected := flags.BitIsSet(locs[i], size);
        if collected { return i; }
        assert locs[i..][1..] == locs[i + 1..];
      }
      return |locs|;
    }

    method FindPlace(locs: seq<nat>, loc: int) returns (k: nat)
      ensures k == IndexOf(locs, loc)
    {
      k := 0;
      while k < |locs| && locs[k] != loc
        invariant k <= |locs| && IndexOf(locs, loc) == k + IndexOf(locs[k..], loc)
      {
        assert locs[k..][1..] == locs[k + 1..];
        k := k + 1;
      }
    }

    // -------------------------------------------------------------- insert and contains

    /** One round of the loop of insert; it ends with the element in a free place, or with another one to place. */
    method SettleRound(e: Element, last: int, recent: bool)
      returns (done: bool, out: Element, loc: int, outRecent: bool)
      requires Valid()
      modifies table, flags.mem, epochFlags
      ensures var c, k := old(Model()), FirstFree(old(Model()), at(e));
        && done == (k < PLACES)
        && (done ==> Model() == Put(c, at(e)[k], e, recent))
        && (!done ==> loc == NextPlace(at(e), last) && Model() == Put(c, loc, e, recent)
                      && out == c.table[loc] && outRecent == c.recent[loc])
    {
      var locs := at(e);
      var k := FindFree(locs);
      FirstFreeFacts(Model(), locs);
      if k < PLACES {
        PlaceAt(locs[k], e, recent);
        return true, e, last, recent;
      }
      var was := FindPlace(locs, last);
      var next := locs[(1 + was) % PLACES];
      done, out, loc, outRecent := false, table[next], next, epochFlags[next];
      KeepPlace(next, e, recent);
    }

    /** The loop of insert. */
    method SettleElement(first: Element) returns (dropped: Dropped)
      requires Valid()
      modifies table, flags.mem, epochFlags
      ensures (Model(), dropped) == Settle(old(Model()), at, first, -1, true, depthLimit)
    {
      ghost var end := Settle(Model(), at, first, -1, true, depthLimit);
      var e, last, recent, depth := first, -1, true, depthLimit;
      while depth > 0
        invariant SettlesTo(Model(), at, e, last, recent, depth, end)
      {
        var done;
        done, e, last, recent := SettleRound(e, last, recent);
        if done { return Nothing; }
        depth := depth - 1;
      }
      return Dropped(e, recent);
    }

    /** Overwriting an element at a slot that is live already. */
    method KeepPlace(loc: nat, e: Element, recent: bool)
      requires Valid() && loc < size && !Model().collected[loc]
      modifies table, epochFlags
      ensures Model() == Put(old(Model()), loc, e, recent)
    {
      table[loc] := e;
      epochFlags[loc] := recent;
      assert table[..] == old(table[..])[loc := e];
      assert epochFlags[..] == old(epochFlags[..])[loc := recent];
      assert Model().collected == old(Model()).collected[loc := false];
    }

    /** insert for an element that the table still has. */
    method Revive(loc: nat, e: Element)
      requires Valid() && loc < size && table[loc] == e
      modifies flags.mem, epochFlags
      ensures Model() == Put(old(Model()), loc, e, true)
    {
      flags.BitUnset(loc, size);
      epochFlags[loc] := true;
      assert table[..] == old(table[..])[loc := e];
      assert epochFlags[..] == old(epochFlags[..])[loc := true];
    }

    /** insert. */
    method InsertElement(e: Element) returns (dropped: Dropped)
      requires Valid() && Inv(Model(), at)
      modifies this, table, flags.mem, epochFlags
      ensures (Model(), dropped) == Insert(old(Model()), at, e) && Inv(Model(), at)
    {
      InsertKeeps(Model(), at, e);
      CheckEpoch();
      var k := FindElement(at(e), e);
      if k < PLACES {
        FirstWithFacts(Model(), at(e), e);
        Revive(at(e)[k], e);
        return Nothing;
      }
      dropped := SettleElement(e);
    }

    /** contains. */
    method ContainsElement(e: Element, erase: bool) returns (found: bool)
      requires Valid() && Inv(Model(), at)
      modifies flags.mem
      ensures (Model(), found) == Contains(old(Model()), at, e, erase) && Inv(Model(), at)
    {
      ContainsKeeps(Model(), at, e, erase);
      var k := FindElement(at(e), e);
      if k < PLACES && erase {
        flags.BitSet(at(e)[k], size);
      }
      return k < PLACES;
    }
  }
}
