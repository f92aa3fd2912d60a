/**
 The Merkle root of a block, computed level by level, and what its `mutated` flag is for: without
 hash collisions, lists of transactions that are not flagged and have trees of one height are
 told apart by their roots.
 */
module MerkleRoot {
  import opened MerkleBlock
  import opened Numbers

  /** Two neighbours become one; the last of an odd number is its own neighbour. */
  function Paired(H: Combine, hs: seq<Hash>, i: nat): Hash
    requires 2 * i < |hs|
  {
    H(hs[2 * i], if 2 * i + 1 < |hs| then hs[2 * i + 1] else hs[2 * i])
  }

  function NextLevel(H: Combine, hs: seq<Hash>): (r: seq<Hash>)
    ensures |r| == (|hs| + 1) / 2
  {
    seq((|hs| + 1) / 2, i requires 0 <= i < (|hs| + 1) / 2 => Paired(H, hs, i))
  }

  function LevelAt(H: Combine, txids: seq<Hash>, h: nat): (r: seq<Hash>)
    ensures |r| == Width(|txids|, h)
  {
    if h == 0 then txids else NextLevel(H, LevelAt(H, txids, h - 1))
  }

  /** The hashes of one level are what CalcHash gives for its nodes. */
  lemma {:induction false} LevelIsCalcHash(H: Combine, txids: seq<Hash>, h: nat, pos: nat)
    requires pos < Width(|txids|, h)
    ensures LevelAt(H, txids, h)[pos] == CalcHash(H, txids, h, pos)
    decreases h
  {
    if h > 0 {
      LevelIsCalcHash(H, txids, h - 1, 2 * pos);
      if 2 * pos + 1 < Width(|txids|, h - 1) {
        LevelIsCalcHash(H, txids, h - 1, 2 * pos + 1);
      }
    }
  }

  /** Two neighbours that would be hashed together are equal. */
  predicate HasTwins(hs: seq<Hash>) {
    exists i :: 0 <= i < |hs| / 2 && Twins(hs, i)
  }

  predicate Twins(hs: seq<Hash>, i: nat)
    requires 2 * i + 1 < |hs|
  {
    hs[2 * i] == hs[2 * i + 1]
  }

  /** Some level below height h has twins. */
  ghost predicate Mutated(H: Combine, txids: seq<Hash>, h: nat) {
    exists k :: 0 <= k < h && HasTwins(LevelAt(H, txids, k))
  }

  // ---------------------------------------------------------------- ComputeMerkleRoot

  method LookForTwins(hashes: seq<Hash>) returns (found: bool)
    ensures found == HasTwins(hashes)
  {
    found := false;
    var i := 0;
    while 2 * i + 1 < |hashes|
      invariant 0 <= i <= |hashes| / 2
      invariant found <==> exists k :: 0 <= k < i && Twins(hashes, k)
    {
      if hashes[2 * i] == hashes[2 * i + 1] {
        assert Twins(hashes, i);
        found := true;
      }
      i := i + 1;
    }
  }

  method HashPairs(H: Combine, hashes: seq<Hash>) returns (r: seq<Hash>)
    ensures r == NextLevel(H, hashes)
  {
    var even := if |hashes| % 2 == 1 then hashes + [hashes[|hashes| - 1]] else hashes;
    r := [];
    for i := 0 to |even| / 2
      invariant |r| == i && forall k :: 0 <= k < i ==> r[k] == Paired(H, hashes, k)
    {
      r := r + [H(even[2 * i], even[2 * i + 1])];
    }
  }

  lemma {:induction false} HeightIsFirst(n: nat, h: nat)
    requires n > 0 && Width(n, h) == 1 && forall k :: 0 <= k < h ==> Width(n, k) > 1
    ensures Height(n) == h
  {
    HeightSearch(n, h, 0);
  }

  lemma {:induction false} HeightSearch(n: nat, h: nat, k: nat)
    requires n > 0 && Width(n, h) == 1 && k <= h && Width(n, k) >= 1 && forall j :: 0 <= j < h ==> Width(n, j) > 1
    ensures HeightFrom(n, k) == h
    decreases h - k
  {
    if k < h {
      HeightSearch(n, h, k + 1);
    }
  }

  /** ComputeMerkleRoot: the root of the tree, and whether some two neighbours on a level were equal. */
  method ComputeMerkleRoot(H: Combine, txids: seq<Hash>) returns (root: Hash, mutated: bool)
    ensures txids == [] ==> root == NULL_HASH && !mutated
    ensures txids != [] ==>
      root == CalcHash(H, txids, Height(|txids|), 0) && mutated == Mutated(H, txids, Height(|txids|))
  {
    var hashes := txids;
    mutated := false;
    ghost var h: nat := 0;
    while |hashes| > 1
      invariant hashes == LevelAt(H, txids, h) && (txids != [] ==> |hashes| >= 1)
      invariant forall k :: 0 <= k < h ==> Width(|txids|, k) > 1
      invariant mutated <==> Mutated(H, txids, h)
      decreases |hashes|
    {
      var twins := LookForTwins(hashes);
      mutated := mutated || twins;
      hashes := HashPairs(H, hashes);
      assert LevelAt(H, txids, h + 1) == hashes;
      h := h + 1;
    }
    if hashes == [] { return NULL_HASH, mutated; }
    HeightIsFirst(|txids|, h);
    LevelIsCalcHash(H, txids, h, 0);
    root := hashes[0];
  }

  // ---------------------------------------------------------------- what a root tells

  lemma {:induction false} PairTells(H: Combine, a: seq<Hash>, b: seq<Hash>, i: nat)
    requires Injective(H) && 2 * i < |a| && 2 * i < |b| && Paired(H, a, i) == Paired(H, b, i)
    requires !HasTwins(a) && !HasTwins(b)
    ensures a[2 * i] == b[2 * i] && (2 * i + 1 < |a| <==> 2 * i + 1 < |b|)
    ensures 2 * i + 1 < |a| && 2 * i + 1 < |b| ==> a[2 * i + 1] == b[2 * i + 1]
  {
    assert 2 * i + 1 < |a| ==> !Twins(a, i);
    assert 2 * i + 1 < |b| ==> !Twins(b, i);
  }

  /** A level without twins can be told from the next. */
  lemma {:induction false} LevelTells(H: Combine, a: seq<Hash>, b: seq<Hash>)
    requires Injective(H) && NextLevel(H, a) == NextLevel(H, b) && !HasTwins(a) && !HasTwins(b)
    ensures a == b
  {
    var n := |NextLevel(H, a)|;
    forall i | 0 <= i < n
      ensures a[2 * i] == b[2 * i] && (2 * i + 1 < |a| <==> 2 * i + 1 < |b|)
      ensures 2 * i + 1 < |a| && 2 * i + 1 < |b| ==> a[2 * i + 1] == b[2 * i + 1]
    {
      assert NextLevel(H, a)[i] == NextLevel(H, b)[i];
      PairTells(H, a, b, i);
    }
    if n > 0 {
      assert 2 * (n - 1) + 1 < |a| <==> 2 * (n - 1) + 1 < |b|;
    }
    assert |a| == |b|;
    forall k | 0 <= k < |a| ensures a[k] == b[k] {
      assert k == 2 * (k / 2) || k == 2 * (k / 2) + 1;
      assert a[2 * (k / 2)] == b[2 * (k / 2)];
    }
  }

  lemma {:induction false} LevelsTell(H: Combine, a: seq<Hash>, b: seq<Hash>, h: nat)
    requires Injective(H) && LevelAt(H, a, h) == LevelAt(H, b, h) && !Mutated(H, a, h) && !Mutated(H, b, h)
    ensures a == b
  {
    if h > 0 {
      assert !HasTwins(LevelAt(H, a, h - 1)) && !HasTwins(LevelAt(H, b, h - 1));
      LevelTells(H, LevelAt(H, a, h - 1), LevelAt(H, b, h - 1));
      LevelsTell(H, a, b, h - 1);
    }
  }

  /**
   Two lists of transactions with trees of one height, neither of them flagged, have equal roots
   only if they are equal. So every change that keeps the root and the height is flagged.
   */
  lemma {:induction false} RootTells(H: Combine, a: seq<Hash>, b: seq<Hash>)
    requires Injective(H) && a != [] && b != [] && Height(|a|) == Height(|b|)
    requires CalcHash(H, a, Height(|a|), 0) == CalcHash(H, b, Height(|b|), 0)
    requires !Mutated(H, a, Height(|a|)) && !Mutated(H, b, Height(|b|))
    ensures a == b
  {
    var h := Height(|a|);
    LevelIsCalcHash(H, a, h, 0);
    LevelIsCalcHash(H, b, h, 0);
    assert LevelAt(H, a, h) == [CalcHash(H, a, h, 0)] && LevelAt(H, b, h) == [CalcHash(H, b, h, 0)];
    LevelsTell(H, a, b, h);
  }

  /** A list without repetitions is never flagged. */
  lemma {:induction false} DistinctNotFlagged(H: Combine, txids: seq<Hash>, h: nat)
    requires Injective(H) && Distinct(txids)
    ensures !Mutated(H, txids, h)
  {
    var none := seq(|txids|, i => false);
    forall k | 0 <= k < h ensures !HasTwins(LevelAt(H, txids, k)) {
      forall i | 0 <= i < |LevelAt(H, txids, k)| / 2 ensures !Twins(LevelAt(H, txids, k), i) {
        LevelIsCalcHash(H, txids, k, 2 * i);
        LevelIsCalcHash(H, txids, k, 2 * i + 1);
        CalcHashIsRoot(H, txids, none, k, 2 * i);
        CalcHashIsRoot(H, txids, none, k, 2 * i + 1);
        TwinsDiffer(H, txids, none, k, i);
      }
    }
  }

  /** The flag is needed: repeating the end of a list can leave the root as it is. */
  lemma {:induction false} RepeatedEndKeepsRoot(H: Combine, x: Hash, y: Hash, z: Hash)
    ensures var a, b := [x, y, z], [x, y, z, z];
      && Height(|a|) == Height(|b|) == 2 && Mutated(H, b, 2)
      && CalcHash(H, a, 2, 0) == CalcHash(H, b, 2, 0) == H(H(x, y), H(z, z))
  {
    var a, b := [x, y, z], [x, y, z, z];
    assert Width(3, 0) == 3 && Width(3, 1) == 2 && Width(3, 2) == 1;
    assert Width(4, 0) == 4 && Width(4, 1) == 2 && Width(4, 2) == 1;
    HeightIsFirst(3, 2);
    HeightIsFirst(4, 2);
    assert CalcHash(H, a, 1, 0) == H(x, y) && CalcHash(H, a, 1, 1) == H(z, z);
    assert CalcHash(H, b, 1, 0) == H(x, y) && CalcHash(H, b, 1, 1) == H(z, z);
    assert Twins(LevelAt(H, b, 0), 1);
  }
}
