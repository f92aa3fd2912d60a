/**
 CPartialMerkleTree as a mutable object: flag bits and hashes are appended
 while building, counters and the failure flag advance while extracting.
 */
module PartialMerkleTrees {
  import opened Numbers
  import opened MerkleBlock
  import opened PackedBits

  // ---------------------------------------------------------------- flag bits as bytes

  /** Packs eight bits to a byte, least significant first. */
  method BitsToBytes(bits: seq<bool>) returns (bytes: seq<bv8>)
    ensures |bytes| == (|bits| + 7) / 8
    ensures forall p :: 0 <= p < 8 * |bytes| ==> TestBit(bytes[p / 8], p % 8) == (p < |bits| && bits[p])
    ensures forall k :: 0 <= k < |bytes| ==> bytes[k] as int == Spelled(bits, 8 * k, 8)
  {
    var ret := new bv8[(|bits| + 7) / 8](i => 0);
    forall p | 0 <= p < 8 * ret.Length ensures !TestBit(ret[p / 8], p % 8) {
      PlainBytes(p % 8);
    }
    for p := 0 to |bits|
      invariant forall q :: 0 <= q < 8 * ret.Length ==> TestBit(ret[q / 8], q % 8) == (q < p && bits[q])
    {
      if bits[p] {
        ghost var was := ret[p / 8];
        ret[p / 8] := ret[p / 8] | Mask(p % 8);
        forall q | 0 <= q < 8 * ret.Length ensures TestBit(ret[q / 8], q % 8) == (q < p + 1 && bits[q]) {
          SetBit(was, p % 8, q % 8);
        }
      }
    }
    bytes := ret[..];
    BytesSpelled(bytes, bits);
  }

  /** The bytes and the bits are the same, in this order. */
  ghost predicate Packed(bytes: seq<bv8>, bits: seq<bool>) {
    forall p :: 0 <= p < 8 * |bytes| ==> TestBit(bytes[p / 8], p % 8) == (p < |bits| && bits[p])
  }

  lemma {:induction false} BytesSpelled(bytes: seq<bv8>, bits: seq<bool>)
    requires Packed(bytes, bits)
    ensures forall k :: 0 <= k < |bytes| ==> bytes[k] as int == Spelled(bits, 8 * k, 8)
  {
    forall k | 0 <= k < |bytes| ensures bytes[k] as int == Spelled(bits, 8 * k, 8) {
      BitsOfByte(bytes, bits, k);
      ByteIsSpelled(bytes[k], bits, 8 * k);
    }
  }

  /** The bits of one of several bytes. */
  lemma {:induction false} BitsOfByte(bytes: seq<bv8>, bits: seq<bool>, k: nat)
    requires Packed(bytes, bits) && k < |bytes|
    ensures forall j :: 0 <= j < 8 ==> TestBit(bytes[k], j) == (8 * k + j < |bits| && bits[8 * k + j])
  {
    forall j | 0 <= j < 8 ensures TestBit(bytes[k], j) == (8 * k + j < |bits| && bits[8 * k + j]) {
      var p := 8 * k + j;
      assert p / 8 == k && p % 8 == j;
    }
  }

  /** Unpacks them in the same order. */
  method BytesToBits(bytes: seq<bv8>) returns (bits: seq<bool>)
    ensures |bits| == 8 * |bytes|
    ensures forall p :: 0 <= p < |bits| ==> bits[p] == TestBit(bytes[p / 8], p % 8)
    ensures forall k :: 0 <= k < |bytes| ==> bytes[k] as int == Spelled(bits, 8 * k, 8)
  {
    var ret := new bool[8 * |bytes|];
    for p := 0 to ret.Length
      invariant forall q :: 0 <= q < p ==> ret[q] == TestBit(bytes[q / 8], q % 8)
    {
      ret[p] := bytes[p / 8] & Mask(p % 8) != 0;
    }
    bits := ret[..];
    BytesSpelled(bytes, bits);
  }

  /** Packing and unpacking only appends zero bits, up to the next multiple of eight. */
  method PackAndUnpack(bits: seq<bool>) returns (back: seq<bool>)
    ensures |bits| <= |back| < |bits| + 8 && |back| % 8 == 0
    ensures back[..|bits|] == bits && forall p :: |bits| <= p < |back| ==> !back[p]
  {
    var bytes := BitsToBytes(bits);
    back := BytesToBits(bytes);
    forall p | 0 <= p < |back| ensures back[p] == (p < |bits| && bits[p]) {
      assert back[p] == TestBit(bytes[p / 8], p % 8);
    }
  }

  // ---------------------------------------------------------------- the object

  lemma {:induction false} LoIsProduct(h: nat, pos: nat)
    ensures Lo(h, pos) == pos * Pow2(h)
    decreases h
  {
    if h > 0 {
      LoIsProduct(h - 1, 2 * pos);
      assert (2 * pos) * Pow2(h - 1) == pos * (2 * Pow2(h - 1));
    }
  }

  lemma {:induction false} AnyMatchIsMatched(txids: seq<Hash>, matches: seq<bool>, h: nat, pos: nat)
    requires pos < Width(|txids|, h) && |matches| == |txids|
    ensures AnyMatch(TreeAt(txids, matches, h, pos)) <==> Matched(matches, Lo(h, pos), Lo(h, pos + 1)) != []
  {
    FoundNone(TreeAt(txids, matches, h, pos));
    FoundIsMatched(txids, matches, h, pos);
  }

  lemma {:induction false} ShapeSplits(n: nat, h: nat, pos: nat)
    requires pos < Width(n, h) && h > 0
    ensures 2 * pos < Width(n, h - 1)
    ensures ShapeAt(n, h, pos)
            == if 2 * pos + 1 < Width(n, h - 1) then Both(ShapeAt(n, h - 1, 2 * pos), ShapeAt(n, h - 1, 2 * pos + 1))
               else Only(ShapeAt(n, h - 1, 2 * pos))
  {
  }

  lemma {:induction false} Joined<T>(a: seq<T>, l: seq<T>, r: seq<T>)
    ensures a + l + r == a + (l + r)
  {
  }

  /** What is stored for the subtrees of a node. */
  ghost function Below(H: Combine, txids: seq<Hash>, matches: seq<bool>, h: nat, pos: nat): Piece
    requires |txids| == |matches| && pos < Width(|txids|, h) && h > 0
  {
    var left := Encode(H, TreeAt(txids, matches, h - 1, 2 * pos));
    if 2 * pos + 1 < Width(|txids|, h - 1) then
      var right := Encode(H, TreeAt(txids, matches, h - 1, 2 * pos + 1));
      Piece(left.bits + right.bits, left.hashes + right.hashes)
    else left
  }

  lemma {:induction false} EncodeBelow(H: Combine, txids: seq<Hash>, matches: seq<bool>, h: nat, pos: nat)
    requires |txids| == |matches| && pos < Width(|txids|, h) && h > 0 && AnyMatch(TreeAt(txids, matches, h, pos))
    ensures var below := Below(H, txids, matches, h, pos);
      Encode(H, TreeAt(txids, matches, h, pos)) == Piece([true] + below.bits, below.hashes)
  {
  }

  class PartialMerkleTree {
    const H: Combine
    var nTransactions: nat
    var vBits: seq<bool>
    var vHash: seq<Hash>
    var fBad: bool

    method CalcTreeWidth(height: nat) returns (width: nat)
      ensures width == Width(nTransactions, height)
    {
      WidthFormula(nTransactions, height);
      width := (nTransactions + Pow2(height) - 1) / Pow2(height);
    }

    /** Whether a node is the parent of a matched transaction. */
    method ParentOfMatch(height: nat, pos: nat, matches: seq<bool>) returns (parent: bool)
      requires |matches| == nTransactions && pos < Width(nTransactions, height)
      ensures parent <==> Matched(matches, Lo(height, pos), Lo(height, pos + 1)) != []
    {
      LoIsProduct(height, pos);
      LoIsProduct(height, pos + 1);
      LoStrict(height, pos, pos + 1);
      parent := false;
      var p := pos * Pow2(height);
      var end := (pos + 1) * Pow2(height);
      assert Matched(matches, p, p) == [];
      while p < end && p < nTransactions
        invariant Lo(height, pos) <= p <= end
        invariant parent <==> Matched(matches, Lo(height, pos), p) != []
      {
        parent := parent || matches[p];
        p := p + 1;
      }
      MatchedSplit(matches, Lo(height, pos), p, end);
      if p < end {
        MatchedBeyond(matches, p, end);
      } else {
        assert Matched(matches, end, end) == [];
      }
    }

    method TraverseAndBuild(height: nat, pos: nat, txids: seq<Hash>, matches: seq<bool>)
      requires |txids| == |matches| == nTransactions && pos < Width(nTransactions, height)
      modifies this`vBits, this`vHash
      ensures vBits == old(vBits) + Encode(H, TreeAt(txids, matches, height, pos)).bits
      ensures vHash == old(vHash) + Encode(H, TreeAt(txids, matches, height, pos)).hashes
      decreases height, 1
    {
      var parent := ParentOfMatch(height, pos, matches);
      AnyMatchIsMatched(txids, matches, height, pos);
      vBits := vBits + [parent];
      if height == 0 || !parent {
        CalcHashIsRoot(H, txids, matches, height, pos);
        vHash := vHash + [CalcHash(H, txids, height, pos)];
      } else {
        EncodeBelow(H, txids, matches, height, pos);
        BuildBelow(height, pos, txids, matches);
      }
    }

    /** The branch of TraverseAndBuild that descends: everything after the subtree's first bit. */
    method BuildBelow(height: nat, pos: nat, txids: seq<Hash>, matches: seq<bool>)
      requires |txids| == |matches| == nTransactions && pos < Width(nTransactions, height)
      requires height > 0
      modifies this`vBits, this`vHash
      ensures vBits == old(vBits) + Below(H, txids, matches, height, pos).bits
      ensures vHash == old(vHash) + Below(H, txids, matches, height, pos).hashes
      decreases height, 0
    {
      ghost var left := Encode(H, TreeAt(txids, matches, height - 1, pos * 2));
      TraverseAndBuild(height - 1, pos * 2, txids, matches);
      var width := CalcTreeWidth(height - 1);
      if pos * 2 + 1 < width {
        ghost var right := Encode(H, TreeAt(txids, matches, height - 1, pos * 2 + 1));
        TraverseAndBuild(height - 1, pos * 2 + 1, txids, matches);
        Joined(old(vBits), left.bits, right.bits);
        Joined(old(vHash), left.hashes, right.hashes);
      }
    }

    /** Builds the partial tree of a block with at least one transaction. */
    constructor (H: Combine, txids: seq<Hash>, matches: seq<bool>)
      requires 0 < |txids| == |matches|
      ensures this.H == H && nTransactions == |txids| && !fBad
      ensures Piece(vBits, vHash) == Encode(H, BlockTree(txids, matches))
    {
      this.H := H;
      nTransactions, fBad, vBits, vHash := |txids|, false, [], [];
      new;
      var height := FindHeight();
      TraverseAndBuild(height, 0, txids, matches);
    }

    /** The tree as read from the wire. */
    constructor Unserialize(H: Combine, n: nat, hashes: seq<Hash>, bytes: seq<bv8>)
      ensures this.H == H && nTransactions == n && vHash == hashes && !fBad
      ensures |vBits| == 8 * |bytes|
      ensures forall p :: 0 <= p < |vBits| ==> vBits[p] == TestBit(bytes[p / 8], p % 8)
    {
      this.H := H;
      nTransactions, vHash, fBad := n, hashes, false;
      var bits := BytesToBits(bytes);
      vBits := bits;
    }

    method FindHeight() returns (height: nat)
      requires nTransactions > 0
      ensures height == Height(nTransactions)
    {
      height := 0;
      var width := CalcTreeWidth(height);
      while width > 1
        invariant width == Width(nTransactions, height) >= 1
        invariant HeightFrom(nTransactions, height) == Height(nTransactions)
        decreases width
      {
        height := height + 1;
        width := CalcTreeWidth(height);
      }
    }

    method TraverseAndExtract(
      height: nat, pos: nat, bitsUsed: nat, hashesUsed: nat, matches: seq<Hash>, indices: seq<nat>)
      returns (hash: Hash, bitsUsed': nat, hashesUsed': nat, matches': seq<Hash>, indices': seq<nat>)
      requires pos < Width(nTransactions, height)
      modifies this`fBad
      ensures Node(hash, Cursor(bitsUsed', hashesUsed', matches', indices', fBad))
              == Decode(H, ShapeAt(nTransactions, height, pos), vBits, vHash,
                        Cursor(bitsUsed, hashesUsed, matches, indices, old(fBad)))
      decreases height, 1
    {
      bitsUsed', hashesUsed', matches', indices' := bitsUsed, hashesUsed, matches, indices;
      if bitsUsed' >= |vBits| {
        fBad := true;
        return NULL_HASH, bitsUsed', hashesUsed', matches', indices';
      }
      var parent := vBits[bitsUsed'];
      bitsUsed' := bitsUsed' + 1;
      if height == 0 || !parent {
        if hashesUsed' >= |vHash| {
          fBad := true;
          return NULL_HASH, bitsUsed', hashesUsed', matches', indices';
        }
        hash := vHash[hashesUsed'];
        hashesUsed' := hashesUsed' + 1;
        if height == 0 && parent {
          matches', indices' := matches' + [hash], indices' + [pos];
        }
      } else {
        hash, bitsUsed', hashesUsed', matches', indices' :=
          ExtractBelow(height, pos, bitsUsed, hashesUsed, matches, indices);
      }
    }

    /** The branch of TraverseAndExtract that descends into the subtrees. */
    method ExtractBelow(height: nat, pos: nat, bitsUsed: nat, hashesUsed: nat, matches: seq<Hash>, indices: seq<nat>)
      returns (hash: Hash, bitsUsed': nat, hashesUsed': nat, matches': seq<Hash>, indices': seq<nat>)
      requires pos < Width(nTransactions, height) && height > 0 && bitsUsed < |vBits| && vBits[bitsUsed]
      modifies this`fBad
      ensures Node(hash, Cursor(bitsUsed', hashesUsed', matches', indices', fBad))
              == Decode(H, ShapeAt(nTransactions, height, pos), vBits, vHash,
                        Cursor(bitsUsed, hashesUsed, matches, indices, old(fBad)))
      decreases height, 0
    {
      ShapeSplits(nTransactions, height, pos);
      var left, right;
      left, bitsUsed', hashesUsed', matches', indices' :=
        TraverseAndExtract(height - 1, pos * 2, bitsUsed + 1, hashesUsed, matches, indices);
      var width := CalcTreeWidth(height - 1);
      if pos * 2 + 1 < width {
        right, bitsUsed', hashesUsed', matches', indices' :=
          TraverseAndExtract(height - 1, pos * 2 + 1, bitsUsed', hashesUsed', matches', indices');
        if right == left {
          fBad := true;
        }
      } else {
        right := left;
      }
      hash := H(left, right);
    }

    /** ExtractMatches; the positions found are put after those that were there before. */
    method ExtractMatches(before: seq<nat>) returns (root: Hash, matches: seq<Hash>, indices: seq<nat>)
      modifies this`fBad
      ensures var x := MerkleBlock.ExtractMatches(H, nTransactions, vBits, vHash, old(fBad));
        root == x.root && matches == x.matches && indices == before + x.indices && fBad == x.bad
    {
      root, matches, indices := NULL_HASH, [], before;
      if nTransactions == 0 {
        return;
      }
      if nTransactions > MAX_BLOCK_WEIGHT / MIN_TRANSACTION_WEIGHT {
        return;
      }
      if |vHash| > nTransactions {
        return;
      }
      if |vBits| < |vHash| {
        return;
      }
      var height := FindHeight();
      var hash, bitsUsed, hashesUsed;
      assert before + [] == before;
      DecodeAfter(H, ShapeAt(nTransactions, height, 0), vBits, vHash, Cursor(0, 0, [], [], fBad), before,
                  Cursor(0, 0, [], before, fBad));
      hash, bitsUsed, hashesUsed, matches, indices := TraverseAndExtract(height, 0, 0, 0, [], before);
      if fBad {
        return;
      }
      if (bitsUsed + 7) / 8 != (|vBits| + 7) / 8 {
        return;
      }
      if hashesUsed != |vHash| {
        return;
      }
      root := hash;
    }
  }

  /**
   The whole path of a merkle block: build, write the flag bits as bytes, read them back,
   extract. The receiver gets the root, the masked transactions and their positions.
   */
  method SendAndReceive(H: Combine, txids: seq<Hash>, matches: seq<bool>)
    returns (root: Hash, found: seq<Hash>, indices: seq<nat>)
    requires Injective(H) && Distinct(txids)
    requires 0 < |txids| == |matches| && |txids| <= MAX_BLOCK_WEIGHT / MIN_TRANSACTION_WEIGHT
    ensures root == CalcHash(H, txids, Height(|txids|), 0)
    ensures indices == Matched(matches, 0, |txids|) && found == Pick(txids, indices)
  {
    var sent := new PartialMerkleTree(H, txids, matches);
    var bytes := BitsToBytes(sent.vBits);
    var received := new PartialMerkleTree.Unserialize(H, sent.nTransactions, sent.vHash, bytes);
    ghost var bits := sent.vBits;
    ghost var padding := received.vBits[|bits|..];
    assert received.vBits == bits + padding;
    RoundTrip(H, txids, matches, padding);
    root, found, indices := received.ExtractMatches([]);
  }
}
