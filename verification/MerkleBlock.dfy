/**
 CPartialMerkleTree: which transactions of a block are matched, told by flag bits and the
 few hashes needed to recompute the Merkle root.

 The code walks the tree by height and position. `TreeAt` lays the same tree out as a
 datatype; encoding and decoding are reasoned about on that, and the mutable object at the
 end is proved to compute it.
 */
module MerkleBlock {
  import opened Numbers

  type Hash = nat
  const NULL_HASH: Hash := 0

  const MAX_BLOCK_WEIGHT := 4000000
  const MIN_TRANSACTION_WEIGHT := 240

  /** The two-argument hash of the tree; nothing is assumed of it unless a lemma says so. */
  type Combine = (Hash, Hash) -> Hash

  ghost predicate Injective(H: Combine) {
    forall a, b, c, d :: H(a, b) == H(c, d) ==> a == c && b == d
  }

  ghost predicate Distinct(txids: seq<Hash>) {
    forall i, j :: 0 <= i < j < |txids| ==> txids[i] != txids[j]
  }

  // ---------------------------------------------------------------- shape of the tree

  /** The number of nodes at a height, each standing for two below it. */
  function Width(n: nat, h: nat): nat {
    if h == 0 then n else (Width(n, h - 1) + 1) / 2
  }

  /** The first leaf below a node. */
  function Lo(h: nat, pos: nat): nat {
    if h == 0 then pos else Lo(h - 1, 2 * pos)
  }

  /** CalcTreeWidth computes the width in one division. */
  lemma {:induction false} WidthFormula(n: nat, h: nat)
    ensures Width(n, h) == (n + Pow2(h) - 1) / Pow2(h)
  {
    if h > 0 {
      WidthFormula(n, h - 1);
      CeilHalf(n, Pow2(h - 1));
    }
  }

  lemma {:induction false} CeilHalf(n: nat, p: nat)
    requires p > 0
    ensures ((n + p - 1) / p + 1) / 2 == (n + 2 * p - 1) / (2 * p)
  {
    var q := (n + p - 1) / p;
    var w := (q + 1) / 2;
    CeilBounds(n, p, q);
    HalfBounds(n, p, q, w);
    CeilUnique(n, 2 * p, w);
  }

  lemma {:induction false} HalfBounds(n: nat, p: nat, q: nat, w: nat)
    requires n <= q * p && (q > 0 ==> (q - 1) * p < n) && 2 * w - 1 <= q <= 2 * w
    ensures n <= w * (2 * p) && (w > 0 ==> (w - 1) * (2 * p) < n)
  {
    assert (2 * w) * p == w * (2 * p) && (2 * w - 2) * p == (w - 1) * (2 * p);
    if w > 0 {
      MulMono(2 * w - 2, q - 1, p);
    }
    MulMono(q, 2 * w, p);
  }

  /** The quotient rounded up is the least multiple that covers n. */
  lemma {:induction false} CeilBounds(n: nat, p: nat, q: nat)
    requires p > 0 && q == (n + p - 1) / p
    ensures n <= q * p && (q > 0 ==> (q - 1) * p < n)
  {
    var r := (n + p - 1) % p;
    assert n + p - 1 == q * p + r && 0 <= r < p;
    assert (q - 1) * p == q * p - p;
  }

  lemma {:induction false} CeilUnique(n: nat, p: nat, w: nat)
    requires p > 0 && n <= w * p && (w > 0 ==> (w - 1) * p < n)
    ensures w == (n + p - 1) / p
  {
    var q := (n + p - 1) / p;
    CeilBounds(n, p, q);
    if w < q { MulMono(w, q - 1, p); }
    if q < w { MulMono(q, w - 1, p); }
  }

  /** A node exists exactly when its first leaf does. */
  lemma {:induction false} WidthIsReach(n: nat, h: nat, pos: nat)
    ensures pos < Width(n, h) <==> Lo(h, pos) < n
    decreases h
  {
    if h > 0 {
      WidthIsReach(n, h - 1, 2 * pos);
    }
  }

  lemma {:induction false} LoStrict(h: nat, a: nat, b: nat)
    requires a < b
    ensures Lo(h, a) < Lo(h, b)
    decreases h
  {
    if h > 0 {
      LoStrict(h - 1, 2 * a, 2 * b);
    }
  }

  // ---------------------------------------------------------------- the tree

  /** A block's transactions as the leaves of its Merkle tree, each matched or not. */
  datatype Tree =
    | Leaf(txid: Hash, matched: bool, index: nat)
    | Only(child: Tree)
    | Both(left: Tree, right: Tree)

  /** The subtree at a height and position. */
  function TreeAt(txids: seq<Hash>, matches: seq<bool>, h: nat, pos: nat): Tree
    requires pos < Width(|txids|, h) && |matches| == |txids|
    decreases h
  {
    if h == 0 then Leaf(txids[pos], matches[pos], pos)
    else if 2 * pos + 1 < Width(|txids|, h - 1) then
      Both(TreeAt(txids, matches, h - 1, 2 * pos), TreeAt(txids, matches, h - 1, 2 * pos + 1))
    else Only(TreeAt(txids, matches, h - 1, 2 * pos))
  }

  function Root(H: Combine, t: Tree): Hash {
    match t
    case Leaf(txid, _, _) => txid
    case Only(child) => H(Root(H, child), Root(H, child))
    case Both(left, right) => H(Root(H, left), Root(H, right))
  }

  predicate AnyMatch(t: Tree) {
    match t
    case Leaf(_, matched, _) => matched
    case Only(child) => AnyMatch(child)
    case Both(left, right) => AnyMatch(left) || AnyMatch(right)
  }

  /** The matched leaves from left to right. */
  function Found(t: Tree): seq<Tree> {
    match t
    case Leaf(_, matched, _) => if matched then [t] else []
    case Only(child) => Found(child)
    case Both(left, right) => Found(left) + Found(right)
  }

  datatype Piece = Piece(bits: seq<bool>, hashes: seq<Hash>)

  /** The bits and hashes stored for a subtree. */
  function Encode(H: Combine, t: Tree): Piece {
    if t.Leaf? || !AnyMatch(t) then Piece([AnyMatch(t)], [Root(H, t)])
    else match t {
      case Only(child) => Piece([true] + Encode(H, child).bits, Encode(H, child).hashes)
      case Both(left, right) =>
        var l, r := Encode(H, left), Encode(H, right);
        Piece([true] + (l.bits + r.bits), l.hashes + r.hashes)
    }
  }

  /** What TraverseAndExtract threads through its calls. */
  datatype Cursor = Cursor(bits: nat, hashes: nat, matches: seq<Hash>, indices: seq<nat>, bad: bool)
  datatype Node = Node(hash: Hash, c: Cursor)

  /** Decoding along the shape of a tree; the leaves' contents play no part. */
  function Decode(H: Combine, t: Tree, vBits: seq<bool>, vHash: seq<Hash>, c: Cursor): Node {
    if c.bits >= |vBits| then Node(NULL_HASH, c.(bad := true))
    else
      var parent := vBits[c.bits];
      var d := c.(bits := c.bits + 1);
      if t.Leaf? || !parent then
        if d.hashes >= |vHash| then Node(NULL_HASH, d.(bad := true))
        else
          var hash := vHash[d.hashes];
          var e := d.(hashes := d.hashes + 1);
          if t.Leaf? && parent then Node(hash, e.(matches := e.matches + [hash], indices := e.indices + [t.index]))
          else Node(hash, e)
      else match t {
        case Only(child) =>
          var left := Decode(H, child, vBits, vHash, d);
          Node(H(left.hash, left.hash), left.c)
        case Both(l, r) =>
          var left := Decode(H, l, vBits, vHash, d);
          var right := Decode(H, r, vBits, vHash, left.c);
          Node(H(left.hash, right.hash), if right.hash == left.hash then right.c.(bad := true) else right.c)
      }
  }

  /** Positions that were listed before stay in front of those found. */
  lemma {:induction false} DecodeAfter(
    H: Combine, t: Tree, vBits: seq<bool>, vHash: seq<Hash>, c: Cursor, before: seq<nat>, d: Cursor)
    requires d == c.(indices := before + c.indices)
    ensures var n, m := Decode(H, t, vBits, vHash, c), Decode(H, t, vBits, vHash, d);
      m == Node(n.hash, n.c.(indices := before + n.c.indices))
  {
    if c.bits < |vBits| {
      var c1, d1 := c.(bits := c.bits + 1), d.(bits := d.bits + 1);
      if t.Leaf? || !vBits[c.bits] {
        if t.Leaf? {
          assert before + c.indices + [t.index] == before + (c.indices + [t.index]);
        }
      } else if t.Only? {
        DecodeAfter(H, t.child, vBits, vHash, c1, before, d1);
      } else {
        DecodeAfter(H, t.left, vBits, vHash, c1, before, d1);
        DecodeAfter(H, t.right, vBits, vHash, Decode(H, t.left, vBits, vHash, c1).c, before,
                    Decode(H, t.left, vBits, vHash, d1).c);
      }
    }
  }

  // ---------------------------------------------------------------- round trip

  /** No node has two children of equal hash: such trees are refused when decoding. */
  ghost predicate Apart(H: Combine, t: Tree) {
    match t
    case Leaf(_, _, _) => true
    case Only(child) => Apart(H, child)
    case Both(left, right) => Apart(H, left) && Apart(H, right) && Root(H, left) != Root(H, right)
  }

  /** `part` occurs in `whole` at `from`. */
  ghost predicate Occurs<T>(part: seq<T>, whole: seq<T>, from: nat) {
    from + |part| <= |whole| && whole[from..from + |part|] == part
  }

  lemma {:induction false} OccursConcat<T>(a: seq<T>, b: seq<T>, whole: seq<T>, from: nat)
    requires Occurs(a + b, whole, from)
    ensures Occurs(a, whole, from) && Occurs(b, whole, from + |a|)
  {
    assert whole[from..from + |a|] == whole[from..from + |a + b|][..|a|];
    assert whole[from + |a|..from + |a| + |b|] == whole[from..from + |a + b|][|a|..];
  }

  lemma {:induction false} OccursHead<T>(x: T, rest: seq<T>, whole: seq<T>, from: nat)
    requires Occurs([x] + rest, whole, from)
    ensures whole[from] == x && Occurs(rest, whole, from + 1)
  {
    OccursConcat([x], rest, whole, from);
    assert whole[from] == whole[from..from + 1][0];
  }

  function Ids(leaves: seq<Tree>): seq<Hash> {
    seq(|leaves|, i requires 0 <= i < |leaves| => if leaves[i].Leaf? then leaves[i].txid else NULL_HASH)
  }

  function Indices(leaves: seq<Tree>): seq<nat> {
    seq(|leaves|, i requires 0 <= i < |leaves| => if leaves[i].Leaf? then leaves[i].index else 0)
  }

  lemma {:induction false} ListsConcat(a: seq<Tree>, b: seq<Tree>)
    ensures Ids(a + b) == Ids(a) + Ids(b) && Indices(a + b) == Indices(a) + Indices(b)
  {
  }

  lemma {:induction false} FoundNone(t: Tree)
    ensures Found(t) == [] <==> !AnyMatch(t)
  {
    match t
    case Leaf(_, _, _) =>
    case Only(child) => FoundNone(child);
    case Both(left, right) => FoundNone(left); FoundNone(right);
  }

  /** Cursor `d` is cursor `c` after a subtree has been read back. */
  ghost predicate ReadBack(piece: Piece, found: seq<Tree>, c: Cursor, d: Cursor) {
    && d.bits == c.bits + |piece.bits| && d.hashes == c.hashes + |piece.hashes|
    && d.matches == c.matches + Ids(found) && d.indices == c.indices + Indices(found)
    && d.bad == c.bad
  }

  /** Decoding what was encoded for a subtree yields its hash and its matched leaves. */
  lemma {:induction false} DecodeEncoded(H: Combine, t: Tree, vBits: seq<bool>, vHash: seq<Hash>, c: Cursor)
    requires Apart(H, t)
    requires Occurs(Encode(H, t).bits, vBits, c.bits) && Occurs(Encode(H, t).hashes, vHash, c.hashes)
    ensures Decode(H, t, vBits, vHash, c).hash == Root(H, t)
    ensures ReadBack(Encode(H, t), Found(t), c, Decode(H, t, vBits, vHash, c).c)
    decreases t
  {
    if t.Leaf? || !AnyMatch(t) {
      DecodeStored(H, t, vBits, vHash, c);
    } else if t.Only? {
      OccursHead(true, Encode(H, t.child).bits, vBits, c.bits);
      DecodeEncoded(H, t.child, vBits, vHash, c.(bits := c.bits + 1));
    } else {
      DecodeBoth(H, t.left, t.right, vBits, vHash, c);
    }
  }

  lemma {:induction false} DecodeStored(H: Combine, t: Tree, vBits: seq<bool>, vHash: seq<Hash>, c: Cursor)
    requires t.Leaf? || !AnyMatch(t)
    requires Occurs(Encode(H, t).bits, vBits, c.bits) && Occurs(Encode(H, t).hashes, vHash, c.hashes)
    ensures Decode(H, t, vBits, vHash, c).hash == Root(H, t)
    ensures ReadBack(Encode(H, t), Found(t), c, Decode(H, t, vBits, vHash, c).c)
  {
    FoundNone(t);
    assert [AnyMatch(t)] + [] == Encode(H, t).bits && [Root(H, t)] + [] == Encode(H, t).hashes;
    OccursHead(AnyMatch(t), [], vBits, c.bits);
    OccursHead(Root(H, t), [], vHash, c.hashes);
  }

  lemma {:induction false} ReadBoth(l: Piece, r: Piece, fl: seq<Tree>, fr: seq<Tree>, c: Cursor, d: Cursor, e: Cursor)
    requires ReadBack(l, fl, c.(bits := c.bits + 1), d) && ReadBack(r, fr, d, e)
    ensures ReadBack(Piece([true] + (l.bits + r.bits), l.hashes + r.hashes), fl + fr, c, e)
  {
    ListsConcat(fl, fr);
  }

  lemma {:induction false} DecodeDescends(
    H: Combine, l: Tree, r: Tree, vBits: seq<bool>, vHash: seq<Hash>, c: Cursor, left: Node, right: Node)
    requires c.bits < |vBits| && vBits[c.bits] && left.hash != right.hash
    requires left == Decode(H, l, vBits, vHash, c.(bits := c.bits + 1)) && right == Decode(H, r, vBits, vHash, left.c)
    ensures Decode(H, Both(l, r), vBits, vHash, c) == Node(H(left.hash, right.hash), right.c)
  {
  }

  lemma {:induction false} DecodeBoth(H: Combine, l: Tree, r: Tree, vBits: seq<bool>, vHash: seq<Hash>, c: Cursor)
    requires Apart(H, Both(l, r)) && AnyMatch(Both(l, r))
    requires Occurs([true] + (Encode(H, l).bits + Encode(H, r).bits), vBits, c.bits)
    requires Occurs(Encode(H, l).hashes + Encode(H, r).hashes, vHash, c.hashes)
    ensures Decode(H, Both(l, r), vBits, vHash, c).hash == Root(H, Both(l, r))
    ensures ReadBack(Encode(H, Both(l, r)), Found(l) + Found(r), c, Decode(H, Both(l, r), vBits, vHash, c).c)
    decreases Both(l, r), 0
  {
    var x, y := Encode(H, l), Encode(H, r);
    var d := c.(bits := c.bits + 1);
    OccursHead(true, x.bits + y.bits, vBits, c.bits);
    OccursConcat(x.bits, y.bits, vBits, d.bits);
    OccursConcat(x.hashes, y.hashes, vHash, d.hashes);
    var left := Decode(H, l, vBits, vHash, d);
    DecodeEncoded(H, l, vBits, vHash, d);
    var b := left.c;
    assert b.bits == d.bits + |x.bits| && b.hashes == d.hashes + |x.hashes| && b.bad == d.bad;
    var right := Decode(H, r, vBits, vHash, b);
    DecodeEncoded(H, r, vBits, vHash, b);
    ReadBoth(x, y, Found(l), Found(r), c, left.c, right.c);
    DecodeDescends(H, l, r, vBits, vHash, c, left, right);
  }

  // ---------------------------------------------------------------- leaves and positions

  function Depth(t: Tree): nat {
    match t
    case Leaf(_, _, _) => 0
    case Only(child) => 1 + Depth(child)
    case Both(left, _) => 1 + Depth(left)
  }

  /** All paths have the same length. */
  ghost predicate Level(t: Tree) {
    match t
    case Leaf(_, _, _) => true
    case Only(child) => Level(child)
    case Both(left, right) => Level(left) && Level(right) && Depth(left) == Depth(right)
  }

  function First(t: Tree): Hash {
    match t
    case Leaf(txid, _, _) => txid
    case Only(child) => First(child)
    case Both(left, _) => First(left)
  }

  lemma {:induction false} TreeAtShape(txids: seq<Hash>, matches: seq<bool>, h: nat, pos: nat)
    requires pos < Width(|txids|, h) && |matches| == |txids|
    ensures var t := TreeAt(txids, matches, h, pos);
            Level(t) && Depth(t) == h && Lo(h, pos) < |txids| && First(t) == txids[Lo(h, pos)]
    decreases h
  {
    if h > 0 {
      TreeAtShape(txids, matches, h - 1, 2 * pos);
      if 2 * pos + 1 < Width(|txids|, h - 1) {
        TreeAtShape(txids, matches, h - 1, 2 * pos + 1);
      }
    }
  }

  /** CalcHash. */
  function CalcHash(H: Combine, txids: seq<Hash>, h: nat, pos: nat): Hash
    requires pos < Width(|txids|, h)
    decreases h
  {
    if h == 0 then txids[pos]
    else
      var left := CalcHash(H, txids, h - 1, 2 * pos);
      var right := if 2 * pos + 1 < Width(|txids|, h - 1) then CalcHash(H, txids, h - 1, 2 * pos + 1) else left;
      H(left, right)
  }

  lemma {:induction false} CalcHashIsRoot(H: Combine, txids: seq<Hash>, matches: seq<bool>, h: nat, pos: nat)
    requires pos < Width(|txids|, h) && |matches| == |txids|
    ensures CalcHash(H, txids, h, pos) == Root(H, TreeAt(txids, matches, h, pos))
    decreases h
  {
    if h > 0 {
      CalcHashIsRoot(H, txids, matches, h - 1, 2 * pos);
      if 2 * pos + 1 < Width(|txids|, h - 1) {
        CalcHashIsRoot(H, txids, matches, h - 1, 2 * pos + 1);
      }
    }
  }

  /** Without collisions, trees of one height with equal roots have equal first leaves. */
  lemma {:induction false} EqualRootsEqualFirst(H: Combine, t: Tree, u: Tree)
    requires Injective(H) && Level(t) && Level(u) && Depth(t) == Depth(u) && Root(H, t) == Root(H, u)
    ensures First(t) == First(u)
    decreases t
  {
    if !t.Leaf? {
      EqualRootsEqualFirst(H, if t.Only? then t.child else t.left, if u.Only? then u.child else u.left);
    }
  }

  /** Distinct transactions and a collision-free hash give a tree decoding accepts. */
  lemma {:induction false} DistinctApart(H: Combine, txids: seq<Hash>, matches: seq<bool>, h: nat, pos: nat)
    requires Injective(H) && Distinct(txids) && pos < Width(|txids|, h) && |matches| == |txids|
    ensures Apart(H, TreeAt(txids, matches, h, pos))
    decreases h
  {
    if h > 0 {
      DistinctApart(H, txids, matches, h - 1, 2 * pos);
      if 2 * pos + 1 < Width(|txids|, h - 1) {
        DistinctApart(H, txids, matches, h - 1, 2 * pos + 1);
        TwinsDiffer(H, txids, matches, h - 1, pos);
      }
    }
  }

  lemma {:induction false} TwinsDiffer(H: Combine, txids: seq<Hash>, matches: seq<bool>, h: nat, pos: nat)
    requires Injective(H) && Distinct(txids) && 2 * pos < 2 * pos + 1 < Width(|txids|, h) && |matches| == |txids|
    ensures Root(H, TreeAt(txids, matches, h, 2 * pos)) != Root(H, TreeAt(txids, matches, h, 2 * pos + 1))
  {
    var l, r := TreeAt(txids, matches, h, 2 * pos), TreeAt(txids, matches, h, 2 * pos + 1);
    TreeAtShape(txids, matches, h, 2 * pos);
    TreeAtShape(txids, matches, h, 2 * pos + 1);
    LoStrict(h, 2 * pos, 2 * pos + 1);
    if Root(H, l) == Root(H, r) {
      EqualRootsEqualFirst(H, l, r);
    }
  }

  /** The matched positions in [lo, hi), in order. */
  function Matched(matches: seq<bool>, lo: nat, hi: nat): seq<nat>
    decreases hi
  {
    if hi <= lo then []
    else Matched(matches, lo, hi - 1) + if hi - 1 < |matches| && matches[hi - 1] then [hi - 1] else []
  }

  lemma {:induction false} MatchedSplit(matches: seq<bool>, lo: nat, mid: nat, hi: nat)
    requires lo <= mid <= hi
    ensures Matched(matches, lo, hi) == Matched(matches, lo, mid) + Matched(matches, mid, hi)
    decreases hi
  {
    if mid < hi {
      MatchedSplit(matches, lo, mid, hi - 1);
    }
  }

  lemma {:induction false} MatchedBeyond(matches: seq<bool>, lo: nat, hi: nat)
    requires |matches| <= lo
    ensures Matched(matches, lo, hi) == []
    decreases hi
  {
    if lo < hi {
      MatchedBeyond(matches, lo, hi - 1);
    }
  }

  function Pick(txids: seq<Hash>, indices: seq<nat>): seq<Hash> {
    seq(|indices|, i requires 0 <= i < |indices| => if indices[i] < |txids| then txids[indices[i]] else NULL_HASH)
  }

  lemma {:induction false} PickConcat(txids: seq<Hash>, a: seq<nat>, b: seq<nat>)
    ensures Pick(txids, a + b) == Pick(txids, a) + Pick(txids, b)
  {
  }

  /** The leaves below a node split between its children. */
  lemma {:induction false} MatchedChildren(matches: seq<bool>, h: nat, pos: nat)
    requires h > 0
    ensures Matched(matches, Lo(h, pos), Lo(h, pos + 1))
            == Matched(matches, Lo(h - 1, 2 * pos), Lo(h - 1, 2 * pos + 1))
             + Matched(matches, Lo(h - 1, 2 * pos + 1), Lo(h - 1, 2 * pos + 2))
    ensures Width(|matches|, h - 1) <= 2 * pos + 1 ==>
              Matched(matches, Lo(h - 1, 2 * pos + 1), Lo(h - 1, 2 * pos + 2)) == []
  {
    LoStrict(h - 1, 2 * pos, 2 * pos + 1);
    LoStrict(h - 1, 2 * pos + 1, 2 * pos + 2);
    MatchedSplit(matches, Lo(h, pos), Lo(h - 1, 2 * pos + 1), Lo(h, pos + 1));
    if Width(|matches|, h - 1) <= 2 * pos + 1 {
      WidthIsReach(|matches|, h - 1, 2 * pos + 1);
      MatchedBeyond(matches, Lo(h - 1, 2 * pos + 1), Lo(h - 1, 2 * pos + 2));
    }
  }

  /** The matched leaves of a subtree are the matched positions it covers. */
  lemma {:induction false} FoundIsMatched(txids: seq<Hash>, matches: seq<bool>, h: nat, pos: nat)
    requires pos < Width(|txids|, h) && |matches| == |txids|
    ensures Indices(Found(TreeAt(txids, matches, h, pos))) == Matched(matches, Lo(h, pos), Lo(h, pos + 1))
    ensures Ids(Found(TreeAt(txids, matches, h, pos))) == Pick(txids, Matched(matches, Lo(h, pos), Lo(h, pos + 1)))
    decreases h
  {
    if h == 0 {
      assert Matched(matches, pos, pos + 1) == Matched(matches, pos, pos) + if matches[pos] then [pos] else [];
    } else {
      MatchedChildren(matches, h, pos);
      FoundIsMatched(txids, matches, h - 1, 2 * pos);
      if 2 * pos + 1 < Width(|txids|, h - 1) {
        FoundIsMatched(txids, matches, h - 1, 2 * pos + 1);
        ListsConcat(Found(TreeAt(txids, matches, h - 1, 2 * pos)), Found(TreeAt(txids, matches, h - 1, 2 * pos + 1)));
        PickConcat(txids, Matched(matches, Lo(h - 1, 2 * pos), Lo(h - 1, 2 * pos + 1)),
                   Matched(matches, Lo(h - 1, 2 * pos + 1), Lo(h - 1, 2 * pos + 2)));
      }
    }
  }

  // ---------------------------------------------------------------- soundness

  /** The leaves are transactions of the block, in order and between `lo` and `hi`. */
  ghost predicate Ordered(t: Tree, txids: seq<Hash>, lo: nat, hi: nat) {
    match t
    case Leaf(txid, _, index) => lo <= index < hi && index < |txids| && txids[index] == txid
    case Only(child) => Ordered(child, txids, lo, hi)
    case Both(left, right) => exists mid: nat :: Ordered(left, txids, lo, mid) && Ordered(right, txids, mid, hi)
  }

  lemma {:induction false} TreeAtOrdered(txids: seq<Hash>, matches: seq<bool>, h: nat, pos: nat)
    requires pos < Width(|txids|, h) && |matches| == |txids|
    ensures Ordered(TreeAt(txids, matches, h, pos), txids, Lo(h, pos), Lo(h, pos + 1))
    decreases h
  {
    if h > 0 {
      TreeAtOrdered(txids, matches, h - 1, 2 * pos);
      if 2 * pos + 1 < Width(|txids|, h - 1) {
        TreeAtOrdered(txids, matches, h - 1, 2 * pos + 1);
      } else {
        LoStrict(h - 1, 2 * pos + 1, 2 * pos + 2);
        Widen(TreeAt(txids, matches, h - 1, 2 * pos), txids, Lo(h - 1, 2 * pos), Lo(h - 1, 2 * pos + 1),
              Lo(h, pos + 1));
      }
    }
  }

  lemma {:induction false} Widen(t: Tree, txids: seq<Hash>, lo: nat, hi: nat, hi': nat)
    requires Ordered(t, txids, lo, hi) && hi <= hi'
    ensures Ordered(t, txids, lo, hi')
  {
    match t
    case Leaf(_, _, _) =>
    case Only(child) => Widen(child, txids, lo, hi, hi');
    case Both(left, right) =>
      var mid: nat :| Ordered(left, txids, lo, mid) && Ordered(right, txids, mid, hi);
      Widen(right, txids, mid, hi, hi');
  }

  /** Positions that may be reported: in range and strictly increasing. */
  ghost predicate Ascending(ix: seq<nat>, lo: nat, hi: nat) {
    && (forall k :: 0 <= k < |ix| ==> lo <= ix[k] < hi)
    && (forall i, j :: 0 <= i < j < |ix| ==> ix[i] < ix[j])
  }

  /** A failure is never forgotten. */
  lemma {:induction false} BadSticks(H: Combine, t: Tree, vBits: seq<bool>, vHash: seq<Hash>, c: Cursor)
    ensures c.bad ==> Decode(H, t, vBits, vHash, c).c.bad
    decreases t
  {
    if c.bits < |vBits| && vBits[c.bits] {
      var d := c.(bits := c.bits + 1);
      match t
      case Leaf(_, _, _) =>
      case Only(child) => BadSticks(H, child, vBits, vHash, d);
      case Both(l, r) =>
        BadSticks(H, l, vBits, vHash, d);
        BadSticks(H, r, vBits, vHash, Decode(H, l, vBits, vHash, d).c);
    }
  }

  /** Between cursors `c` and `d` the positions `ix` were reported with their true transactions. */
  ghost predicate Reports(txids: seq<Hash>, ix: seq<nat>, lo: nat, hi: nat, c: Cursor, d: Cursor) {
    var within := forall k :: 0 <= k < |ix| ==> ix[k] < |txids|;
    within && Ascending(ix, lo, hi) && d.indices == c.indices + ix && d.matches == c.matches + Pick(txids, ix)
  }

  lemma {:induction false} ReportsConcat(
    txids: seq<Hash>, il: seq<nat>, ir: seq<nat>, lo: nat, mid: nat, hi: nat, c: Cursor, d: Cursor, e: Cursor)
    requires lo <= mid <= hi && Reports(txids, il, lo, mid, c, d) && Reports(txids, ir, mid, hi, d, e)
    ensures Reports(txids, il + ir, lo, hi, c, e)
  {
    PickConcat(txids, il, ir);
  }

  /** Whatever the bits and hashes, decoding to the true hash reports only true transactions. */
  lemma {:induction false} DecodeSound(
    H: Combine, t: Tree, txids: seq<Hash>, lo: nat, hi: nat, vBits: seq<bool>, vHash: seq<Hash>, c: Cursor)
    returns (ix: seq<nat>)
    requires Injective(H) && Ordered(t, txids, lo, hi)
    requires !Decode(H, t, vBits, vHash, c).c.bad && Decode(H, t, vBits, vHash, c).hash == Root(H, t)
    ensures Reports(txids, ix, lo, hi, c, Decode(H, t, vBits, vHash, c).c)
    decreases t
  {
    assert Pick(txids, []) == [];
    if t.Leaf? {
      ix := if vBits[c.bits] then [t.index] else [];
      assert Pick(txids, [t.index]) == [t.txid];
    } else if !vBits[c.bits] {
      ix := [];
    } else if t.Only? {
      ix := DecodeSound(H, t.child, txids, lo, hi, vBits, vHash, c.(bits := c.bits + 1));
    } else {
      ix := DecodeSoundBoth(H, t.left, t.right, txids, lo, hi, vBits, vHash, c);
    }
  }

  lemma {:induction false} DecodeSoundBoth(
    H: Combine, l: Tree, r: Tree, txids: seq<Hash>, lo: nat, hi: nat, vBits: seq<bool>, vHash: seq<Hash>, c: Cursor)
    returns (ix: seq<nat>)
    requires Injective(H) && Ordered(Both(l, r), txids, lo, hi) && c.bits < |vBits| && vBits[c.bits]
    requires !Decode(H, Both(l, r), vBits, vHash, c).c.bad
    requires Decode(H, Both(l, r), vBits, vHash, c).hash == H(Root(H, l), Root(H, r))
    ensures Reports(txids, ix, lo, hi, c, Decode(H, Both(l, r), vBits, vHash, c).c)
    decreases Both(l, r), 0
  {
    var mid: nat :| Ordered(l, txids, lo, mid) && Ordered(r, txids, mid, hi);
    OrderedSpan(l, txids, lo, mid);
    OrderedSpan(r, txids, mid, hi);
    var d := c.(bits := c.bits + 1);
    var left := Decode(H, l, vBits, vHash, d);
    var right := Decode(H, r, vBits, vHash, left.c);
    BadSticks(H, r, vBits, vHash, left.c);
    var il := DecodeSound(H, l, txids, lo, mid, vBits, vHash, d);
    var ir := DecodeSound(H, r, txids, mid, hi, vBits, vHash, left.c);
    ix := il + ir;
    ReportsConcat(txids, il, ir, lo, mid, hi, d, left.c, right.c);
  }

  lemma {:induction false} OrderedSpan(t: Tree, txids: seq<Hash>, lo: nat, hi: nat)
    requires Ordered(t, txids, lo, hi)
    ensures lo < hi
  {
    match t
    case Leaf(_, _, _) =>
    case Only(child) => OrderedSpan(child, txids, lo, hi);
    case Both(left, right) =>
      var mid: nat :| Ordered(left, txids, lo, mid) && Ordered(right, txids, mid, hi);
      OrderedSpan(left, txids, lo, mid);
      OrderedSpan(right, txids, mid, hi);
  }

  // ---------------------------------------------------------------- size of the encoding

  function Leaves(t: Tree): nat {
    match t
    case Leaf(_, _, _) => 1
    case Only(child) => Leaves(child)
    case Both(left, right) => Leaves(left) + Leaves(right)
  }

  /** Nodes that are descended into although they have a single child. */
  function Lonely(t: Tree): nat {
    if t.Leaf? || !AnyMatch(t) then 0
    else match t {
      case Only(child) => 1 + Lonely(child)
      case Both(left, right) => Lonely(left) + Lonely(right)
    }
  }

  /**
   At most one hash per transaction, and at most 1 + matched * height; one bit per node
   visited, which is 2 * hashes - 1 plus the single-child nodes descended into.
   */
  lemma {:induction false} EncodingSize(H: Combine, t: Tree)
    requires Level(t)
    ensures 1 <= |Encode(H, t).hashes| <= Leaves(t)
    ensures |Encode(H, t).hashes| <= 1 + |Found(t)| * Depth(t)
    ensures |Encode(H, t).bits| + 1 == 2 * |Encode(H, t).hashes| + Lonely(t)
  {
    match t
    case Leaf(_, _, _) =>
    case Only(child) =>
      EncodingSize(H, child);
      FoundNone(t);
      StepUp(|Found(child)|, Depth(child));
    case Both(left, right) =>
      EncodingSize(H, left);
      EncodingSize(H, right);
      FoundNone(t);
      StepUp(|Found(left)| + |Found(right)|, Depth(left));
      assert (|Found(left)| + |Found(right)|) * Depth(left)
          == |Found(left)| * Depth(left) + |Found(right)| * Depth(left);
  }

  lemma {:induction false} StepUp(m: nat, d: nat)
    ensures m * (1 + d) == m * d + m
  {
  }

  /** The documented bound of 2 * hashes - 1 bits holds exactly when no such node exists. */
  lemma {:induction false} FlagBitBound(H: Combine, t: Tree)
    requires Level(t)
    ensures |Encode(H, t).bits| <= 2 * |Encode(H, t).hashes| - 1 <==> Lonely(t) == 0
  {
    EncodingSize(H, t);
  }

  /**
   Three transactions with only the last matched: the root, the pair that is cut off, the node above
   the last one and that one itself, from the root down and from left to right. They take four bits
   for two hashes.
   */
  lemma {:induction false} FlagBitBoundFails(H: Combine, x: Hash, y: Hash, z: Hash)
    ensures Width(3, 2) == 1
    ensures var t := TreeAt([x, y, z], [false, false, true], 2, 0);
            && Encode(H, t) == Piece([true, false, true, true], [H(x, y), z]) && Root(H, t) == H(H(x, y), H(z, z))
            && |Encode(H, t).bits| > 2 * |Encode(H, t).hashes| - 1
  {
    var txids, matches := [x, y, z], [false, false, true];
    assert Width(3, 0) == 3 && Width(3, 1) == 2 && Width(3, 2) == 1;
    var last := Leaf(z, true, 2);
    assert TreeAt(txids, matches, 1, 1) == Only(last);
    var pair := Both(Leaf(x, false, 0), Leaf(y, false, 1));
    assert TreeAt(txids, matches, 1, 0) == pair;
    assert TreeAt(txids, matches, 2, 0) == Both(pair, Only(last));
    assert !AnyMatch(pair.left) && !AnyMatch(pair.right) && Root(H, pair.left) == x && Root(H, pair.right) == y;
    assert Encode(H, pair) == Piece([false], [H(x, y)]);
    assert Encode(H, last) == Piece([true], [z]) && Root(H, Only(last)) == H(z, z);
    assert Encode(H, Only(last)) == Piece([true, true], [z]);
  }

  /** Where the leaves of a subtree end. */
  ghost function Hi(n: nat, h: nat, pos: nat): nat {
    if Lo(h, pos + 1) < n then Lo(h, pos + 1) else n
  }

  lemma {:induction false} LeafCount(txids: seq<Hash>, matches: seq<bool>, h: nat, pos: nat)
    requires pos < Width(|txids|, h) && |matches| == |txids|
    ensures Lo(h, pos) < |txids|
    ensures Leaves(TreeAt(txids, matches, h, pos)) == Hi(|txids|, h, pos) - Lo(h, pos)
    decreases h
  {
    if h > 0 {
      LeafCount(txids, matches, h - 1, 2 * pos);
      HiSplits(|txids|, h, pos);
      if 2 * pos + 1 < Width(|txids|, h - 1) {
        LeafCount(txids, matches, h - 1, 2 * pos + 1);
      }
    }
  }

  lemma {:induction false} HiSplits(n: nat, h: nat, pos: nat)
    requires h > 0
    ensures if 2 * pos + 1 < Width(n, h - 1)
      then Hi(n, h - 1, 2 * pos) == Lo(h - 1, 2 * pos + 1) && Hi(n, h, pos) == Hi(n, h - 1, 2 * pos + 1)
      else Hi(n, h, pos) == Hi(n, h - 1, 2 * pos) == n
  {
    WidthIsReach(n, h - 1, 2 * pos + 1);
    LoStrict(h - 1, 2 * pos + 1, 2 * pos + 2);
  }

  // ---------------------------------------------------------------- the whole message

  /** The height of the root. */
  function Height(n: nat): (h: nat)
    requires n > 0
    ensures Width(n, h) == 1
  {
    HeightFrom(n, 0)
  }

  function HeightFrom(n: nat, h: nat): (r: nat)
    requires Width(n, h) >= 1
    ensures Width(n, r) == 1
    decreases Width(n, h)
  {
    if Width(n, h) == 1 then h else HeightFrom(n, h + 1)
  }

  /** The tree of a block. */
  function BlockTree(txids: seq<Hash>, matches: seq<bool>): Tree
    requires 0 < |txids| == |matches|
  {
    TreeAt(txids, matches, Height(|txids|), 0)
  }

  /** A tree of the right shape with nothing in it. */
  function ShapeAt(n: nat, h: nat, pos: nat): Tree
    requires pos < Width(n, h)
  {
    TreeAt(seq(n, i => NULL_HASH), seq(n, i => false), h, pos)
  }

  ghost predicate SameShape(t: Tree, u: Tree) {
    match t
    case Leaf(_, _, index) => u.Leaf? && u.index == index
    case Only(child) => u.Only? && SameShape(child, u.child)
    case Both(left, right) => u.Both? && SameShape(left, u.left) && SameShape(right, u.right)
  }

  lemma {:induction false} ShapeAtSame(txids: seq<Hash>, matches: seq<bool>, h: nat, pos: nat)
    requires pos < Width(|txids|, h) && |matches| == |txids|
    ensures SameShape(TreeAt(txids, matches, h, pos), ShapeAt(|txids|, h, pos))
    decreases h
  {
    if h > 0 {
      ShapeAtSame(txids, matches, h - 1, 2 * pos);
      if 2 * pos + 1 < Width(|txids|, h - 1) {
        ShapeAtSame(txids, matches, h - 1, 2 * pos + 1);
      }
    }
  }

  lemma {:induction false} DecodeByShape(H: Combine, t: Tree, u: Tree, vBits: seq<bool>, vHash: seq<Hash>, c: Cursor)
    requires SameShape(t, u)
    ensures Decode(H, t, vBits, vHash, c) == Decode(H, u, vBits, vHash, c)
    decreases t
  {
    if c.bits < |vBits| && vBits[c.bits] {
      var d := c.(bits := c.bits + 1);
      match t
      case Leaf(_, _, _) =>
      case Only(child) => DecodeByShape(H, child, u.child, vBits, vHash, d);
      case Both(l, r) =>
        DecodeByShape(H, l, u.left, vBits, vHash, d);
        DecodeByShape(H, r, u.right, vBits, vHash, Decode(H, l, vBits, vHash, d).c);
    }
  }

  datatype Extraction = Extraction(root: Hash, matches: seq<Hash>, indices: seq<nat>, bad: bool)

  /** ExtractMatches, into empty result lists. */
  function ExtractMatches(H: Combine, n: nat, vBits: seq<bool>, vHash: seq<Hash>, bad: bool): Extraction {
    if n == 0 || n > MAX_BLOCK_WEIGHT / MIN_TRANSACTION_WEIGHT || |vHash| > n || |vBits| < |vHash|
    then Extraction(NULL_HASH, [], [], bad)
    else
      var node := Decode(H, ShapeAt(n, Height(n), 0), vBits, vHash, Cursor(0, 0, [], [], bad));
      var ok := !node.c.bad && (node.c.bits + 7) / 8 == (|vBits| + 7) / 8 && node.c.hashes == |vHash|;
      Extraction(if ok then node.hash else NULL_HASH, node.c.matches, node.c.indices, node.c.bad)
  }

  /**
   Round trip: for distinct transactions and any mask, extracting from what was built (with
   or without the padding of its flag bits to whole bytes) gives back the Merkle root, the
   masked transactions and their positions.
   */
  lemma {:induction false} RoundTrip(H: Combine, txids: seq<Hash>, matches: seq<bool>, padding: seq<bool>)
    requires Injective(H) && Distinct(txids)
    requires 0 < |txids| == |matches| && |txids| <= MAX_BLOCK_WEIGHT / MIN_TRANSACTION_WEIGHT
    requires var bits := Encode(H, BlockTree(txids, matches)).bits;
             (|bits + padding| + 7) / 8 == (|bits| + 7) / 8
    ensures var piece := Encode(H, BlockTree(txids, matches));
            var found := Matched(matches, 0, |txids|);
            ExtractMatches(H, |txids|, piece.bits + padding, piece.hashes, false)
            == Extraction(CalcHash(H, txids, Height(|txids|), 0), Pick(txids, found), found, false)
  {
    var n, h := |txids|, Height(|txids|);
    var t := BlockTree(txids, matches);
    var piece := Encode(H, t);
    var vBits := piece.bits + padding;
    var c := Cursor(0, 0, [], [], false);
    RootFacts(H, txids, matches);
    assert Occurs(piece.bits, vBits, 0) && Occurs(piece.hashes, piece.hashes, 0);
    DecodeEncoded(H, t, vBits, piece.hashes, c);
    DecodeByShape(H, t, ShapeAt(n, h, 0), vBits, piece.hashes, c);
  }

  /** What holds of the tree of a whole block. */
  lemma {:induction false} RootFacts(H: Combine, txids: seq<Hash>, matches: seq<bool>)
    requires 0 < |txids| == |matches|
    ensures var t := BlockTree(txids, matches);
            && Level(t) && SameShape(t, ShapeAt(|txids|, Height(|txids|), 0))
            && Root(H, t) == CalcHash(H, txids, Height(|txids|), 0)
            && |Encode(H, t).hashes| <= |txids| && |Encode(H, t).hashes| <= |Encode(H, t).bits|
            && Ids(Found(t)) == Pick(txids, Matched(matches, 0, |txids|))
            && Indices(Found(t)) == Matched(matches, 0, |txids|)
            && Ordered(t, txids, 0, Lo(Height(|txids|), 1))
            && (Injective(H) && Distinct(txids) ==> Apart(H, t))
  {
    var n, h := |txids|, Height(|txids|);
    TreeAtShape(txids, matches, h, 0);
    ShapeAtSame(txids, matches, h, 0);
    CalcHashIsRoot(H, txids, matches, h, 0);
    EncodingSize(H, BlockTree(txids, matches));
    LeafCount(txids, matches, h, 0);
    FoundIsMatched(txids, matches, h, 0);
    TreeAtOrdered(txids, matches, h, 0);
    LoZero(h);
    WidthIsReach(n, h, 1);
    MatchedSplit(matches, 0, n, Lo(h, 1));
    MatchedBeyond(matches, n, Lo(h, 1));
    if Injective(H) && Distinct(txids) {
      DistinctApart(H, txids, matches, h, 0);
    }
  }

  /** A block's encoding stores at most min(n, 1 + matched * height) hashes. */
  lemma {:induction false} BlockSize(H: Combine, txids: seq<Hash>, matches: seq<bool>)
    requires 0 < |txids| == |matches|
    ensures var hashes := Encode(H, BlockTree(txids, matches)).hashes;
      1 <= |hashes| <= |txids| && |hashes| <= 1 + |Matched(matches, 0, |txids|)| * Height(|txids|)
  {
    var t := BlockTree(txids, matches);
    RootFacts(H, txids, matches);
    EncodingSize(H, t);
    TreeAtShape(txids, matches, Height(|txids|), 0);
    assert |Indices(Found(t))| == |Found(t)|;
  }

  lemma {:induction false} LoZero(h: nat)
    ensures Lo(h, 0) == 0
  {
    if h > 0 {
      LoZero(h - 1);
    }
  }

  /**
   Soundness: without hash collisions, any bits and hashes that extract to the true Merkle
   root report only transactions of the block, at their true and strictly increasing positions.
   */
  lemma {:induction false} ExtractionIsSound(H: Combine, txids: seq<Hash>, vBits: seq<bool>, vHash: seq<Hash>)
    requires Injective(H) && 0 < |txids|
    requires ExtractMatches(H, |txids|, vBits, vHash, false).root == CalcHash(H, txids, Height(|txids|), 0) != NULL_HASH
    ensures var x := ExtractMatches(H, |txids|, vBits, vHash, false);
            && |x.indices| == |x.matches|
            && (forall k :: 0 <= k < |x.indices| ==> x.indices[k] < |txids| && txids[x.indices[k]] == x.matches[k])
            && (forall i, j :: 0 <= i < j < |x.indices| ==> x.indices[i] < x.indices[j])
  {
    var n, h := |txids|, Height(|txids|);
    var none := seq(n, i => false);
    var t := BlockTree(txids, none);
    var c := Cursor(0, 0, [], [], false);
    RootFacts(H, txids, none);
    DecodeByShape(H, t, ShapeAt(n, h, 0), vBits, vHash, c);
    var ix := DecodeSound(H, t, txids, 0, Lo(h, 1), vBits, vHash, c);
  }
}
