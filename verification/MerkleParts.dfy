/**
 Which partial Merkle trees ExtractMatches accepts. A `Part` is a tree cut off at some of its
 nodes; flag bits and hashes are accepted exactly if they spell one that fits the number of
 transactions and has no node with two equal children.
 */
module MerkleParts {
  import opened MerkleBlock

  /** A tree cut off: a stub has a bit and a hash, and only at a leaf may the bit be set. */
  datatype Part = Stub(bit: bool, hash: Hash) | One(child: Part) | Two(left: Part, right: Part)

  predicate Fits(p: Part, t: Tree) {
    match p
    case Stub(bit, _) => t.Leaf? || !bit
    case One(child) => t.Only? && Fits(child, t.child)
    case Two(left, right) => t.Both? && Fits(left, t.left) && Fits(right, t.right)
  }

  /** The bits and hashes of a part, in the order of a walk through it. */
  function Spelled(p: Part): Piece {
    match p
    case Stub(bit, hash) => Piece([bit], [hash])
    case One(child) => Piece([true] + Spelled(child).bits, Spelled(child).hashes)
    case Two(left, right) =>
      Piece([true] + (Spelled(left).bits + Spelled(right).bits), Spelled(left).hashes + Spelled(right).hashes)
  }

  function PartRoot(H: Combine, p: Part): Hash {
    match p
    case Stub(_, hash) => hash
    case One(child) => H(PartRoot(H, child), PartRoot(H, child))
    case Two(left, right) => H(PartRoot(H, left), PartRoot(H, right))
  }

  /** No node has two children of equal hash. */
  predicate Untwinned(H: Combine, p: Part) {
    match p
    case Stub(_, _) => true
    case One(child) => Untwinned(H, child)
    case Two(left, right) => Untwinned(H, left) && Untwinned(H, right) && PartRoot(H, left) != PartRoot(H, right)
  }

  /** The leaves whose bit is set, from left to right, with their positions. */
  function Told(p: Part, t: Tree): seq<Tree>
    requires Fits(p, t)
  {
    match p
    case Stub(bit, hash) => if bit then [Leaf(hash, true, t.index)] else []
    case One(child) => Told(child, t.child)
    case Two(left, right) => Told(left, t.left) + Told(right, t.right)
  }

  // ---------------------------------------------------------------- parts are read

  lemma {:induction false} ReadOne(child: Piece, found: seq<Tree>, c: Cursor, d: Cursor)
    requires ReadBack(child, found, c.(bits := c.bits + 1), d)
    ensures ReadBack(Piece([true] + child.bits, child.hashes), found, c, d)
  {
  }

  lemma {:induction false} ReadStub(
    H: Combine, bit: bool, hash: Hash, t: Tree, vBits: seq<bool>, vHash: seq<Hash>, c: Cursor)
    requires t.Leaf? || !bit
    requires Occurs([bit], vBits, c.bits) && Occurs([hash], vHash, c.hashes)
    ensures Decode(H, t, vBits, vHash, c).hash == hash
    ensures ReadBack(Piece([bit], [hash]), Told(Stub(bit, hash), t), c, Decode(H, t, vBits, vHash, c).c)
  {
    assert [bit] + [] == [bit] && [hash] + [] == [hash];
    OccursHead(bit, [], vBits, c.bits);
    OccursHead(hash, [], vHash, c.hashes);
  }

  /** What spells a part is read as that part. */
  lemma {:induction false} PartIsRead(
    H: Combine, p: Part, t: Tree, vBits: seq<bool>, vHash: seq<Hash>, c: Cursor)
    requires Fits(p, t) && Untwinned(H, p)
    requires Occurs(Spelled(p).bits, vBits, c.bits) && Occurs(Spelled(p).hashes, vHash, c.hashes)
    ensures Decode(H, t, vBits, vHash, c).hash == PartRoot(H, p)
    ensures ReadBack(Spelled(p), Told(p, t), c, Decode(H, t, vBits, vHash, c).c)
    decreases p
  {
    match p
    case Stub(bit, hash) => ReadStub(H, bit, hash, t, vBits, vHash, c);
    case One(child) =>
      var d := c.(bits := c.bits + 1);
      OccursHead(true, Spelled(child).bits, vBits, c.bits);
      PartIsRead(H, child, t.child, vBits, vHash, d);
      ReadOne(Spelled(child), Told(child, t.child), c, Decode(H, t.child, vBits, vHash, d).c);
    case Two(left, right) => TwoAreRead(H, left, right, t.left, t.right, vBits, vHash, c);
  }

  lemma {:induction false} TwoAreRead(
    H: Combine, p: Part, q: Part, l: Tree, r: Tree, vBits: seq<bool>, vHash: seq<Hash>, c: Cursor)
    requires Fits(p, l) && Fits(q, r) && Untwinned(H, Two(p, q))
    requires Occurs([true] + (Spelled(p).bits + Spelled(q).bits), vBits, c.bits)
    requires Occurs(Spelled(p).hashes + Spelled(q).hashes, vHash, c.hashes)
    ensures Decode(H, Both(l, r), vBits, vHash, c).hash == H(PartRoot(H, p), PartRoot(H, q))
    ensures ReadBack(Spelled(Two(p, q)), Told(p, l) + Told(q, r), c, Decode(H, Both(l, r), vBits, vHash, c).c)
    decreases Two(p, q), 0
  {
    var x, y, d := Spelled(p), Spelled(q), c.(bits := c.bits + 1);
    OccursHead(true, x.bits + y.bits, vBits, c.bits);
    OccursConcat(x.bits, y.bits, vBits, d.bits);
    OccursConcat(x.hashes, y.hashes, vHash, d.hashes);
    var left := Decode(H, l, vBits, vHash, d);
    PartIsRead(H, p, l, vBits, vHash, d);
    var b := left.c;
    assert b.bits == d.bits + |x.bits| && b.hashes == d.hashes + |x.hashes|;
    var right := Decode(H, r, vBits, vHash, b);
    PartIsRead(H, q, r, vBits, vHash, b);
    ReadBoth(x, y, Told(p, l), Told(q, r), c, left.c, right.c);
    DecodeDescends(H, l, r, vBits, vHash, c, left, right);
  }

  // ---------------------------------------------------------------- what is read is a part

  /** Reading a subtree without trouble has read this part of it. */
  ghost predicate HasRead(
    H: Combine, p: Part, t: Tree, vBits: seq<bool>, vHash: seq<Hash>, c: Cursor, n: Node)
  {
    && Fits(p, t) && Untwinned(H, p) && n.hash == PartRoot(H, p)
    && Occurs(Spelled(p).bits, vBits, c.bits) && Occurs(Spelled(p).hashes, vHash, c.hashes)
    && ReadBack(Spelled(p), Told(p, t), c, n.c)
  }

  lemma {:induction false} OccursJoin<T>(a: seq<T>, b: seq<T>, whole: seq<T>, from: nat)
    requires Occurs(a, whole, from) && Occurs(b, whole, from + |a|)
    ensures Occurs(a + b, whole, from)
  {
    assert whole[from..from + |a + b|] == whole[from..from + |a|] + whole[from + |a|..from + |a| + |b|];
  }

  lemma {:induction false} OccursAt<T>(x: T, whole: seq<T>, from: nat)
    requires from < |whole| && whole[from] == x
    ensures Occurs([x], whole, from)
  {
  }

  lemma {:induction false} StubIsRead(H: Combine, t: Tree, vBits: seq<bool>, vHash: seq<Hash>, c: Cursor)
    requires c.bits < |vBits| && c.hashes < |vHash| && (t.Leaf? || !vBits[c.bits])
    ensures HasRead(H, Stub(vBits[c.bits], vHash[c.hashes]), t, vBits, vHash, c, Decode(H, t, vBits, vHash, c))
  {
    OccursAt(vBits[c.bits], vBits, c.bits);
    OccursAt(vHash[c.hashes], vHash, c.hashes);
    ReadStub(H, vBits[c.bits], vHash[c.hashes], t, vBits, vHash, c);
  }

  lemma {:induction false} OneIsRead(
    H: Combine, p: Part, t: Tree, vBits: seq<bool>, vHash: seq<Hash>, c: Cursor, n: Node)
    requires c.bits < |vBits| && vBits[c.bits] && HasRead(H, p, t, vBits, vHash, c.(bits := c.bits + 1), n)
    ensures HasRead(H, One(p), Only(t), vBits, vHash, c, Node(H(n.hash, n.hash), n.c))
  {
    OccursAt(true, vBits, c.bits);
    OccursJoin([true], Spelled(p).bits, vBits, c.bits);
    ReadOne(Spelled(p), Told(p, t), c, n.c);
  }

  lemma {:induction false} ReadIsPart(H: Combine, t: Tree, vBits: seq<bool>, vHash: seq<Hash>, c: Cursor)
    returns (p: Part)
    requires !Decode(H, t, vBits, vHash, c).c.bad
    ensures HasRead(H, p, t, vBits, vHash, c, Decode(H, t, vBits, vHash, c))
    decreases t
  {
    if t.Leaf? || !vBits[c.bits] {
      p := Stub(vBits[c.bits], vHash[c.hashes]);
      StubIsRead(H, t, vBits, vHash, c);
    } else if t.Only? {
      var child := ReadIsPart(H, t.child, vBits, vHash, c.(bits := c.bits + 1));
      p := One(child);
      OneIsRead(H, child, t.child, vBits, vHash, c, Decode(H, t.child, vBits, vHash, c.(bits := c.bits + 1)));
    } else {
      p := ReadIsTwo(H, t.left, t.right, vBits, vHash, c);
    }
  }

  lemma {:induction false} ReadIsTwo(
    H: Combine, l: Tree, r: Tree, vBits: seq<bool>, vHash: seq<Hash>, c: Cursor) returns (p: Part)
    requires c.bits < |vBits| && vBits[c.bits] && !Decode(H, Both(l, r), vBits, vHash, c).c.bad
    ensures HasRead(H, p, Both(l, r), vBits, vHash, c, Decode(H, Both(l, r), vBits, vHash, c))
    decreases Both(l, r), 0
  {
    var d := c.(bits := c.bits + 1);
    var left := Decode(H, l, vBits, vHash, d);
    var right := Decode(H, r, vBits, vHash, left.c);
    BadSticks(H, r, vBits, vHash, left.c);
    var a := ReadIsPart(H, l, vBits, vHash, d);
    var b := ReadIsPart(H, r, vBits, vHash, left.c);
    p := Two(a, b);
    ReadTwo(H, a, b, l, r, vBits, vHash, c, left, right);
    DecodeDescends(H, l, r, vBits, vHash, c, left, right);
  }

  lemma {:induction false} TwoOccur(x: Piece, y: Piece, vBits: seq<bool>, vHash: seq<Hash>, c: Cursor)
    requires c.bits < |vBits| && vBits[c.bits]
    requires Occurs(x.bits, vBits, c.bits + 1) && Occurs(y.bits, vBits, c.bits + 1 + |x.bits|)
    requires Occurs(x.hashes, vHash, c.hashes) && Occurs(y.hashes, vHash, c.hashes + |x.hashes|)
    ensures Occurs([true] + (x.bits + y.bits), vBits, c.bits) && Occurs(x.hashes + y.hashes, vHash, c.hashes)
  {
    OccursAt(true, vBits, c.bits);
    OccursJoin(x.bits, y.bits, vBits, c.bits + 1);
    OccursJoin([true], x.bits + y.bits, vBits, c.bits);
    OccursJoin(x.hashes, y.hashes, vHash, c.hashes);
  }

  lemma {:induction false} ReadTwo(
    H: Combine, a: Part, b: Part, l: Tree, r: Tree, vBits: seq<bool>, vHash: seq<Hash>, c: Cursor,
    left: Node, right: Node)
    requires c.bits < |vBits| && vBits[c.bits] && left.hash != right.hash
    requires HasRead(H, a, l, vBits, vHash, c.(bits := c.bits + 1), left)
    requires HasRead(H, b, r, vBits, vHash, left.c, right)
    ensures HasRead(H, Two(a, b), Both(l, r), vBits, vHash, c, Node(H(left.hash, right.hash), right.c))
  {
    var x, y := Spelled(a), Spelled(b);
    TwoOccur(x, y, vBits, vHash, c);
    ReadBoth(x, y, Told(a, l), Told(b, r), c, left.c, right.c);
  }

  // ---------------------------------------------------------------- ExtractMatches

  /** A part of a tree for n transactions is all there is in the bits, but for their padding, and the hashes. */
  ghost predicate IsProof(H: Combine, n: nat, vBits: seq<bool>, vHash: seq<Hash>, p: Part) {
    && 0 < n <= 16666 && |vHash| <= n && |vHash| <= |vBits|
    && Fits(p, ShapeAt(n, Height(n), 0)) && Untwinned(H, p)
    && Spelled(p).hashes == vHash && Spelled(p).bits <= vBits
    && (|Spelled(p).bits| + 7) / 8 == (|vBits| + 7) / 8
  }

  /** Such a proof is accepted: its root is returned, with the leaves it tells of. */
  lemma {:induction false} ProofAccepted(H: Combine, n: nat, vBits: seq<bool>, vHash: seq<Hash>, p: Part)
    requires IsProof(H, n, vBits, vHash, p)
    ensures var told := Told(p, ShapeAt(n, Height(n), 0));
      ExtractMatches(H, n, vBits, vHash, false) == Extraction(PartRoot(H, p), Ids(told), Indices(told), false)
  {
    var c := Cursor(0, 0, [], [], false);
    assert Occurs(Spelled(p).bits, vBits, 0) && Occurs(Spelled(p).hashes, vHash, 0);
    PartIsRead(H, p, ShapeAt(n, Height(n), 0), vBits, vHash, c);
  }

  /** And nothing else is: whatever yields a root is a proof. */
  lemma {:induction false} AcceptedIsProof(H: Combine, n: nat, vBits: seq<bool>, vHash: seq<Hash>) returns (p: Part)
    requires ExtractMatches(H, n, vBits, vHash, false).root != NULL_HASH
    ensures IsProof(H, n, vBits, vHash, p)
  {
    var c := Cursor(0, 0, [], [], false);
    p := ReadIsPart(H, ShapeAt(n, Height(n), 0), vBits, vHash, c);
    assert Spelled(p).hashes == vHash[0..|vHash|] == vHash;
    assert Spelled(p).bits == vBits[0..|Spelled(p).bits|] == vBits[..|Spelled(p).bits|];
  }
}
