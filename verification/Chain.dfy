/**
 The block index: blocks linked to their predecessors, each with a skip pointer to some earlier
 block, and the active chain as a vector. Following skip pointers finds the same ancestor as
 walking back one block at a time, and so every search that uses them finds what a plain walk
 would.
 */
module Chain {
  import opened Numbers
  import opened SkipHeights

  // ---------------------------------------------------------------- blocks

  class BlockIndex {
    const pprev: BlockIndex?
    const nHeight: nat
    const hash: nat
    var pskip: BlockIndex?

    constructor (prev: BlockIndex?, hash: nat)
      requires prev != null ==> Linked(prev)
      ensures pprev == prev && this.hash == hash && pskip == null && Linked(this)
    {
      pprev := prev;
      nHeight := if prev == null then 0 else prev.nHeight + 1;
      this.hash := hash;
      pskip := null;
    }

    /** GetAncestor, by way of the skip pointers; `n` counts the rounds of its loop. */
    method GetAncestor(height: int, ghost tree: set<BlockIndex>) returns (r: BlockIndex?, ghost n: nat)
      requires this in tree && Tree(tree)
      ensures r == null <==> height < 0 || height > nHeight
      ensures r != null ==> Linked(this) && r == Walk(this, height) && n <= nHeight - height
      ensures r != null && Built(tree) ==> n == Rounds(nHeight, height)
    {
      n := 0;
      if height > nHeight || height < 0 { return null, n; }
      var walk, heightWalk := this, nHeight;
      while heightWalk > height
        invariant walk in tree && height <= heightWalk == walk.nHeight <= nHeight && walk == Walk(this, heightWalk)
        invariant n <= nHeight - heightWalk
        invariant Built(tree) ==> n + Rounds(heightWalk, height) == Rounds(nHeight, height)
      {
        walk := walk.OneRound(height, this, tree);
        heightWalk := walk.nHeight;
        n := n + 1;
      }
      return walk, n;
    }

    /** The body of its loop. */
    method OneRound(height: nat, ghost start: BlockIndex, ghost tree: set<BlockIndex>) returns (r: BlockIndex)
      requires this in tree && Tree(tree) && height < nHeight
      requires Linked(start) && nHeight <= start.nHeight && this == Walk(start, nHeight)
      ensures r in tree && height <= r.nHeight < nHeight && r == Walk(start, r.nHeight)
      ensures pskip != null ==> r.nHeight == Round(nHeight, height)
    {
      var heightSkip := GetSkipHeight(nHeight);
      var heightSkipPrev := GetSkipHeight(nHeight - 1);
      if pskip != null
         && (heightSkip == height
             || (heightSkip > height && !(heightSkipPrev < heightSkip - 2 && heightSkipPrev >= height)))
      {
        WalkWalk(start, nHeight, heightSkip);
        WalkInTree(this, heightSkip, tree);
        return pskip;
      } else {
        WalkWalk(start, nHeight, nHeight - 1);
        return pprev;
      }
    }

    /** BuildSkip. */
    method BuildSkip(ghost tree: set<BlockIndex>)
      requires this in tree && Tree(tree)
      modifies this`pskip
      ensures Tree(tree) && (pprev != null ==> pskip == Walk(this, GetSkipHeight(nHeight)))
    {
      if pprev != null {
        ghost var n;
        pskip, n := pprev.GetAncestor(GetSkipHeight(nHeight), tree);
      }
    }
  }

  /** BuildSkip has been called for every block with a predecessor. */
  ghost predicate Built(tree: set<BlockIndex>)
    reads tree
  {
    forall b :: b in tree && b.pprev != null ==> b.pskip != null
  }

  /** A block follows its predecessor, and the first has height zero. */
  ghost predicate Linked(b: BlockIndex)
    decreases b.nHeight
  {
    if b.pprev == null then b.nHeight == 0
    else b.nHeight == b.pprev.nHeight + 1 && Linked(b.pprev)
  }

  /** The ancestor at a height, found one block at a time. */
  ghost function Walk(b: BlockIndex, height: nat): (r: BlockIndex)
    requires Linked(b) && height <= b.nHeight
    ensures Linked(r) && r.nHeight == height
    decreases b.nHeight
  {
    if height == b.nHeight then b else Walk(b.pprev, height)
  }

  lemma {:induction false} WalkWalk(b: BlockIndex, h: nat, k: nat)
    requires Linked(b) && k <= h <= b.nHeight
    ensures Walk(Walk(b, h), k) == Walk(b, k)
    decreases b.nHeight
  {
    if h < b.nHeight {
      WalkWalk(b.pprev, h, k);
    }
  }

  /** Blocks closed under predecessors, whose skip pointers lead where they should or are not set. */
  ghost predicate Tree(tree: set<BlockIndex>)
    reads tree
  {
    forall b :: b in tree ==>
      && Linked(b) && (b.pprev != null ==> b.pprev in tree)
      && (b.pskip != null ==> b.pskip == Walk(b, GetSkipHeight(b.nHeight)))
  }

  lemma {:induction false} WalkInTree(b: BlockIndex, h: nat, tree: set<BlockIndex>)
    requires b in tree && Tree(tree) && h <= b.nHeight
    ensures Walk(b, h) in tree
    decreases b.nHeight
  {
    if h < b.nHeight {
      WalkInTree(b.pprev, h, tree);
    }
  }

  /** One block is an ancestor of another, or the block itself. */
  ghost predicate Above(a: BlockIndex, b: BlockIndex)
    requires Linked(b)
  {
    a.nHeight <= b.nHeight && Walk(b, a.nHeight) == a
  }

  // ---------------------------------------------------------------- common ancestors

  /** Two blocks have the same ancestor at a height. */
  ghost predicate MeetAt(a: BlockIndex, b: BlockIndex, h: nat)
    requires Linked(a) && Linked(b)
  {
    h <= a.nHeight && h <= b.nHeight && Walk(a, h) == Walk(b, h)
  }

  /** The highest block that is above two others; null if there is none. */
  ghost predicate HighestCommon(r: BlockIndex?, a: BlockIndex, b: BlockIndex)
    requires Linked(a) && Linked(b)
  {
    && (r != null ==> Above(r, a) && Above(r, b))
    && (forall h: nat :: MeetAt(a, b, h) ==> r != null && h <= r.nHeight)
  }

  /** A search down from two blocks has reached height k without meeting above it. */
  ghost predicate Descending(a: BlockIndex, b: BlockIndex, pa: BlockIndex?, pb: BlockIndex?, k: int)
    requires Linked(a) && Linked(b)
  {
    var inRange := -1 <= k <= a.nHeight && k <= b.nHeight;
    && inRange && (if k == -1 then pa == null && pb == null else pa == Walk(a, k) && pb == Walk(b, k))
    && (forall h: nat :: MeetAt(a, b, h) ==> h <= k)
  }

  ghost function OnWalk(b: BlockIndex, k: int): BlockIndex?
    requires Linked(b) && k <= b.nHeight
  {
    if k < 0 then null else Walk(b, k)
  }

  lemma {:induction false} DescendStep(a: BlockIndex, b: BlockIndex, pa: BlockIndex, pb: BlockIndex, k: int)
    requires Linked(a) && Linked(b) && Descending(a, b, pa, pb, k) && pa != pb
    ensures Descending(a, b, pa.pprev, pb.pprev, k - 1)
  {
    if k > 0 {
      WalkWalk(a, k, k - 1);
      WalkWalk(b, k, k - 1);
    }
    forall h: nat | MeetAt(a, b, h) ensures h <= k - 1 {
    }
  }

  lemma {:induction false} DescendEnd(a: BlockIndex, b: BlockIndex, p: BlockIndex?, k: int)
    requires Linked(a) && Linked(b) && Descending(a, b, p, p, k)
    ensures HighestCommon(p, a, b)
  {
  }

  /** LastCommonAncestor. */
  method LastCommonAncestor(a: BlockIndex, b: BlockIndex, ghost tree: set<BlockIndex>) returns (r: BlockIndex?)
    requires a in tree && b in tree && Tree(tree)
    ensures HighestCommon(r, a, b)
  {
    var pa: BlockIndex?, pb: BlockIndex? := a, b;
    ghost var n;
    if a.nHeight > b.nHeight {
      pa, n := a.GetAncestor(b.nHeight, tree);
    } else if b.nHeight > a.nHeight {
      pb, n := b.GetAncestor(a.nHeight, tree);
    }
    ghost var k: int := pa.nHeight;
    while pa != pb && pa != null && pb != null
      invariant Descending(a, b, pa, pb, k)
      decreases k
    {
      DescendStep(a, b, pa, pb, k);
      pa := pa.pprev;
      pb := pb.pprev;
      k := k - 1;
    }
    DescendEnd(a, b, pa, k);
    return pa;
  }

  // ---------------------------------------------------------------- locators

  /** How far below its start a locator has got after n entries, and the size of the next step. */
  function Depth(n: nat): nat {
    if n <= 11 then n else 9 + Pow2(n - 10)
  }

  function StepAfter(n: nat): nat {
    if n <= 10 then 1 else Pow2(n - 10)
  }

  lemma {:induction false} DepthStep(n: nat)
    ensures Depth(n + 1) == Depth(n) + StepAfter(n)
  {
    assert Pow2(1) == 2;
    assert Pow2(2) == 4;
  }

  /** The height reached after n entries, from a given height. */
  ghost predicate Reached(top: nat, n: nat, height: nat) {
    height == HeightAfter(top, n) && (n > 0 ==> top > Depth(n - 1))
  }

  /** The height of the n-th entry of a locator, the top being the 0-th. */
  function HeightAfter(top: nat, n: nat): nat {
    if top > Depth(n) then top - Depth(n) else 0
  }

  lemma {:induction false} ReachNext(top: nat, n: nat, height: nat, step: nat)
    requires Reached(top, n, height) && height > 0 && step == StepAfter(n)
    ensures Reached(top, n + 1, if height > step then height - step else 0)
    ensures StepAfter(n + 1) == if n + 1 > 10 then step * 2 else step
  {
    DepthStep(n);
    assert Pow2(1) == 2;
  }

  lemma {:induction false} ReachEnd(top: nat, n: nat)
    requires Reached(top, n, 0)
    ensures top <= 11 ==> n == top
    ensures n + 1 > 12 ==> Pow2(n + 1 - 12) + 9 < top
  {
    if n > 11 {
      assert Depth(n - 1) == 9 + Pow2(n - 11) || n == 12;
      assert Pow2(1) == 2;
    }
  }

  /** Entries are ancestors of a block, from the block itself downwards. */
  ghost predicate LocatorFor(have: seq<BlockIndex>, b: BlockIndex)
    requires Linked(b)
  {
    && (forall i :: 0 <= i < |have| ==> Above(have[i], b))
    && (forall i, j :: 0 <= i < j < |have| ==> have[i].nHeight > have[j].nHeight)
    && (forall i :: 0 <= i < |have| ==> have[i].nHeight == HeightAfter(b.nHeight, i))
    && (have != [] ==> have[0] == b)
  }

  /** A block that may come next in a locator. */
  ghost predicate MayFollow(have: seq<BlockIndex>, b: BlockIndex, index: BlockIndex)
    requires Linked(b)
  {
    && Above(index, b) && index.nHeight == HeightAfter(b.nHeight, |have|)
    && if have == [] then index == b else index.nHeight < have[|have| - 1].nHeight
  }

  lemma {:induction false} LocatorMore(have: seq<BlockIndex>, b: BlockIndex, index: BlockIndex)
    requires Linked(b) && LocatorFor(have, b) && MayFollow(have, b, index)
    ensures LocatorFor(have + [index], b)
  {
  }

  /** The loop of LocatorEntries, about to add a block. */
  ghost predicate Locating(have: seq<BlockIndex>, b: BlockIndex, index: BlockIndex, step: nat)
    requires Linked(b)
  {
    var n := |have|;
    LocatorFor(have, b) && MayFollow(have, b, index) && step == StepAfter(n) && Reached(b.nHeight, n, index.nHeight)
  }

  lemma {:induction false} LocateNext(
    have: seq<BlockIndex>, b: BlockIndex, index: BlockIndex, step: nat, next: BlockIndex)
    requires Linked(b) && Locating(have, b, index, step) && index.nHeight > 0 && Above(next, b)
    requires next.nHeight == if index.nHeight > step then index.nHeight - step else 0
    ensures Locating(have + [index], b, next, if |have| + 1 > 10 then step * 2 else step)
  {
    LocatorMore(have, b, index);
    ReachNext(b.nHeight, |have|, index.nHeight, step);
  }

  ghost predicate CompleteLocator(have: seq<BlockIndex>, b: BlockIndex)
    requires Linked(b)
  {
    var n := |have|;
    && n > 0 && LocatorFor(have, b) && have[n - 1].nHeight == 0 && (n > 1 ==> Depth(n - 2) < b.nHeight)
    && (b.nHeight <= 11 ==> n == b.nHeight + 1)
    && (n > 12 ==> Pow2(n - 12) + 9 < b.nHeight)
  }

  lemma {:induction false} LocateEnd(have: seq<BlockIndex>, b: BlockIndex, index: BlockIndex, step: nat)
    requires Linked(b) && Locating(have, b, index, step) && index.nHeight == 0
    ensures CompleteLocator(have + [index], b)
  {
    LocatorMore(have, b, index);
    ReachEnd(b.nHeight, |have|);
  }

  method StepBack(index: BlockIndex, step: nat, ghost b: BlockIndex, ghost tree: set<BlockIndex>)
    returns (r: BlockIndex)
    requires index in tree && Tree(tree) && Linked(b) && Above(index, b)
    ensures r in tree && Above(r, b) && r.nHeight == if index.nHeight > step then index.nHeight - step else 0
  {
    var height := if index.nHeight > step then index.nHeight - step else 0;
    WalkWalk(b, index.nHeight, height);
    WalkInTree(index, height, tree);
    ghost var n;
    r, n := index.GetAncestor(height, tree);
  }

  /**
   LocatorEntries: ten steps of one block, then steps that double, down to the first block. There
   are at most twelve entries more than the logarithm of the height.
   */
  method LocatorEntries(b: BlockIndex, ghost tree: set<BlockIndex>) returns (have: seq<BlockIndex>)
    requires b in tree && Tree(tree)
    ensures Linked(b) && CompleteLocator(have, b)
  {
    var step: nat := 1;
    have := [];
    var index := b;
    while index.nHeight > 0
      invariant index in tree && Locating(have, b, index, step)
      decreases index.nHeight
    {
      var next := StepBack(index, step, b, tree);
      LocateNext(have, b, index, step, next);
      have, index := have + [index], next;
      if |have| > 10 { step := step * 2; }
    }
    LocateEnd(have, b, index, step);
    have := have + [index];
  }

  // ---------------------------------------------------------------- the active chain

  /** A block with all its ancestors, from the first on. */
  ghost function Path(b: BlockIndex): (p: seq<BlockIndex?>)
    requires Linked(b)
    ensures |p| == b.nHeight + 1
  {
    seq(b.nHeight + 1, h requires 0 <= h <= b.nHeight && Linked(b) => Walk(b, h))
  }

  /** A vector that holds some block and all its ancestors, or nothing. */
  ghost predicate IsPath(v: seq<BlockIndex?>) {
    v != [] ==> v[|v| - 1] != null && Linked(v[|v| - 1]) && v == Path(v[|v| - 1])
  }

  /** SetTip has come down to the block at height k, which is still to be put in its place. */
  ghost predicate Filling(block: BlockIndex, was: seq<BlockIndex?>, v: seq<BlockIndex?>, pindex: BlockIndex?, k: int)
    requires Linked(block)
  {
    var size := block.nHeight + 1;
    && |v| == size && -1 <= k < size && (k == -1 <==> pindex == null) && (k >= 0 ==> pindex == Walk(block, k))
    && (forall h :: k < h < size ==> v[h] == Walk(block, h))
    && (forall h :: 0 <= h <= k ==> v[h] == if h < |was| then was[h] else null)
  }

  lemma {:induction false} FillStep(
    block: BlockIndex, was: seq<BlockIndex?>, v: seq<BlockIndex?>, pindex: BlockIndex, k: int)
    requires Linked(block) && Filling(block, was, v, pindex, k)
    ensures pindex.nHeight == k && Filling(block, was, v[k := pindex], pindex.pprev, k - 1)
  {
    if k > 0 {
      WalkWalk(block, k, k - 1);
    }
  }

  /** A block found in its place brings its ancestors with it. */
  lemma {:induction false} FillEnd(
    block: BlockIndex, was: seq<BlockIndex?>, v: seq<BlockIndex?>, pindex: BlockIndex?, k: int)
    requires Linked(block) && IsPath(was) && Filling(block, was, v, pindex, k) && (k >= 0 ==> v[k] == pindex)
    ensures v == Path(block)
  {
    forall h | 0 <= h <= k ensures v[h] == Walk(block, h) {
      WalkWalk(was[|was| - 1], k, h);
      WalkWalk(block, k, h);
    }
  }

  class ActiveChain {
    var vChain: seq<BlockIndex?>

    constructor ()
      ensures vChain == []
    {
      vChain := [];
    }

    method At(height: int) returns (r: BlockIndex?)
      ensures r == if 0 <= height < |vChain| then vChain[height] else null
    {
      if height < 0 || height >= |vChain| { return null; }
      return vChain[height];
    }

    /** Contains. */
    method Contains(b: BlockIndex) returns (r: bool)
      requires IsPath(vChain) && Linked(b)
      ensures r == (|vChain| > 0 && Above(b, vChain[|vChain| - 1]))
    {
      var there := At(b.nHeight);
      return there == b;
    }

    /** Next. */
    method Next(b: BlockIndex) returns (r: BlockIndex?)
      requires IsPath(vChain) && Linked(b)
      ensures r != null ==> |vChain| > 0 && r.pprev == b && Linked(r) && Above(r, vChain[|vChain| - 1])
      ensures r == null <==> |vChain| == 0 || !Above(b, vChain[|vChain| - 1]) || b == vChain[|vChain| - 1]
    {
      var here := Contains(b);
      if !here { return null; }
      r := At(b.nHeight + 1);
      if r != null {
        WalkWalk(vChain[|vChain| - 1], b.nHeight + 1, b.nHeight);
      }
    }

    /**
     SetTip: the vector is resized and filled from the new tip downwards, until a block is found
     to be in its place already.
     */
    method SetTip(block: BlockIndex)
      requires IsPath(vChain) && Linked(block)
      modifies this
      ensures vChain == Path(block)
    {
      ghost var was := vChain;
      var size := block.nHeight + 1;
      vChain := if |vChain| >= size then vChain[..size] else vChain + seq(size - |vChain|, i => null);
      var pindex: BlockIndex? := block;
      ghost var k: int := block.nHeight;
      while pindex != null && vChain[pindex.nHeight] != pindex
        invariant Filling(block, was, vChain, pindex, k)
        decreases k
      {
        FillStep(block, was, vChain, pindex, k);
        vChain := vChain[pindex.nHeight := pindex];
        pindex := pindex.pprev;
        k := k - 1;
      }
      FillEnd(block, was, vChain, pindex, k);
    }

    /** FindFork: the highest block of this chain that is above the given one. */
    method FindFork(b: BlockIndex, ghost tree: set<BlockIndex>) returns (r: BlockIndex?)
      requires IsPath(vChain) && b in tree && Tree(tree)
      ensures |vChain| == 0 ==> r == null
      ensures |vChain| > 0 ==> HighestCommon(r, b, vChain[|vChain| - 1])
    {
      var pindex: BlockIndex? := b;
      if b.nHeight > |vChain| - 1 {
        ghost var n;
        pindex, n := b.GetAncestor(|vChain| - 1, tree);
      }
      if |vChain| == 0 { return null; }
      ghost var tip := vChain[|vChain| - 1];
      ghost var k: int := pindex.nHeight;
      var here := Contains(pindex);
      while pindex != null && !here
        invariant Descending(b, tip, pindex, OnWalk(tip, k), k)
        invariant k >= 0 ==> here == (pindex == Walk(tip, k))
        decreases k
      {
        DescendStep(b, tip, pindex, Walk(tip, k), k);
        pindex := pindex.pprev;
        k := k - 1;
        if pindex != null {
          here := Contains(pindex);
        }
      }
      DescendEnd(b, tip, pindex, k);
      return pindex;
    }
  }
}
