/**
 The checksum of Bech32 and Bech32m (BIP 173, section "Checksum"; BIP 350): the remainder of a
 polynomial over GF(32), held in 30 bits. Here a word is the sequence of its 30 bits, least
 significant first, and a symbol the sequence of its five bits; Bech32Words shows that the
 computation on 32-bit words is the same.

 Every step is linear over GF(2), and one to one if the generator is suitable. So a change
 confined to six consecutive symbols always changes the checksum, whatever the length, and
 there is exactly one choice of six final symbols that sets it to a given constant.
 */
module Bech32Checksum {

  const BITS := 30
  const WIDTH := 5
  const CHECKSUM := 6

  type Bits = s: seq<bool> | |s| == BITS witness seq(BITS, i => false)
  type Symbol = s: seq<bool> | |s| == WIDTH witness seq(WIDTH, i => false)

  /** The remainder of x^6, times the powers of two below 32. */
  datatype Generator = Generator(k0: Bits, k1: Bits, k2: Bits, k3: Bits, k4: Bits)

  // ---------------------------------------------------------------- one step

  function Zero(): Bits {
    seq(BITS, i => false)
  }

  function ZeroSymbol(): Symbol {
    seq(WIDTH, i => false)
  }

  function Xor(a: Bits, b: Bits): Bits {
    seq(BITS, i requires 0 <= i < BITS => a[i] != b[i])
  }

  function XorSymbol(a: Symbol, b: Symbol): Symbol {
    seq(WIDTH, i requires 0 <= i < WIDTH => a[i] != b[i])
  }

  /** Multiplication by x before reduction: the symbol enters below and five bits leave above. */
  function Shifted(c: Bits, v: Symbol): Bits {
    v + c[..BITS - WIDTH]
  }

  /** One bit of the sum of the constants chosen by the five bits that left. */
  function FoldBit(c: Bits, k0: bool, k1: bool, k2: bool, k3: bool, k4: bool): bool {
    ((((c[25] && k0) != (c[26] && k1)) != (c[27] && k2)) != (c[28] && k3)) != (c[29] && k4)
  }

  function Fold(g: Generator, c: Bits): Bits {
    seq(BITS, i requires 0 <= i < BITS => FoldBit(c, g.k0[i], g.k1[i], g.k2[i], g.k3[i], g.k4[i]))
  }

  /** The body of the loop of PolyMod. */
  function Step(g: Generator, c: Bits, v: Symbol): Bits {
    Xor(Shifted(c, v), Fold(g, c))
  }

  lemma {:induction false} FoldBitLinear(c: Bits, d: Bits, k0: bool, k1: bool, k2: bool, k3: bool, k4: bool)
    ensures FoldBit(Xor(c, d), k0, k1, k2, k3, k4) == (FoldBit(c, k0, k1, k2, k3, k4) != FoldBit(d, k0, k1, k2, k3, k4))
  {
  }

  lemma {:induction false} FoldLinear(g: Generator, c: Bits, d: Bits)
    ensures Fold(g, Xor(c, d)) == Xor(Fold(g, c), Fold(g, d))
  {
    forall i | 0 <= i < BITS ensures Fold(g, Xor(c, d))[i] == Xor(Fold(g, c), Fold(g, d))[i] {
      FoldBitLinear(c, d, g.k0[i], g.k1[i], g.k2[i], g.k3[i], g.k4[i]);
    }
  }

  lemma {:induction false} XorSwap(a: Bits, b: Bits, f: Bits, g: Bits)
    ensures Xor(Xor(a, b), Xor(f, g)) == Xor(Xor(a, f), Xor(b, g))
  {
  }

  lemma {:induction false} ShiftedLinear(c: Bits, d: Bits, v: Symbol, w: Symbol)
    ensures Shifted(Xor(c, d), XorSymbol(v, w)) == Xor(Shifted(c, v), Shifted(d, w))
  {
  }

  lemma {:induction false} StepLinear(g: Generator, c: Bits, d: Bits, v: Symbol, w: Symbol)
    ensures Step(g, Xor(c, d), XorSymbol(v, w)) == Xor(Step(g, c, v), Step(g, d, w))
  {
    ShiftedLinear(c, d, v, w);
    FoldLinear(g, c, d);
    XorSwap(Shifted(c, v), Shifted(d, w), Fold(g, c), Fold(g, d));
  }

  // ---------------------------------------------------------------- words that are not lost

  predicate TopClear(c: Bits) {
    !c[25] && !c[26] && !c[27] && !c[28] && !c[29]
  }

  /** The constants differ enough in their low bits to tell which of them were added. */
  ghost predicate Suitable(g: Generator) {
    forall c: Bits :: (forall i :: 0 <= i < WIDTH ==> !Fold(g, c)[i]) ==> TopClear(c)
  }

  lemma {:induction false} FoldClear(g: Generator, c: Bits)
    requires TopClear(c)
    ensures Fold(g, c) == Zero() && Step(g, c, ZeroSymbol()) == Shifted(c, ZeroSymbol())
  {
  }

  /** While nothing leaves above, symbols are just stacked up. */
  lemma {:induction false} StepClear(g: Generator, c: Bits, v: Symbol)
    requires TopClear(c)
    ensures Step(g, c, v) == Shifted(c, v)
  {
    FoldClear(g, c);
  }

  /** A zero symbol takes only the zero word to zero. */
  lemma {:induction false} StepKernel(g: Generator, c: Bits)
    requires Suitable(g) && Step(g, c, ZeroSymbol()) == Zero()
    ensures c == Zero()
  {
    forall i | 0 <= i < WIDTH ensures !Fold(g, c)[i] {
      assert Step(g, c, ZeroSymbol())[i] == Zero()[i];
    }
    FoldClear(g, c);
    forall i | 0 <= i < BITS - WIDTH ensures !c[i] {
      assert Shifted(c, ZeroSymbol())[i + WIDTH] == c[i];
    }
  }

  // ---------------------------------------------------------------- whole sequences

  /** The word after some symbols, from a given word on. */
  function PolyMod(g: Generator, c: Bits, v: seq<Symbol>): Bits {
    if v == [] then c else Step(g, PolyMod(g, c, v[..|v| - 1]), v[|v| - 1])
  }

  function XorAll(v: seq<Symbol>, w: seq<Symbol>): seq<Symbol>
    requires |v| == |w|
  {
    seq(|v|, i requires 0 <= i < |v| == |w| => XorSymbol(v[i], w[i]))
  }

  lemma {:induction false} PolyModLinear(g: Generator, c: Bits, d: Bits, v: seq<Symbol>, w: seq<Symbol>)
    requires |v| == |w|
    ensures PolyMod(g, Xor(c, d), XorAll(v, w)) == Xor(PolyMod(g, c, v), PolyMod(g, d, w))
  {
    if v != [] {
      var n := |v| - 1;
      assert XorAll(v, w)[..n] == XorAll(v[..n], w[..n]);
      PolyModLinear(g, c, d, v[..n], w[..n]);
      StepLinear(g, PolyMod(g, c, v[..n]), PolyMod(g, d, w[..n]), v[n], w[n]);
    }
  }

  lemma {:induction false} PolyModSplit(g: Generator, c: Bits, v: seq<Symbol>, w: seq<Symbol>)
    ensures PolyMod(g, c, v + w) == PolyMod(g, PolyMod(g, c, v), w)
  {
    if w == [] {
      assert v + w == v;
    } else {
      var n := |w| - 1;
      assert (v + w)[..|v + w| - 1] == v + w[..n];
      PolyModSplit(g, c, v, w[..n]);
    }
  }

  ghost predicate AllZero(v: seq<Symbol>) {
    forall i :: 0 <= i < |v| ==> v[i] == ZeroSymbol()
  }

  /** Zero symbols never make a word vanish, and never make one appear. */
  lemma {:induction false} ZerosKeep(g: Generator, c: Bits, v: seq<Symbol>)
    requires Suitable(g) && AllZero(v)
    ensures PolyMod(g, c, v) == Zero() <==> c == Zero()
  {
    if v != [] {
      ZerosKeep(g, c, v[..|v| - 1]);
      var m := PolyMod(g, c, v[..|v| - 1]);
      if Step(g, m, ZeroSymbol()) == Zero() {
        StepKernel(g, m);
      }
      if m == Zero() {
        ZeroStep(g);
      }
    }
  }

  lemma {:induction false} ZeroStep(g: Generator)
    ensures Step(g, Zero(), ZeroSymbol()) == Zero()
  {
    FoldClear(g, Zero());
  }

  /** Symbols put together, the first in the highest place. */
  function Pack(v: seq<Symbol>): (s: seq<bool>)
    ensures |s| == WIDTH * |v|
  {
    if v == [] then [] else v[|v| - 1] + Pack(v[..|v| - 1])
  }

  function Zeros(n: nat): seq<bool> {
    seq(n, i => false)
  }

  lemma {:induction false} StackOne(g: Generator, p: seq<bool>, c: Bits, v: Symbol)
    requires |p| <= BITS - WIDTH && c == p + Zeros(BITS - |p|)
    ensures Step(g, c, v) == (v + p) + Zeros(BITS - WIDTH - |p|)
  {
    StepClear(g, c, v);
    assert c[..BITS - WIDTH] == p + Zeros(BITS - WIDTH - |p|);
  }

  /** From the zero word, up to six symbols are stacked up unchanged. */
  lemma {:induction false} Stacked(g: Generator, v: seq<Symbol>)
    requires |v| <= CHECKSUM
    ensures PolyMod(g, Zero(), v) == Pack(v) + Zeros(BITS - WIDTH * |v|)
  {
    if v == [] {
      assert Pack(v) + Zeros(BITS) == Zero();
    } else {
      Stacked(g, v[..|v| - 1]);
      StackOne(g, Pack(v[..|v| - 1]), PolyMod(g, Zero(), v[..|v| - 1]), v[|v| - 1]);
    }
  }

  /** Six symbols from the zero word: they can be read off the word. */
  lemma {:induction false} SixSymbols(g: Generator, v: seq<Symbol>)
    requires |v| == CHECKSUM
    ensures PolyMod(g, Zero(), v) == Pack(v)
  {
    Stacked(g, v);
    assert Pack(v) + Zeros(0) == Pack(v);
  }

  /** The six symbols of a word, as CreateChecksum takes them out. */
  function Unpack(c: Bits): seq<Symbol> {
    [c[25..30], c[20..25], c[15..20], c[10..15], c[5..10], c[0..5]]
  }

  lemma {:induction false} PackUnpack(c: Bits)
    ensures Pack(Unpack(c)) == c
  {
    var v := Unpack(c);
    assert v[..5][..4] == v[..4] && v[..4][..3] == v[..3] && v[..3][..2] == v[..2] && v[..2][..1] == v[..1];
    assert Pack(v[..1]) == c[25..30] by { assert v[..1][..0] == []; }
    assert Pack(v[..2]) == c[20..30] by { assert v[..2][1] == c[20..25]; }
    assert Pack(v[..3]) == c[15..30] by { assert v[..3][2] == c[15..20]; }
    assert Pack(v[..4]) == c[10..30] by { assert v[..4][3] == c[10..15]; }
    assert Pack(v[..5]) == c[5..30] by { assert v[..5][4] == c[5..10]; }
  }

  lemma {:induction false} PackOne(v: seq<Symbol>, k: nat)
    requires k < |v| && v[k] != ZeroSymbol()
    ensures exists i :: 0 <= i < |Pack(v)| && Pack(v)[i]
  {
    var n := |v| - 1;
    if k == n {
      var i :| 0 <= i < WIDTH && v[n][i];
      assert Pack(v)[i];
    } else {
      PackOne(v[..n], k);
      var i :| 0 <= i < |Pack(v[..n])| && Pack(v[..n])[i];
      assert Pack(v)[WIDTH + i];
    }
  }

  // ---------------------------------------------------------------- the theorems

  lemma {:induction false} XorFacts(c: Bits, d: Bits)
    ensures Xor(c, c) == Zero() && Xor(c, Zero()) == c && Xor(Zero(), c) == c && Xor(Xor(c, d), c) == d
    ensures Xor(c, d) == Zero() ==> c == d
  {
    if Xor(c, d) == Zero() {
      forall i | 0 <= i < BITS ensures c[i] == d[i] {
        assert Xor(c, d)[i] == Zero()[i];
      }
    }
  }

  lemma {:induction false} XorSymbolFacts(a: Symbol, b: Symbol)
    ensures XorSymbol(a, b) == ZeroSymbol() <==> a == b
  {
    if XorSymbol(a, b) == ZeroSymbol() {
      forall i | 0 <= i < WIDTH ensures a[i] == b[i] {
        assert XorSymbol(a, b)[i] == ZeroSymbol()[i];
      }
    }
  }

  /** A difference within six symbols, and zeros after them, is still there in the word. */
  lemma {:induction false} BurstShows(g: Generator, v: seq<Symbol>, rest: seq<Symbol>, k: nat)
    requires Suitable(g) && k < |v| <= CHECKSUM && v[k] != ZeroSymbol() && AllZero(rest)
    ensures PolyMod(g, Zero(), v + rest) != Zero()
  {
    Stacked(g, v);
    PackOne(v, k);
    var i :| 0 <= i < |Pack(v)| && Pack(v)[i];
    assert PolyMod(g, Zero(), v)[i];
    PolyModSplit(g, Zero(), v, rest);
    ZerosKeep(g, PolyMod(g, Zero(), v), rest);
  }

  lemma {:induction false} DifferenceShows(
    g: Generator, before: seq<Symbol>, burst: seq<Symbol>, rest: seq<Symbol>, k: nat)
    requires Suitable(g) && AllZero(before) && AllZero(rest) && k < |burst| <= CHECKSUM && burst[k] != ZeroSymbol()
    ensures PolyMod(g, Zero(), before + (burst + rest)) != Zero()
  {
    PolyModSplit(g, Zero(), before, burst + rest);
    ZerosKeep(g, Zero(), before);
    BurstShows(g, burst, rest, k);
  }

  lemma {:induction false} Windows(d: seq<Symbol>, start: nat, end: nat)
    requires start <= end <= |d| && forall i :: 0 <= i < |d| && !(start <= i < end) ==> d[i] == ZeroSymbol()
    ensures d == d[..start] + (d[start..end] + d[end..]) && AllZero(d[..start]) && AllZero(d[end..])
  {
  }

  lemma {:induction false} WindowShows(g: Generator, d: seq<Symbol>, start: nat, end: nat, k: nat)
    requires Suitable(g) && start <= k < end <= |d| && end <= start + CHECKSUM && d[k] != ZeroSymbol()
    requires forall i :: 0 <= i < |d| && !(start <= i < end) ==> d[i] == ZeroSymbol()
    ensures PolyMod(g, Zero(), d) != Zero()
  {
    Windows(d, start, end);
    assert d[start..end][k - start] == d[k];
    DifferenceShows(g, d[..start], d[start..end], d[end..], k - start);
  }

  lemma {:induction false} SumZero(g: Generator, c: Bits, v: seq<Symbol>, w: seq<Symbol>)
    requires |v| == |w| && PolyMod(g, c, v) == PolyMod(g, c, w)
    ensures PolyMod(g, Zero(), XorAll(v, w)) == Zero()
  {
    PolyModLinear(g, c, c, v, w);
    XorFacts(c, c);
    XorFacts(PolyMod(g, c, v), PolyMod(g, c, w));
  }

  /**
   Two sequences of the same length that differ, and only within six consecutive places, have
   different words, from whatever word they start.
   */
  lemma {:induction false} BurstDetected(g: Generator, c: Bits, v: seq<Symbol>, w: seq<Symbol>, start: nat)
    requires Suitable(g) && |v| == |w| && v != w
    requires forall i :: 0 <= i < |v| && v[i] != w[i] ==> start <= i < start + CHECKSUM
    ensures PolyMod(g, c, v) != PolyMod(g, c, w)
  {
    var d := XorAll(v, w);
    forall i | 0 <= i < |d| ensures d[i] == ZeroSymbol() <==> v[i] == w[i] {
      XorSymbolFacts(v[i], w[i]);
    }
    var k :| 0 <= k < |v| && v[k] != w[k];
    WindowShows(g, d, start, if start + CHECKSUM < |d| then start + CHECKSUM else |d|, k);
    if PolyMod(g, c, v) == PolyMod(g, c, w) {
      SumZero(g, c, v, w);
    }
  }

  /** Six symbols that are the difference from a target, put in the place of six zeros, reach the target. */
  lemma {:induction false} ChecksumReaches(g: Generator, c: Bits, target: Bits, zeros: seq<Symbol>)
    requires |zeros| == CHECKSUM && AllZero(zeros)
    ensures PolyMod(g, c, Unpack(Xor(PolyMod(g, c, zeros), target))) == target
  {
    var m := PolyMod(g, c, zeros);
    var s := Unpack(Xor(m, target));
    PolyModLinear(g, c, Zero(), zeros, s);
    XorFacts(c, c);
    forall i | 0 <= i < CHECKSUM ensures XorAll(zeros, s)[i] == s[i] {
      assert zeros[i] == ZeroSymbol();
    }
    assert XorAll(zeros, s) == s;
    SixSymbols(g, s);
    PackUnpack(Xor(m, target));
    XorBack(m, target);
  }

  lemma {:induction false} XorBack(m: Bits, t: Bits)
    ensures Xor(m, Xor(m, t)) == t
  {
  }

  /** No other six symbols reach it. */
  lemma {:induction false} ChecksumUnique(g: Generator, c: Bits, v: seq<Symbol>, w: seq<Symbol>)
    requires Suitable(g) && |v| == |w| == CHECKSUM && PolyMod(g, c, v) == PolyMod(g, c, w)
    ensures v == w
  {
    if v != w {
      BurstDetected(g, c, v, w, 0);
    }
  }
}
