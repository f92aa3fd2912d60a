/**
 The checksum as the node computes it, on 32-bit words, is the one of Bech32Checksum on bits.
 */
module Bech32Words {
  import opened Bech32Checksum

  type Word = bv32
  const LIMIT: Word := 0x4000_0000

  const K0: Word := 0x3b6a57b2
  const K1: Word := 0x26508e6d
  const K2: Word := 0x1ea119fa
  const K3: Word := 0x3d4233dd
  const K4: Word := 0x2a1462b3

  // ---------------------------------------------------------------- bits of words

  /** The word with only bit i set. */
  function Mask(i: nat): Word
    requires i < BITS
  {
    if i < 8 then
      if i == 0 then 0x1 else if i == 1 then 0x2 else if i == 2 then 0x4 else if i == 3 then 0x8
      else if i == 4 then 0x10 else if i == 5 then 0x20 else if i == 6 then 0x40 else 0x80
    else if i < 16 then
      if i == 8 then 0x100 else if i == 9 then 0x200 else if i == 10 then 0x400 else if i == 11 then 0x800
      else if i == 12 then 0x1000 else if i == 13 then 0x2000 else if i == 14 then 0x4000 else 0x8000
    else if i < 24 then
      if i == 16 then 0x1_0000 else if i == 17 then 0x2_0000 else if i == 18 then 0x4_0000 else if i == 19 then 0x8_0000
      else if i == 20 then 0x10_0000 else if i == 21 then 0x20_0000 else if i == 22 then 0x40_0000 else 0x80_0000
    else
      if i == 24 then 0x100_0000 else if i == 25 then 0x200_0000 else if i == 26 then 0x400_0000
      else if i == 27 then 0x800_0000 else if i == 28 then 0x1000_0000 else 0x2000_0000
  }

  predicate Has(w: Word, m: Word) {
    w & m != 0
  }

  predicate Single(m: Word) {
    m & (m - 1) == 0
  }

  lemma {:induction false} MaskSingle(i: nat)
    requires i < BITS
    ensures Single(Mask(i))
  {
  }

  lemma {:induction false} MaskShift(i: nat)
    requires WIDTH <= i < BITS
    ensures Mask(i) == Mask(i - WIDTH) << 5 && Mask(i - WIDTH) < 0x200_0000
  {
  }

  lemma {:induction false} HasXor(x: Word, y: Word, m: Word)
    requires Single(m)
    ensures Has(x ^ y, m) == (Has(x, m) != Has(y, m))
  {
  }

  /** The thirty low bits of a word. */
  function ToBits(w: Word): Bits {
    seq(BITS, i requires 0 <= i < BITS => Has(w, Mask(i)))
  }

  function ToSymbol(w: Word): Symbol {
    seq(WIDTH, i requires 0 <= i < WIDTH => Has(w, Mask(i)))
  }

  /** The generator of BIP 173. */
  function Bip173(): Generator {
    Generator(ToBits(K0), ToBits(K1), ToBits(K2), ToBits(K3), ToBits(K4))
  }

  lemma {:induction false} XorToBits(x: Word, y: Word)
    ensures ToBits(x ^ y) == Xor(ToBits(x), ToBits(y))
  {
    forall i | 0 <= i < BITS ensures ToBits(x ^ y)[i] == Xor(ToBits(x), ToBits(y))[i] {
      MaskSingle(i);
      HasXor(x, y, Mask(i));
    }
  }

  // ---------------------------------------------------------------- one step

  /** Multiplication by x before reduction. */
  function Entering(c: Word, v: Word): Word {
    ((c & 0x1ffffff) << 5) ^ v
  }

  lemma {:induction false} EnteringHas(c: Word, v: Word, m: Word)
    requires Single(m) && m < LIMIT && v < 32
    ensures Has(Entering(c, v), m) == (Has(v, m) != Has(c, m >> 5))
    ensures m >= 32 ==> !Has(v, m)
    ensures !Has(c, 0)
  {
  }

  lemma {:induction false} ShiftBack(m: Word)
    requires m < 0x200_0000
    ensures (m << 5) >> 5 == m && m << 5 < LIMIT && (m != 0 ==> m << 5 >= 32)
  {
  }

  lemma {:induction false} MaskLow(i: nat)
    requires i < WIDTH
    ensures Mask(i) < LIMIT && Mask(i) >> 5 == 0
  {
  }

  lemma {:induction false} MaskNonzero(i: nat)
    requires i < BITS
    ensures Mask(i) != 0
  {
  }

  lemma {:induction false} MaskDown(i: nat)
    requires i < BITS
    ensures Mask(i) < LIMIT && Mask(i) >> 5 == (if i < WIDTH then 0 else Mask(i - WIDTH))
            && (i >= WIDTH ==> Mask(i) >= 32)
  {
    if i < WIDTH {
      MaskLow(i);
    } else {
      MaskShift(i);
      MaskNonzero(i - WIDTH);
      ShiftBack(Mask(i - WIDTH));
    }
  }

  lemma {:induction false} EnteringBits(c: Word, v: Word)
    requires v < 32
    ensures ToBits(Entering(c, v)) == Shifted(ToBits(c), ToSymbol(v))
  {
    forall i | 0 <= i < BITS ensures ToBits(Entering(c, v))[i] == Shifted(ToBits(c), ToSymbol(v))[i] {
      MaskSingle(i);
      MaskDown(i);
      EnteringHas(c, v, Mask(i));
    }
  }

  function When(b: bool, x: Word, k: Word): Word {
    if b then x ^ k else x
  }

  function XorIf(b: bool, x: Bits, k: Bits): Bits {
    if b then Xor(x, k) else x
  }

  lemma {:induction false} WhenBits(b: bool, x: Word, k: Word)
    ensures ToBits(When(b, x, k)) == XorIf(b, ToBits(x), ToBits(k))
  {
    XorToBits(x, k);
  }

  /** The body of the loop of PolyMod. */
  function StepWord(c: Word, v: Word): Word {
    var c0 := c >> 25;
    var x0 := When(Has(c0, 1), Entering(c, v), K0);
    var x1 := When(Has(c0, 2), x0, K1);
    var x2 := When(Has(c0, 4), x1, K2);
    var x3 := When(Has(c0, 8), x2, K3);
    When(Has(c0, 16), x3, K4)
  }

  /** On bits, adding the chosen constants one after the other is adding their sum. */
  lemma {:induction false} FoldIsChain(g: Generator, c: Bits, x: Bits)
    ensures XorIf(c[29], XorIf(c[28], XorIf(c[27], XorIf(c[26], XorIf(c[25], x, g.k0), g.k1), g.k2), g.k3), g.k4)
            == Xor(x, Fold(g, c))
  {
    var x0 := XorIf(c[25], x, g.k0);
    var x1 := XorIf(c[26], x0, g.k1);
    var x2 := XorIf(c[27], x1, g.k2);
    var x3 := XorIf(c[28], x2, g.k3);
    var x4 := XorIf(c[29], x3, g.k4);
    forall i | 0 <= i < BITS ensures x4[i] == Xor(x, Fold(g, c))[i] {
      assert x0[i] == (x[i] != (c[25] && g.k0[i]));
      assert x1[i] == (x0[i] != (c[26] && g.k1[i]));
      assert x2[i] == (x1[i] != (c[27] && g.k2[i]));
      assert x3[i] == (x2[i] != (c[28] && g.k3[i]));
      assert x4[i] == (x3[i] != (c[29] && g.k4[i]));
    }
  }

  lemma {:induction false} TopBits(c: Word)
    ensures ToBits(c)[25] == Has(c >> 25, 1) && ToBits(c)[26] == Has(c >> 25, 2) && ToBits(c)[27] == Has(c >> 25, 4)
    ensures ToBits(c)[28] == Has(c >> 25, 8) && ToBits(c)[29] == Has(c >> 25, 16)
  {
    TopByte(c);
  }

  lemma {:induction false} TopByte(c: Word)
    ensures Has(c >> 25, 1) == Has(c, 0x200_0000)
    ensures Has(c >> 25, 2) == Has(c, 0x400_0000)
    ensures Has(c >> 25, 4) == Has(c, 0x800_0000)
    ensures Has(c >> 25, 8) == Has(c, 0x1000_0000)
    ensures Has(c >> 25, 16) == Has(c, 0x2000_0000)
  {
  }

  lemma {:induction false} ChainBits(x: Word, a: bool, b: bool, c: bool, d: bool, e: bool)
    ensures ToBits(When(e, When(d, When(c, When(b, When(a, x, K0), K1), K2), K3), K4))
            == XorIf(e, XorIf(d, XorIf(c, XorIf(b, XorIf(a, ToBits(x), ToBits(K0)), ToBits(K1)), ToBits(K2)),
                              ToBits(K3)),
                     ToBits(K4))
  {
    var x0 := When(a, x, K0);
    var x1 := When(b, x0, K1);
    var x2 := When(c, x1, K2);
    var x3 := When(d, x2, K3);
    WhenBits(a, x, K0);
    WhenBits(b, x0, K1);
    WhenBits(c, x1, K2);
    WhenBits(d, x2, K3);
    WhenBits(e, x3, K4);
  }

  lemma {:induction false} StepWordChain(c: Word, v: Word, x: Word, b0: bool, b1: bool, b2: bool, b3: bool, b4: bool)
    requires x == Entering(c, v) && b0 == Has(c >> 25, 1) && b1 == Has(c >> 25, 2) && b2 == Has(c >> 25, 4)
    requires b3 == Has(c >> 25, 8) && b4 == Has(c >> 25, 16)
    ensures StepWord(c, v) == When(b4, When(b3, When(b2, When(b1, When(b0, x, K0), K1), K2), K3), K4)
  {
  }

  lemma {:induction false} StepBitsChain(c: Bits, v: Symbol, x: Bits, b0: bool, b1: bool, b2: bool, b3: bool, b4: bool)
    requires x == Shifted(c, v) && b0 == c[25] && b1 == c[26] && b2 == c[27] && b3 == c[28] && b4 == c[29]
    ensures Step(Bip173(), c, v)
            == XorIf(b4, XorIf(b3, XorIf(b2, XorIf(b1, XorIf(b0, x, ToBits(K0)), ToBits(K1)), ToBits(K2)), ToBits(K3)),
                     ToBits(K4))
  {
    FoldIsChain(Bip173(), c, x);
  }

  /** A step on words is a step on their bits. */
  lemma {:induction false} StepWordIsStep(c: Word, v: Word)
    requires v < 32
    ensures ToBits(StepWord(c, v)) == Step(Bip173(), ToBits(c), ToSymbol(v))
  {
    var x, bits := Entering(c, v), ToBits(c);
    var b0, b1, b2, b3, b4 := bits[25], bits[26], bits[27], bits[28], bits[29];
    EnteringBits(c, v);
    TopBits(c);
    StepWordChain(c, v, x, b0, b1, b2, b3, b4);
    ChainBits(x, b0, b1, b2, b3, b4);
    StepBitsChain(bits, ToSymbol(v), ToBits(x), b0, b1, b2, b3, b4);
  }

  // ---------------------------------------------------------------- the generator is suitable

  lemma {:induction false} LowBits0()
    ensures !Has(K0, 1) && Has(K0, 2) && !Has(K0, 4) && !Has(K0, 8) && Has(K0, 16)
    ensures Has(K1, 1) && !Has(K1, 2) && Has(K1, 4) && Has(K1, 8) && !Has(K1, 16)
    ensures !Has(K2, 1) && Has(K2, 2) && !Has(K2, 4) && Has(K2, 8) && Has(K2, 16)
    ensures Has(K3, 1) && !Has(K3, 2) && Has(K3, 4) && Has(K3, 8) && Has(K3, 16)
    ensures Has(K4, 1) && Has(K4, 2) && !Has(K4, 4) && !Has(K4, 8) && Has(K4, 16)
  {
  }

  lemma {:induction false} Bip173Suitable()
    ensures Suitable(Bip173())
  {
    var g := Bip173();
    forall c: Bits | forall i :: 0 <= i < WIDTH ==> !Fold(g, c)[i] ensures TopClear(c) {
      LowBits0();
      assert !Fold(g, c)[0] && !Fold(g, c)[1] && !Fold(g, c)[2] && !Fold(g, c)[3] && !Fold(g, c)[4];
      assert !FoldBit(c, false, true, false, true, true);
      assert !FoldBit(c, true, false, true, false, true);
      assert !FoldBit(c, false, true, false, true, false);
      assert !FoldBit(c, false, true, true, true, false);
      assert !FoldBit(c, true, false, true, true, true);
    }
  }

  /** Words below the limit are told apart by their thirty bits. */
  lemma {:induction false} ToBitsInjective(w: Word, x: Word)
    requires w < LIMIT && x < LIMIT && ToBits(w) == ToBits(x)
    ensures w == x
  {
    forall i | 0 <= i < BITS ensures !Has(w ^ x, Mask(i)) {
      assert ToBits(w)[i] == ToBits(x)[i];
      MaskSingle(i);
      HasXor(w, x, Mask(i));
    }
    XorLimit(w, x);
    NoBits(w ^ x);
  }

  lemma {:induction false} XorLimit(w: Word, x: Word)
    requires w < LIMIT && x < LIMIT
    ensures w ^ x < LIMIT && (w ^ x == 0 ==> w == x)
  {
  }

  /** A word below the limit without any of the thirty bits is zero. */
  lemma {:induction false} NoBits(w: Word)
    requires w < LIMIT && forall i :: 0 <= i < BITS ==> !Has(w, Mask(i))
    ensures w == 0
  {
    assert !Has(w, Mask(0)) && !Has(w, Mask(1)) && !Has(w, Mask(2)) && !Has(w, Mask(3)) && !Has(w, Mask(4));
    assert !Has(w, Mask(5)) && !Has(w, Mask(6)) && !Has(w, Mask(7)) && !Has(w, Mask(8)) && !Has(w, Mask(9));
    assert !Has(w, Mask(10)) && !Has(w, Mask(11)) && !Has(w, Mask(12)) && !Has(w, Mask(13)) && !Has(w, Mask(14));
    assert !Has(w, Mask(15)) && !Has(w, Mask(16)) && !Has(w, Mask(17)) && !Has(w, Mask(18)) && !Has(w, Mask(19));
    assert !Has(w, Mask(20)) && !Has(w, Mask(21)) && !Has(w, Mask(22)) && !Has(w, Mask(23)) && !Has(w, Mask(24));
    assert !Has(w, Mask(25)) && !Has(w, Mask(26)) && !Has(w, Mask(27)) && !Has(w, Mask(28)) && !Has(w, Mask(29));
  }
}
