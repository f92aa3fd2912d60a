/**
 Targets and work on 256-bit numbers of eight limbs: SetCompact, GetCompact and GetBlockProof.
 */
module ArithTarget {
  import opened Numbers
  import opened Limbs
  import opened ArithUint
  import opened ArithShift
  import opened ArithDivide
  import opened ArithCompact

  const WIDTH := 8

  lemma {:induction false} TwoByte(k: nat)
    ensures Pow2(8 * k) == Byte(k)
  {
    if k > 0 {
      TwoByte(k - 1);
      TwoSum(8, 8 * (k - 1));
      assert Pow2(4) == 16;
      TwoSum(4, 4);
    }
  }

  // ---------------------------------------------------------------- small numbers

  method SetLow(pn: array<Limb>, x: Limb)
    requires pn.Length > 0
    modifies pn
    ensures Val(pn[..]) == x
  {
    SetZero(pn);
    ghost var s := pn[..];
    pn[0] := x;
    assert pn[..] == s[0 := x];
    ValUpdate(s, 0, x);
  }

  lemma {:induction false} LowLimbs(s: seq<Limb>, two: nat)
    requires |s| >= 2 && two == 2
    ensures s[0] + s[1] * BASE == Wrap(Val(s), two)
  {
    ValSplit(s, two);
    var low := s[..two];
    assert Val(low) == s[0] + s[1] * BASE by {
      ValPrefix(low, 1);
      ValPrefix(low, 0);
      assert low[..2] == low && low[..0] == [] && Pow(1) == BASE && Pow(0) == 1;
    }
    ValBound(low);
    WrapUnique(Val(low), Val(s[two..]), two, Val(s));
  }

  /** GetLow64: the number modulo 2^64. */
  method GetLow64(pn: array<Limb>) returns (x: nat)
    requires pn.Length >= 2
    ensures x == Wrap(Val(pn[..]), 2)
  {
    LowLimbs(pn[..], 2);
    TwoBase();
    OrIsSum(pn[0], pn[1], 32);
    x := BitOr(pn[0], pn[1] * Pow2(32));
  }

  // ---------------------------------------------------------------- SetCompact

  lemma {:induction false} WordFits(c: Compact)
    ensures Mantissa(c) <= Word(c) < SIGN < BASE
  {
    if SizeOf(c) <= 3 {
      QuotLess(Word(c), Byte(3 - SizeOf(c)));
    }
  }

  /** SetCompact: the number is what the compact form denotes, as far as it fits. */
  method SetCompact(pn: array<Limb>, c: Compact) returns (negative: bool, overflow: bool)
    requires pn.Length == WIDTH
    modifies pn
    ensures Val(pn[..]) == Wrap(Exact(c), WIDTH)
    ensures negative == Negative(c) && overflow == (Exact(c) >= Pow(WIDTH))
  {
    var size, word := c / SIZE_UNIT, c % SIGN;
    WordFits(c);
    if size <= 3 {
      TwoByte(3 - size);
      QuotIsDiv(word, Byte(3 - size));
      word := word / Pow2(8 * (3 - size));
      SetLow(pn, word);
      SmallExact(c);
      FitsIn(Exact(c), WIDTH);
    } else {
      SetLow(pn, word);
      TwoByte(size - 3);
      ShiftLeft(pn, 8 * (size - 3));
    }
    OverflowExact(c);
    negative := word != 0 && c / SIGN % 2 == 1;
    overflow := word != 0 && (size > 34 || (word > 0xff && size > 33) || (word > 0xffff && size > 32));
  }

  // ---------------------------------------------------------------- GetCompact

  lemma {:induction false} ByteSizeIs(v: nat, s: nat)
    requires v < Byte(s) && (s > 0 ==> v >= Byte(s - 1))
    ensures ByteSize(v) == s
  {
    if s > 0 {
      ByteSizeIs(v / 256, s - 1);
    }
  }

  lemma {:induction false} BytesOfBits(v: nat, n: nat)
    requires n == 0 ==> v == 0
    requires n > 0 ==> Pow2(n - 1) <= v < Pow2(n)
    ensures (n + 7) / 8 == ByteSize(v)
  {
    var s := (n + 7) / 8;
    TwoByte(s);
    TwoMono(n, 8 * s);
    if n > 0 {
      TwoByte(s - 1);
      TwoMono(8 * (s - 1), n - 1);
    }
    ByteSizeIs(v, s);
  }

  /** The leading bytes never take more than 24 bits, and what is stored of them 23. */
  lemma {:induction false} LeadingFits(v: nat)
    ensures Leading(v) < 2 * SIGN && StoredMantissa(v) < SIGN
  {
    var s := ByteSize(v);
    ByteSizeFacts(v);
    SmallBytes();
    if s > 3 {
      LongNumber(v, s);
    } else {
      ByteSum(s, 3 - s);
      StrictlyLess(v, Byte(s), Byte(3 - s));
    }
  }

  /** The three leading bytes, by shifting. */
  method TakeLeading(pn: array<Limb>, size: nat) returns (m: nat)
    requires pn.Length == WIDTH && size == ByteSize(Val(pn[..]))
    modifies pn
    ensures m == Leading(Val(old(pn[..])))
  {
    if size <= 3 {
      TwoByte(3 - size);
      ShortFits(Val(pn[..]), size);
      m := GetLow64(pn);
      m := m * Pow2(8 * (3 - size));
    } else {
      TwoByte(size - 3);
      LeadingFits(Val(pn[..]));
      ShiftRight(pn, 8 * (size - 3));
      m := GetLow64(pn);
    }
  }

  /** A number of at most three bytes fits in 64 bits. */
  lemma {:induction false} ShortFits(v: nat, size: nat)
    requires size == ByteSize(v) <= 3
    ensures v < Pow(2) && Wrap(v, 2) == v
  {
    ByteSizeFacts(v);
    ByteMono(size, 3);
    SmallBytes();
  }

  /** GetCompact; its two assertions hold. */
  method EncodeCompact(pn: array<Limb>, negative: bool) returns (c: nat)
    requires pn.Length == WIDTH
    ensures c == GetCompact(Val(pn[..]), negative) && c < BASE
  {
    ghost var v := Val(pn[..]);
    var n := Bits(pn);
    BytesOfBits(v, n);
    var size := (n + 7) / 8;
    var copy := CopyOf(pn);
    var m := TakeLeading(copy, size);
    LeadingFits(v);
    c := Assemble(m, size, negative);
  }

  method Assemble(leading: nat, bytes: nat, negative: bool) returns (c: nat)
    requires leading < 2 * SIGN && bytes <= 32
    ensures var m, size := if leading >= SIGN then leading / 256 else leading,
                           if leading >= SIGN then bytes + 1 else bytes;
      c == m + (if negative && m != 0 then SIGN else 0) + size * SIZE_UNIT && c < BASE
  {
    var m, size := leading, bytes;
    if m / SIGN % 2 == 1 {
      m := m / 256;
      size := size + 1;
    }
    assert m < SIGN && size < 256;
    c := m + size * SIZE_UNIT;
    if negative && m != 0 {
      c := c + SIGN;
    }
  }

  // ---------------------------------------------------------------- GetBlockProof

  /** GetBlockProof: zero for an unusable target, and otherwise 2^256 / (target + 1). */
  method GetBlockProof(c: Compact) returns (proof: array<Limb>)
    ensures fresh(proof) && proof.Length == WIDTH
    ensures Val(proof[..])
            == if Negative(c) || Overflow(c) || Exact(c) == 0 then 0 else Work(Exact(c), WIDTH)
  {
    var target := new Limb[WIDTH](i => 0);
    var negative, overflow := SetCompact(target, c);
    OverflowExact(c);
    proof := new Limb[WIDTH](i => 0);
    var zero := CompareTo(target, proof);
    ZeroVal(proof[..]);
    if !overflow {
      FitsIn(Exact(c), WIDTH);
    }
    if negative || overflow || zero == 0 { return; }
    TargetLeavesRoom(c);
    proof := ProofOf(target);
  }

  /** (~target / (target + 1)) + 1. */
  method ProofOf(target: array<Limb>) returns (proof: array<Limb>)
    requires Val(target[..]) + 1 < Pow(target.Length) && Val(target[..]) > 0
    modifies target
    ensures fresh(proof) && proof.Length == target.Length && Val(proof[..]) == Work(Val(old(target[..])), target.Length)
  {
    ghost var t := Val(target[..]);
    proof := Complement(target);
    AddOne(target);
    var r := DivideBy(proof, target);
    WorkFromComplement(t, target.Length);
    QuotHalf(Pow(target.Length), t + 1);
    AddOne(proof);
  }

  method AddOne(pn: array<Limb>)
    requires Val(pn[..]) + 1 < Pow(pn.Length)
    modifies pn
    ensures Val(pn[..]) == Val(old(pn[..])) + 1
  {
    FitsIn(Val(pn[..]) + 1, pn.Length);
    Increment(pn);
  }

  lemma {:induction false} QuotHalf(x: nat, h: nat)
    requires h >= 2 && x > 0
    ensures Quot(x, h) < x
  {
    if x >= h {
      QuotLess(x - h, h);
    }
  }
}
