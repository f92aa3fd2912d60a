/**
 The compact form of difficulty targets: a size in bytes and 23 bits of mantissa, with a sign
 bit. Proved on values: when decoding overflows, that encoding rounds down to the leading bits,
 is monotone, and gives the same again for what it decodes to.
 */
module ArithCompact {
  import opened Numbers
  import opened Limbs
  import opened ArithUint

  const SIGN := 0x80_0000
  const SIZE_UNIT := 0x100_0000

  type Compact = c: nat | c < BASE

  /** 256 to a power. */
  function Byte(n: nat): (p: nat)
    ensures p >= 1
  {
    if n == 0 then 1 else 256 * Byte(n - 1)
  }

  lemma {:induction false} ByteSum(i: nat, j: nat)
    ensures Byte(i + j) == Byte(i) * Byte(j)
  {
    if i > 0 {
      ByteSum(i - 1, j);
      Associate(256, Byte(i - 1), Byte(j));
    }
  }

  lemma {:induction false} ByteMono(i: nat, j: nat)
    requires i <= j
    ensures Byte(i) <= Byte(j)
  {
    if i < j {
      ByteMono(i, j - 1);
    }
  }

  // ---------------------------------------------------------------- decoding

  function SizeOf(c: Compact): nat {
    c / SIZE_UNIT
  }

  function Word(c: Compact): nat {
    c % SIGN
  }

  predicate SignBit(c: Compact) {
    c / SIGN % 2 == 1
  }

  /** The mantissa that SetCompact ends up with: small sizes lose its low bytes. */
  function Mantissa(c: Compact): nat {
    if SizeOf(c) <= 3 then Quot(Word(c), Byte(3 - SizeOf(c))) else Word(c)
  }

  /** The number that a compact form denotes, of any size. */
  function Exact(c: Compact): nat {
    if SizeOf(c) <= 3 then Mantissa(c) else Word(c) * Byte(SizeOf(c) - 3)
  }

  /** The size, the sign and the mantissa make up the compact form. */
  lemma {:induction false} CompactParts(c: Compact)
    ensures c == 0x100_0000 * SizeOf(c) + (if SignBit(c) then 0x80_0000 else 0) + Word(c)
    ensures SizeOf(c) < 256 && Word(c) < 0x80_0000
  {
  }

  /** The number denoted is the mantissa times 256 to the power of the size, less three bytes, rounded down. */
  lemma {:induction false} ExactIs(c: Compact)
    ensures Exact(c) * Byte(3) <= Word(c) * Byte(SizeOf(c)) < (Exact(c) + 1) * Byte(3)
  {
    var s, w := SizeOf(c), Word(c);
    if s <= 3 {
      var h := Byte(3 - s);
      QuotIsDiv(w, h);
      var q, r := w / h, w % h;
      assert w == q * h + r && r < h;
      ByteSum(3 - s, s);
      Scaled(q, w, h, Byte(s));
    } else {
      ByteSum(s - 3, 3);
      MulAssociates(w, Byte(s - 3), Byte(3));
    }
  }

  lemma {:induction false} Scaled(q: nat, w: nat, h: nat, p: nat)
    requires q * h <= w < q * h + h && p > 0
    ensures q * (h * p) <= w * p < (q + 1) * (h * p)
  {
    MulMono(q * h, w, p);
    MulAssociates(q, h, p);
    StrictlyLess(w, (q + 1) * h, p);
    MulAssociates(q + 1, h, p);
    assert (q + 1) * h == q * h + h;
  }

  predicate Negative(c: Compact) {
    Mantissa(c) != 0 && SignBit(c)
  }

  predicate Overflow(c: Compact) {
    var w := Mantissa(c);
    w != 0 && (SizeOf(c) > 34 || (w > 0xff && SizeOf(c) > 33) || (w > 0xffff && SizeOf(c) > 32))
  }

  lemma {:induction false} SmallBytes()
    ensures Byte(0) == 1 && Byte(1) == 256 && Byte(2) == 0x1_0000 && Byte(3) == 0x100_0000 && Byte(4) == BASE
  {
    assert Byte(1) == 256 * Byte(0);
    assert Byte(2) == 256 * Byte(1);
    assert Byte(3) == 256 * Byte(2);
  }

  lemma {:induction false} ByteLimbs(k: nat)
    ensures Byte(4 * k) == Pow(k)
  {
    if k > 0 {
      ByteLimbs(k - 1);
      SmallBytes();
      ByteSum(4, 4 * (k - 1));
    }
  }

  /** A word with n bytes after it reaches past 32 bytes. */
  lemma {:induction false} Reaches(w: nat, n: nat, lead: nat)
    requires lead + n == 32
    ensures w * Byte(n) >= Pow(8) <==> w >= Byte(lead)
  {
    ByteLimbs(8);
    ByteSum(lead, n);
    if w >= Byte(lead) {
      MulMono(Byte(lead), w, Byte(n));
    } else {
      StrictlyLess(w, Byte(lead), Byte(n));
    }
  }

  lemma {:induction false} FitsAnyway(w: nat, n: nat)
    requires n <= 29 && w < SIGN
    ensures w * Byte(n) < Pow(8)
  {
    SmallBytes();
    Reaches(w, n, 32 - n);
    ByteMono(3, 32 - n);
  }

  lemma {:induction false} TooBig(w: nat, n: nat)
    requires n >= 32
    ensures w * Byte(n) >= Pow(8) <==> w > 0
  {
    ByteLimbs(8);
    ByteMono(32, n);
    if w > 0 {
      MulMono(1, w, Byte(n));
    }
  }

  lemma {:induction false} OverflowOf(w: nat, size: nat)
    requires w < SIGN && size > 3
    ensures w * Byte(size - 3) >= Pow(8)
            <==> w != 0 && (size > 34 || (w > 0xff && size > 33) || (w > 0xffff && size > 32))
  {
    SmallBytes();
    if size <= 32 {
      FitsAnyway(w, size - 3);
    } else if size <= 34 {
      Reaches(w, size - 3, 35 - size);
    } else {
      TooBig(w, size - 3);
    }
  }

  /** SetCompact reports overflow exactly when the number needs more than 256 bits. */
  lemma {:induction false} OverflowExact(c: Compact)
    ensures Overflow(c) <==> Exact(c) >= Pow(8)
  {
    if SizeOf(c) <= 3 {
      SmallExact(c);
    } else {
      OverflowOf(Word(c), SizeOf(c));
    }
  }

  lemma {:induction false} SmallExact(c: Compact)
    requires SizeOf(c) <= 3
    ensures Exact(c) <= Word(c) < SIGN < Pow(8)
  {
    QuotLess(Word(c), Byte(3 - SizeOf(c)));
    SmallBytes();
    ByteLimbs(8);
    ByteMono(4, 32);
  }

  lemma {:induction false} QuotLess(x: nat, h: nat)
    requires h > 0
    ensures Quot(x, h) <= x
  {
    if x >= h {
      QuotLess(x - h, h);
    }
  }

  // ---------------------------------------------------------------- encoding

  /** The length of a number in bytes. */
  function ByteSize(v: nat): nat {
    if v == 0 then 0 else 1 + ByteSize(v / 256)
  }

  lemma {:induction false} ByteSizeFacts(v: nat)
    ensures v < Byte(ByteSize(v)) && (v > 0 ==> ByteSize(v) > 0 && v >= Byte(ByteSize(v) - 1))
  {
    if v > 0 {
      ByteSizeFacts(v / 256);
    }
  }

  /** The three leading bytes of a number. */
  function Leading(v: nat): nat {
    var s := ByteSize(v);
    if s <= 3 then v * Byte(3 - s) else Quot(v, Byte(s - 3))
  }

  /** What GetCompact stores: one byte less if the leading bit is in the way of the sign. */
  function StoredMantissa(v: nat): nat {
    if Leading(v) >= SIGN then Leading(v) / 256 else Leading(v)
  }

  function StoredSize(v: nat): nat {
    if Leading(v) >= SIGN then ByteSize(v) + 1 else ByteSize(v)
  }

  function GetCompact(v: nat, negative: bool): nat {
    StoredMantissa(v) + (if negative && StoredMantissa(v) != 0 then SIGN else 0) + StoredSize(v) * SIZE_UNIT
  }

  /** How many bytes have to go so that the rest fits the mantissa. */
  function Scale(v: nat): nat {
    if v < SIGN then 0 else 1 + Scale(v / 256)
  }

  /** The number with those bytes zeroed. */
  function Truncated(v: nat): nat {
    Quot(v, Byte(Scale(v))) * Byte(Scale(v))
  }

  lemma {:induction false} ScaleIs(v: nat, k: nat)
    requires v < SIGN * Byte(k) && (k > 0 ==> v >= SIGN * Byte(k - 1))
    ensures Scale(v) == k
  {
    if k > 0 {
      ByteAtLeast(k - 1);
      ScaleIs(v / 256, k - 1);
    }
  }

  lemma {:induction false} ByteAtLeast(k: nat)
    ensures SIGN * Byte(k) >= SIGN
  {
  }

  lemma {:induction false} ScaleFacts(v: nat)
    ensures v < SIGN * Byte(Scale(v)) && (Scale(v) > 0 ==> v >= SIGN * Byte(Scale(v) - 1))
  {
    if v >= SIGN {
      ScaleFacts(v / 256);
    }
  }

  lemma {:induction false} QuotQuot(v: nat, a: nat)
    requires a > 0
    ensures Quot(v, a) / 256 == Quot(v, 256 * a)
  {
    QuotRem(v, a);
    var q, r := Quot(v, a), Rem(v, a);
    var q2, r2 := q / 256, q % 256;
    assert q == q2 * 256 + r2;
    Distribute(q2 * 256, r2, 0, a);
    Associate(q2, 256, a);
    MulMono(r2, 255, a);
    QuotUnique(v, 256 * a, q2, r2 * a + r);
  }

  /** Large numbers: the leading bytes, and as many bytes dropped as the scale says. */
  lemma {:induction false} LongNumber(v: nat, s: nat)
    requires s == ByteSize(v) && s > 3
    ensures var m := Quot(v, Byte(s - 3));
      && v >= SIGN && m < 2 * SIGN
      && (m < SIGN ==> Scale(v) == s - 3) && (m >= SIGN ==> Scale(v) == s - 2)
  {
    ByteSizeFacts(v);
    SmallBytes();
    var m, p := Quot(v, Byte(s - 3)), Byte(s - 3);
    QuotRem(v, p);
    ByteSum(3, s - 3);
    ByteSum(2, s - 3);
    assert Byte(s - 3) == 256 * Byte(s - 4);
    MantissaBound(v, m, p, Rem(v, p));
    if m < SIGN {
      ScaleIs(v, s - 3);
    } else {
      ScaleIs(v, s - 2);
    }
  }

  lemma {:induction false} MantissaBound(v: nat, m: nat, p: nat, r: nat)
    requires v == m * p + r && r < p && v < 0x100_0000 * p
    ensures m < 0x100_0000
    ensures m < SIGN ==> v < SIGN * p
    ensures m >= SIGN ==> v >= SIGN * p
  {
    if m >= 0x100_0000 {
      MulMono(0x100_0000, m, p);
    }
    if m < SIGN {
      StrictlyLess(m, SIGN, p);
    } else {
      MulMono(SIGN, m, p);
    }
  }

  lemma {:induction false} EncodeLarge(v: nat)
    requires v >= SIGN
    ensures StoredMantissa(v) == Quot(v, Byte(Scale(v))) && StoredSize(v) == Scale(v) + 3 && Scale(v) > 0
    ensures StoredMantissa(v) < SIGN
  {
    ByteSizeFacts(v);
    SmallBytes();
    var s := ByteSize(v);
    if s > 3 {
      LongNumber(v, s);
      QuotQuot(v, Byte(s - 3));
    } else {
      ByteMono(s, 3);
      LongEnough(v);
    }
  }

  /** Three bytes with the leading bit set. */
  lemma {:induction false} LongEnough(v: nat)
    requires SIGN <= v < 2 * SIGN
    ensures ByteSize(v) == 3 && Leading(v) == v && Scale(v) == 1 && v / 256 == Quot(v, Byte(1))
  {
    assert ByteSize(v / 256 / 256 / 256) == 0;
    assert ByteSize(v / 256 / 256) == 1;
    assert ByteSize(v / 256) == 2;
    SmallBytes();
    QuotIsDiv(v, 256);
  }

  /** Small numbers are stored without loss. */
  lemma {:induction false} EncodeSmall(v: nat)
    requires v < SIGN
    ensures StoredMantissa(v) < SIGN && StoredSize(v) <= 3 && Quot(StoredMantissa(v), Byte(3 - StoredSize(v))) == v
  {
    var s := ByteSize(v);
    ByteSizeFacts(v);
    SmallBytes();
    ShortNumber(v);
    var m := v * Byte(3 - s);
    ByteSum(s, 3 - s);
    StrictlyLess(v, Byte(s), Byte(3 - s));
    if m < SIGN {
      QuotUnique(m, Byte(3 - s), v, 0);
    } else {
      DropByte(v, s);
    }
  }

  lemma {:induction false} ShortNumber(v: nat)
    requires v < SIGN
    ensures ByteSize(v) <= 3
  {
    assert ByteSize(v / 256 / 256 / 256) == 0;
    if v > 0 && v / 256 > 0 && v / 256 / 256 > 0 {
      assert ByteSize(v / 256 / 256) == 1;
      assert ByteSize(v / 256) == 2;
    }
  }

  lemma {:induction false} DropByte(v: nat, s: nat)
    requires s <= 3 && v < SIGN && v * Byte(3 - s) >= SIGN
    ensures s <= 2 && v * Byte(3 - s) / 256 == v * Byte(2 - s) && Quot(v * Byte(2 - s), Byte(2 - s)) == v
  {
    assert Byte(0) == 1;
    if s <= 2 {
      assert Byte(3 - s) == 256 * Byte(2 - s);
      Associate(v, 256, Byte(2 - s));
      QuotUnique(v * Byte(2 - s), Byte(2 - s), v, 0);
    }
  }

  lemma {:induction false} Fields(m: nat, size: nat)
    requires m < SIGN && size < 256
    ensures var c := m + size * SIZE_UNIT; c < BASE && SizeOf(c) == size && Word(c) == m && !SignBit(c)
  {
  }

  /** Setting the sign bit changes nothing else. */
  lemma {:induction false} SignedFields(m: nat, size: nat, c: nat, d: nat)
    requires m < SIGN && size < 256 && c == m + size * SIZE_UNIT && d == c + SIGN
    ensures d < BASE && SizeOf(d) == SizeOf(c) && Word(d) == Word(c) && SignBit(d)
  {
    Fields(m, size);
  }

  lemma {:induction false} ScaleBound(v: nat)
    requires v < Pow(8)
    ensures Scale(v) <= 30
  {
    ScaleFacts(v);
    SmallBytes();
    var k := Scale(v);
    if k > 30 {
      ByteLimbs(8);
      ByteMono(32, k + 1);
      ByteSum(2, k - 1);
    }
  }

  // ---------------------------------------------------------------- encoding and decoding

  /**
   Encoding a target and decoding it gives the target with its low bytes zeroed, as few of them
   as possible, and neither a sign nor an overflow.
   */
  lemma {:induction false} EncodeRounds(v: nat)
    requires v < Pow(8)
    ensures var c := GetCompact(v, false);
      && c < BASE && Exact(c) == Truncated(v) && !Negative(c) && !Overflow(c)
      && Truncated(v) <= v < Truncated(v) + Byte(Scale(v))
  {
    QuotRem(v, Byte(Scale(v)));
    if v >= SIGN {
      EncodeLarge(v);
      ScaleBound(v);
    } else {
      EncodeSmall(v);
      QuotUnique(v, Byte(0), v, 0);
    }
    Fields(StoredMantissa(v), StoredSize(v));
    OverflowExact(GetCompact(v, false));
  }

  lemma {:induction false} StoredFits(v: nat)
    requires v < Pow(8)
    ensures StoredMantissa(v) < SIGN && StoredSize(v) < 256 && (Truncated(v) == 0 <==> v == 0)
  {
    if v >= SIGN {
      EncodeLarge(v);
      ScaleBound(v);
      ScaleEdge(v);
      ByteAtLeast(Scale(v) - 1);
    } else {
      EncodeSmall(v);
      QuotUnique(v, Byte(0), v, 0);
    }
  }

  /** Encoded as negative, a number decodes to the same with the sign, unless it is zero: that has none. */
  lemma {:induction false} EncodeSigned(v: nat)
    requires v < Pow(8)
    ensures var c := GetCompact(v, true);
      c < BASE && Exact(c) == Truncated(v) && !Overflow(c) && (Negative(c) <==> v > 0)
  {
    EncodeRounds(v);
    StoredFits(v);
    if StoredMantissa(v) == 0 {
      SignOfZero(GetCompact(v, false));
    } else {
      SignedFields(StoredMantissa(v), StoredSize(v), GetCompact(v, false), GetCompact(v, true));
      SignedSame(GetCompact(v, false), GetCompact(v, true));
    }
    NoMantissa(v);
  }

  lemma {:induction false} SignedSame(c: Compact, d: Compact)
    requires SizeOf(d) == SizeOf(c) && Word(d) == Word(c) && SignBit(d)
    ensures Exact(d) == Exact(c) && Overflow(d) == Overflow(c) && (Negative(d) <==> Exact(c) != 0)
  {
    SignOfZero(d);
  }

  lemma {:induction false} NoMantissa(v: nat)
    requires v < Pow(8)
    ensures StoredMantissa(v) == 0 ==> v == 0
  {
    if v >= SIGN {
      EncodeLarge(v);
      StoredFits(v);
    } else {
      EncodeSmall(v);
    }
  }

  /** Zero has no sign; any other number has the one its bit gives it. */
  lemma {:induction false} SignOfZero(c: Compact)
    ensures Negative(c) <==> Exact(c) != 0 && c / 0x80_0000 % 2 == 1
  {
    if SizeOf(c) > 3 {
      MulAtLeast(Word(c), Byte(SizeOf(c) - 3));
    }
  }

  /** The bound between two scales is a multiple of the larger unit. */
  lemma {:induction false} ScaleEdge(v: nat)
    requires Scale(v) > 0
    ensures SIGN * Byte(Scale(v) - 1) <= Truncated(v)
  {
    var k := Scale(v);
    ScaleFacts(v);
    QuotRem(v, Byte(k));
    var q, p, lead := Quot(v, Byte(k)), Byte(k), 0x8000;
    assert SIGN * Byte(k - 1) == lead * p;
    if q < lead {
      StrictlyLess(q, lead, p);
    } else {
      MulMono(lead, q, p);
    }
  }

  /** Encoding the decoded number changes nothing. */
  lemma {:induction false} EncodeAgain(v: nat)
    requires v < Pow(8)
    ensures GetCompact(Truncated(v), false) == GetCompact(v, false)
  {
    var k := Scale(v);
    QuotRem(v, Byte(k));
    ScaleFacts(v);
    if k == 0 {
      QuotUnique(v, Byte(0), v, 0);
    } else {
      ScaleEdge(v);
      ScaleIs(Truncated(v), k);
      ByteAtLeast(k - 1);
      EncodeLarge(v);
      EncodeLarge(Truncated(v));
      QuotUnique(Truncated(v), Byte(k), Quot(v, Byte(k)), 0);
    }
  }

  lemma {:induction false} QuotMono(v: nat, w: nat, h: nat)
    requires v <= w && h > 0
    ensures Quot(v, h) <= Quot(w, h)
  {
    if v >= h {
      QuotMono(v - h, w - h, h);
    }
  }

  lemma {:induction false} ScaleMono(v: nat, w: nat)
    requires v <= w
    ensures Scale(v) <= Scale(w)
  {
    if v >= SIGN {
      ScaleMono(v / 256, w / 256);
    }
  }

  /** Larger targets do not encode to smaller ones. */
  lemma {:induction false} EncodeMonotone(v: nat, w: nat)
    requires v <= w < Pow(8)
    ensures GetCompact(v, false) < BASE && GetCompact(w, false) < BASE
    ensures Exact(GetCompact(v, false)) <= Exact(GetCompact(w, false))
  {
    EncodeRounds(v);
    EncodeRounds(w);
    ScaleMono(v, w);
    var k := Scale(v);
    if k == Scale(w) {
      QuotMono(v, w, Byte(k));
      MulMono(Quot(v, Byte(k)), Quot(w, Byte(k)), Byte(k));
    } else {
      ScaleFacts(v);
      ScaleEdge(w);
      ByteMono(k, Scale(w) - 1);
    }
  }

  // ---------------------------------------------------------------- block proof

  /** The work of a block with a given target, in numbers of n limbs: the expected number of hashes. */
  function Work(target: nat, n: nat): nat {
    Quot(Pow(n), target + 1)
  }

  /** It can be computed without the power itself, which does not fit. */
  lemma {:induction false} WorkFromComplement(target: nat, n: nat)
    requires target + 1 < Pow(n)
    ensures Quot(Pow(n) - 1 - target, target + 1) + 1 == Work(target, n)
  {
  }

  /** A target made by SetCompact is never the largest number, so one can be added to it. */
  lemma {:induction false} TargetLeavesRoom(c: Compact)
    requires !Overflow(c)
    ensures Exact(c) + 1 < Pow(8)
  {
    OverflowExact(c);
    ByteLimbs(8);
    RoomAbove(c, 8, 32);
  }

  lemma {:induction false} RoomAbove(c: Compact, m: nat, n: nat)
    requires n >= 4 && Pow(m) == Byte(n) && Exact(c) < Byte(n)
    ensures Exact(c) + 1 < Pow(m)
  {
    if SizeOf(c) <= 3 {
      SmallRoom(c, 4, n);
    } else {
      LargeIsEven(c);
      EvenRoom(Exact(c), n);
    }
  }

  lemma {:induction false} LargeIsEven(c: Compact)
    requires SizeOf(c) > 3
    ensures Exact(c) % 256 == 0
  {
    EvenExact(Word(c), SizeOf(c) - 3);
  }

  lemma {:induction false} SmallRoom(c: Compact, k: nat, n: nat)
    requires SizeOf(c) <= 3 && k == 4 <= n
    ensures Exact(c) + 1 < Byte(n)
  {
    SmallBytes();
    QuotLess(Word(c), Byte(3 - SizeOf(c)));
    ByteMono(k, n);
  }

  /** A multiple of 256 below a power of it is not the number just below. */
  lemma {:induction false} EvenRoom(x: nat, n: nat)
    requires n > 0 && x % 256 == 0 && x < Byte(n)
    ensures x + 1 < Byte(n)
  {
    assert Byte(n) == 256 * Byte(n - 1);
  }

  lemma {:induction false} EvenExact(w: nat, n: nat)
    requires n > 0
    ensures w * Byte(n) % 256 == 0
  {
    Associate(w, 256, Byte(n - 1));
    assert w * Byte(n) == 256 * (w * Byte(n - 1));
  }
}
