/**
 Comparing numbers of 32-bit limbs, their length in bits, and shifting them in place.
 */
module ArithShift {
  import opened Numbers
  import opened Limbs
  import opened ArithUint

  // ---------------------------------------------------------------- comparison

  lemma {:induction false} TopDecides(a: seq<Limb>, b: seq<Limb>, i: nat)
    requires i < |a| == |b| && a[i] < b[i] && forall k :: i < k < |a| ==> a[k] == b[k]
    ensures Val(a) < Val(b)
  {
    SameTop(a, b, i + 1);
    ValPrefix(a, i);
    ValPrefix(b, i);
    ValBound(a[..i]);
    MulMono(a[i] + 1, b[i], Pow(i));
    Distribute(a[i], 1, 0, Pow(i));
  }

  /** CompareTo. */
  method CompareTo(a: array<Limb>, b: array<Limb>) returns (r: int)
    requires a.Length == b.Length
    ensures r == (if Val(a[..]) < Val(b[..]) then -1 else if Val(a[..]) > Val(b[..]) then 1 else 0)
  {
    var i := a.Length - 1;
    while i >= 0
      invariant -1 <= i < a.Length && forall k :: i < k < a.Length ==> a[k] == b[k]
    {
      if a[i] < b[i] {
        TopDecides(a[..], b[..], i);
        return -1;
      }
      if a[i] > b[i] {
        TopDecides(b[..], a[..], i);
        return 1;
      }
      i := i - 1;
    }
    assert a[..] == b[..];
    return 0;
  }

  // ---------------------------------------------------------------- powers of two

  lemma {:induction false} TwoSum(i: nat, j: nat)
    ensures Pow2(i + j) == Pow2(i) * Pow2(j)
  {
    if i > 0 {
      TwoSum(i - 1, j);
      Associate(2, Pow2(i - 1), Pow2(j));
    }
  }

  lemma {:induction false} TwoBase()
    ensures Pow2(32) == BASE
  {
    assert Pow2(4) == 16;
    TwoSum(4, 4);
    TwoSum(8, 8);
    TwoSum(16, 16);
    assert Pow2(8) == 256 && Pow2(16) == 65536;
  }

  lemma {:induction false} TwoPow(k: nat)
    ensures Pow2(32 * k) == Pow(k)
  {
    if k > 0 {
      TwoPow(k - 1);
      TwoBase();
      TwoSum(32, 32 * (k - 1));
    }
  }

  lemma {:induction false} TwoMono(i: nat, j: nat)
    requires i <= j
    ensures Pow2(i) <= Pow2(j)
  {
    if i < j {
      TwoMono(i, j - 1);
    }
  }

  // ---------------------------------------------------------------- bits

  /** The highest bit of a nonzero limb, plus one. */
  method LimbBits(x: Limb) returns (n: nat)
    requires x > 0
    ensures 1 <= n <= 32 && Pow2(n - 1) <= x < Pow2(n)
  {
    TwoBase();
    n := 31;
    while n > 0
      invariant 0 <= n <= 31 && x < Pow2(n + 1)
    {
      BitTest(x, n);
      if x / Pow2(n) % 2 == 1 { return n + 1; }
      n := n - 1;
    }
    return 1;
  }

  lemma {:induction false} BitTest(x: nat, n: nat)
    requires x < Pow2(n + 1)
    ensures x / Pow2(n) % 2 == 1 <==> x >= Pow2(n)
  {
    var p := Pow2(n);
    if x >= p {
      QuotientUnique(x / p, 1, p, x % p, x - p);
    } else {
      QuotientUnique(x / p, 0, p, x % p, x);
    }
  }

  /** A number whose highest nonzero limb is at pos. */
  lemma {:induction false} TopLimb(s: seq<Limb>, pos: nat, n: nat)
    requires pos < |s| && (forall k :: pos < k < |s| ==> s[k] == 0) && n >= 1 && Pow2(n - 1) <= s[pos] < Pow2(n)
    ensures Pow2(32 * pos + n - 1) <= Val(s) < Pow2(32 * pos + n)
  {
    ZeroTop(s, pos + 1);
    ValPrefix(s, pos);
    ValBound(s[..pos]);
    TwoPow(pos);
    TwoSum(n - 1, 32 * pos);
    TwoSum(n, 32 * pos);
    MulMono(Pow2(n - 1), s[pos], Pow(pos));
    var x: nat := s[pos];
    MulMono(x + 1, Pow2(n), Pow(pos));
    Distribute(x, 1, 0, Pow(pos));
  }

  lemma {:induction false} ZeroTop(s: seq<Limb>, i: nat)
    requires i <= |s| && forall k :: i <= k < |s| ==> s[k] == 0
    ensures Val(s) == Val(s[..i])
  {
    if i < |s| {
      ZeroTop(s[..|s| - 1], i);
      assert s[..|s| - 1][..i] == s[..i];
    } else {
      assert s[..i] == s;
    }
  }

  /** bits: the position of the highest one bit plus one, or zero. */
  method Bits(pn: array<Limb>) returns (n: nat)
    ensures n == 0 <==> Val(pn[..]) == 0
    ensures n > 0 ==> Pow2(n - 1) <= Val(pn[..]) < Pow2(n)
    ensures n <= 32 * pn.Length
  {
    var pos := pn.Length - 1;
    while pos >= 0
      invariant -1 <= pos < pn.Length && forall k :: pos < k < pn.Length ==> pn[k] == 0
    {
      if pn[pos] != 0 {
        var b := LimbBits(pn[pos]);
        TopLimb(pn[..], pos, b);
        return 32 * pos + b;
      }
      pos := pos - 1;
    }
    ZeroVal(pn[..]);
    return 0;
  }

  // ---------------------------------------------------------------- or

  /** The bitwise or of two numbers. */
  function BitOr(x: nat, y: nat): nat {
    if x == 0 then y
    else if y == 0 then x
    else (if x % 2 == 1 || y % 2 == 1 then 1 else 0) + 2 * BitOr(x / 2, y / 2)
  }

  /** On numbers without common bits it is their sum. */
  lemma {:induction false} OrIsSum(x: nat, q: nat, r: nat)
    requires x < Pow2(r)
    ensures BitOr(x, q * Pow2(r)) == x + q * Pow2(r)
  {
    if r > 0 && x > 0 && q > 0 {
      var y, p := q * Pow2(r), Pow2(r - 1);
      assert y == 2 * (q * p);
      OrIsSum(x / 2, q, r - 1);
      assert y / 2 == q * p && y % 2 == 0;
    }
  }

  // ---------------------------------------------------------------- shifting left

  /** The two parts of a limb shifted left by r bits: what goes to the next limb, and what stays. */
  function Goes(x: Limb, r: nat): nat
    requires r < 32
  {
    Quot(x, Pow2(32 - r))
  }

  function Kept(x: Limb, r: nat): nat
    requires r < 32
  {
    Rem(x, Pow2(32 - r))
  }

  lemma {:induction false} Parts(x: nat, hi: nat, lo: nat, h: nat, p: nat)
    requires h * p == BASE && x == hi * h + lo && lo < h && x < BASE
    ensures lo * p + hi * BASE == x * p && lo * p < BASE && hi < p
  {
    Associate(hi, h, p);
    assert (hi * h + lo) * p == (hi * h) * p + lo * p;
    MulMono(lo + 1, h, p);
    Distribute(lo, 1, 0, p);
    if hi >= p {
      MulMono(p, hi, h);
    }
  }

  lemma {:induction false} ShiftParts(x: Limb, r: nat)
    requires r < 32
    ensures Kept(x, r) * Pow2(r) + Goes(x, r) * BASE == x * Pow2(r)
    ensures Kept(x, r) * Pow2(r) < BASE && Goes(x, r) < Pow2(r)
  {
    HalvesOfLimb(r);
    QuotRem(x, Pow2(32 - r));
    Parts(x, Goes(x, r), Kept(x, r), Pow2(32 - r), Pow2(r));
  }

  lemma {:induction false} HalvesOfLimb(r: nat)
    requires r <= 32
    ensures Pow2(32 - r) * Pow2(r) == BASE
  {
    TwoBase();
    TwoSum(32 - r, r);
  }

  /** The left shift of a 32-bit word, which loses what goes beyond it. */
  function ShiftLimb(x: Limb, r: nat): Limb {
    x * Pow2(r) % BASE
  }

  lemma {:induction false} ShiftLimbKeeps(x: Limb, r: nat)
    requires r < 32
    ensures ShiftLimb(x, r) == Kept(x, r) * Pow2(r)
  {
    ShiftParts(x, r);
    ModOf(Kept(x, r) * Pow2(r), Goes(x, r), BASE);
  }

  /** Adding to a limb that may be beyond the end: what is lost counts as overflow. */
  function AddedAt(s: seq<Limb>, j: nat, v: nat): seq<Limb>
    requires j < |s| ==> s[j] + v < BASE
  {
    if j < |s| then s[j := s[j] + v] else s
  }

  function Lost(n: nat, j: nat, v: nat): nat {
    if j < n then 0 else v * Pow(j - n)
  }

  lemma {:induction false} AddedAtVal(s: seq<Limb>, j: nat, v: nat)
    requires j < |s| ==> s[j] + v < BASE
    ensures Val(AddedAt(s, j, v)) + Lost(|s|, j, v) * Pow(|s|) == Val(s) + v * Pow(j)
  {
    if j < |s| {
      ValUpdate(s, j, s[j] + v);
      Distribute(s[j], v, 0, Pow(j));
    } else {
      PowSum(j - |s|, |s|);
      Associate(v, Pow(j - |s|), Pow(|s|));
    }
  }

  /** Two to the power of r + 32 * k. */
  function Scaled(r: nat, k: nat): (p: nat)
    ensures p >= 1
  {
    if r == 0 then Pow(k) else 2 * Scaled(r - 1, k)
  }

  lemma {:induction false} ScaledIs(r: nat, k: nat)
    ensures Scaled(r, k) == Pow2(r) * Pow(k)
  {
    if r > 0 {
      ScaledIs(r - 1, k);
      Associate(2, Pow2(r - 1), Pow(k));
    }
  }

  /** Some limbs of a have been shifted into place. */
  ghost predicate ShiftSoFar(s: seq<Limb>, over: nat, a: seq<Limb>, i: nat, k: nat, r: nat)
    requires r < 32
  {
    var sized := |s| == |a| && i <= |a|;
    && sized
    && (forall m :: i + k < m < |s| ==> s[m] == 0)
    && (i + k < |s| ==> s[i + k] == if i == 0 then 0 else Goes(a[i - 1], r))
    && Val(s) + over * Pow(|s|) == Val(a[..i]) * Scaled(r, k)
  }

  lemma {:induction false} ShiftTerm(x: Limb, i: nat, k: nat, r: nat)
    requires r < 32
    ensures Kept(x, r) * Pow2(r) * Pow(i + k) + Goes(x, r) * Pow(i + k + 1) == (x * Pow(i)) * (Pow2(r) * Pow(k))
  {
    ShiftParts(x, r);
    DigitsOf(Kept(x, r) * Pow2(r), Goes(x, r), Pow(i + k));
    PowSum(i, k);
    Swap(x, Pow2(r), Pow(i), Pow(k));
  }

  lemma {:induction false} Swap(x: nat, t: nat, p: nat, q: nat)
    ensures (x * t) * (p * q) == (x * p) * (t * q)
  {
    Associate(x * t, p, q);
    Associate(x * p, t, q);
    assert (x * t) * p == (x * p) * t;
  }

  /** The terms of one limb, lost parts included, add up. */
  lemma {:induction false} ShiftSum(
    w: nat, x: nat, t: nat, v: nat, v1: nat, v2: nat, over: nat, l1: nat, l2: nat, p: nat, high: nat, low: nat)
    requires v + over * p == w * t && v1 + l1 * p == v + high && v2 + l2 * p == v1 + low && low + high == x * t
    ensures v2 + (over + l1 + l2) * p == (w + x) * t
  {
    Distribute(w, x, 0, t);
    Distribute(over, l1, l2, p);
  }

  lemma {:induction false} ShiftValue(
    s: seq<Limb>, s1: seq<Limb>, s2: seq<Limb>, j: nat, j1: nat, g: nat, h: nat,
    w: nat, x: nat, t: nat, over: nat, l1: nat, l2: nat, p: nat)
    requires (j1 < |s| ==> s[j1] + g < BASE) && s1 == AddedAt(s, j1, g) && l1 == Lost(|s|, j1, g) && p == Pow(|s|)
    requires (j < |s| ==> s1[j] + h < BASE) && s2 == AddedAt(s1, j, h) && l2 == Lost(|s|, j, h)
    requires Val(s) + over * p == w * t && h * Pow(j) + g * Pow(j1) == x * t
    ensures Val(s2) + (over + l1 + l2) * p == (w + x) * t
  {
    AddedAtVal(s, j1, g);
    AddedAtVal(s1, j, h);
    ShiftSum(w, x, t, Val(s), Val(s1), Val(s2), over, l1, l2, p, g * Pow(j1), h * Pow(j));
  }

  /** What the limb at i adds to the value, before and after shifting. */
  lemma {:induction false} LimbTerm(a: seq<Limb>, i: nat, k: nat, r: nat, g: nat, h: nat) returns (x: nat)
    requires r < 32 && i < |a| && g == Goes(a[i], r) && h == Kept(a[i], r) * Pow2(r)
    ensures Val(a[..i + 1]) == Val(a[..i]) + x && h * Pow(i + k) + g * Pow(i + k + 1) == x * Scaled(r, k)
  {
    x := a[i] * Pow(i);
    ValPrefix(a, i);
    ShiftTerm(a[i], i, k, r);
    ScaledIs(r, k);
  }

  lemma {:induction false} ShiftNext(
    s: seq<Limb>, over: nat, a: seq<Limb>, i: nat, k: nat, r: nat, g: nat, h: nat, s1: seq<Limb>, s2: seq<Limb>)
    returns (over': nat)
    requires r < 32 && i < |a| && ShiftSoFar(s, over, a, i, k, r)
    requires g == Goes(a[i], r) && h == Kept(a[i], r) * Pow2(r)
    requires (i + k + 1 < |s| ==> s[i + k + 1] + g < BASE) && s1 == AddedAt(s, i + k + 1, g)
    requires (i + k < |s| ==> s1[i + k] + h < BASE) && s2 == AddedAt(s1, i + k, h)
    ensures ShiftSoFar(s2, over', a, i + 1, k, r)
  {
    var n := |s|;
    var l1, l2 := Lost(n, i + k + 1, g), Lost(n, i + k, h);
    over' := over + l1 + l2;
    var x := LimbTerm(a, i, k, r, g, h);
    ShiftValue(s, s1, s2, i + k, i + k + 1, g, h, Val(a[..i]), x, Scaled(r, k), over, l1, l2, Pow(n));
  }

  /** operator<<=. */
  method ShiftLeft(pn: array<Limb>, shift: nat)
    modifies pn
    ensures Val(pn[..]) == Wrap(Val(old(pn[..])) * Pow2(shift), pn.Length)
  {
    var a := pn[..];
    var n := pn.Length;
    for i := 0 to n
      invariant forall m :: 0 <= m < i ==> pn[m] == 0
    {
      pn[i] := 0;
    }
    var k, r := shift / 32, shift % 32;
    ghost var over: nat := 0;
    ZeroVal(pn[..]);
    for i := 0 to n
      invariant ShiftSoFar(pn[..], over, a, i, k, r)
    {
      ghost var s := pn[..];
      over := ShiftRound(pn, a, i, k, r, over);
    }
    assert a[..n] == a;
    ScaledIs(r, k);
    TwoSum(r, 32 * k);
    TwoPow(k);
    ValBound(pn[..]);
    WrapUnique(Val(pn[..]), over, n, Val(a) * Pow2(shift));
  }

  /** One limb of the loop of operator<<=. */
  method ShiftRound(pn: array<Limb>, a: seq<Limb>, i: nat, k: nat, r: nat, ghost over: nat) returns (ghost over': nat)
    requires r < 32 && i < |a| && ShiftSoFar(pn[..], over, a, i, k, r)
    modifies pn
    ensures ShiftSoFar(pn[..], over', a, i + 1, k, r)
  {
    ghost var s, x := pn[..], a[i];
    ShiftParts(x, r);
    RoomFor(s, over, a, i, k, r);
    if i + k + 1 < pn.Length && r != 0 {
      QuotIsDiv(a[i], Pow2(32 - r));
      pn[i + k + 1] := BitOr(pn[i + k + 1], a[i] / Pow2(32 - r));
    }
    ghost var s1 := pn[..];
    assert s1 == AddedAt(s, i + k + 1, Goes(x, r));
    if i + k < pn.Length {
      ShiftLimbKeeps(x, r);
      OrIsSum(pn[i + k], Kept(x, r), r);
      pn[i + k] := BitOr(pn[i + k], ShiftLimb(a[i], r));
    }
    ghost var s2 := pn[..];
    assert s2 == AddedAt(s1, i + k, Kept(x, r) * Pow2(r));
    over' := ShiftNext(s, over, a, i, k, r, Goes(x, r), Kept(x, r) * Pow2(r), s1, s2);
  }

  /** There is room in both limbs. */
  lemma {:induction false} RoomFor(s: seq<Limb>, over: nat, a: seq<Limb>, i: nat, k: nat, r: nat)
    requires r < 32 && i < |a| && ShiftSoFar(s, over, a, i, k, r)
    ensures r == 0 ==> Goes(a[i], r) == 0
    ensures i + k + 1 < |s| ==> s[i + k + 1] == 0 && Goes(a[i], r) < BASE
    ensures i + k < |s| ==> s[i + k] < Pow2(r) && s[i + k] + Kept(a[i], r) * Pow2(r) < BASE
  {
    GoesSmall(a[i], r);
    if i > 0 {
      GoesSmall(a[i - 1], r);
    }
    if i + k < |s| {
      HalvesOfLimb(r);
      SumFits(s[i + k], Kept(a[i], r), Pow2(32 - r), Pow2(r));
    }
  }

  lemma {:induction false} GoesSmall(x: Limb, r: nat)
    requires r < 32
    ensures Goes(x, r) < Pow2(r) <= BASE
  {
    ShiftParts(x, r);
    TwoBase();
    TwoMono(r, 32);
  }

  lemma {:induction false} SumFits(x: nat, lo: nat, h: nat, p: nat)
    requires x < p && lo < h && h * p == BASE
    ensures x + lo * p < BASE
  {
    MulMono(lo + 1, h, p);
    Distribute(lo, 1, 0, p);
  }

  // ---------------------------------------------------------------- shifting right

  /** What a right shift by r bits takes out of a limb, and what it leaves. */
  function Falls(x: Limb, r: nat): nat {
    Rem(x, Pow2(r))
  }

  function Left(x: Limb, r: nat): nat {
    Quot(x, Pow2(r))
  }

  lemma {:induction false} FallParts(x: Limb, r: nat)
    requires r < 32
    ensures x == Left(x, r) * Pow2(r) + Falls(x, r) && Falls(x, r) < Pow2(r) && Left(x, r) < Pow2(32 - r) <= BASE
  {
    QuotRem(x, Pow2(r));
    HalvesOfLimb(r);
    TwoBase();
    TwoMono(32 - r, 32);
    if Left(x, r) >= Pow2(32 - r) {
      MulMono(Pow2(32 - r), Left(x, r), Pow2(r));
    }
  }

  /** The bits of a limb that move down, at the top of the limb below. */
  lemma {:induction false} MovesDown(x: Limb, r: nat)
    requires 0 < r < 32
    ensures ShiftLimb(x, 32 - r) == Falls(x, r) * Pow2(32 - r)
  {
    ShiftLimbKeeps(x, 32 - r);
  }

  /** Limbs from k on, below i, have been shifted down by r bits. */
  ghost predicate FallSoFar(s: seq<Limb>, a: seq<Limb>, i: nat, k: nat, r: nat)
    requires r < 32
  {
    var sized := |s| == |a| && i <= |a|;
    && sized
    && (forall m :: 0 <= m < |s| && m >= i - k ==> s[m] == 0)
    && (i > k ==> s[i - k - 1] == Left(a[i - 1], r) && Val(s) * Pow2(r) + Falls(a[k], r) == Val(a[k..i]))
    && (i <= k ==> Val(s) == 0)
  }

  lemma {:induction false} FallFirst(s: seq<Limb>, a: seq<Limb>, k: nat, r: nat)
    requires r < 32 && k < |a| && FallSoFar(s, a, k, k, r)
    ensures Left(a[k], r) < BASE && FallSoFar(s[0 := Left(a[k], r)], a, k + 1, k, r)
  {
    FallParts(a[k], r);
    ValUpdate(s, 0, Left(a[k], r));
    assert a[k..k + 1][..0] == [];
    assert Val(a[k..k + 1]) == a[k];
  }

  lemma {:induction false} FallTerm(x: Limb, p: nat, r: nat)
    requires r < 32
    ensures (Falls(x, r) * Pow2(32 - r)) * p * Pow2(r) + Left(x, r) * (BASE * p) * Pow2(r) == x * (BASE * p)
  {
    FallParts(x, r);
    HalvesOfLimb(r);
    Rotate(Falls(x, r), Pow2(32 - r), p, Pow2(r));
    Rotate2(Left(x, r), BASE * p, Pow2(r));
    Distribute(Left(x, r) * Pow2(r), Falls(x, r), 0, BASE * p);
    assert Falls(x, r) * (Pow2(32 - r) * Pow2(r) * p) == Falls(x, r) * (BASE * p);
  }

  lemma {:induction false} Rotate(f: nat, h: nat, p: nat, t: nat)
    ensures (f * h) * p * t == f * (h * t * p)
  {
    assert (f * h) * p * t == f * h * (p * t) by { Associate(f * h, p, t); }
    assert f * h * (p * t) == f * (h * (p * t)) by { Associate(f, h, p * t); }
    assert h * (p * t) == h * t * p by { Associate(h, p, t); Associate(h, t, p); assert p * t == t * p; }
  }

  lemma {:induction false} Rotate2(l: nat, p: nat, t: nat)
    ensures l * p * t == (l * t) * p
  {
  }

  lemma {:induction false} FallSum(v: nat, m1: nat, m2: nat, v': nat, t: nat, f: nat, w: nat, x: nat)
    requires v * t + f == w && v' == v + m1 + m2 && m1 * t + m2 * t == x
    ensures v' * t + f == w + x
  {
    Distribute(v, m1, m2, t);
  }

  /** What the limb at i adds to the value, before and after shifting down. */
  lemma {:induction false} FallenTerm(
    a: seq<Limb>, i: nat, k: nat, r: nat, h: nat, j: nat, y: nat, z: nat, t: nat) returns (m1: nat, m2: nat, x: nat)
    requires r < 32 && k < i < |a| && h + 1 == j == i - k && t == Pow2(r)
    requires y == Falls(a[i], r) * Pow2(32 - r) && z == Left(a[i], r)
    ensures m1 == y * Pow(h) && m2 == z * Pow(j)
    ensures Val(a[k..i + 1]) == Val(a[k..i]) + x && m1 * t + m2 * t == x
  {
    m1, m2, x := y * Pow(h), z * Pow(j), a[i] * Pow(j);
    SliceVal(a, k, i);
    FallTerm(a[i], Pow(h), r);
  }

  lemma {:induction false} SliceVal(a: seq<Limb>, k: nat, i: nat)
    requires k <= i < |a|
    ensures Val(a[k..i + 1]) == Val(a[k..i]) + a[i] * Pow(i - k)
  {
    ValPrefix(a[k..], i - k);
    assert a[k..][..i - k + 1] == a[k..i + 1] && a[k..][..i - k] == a[k..i];
  }

  lemma {:induction false} FallRoom(s: seq<Limb>, a: seq<Limb>, i: nat, k: nat, r: nat)
    requires r < 32 && k < i < |a| && FallSoFar(s, a, i, k, r)
    ensures s[i - k - 1] < Pow2(32 - r) && s[i - k - 1] + Falls(a[i], r) * Pow2(32 - r) < BASE
    ensures r == 0 ==> Falls(a[i], r) == 0
  {
    FallParts(a[i - 1], r);
    FallParts(a[i], r);
    HalvesOfLimb(r);
    SumFits(s[i - k - 1], Falls(a[i], r), Pow2(r), Pow2(32 - r));
  }

  lemma {:induction false} FallValue(
    s: seq<Limb>, a: seq<Limb>, i: nat, k: nat, r: nat, y: nat, s1: seq<Limb>, s2: seq<Limb>)
    requires r < 32 && k < i < |a| == |s| && y == Falls(a[i], r) * Pow2(32 - r)
    requires Val(s) * Pow2(r) + Falls(a[k], r) == Val(a[k..i])
    requires s[i - k - 1] + y < BASE && Left(a[i], r) < BASE && s[i - k] == 0
    requires s1 == s[i - k - 1 := s[i - k - 1] + y] && s2 == s1[i - k := Left(a[i], r)]
    ensures Val(s2) * Pow2(r) + Falls(a[k], r) == Val(a[k..i + 1])
  {
    var h, j, z := i - k - 1, i - k, Left(a[i], r);
    var t := Pow2(r);
    var m1, m2, x := FallenTerm(a, i, k, r, h, j, y, z, t);
    RaiseBoth(s, h, j, y, z, s1, s2);
    FallSum(Val(s), m1, m2, Val(s2), t, Falls(a[k], r), Val(a[k..i]), x);
  }

  lemma {:induction false} RaiseBoth(s: seq<Limb>, h: nat, j: nat, y: nat, x: nat, s1: seq<Limb>, s2: seq<Limb>)
    requires j == h + 1 < |s| && s[h] + y < BASE && x < BASE && s[j] == 0
    requires s1 == s[h := s[h] + y] && s2 == s1[j := x]
    ensures Val(s2) == Val(s) + y * Pow(h) + x * Pow(j)
  {
    RaiseLimb(s, h, y, s1);
    RaiseLimb(s1, j, x, s2);
  }

  lemma {:induction false} FallNext(
    s: seq<Limb>, a: seq<Limb>, i: nat, k: nat, r: nat, y: nat, s1: seq<Limb>, s2: seq<Limb>)
    requires r < 32 && k < i < |a| && FallSoFar(s, a, i, k, r) && y == Falls(a[i], r) * Pow2(32 - r)
    requires s[i - k - 1] + y < BASE && Left(a[i], r) < BASE
    requires s1 == s[i - k - 1 := s[i - k - 1] + y] && s2 == s1[i - k := Left(a[i], r)]
    ensures FallSoFar(s2, a, i + 1, k, r)
  {
    FallValue(s, a, i, k, r, y, s1, s2);
  }

  lemma {:induction false} RaiseLimb(s: seq<Limb>, j: nat, y: nat, s1: seq<Limb>)
    requires j < |s| && s[j] + y < BASE && s1 == s[j := s[j] + y]
    ensures Val(s1) == Val(s) + y * Pow(j)
  {
    ValUpdate(s, j, s[j] + y);
    Distribute(s[j], y, 0, Pow(j));
  }

  /** One limb of the loop of operator>>=. */
  method FallRound(pn: array<Limb>, a: seq<Limb>, i: nat, k: nat, r: nat)
    requires r < 32 && i < |a| && FallSoFar(pn[..], a, i, k, r)
    modifies pn
    ensures FallSoFar(pn[..], a, i + 1, k, r)
  {
    ghost var s, x := pn[..], a[i];
    FallParts(x, r);
    if i > k {
      FallRoom(s, a, i, k, r);
      if r != 0 {
        MovesDown(x, r);
        OrIsSum(pn[i - k - 1], Falls(x, r), 32 - r);
        pn[i - k - 1] := BitOr(pn[i - k - 1], ShiftLimb(a[i], 32 - r));
      }
      ghost var s1 := pn[..];
      assert s1 == s[i - k - 1 := s[i - k - 1] + Falls(x, r) * Pow2(32 - r)];
      QuotIsDiv(a[i], Pow2(r));
      pn[i - k] := BitOr(pn[i - k], a[i] / Pow2(r));
      assert pn[..] == s1[i - k := pn[i - k]] && pn[i - k] == Left(x, r);
      FallNext(s, a, i, k, r, Falls(x, r) * Pow2(32 - r), s1, pn[..]);
    } else if i == k {
      FallFirst(s, a, k, r);
      QuotIsDiv(a[i], Pow2(r));
      pn[i - k] := BitOr(pn[i - k], a[i] / Pow2(r));
      assert pn[..] == s[0 := pn[0]] && pn[0] == Left(x, r);
    }
  }

  /** operator>>=. */
  method ShiftRight(pn: array<Limb>, shift: nat)
    modifies pn
    ensures Val(pn[..]) == Quot(Val(old(pn[..])), Pow2(shift))
  {
    var a := pn[..];
    var n := pn.Length;
    for i := 0 to n
      invariant forall m :: 0 <= m < i ==> pn[m] == 0
    {
      pn[i] := 0;
    }
    var k, r := shift / 32, shift % 32;
    ZeroVal(pn[..]);
    for i := 0 to n
      invariant FallSoFar(pn[..], a, i, k, r)
    {
      FallRound(pn, a, i, k, r);
    }
    TwoSum(r, 32 * k);
    TwoPow(k);
    FallEnds(pn[..], a, k, r);
  }

  lemma {:induction false} FallEnds(s: seq<Limb>, a: seq<Limb>, k: nat, r: nat)
    requires r < 32 && FallSoFar(s, a, |a|, k, r)
    ensures Val(s) == Quot(Val(a), Pow2(r) * Pow(k))
  {
    if k < |a| {
      var q, f := Val(s), Falls(a[k], r);
      FallParts(a[k], r);
      ValSplit(a, k);
      ValBound(a[..k]);
      assert a[k..|a|] == a[k..];
      FloorOf(q, f, Pow2(r), Pow(k), Val(a[..k]), Val(a));
    } else {
      ValBound(a);
      PowSum(k - |a|, |a|);
      MulMono(1, Pow(k - |a|), Pow(|a|));
      MulMono(1, Pow2(r), Pow(k));
      QuotUnique(Val(a), Pow2(r) * Pow(k), 0, Val(a));
    }
  }

  lemma {:induction false} FloorOf(q: nat, f: nat, t: nat, p: nat, low: nat, v: nat)
    requires f < t && low < p && v == low + (q * t + f) * p
    ensures t * p > 0 && Quot(v, t * p) == q
  {
    MulMono(f + 1, t, p);
    Distribute(f, 1, 0, p);
    Distribute(q * t, f, 0, p);
    Associate(q, t, p);
    QuotUnique(v, t * p, q, f * p + low);
  }
}
