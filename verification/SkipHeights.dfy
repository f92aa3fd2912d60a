/**
 Skip heights: the height that each block's skip pointer leads to, the choice GetAncestor makes
 between a skip and a single step, and how many rounds it takes. Heights below 2^k are at most
 k * k / 4 + 2 * k - 7 rounds apart, for k of ten and more: 110 rounds below 2^18.

 A round leaves the highest bit in which the two heights differ alone until the bits below it
 are worn down, two at a time from an odd height; then it turns that bit off, and either the
 search is at an end or all the bits below are ones.
 */
module SkipHeights {
  import opened Numbers

  // ---------------------------------------------------------------- skip heights

  /** The number with its lowest one bit turned off: n & (n - 1). */
  function InvertLowestOne(n: nat): (r: nat)
    ensures n > 0 ==> r < n
  {
    if n == 0 then 0 else if n % 2 == 1 then n - 1 else 2 * InvertLowestOne(n / 2)
  }

  /** A number in binary. */
  function Binary(n: nat): bv32 {
    if n == 0 then 0 else (Binary(n / 2) << 1) | (if n % 2 == 1 then 1 else 0)
  }

  lemma {:induction false} MaskOdd(x: bv32)
    ensures ((x << 1) | 1) & (((x << 1) | 1) - 1) == (x << 1) | 0
  {
  }

  lemma {:induction false} MaskEven(x: bv32, y: bv32)
    requires y == x & (x - 1)
    ensures (y << 1) | 0 == ((x << 1) | 0) & (((x << 1) | 0) - 1)
  {
  }

  lemma {:induction false} BinaryStep(n: nat, h: nat, b: bv32)
    requires h == n / 2 && b == Binary(h)
    ensures n % 2 == 0 ==> Binary(n) == (b << 1) | 0
    ensures n % 2 == 1 ==> Binary(n) == (b << 1) | 1
  {
  }

  lemma {:induction false} BinaryTwice(m: nat, b: bv32)
    requires b == Binary(m)
    ensures Binary(2 * m) == (b << 1) | 0 && Binary(2 * m + 1) == (b << 1) | 1
  {
    BinaryStep(2 * m, m, b);
    BinaryStep(2 * m + 1, m, b);
  }

  lemma {:induction false} InvertOdd(m: nat, b: bv32)
    requires b == Binary(2 * m + 1)
    ensures Binary(2 * m) == b & (b - 1)
  {
    var x := Binary(m);
    BinaryTwice(m, x);
    MaskOdd(x);
  }

  lemma {:induction false} InvertEven(m: nat, k: nat, x: bv32, b: bv32)
    requires x == Binary(m) && b == Binary(2 * m) && Binary(k) == x & (x - 1)
    ensures Binary(2 * k) == b & (b - 1)
  {
    BinaryTwice(m, x);
    BinaryTwice(k, x & (x - 1));
    MaskEven(x, x & (x - 1));
  }

  /** Turning off the lowest one bit is masking with the number below. */
  lemma {:induction false} InvertIsMask(n: nat, b: bv32)
    requires n > 0 && b == Binary(n)
    ensures Binary(InvertLowestOne(n)) == b & (b - 1)
  {
    if n % 2 == 1 {
      InvertOdd(n / 2, b);
    } else {
      InvertIsMask(n / 2, Binary(n / 2));
      InvertEven(n / 2, InvertLowestOne(n / 2), Binary(n / 2), b);
    }
  }

  /** The height that a block's skip pointer leads to. */
  function GetSkipHeight(height: nat): (r: nat)
    ensures height > 0 ==> r < height
  {
    if height < 2 then 0
    else if height % 2 == 1 then InvertLowestOne(InvertLowestOne(height - 1)) + 1
    else InvertLowestOne(height)
  }

  // ---------------------------------------------------------------- rounds of a search

  /** Where one round of GetAncestor leads, when the skip pointer has been built. */
  function Round(h: nat, t: nat): (r: nat)
    requires t < h
    ensures t <= r < h
  {
    var skip, before := GetSkipHeight(h), GetSkipHeight(h - 1);
    if skip == t || (skip > t && !(before < skip - 2 && before >= t)) then skip else h - 1
  }

  /**
   A round skips to the target or to a height above it, but only if the block before does not skip at
   least three further without passing the target; otherwise it goes back by one.
   */
  lemma {:induction false} RoundChoice(h: nat, t: nat)
    requires t < h
    ensures var skip, before := GetSkipHeight(h), GetSkipHeight(h - 1);
      && (skip == t ==> Round(h, t) == t) && (skip < t ==> Round(h, t) == h - 1)
      && (skip > t && t <= before <= skip - 3 ==> Round(h, t) == h - 1)
      && (skip > t && (before < t || before >= skip - 2) ==> Round(h, t) == skip)
  {
  }

  /** The number of rounds from one height to another. */
  function Rounds(h: nat, t: nat): nat
    decreases h
  {
    if h <= t then 0 else 1 + Rounds(Round(h, t), t)
  }

  // ---------------------------------------------------------------- binary numbers

  /** The number of one bits. */
  function Ones(n: nat): nat {
    if n == 0 then 0 else n % 2 + Ones(n / 2)
  }

  /** The lowest m bits are zero. */
  predicate Aligned(b: nat, m: nat) {
    m == 0 || (b % 2 == 0 && Aligned(b / 2, m - 1))
  }

  lemma {:induction false} AlignedNext(e: nat, h: nat, m: nat, n: nat)
    requires h == e / 2 && n == m + 1
    ensures Aligned(e, n) <==> e % 2 == 0 && Aligned(h, m)
  {
  }

  lemma {:induction false} AlignedDown(b: nat, m: nat)
    requires m > 0 && Aligned(b, m)
    ensures Aligned(b, m - 1) && Aligned(b + Pow2(m - 1), m - 1)
  {
    if m > 1 {
      AlignedDown(b / 2, m - 1);
      assert (b + Pow2(m - 1)) / 2 == b / 2 + Pow2(m - 2);
    }
  }

  lemma {:induction false} InvertOnes(n: nat)
    requires n > 0
    ensures Ones(InvertLowestOne(n)) == Ones(n) - 1
  {
    if n % 2 == 1 {
      assert (n - 1) / 2 == n / 2;
    } else {
      InvertOnes(n / 2);
      assert (2 * InvertLowestOne(n / 2)) / 2 == InvertLowestOne(n / 2);
    }
  }

  lemma {:induction false} NoOnes(n: nat)
    ensures Ones(n) == 0 <==> n == 0
  {
    if n > 0 {
      NoOnes(n / 2);
    }
  }

  lemma {:induction false} OnesAtMost(n: nat, m: nat)
    requires n < Pow2(m)
    ensures Ones(n) <= m
  {
    if n > 0 {
      OnesAtMost(n / 2, m - 1);
    }
  }

  lemma {:induction false} AllOnes(m: nat)
    ensures Ones(Pow2(m) - 1) == m
  {
    if m > 0 {
      AllOnes(m - 1);
      assert (Pow2(m) - 1) / 2 == Pow2(m - 1) - 1;
    }
  }

  /** Bits above the lowest one are left alone. */
  lemma {:induction false} InvertAbove(b: nat, m: nat, r: nat)
    requires Aligned(b, m) && 0 < r < Pow2(m)
    ensures InvertLowestOne(b + r) == b + InvertLowestOne(r)
  {
    if r % 2 == 0 {
      InvertAbove(b / 2, m - 1, r / 2);
      assert (b + r) / 2 == b / 2 + r / 2;
    }
  }

  lemma {:induction false} InvertTop(b: nat, m: nat)
    requires Aligned(b, m + 1)
    ensures InvertLowestOne(b + Pow2(m)) == b
  {
    if m > 0 {
      InvertTop(b / 2, m - 1);
      assert (b + Pow2(m)) / 2 == b / 2 + Pow2(m - 1);
    }
  }

  /** What is turned off is at least the lowest bit that can be on. */
  lemma {:induction false} InvertTakes(b: nat, m: nat)
    requires Aligned(b, m) && b > 0
    ensures InvertLowestOne(b) + Pow2(m) <= b && Aligned(InvertLowestOne(b), m)
  {
    if m > 0 {
      var h, n := b / 2, m - 1;
      InvertTakes(h, n);
      var i := InvertLowestOne(h);
      assert InvertLowestOne(b) == 2 * i;
      AlignedNext(2 * i, i, n, m);
    }
  }

  // ---------------------------------------------------------------- clearing the highest different bit

  /** Bit m is the highest in which heights differ that are on either side of `top`, and none is below b. */
  ghost predicate Parts(b: nat, m: nat, top: nat) {
    Aligned(b, m + 1) && top == b + Pow2(m)
  }

  /** Heights from `top` on are even where their distance from it is. */
  lemma {:induction false} PartsEven(b: nat, m: nat, top: nat)
    requires Parts(b, m, top) && m > 0
    ensures top % 2 == 0 && b % 2 == 0 && top >= 2 && top - b >= 2
  {
  }

  lemma {:induction false} SumParity(x: nat, y: nat)
    requires x % 2 == 0 && y % 2 == 0
    ensures (x + y) % 2 == 0 && (x + y + 1) % 2 == 1
  {
  }

  lemma {:induction false} InvertPart(b: nat, m: nat, top: nat, r: nat)
    requires Parts(b, m, top) && r < top - b
    ensures InvertLowestOne(top + r) == if r == 0 then b else top + InvertLowestOne(r)
  {
    AlignedDown(b, m + 1);
    if r == 0 {
      InvertTop(b, m);
    } else {
      InvertAbove(top, m, r);
    }
  }

  lemma {:induction false} SkipEvenIs(h: nat, x: nat)
    requires h >= 2 && h % 2 == 0 && x == InvertLowestOne(h)
    ensures GetSkipHeight(h) == x
  {
  }

  lemma {:induction false} SkipOddIs(h: nat, low: nat, x: nat, y: nat)
    requires h == low + 1 && low >= 2 && low % 2 == 0 && x == InvertLowestOne(low) && y == InvertLowestOne(x)
    ensures GetSkipHeight(h) == y + 1
  {
  }

  /** The skips from `top` and from the height above it. */
  lemma {:induction false} SkipTop(b: nat, m: nat, top: nat)
    requires Parts(b, m, top) && m > 0
    ensures GetSkipHeight(top) == b && GetSkipHeight(top + 1) == InvertLowestOne(b) + 1
  {
    PartsEven(b, m, top);
    InvertPart(b, m, top, 0);
    SkipEvenIs(top, b);
    SkipOddIs(top + 1, top, b, InvertLowestOne(b));
  }

  /** The skip from an even height; `d` is what is left of e without its lowest one. */
  lemma {:induction false} SkipEven(b: nat, m: nat, top: nat, e: nat, d: nat, h: nat)
    requires Parts(b, m, top) && m > 0 && 0 < e < top - b && e % 2 == 0 && d == InvertLowestOne(e) && h == top + e
    ensures GetSkipHeight(h) == top + d
  {
    PartsEven(b, m, top);
    InvertPart(b, m, top, e);
    SkipEvenIs(h, top + d);
  }

  /** The skip from an odd height; `f` is what is left of e without its two lowest ones. */
  lemma {:induction false} SkipOdd(b: nat, m: nat, top: nat, e: nat, d: nat, f: nat, h: nat)
    requires Parts(b, m, top) && m > 0 && 0 < e < top - b && e % 2 == 0 && h == top + e + 1
    requires d == InvertLowestOne(e) && f == InvertLowestOne(d)
    ensures GetSkipHeight(h) == 1 + if d == 0 then b else top + f
  {
    PartsEven(b, m, top);
    InvertPart(b, m, top, e);
    InvertPart(b, m, top, d);
    SkipOddIs(h, top + e, top + d, if d == 0 then b else top + f);
  }

  /** From an odd height the skip is taken whenever it does not lead too far. */
  lemma {:induction false} OddTaken(h: nat, t: nat)
    requires t < h && h % 2 == 1
    ensures Round(h, t) == if GetSkipHeight(h) >= t then GetSkipHeight(h) else h - 1
  {
  }

  /** A skip that turns off a bit of b leads too far, unless b is zero. */
  lemma {:induction false} SkipBelow(b: nat, m: nat, t: nat)
    requires Aligned(b, m + 1) && b <= t <= InvertLowestOne(b) + 1
    ensures b == 0
  {
    if b > 0 {
      InvertTakes(b, m + 1);
    }
  }

  type Count = nat -> nat

  /** R gives the number of rounds down to t, for every height. */
  ghost predicate Counts(R: Count, t: nat) {
    R(t) == 0 && forall h: nat {:trigger Round(h, t)} :: t < h ==> R(h) == 1 + R(Round(h, t))
  }

  lemma {:induction false} CountNext(R: Count, h: nat, t: nat, r: nat)
    requires Counts(R, t) && t < h && r == Round(h, t)
    ensures R(h) == 1 + R(r)
  {
  }

  lemma {:induction false} CountAtMost(R: Count, h: nat, t: nat)
    requires Counts(R, t) && t <= h
    ensures R(h) <= h - t
    decreases h
  {
    if t < h {
      CountAtMost(R, Round(h, t), t);
    }
  }

  /** What GetAncestor does at an odd height whose skip is known. */
  lemma {:induction false} OddNext(R: Count, h: nat, t: nat, skip: nat)
    requires Counts(R, t) && t < h && h % 2 == 1 && skip == GetSkipHeight(h)
    ensures R(h) == 1 + R(if skip >= t then skip else h - 1)
    ensures skip >= t ==> R(h) <= 1 + skip - t
  {
    OddTaken(h, t);
    CountNext(R, h, t, Round(h, t));
    CountAtMost(R, Round(h, t), t);
  }

  /** What the better of two skips makes of the count: the own one, or the one from a step below. */
  ghost predicate Chosen(R: Count, h: nat, t: nat, skip: nat, before: nat) {
    if before < skip - 2 && before >= t then R(h) == 2 + R(before) <= 2 + before - t else R(h) == 1 + R(skip)
  }

  /** At an even height it may step down first, to take the skip from there. */
  lemma {:induction false} EvenNext(R: Count, h: nat, low: nat, t: nat, skip: nat, before: nat)
    requires Counts(R, t) && h % 2 == 0 && h == low + 1 && t < skip < h
    requires skip == GetSkipHeight(h) && before == GetSkipHeight(low)
    ensures Chosen(R, h, t, skip, before)
  {
    CountNext(R, h, t, Round(h, t));
    if before < skip - 2 && before >= t {
      OddNext(R, low, t, before);
    }
  }

  /** The search is at a height from `top` on; `rest` rounds are enough from the one just below it. */
  ghost predicate Clearing(R: Count, b: nat, m: nat, top: nat, t: nat, rest: nat) {
    Counts(R, t) && Parts(b, m, top) && m > 0 && b <= t < top && rest >= 1 && R(top - 1) <= rest
  }

  lemma {:induction false} TopPhase(R: Count, b: nat, m: nat, top: nat, t: nat, rest: nat)
    requires Clearing(R, b, m, top, t, rest)
    ensures R(top) <= 1 + rest
  {
    SkipTop(b, m, top);
    CountNext(R, top, t, Round(top, t));
    PartsEven(b, m, top);
    CountAtMost(R, t, t);
  }

  /** How many rounds it takes at most to turn the highest bit off, with the even number e below it. */
  function EvenCost(e: nat, ones: nat): nat {
    if e % 8 == 0 then ones + 1
    else if e % 4 == 2 then if ones >= 3 then ones / 2 + 3 else ones + 1
    else if ones >= 2 then (ones - 1) / 2 + 4 else 2
  }

  lemma {:induction false} OnesInverted(e: nat, d: nat)
    requires e > 0 && d == InvertLowestOne(e)
    ensures Ones(d) == Ones(e) - 1 && (d == 0 <==> Ones(e) == 1)
  {
    InvertOnes(e);
    NoOnes(d);
  }

  lemma {:induction false} EvenInverted(e: nat, d: nat)
    requires e > 0 && e % 2 == 0 && d == InvertLowestOne(e)
    ensures d % 2 == 0 && d + 2 <= e
  {
  }

  /** An even number with two of its ones turned off. */
  lemma {:induction false} TwoInverted(e: nat, d: nat, c: nat)
    requires e > 0 && e % 2 == 0 && d == InvertLowestOne(e) && d > 0 && c == InvertLowestOne(d)
    ensures c % 2 == 0 && c + 4 <= e && Ones(c) == Ones(e) - 2
  {
    OnesInverted(e, d);
    EvenInverted(e, d);
    OnesInverted(d, c);
    EvenInverted(d, c);
  }

  /** The height above `top`. */
  lemma {:induction false} FirstWorth(R: Count, b: nat, m: nat, top: nat, t: nat, rest: nat)
    requires Clearing(R, b, m, top, t, rest)
    ensures R(top + 1) <= 2 + rest
  {
    PartsEven(b, m, top);
    SkipTop(b, m, top);
    OddNext(R, top + 1, t, InvertLowestOne(b) + 1);
    if InvertLowestOne(b) + 1 >= t {
      SkipBelow(b, m, t);
    } else {
      TopPhase(R, b, m, top, t, rest);
    }
  }

  /** A round from an odd height; f is what is left of e without its two lowest ones. */
  lemma {:induction false} OddWorth(R: Count, b: nat, m: nat, top: nat, e: nat, d: nat, f: nat, t: nat, rest: nat)
    requires Clearing(R, b, m, top, t, rest) && 0 < e < top - b && e % 2 == 0
    requires d == InvertLowestOne(e) && f == InvertLowestOne(d)
    ensures d == 0 ==> R(top + e + 1) <= 2 || R(top + e + 1) == 1 + R(top + e)
    ensures d > 0 ==> R(top + e + 1) == 1 + R(top + f + 1)
  {
    PartsEven(b, m, top);
    var h := top + e + 1;
    SkipOdd(b, m, top, e, d, f, h);
    OddNext(R, h, t, if d == 0 then b + 1 else top + f + 1);
  }

  lemma {:induction false} OnesOdd(e: nat)
    requires e % 2 == 0
    ensures Ones(e + 1) == Ones(e) + 1
  {
    assert (e + 1) / 2 == e / 2;
  }

  lemma {:induction false} Mod(e: nat, d: nat, q: nat, r: nat)
    requires e == d * q + r && r < d
    ensures e / d == q && e % d == r
  {
    var x, y := e / d, e % d;
    assert e == d * x + y && y < d;
    if x < q {
      MulMonoLeft(d, x + 1, q);
    } else if x > q {
      MulMonoLeft(d, q + 1, x);
    }
  }

  /** What the remainder of a division by eight says. */
  lemma {:induction false} Residues(e: nat)
    ensures e % 4 == (if e % 8 < 4 then e % 8 else e % 8 - 4) && e % 2 == e % 8 % 2 && e / 2 % 4 == e % 8 / 2
  {
    var q, r := e / 8, e % 8;
    Mod(e, 4, if r < 4 then 2 * q else 2 * q + 1, if r < 4 then r else r - 4);
    Mod(e, 2, 4 * q + r / 2, r % 2);
    Mod(e / 2, 4, q, r / 2);
  }

  lemma {:induction false} AlignedTwo(e: nat)
    ensures Aligned(e, 2) <==> e % 4 == 0
  {
    var h := e / 2;
    AlignedNext(e, h, 1, 2);
    AlignedNext(h, h / 2, 0, 1);
    Residues(e);
    Residues(h);
  }

  lemma {:induction false} AlignedThree(e: nat)
    ensures Aligned(e, 3) <==> e % 8 == 0
  {
    var h := e / 2;
    AlignedNext(e, h, 2, 3);
    AlignedTwo(h);
    Residues(e);
  }

  /** The height two above `top`. */
  lemma {:induction false} SecondWorth(R: Count, b: nat, m: nat, top: nat, t: nat, rest: nat)
    requires Clearing(R, b, m, top, t, rest) && 2 < top - b
    ensures R(top + 2) <= 2 + rest
  {
    PartsEven(b, m, top);
    SkipTop(b, m, top);
    SkipEven(b, m, top, 2, 0, top + 2);
    var before := InvertLowestOne(b) + 1;
    EvenNext(R, top + 2, top + 1, t, top, before);
    TopPhase(R, b, m, top, t, rest);
    if before >= t {
      SkipBelow(b, m, t);
    }
  }

  lemma {:induction false} EvenChosen(
    R: Count, b: nat, m: nat, top: nat, e: nat, d: nat, p: nat, c: nat, f: nat, t: nat, h: nat, skip: nat, before: nat)
    requires Counts(R, t) && Parts(b, m, top) && m > 0 && b <= t < top
    requires 2 < e < top - b && e % 2 == 0 && e == p + 2
    requires d == InvertLowestOne(e) && c == InvertLowestOne(p) && f == InvertLowestOne(c)
    requires h == top + e && skip == top + d && before == if c == 0 then b + 1 else top + f + 1
    ensures Chosen(R, h, t, skip, before)
  {
    var low := top + p + 1;
    OwnSkip(b, m, top, e, d, h, skip);
    SkipOdd(b, m, top, p, c, f, low);
    EvenNext(R, h, low, t, skip, before);
  }

  lemma {:induction false} OwnSkip(b: nat, m: nat, top: nat, e: nat, d: nat, h: nat, skip: nat)
    requires Parts(b, m, top) && m > 0 && 0 < e < top - b && e % 2 == 0 && d == InvertLowestOne(e)
    requires h == top + e && skip == top + d
    ensures h % 2 == 0 && top <= skip < h && skip == GetSkipHeight(h)
  {
    PartsEven(b, m, top);
    SumParity(top, e);
    EvenInverted(e, d);
    SkipEven(b, m, top, e, d, h);
  }

  /** A round from an even height; f is what is left of p without its two lowest ones. */
  lemma {:induction false} EvenWorth(
    R: Count, b: nat, m: nat, top: nat, e: nat, d: nat, p: nat, c: nat, f: nat, t: nat, rest: nat)
    requires Clearing(R, b, m, top, t, rest) && 2 < e < top - b && e % 2 == 0 && e == p + 2
    requires d == InvertLowestOne(e) && c == InvertLowestOne(p) && f == InvertLowestOne(c)
    ensures c > 0 && f + 1 < d - 2 ==> R(top + e) == 2 + R(top + f + 1)
    ensures c > 0 && f + 1 >= d - 2 ==> R(top + e) == 1 + R(top + d)
    ensures c == 0 ==> R(top + e) <= 3 || R(top + e) == 1 + R(top + d)
  {
    EvenChosen(R, b, m, top, e, d, p, c, f, t, top + e, top + d, if c == 0 then b + 1 else top + f + 1);
  }

  /** With the odd number e + 1 below the highest bit: two ones go in a round, until one or none is left. */
  lemma {:induction false} OddPhase(R: Count, b: nat, m: nat, top: nat, e: nat, o: nat, t: nat, rest: nat)
    requires Clearing(R, b, m, top, t, rest) && e < top - b && e % 2 == 0 && o == Ones(e)
    ensures R(top + e + 1) <= (o + 1) / 2 + 2 + rest
    decreases e, 2
  {
    if e == 0 {
      FirstWorth(R, b, m, top, t, rest);
    } else {
      var d := InvertLowestOne(e);
      var f := InvertLowestOne(d);
      OddWorth(R, b, m, top, e, d, f, t, rest);
      if d > 0 {
        TwoInverted(e, d, f);
        OddPhase(R, b, m, top, f, o - 2, t, rest);
      } else {
        OnesInverted(e, d);
        EvenPhase(R, b, m, top, e, o, t, rest);
      }
    }
  }

  /** With the even number e below it: one goes in a round, or the height becomes odd first. */
  lemma {:induction false} EvenPhase(R: Count, b: nat, m: nat, top: nat, e: nat, o: nat, t: nat, rest: nat)
    requires Clearing(R, b, m, top, t, rest) && e < top - b && e % 2 == 0 && o == Ones(e)
    ensures R(top + e) <= EvenCost(e, o) + rest
    decreases e, 1
  {
    if e == 0 {
      TopPhase(R, b, m, top, t, rest);
    } else if e % 8 == 0 {
      EvenPhase0(R, b, m, top, e, o, t, rest);
    } else if e % 4 == 2 {
      EvenPhase2(R, b, m, top, e, o, t, rest);
    } else {
      Residues(e);
      EvenPhase4(R, b, m, top, e, o, t, rest);
    }
  }

  lemma {:induction false} Ending0(e: nat, d: nat)
    requires e > 0 && e % 8 == 0 && d == InvertLowestOne(e)
    ensures d % 8 == 0 && d + 8 <= e
  {
    AlignedThree(e);
    InvertTakes(e, 3);
    AlignedThree(d);
  }

  lemma {:induction false} BelowEnding0(e: nat, p: nat, c: nat, f: nat)
    requires e % 8 == 0 && e == p + 2 == c + 4 == f + 8
    ensures InvertLowestOne(p) == c && InvertLowestOne(c) == f
  {
    Mod(f, 8, e / 8 - 1, 0);
    AlignedThree(f);
    InvertAbove(f, 3, 6);
    InvertAbove(f, 3, 4);
  }

  /** Three zeros at the end: stepping down does not pay. */
  lemma {:induction false} EvenPhase0(R: Count, b: nat, m: nat, top: nat, e: nat, o: nat, t: nat, rest: nat)
    requires Clearing(R, b, m, top, t, rest) && 0 < e < top - b && e % 8 == 0 && o == Ones(e)
    ensures R(top + e) <= o + 1 + rest
    decreases e, 0
  {
    var d, p, c, f := InvertLowestOne(e), e - 2, e - 4, e - 8;
    Ending0(e, d);
    BelowEnding0(e, p, c, f);
    OnesInverted(e, d);
    EvenWorth(R, b, m, top, e, d, p, c, f, t, rest);
    Residues(d);
    EvenPhase(R, b, m, top, d, o - 1, t, rest);
  }

  lemma {:induction false} Ending2(e: nat, p: nat, c: nat, f: nat)
    requires e % 4 == 2 && p == e - 2 && c == InvertLowestOne(p) && f == InvertLowestOne(c)
    ensures InvertLowestOne(e) == p && p % 4 == 0 && f % 2 == 0 && (c > 0 ==> f + 8 <= p)
  {
    AlignedTwo(p);
    InvertAbove(p, 2, 2);
    if p > 0 {
      InvertTakes(p, 2);
      if c > 0 {
        InvertTakes(c, 2);
      }
    }
  }

  lemma {:induction false} Ending2Ones(e: nat, p: nat, c: nat, f: nat, o: nat)
    requires e > 0 && p == InvertLowestOne(e) && c == InvertLowestOne(p) && f == InvertLowestOne(c) && o == Ones(e)
    ensures Ones(p) == o - 1 && (c == 0 <==> o <= 2) && (c > 0 ==> Ones(f) == o - 3)
  {
    OnesInverted(e, p);
    if p > 0 {
      OnesInverted(p, c);
      if c > 0 {
        OnesInverted(c, f);
      }
    }
  }

  lemma {:induction false} SmallCost(e: nat, o: nat)
    requires e % 4 == 0 && o == Ones(e) && o <= 1
    ensures EvenCost(e, o) == o + 1
  {
    NoOnes(e);
  }

  lemma {:induction false} EvenPhase2(R: Count, b: nat, m: nat, top: nat, e: nat, o: nat, t: nat, rest: nat)
    requires Clearing(R, b, m, top, t, rest) && e < top - b && e % 4 == 2 && o == Ones(e)
    ensures R(top + e) <= (if o >= 3 then o / 2 + 3 else o + 1) + rest
    decreases e, 0
  {
    var p := e - 2;
    var c := InvertLowestOne(p);
    var f := InvertLowestOne(c);
    Ending2(e, p, c, f);
    Ending2Ones(e, p, c, f, o);
    if p == 0 {
      SecondWorth(R, b, m, top, t, rest);
    } else {
      EvenWorth(R, b, m, top, e, p, p, c, f, t, rest);
      if c > 0 {
        OddPhase(R, b, m, top, f, o - 3, t, rest);
      } else {
        SmallCost(p, o - 1);
        EvenPhase(R, b, m, top, p, o - 1, t, rest);
      }
    }
  }

  lemma {:induction false} Ending4(e: nat, p: nat, f: nat)
    requires e % 8 == 4 && p == e - 4 && f == InvertLowestOne(p)
    ensures InvertLowestOne(e) == p && InvertLowestOne(e - 2) == p && f % 2 == 0 && (p > 0 ==> f + 8 <= p)
  {
    Mod(p, 8, e / 8, 0);
    AlignedThree(p);
    InvertAbove(p, 3, 4);
    InvertAbove(p, 3, 2);
    if p > 0 {
      Ending0(p, f);
      Residues(f);
    }
  }

  lemma {:induction false} Ending4Ones(e: nat, p: nat, f: nat, o: nat)
    requires e > 0 && p == InvertLowestOne(e) && f == InvertLowestOne(p) && o == Ones(e)
    ensures (p == 0 <==> o == 1) && (p > 0 ==> Ones(f) == o - 2)
  {
    OnesInverted(e, p);
    if p > 0 {
      OnesInverted(p, f);
    }
  }

  lemma {:induction false} EvenPhase4(R: Count, b: nat, m: nat, top: nat, e: nat, o: nat, t: nat, rest: nat)
    requires Clearing(R, b, m, top, t, rest) && e < top - b && e % 8 == 4 && o == Ones(e)
    ensures R(top + e) <= (if o >= 2 then (o - 1) / 2 + 4 else 2) + rest
    decreases e, 0
  {
    var p := e - 4;
    var f := InvertLowestOne(p);
    Ending4(e, p, f);
    Ending4Ones(e, p, f, o);
    EvenWorth(R, b, m, top, e, p, e - 2, p, f, t, rest);
    if p > 0 {
      OddPhase(R, b, m, top, f, o - 2, t, rest);
    } else {
      TopPhase(R, b, m, top, t, rest);
    }
  }

  // ---------------------------------------------------------------- all bits below are ones

  /** Rounds enough from a height whose lowest m bits are ones to any that differs only in them. */
  function Tail(m: nat): nat {
    if m <= 2 then m else if m == 3 then 4 else Tail(m - 1) + (m - 1) / 2 + 2
  }

  lemma {:induction false} TailGrows(m: nat)
    requires m > 0
    ensures Tail(m - 1) < Tail(m)
  {
  }

  lemma {:induction false} FromThree(R: Count, b: nat, t: nat)
    requires Counts(R, t) && Aligned(b, 2) && b <= t < b + 4
    ensures R(b + 3) <= 2
  {
    CountAtMost(R, b + 3, t);
    if t == b {
      assert Parts(b, 1, b + 2);
      SkipTop(b, 1, b + 2);
      OddNext(R, b + 3, b, GetSkipHeight(b + 3));
      CountNext(R, b + 2, b, Round(b + 2, b));
      if InvertLowestOne(b) + 1 >= b {
        SkipBelow(b, 1, b);
      }
    }
  }

  lemma {:induction false} FromSeven(R: Count, b: nat, t: nat)
    requires Counts(R, t) && Aligned(b, 3) && b <= t < b + 8
    ensures R(b + 7) <= 4
  {
    CountAtMost(R, b + 7, t);
    if t <= b + 2 {
      var top := b + 4;
      assert Parts(b, 2, top);
      assert InvertLowestOne(2) == 0;
      SkipOdd(b, 2, top, 2, 0, 0, top + 3);
      OddNext(R, b + 7, t, b + 1);
      if t == b + 2 {
        SkipEven(b, 2, top, 2, 0, top + 2);
        SkipTop(b, 2, top);
        EvenNext(R, b + 6, b + 5, t, top, InvertLowestOne(b) + 1);
        CountAtMost(R, top, t);
      }
    }
  }

  lemma {:induction false} FromOnes(R: Count, b: nat, m: nat, power: nat, t: nat)
    requires Counts(R, t) && Aligned(b, m) && power == Pow2(m) && b <= t < b + power
    ensures R(b + power - 1) <= Tail(m)
    decreases m
  {
    if m <= 3 {
      FromFewOnes(R, b, m, power, t);
    } else {
      var n := m - 1;
      var half := Pow2(n);
      AlignedDown(b, m);
      TailGrows(m);
      if t >= b + half {
        FromOnes(R, b + half, n, half, t);
      } else {
        FromOnes(R, b, n, half, t);
        FromOnesBelow(R, b, n, b + half, half - 2, t, Tail(n));
      }
    }
  }

  lemma {:induction false} FromFewOnes(R: Count, b: nat, m: nat, power: nat, t: nat)
    requires Counts(R, t) && m <= 3 && Aligned(b, m) && power == Pow2(m) && b <= t < b + power
    ensures R(b + power - 1) <= Tail(m)
  {
    if m <= 1 {
      CountAtMost(R, b + power - 1, t);
    } else if m == 2 {
      FromThree(R, b, t);
    } else {
      FromSeven(R, b, t);
    }
  }

  lemma {:induction false} FromOnesBelow(R: Count, b: nat, n: nat, top: nat, e: nat, t: nat, rest: nat)
    requires Clearing(R, b, n, top, t, rest) && top == b + e + 2
    ensures R(top + e + 1) <= n / 2 + 2 + rest
  {
    PartsEven(b, n, top);
    EvenOnes(n, e);
    OddPhase(R, b, n, top, e, n - 1, t, rest);
  }

  lemma {:induction false} EvenOnes(n: nat, e: nat)
    requires e + 2 == Pow2(n) && e % 2 == 0
    ensures Ones(e) == n - 1
  {
    AllOnes(n);
    OnesOdd(e);
  }

  // ---------------------------------------------------------------- the bound

  lemma {:induction false} OnesAligned(e: nat, k: nat, m: nat)
    requires Aligned(e, k) && 0 < e < Pow2(m)
    ensures Ones(e) + k <= m
  {
    if k == 0 {
      OnesAtMost(e, m);
    } else {
      OnesAligned(e / 2, k - 1, m - 1);
    }
  }

  /** Rounds enough to turn off the bit above the lowest m. */
  function Worst(m: nat): nat {
    if m <= 9 then 7 else m - 2
  }

  lemma {:induction false} EvenWorst(e: nat, m: nat)
    requires e < Pow2(m) && e % 2 == 0
    ensures EvenCost(e, Ones(e)) <= Worst(m)
  {
    if e > 0 {
      AlignedNext(e, e / 2, 0, 1);
      OnesAligned(e, 1, m);
      if e % 4 == 0 {
        AlignedTwo(e);
        OnesAligned(e, 2, m);
      }
      if e % 8 == 0 {
        AlignedThree(e);
        OnesAligned(e, 3, m);
      }
      Residues(e);
    }
  }

  lemma {:induction false} OddWorst(e: nat, m: nat)
    requires e + 1 < Pow2(m) && e % 2 == 0
    ensures (Ones(e) + 1) / 2 + 2 <= Worst(m)
  {
    OnesOdd(e);
    OnesAtMost(e + 1, m);
  }

  /** From any height to any that first differs from it in bit m. */
  lemma {:induction false} Across(R: Count, b: nat, m: nat, top: nat, r: nat, t: nat)
    requires Counts(R, t) && Parts(b, m, top) && r < top - b && b <= t < top
    ensures R(top + r) <= Worst(m) + Tail(m)
  {
    if m == 0 {
      CountAtMost(R, top + r, t);
    } else {
      AlignedDown(b, m + 1);
      FromOnes(R, b, m, top - b, t);
      TailGrows(m);
      var rest := Tail(m);
      assert Clearing(R, b, m, top, t, rest);
      if r % 2 == 0 {
        EvenWorst(r, m);
        EvenPhase(R, b, m, top, r, Ones(r), t, rest);
      } else {
        var e := r - 1;
        OddWorst(e, m);
        OddPhase(R, b, m, top, e, Ones(e), t, rest);
      }
    }
  }

  /** Rounds enough between any two heights below 2^k. */
  function Most(k: nat): nat {
    if k == 0 then 0 else Worst(k - 1) + Tail(k - 1)
  }

  lemma {:induction false} Within(R: Count, b: nat, k: nat, power: nat, h: nat, t: nat)
    requires Counts(R, t) && Aligned(b, k) && power == Pow2(k) && b <= t <= h < b + power
    ensures R(h) <= Most(k)
    decreases k
  {
    if k > 0 {
      var n := k - 1;
      var half := Pow2(n);
      AlignedDown(b, k);
      if n > 0 {
        TailGrows(n);
      }
      if t >= b + half {
        Within(R, b + half, n, half, h, t);
      } else if h < b + half {
        Within(R, b, n, half, h, t);
      } else {
        Across(R, b, n, b + half, h - b - half, t);
      }
    }
  }

  lemma {:induction false} MostIs(k: nat)
    requires k >= 10
    ensures Most(k) == k * k / 4 + 2 * k - 7
  {
    if k == 10 {
      assert Tail(4) == 7 && Tail(5) == 11 && Tail(6) == 15 && Tail(7) == 20 && Tail(8) == 25;
    } else {
      MostIs(k - 1);
      Quarters(k - 1);
    }
  }

  lemma {:induction false} Squares(j: nat, jj: nat)
    requires jj == j * j
    ensures (2 * j) * (2 * j) == 4 * jj && (2 * j + 1) * (2 * j + 1) == 4 * jj + 4 * j + 1
    ensures (2 * j + 2) * (2 * j + 2) == 4 * jj + 8 * j + 4
  {
  }

  lemma {:induction false} Quarters(n: nat)
    ensures (n + 1) * (n + 1) / 4 == n * n / 4 + (n + 1) / 2
  {
    var j := n / 2;
    var jj := j * j;
    Squares(j, jj);
    if n % 2 == 0 {
      assert n == 2 * j;
    } else {
      assert n == 2 * j + 1;
    }
  }

  lemma {:induction false} RoundsCount(t: nat)
    ensures Counts((h: nat) => Rounds(h, t), t)
  {
  }

  /** With every skip pointer built, the rounds grow with the square of the logarithm of the height. */
  lemma {:induction false} RoundsBounded(k: nat, h: nat, t: nat)
    requires k >= 10 && h < Pow2(k)
    ensures Rounds(h, t) <= k * k / 4 + 2 * k - 7
  {
    MostIs(k);
    if t < h {
      AlignedZero(k);
      RoundsCount(t);
      Within(x => Rounds(x, t), 0, k, Pow2(k), h, t);
    }
  }

  lemma {:induction false} AlignedZero(k: nat)
    ensures Aligned(0, k)
  {
    if k > 0 {
      AlignedZero(k - 1);
    }
  }

  // ---------------------------------------------------------------- how good the bound is

  /** The search is for height two, from heights above a power of two. */
  ghost predicate ForTwo(R: Count, m: nat, top: nat) {
    Counts(R, 2) && m > 1 && Parts(0, m, top) && top >= 4
  }

  /** No skip from above a power of two leads between two and that power. */
  lemma {:induction false} NoShortcut(m: nat, top: nat, x: nat)
    requires m > 1 && Parts(0, m, top) && x < top
    ensures GetSkipHeight(top + x) >= top || GetSkipHeight(top + x) < 2
  {
    PartsEven(0, m, top);
    SkipTop(0, m, top);
    if x > 1 {
      var e := if x % 2 == 0 then x else x - 1;
      var d := InvertLowestOne(e);
      if x % 2 == 0 {
        SkipEven(0, m, top, e, d, top + x);
      } else {
        SkipOdd(0, m, top, e, d, InvertLowestOne(d), top + x);
      }
    }
  }

  lemma {:induction false} PassesBelow(R: Count, m: nat, top: nat, x: nat)
    requires ForTwo(R, m, top) && x < top
    ensures R(top + x) >= 1 + R(top - 1)
    decreases x
  {
    var h := top + x;
    var r := Round(h, 2);
    NoShortcut(m, top, x);
    CountNext(R, h, 2, r);
    if r >= top {
      PassesBelow(R, m, top, r - top);
    }
  }

  lemma {:induction false} FirstAtLeast(R: Count, m: nat, top: nat)
    requires ForTwo(R, m, top)
    ensures R(top + 1) >= 2 + R(top - 1)
  {
    PartsEven(0, m, top);
    SkipTop(0, m, top);
    OddNext(R, top + 1, 2, 1);
    PassesBelow(R, m, top, 0);
  }

  lemma {:induction false} OddGoes(R: Count, m: nat, top: nat, e: nat, d: nat, f: nat)
    requires ForTwo(R, m, top) && 0 < e < top && e % 2 == 0 && d == InvertLowestOne(e) && f == InvertLowestOne(d)
    ensures R(top + e + 1) == 1 + if d == 0 then R(top + e) else R(top + f + 1)
  {
    var h := top + e + 1;
    PartsEven(0, m, top);
    SumParity(top, e);
    SkipOdd(0, m, top, e, d, f, h);
    OddNext(R, h, 2, if d == 0 then 1 else top + f + 1);
  }

  lemma {:induction false} OddAtLeast(R: Count, m: nat, top: nat, e: nat, o: nat)
    requires ForTwo(R, m, top) && e < top && e % 2 == 0 && o == Ones(e)
    ensures R(top + e + 1) >= o / 2 + 2 + R(top - 1)
    decreases e
  {
    if e == 0 {
      FirstAtLeast(R, m, top);
    } else {
      var d := InvertLowestOne(e);
      var f := InvertLowestOne(d);
      OddGoes(R, m, top, e, d, f);
      if d == 0 {
        OnesInverted(e, d);
        PassesBelow(R, m, top, e);
      } else {
        TwoInverted(e, d, f);
        OddAtLeast(R, m, top, f, o - 2);
      }
    }
  }

  lemma {:induction false} OneMoreBit(R: Count, n: nat, top: nat, e: nat)
    requires Counts(R, 2) && n >= 2 && top == Pow2(n) == e + 2
    ensures R(top + e + 1) >= (n - 1) / 2 + 2 + R(top - 1)
  {
    AlignedZero(n + 1);
    PartsEven(0, n, top);
    EvenOnes(n, e);
    OddAtLeast(R, n, top, e, n - 1);
  }

  lemma {:induction false} OnesAtLeast(R: Count, m: nat, power: nat)
    requires Counts(R, 2) && m >= 2 && power == Pow2(m)
    ensures R(power - 1) >= m * m / 4
    decreases m
  {
    if m == 2 {
      CountNext(R, 3, 2, Round(3, 2));
    } else {
      var n := m - 1;
      var top := Pow2(n);
      OnesAtLeast(R, n, top);
      OneMoreBit(R, n, top, top - 2);
      Quarters(n);
    }
  }

  lemma {:induction false} CountedAtLeast(R: Count, m: nat, h: nat, t: nat)
    requires Counts(R, t) && m >= 2 && h + 1 == Pow2(m) && t == 2
    ensures R(h) >= m * m / 4
  {
    OnesAtLeast(R, m, h + 1);
  }

  /** The square is needed: from 2^m - 1 to height two there are at least m * m / 4 rounds. */
  lemma {:induction false} RoundsGrow(m: nat, h: nat, t: nat)
    requires m >= 2 && h + 1 == Pow2(m) && t == 2
    ensures Rounds(h, t) >= m * m / 4
  {
    var R: Count := x => Rounds(x, t);
    RoundsCount(t);
    CountedAtLeast(R, m, h, t);
    assert R(h) == Rounds(h, t);
  }
}
