/**
 Numbers as sequences of 32-bit limbs, the lowest first: their values, and what carrying,
 shifting and comparing limbs does to them.
 */
module Limbs {
  import opened Numbers

  const BASE := 0x1_0000_0000

  type Limb = x: nat | x < BASE

  /** BASE to a power. */
  function Pow(n: nat): (p: nat)
    ensures p >= 1
  {
    if n == 0 then 1 else BASE * Pow(n - 1)
  }

  function Val(s: seq<Limb>): nat {
    if s == [] then 0 else Val(s[..|s| - 1]) + s[|s| - 1] * Pow(|s| - 1)
  }

  // ---------------------------------------------------------------- arithmetic of one limb

  lemma {:induction false} StrictlyLess(a: nat, b: nat, p: nat)
    requires a < b && p > 0
    ensures a * p < b * p && (a + 1) * p <= b * p && (a + 1) * p == a * p + p
  {
    MulMono(a + 1, b, p);
  }

  /** A limb and a carry are the digits of a number. */
  lemma {:induction false} Digits(n: nat, p: nat)
    ensures n % BASE < BASE && (n % BASE) * p + (n / BASE) * (BASE * p) == n * p
  {
    var q, r := n / BASE, n % BASE;
    assert n == r + q * BASE;
    DigitsOf(r, q, p);
  }

  lemma {:induction false} DigitsOf(r: nat, q: nat, p: nat)
    ensures r * p + q * (BASE * p) == (r + q * BASE) * p
  {
  }

  lemma {:induction false} ValBound(s: seq<Limb>)
    ensures Val(s) < Pow(|s|)
  {
    if s != [] {
      ValBound(s[..|s| - 1]);
      MulMono(s[|s| - 1], BASE - 1, Pow(|s| - 1));
    }
  }

  lemma {:induction false} ValUpdate(s: seq<Limb>, k: nat, x: Limb)
    requires k < |s|
    ensures Val(s[k := x]) == Val(s) + x * Pow(k) - s[k] * Pow(k)
  {
    var n := |s| - 1;
    if k < n {
      ValUpdate(s[..n], k, x);
      assert s[k := x][..n] == s[..n][k := x];
    } else {
      assert s[k := x][..n] == s[..n];
    }
  }

  lemma {:induction false} ValPrefix(s: seq<Limb>, i: nat)
    requires i < |s|
    ensures Val(s[..i + 1]) == Val(s[..i]) + s[i] * Pow(i)
  {
    assert s[..i + 1][..i] == s[..i];
  }

  /** A number reduced to what n limbs can hold. */
  function Wrap(x: int, n: nat): (r: nat)
    ensures r < Pow(n)
    decreases if x < 0 then Pow(n) - x else x
  {
    if x < 0 then Wrap(x + Pow(n), n) else if x >= Pow(n) then Wrap(x - Pow(n), n) else x
  }

  /** It is the one that differs by a multiple of the power. */
  lemma {:induction false} WrapUnique(v: nat, k: nat, n: nat, x: int)
    requires v < Pow(n) && v + k * Pow(n) == x
    ensures Wrap(x, n) == v
  {
    if k > 0 {
      OneLess(v, k, Pow(n), x);
      WrapUnique(v, k - 1, n, x - Pow(n));
    }
  }

  lemma {:induction false} OneLess(v: nat, k: nat, p: nat, x: int)
    requires k > 0 && v + k * p == x
    ensures v + (k - 1) * p == x - p && x >= p
  {
    assert k * p == (k - 1) * p + p;
  }

  lemma {:induction false} WrapIsMod(x: int, n: nat)
    ensures Wrap(x, n) == x % Pow(n)
    decreases if x < 0 then Pow(n) - x else x
  {
    if x < 0 {
      WrapIsMod(x + Pow(n), n);
      ModShift(x, Pow(n));
    } else if x >= Pow(n) {
      WrapIsMod(x - Pow(n), n);
      ModShift(x - Pow(n), Pow(n));
    } else {
      ModOf(x, 0, Pow(n));
    }
  }

  lemma {:induction false} ModShift(d: int, m: nat)
    requires m > 0
    ensures (d + m) % m == d % m
  {
    assert d == (d / m) * m + d % m;
    assert d + m == (d / m + 1) * m + d % m;
    QuotientUnique((d + m) / m, d / m + 1, m, (d + m) % m, d % m);
  }

  lemma {:induction false} QuotientUnique(q: int, k: int, m: nat, r: nat, v: nat)
    requires q * m + r == k * m + v && r < m && v < m
    ensures q == k && r == v
  {
    assert (q - k) * m == v - r;
    assert (k - q) * m == r - v;
    if q > k {
      MulMono(1, q - k, m);
    } else if q < k {
      MulMono(1, k - q, m);
    }
  }

  lemma {:induction false} ModOf(v: nat, k: nat, m: nat)
    requires v < m
    ensures (v + k * m) % m == v && (v + k * m) / m == k
  {
    var t := v + k * m;
    QuotientUnique(t / m, k, m, t % m, v);
  }

  lemma {:induction false} PowSum(i: nat, j: nat)
    ensures Pow(i + j) == Pow(i) * Pow(j)
  {
    if i > 0 {
      PowSum(i - 1, j);
      Associate(BASE, Pow(i - 1), Pow(j));
    }
  }

  lemma {:induction false} Associate(a: nat, b: nat, c: nat)
    ensures a * (b * c) == (a * b) * c
  {
  }

  /** A number from its low and its high limbs. */
  lemma {:induction false} ValSplit(s: seq<Limb>, k: nat)
    requires k <= |s|
    ensures Val(s) == Val(s[..k]) + Val(s[k..]) * Pow(k)
  {
    if k == |s| {
      assert s[..k] == s && s[k..] == [];
    } else {
      var n := |s| - 1;
      ValSplit(s[..n], k);
      assert s[..n][..k] == s[..k] && s[..n][k..] == s[k..][..n - k];
      PowSum(n - k, k);
      SplitTerm(Val(s[k..][..n - k]), s[n], Pow(n - k), Pow(k));
    }
  }

  lemma {:induction false} SplitTerm(v: nat, x: nat, p: nat, q: nat)
    ensures (v + x * p) * q == v * q + x * (p * q)
  {
    Associate(x, p, q);
    assert (v + x * p) * q == v * q + (x * p) * q;
  }

  // ---------------------------------------------------------------- quotients

  /** Division by repeated subtraction. */
  function Quot(x: nat, h: nat): nat
    requires h > 0
  {
    if x < h then 0 else 1 + Quot(x - h, h)
  }

  function Rem(x: nat, h: nat): (r: nat)
    requires h > 0
    ensures r < h
  {
    if x < h then x else Rem(x - h, h)
  }

  lemma {:induction false} QuotRem(x: nat, h: nat)
    requires h > 0
    ensures x == Quot(x, h) * h + Rem(x, h)
  {
    if x >= h {
      QuotRem(x - h, h);
      assert (1 + Quot(x - h, h)) * h == h + Quot(x - h, h) * h;
    }
  }

  lemma {:induction false} QuotIsDiv(x: nat, h: nat)
    requires h > 0
    ensures x / h == Quot(x, h) && x % h == Rem(x, h)
  {
    QuotRem(x, h);
    QuotientUnique(x / h, Quot(x, h), h, x % h, Rem(x, h));
  }

  lemma {:induction false} QuotUnique(x: nat, h: nat, q: nat, r: nat)
    requires r < h && x == q * h + r
    ensures Quot(x, h) == q && Rem(x, h) == r
  {
    QuotRem(x, h);
    QuotientUnique(Quot(x, h), q, h, Rem(x, h), r);
  }
}
