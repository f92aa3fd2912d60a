/**
 Numbers written in a base: their digits, lowest first, and what multiplying them in place by a
 factor and adding a carry does. Digits are unique, so a change of base can be undone.
 */
module Radix {
  import opened Numbers

  /** A base to a power. */
  function Power(base: nat, n: nat): (p: nat)
    requires base >= 2
    ensures p >= 1
  {
    if n == 0 then 1 else base * Power(base, n - 1)
  }

  ghost predicate AreDigits(d: seq<nat>, base: nat) {
    forall i :: 0 <= i < |d| ==> d[i] < base
  }

  /** Digits without a zero in the highest place. */
  ghost predicate Canonical(d: seq<nat>, base: nat) {
    AreDigits(d, base) && (d != [] ==> d[|d| - 1] != 0)
  }

  function Number(d: seq<nat>, base: nat): nat {
    if d == [] then 0 else d[0] + base * Number(d[1..], base)
  }

  function Digits(v: nat, base: nat): seq<nat>
    requires base >= 2
  {
    if v == 0 then [] else
      DivLess(v, base);
      [v % base] + Digits(v / base, base)
  }

  lemma {:induction false} DivLess(v: nat, base: nat)
    requires base >= 2 && v > 0
    ensures v / base < v && v == base * (v / base) + v % base && v % base < base
  {
  }

  lemma {:induction false} DivUnique(q: nat, r: nat, base: nat)
    requires r < base
    ensures (base * q + r) / base == q && (base * q + r) % base == r
  {
    var v := base * q + r;
    DivMod(v, base);
    assert base * (v / base - q) == r - v % base;
    assert base * (q - v / base) == v % base - r;
    if v / base > q {
      MulAtLeast(base, v / base - q);
    } else if v / base < q {
      MulAtLeast(base, q - v / base);
    }
  }

  lemma {:induction false} DivMod(n: nat, base: nat)
    requires base > 0
    ensures n == base * (n / base) + n % base && n % base < base && n / base >= 0
  {
  }

  lemma {:induction false} DigitsCanonical(v: nat, base: nat)
    requires base >= 2
    ensures Canonical(Digits(v, base), base) && Number(Digits(v, base), base) == v
  {
    if v > 0 {
      DivLess(v, base);
      DigitsCanonical(v / base, base);
      var rest := Digits(v / base, base);
      assert Digits(v, base)[1..] == rest;
    }
  }

  /** A number has only one canonical sequence of digits. */
  lemma {:induction false} DigitsUnique(d: seq<nat>, base: nat)
    requires base >= 2 && Canonical(d, base)
    ensures Digits(Number(d, base), base) == d
  {
    if d != [] {
      var rest := d[1..];
      assert Canonical(rest, base);
      DigitsUnique(rest, base);
      DivUnique(Number(rest, base), d[0], base);
      CanonicalPositive(d, base);
    }
  }

  lemma {:induction false} CanonicalPositive(d: seq<nat>, base: nat)
    requires base >= 2 && Canonical(d, base) && d != []
    ensures Number(d, base) > 0
  {
    if |d| > 1 {
      assert Canonical(d[1..], base);
      CanonicalPositive(d[1..], base);
      MulAtLeast(base, Number(d[1..], base));
    }
  }

  // ---------------------------------------------------------------- how many digits

  lemma {:induction false} DigitsShort(v: nat, base: nat, n: nat)
    requires base >= 2 && v < Power(base, n)
    ensures |Digits(v, base)| <= n
  {
    if v > 0 {
      DivLess(v, base);
      if v / base >= Power(base, n - 1) {
        MulMonoLeft(base, Power(base, n - 1), v / base);
      }
      DigitsShort(v / base, base, n - 1);
    }
  }

  lemma {:induction false} NumberBound(d: seq<nat>, base: nat)
    requires base >= 2 && AreDigits(d, base)
    ensures Number(d, base) < Power(base, |d|)
  {
    if d != [] {
      NumberBound(d[1..], base);
      MulMonoLeft(base, Number(d[1..], base) + 1, Power(base, |d| - 1));
    }
  }

  // ---------------------------------------------------------------- multiply and add

  /** The digits of factor * number + carry, from those of the number, lowest first. */
  function MulAdd(d: seq<nat>, factor: nat, carry: nat, base: nat): seq<nat>
    requires base >= 2
  {
    if d == [] then Digits(carry, base)
    else
      var n := carry + factor * d[0];
      [n % base] + MulAdd(d[1..], factor, n / base, base)
  }

  lemma {:induction false} MulAddNumber(d: seq<nat>, factor: nat, carry: nat, base: nat)
    requires base >= 2
    ensures AreDigits(MulAdd(d, factor, carry, base), base)
    ensures Number(MulAdd(d, factor, carry, base), base) == factor * Number(d, base) + carry
  {
    if d == [] {
      DigitsCanonical(carry, base);
    } else {
      var n := carry + factor * d[0];
      DivMod(n, base);
      var q, r := n / base, n % base;
      MulAddNumber(d[1..], factor, q, base);
      var rest := MulAdd(d[1..], factor, q, base);
      Regroup(factor, d[0], Number(d[1..], base), base, q, r, carry, Number(rest, base));
      Prepend(r, rest, base);
    }
  }

  lemma {:induction false} Prepend(x: nat, d: seq<nat>, base: nat)
    requires x < base && AreDigits(d, base)
    ensures AreDigits([x] + d, base) && Number([x] + d, base) == x + base * Number(d, base)
  {
    assert ([x] + d)[1..] == d;
  }

  lemma {:induction false} Regroup(f: nat, x: nat, v: nat, base: nat, q: nat, r: nat, c: nat, w: nat)
    requires c + f * x == base * q + r && w == f * v + q
    ensures r + base * w == f * (x + base * v) + c
  {
    assert base * w == base * (f * v) + base * q;
    assert base * (f * v) == f * (base * v);
    assert f * (x + base * v) == f * x + f * (base * v);
  }

  /** The highest digit does not become zero if the factor is at least one. */
  lemma {:induction false} MulAddCanonical(d: seq<nat>, factor: nat, carry: nat, base: nat)
    requires base >= 2 && factor >= 1 && Canonical(d, base)
    ensures Canonical(MulAdd(d, factor, carry, base), base)
    ensures d != [] ==> MulAdd(d, factor, carry, base) != []
  {
    MulAddNumber(d, factor, carry, base);
    if d == [] {
      DigitsCanonical(carry, base);
    } else {
      var n := carry + factor * d[0];
      DivMod(n, base);
      var q, r, rest := n / base, n % base, d[1..];
      assert Canonical(rest, base);
      MulAddCanonical(rest, factor, q, base);
      if |d| == 1 {
        TopStays(n, factor, d[0], carry, base);
        DigitsCanonical(q, base);
      }
      assert MulAdd(d, factor, carry, base) == [r] + MulAdd(rest, factor, q, base);
    }
  }

  lemma {:induction false} TopStays(n: nat, factor: nat, x: nat, carry: nat, base: nat)
    requires base >= 2 && factor >= 1 && x >= 1 && n == carry + factor * x
    ensures n / base == 0 ==> n % base != 0
  {
    MulAtLeast(factor, x);
    assert n == base * (n / base) + n % base;
  }

  lemma {:induction false} MulAddIsDigits(v: nat, factor: nat, carry: nat, base: nat)
    requires base >= 2 && factor >= 1
    ensures MulAdd(Digits(v, base), factor, carry, base) == Digits(factor * v + carry, base)
  {
    DigitsCanonical(v, base);
    MulAddCanonical(Digits(v, base), factor, carry, base);
    MulAddNumber(Digits(v, base), factor, carry, base);
    DigitsUnique(MulAdd(Digits(v, base), factor, carry, base), base);
  }

  /** One digit of the result, whether or not the number has digits left. */
  lemma {:induction false} MulAddHead(d: seq<nat>, factor: nat, carry: nat, base: nat, n: nat)
    requires base >= 2 && (if d == [] then carry > 0 && n == carry else n == carry + factor * d[0])
    ensures n / base >= 0
    ensures MulAdd(d, factor, carry, base)
            == [n % base] + MulAdd(if d == [] then [] else d[1..], factor, n / base, base)
  {
    DivMod(n, base);
  }
}
