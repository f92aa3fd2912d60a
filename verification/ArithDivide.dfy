/**
 Long division of numbers of 32-bit limbs, bit by bit, is floor division.
 */
module ArithDivide {
  import opened Numbers
  import opened Limbs
  import opened ArithUint
  import opened ArithShift

  // ---------------------------------------------------------------- values

  /** The division after the bits above t have been decided. */
  ghost predicate Dividing(total: nat, divisor: nat, quotient: nat, rest: nat, t: int)
    requires t >= -1
  {
    total == quotient * divisor + rest && rest < divisor * Pow2(t + 1)
  }

  lemma {:induction false} DivideStarts(total: nat, divisor: nat, numBits: nat, divBits: nat)
    requires 0 < divBits <= numBits && total < Pow2(numBits) && Pow2(divBits - 1) <= divisor
    ensures Dividing(total, divisor, 0, total, numBits - divBits)
  {
    var shift := numBits - divBits;
    TwoSum(divBits - 1, shift + 1);
    MulMono(Pow2(divBits - 1), divisor, Pow2(shift + 1));
  }

  /** A bit of the quotient is one when the rest has room for the shifted divisor. */
  lemma {:induction false} DivideStep(total: nat, divisor: nat, quotient: nat, rest: nat, t: nat, shifted: nat)
    requires Dividing(total, divisor, quotient, rest, t) && shifted == divisor * Pow2(t)
    ensures rest >= shifted ==> Dividing(total, divisor, quotient + Pow2(t), rest - shifted, t - 1)
    ensures rest < shifted ==> Dividing(total, divisor, quotient, rest, t - 1)
  {
    Distribute(quotient, Pow2(t), 0, divisor);
    assert divisor * Pow2(t + 1) == 2 * (divisor * Pow2(t)) by { Double(divisor, Pow2(t)); }
    assert Pow2(t) * divisor == divisor * Pow2(t);
  }

  lemma {:induction false} Double(d: nat, p: nat)
    ensures d * (2 * p) == 2 * (d * p)
  {
  }

  lemma {:induction false} DivideEnds(total: nat, divisor: nat, quotient: nat, rest: nat)
    requires divisor > 0 && Dividing(total, divisor, quotient, rest, -1)
    ensures quotient == Quot(total, divisor) && rest == Rem(total, divisor)
  {
    assert Pow2(0) == 1;
    QuotUnique(total, divisor, quotient, rest);
  }

  lemma {:induction false} HalveShifted(divisor: nat, t: nat)
    requires t > 0
    ensures Quot(divisor * Pow2(t), Pow2(1)) == divisor * Pow2(t - 1)
  {
    assert Pow2(1) == 2;
    Double(divisor, Pow2(t - 1));
    QuotUnique(divisor * Pow2(t), 2, divisor * Pow2(t - 1), 0);
  }

  /** The shifted divisor does not overflow. */
  lemma {:induction false} ShiftedFits(divisor: nat, numBits: nat, divBits: nat, n: nat)
    requires divBits <= numBits <= 32 * n && divisor < Pow2(divBits)
    ensures Wrap(divisor * Pow2(numBits - divBits), n) == divisor * Pow2(numBits - divBits)
  {
    TwoSum(divBits, numBits - divBits);
    TwoPow(n);
    TwoMono(numBits, 32 * n);
    StrictlyLess(divisor, Pow2(divBits), Pow2(numBits - divBits));
    FitsIn(divisor * Pow2(numBits - divBits), n);
  }

  lemma {:induction false} FitsIn(x: nat, n: nat)
    requires x < Pow(n)
    ensures Wrap(x, n) == x
  {
  }

  // ---------------------------------------------------------------- setting a bit

  /** All bits of a number up to bit t are zero: q is the limb of bit t without them. */
  ghost predicate ClearTo(s: seq<Limb>, t: int, q: nat) {
    t >= 0 ==>
      && t / 32 < |s| && (forall m :: 0 <= m < t / 32 ==> s[m] == 0)
      && s[t / 32] == q * Pow2(t % 32 + 1)
  }

  lemma {:induction false} OrComm(x: nat, y: nat)
    ensures BitOr(x, y) == BitOr(y, x)
  {
    if x != 0 && y != 0 {
      OrComm(x / 2, y / 2);
    }
  }

  /** A limb whose low bits are clear has room for the next bit. */
  lemma {:induction false} RoomForBit(x: nat, q: nat, h: nat, p: nat)
    requires x == q * (2 * p) && x < BASE && h * (2 * p) == BASE && p > 0
    ensures x + p < BASE
  {
    if q >= h {
      MulMono(h, q, 2 * p);
    }
    StrictlyLess(q, h, 2 * p);
  }

  lemma {:induction false} HalfSteps(x: nat, q: nat, p: nat)
    requires x == q * (2 * p)
    ensures x == (2 * q) * p && x + p == (2 * q + 1) * p
  {
    Double(q, p);
    Associate(2, q, p);
    Distribute(2 * q, 1, 0, p);
  }

  lemma {:induction false} SetLimbBit(x: Limb, q: nat, r: nat)
    requires r < 32 && x == q * Pow2(r + 1)
    ensures BitOr(x, Pow2(r)) == x + Pow2(r) < BASE && x + Pow2(r) == (2 * q + 1) * Pow2(r) && x == (2 * q) * Pow2(r)
  {
    OrIsSum(Pow2(r), q, r + 1);
    OrComm(x, Pow2(r));
    HalvesOfLimb(r + 1);
    RoomForBit(x, q, Pow2(32 - (r + 1)), Pow2(r));
    HalfSteps(x, q, Pow2(r));
  }

  /** The bit below t is the next to decide. */
  lemma {:induction false} ClearBelow(s: seq<Limb>, t: nat, q: nat, s': seq<Limb>, put: bool) returns (q': nat)
    requires ClearTo(s, t, q) && |s'| == |s|
    requires forall m :: 0 <= m < |s| && m != t / 32 ==> s'[m] == s[m]
    requires s'[t / 32] == if put then s[t / 32] + Pow2(t % 32) else s[t / 32]
    ensures ClearTo(s', t - 1, q')
  {
    HalfSteps(s[t / 32], q, Pow2(t % 32));
    q' := if t % 32 == 0 then 0 else if put then 2 * q + 1 else 2 * q;
    if t > 0 && t % 32 != 0 {
      assert (t - 1) / 32 == t / 32 && (t - 1) % 32 + 1 == t % 32;
    } else if t > 0 {
      assert (t - 1) / 32 == t / 32 - 1;
    }
  }

  lemma {:induction false} BitValue(s: seq<Limb>, t: nat, s': seq<Limb>)
    requires t / 32 < |s| && s[t / 32] + Pow2(t % 32) < BASE && s' == s[t / 32 := s[t / 32] + Pow2(t % 32)]
    ensures Val(s') == Val(s) + Pow2(t)
  {
    RaiseLimb(s, t / 32, Pow2(t % 32), s');
    TwoPow(t / 32);
    TwoSum(t % 32, 32 * (t / 32));
  }

  /** A bit of the quotient is set. */
  method SetBit(pn: array<Limb>, t: nat, ghost q: nat) returns (ghost q': nat)
    requires ClearTo(pn[..], t, q)
    modifies pn
    ensures Val(pn[..]) == Val(old(pn[..])) + Pow2(t) && ClearTo(pn[..], t - 1, q')
  {
    ghost var s := pn[..];
    SetLimbBit(pn[t / 32], q, t % 32);
    pn[t / 32] := BitOr(pn[t / 32], Pow2(t % 32));
    assert pn[..] == s[t / 32 := s[t / 32] + Pow2(t % 32)];
    BitValue(s, t, pn[..]);
    q' := ClearBelow(s, t, q, pn[..], true);
  }

  method TakeAway(num: array<Limb>, div: array<Limb>)
    requires num.Length == div.Length && num != div && Val(num[..]) >= Val(div[..])
    modifies num
    ensures Val(num[..]) == Val(old(num[..])) - Val(div[..])
  {
    ValBound(num[..]);
    FitsIn(Val(num[..]) - Val(div[..]), num.Length);
    SubtractFrom(num, div);
  }

  /** The comparison and subtraction of a round of operator/=. */
  method DivideTake(
    pn: array<Limb>, num: array<Limb>, div: array<Limb>, t: nat, ghost total: nat, ghost divisor: nat, ghost q: nat)
    returns (ghost q': nat)
    requires pn.Length == num.Length == div.Length && pn != num && pn != div && num != div
    requires ClearTo(pn[..], t, q) && Val(div[..]) == divisor * Pow2(t)
    requires Dividing(total, divisor, Val(pn[..]), Val(num[..]), t)
    modifies pn, num
    ensures ClearTo(pn[..], t - 1, q') && Dividing(total, divisor, Val(pn[..]), Val(num[..]), t - 1)
  {
    DivideStep(total, divisor, Val(pn[..]), Val(num[..]), t, Val(div[..]));
    ghost var s := pn[..];
    var cmp := CompareTo(num, div);
    if cmp >= 0 {
      TakeAway(num, div);
      q' := SetBit(pn, t, q);
    } else {
      q' := ClearBelow(s, t, q, s, false);
    }
  }

  /** One round of the loop of operator/=. */
  method DivideRound(
    pn: array<Limb>, num: array<Limb>, div: array<Limb>, t: nat, ghost total: nat, ghost divisor: nat, ghost q: nat)
    returns (ghost q': nat)
    requires pn.Length == num.Length == div.Length && pn != num && pn != div && num != div
    requires ClearTo(pn[..], t, q) && Val(div[..]) == divisor * Pow2(t)
    requires Dividing(total, divisor, Val(pn[..]), Val(num[..]), t)
    modifies pn, num, div
    ensures ClearTo(pn[..], t - 1, q') && Dividing(total, divisor, Val(pn[..]), Val(num[..]), t - 1)
    ensures t > 0 ==> Val(div[..]) == divisor * Pow2(t - 1)
  {
    q' := DivideTake(pn, num, div, t, total, divisor, q);
    if t > 0 {
      HalveShifted(divisor, t);
    }
    ShiftRight(div, 1);
  }

  method CopyOf(a: array<Limb>) returns (c: array<Limb>)
    ensures fresh(c) && c[..] == a[..]
  {
    c := new Limb[a.Length](i => 0);
    for i := 0 to a.Length
      invariant forall m :: 0 <= m < i ==> c[m] == a[m]
    {
      c[i] := a[i];
    }
  }

  method SetZero(pn: array<Limb>)
    modifies pn
    ensures Val(pn[..]) == 0 && forall m :: 0 <= m < pn.Length ==> pn[m] == 0
  {
    for i := 0 to pn.Length
      invariant forall m :: 0 <= m < i ==> pn[m] == 0
    {
      pn[i] := 0;
    }
    ZeroVal(pn[..]);
  }

  datatype Outcome = Done | DivisionByZero

  /** The loop of operator/=. */
  method LongDivision(
    pn: array<Limb>, num: array<Limb>, div: array<Limb>, start: nat, ghost total: nat, ghost divisor: nat)
    requires pn.Length == num.Length == div.Length && pn != num && pn != div && num != div
    requires start < 32 * pn.Length && (forall m :: 0 <= m < pn.Length ==> pn[m] == 0) && Val(pn[..]) == 0
    requires Val(div[..]) == divisor * Pow2(start) && divisor > 0
    requires Dividing(total, divisor, 0, Val(num[..]), start)
    modifies pn, num, div
    ensures Val(pn[..]) == Quot(total, divisor)
  {
    var shift: int := start;
    ghost var q: nat := 0;
    while shift >= 0
      invariant -1 <= shift
      invariant ClearTo(pn[..], shift, q) && (shift >= 0 ==> Val(div[..]) == divisor * Pow2(shift))
      invariant Dividing(total, divisor, Val(pn[..]), Val(num[..]), shift)
    {
      q := DivideRound(pn, num, div, shift, total, divisor, q);
      shift := shift - 1;
    }
    DivideEnds(total, divisor, Val(pn[..]), Val(num[..]));
  }

  /** operator/=: the quotient replaces the number; dividing by zero is an error, and leaves zero. */
  method DivideBy(pn: array<Limb>, b: array<Limb>) returns (r: Outcome)
    requires pn.Length == b.Length
    modifies pn
    ensures r == DivisionByZero <==> Val(old(b[..])) == 0
    ensures r == DivisionByZero ==> Val(pn[..]) == 0
    ensures r == Done ==> Val(pn[..]) == Quot(Val(old(pn[..])), Val(old(b[..])))
  {
    var div := CopyOf(b);
    var num := CopyOf(pn);
    ghost var total, divisor := Val(pn[..]), Val(b[..]);
    SetZero(pn);
    var numBits := Bits(num);
    var divBits := Bits(div);
    if divBits == 0 { return DivisionByZero; }
    if divBits > numBits {
      SmallerIsZero(total, divisor, numBits, divBits);
      return Done;
    }
    ShiftedFits(divisor, numBits, divBits, pn.Length);
    DivideStarts(total, divisor, numBits, divBits);
    ShiftLeft(div, numBits - divBits);
    LongDivision(pn, num, div, numBits - divBits, total, divisor);
    return Done;
  }

  lemma {:induction false} SmallerIsZero(total: nat, divisor: nat, numBits: nat, divBits: nat)
    requires divBits > numBits && Pow2(divBits - 1) <= divisor && (numBits > 0 ==> total < Pow2(numBits))
             && (numBits == 0 ==> total == 0)
    ensures divisor > 0 && Quot(total, divisor) == 0
  {
    TwoMono(numBits, divBits - 1);
  }
}
