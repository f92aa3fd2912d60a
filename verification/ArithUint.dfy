/**
 Unsigned numbers of a fixed number of 32-bit limbs, as the node computes with them for proof of
 work: in place, with carries in 64 bits. Every operation is exact modulo the power of two that
 the limbs can hold, for any number of limbs.
 */
module ArithUint {
  import opened Numbers
  import opened Limbs

  const WORD64 := 0x1_0000_0000_0000_0000

  // ---------------------------------------------------------------- addition and negation

  lemma {:induction false} Distribute(a: nat, b: nat, c: nat, p: nat)
    ensures (a + b + c) * p == a * p + b * p + c * p
  {
  }

  lemma {:induction false} PutLimb(s: seq<Limb>, i: nat, x: Limb)
    requires i < |s|
    ensures Val(s[i := x][..i + 1]) == Val(s[..i]) + x * Pow(i)
  {
    ValPrefix(s[i := x], i);
    assert s[i := x][..i] == s[..i];
  }

  /** One limb of a sum: the carry moves up. */
  lemma {:induction false} AddStep(s: seq<Limb>, a: seq<Limb>, b: seq<Limb>, i: nat, carry: nat, n: nat)
    requires i < |s| == |a| == |b| && n == carry + a[i] + b[i]
    requires Val(s[..i]) + carry * Pow(i) == Val(a[..i]) + Val(b[..i])
    ensures Val(s[i := n % BASE][..i + 1]) + (n / BASE) * Pow(i + 1) == Val(a[..i + 1]) + Val(b[..i + 1])
  {
    ValPrefix(a, i);
    ValPrefix(b, i);
    PutLimb(s, i, n % BASE);
    Digits(n, Pow(i));
    Distribute(carry, a[i], b[i], Pow(i));
  }

  /** operator+=, also when both are the same number. */
  method AddTo(pn: array<Limb>, b: array<Limb>)
    requires pn.Length == b.Length
    modifies pn
    ensures Val(pn[..]) == Wrap(Val(old(pn[..])) + Val(old(b[..])), pn.Length)
  {
    ghost var a0, b0 := pn[..], b[..];
    var carry: nat := 0;
    for i := 0 to pn.Length
      invariant carry <= 1
      invariant forall k :: i <= k < pn.Length ==> pn[k] == a0[k] && b[k] == b0[k]
      invariant Val(pn[..][..i]) + carry * Pow(i) == Val(a0[..i]) + Val(b0[..i])
    {
      var n := carry + pn[i] + b[i];
      assert n < WORD64;
      ghost var s := pn[..];
      AddStep(s, a0, b0, i, carry, n);
      pn[i] := n % BASE;
      assert pn[..] == s[i := pn[i]];
      carry := n / BASE;
    }
    assert pn[..][..pn.Length] == pn[..] && a0[..pn.Length] == a0 && b0[..pn.Length] == b0;
    ValBound(pn[..]);
    WrapUnique(Val(pn[..]), carry, pn.Length, Val(a0) + Val(b0));
  }

  /** operator~. */
  function Flip(x: Limb): Limb {
    BASE - 1 - x
  }

  lemma {:induction false} FlipVal(s: seq<Limb>, t: seq<Limb>)
    requires |s| == |t| && forall i :: 0 <= i < |s| ==> t[i] == Flip(s[i])
    ensures Val(s) + Val(t) == Pow(|s|) - 1
  {
    if s != [] {
      var n := |s| - 1;
      FlipVal(s[..n], t[..n]);
      Distribute(s[n], t[n], 0, Pow(n));
    }
  }

  method Complement(pn: array<Limb>) returns (ret: array<Limb>)
    ensures fresh(ret) && ret.Length == pn.Length && Val(pn[..]) + Val(ret[..]) == Pow(pn.Length) - 1
  {
    ret := new Limb[pn.Length](i => 0);
    for i := 0 to pn.Length
      invariant forall k :: 0 <= k < i ==> ret[k] == Flip(pn[k])
    {
      ret[i] := Flip(pn[i]);
    }
    FlipVal(pn[..], ret[..]);
  }

  /** Increasing has carried through all limbs below i. */
  ghost predicate Carried(s: seq<Limb>, a: seq<Limb>, i: nat) {
    var sized := i <= |s| == |a|;
    sized && (forall k :: i <= k < |s| ==> s[k] == a[k]) && Val(s[..i]) + Pow(i) == Val(a[..i]) + 1
  }

  lemma {:induction false} CarryOn(s: seq<Limb>, a: seq<Limb>, i: nat)
    requires i < |s| && Carried(s, a, i) && a[i] == BASE - 1
    ensures Carried(s[i := 0], a, i + 1)
  {
    ValPrefix(a, i);
    PutLimb(s, i, 0);
  }

  lemma {:induction false} CarryStops(s: seq<Limb>, a: seq<Limb>, i: nat)
    requires i < |s| && Carried(s, a, i) && a[i] < BASE - 1
    ensures Val(s[i := a[i] + 1]) == Wrap(Val(a) + 1, |a|)
  {
    ValUpdate(s, i, a[i] + 1);
    SameTop(s, a, i);
    Distribute(a[i], 1, 0, Pow(i));
    ValBound(s[i := a[i] + 1]);
  }

  lemma {:induction false} CarryLost(s: seq<Limb>, a: seq<Limb>)
    requires Carried(s, a, |s|)
    ensures Val(s) == Wrap(Val(a) + 1, |a|)
  {
    assert s[..|s|] == s && a[..|a|] == a;
    ValBound(a);
    ValBound(s);
  }

  lemma {:induction false} SameTop(s: seq<Limb>, a: seq<Limb>, i: nat)
    requires i <= |s| == |a| && forall k :: i <= k < |s| ==> s[k] == a[k]
    ensures Val(s) - Val(s[..i]) == Val(a) - Val(a[..i])
  {
    if i < |s| {
      var n := |s| - 1;
      SameTop(s[..n], a[..n], i);
      assert s[..n][..i] == s[..i] && a[..n][..i] == a[..i];
    } else {
      assert s[..i] == s && a[..i] == a;
    }
  }

  /** operator++. */
  method Increment(pn: array<Limb>)
    modifies pn
    ensures Val(pn[..]) == Wrap(Val(old(pn[..])) + 1, pn.Length)
  {
    ghost var a := pn[..];
    var i := 0;
    while i < pn.Length
      invariant Carried(pn[..], a, i)
    {
      ghost var s := pn[..];
      if pn[i] < BASE - 1 {
        CarryStops(s, a, i);
        pn[i] := pn[i] + 1;
        assert pn[..] == s[i := pn[i]];
        return;
      }
      CarryOn(s, a, i);
      pn[i] := 0;
      assert pn[..] == s[i := 0];
      i := i + 1;
    }
    CarryLost(pn[..], a);
  }

  /** Unary operator-. */
  method Negate(pn: array<Limb>) returns (ret: array<Limb>)
    ensures fresh(ret) && ret.Length == pn.Length && Val(ret[..]) == Wrap(0 - Val(pn[..]), pn.Length)
  {
    ret := Complement(pn);
    ghost var c := Val(ret[..]);
    Increment(ret);
    assert c + 1 == Pow(pn.Length) - Val(pn[..]);
  }

  /** operator-=, also when both are the same number. */
  method SubtractFrom(pn: array<Limb>, b: array<Limb>)
    requires pn.Length == b.Length
    modifies pn
    ensures Val(pn[..]) == Wrap(Val(old(pn[..])) - Val(old(b[..])), pn.Length)
  {
    ghost var x, y := Val(pn[..]), Val(b[..]);
    ValBound(b[..]);
    var minus := Negate(b);
    AddTo(pn, minus);
    WrapOfNegative(x, y, pn.Length);
  }

  lemma {:induction false} WrapOfNegative(x: nat, y: nat, n: nat)
    requires y < Pow(n)
    ensures Wrap(x + Wrap(0 - y, n), n) == Wrap(x - y, n)
  {
    if y > 0 {
      assert Wrap(0 - y, n) == Pow(n) - y;
    }
  }

  // ---------------------------------------------------------------- multiplication

  lemma {:induction false} ScaleStep(v: nat, x: nat, p: nat, b: nat)
    ensures b * (v + x * p) == b * v + (b * x) * p
  {
    Associate(b, x, p);
    assert b * (v + x * p) == b * v + b * (x * p);
  }

  /** Two limbs multiplied, with a limb and a carry added, fit in 64 bits. */
  lemma {:induction false} ProductFits(carry: Limb, a: Limb, x: Limb, y: Limb)
    ensures carry + a + x * y < WORD64 && (carry + a + x * y) / BASE < BASE
  {
    MulMono(x, BASE - 1, y);
    MulMono(y, BASE - 1, BASE - 1);
    assert x * y <= (BASE - 1) * (BASE - 1);
  }

  lemma {:induction false} ScaleLimb(s: seq<Limb>, a: seq<Limb>, i: nat, b: Limb, carry: nat, n: nat)
    requires i < |s| == |a| && n == carry + b * a[i] && Val(s[..i]) + carry * Pow(i) == b * Val(a[..i])
    ensures Val(s[i := n % BASE][..i + 1]) + (n / BASE) * Pow(i + 1) == b * Val(a[..i + 1])
  {
    ValPrefix(a, i);
    PutLimb(s, i, n % BASE);
    Digits(n, Pow(i));
    ScaleStep(Val(a[..i]), a[i], Pow(i), b);
    Distribute(carry, b * a[i], 0, Pow(i));
  }

  /** operator*= for a 32-bit factor. */
  method MultiplyByLimb(pn: array<Limb>, b: Limb)
    modifies pn
    ensures Val(pn[..]) == Wrap(b * Val(old(pn[..])), pn.Length)
  {
    ghost var a := pn[..];
    var carry: Limb := 0;
    for i := 0 to pn.Length
      invariant forall k :: i <= k < pn.Length ==> pn[k] == a[k]
      invariant Val(pn[..][..i]) + carry * Pow(i) == b * Val(a[..i])
    {
      ProductFits(carry, 0, b, pn[i]);
      var n := carry + b * pn[i];
      ghost var s := pn[..];
      ScaleLimb(s, a, i, b, carry, n);
      pn[i] := n % BASE;
      assert pn[..] == s[i := pn[i]];
      carry := n / BASE;
    }
    assert pn[..][..pn.Length] == pn[..] && a[..pn.Length] == a;
    ValBound(pn[..]);
    WrapUnique(Val(pn[..]), carry, pn.Length, b * Val(a));
  }

  /** Adding to one limb with a carry from below. */
  lemma {:induction false} AddAt(a: seq<Limb>, k: nat, carry: nat, y: nat, n: nat, total: int, total': int)
    requires k < |a| && n == carry + a[k] + y && Val(a) + carry * Pow(k) == total && total' == total + y * Pow(k)
    ensures Val(a[k := n % BASE]) + (n / BASE) * Pow(k + 1) == total'
  {
    ValUpdate(a, k, n % BASE);
    Digits(n, Pow(k));
    Distribute(carry, a[k], y, Pow(k));
  }

  /** Part of a row has been added: i limbs of b times x, from place j on. */
  ghost predicate RowSoFar(v: nat, carry: nat, start: nat, x: nat, b: seq<Limb>, j: nat, i: nat)
    requires i <= |b|
  {
    v + carry * Pow(i + j) == start + x * Val(b[..i]) * Pow(j)
  }

  lemma {:induction false} RowStarts(v: nat, x: nat, b: seq<Limb>, j: nat)
    ensures RowSoFar(v, 0, v, x, b, j, 0)
  {
  }

  /** One limb of one row of a product. */
  lemma {:induction false} RowLimb(
    a: seq<Limb>, start: nat, x: Limb, b: seq<Limb>, j: nat, i: nat, carry: nat, y: nat, n: nat)
    requires i < |b| && i + j < |a| && y == x * b[i] && n == carry + a[i + j] + y
    requires RowSoFar(Val(a), carry, start, x, b, j, i)
    ensures RowSoFar(Val(a[i + j := n % BASE]), n / BASE, start, x, b, j, i + 1)
  {
    RowGrows(x, b, i, j);
    AddAt(a, i + j, carry, y, n, start + x * Val(b[..i]) * Pow(j), start + x * Val(b[..i + 1]) * Pow(j));
  }

  lemma {:induction false} RowGrows(x: nat, b: seq<Limb>, i: nat, j: nat)
    requires i < |b|
    ensures x * Val(b[..i + 1]) * Pow(j) == x * Val(b[..i]) * Pow(j) + (x * b[i]) * Pow(i + j)
  {
    ValPrefix(b, i);
    PowSum(i, j);
    RowTerm(x, Val(b[..i]), b[i], Pow(i), Pow(j));
  }

  lemma {:induction false} RowTerm(x: nat, v: nat, y: nat, p: nat, q: nat)
    ensures x * (v + y * p) * q == x * v * q + (x * y) * (p * q)
  {
    ScaleStep(v, y, p, x);
    SplitTerm(x * v, x * y, p, q);
  }

  method RowRound(a: array<Limb>, x: Limb, b: array<Limb>, j: nat, i: nat, carry: Limb, ghost start: nat)
    returns (c: Limb)
    requires a != b && i < b.Length && i + j < a.Length && RowSoFar(Val(a[..]), carry, start, x, b[..], j, i)
    modifies a
    ensures RowSoFar(Val(a[..]), c, start, x, b[..], j, i + 1)
  {
    ProductFits(carry, a[i + j], x, b[i]);
    ghost var y := x * b[i];
    var n := carry + a[i + j] + x * b[i];
    ghost var s := a[..];
    RowLimb(s, start, x, b[..], j, i, carry, y, n);
    a[i + j] := n % BASE;
    assert a[..] == s[i + j := a[i + j]];
    c := n / BASE;
  }

  /** One row of a product: a limb of one number times the other, added at its place. */
  method MultiplyRow(a: array<Limb>, x: Limb, b: array<Limb>, j: nat) returns (ghost over: nat)
    requires a != b && a.Length == b.Length && j < a.Length
    modifies a
    ensures Val(a[..]) + over * Pow(a.Length) == Val(old(a[..])) + x * Val(b[..]) * Pow(j)
  {
    ghost var start, w := Val(a[..]), a.Length - j;
    RowStarts(start, x, b[..], j);
    var carry: Limb := 0;
    for i := 0 to a.Length - j
      invariant RowSoFar(Val(a[..]), carry, start, x, b[..], j, i)
    {
      carry := RowRound(a, x, b, j, i, carry, start);
    }
    over := RowEnds(Val(a[..]), carry, b[..], w, x, j, start);
  }

  lemma {:induction false} RowEnds(v: nat, carry: nat, b: seq<Limb>, w: nat, x: nat, j: nat, start: nat)
    returns (over: nat)
    requires w <= |b| && w + j == |b| && RowSoFar(v, carry, start, x, b, j, w)
    ensures v + over * Pow(|b|) == start + x * Val(b) * Pow(j)
  {
    over := carry + x * Val(b[w..]);
    RowOverflow(b, w, x, j);
    Distribute(carry, x * Val(b[w..]), 0, Pow(|b|));
  }

  lemma {:induction false} RowOverflow(b: seq<Limb>, w: nat, x: nat, j: nat)
    requires w <= |b| && w + j == |b|
    ensures x * Val(b) * Pow(j) == x * Val(b[..w]) * Pow(j) + (x * Val(b[w..])) * Pow(|b|)
  {
    ValSplit(b, w);
    PowSum(w, j);
    RowTerm(x, Val(b[..w]), Val(b[w..]), Pow(w), Pow(j));
  }

  /** operator*=; the product of the limbs is collected in another number. */
  method Multiply(pn: array<Limb>, b: array<Limb>) returns (a: array<Limb>)
    requires pn.Length == b.Length
    ensures fresh(a) && a.Length == pn.Length && Val(a[..]) == Wrap(Val(pn[..]) * Val(b[..]), pn.Length)
  {
    a := new Limb[pn.Length](i => 0);
    ghost var over: nat := 0;
    ZeroVal(a[..]);
    for j := 0 to pn.Length
      invariant Val(a[..]) + over * Pow(pn.Length) == Val(pn[..][..j]) * Val(b[..])
    {
      ghost var before := Val(a[..]);
      ghost var more := MultiplyRow(a, pn[j], b, j);
      RowsAdd(before, over, pn[..], j, Val(b[..]), Val(a[..]), more);
      over := over + more;
    }
    assert pn[..][..pn.Length] == pn[..];
    ValBound(a[..]);
    WrapUnique(Val(a[..]), over, pn.Length, Val(pn[..]) * Val(b[..]));
  }

  lemma {:induction false} RowsAdd(before: nat, over: nat, pn: seq<Limb>, j: nat, b: nat, after: nat, more: nat)
    requires j < |pn| && before + over * Pow(|pn|) == Val(pn[..j]) * b
    requires after + more * Pow(|pn|) == before + pn[j] * b * Pow(j)
    ensures after + (over + more) * Pow(|pn|) == Val(pn[..j + 1]) * b
  {
    ValPrefix(pn, j);
    RowAdded(Val(pn[..j]), pn[j], Pow(j), b);
    Distribute(over, more, 0, Pow(|pn|));
  }

  lemma {:induction false} RowAdded(v: nat, x: nat, p: nat, b: nat)
    ensures (v + x * p) * b == v * b + x * b * p
  {
    assert (v + x * p) * b == v * b + (x * p) * b;
    assert (x * p) * b == x * b * p;
  }

  lemma {:induction false} ZeroVal(s: seq<Limb>)
    requires forall i :: 0 <= i < |s| ==> s[i] == 0
    ensures Val(s) == 0
  {
    if s != [] {
      ZeroVal(s[..|s| - 1]);
    }
  }
}
