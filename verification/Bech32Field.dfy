/**
 GF(1024), the field that the checksum of Bech32 is analysed with. An element is held in ten bits,
 a * e + b for a and b in GF(32). Multiplication by e is an additive map.
 */
module Bech32Field {
  import opened AdditiveMaps
  import opened PowerSums

  const DIMENSION := 10

  type Element = bv10

  function Add(x: Element, y: Element): Element {
    x ^ y
  }

  function Base(i: nat): Element {
    if i == 0 then 0x1 else if i == 1 then 0x2 else if i == 2 then 0x4 else if i == 3 then 0x8 else if i == 4 then 0x10
    else if i == 5 then 0x20 else if i == 6 then 0x40 else if i == 7 then 0x80 else if i == 8 then 0x100 else 0x200
  }

  function Bit(v: Element, i: nat): bool {
    v & Base(i) != 0
  }

  function Field(): Space<Element> {
    Space(Group(0, Add), Bit, Base, DIMENSION)
  }

  lemma {:induction false} FieldLaws()
    ensures Laws(Field().g)
  {
    var g := Field().g;
    forall x ensures g.add(x, g.zero) == x && g.add(g.zero, x) == x && g.add(x, x) == g.zero {
      XorUnit(x);
    }
    forall x, y, z, w ensures g.add(g.add(x, y), g.add(z, w)) == g.add(g.add(x, z), g.add(y, w)) {
      XorExchange(x, y, z, w);
    }
  }

  lemma {:induction false} XorUnit(x: Element)
    ensures Add(x, 0) == x && Add(0, x) == x && Add(x, x) == 0
  {
  }

  lemma {:induction false} XorExchange(x: Element, y: Element, z: Element, w: Element)
    ensures Add(Add(x, y), Add(z, w)) == Add(Add(x, z), Add(y, w))
  {
    calc {
      Add(Add(x, y), Add(z, w));
      Add(x ^ y, z ^ w);
      (x ^ y) ^ (z ^ w);
      (x ^ z) ^ (y ^ w);
      Add(x ^ z, y ^ w);
      Add(Add(x, z), Add(y, w));
    }
  }

  lemma {:induction false} BitXor(x: Element, y: Element, b: Element)
    requires b & (b - 1) == 0
    ensures ((x ^ y) & b != 0) == ((x & b != 0) != (y & b != 0))
  {
  }

  lemma {:induction false} BaseSingle(i: nat)
    ensures Base(i) & (Base(i) - 1) == 0
  {
  }

  lemma {:induction false} BitAdd(x: Element, y: Element, i: nat)
    requires i < DIMENSION
    ensures Bit(Add(x, y), i) == (Bit(x, i) != Bit(y, i)) && !Bit(0, i)
  {
    BaseSingle(i);
    BitXor(x, y, Base(i));
  }

  lemma {:induction false} BitBase(i: nat, j: nat)
    requires i < DIMENSION && j < DIMENSION
    ensures Bit(Base(j), i) == (i == j)
  {
  }

  lemma {:induction false} FieldBits()
    ensures Bitwise(Field())
  {
    var s := Field();
    forall x, y, i: nat | i < s.dim ensures s.bit(s.g.add(x, y), i) == (s.bit(x, i) != s.bit(y, i)) {
      BitAdd(x, y, i);
    }
    forall i: nat | i < s.dim ensures !s.bit(s.g.zero, i) {
      BitAdd(0, 0, i);
    }
    forall i: nat, j: nat | i < s.dim && j < s.dim ensures s.bit(s.base(j), i) == (i == j) {
      BitBase(i, j);
    }
  }

  lemma {:induction false} NoBits(x: Element)
    requires x & 0x1 == 0 && x & 0x2 == 0 && x & 0x4 == 0 && x & 0x8 == 0 && x & 0x10 == 0
    requires x & 0x20 == 0 && x & 0x40 == 0 && x & 0x80 == 0 && x & 0x100 == 0 && x & 0x200 == 0
    ensures x == 0
  {
  }

  lemma {:induction false} NoBit(x: Element)
    requires forall i: nat :: i < DIMENSION ==> !Bit(x, i)
    ensures x == 0
  {
    assert !Bit(x, 0) && !Bit(x, 1) && !Bit(x, 2) && !Bit(x, 3) && !Bit(x, 4);
    assert !Bit(x, 5) && !Bit(x, 6) && !Bit(x, 7) && !Bit(x, 8) && !Bit(x, 9);
    NoBits(x);
  }

  lemma {:induction false} AddNone(x: Element, y: Element)
    requires Add(x, y) == 0
    ensures x == y
  {
  }

  lemma {:induction false} FieldDetermined()
    ensures Determined(Field())
  {
    var s := Field();
    forall x, y | SameUpTo(s, x, y, s.dim) ensures x == y {
      forall i: nat | i < DIMENSION ensures !Bit(Add(x, y), i) {
        assert s.bit(x, i) == s.bit(y, i);
        BitAdd(x, y, i);
      }
      NoBit(Add(x, y));
      AddNone(x, y);
    }
  }

  lemma {:induction false} FieldLinear()
    ensures Linear(Field())
  {
    FieldLaws();
    FieldBits();
    FieldDetermined();
  }

  // ---------------------------------------------------------------- multiplication by e

  function Left(v: Element): Element {
    v << 1
  }

  /** Twice an element of GF(32): the sixth bit is taken off modulo x^5 + x^3 + 1. */
  function Double(v: Element): Element {
    Add(Left(v), Pick(Field().g, Bit(v, 4), 0x29))
  }

  /** Nine times an element of GF(32). */
  function Nine(v: Element): Element {
    Add(Double(Double(Double(v))), v)
  }

  /** Twenty-three times an element of GF(32). */
  function TwentyThree(v: Element): Element {
    Add(Add(Double(Double(Double(Double(v)))), Double(Double(v))), Add(Double(v), v))
  }

  function Upper(v: Element): Element {
    v >> 5
  }

  function Lower(v: Element): Element {
    v & 0x1f
  }

  function Raised(v: Element): Element {
    v << 5
  }

  /** The product of e with an element, since e * e is 9 * e + 23. */
  function TimesE(v: Element): Element {
    Add(Raised(Add(Nine(Upper(v)), Lower(v))), TwentyThree(Upper(v)))
  }

  lemma {:induction false} ShiftXor(x: Element, y: Element)
    ensures (x ^ y) >> 5 == (x >> 5) ^ (y >> 5)
    ensures (x ^ y) & 0x1f == (x & 0x1f) ^ (y & 0x1f)
    ensures (x ^ y) << 5 == (x << 5) ^ (y << 5)
    ensures (x ^ y) << 1 == (x << 1) ^ (y << 1)
  {
  }

  lemma {:induction false} UpperAdd(x: Element, y: Element)
    ensures Upper(Add(x, y)) == Add(Upper(x), Upper(y))
  {
    ShiftXor(x, y);
  }

  lemma {:induction false} LowerAdd(x: Element, y: Element)
    ensures Lower(Add(x, y)) == Add(Lower(x), Lower(y))
  {
    ShiftXor(x, y);
  }

  lemma {:induction false} RaisedAdd(x: Element, y: Element)
    ensures Raised(Add(x, y)) == Add(Raised(x), Raised(y))
  {
    ShiftXor(x, y);
  }

  lemma {:induction false} LeftAdd(x: Element, y: Element)
    ensures Left(Add(x, y)) == Add(Left(x), Left(y))
  {
    ShiftXor(x, y);
  }

  lemma {:induction false} TermAdd(x: Element, y: Element, i: nat, k: Element)
    requires i < DIMENSION
    ensures Pick(Field().g, Bit(Add(x, y), i), k)
            == Add(Pick(Field().g, Bit(x, i), k), Pick(Field().g, Bit(y, i), k))
  {
    FieldLaws();
    BitAdd(x, y, i);
    PickAdd(Field().g, Bit(x, i), Bit(y, i), k);
  }

  lemma {:induction false} DoubleAdd(x: Element, y: Element)
    ensures Double(Add(x, y)) == Add(Double(x), Double(y))
  {
    TermAdd(x, y, 4, 0x29);
    LeftAdd(x, y);
    XorExchange(Left(x), Left(y), Pick(Field().g, Bit(x, 4), 0x29), Pick(Field().g, Bit(y, 4), 0x29));
  }

  lemma {:induction false} NineAdd(x: Element, y: Element)
    ensures Nine(Add(x, y)) == Add(Nine(x), Nine(y))
  {
    DoubleAdd(x, y);
    DoubleAdd(Double(x), Double(y));
    DoubleAdd(Double(Double(x)), Double(Double(y)));
    XorExchange(Double(Double(Double(x))), Double(Double(Double(y))), x, y);
  }

  lemma {:induction false} TwentyThreeAdd(x: Element, y: Element)
    ensures TwentyThree(Add(x, y)) == Add(TwentyThree(x), TwentyThree(y))
  {
    var x2, y2 := Double(x), Double(y);
    var x4, y4 := Double(x2), Double(y2);
    var x16, y16 := Double(Double(x4)), Double(Double(y4));
    DoubleAdd(x, y);
    DoubleAdd(x2, y2);
    DoubleAdd(x4, y4);
    DoubleAdd(Double(x4), Double(y4));
    XorExchange(x16, y16, x4, y4);
    XorExchange(x2, y2, x, y);
    XorExchange(Add(x16, x4), Add(y16, y4), Add(x2, x), Add(y2, y));
  }

  lemma {:induction false} TimesEAdd(x: Element, y: Element)
    ensures TimesE(Add(x, y)) == Add(TimesE(x), TimesE(y))
  {
    var xu, yu, xl, yl := Upper(x), Upper(y), Lower(x), Lower(y);
    UpperAdd(x, y);
    LowerAdd(x, y);
    NineAdd(xu, yu);
    TwentyThreeAdd(xu, yu);
    XorExchange(Nine(xu), Nine(yu), xl, yl);
    RaisedAdd(Add(Nine(xu), xl), Add(Nine(yu), yl));
    XorExchange(Raised(Add(Nine(xu), xl)), Raised(Add(Nine(yu), yl)), TwentyThree(xu), TwentyThree(yu));
  }

  lemma {:induction false} TimesEAdditive()
    ensures Additive(Field().g, TimesE)
  {
    assert TimesE(0) == 0;
    forall x, y ensures TimesE(Add(x, y)) == Add(TimesE(x), TimesE(y)) {
      TimesEAdd(x, y);
    }
  }
}
