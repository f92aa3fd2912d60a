/**
 The order of e in GF(1024). Its powers are worked out as tables, which say what multiplication by
 them does to each bit; each table is the product of two earlier ones. The 1023rd power is one, and
 no power before it leaves an element but zero in its place: e is a primitive element.
 */
module Bech32Order {
  import opened AdditiveMaps
  import opened Bech32Field
  import opened PowerSums

  // ---------------------------------------------------------------- tables

  type Columns = k: seq<Element> | |k| == DIMENSION witness [0, 0, 0, 0, 0, 0, 0, 0, 0, 0]

  function Term(v: Element, b: Element, k: Element): Element {
    if v & b != 0 then k else 0
  }

  function Half(k: Columns, v: Element): Element {
    Add(Add(Add(Add(Add(
      0, Term(v, 0x1, k[0])), Term(v, 0x2, k[1])), Term(v, 0x4, k[2])), Term(v, 0x8, k[3])), Term(v, 0x10, k[4]))
  }

  /** The value of a table, written out. */
  function Apply(k: Columns, v: Element): Element {
    Add(Add(Add(Add(Add(
      Half(k, v), Term(v, 0x20, k[5])), Term(v, 0x40, k[6])), Term(v, 0x80, k[7])), Term(v, 0x100, k[8])),
      Term(v, 0x200, k[9]))
  }

  lemma {:induction false} TableNext(k: Columns, v: Element, i: nat, n: nat)
    requires n == i + 1 && i < DIMENSION
    ensures Table(Field(), k, v, n) == Add(Table(Field(), k, v, i), Term(v, Base(i), k[i]))
  {
  }

  lemma {:induction false} HalfIs(k: Columns, v: Element)
    ensures Table(Field(), k, v, 5) == Half(k, v)
  {
    TableNext(k, v, 0, 1);
    TableNext(k, v, 1, 2);
    TableNext(k, v, 2, 3);
    TableNext(k, v, 3, 4);
    TableNext(k, v, 4, 5);
  }

  lemma {:induction false} ApplyIs(k: Columns, v: Element)
    ensures Table(Field(), k, v, DIMENSION) == Apply(k, v)
  {
    HalfIs(k, v);
    TableNext(k, v, 5, 6);
    TableNext(k, v, 6, 7);
    TableNext(k, v, 7, 8);
    TableNext(k, v, 8, 9);
    TableNext(k, v, 9, 10);
  }

  /** A map takes the entries of one table to those of another. */
  predicate Takes(h: Element -> Element, b: Columns, c: Columns) {
    && h(b[0]) == c[0] && h(b[1]) == c[1] && h(b[2]) == c[2] && h(b[3]) == c[3] && h(b[4]) == c[4]
    && h(b[5]) == c[5] && h(b[6]) == c[6] && h(b[7]) == c[7] && h(b[8]) == c[8] && h(b[9]) == c[9]
  }

  lemma {:induction false} TakesAt(h: Element -> Element, b: Columns, c: Columns, i: nat)
    requires Takes(h, b, c) && i < DIMENSION
    ensures h(b[i]) == c[i]
  {
    assert i == 0 || i == 1 || i == 2 || i == 3 || i == 4 || i == 5 || i == 6 || i == 7 || i == 8 || i == 9;
  }

  function Applied(k: Columns): Element -> Element {
    v => Apply(k, v)
  }

  predicate Rows(a: Columns, b: Columns, c: Columns) {
    && Apply(a, b[0]) == c[0] && Apply(a, b[1]) == c[1] && Apply(a, b[2]) == c[2] && Apply(a, b[3]) == c[3]
    && Apply(a, b[4]) == c[4] && Apply(a, b[5]) == c[5] && Apply(a, b[6]) == c[6] && Apply(a, b[7]) == c[7]
    && Apply(a, b[8]) == c[8] && Apply(a, b[9]) == c[9]
  }

  lemma {:induction false} RowsTake(a: Columns, b: Columns, c: Columns)
    requires Rows(a, b, c)
    ensures Takes(Applied(a), b, c)
  {
  }

  lemma {:induction false} RowIs(a: Columns, b: Columns, c: Columns, i: nat)
    requires Takes(Applied(a), b, c) && i < DIMENSION
    ensures Table(Field(), a, b[i], DIMENSION) == c[i]
  {
    TakesAt(Applied(a), b, c, i);
    ApplyIs(a, b[i]);
  }

  lemma {:induction false} RowsAre(a: Columns, b: Columns, c: Columns)
    requires Takes(Applied(a), b, c)
    ensures IsProduct(Field(), a, b, c)
  {
    forall i: nat | i < DIMENSION ensures Table(Field(), a, b[i], DIMENSION) == c[i] {
      RowIs(a, b, c, i);
    }
  }

  /** A power of a map as a table, from two smaller ones. */
  lemma {:induction false} PowerTable(
    f: Element -> Element, a: nat, b: nat, n: nat, ta: Columns, tb: Columns, tc: Columns)
    requires Linear(Field()) && Additive(Field().g, f) && n == a + b
    requires IsTable(Field(), f, a, ta) && IsTable(Field(), f, b, tb) && Rows(ta, tb, tc)
    ensures IsTable(Field(), f, n, tc)
  {
    RowsTake(ta, tb, tc);
    RowsAre(ta, tb, tc);
    ProductIsTable(Field(), f, a, b, n, ta, tb, tc);
  }

  function Units(): Columns {
    [0x1, 0x2, 0x4, 0x8, 0x10, 0x20, 0x40, 0x80, 0x100, 0x200]
  }

  lemma {:induction false} UnitIs(i: nat)
    requires i < DIMENSION
    ensures Units()[i] == Base(i)
  {
  }

  /** A map as a table, from what it does to the basis. */
  lemma {:induction false} FirstTable(f: Element -> Element, k: Columns)
    requires Linear(Field()) && Additive(Field().g, f) && Takes(f, Units(), k)
    ensures IsTable(Field(), f, 1, k)
  {
    forall i: nat | i < DIMENSION ensures k[i] == f(Field().base(i)) {
      TakesAt(f, Units(), k, i);
      UnitIs(i);
    }
    forall v ensures Iter(f, 1, v) == Table(Field(), k, v, DIMENSION) {
      assert Iter(f, 1, v) == f(Iter(f, 0, v));
      MapIsTable(Field(), f, k, v);
    }
  }

  function Times1(): Columns {
    [0x20, 0x40, 0x80, 0x100, 0x200, 0x137, 0x247, 0x1ae, 0x35c, 0x3b1]
  }

  function Times2(): Columns {
    [0x137, 0x247, 0x1ae, 0x35c, 0x3b1, 0x8b, 0x116, 0x205, 0x12a, 0x254]
  }

  function Times4(): Columns {
    [0xce, 0x19c, 0x311, 0x32b, 0x376, 0x229, 0x172, 0x2cd, 0xba, 0x15d]
  }

  function Times8(): Columns {
    [0x219, 0x13b, 0x25f, 0x1b7, 0x347, 0x91, 0x10b, 0x216, 0x125, 0x24a]
  }

  function Times16(): Columns {
    [0x2a3, 0x66, 0xcc, 0x198, 0x319, 0x348, 0x3b0, 0x269, 0x1f2, 0x3cd]
  }

  function Times24(): Columns {
    [0x3ef, 0x2fe, 0xf5, 0x1c3, 0x386, 0x3d3, 0x2af, 0x7e, 0xd5, 0x183]
  }

  function Times28(): Columns {
    [0x119, 0x21b, 0x13f, 0x257, 0x1a7, 0x7c, 0xd1, 0x18b, 0x316, 0x325]
  }

  function Times30(): Columns {
    [0xf0, 0x1c9, 0x392, 0x22d, 0x17a, 0xde, 0x195, 0x303, 0x326, 0x36c]
  }

  function Times31(): Columns {
    [0xde, 0x195, 0x303, 0x326, 0x36c, 0x29, 0x52, 0x8d, 0x11a, 0x21d]
  }

  function Times33(): Columns {
    [0x17, 0x7, 0xe, 0x1c, 0x11, 0x2e0, 0xe0, 0x1c0, 0x380, 0x220]
  }

  function Times62(): Columns {
    [0x203, 0x126, 0x24c, 0x1b8, 0x359, 0x3d1, 0x2ab, 0x76, 0xc5, 0x18a]
  }

  function Times93(): Columns {
    [0x356, 0x3a5, 0x26a, 0x1f4, 0x3c1, 0x6a, 0xd4, 0x181, 0x302, 0x324]
  }

  function Times124(): Columns {
    [0x2af, 0x7e, 0xd5, 0x183, 0x306, 0x2c8, 0xb0, 0x149, 0x292, 0x2d]
  }

  function Times248(): Columns {
    [0x2b, 0x56, 0x85, 0x10a, 0x214, 0x57, 0x87, 0x10e, 0x21c, 0x131]
  }

  function Times341(): Columns {
    [0x16d, 0x2da, 0xbd, 0x153, 0x28f, 0x18c, 0x318, 0x339, 0x37b, 0x3ff]
  }

  function Times682(): Columns {
    [0x16c, 0x2d8, 0xb9, 0x15b, 0x29f, 0x1ac, 0x358, 0x3b9, 0x27b, 0x1ff]
  }

  function Times930(): Columns {
    [0x343, 0x3a6, 0x26c, 0x1f8, 0x3d9, 0x2ca, 0xb4, 0x141, 0x282, 0x24]
  }

  function Times992(): Columns {
    [0xc1, 0x182, 0x304, 0x328, 0x370, 0x3c9, 0x2b2, 0x6d, 0xda, 0x19d]
  }

  function Times996(): Columns {
    [0x371, 0x3eb, 0x2f6, 0xe5, 0x1ca, 0x1bd, 0x353, 0x3af, 0x27e, 0x1f5]
  }

  function Times997(): Columns {
    [0x1bd, 0x353, 0x3af, 0x27e, 0x1f5, 0x65, 0xca, 0x194, 0x301, 0x322]
  }

  function Times998(): Columns {
    [0x65, 0xca, 0x194, 0x301, 0x322, 0x3d0, 0x2a9, 0x72, 0xcd, 0x19a]
  }

  function Times999(): Columns {
    [0x3d0, 0x2a9, 0x72, 0xcd, 0x19a, 0x104, 0x208, 0x130, 0x249, 0x1b2]
  }

  lemma {:induction false} LowRows()
    ensures TimesE(0x1) == 0x20 && TimesE(0x2) == 0x40 && TimesE(0x4) == 0x80 && TimesE(0x8) == 0x100
    ensures TimesE(0x10) == 0x200
  {
  }

  lemma {:induction false} DoubleSteps()
    ensures Double(0x1) == 0x2 && Double(0x2) == 0x4 && Double(0x4) == 0x8 && Double(0x8) == 0x10 && Double(0x10) == 0x9
    ensures Double(0x9) == 0x12 && Double(0x12) == 0xd && Double(0xd) == 0x1a && Double(0x1a) == 0x1d
  {
  }

  lemma {:induction false} Nines()
    ensures Nine(0x1) == 0x9 && Nine(0x2) == 0x12 && Nine(0x4) == 0xd && Nine(0x8) == 0x1a && Nine(0x10) == 0x1d
  {
    DoubleSteps();
  }

  lemma {:induction false} TwentyThrees()
    ensures TwentyThree(0x1) == 0x17 && TwentyThree(0x2) == 0x7 && TwentyThree(0x4) == 0xe
    ensures TwentyThree(0x8) == 0x1c && TwentyThree(0x10) == 0x11
  {
    DoubleSteps();
  }

  lemma {:induction false} HighRows()
    ensures TimesE(0x20) == 0x137 && TimesE(0x40) == 0x247 && TimesE(0x80) == 0x1ae && TimesE(0x100) == 0x35c
    ensures TimesE(0x200) == 0x3b1
  {
    Nines();
    TwentyThrees();
    assert Upper(0x20) == 0x1 && Upper(0x40) == 0x2 && Upper(0x80) == 0x4 && Upper(0x100) == 0x8
           && Upper(0x200) == 0x10;
  }

  lemma {:induction false} FirstTakes(h: Element -> Element)
    requires h(0x1) == 0x20 && h(0x2) == 0x40 && h(0x4) == 0x80 && h(0x8) == 0x100 && h(0x10) == 0x200
    requires h(0x20) == 0x137 && h(0x40) == 0x247 && h(0x80) == 0x1ae && h(0x100) == 0x35c && h(0x200) == 0x3b1
    ensures Takes(h, Units(), Times1())
  {
  }

  lemma {:induction false} Rows1()
    ensures Takes(TimesE, Units(), Times1())
  {
    LowRows();
    HighRows();
    FirstTakes(TimesE);
  }

  lemma {:induction false} Rows2()
    ensures Rows(Times1(), Times1(), Times2())
  {
  }

  lemma {:induction false} Rows4()
    ensures Rows(Times2(), Times2(), Times4())
  {
  }

  lemma {:induction false} Rows8()
    ensures Rows(Times4(), Times4(), Times8())
  {
  }

  lemma {:induction false} Rows16()
    ensures Rows(Times8(), Times8(), Times16())
  {
  }

  lemma {:induction false} Rows24()
    ensures Rows(Times16(), Times8(), Times24())
  {
  }

  lemma {:induction false} Rows28()
    ensures Rows(Times24(), Times4(), Times28())
  {
  }

  lemma {:induction false} Rows30()
    ensures Rows(Times28(), Times2(), Times30())
  {
  }

  lemma {:induction false} Rows31()
    ensures Rows(Times30(), Times1(), Times31())
  {
  }

  lemma {:induction false} Rows33()
    ensures Rows(Times31(), Times2(), Times33())
  {
  }

  lemma {:induction false} Rows62()
    ensures Rows(Times31(), Times31(), Times62())
  {
  }

  lemma {:induction false} Rows93()
    ensures Rows(Times62(), Times31(), Times93())
  {
  }

  lemma {:induction false} Rows124()
    ensures Rows(Times62(), Times62(), Times124())
  {
  }

  lemma {:induction false} Rows248()
    ensures Rows(Times124(), Times124(), Times248())
  {
  }

  lemma {:induction false} Rows341()
    ensures Rows(Times248(), Times93(), Times341())
  {
  }

  lemma {:induction false} Rows682()
    ensures Rows(Times341(), Times341(), Times682())
  {
  }

  lemma {:induction false} Rows930()
    ensures Rows(Times682(), Times248(), Times930())
  {
  }

  lemma {:induction false} Rows992()
    ensures Rows(Times930(), Times62(), Times992())
  {
  }

  lemma {:induction false} Rows996()
    ensures Rows(Times992(), Times4(), Times996())
  {
  }

  lemma {:induction false} Rows997()
    ensures Rows(Times996(), Times1(), Times997())
  {
  }

  lemma {:induction false} Rows998()
    ensures Rows(Times997(), Times1(), Times998())
  {
  }

  lemma {:induction false} Rows999()
    ensures Rows(Times998(), Times1(), Times999())
  {
  }

  function Undo33(): Columns {
    [0x10, 0x9, 0x12, 0xd, 0x1a, 0x200, 0x120, 0x240, 0x1a0, 0x340]
  }

  function Undo93(): Columns {
    [0x17b, 0x2df, 0xb7, 0x147, 0x28e, 0x34c, 0x3b8, 0x279, 0x1fb, 0x3df]
  }

  function Undo341(): Columns {
    [0x16d, 0x2da, 0xbd, 0x153, 0x28f, 0x18c, 0x318, 0x339, 0x37b, 0x3ff]
  }

  // ---------------------------------------------------------------- powers of e

  /** The n-th power of e has a given table. */
  ghost predicate Power(n: nat, k: Columns) {
    IsTable(Field(), TimesE, n, k)
  }

  lemma {:induction false} PowerProduct(a: nat, b: nat, n: nat, ta: Columns, tb: Columns, tc: Columns)
    requires n == a + b && Power(a, ta) && Power(b, tb) && Rows(ta, tb, tc)
    ensures Power(n, tc)
  {
    FieldLinear();
    TimesEAdditive();
    PowerTable(TimesE, a, b, n, ta, tb, tc);
  }

  lemma {:induction false} PowerOne()
    ensures Power(1, Times1())
  {
    FieldLinear();
    TimesEAdditive();
    Rows1();
    FirstTable(TimesE, Times1());
  }

  lemma {:induction false} SmallPowers()
    ensures Power(1, Times1()) && Power(2, Times2()) && Power(4, Times4()) && Power(8, Times8())
    ensures Power(16, Times16())
  {
    PowerOne();
    Rows2();
    PowerProduct(1, 1, 2, Times1(), Times1(), Times2());
    Rows4();
    PowerProduct(2, 2, 4, Times2(), Times2(), Times4());
    Rows8();
    PowerProduct(4, 4, 8, Times4(), Times4(), Times8());
    Rows16();
    PowerProduct(8, 8, 16, Times8(), Times8(), Times16());
  }

  lemma {:induction false} Powers31()
    ensures Power(1, Times1()) && Power(2, Times2()) && Power(4, Times4()) && Power(31, Times31())
  {
    SmallPowers();
    Rows24();
    PowerProduct(16, 8, 24, Times16(), Times8(), Times24());
    Rows28();
    PowerProduct(24, 4, 28, Times24(), Times4(), Times28());
    Rows30();
    PowerProduct(28, 2, 30, Times28(), Times2(), Times30());
    Rows31();
    PowerProduct(30, 1, 31, Times30(), Times1(), Times31());
  }

  lemma {:induction false} Powers248()
    ensures Power(1, Times1()) && Power(4, Times4()) && Power(62, Times62()) && Power(93, Times93())
    ensures Power(248, Times248())
  {
    Powers31();
    Rows62();
    PowerProduct(31, 31, 62, Times31(), Times31(), Times62());
    Rows93();
    PowerProduct(62, 31, 93, Times62(), Times31(), Times93());
    Rows124();
    PowerProduct(62, 62, 124, Times62(), Times62(), Times124());
    Rows248();
    PowerProduct(124, 124, 248, Times124(), Times124(), Times248());
  }

  lemma {:induction false} Powers992()
    ensures Power(1, Times1()) && Power(4, Times4()) && Power(341, Times341()) && Power(682, Times682())
    ensures Power(992, Times992())
  {
    Powers248();
    Rows341();
    PowerProduct(248, 93, 341, Times248(), Times93(), Times341());
    Rows682();
    PowerProduct(341, 341, 682, Times341(), Times341(), Times682());
    Rows930();
    PowerProduct(682, 248, 930, Times682(), Times248(), Times930());
    Rows992();
    PowerProduct(930, 62, 992, Times930(), Times62(), Times992());
  }

  lemma {:induction false} Powers999()
    ensures Power(997, Times997()) && Power(998, Times998()) && Power(999, Times999())
  {
    Powers992();
    Rows996();
    PowerProduct(992, 4, 996, Times992(), Times4(), Times996());
    Rows997();
    PowerProduct(996, 1, 997, Times996(), Times1(), Times997());
    Rows998();
    PowerProduct(997, 1, 998, Times997(), Times1(), Times998());
    Rows999();
    PowerProduct(998, 1, 999, Times998(), Times1(), Times999());
  }

  lemma {:induction false} Power33()
    ensures Power(33, Times33())
  {
    Powers31();
    Rows33();
    PowerProduct(31, 2, 33, Times31(), Times2(), Times33());
  }

  // ---------------------------------------------------------------- the order of e

  lemma {:induction false} WholeRows()
    ensures Rows(Times682(), Times341(), Units())
  {
  }

  lemma {:induction false} UnitsAreBasis()
    ensures Units() == Basis(Field())
  {
    forall i: nat | i < DIMENSION ensures Units()[i] == Basis(Field())[i] {
      UnitIs(i);
    }
  }

  /** The 1023rd power of e is one. */
  lemma {:induction false} WholeOrder(n: nat, v: Element)
    requires n == ORDER
    ensures Fixed(TimesE, n, v)
  {
    Powers992();
    WholeRows();
    PowerProduct(682, 341, n, Times682(), Times341(), Units());
    IsTableAt(Field(), TimesE, n, Units(), v);
    UnitsAreBasis();
    FieldLinear();
    Spanned(Field(), v);
  }

  /** The sum of a table and the identity. */
  function Offset(k: Columns): Columns {
    seq(DIMENSION, i requires 0 <= i < DIMENSION => Add(k[i], Base(i)))
  }

  lemma {:induction false} OffsetIs(k: Columns, i: nat)
    requires i < DIMENSION
    ensures Offset(k)[i] == Add(k[i], Base(i))
  {
  }

  lemma {:induction false} UndoesAt(inverse: Columns, k: Columns, o: Columns, i: nat)
    requires Takes(Applied(inverse), o, Units()) && o == Offset(k) && i < DIMENSION
    ensures Table(Field(), inverse, Add(k[i], Base(i)), DIMENSION) == Base(i)
  {
    RowIs(inverse, o, Units(), i);
    OffsetIs(k, i);
    UnitIs(i);
  }

  lemma {:induction false} UndoesBy(inverse: Columns, k: Columns, o: Columns)
    requires Takes(Applied(inverse), o, Units()) && o == Offset(k)
    ensures Undoes(Field(), inverse, k)
  {
    forall i: nat | i < DIMENSION ensures Table(Field(), inverse, Add(k[i], Base(i)), DIMENSION) == Base(i) {
      UndoesAt(inverse, k, o, i);
    }
  }

  lemma {:induction false} UndoRows33()
    ensures Takes(Applied(Undo33()), Offset(Times33()), Units())
  {
    assert Rows(Undo33(), Offset(Times33()), Units());
    RowsTake(Undo33(), Offset(Times33()), Units());
  }

  lemma {:induction false} UndoRows93()
    ensures Takes(Applied(Undo93()), Offset(Times93()), Units())
  {
    assert Rows(Undo93(), Offset(Times93()), Units());
    RowsTake(Undo93(), Offset(Times93()), Units());
  }

  lemma {:induction false} UndoRows341()
    ensures Takes(Applied(Undo341()), Offset(Times341()), Units())
  {
    assert Rows(Undo341(), Offset(Times341()), Units());
    RowsTake(Undo341(), Offset(Times341()), Units());
  }

  lemma {:induction false} MovesAll(n: nat, k: Columns, inverse: Columns, o: Columns, x: Element)
    requires Power(n, k) && Takes(Applied(inverse), o, Units()) && o == Offset(k) && Fixed(TimesE, n, x)
    ensures x == 0
  {
    FieldLinear();
    TimesEAdditive();
    UndoesBy(inverse, k, o);
    KeepsOnlyZero(Field(), TimesE, n, k, inverse, x);
  }

  lemma {:induction false} DivisorMoves(n: nat, x: Element)
    requires (n == 341 || n == 93 || n == 33) && Fixed(TimesE, n, x)
    ensures x == 0
  {
    if n == 341 {
      Powers992();
      UndoRows341();
      MovesAll(n, Times341(), Undo341(), Offset(Times341()), x);
    } else if n == 93 {
      Powers248();
      UndoRows93();
      MovesAll(n, Times93(), Undo93(), Offset(Times93()), x);
    } else {
      Power33();
      UndoRows33();
      MovesAll(n, Times33(), Undo33(), Offset(Times33()), x);
    }
  }

  /** Zero is all that multiplication by e takes to zero, since its 1023rd power is the identity. */
  lemma {:induction false} TimesEOneToOne(v: Element)
    requires TimesE(v) == 0
    ensures v == 0
  {
    var n := ORDER;
    WholeOrder(n, v);
    IterAdd(TimesE, n - 1, 1, n, v);
    assert Iter(TimesE, 1, v) == TimesE(Iter(TimesE, 0, v));
    TimesEAdditive();
    IterZero(Field().g, TimesE, n - 1);
  }

  /** The element e is primitive. */
  lemma {:induction false} EIsPrimitive()
    ensures Primitive(Field().g, TimesE)
  {
    var g, n := Field().g, ORDER;
    FieldLaws();
    TimesEAdditive();
    forall x | TimesE(x) == 0 ensures x == 0 {
      TimesEOneToOne(x);
    }
    forall x ensures Fixed(TimesE, n, x) {
      WholeOrder(n, x);
    }
    forall d: nat, x | (d == 341 || d == 93 || d == 33) && Fixed(TimesE, d, x) ensures x == g.zero {
      DivisorMoves(d, x);
    }
    OrderMoves(g, TimesE, n);
  }
}
