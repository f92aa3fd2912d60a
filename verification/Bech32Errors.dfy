/**
 The generator of BIP 173 has the 997th, 998th and 999th power of e as roots. So a sequence in which
 one, two or three symbols have been changed, less than 1023 places apart, has another remainder.
 */
module Bech32Errors {
  import opened AdditiveMaps
  import opened Bech32
  import opened Bech32Checksum
  import opened Bech32Field
  import opened Bech32Order
  import opened Bech32Values
  import opened Bech32Words
  import opened PowerSums

  // ---------------------------------------------------------------- the roots of the generator

  /** A word of six symbols, the lowest first. */
  function Sixfold(a: Symbol, b: Symbol, c: Symbol, d: Symbol, e: Symbol, f: Symbol): Bits {
    a + b + c + d + e + f
  }

  /** The value of a polynomial with six coefficients, the lowest first. */
  function Six<T>(g: Group<T>, p: T -> T, a: T, b: T, c: T, d: T, e: T, f: T): T {
    g.add(p(g.add(p(g.add(p(g.add(p(g.add(p(f), e)), d)), c)), b)), a)
  }

  lemma {:induction false} PrependAt<T(!new)>(s: Space<T>, p: T -> T, v: Symbol, w: seq<bool>)
    ensures At(s, p, v + w) == s.g.add(p(At(s, p, w)), Coefficient(s, v))
  {
    assert (v + w)[WIDTH..] == w && (v + w)[..WIDTH] == v;
  }

  lemma {:induction false} SixAt<T(!new)>(
    s: Space<T>, p: T -> T, a: Symbol, b: Symbol, c: Symbol, d: Symbol, e: Symbol, f: Symbol)
    requires Laws(s.g) && Additive(s.g, p)
    ensures At(s, p, Sixfold(a, b, c, d, e, f))
            == Six(s.g, p, Coefficient(s, a), Coefficient(s, b), Coefficient(s, c),
                   Coefficient(s, d), Coefficient(s, e), Coefficient(s, f))
  {
    AtSymbol(s, p, f);
    PrependAt(s, p, e, f);
    PrependAt(s, p, d, e + f);
    PrependAt(s, p, c, d + (e + f));
    PrependAt(s, p, b, c + (d + (e + f)));
    PrependAt(s, p, a, b + (c + (d + (e + f))));
    assert Sixfold(a, b, c, d, e, f) == a + (b + (c + (d + (e + f))));
  }

  /** A symbol, as the element it stands for. */
  lemma {:induction false} CoefficientIs(v: Symbol)
    ensures Coefficient(Field(), v)
            == Add(Add(Add(Add(Add(
                 0, Pick(Field().g, v[0], 0x1)), Pick(Field().g, v[1], 0x2)), Pick(Field().g, v[2], 0x4)),
                 Pick(Field().g, v[3], 0x8)), Pick(Field().g, v[4], 0x10))
  {
    var s := Field();
    assert Embed(s, v, 1) == Add(Embed(s, v, 0), Pick(s.g, v[0], 0x1));
    assert Embed(s, v, 2) == Add(Embed(s, v, 1), Pick(s.g, v[1], 0x2));
    assert Embed(s, v, 3) == Add(Embed(s, v, 2), Pick(s.g, v[2], 0x4));
    assert Embed(s, v, 4) == Add(Embed(s, v, 3), Pick(s.g, v[3], 0x8));
  }

  lemma {:induction false} Word0()
    ensures ToBits(K0) == Sixfold(Sym(18), Sym(29), Sym(21), Sym(20), Sym(22), Sym(29))
  {
  }

  lemma {:induction false} Word1()
    ensures ToBits(K1) == Sixfold(Sym(13), Sym(19), Sym(3), Sym(1), Sym(5), Sym(19))
  {
  }

  lemma {:induction false} Word2()
    ensures ToBits(K2) == Sixfold(Sym(26), Sym(15), Sym(6), Sym(2), Sym(10), Sym(15))
  {
  }

  lemma {:induction false} Word3()
    ensures ToBits(K3) == Sixfold(Sym(29), Sym(30), Sym(12), Sym(4), Sym(20), Sym(30))
  {
  }

  lemma {:induction false} Word4()
    ensures ToBits(K4) == Sixfold(Sym(19), Sym(21), Sym(24), Sym(8), Sym(1), Sym(21))
  {
  }

  lemma {:induction false} TwiceFirst(v: Symbol, w: seq<bool>)
    ensures TwiceAll(v + w) == Twice(v) + TwiceAll(w)
  {
    assert (v + w)[WIDTH..] == w && (v + w)[..WIDTH] == v;
  }

  lemma {:induction false} TwiceSix(a: Symbol, b: Symbol, c: Symbol, d: Symbol, e: Symbol, f: Symbol)
    ensures TwiceAll(Sixfold(a, b, c, d, e, f))
            == Sixfold(Twice(a), Twice(b), Twice(c), Twice(d), Twice(e), Twice(f))
  {
    assert Sixfold(a, b, c, d, e, f) == a + (b + (c + (d + (e + (f + [])))));
    TwiceFirst(a, b + (c + (d + (e + (f + [])))));
    TwiceFirst(b, c + (d + (e + (f + []))));
    TwiceFirst(c, d + (e + (f + [])));
    TwiceFirst(d, e + (f + []));
    TwiceFirst(e, f + []);
    TwiceFirst(f, []);
  }

  lemma {:induction false} Digits1()
    ensures Twice(Sym(18)) == Sym(13) && Twice(Sym(29)) == Sym(19) && Twice(Sym(21)) == Sym(3)
    ensures Twice(Sym(20)) == Sym(1) && Twice(Sym(22)) == Sym(5)
  {
  }

  lemma {:induction false} Twice1()
    ensures TwiceAll(ToBits(K0)) == ToBits(K1)
  {
    Word0();
    Word1();
    TwiceSix(Sym(18), Sym(29), Sym(21), Sym(20), Sym(22), Sym(29));
    Digits1();
  }

  lemma {:induction false} Digits2()
    ensures Twice(Sym(13)) == Sym(26) && Twice(Sym(19)) == Sym(15) && Twice(Sym(3)) == Sym(6)
    ensures Twice(Sym(1)) == Sym(2) && Twice(Sym(5)) == Sym(10)
  {
  }

  lemma {:induction false} Twice2()
    ensures TwiceAll(ToBits(K1)) == ToBits(K2)
  {
    Word1();
    Word2();
    TwiceSix(Sym(13), Sym(19), Sym(3), Sym(1), Sym(5), Sym(19));
    Digits2();
  }

  lemma {:induction false} Digits3()
    ensures Twice(Sym(26)) == Sym(29) && Twice(Sym(15)) == Sym(30) && Twice(Sym(6)) == Sym(12)
    ensures Twice(Sym(2)) == Sym(4) && Twice(Sym(10)) == Sym(20)
  {
  }

  lemma {:induction false} Twice3()
    ensures TwiceAll(ToBits(K2)) == ToBits(K3)
  {
    Word2();
    Word3();
    TwiceSix(Sym(26), Sym(15), Sym(6), Sym(2), Sym(10), Sym(15));
    Digits3();
  }

  lemma {:induction false} Digits4()
    ensures Twice(Sym(29)) == Sym(19) && Twice(Sym(30)) == Sym(21) && Twice(Sym(12)) == Sym(24)
    ensures Twice(Sym(4)) == Sym(8) && Twice(Sym(20)) == Sym(1)
  {
  }

  lemma {:induction false} Twice4()
    ensures TwiceAll(ToBits(K3)) == ToBits(K4)
  {
    Word3();
    Word4();
    TwiceSix(Sym(29), Sym(30), Sym(12), Sym(4), Sym(20), Sym(30));
    Digits4();
  }

  /** The five constants are {1}, {2}, {4}, {8} and {16} times the generator without its leading term. */
  lemma {:induction false} Bip173Doubling()
    ensures Doubling(Bip173())
  {
    Twice1();
    Twice2();
    Twice3();
    Twice4();
  }

  // ---------------------------------------------------------------- doubling in the field

  function TimesTwo(): Columns {
    [0x2, 0x4, 0x8, 0x10, 0x9, 0x40, 0x80, 0x100, 0x200, 0x120]
  }

  function TwoTimesE(): Columns {
    [0x40, 0x80, 0x100, 0x200, 0x120, 0x247, 0x1ae, 0x35c, 0x3b1, 0x26b]
  }

  lemma {:induction false} AppliedAdditive(k: Columns)
    ensures Additive(Field().g, Applied(k))
  {
    var s := Field();
    FieldLinear();
    TableZero(s, k, DIMENSION);
    ApplyIs(k, 0);
    forall x, y ensures Apply(k, Add(x, y)) == Add(Apply(k, x), Apply(k, y)) {
      TableAdd(s, k, x, y, DIMENSION);
      ApplyIs(k, x);
      ApplyIs(k, y);
      ApplyIs(k, Add(x, y));
    }
  }

  lemma {:induction false} TwoRows()
    ensures Rows(Times1(), TimesTwo(), TwoTimesE())
  {
  }

  lemma {:induction false} TwoRowsToo()
    ensures Rows(TimesTwo(), Times1(), TwoTimesE())
  {
  }

  lemma {:induction false} TwoUnits()
    ensures Apply(TimesTwo(), 0x1) == 0x2 && Apply(TimesTwo(), 0x2) == 0x4 && Apply(TimesTwo(), 0x4) == 0x8
    ensures Apply(TimesTwo(), 0x8) == 0x10 && Apply(TimesTwo(), 0x10) == 0x9
  {
  }

  /** The first n bits of a symbol. */
  function First(v: Symbol, n: nat): Symbol {
    seq(WIDTH, i requires 0 <= i < WIDTH => i < n && v[i])
  }

  function Unit(i: nat): Symbol {
    seq(WIDTH, j => j == i)
  }

  lemma {:induction false} FirstNext(v: Symbol, i: nat, n: nat)
    requires n == i + 1 && i < WIDTH
    ensures First(v, n) == if v[i] then XorSymbol(First(v, i), Unit(i)) else First(v, i)
  {
  }

  lemma {:induction false} TwiceXor(v: Symbol, w: Symbol)
    ensures Twice(XorSymbol(v, w)) == XorSymbol(Twice(v), Twice(w))
  {
    var x, y := Twice(XorSymbol(v, w)), XorSymbol(Twice(v), Twice(w));
    assert x[0] == y[0] && x[1] == y[1] && x[2] == y[2];
    assert x[3] == y[3] && x[4] == y[4];
  }

  /** A map doubles the unit symbols. */
  ghost predicate DoublesUnits<T(!new)>(s: Space<T>, d: T -> T) {
    forall i: nat :: i < WIDTH ==> Coefficient(s, Twice(Unit(i))) == d(Coefficient(s, Unit(i)))
  }

  lemma {:induction false} DoublesFirst<T(!new)>(s: Space<T>, d: T -> T, v: Symbol, n: nat)
    requires Laws(s.g) && Additive(s.g, d) && DoublesUnits(s, d) && n <= WIDTH
    ensures Coefficient(s, Twice(First(v, n))) == d(Coefficient(s, First(v, n)))
  {
    if n == 0 {
      assert First(v, 0) == ZeroSymbol() && Twice(ZeroSymbol()) == ZeroSymbol();
      EmbedZero(s, WIDTH);
    } else {
      var i := n - 1;
      var w, u := First(v, i), Unit(i);
      DoublesFirst(s, d, v, i);
      FirstNext(v, i, n);
      TwiceXor(w, u);
      EmbedXor(s, w, u, WIDTH);
      EmbedXor(s, Twice(w), Twice(u), WIDTH);
      AdditiveAt(s.g, d, Coefficient(s, w), Coefficient(s, u));
    }
  }

  lemma {:induction false} UnitCoefficients()
    ensures Coefficient(Field(), Unit(0)) == 0x1 && Coefficient(Field(), Unit(1)) == 0x2
    ensures Coefficient(Field(), Unit(2)) == 0x4 && Coefficient(Field(), Unit(3)) == 0x8
    ensures Coefficient(Field(), Unit(4)) == 0x10 && Coefficient(Field(), Twice(Unit(4))) == 0x9
  {
    CoefficientIs(Unit(0));
    CoefficientIs(Unit(1));
    CoefficientIs(Unit(2));
    CoefficientIs(Unit(3));
    CoefficientIs(Unit(4));
    CoefficientIs(Twice(Unit(4)));
  }

  lemma {:induction false} TwiceUnits()
    ensures Twice(Unit(0)) == Unit(1) && Twice(Unit(1)) == Unit(2) && Twice(Unit(2)) == Unit(3)
            && Twice(Unit(3)) == Unit(4)
  {
  }

  lemma {:induction false} TwoDoublesUnits()
    ensures DoublesUnits(Field(), Applied(TimesTwo()))
  {
    TwoUnits();
    UnitCoefficients();
    TwiceUnits();
    forall i: nat | i < WIDTH ensures Coefficient(Field(), Twice(Unit(i)))
      == Apply(TimesTwo(), Coefficient(Field(), Unit(i))) {
      assert i == 0 || i == 1 || i == 2 || i == 3 || i == 4;
    }
  }

  lemma {:induction false} TwoDoubles()
    ensures Doubles(Field(), Applied(TimesTwo()))
  {
    var s, d := Field(), Applied(TimesTwo());
    FieldLaws();
    AppliedAdditive(TimesTwo());
    TwoDoublesUnits();
    TwoUnits();
    forall v: Symbol ensures Coefficient(s, Twice(v)) == d(Coefficient(s, v)) {
      DoublesFirst(s, d, v, WIDTH);
      assert First(v, WIDTH) == v;
    }
  }

  lemma {:induction false} ApplyProduct(a: Columns, b: Columns, c: Columns, x: Element)
    requires Linear(Field()) && IsProduct(Field(), a, b, c)
    ensures Apply(a, Apply(b, x)) == Apply(c, x)
  {
    TableProduct(Field(), a, b, c, x);
    ApplyIs(b, x);
    ApplyIs(a, Apply(b, x));
    ApplyIs(c, x);
  }

  lemma {:induction false} PointIs(f: Element -> Element, n: nat, k: Columns, x: Element)
    requires IsTable(Field(), f, n, k)
    ensures Iter(f, n, x) == Apply(k, x)
  {
    IsTableAt(Field(), f, n, k, x);
    ApplyIs(k, x);
  }

  lemma {:induction false} TwoProducts()
    ensures IsProduct(Field(), Times1(), TimesTwo(), TwoTimesE())
    ensures IsProduct(Field(), TimesTwo(), Times1(), TwoTimesE())
  {
    TwoRows();
    TwoRowsToo();
    RowsTake(Times1(), TimesTwo(), TwoTimesE());
    RowsTake(TimesTwo(), Times1(), TwoTimesE());
    RowsAre(Times1(), TimesTwo(), TwoTimesE());
    RowsAre(TimesTwo(), Times1(), TwoTimesE());
  }

  /** A map with the table of e commutes with one that doubles. */
  lemma {:induction false} CommuteBy(f: Element -> Element, one: Columns, two: Columns, both: Columns)
    requires Linear(Field()) && IsTable(Field(), f, 1, one)
    requires IsProduct(Field(), one, two, both) && IsProduct(Field(), two, one, both)
    ensures Commutes(f, Applied(two))
  {
    forall x ensures f(Apply(two, x)) == Apply(two, f(x)) {
      assert Iter(f, 1, x) == f(Iter(f, 0, x)) && Iter(f, 1, Apply(two, x)) == f(Iter(f, 0, Apply(two, x)));
      PointIs(f, 1, one, x);
      PointIs(f, 1, one, Apply(two, x));
      ApplyProduct(one, two, both, x);
      ApplyProduct(two, one, both, x);
    }
  }

  lemma {:induction false} PointCommutes(f: Element -> Element, d: Element -> Element, n: nat, k: Columns)
    requires Commutes(f, d) && IsTable(Field(), f, n, k)
    ensures Commutes(Applied(k), d)
  {
    forall x ensures Apply(k, d(x)) == d(Apply(k, x)) {
      PointIs(f, n, k, x);
      PointIs(f, n, k, d(x));
      IterCommutes(f, d, n, x);
    }
  }

  /** The value of the first constant at a point given by a table. */
  ghost predicate FirstRoot(p: Element -> Element) {
    Six(Field().g, p, 0x12, 0x1d, 0x15, 0x14, 0x16, 0x1d) == Iter(p, CHECKSUM, 0x1)
  }

  lemma {:induction false} Digit18()
    ensures Coefficient(Field(), Sym(18)) == 0x12
  {
    assert Sym(18) == [false, true, false, false, true];
    CoefficientIs([false, true, false, false, true]);
  }

  lemma {:induction false} Digit29()
    ensures Coefficient(Field(), Sym(29)) == 0x1d
  {
    assert Sym(29) == [true, false, true, true, true];
    CoefficientIs([true, false, true, true, true]);
  }

  lemma {:induction false} Digit21()
    ensures Coefficient(Field(), Sym(21)) == 0x15
  {
    assert Sym(21) == [true, false, true, false, true];
    CoefficientIs([true, false, true, false, true]);
  }

  lemma {:induction false} Digit20()
    ensures Coefficient(Field(), Sym(20)) == 0x14
  {
    assert Sym(20) == [false, false, true, false, true];
    CoefficientIs([false, false, true, false, true]);
  }

  lemma {:induction false} Digit22()
    ensures Coefficient(Field(), Sym(22)) == 0x16
  {
    assert Sym(22) == [false, true, true, false, true];
    CoefficientIs([false, true, true, false, true]);
  }

  lemma {:induction false} FirstAt(p: Element -> Element)
    requires Additive(Field().g, p) && FirstRoot(p)
    ensures At(Field(), p, ToBits(K0)) == Iter(p, CHECKSUM, Base(0))
  {
    FieldLaws();
    Word0();
    SixAt(Field(), p, Sym(18), Sym(29), Sym(21), Sym(20), Sym(22), Sym(29));
    Digit18();
    Digit29();
    Digit21();
    Digit20();
    Digit22();
  }

  lemma {:induction false} Steps997(p: Element -> Element)
    requires p(0x1d) == 0x199 && p(0x18f) == 0x1aa && p(0x1be) == 0x187 && p(0x192) == 0x33 && p(0x2e) == 0x2e7
    requires p(0x1) == 0x1bd && p(0x1bd) == 0x369 && p(0x369) == 0x34f && p(0x34f) == 0x3d6 && p(0x3d6) == 0x74
             && p(0x74) == 0x2f5
    ensures FirstRoot(p)
  {
    assert Iter(p, 1, 0x1) == 0x1bd;
    assert Iter(p, 2, 0x1) == 0x369;
    assert Iter(p, 3, 0x1) == 0x34f;
    assert Iter(p, 4, 0x1) == 0x3d6;
    assert Iter(p, 5, 0x1) == 0x74;
  }

  lemma {:induction false} Values997()
    ensures Apply(Times997(), 0x1d) == 0x199 && Apply(Times997(), 0x18f) == 0x1aa && Apply(Times997(), 0x1be) == 0x187
    ensures Apply(Times997(), 0x192) == 0x33 && Apply(Times997(), 0x2e) == 0x2e7 && Apply(Times997(), 0x1) == 0x1bd
    ensures Apply(Times997(), 0x1bd) == 0x369 && Apply(Times997(), 0x369) == 0x34f && Apply(Times997(), 0x34f) == 0x3d6
    ensures Apply(Times997(), 0x3d6) == 0x74 && Apply(Times997(), 0x74) == 0x2f5
  {
  }

  lemma {:induction false} Root997()
    ensures FirstRoot(Applied(Times997()))
  {
    Values997();
    Steps997(Applied(Times997()));
  }

  lemma {:induction false} Steps998(p: Element -> Element)
    requires p(0x1d) == 0x1d2 && p(0x1c4) == 0x382 && p(0x396) == 0x359 && p(0x34c) == 0x16b && p(0x176) == 0x3c8
    requires p(0x1) == 0x65 && p(0x65) == 0x88 && p(0x88) == 0x373 && p(0x373) == 0x3a3 && p(0x3a3) == 0x25a
             && p(0x25a) == 0x3da
    ensures FirstRoot(p)
  {
    assert Iter(p, 1, 0x1) == 0x65;
    assert Iter(p, 2, 0x1) == 0x88;
    assert Iter(p, 3, 0x1) == 0x373;
    assert Iter(p, 4, 0x1) == 0x3a3;
    assert Iter(p, 5, 0x1) == 0x25a;
  }

  lemma {:induction false} Values998()
    ensures Apply(Times998(), 0x1d) == 0x1d2 && Apply(Times998(), 0x1c4) == 0x382 && Apply(Times998(), 0x396) == 0x359
    ensures Apply(Times998(), 0x34c) == 0x16b && Apply(Times998(), 0x176) == 0x3c8 && Apply(Times998(), 0x1) == 0x65
    ensures Apply(Times998(), 0x65) == 0x88 && Apply(Times998(), 0x88) == 0x373 && Apply(Times998(), 0x373) == 0x3a3
    ensures Apply(Times998(), 0x3a3) == 0x25a && Apply(Times998(), 0x25a) == 0x3da
  {
  }

  lemma {:induction false} Root998()
    ensures FirstRoot(Applied(Times998()))
  {
    Values998();
    Steps998(Applied(Times998()));
  }

  lemma {:induction false} Steps999(p: Element -> Element)
    requires p(0x1d) == 0x2f5 && p(0x2e3) == 0x2f7 && p(0x2e3) == 0x2f7 && p(0x2e2) == 0x127 && p(0x13a) == 0xb3
    requires p(0x1) == 0x3d0 && p(0x3d0) == 0x159 && p(0x159) == 0x2c6 && p(0x2c6) == 0x51 && p(0x51) == 0x42
             && p(0x42) == 0xa1
    ensures FirstRoot(p)
  {
    assert Iter(p, 1, 0x1) == 0x3d0;
    assert Iter(p, 2, 0x1) == 0x159;
    assert Iter(p, 3, 0x1) == 0x2c6;
    assert Iter(p, 4, 0x1) == 0x51;
    assert Iter(p, 5, 0x1) == 0x42;
  }

  lemma {:induction false} Values999()
    ensures Apply(Times999(), 0x1d) == 0x2f5 && Apply(Times999(), 0x2e3) == 0x2f7 && Apply(Times999(), 0x2e3) == 0x2f7
    ensures Apply(Times999(), 0x2e2) == 0x127 && Apply(Times999(), 0x13a) == 0xb3 && Apply(Times999(), 0x1) == 0x3d0
    ensures Apply(Times999(), 0x3d0) == 0x159 && Apply(Times999(), 0x159) == 0x2c6 && Apply(Times999(), 0x2c6) == 0x51
    ensures Apply(Times999(), 0x51) == 0x42 && Apply(Times999(), 0x42) == 0xa1
  {
  }

  lemma {:induction false} Root999()
    ensures FirstRoot(Applied(Times999()))
  {
    Values999();
    Steps999(Applied(Times999()));
  }

  lemma {:induction false} RootOf(n: nat, k: Columns)
    requires Power(n, k) && FirstRoot(Applied(k))
    ensures Root(Field(), Applied(k), Bip173()) && Additive(Field().g, Applied(k))
  {
    FieldLinear();
    PowerOne();
    TwoProducts();
    CommuteBy(TimesE, Times1(), TimesTwo(), TwoTimesE());
    PointCommutes(TimesE, Applied(TimesTwo()), n, k);
    TwoDoubles();
    Bip173Doubling();
    AppliedAdditive(k);
    FirstAt(Applied(k));
    RootBy(Field(), Applied(k), Applied(TimesTwo()), Bip173());
  }

  // ---------------------------------------------------------------- three places

  lemma {:induction false} MulNext(n: nat, r: nat, q: nat)
    requires q == r + 1
    ensures n * q == n + n * r && n * 0 == 0
  {
  }

  /** A power of the point is a power of e. */
  lemma {:induction false} PointPower(f: Element -> Element, n: nat, k: Columns, q: nat, m: nat, x: Element)
    requires IsTable(Field(), f, n, k) && m == n * q
    ensures Iter(Applied(k), q, x) == Iter(f, m, x)
  {
    if q == 0 {
      MulNext(n, 0, 1);
    } else {
      var r := q - 1;
      var l := n * r;
      PointPower(f, n, k, r, l, x);
      PointIs(f, n, k, Iter(f, l, x));
      MulNext(n, r, q);
      IterAdd(f, n, l, m, x);
    }
  }

  lemma {:induction false} PointPowerOf(f: Element -> Element, n: nat, k: Columns)
    requires IsTable(Field(), f, n, k)
    ensures PowerOf(Applied(k), f, n)
  {
    forall q: nat, m: nat, x | m == n * q ensures Iter(Applied(k), q, x) == Iter(f, m, x) {
      PointPower(f, n, k, q, m, x);
    }
  }

  lemma {:induction false} RootPowers()
    ensures RootPower(Field(), Applied(Times997()), Bip173(), TimesE, 997)
    ensures RootPower(Field(), Applied(Times998()), Bip173(), TimesE, 998)
    ensures RootPower(Field(), Applied(Times999()), Bip173(), TimesE, 999)
  {
    Powers999();
    Root997();
    RootOf(997, Times997());
    PointPowerOf(TimesE, 997, Times997());
    Root998();
    RootOf(998, Times998());
    PointPowerOf(TimesE, 998, Times998());
    Root999();
    RootOf(999, Times999());
    PointPowerOf(TimesE, 999, Times999());
  }

  // ---------------------------------------------------------------- three errors

  /** The places in which two sequences differ. */
  ghost function Differing(v: seq<Symbol>, w: seq<Symbol>): set<nat>
    requires |v| == |w|
  {
    set i: nat | i < |v| && v[i] != w[i]
  }

  /** Places less than 1023 apart. */
  ghost predicate Near(places: set<nat>) {
    forall i, j :: i in places && j in places ==> i < j + ORDER
  }

  ghost predicate Apart3(a: nat, b: nat, c: nat, n: nat) {
    a < n && b < n && c < n && Distinct(a, b) && Distinct(a, c) && Distinct(b, c)
  }

  /** A third place near two others. */
  lemma {:induction false} ThirdPlace(a: nat, b: nat, n: nat) returns (c: nat)
    requires a < n && b < n && 3 <= n && Distinct(a, b)
    ensures Apart3(a, b, c, n)
  {
    var low := if a < b then a else b;
    if a != low + 1 && b != low + 1 {
      c := low + 1;
    } else if low + 2 < n {
      c := low + 2;
    } else {
      c := low - 1;
    }
  }

  /** Three places that include some given ones. */
  lemma {:induction false} ThreePlaces(places: set<nat>, n: nat) returns (a: nat, b: nat, c: nat)
    requires places != {} && |places| <= 3 <= n && Near(places) && forall i :: i in places ==> i < n
    ensures Apart3(a, b, c, n) && places <= {a, b, c}
  {
    a :| a in places;
    var others := places - {a};
    if others == {} {
      b := if a + 1 < n then a + 1 else a - 1;
      c := ThirdPlace(a, b, n);
    } else {
      b :| b in others;
      var last := others - {b};
      if last == {} {
        c := ThirdPlace(a, b, n);
      } else {
        c :| c in last;
        assert |places| == |others| + 1 && |others| == |last| + 1 && |last| == |last - {c}| + 1;
      }
    }
  }

  lemma {:induction false} DifferenceOnlyAt(v: seq<Symbol>, w: seq<Symbol>, a: nat, b: nat, c: nat)
    requires |v| == |w| && Apart3(a, b, c, |v|) && Differing(v, w) <= {a, b, c}
    ensures OnlyAt(XorAll(v, w), a, b, c)
  {
    forall i | 0 <= i < |v| && i != a && i != b && i != c ensures XorAll(v, w)[i] == ZeroSymbol() {
      assert i !in Differing(v, w);
      XorSymbolFacts(v[i], w[i]);
    }
  }

  lemma {:induction false} SameAt(v: seq<Symbol>, w: seq<Symbol>, a: nat, b: nat, c: nat)
    requires |v| == |w| && Apart3(a, b, c, |v|) && Differing(v, w) <= {a, b, c} && SumsTo(v, w, a, b, c)
    ensures v == w
  {
    XorSymbolFacts(v[a], w[a]);
    XorSymbolFacts(v[b], w[b]);
    XorSymbolFacts(v[c], w[c]);
    var places := Differing(v, w);
    forall i | 0 <= i < |v| ensures v[i] == w[i] {
      assert i in places <==> v[i] != w[i];
    }
  }

  ghost predicate SumsTo(v: seq<Symbol>, w: seq<Symbol>, a: nat, b: nat, c: nat)
    requires |v| == |w| && Apart3(a, b, c, |v|)
  {
    XorAll(v, w)[a] == XorAll(v, w)[b] == XorAll(v, w)[c] == ZeroSymbol()
  }

  /**
   Two sequences of the same length that differ in one, two or three places, less than 1023 apart,
   have different words, from whatever word they start.
   */
  lemma {:induction false} ThreeDetected(word: Bits, v: seq<Symbol>, w: seq<Symbol>)
    requires |v| == |w| && v != w && |Differing(v, w)| <= 3 && Near(Differing(v, w))
    ensures PolyMod(Bip173(), word, v) != PolyMod(Bip173(), word, w)
  {
    if |v| < 3 {
      Bip173Suitable();
      BurstDetected(Bip173(), word, v, w, 0);
    } else if PolyMod(Bip173(), word, v) == PolyMod(Bip173(), word, w) {
      var i :| 0 <= i < |v| && v[i] != w[i];
      assert i in Differing(v, w);
      var a, b, c := ThreePlaces(Differing(v, w), |v|);
      SumZero(Bip173(), word, v, w);
      DifferenceOnlyAt(v, w, a, b, c);
      FieldLinear();
      EIsPrimitive();
      RootPowers();
      ThreeVanish(Field(), Bip173(), TimesE, Applied(Times997()), Applied(Times998()), Applied(Times999()),
                  XorAll(v, w), a, b, c);
      SameAt(v, w, a, b, c);
    }
  }

  /** The places in which two sequences of values differ. */
  ghost function Changed(v: seq<Value>, w: seq<Value>): set<nat>
    requires |v| == |w|
  {
    set i: nat | i < |v| && v[i] != w[i]
  }

  lemma {:induction false} SymsDiffer(v: seq<Value>, w: seq<Value>)
    requires |v| == |w|
    ensures Differing(Syms(v), Syms(w)) == Changed(v, w) && (Syms(v) == Syms(w) ==> v == w)
  {
    forall i: nat | i < |v| ensures v[i] == w[i] <==> Syms(v)[i] == Syms(w)[i] {
      SymInjective(v[i], w[i]);
    }
    if Syms(v) == Syms(w) {
      assert forall i :: 0 <= i < |v| ==> v[i] == w[i];
    }
  }

  /** Up to three changed values change the remainder of what follows anything. */
  lemma {:induction false} ThreeChange(before: seq<Value>, v: seq<Value>, w: seq<Value>)
    requires |v| == |w| && v != w && |Changed(v, w)| <= 3 && Near(Changed(v, w))
    ensures Remainder(before + v) != Remainder(before + w)
  {
    SymsDiffer(v, w);
    RemainderSplit(before, v);
    RemainderSplit(before, w);
    ThreeDetected(Remainder(before), Syms(v), Syms(w));
  }

  /**
   A valid string in which one, two or three symbols change, less than 1023 places apart, does not
   verify for the same encoding.
   */
  lemma {:induction false} ThreeNoticed(e: Encoding, hrp: string, values: seq<Value>, changed: seq<Value>)
    requires Bytes(hrp) && Verifies(e, hrp, values) && |changed| == |values| && changed != values
    requires |Changed(values, changed)| <= 3 && Near(Changed(values, changed))
    ensures !Verifies(e, hrp, changed)
  {
    ThreeChange(ExpandHRP(hrp), values, changed);
  }
}
