/**
 The checksum seen as a polynomial over GF(32), and its value at a point of a larger field. Taking a
 symbol multiplies the value by the point and adds the symbol, as long as the point is a root of the
 generator. The value of a sequence with few symbols other than zero is then a sum of few powers.
 */
module Bech32Values {
  import opened AdditiveMaps
  import opened Bech32Checksum
  import opened Bech32Words
  import opened PowerSums

  // ---------------------------------------------------------------- symbols as elements

  /** The element for the lowest n bits of a symbol. */
  function Embed<T>(s: Space<T>, v: Symbol, n: nat): T
    requires n <= WIDTH
  {
    if n == 0 then s.g.zero else s.g.add(Embed(s, v, n - 1), Pick(s.g, v[n - 1], s.base(n - 1)))
  }

  function Coefficient<T>(s: Space<T>, v: Symbol): T {
    Embed(s, v, WIDTH)
  }

  lemma {:induction false} EmbedXor<T(!new)>(s: Space<T>, v: Symbol, w: Symbol, n: nat)
    requires Laws(s.g) && n <= WIDTH
    ensures Embed(s, XorSymbol(v, w), n) == s.g.add(Embed(s, v, n), Embed(s, w, n))
  {
    if n > 0 {
      var i := n - 1;
      EmbedXor(s, v, w, i);
      PickAdd(s.g, v[i], w[i], s.base(i));
      Exchange(s.g, Embed(s, v, i), Embed(s, w, i), Pick(s.g, v[i], s.base(i)), Pick(s.g, w[i], s.base(i)));
    }
  }

  lemma {:induction false} EmbedZero<T(!new)>(s: Space<T>, n: nat)
    requires Laws(s.g) && n <= WIDTH
    ensures Embed(s, ZeroSymbol(), n) == s.g.zero
  {
    if n > 0 {
      EmbedZero(s, n - 1);
    }
  }

  lemma {:induction false} EmbedBit<T(!new)>(s: Space<T>, v: Symbol, n: nat, j: nat)
    requires Laws(s.g) && Bitwise(s) && WIDTH <= s.dim && n <= WIDTH && j < s.dim
    ensures s.bit(Embed(s, v, n), j) == (j < n && v[j])
  {
    if n > 0 {
      var i := n - 1;
      EmbedBit(s, v, i, j);
      assert s.bit(s.base(i), j) == (i == j);
    }
  }

  /** Only the zero symbol is the zero element. */
  lemma {:induction false} CoefficientZero<T(!new)>(s: Space<T>, v: Symbol)
    requires Laws(s.g) && Bitwise(s) && WIDTH <= s.dim && Coefficient(s, v) == s.g.zero
    ensures v == ZeroSymbol()
  {
    forall i | 0 <= i < WIDTH ensures !v[i] {
      EmbedBit(s, v, WIDTH, i);
      assert !s.bit(s.g.zero, i);
    }
  }

  /** An element, and what a map makes of each bit of a symbol. */
  function Mapped<T>(s: Space<T>, h: T -> T, x: T, v: Symbol, n: nat): T
    requires n <= WIDTH
  {
    if n == 0 then x else s.g.add(Mapped(s, h, x, v, n - 1), Pick(s.g, v[n - 1], h(s.base(n - 1))))
  }

  lemma {:induction false} MappedPick<T(!new)>(g: Group<T>, h: T -> T, on: bool, k: T)
    requires Additive(g, h)
    ensures h(Pick(g, on, k)) == Pick(g, on, h(k))
  {
  }

  lemma {:induction false} MappedIs<T(!new)>(s: Space<T>, h: T -> T, x: T, v: Symbol, n: nat)
    requires Laws(s.g) && Additive(s.g, h) && n <= WIDTH
    ensures Mapped(s, h, x, v, n) == s.g.add(x, h(Embed(s, v, n)))
  {
    if n > 0 {
      var i := n - 1;
      var y, bit := Embed(s, v, i), Pick(s.g, v[i], s.base(i));
      MappedIs(s, h, x, v, i);
      AdditiveAt(s.g, h, y, bit);
      MappedPick(s.g, h, v[i], s.base(i));
      Associate(s.g, x, h(y), h(bit));
    }
  }

  // ---------------------------------------------------------------- the value of a word

  /** The value of a polynomial, its coefficients from the lowest on, where p multiplies by the point. */
  function At<T>(s: Space<T>, p: T -> T, w: seq<bool>): T
    decreases |w|
  {
    if |w| < WIDTH then s.g.zero else s.g.add(p(At(s, p, w[WIDTH..])), Coefficient(s, w[..WIDTH]))
  }

  function XorSeq(a: seq<bool>, b: seq<bool>): seq<bool>
    requires |a| == |b|
  {
    seq(|a|, i requires 0 <= i < |a| == |b| => a[i] != b[i])
  }

  lemma {:induction false} AtXor<T(!new)>(s: Space<T>, p: T -> T, a: seq<bool>, b: seq<bool>)
    requires Laws(s.g) && Additive(s.g, p) && |a| == |b|
    ensures At(s, p, XorSeq(a, b)) == s.g.add(At(s, p, a), At(s, p, b))
    decreases |a|
  {
    if |a| >= WIDTH {
      var c := XorSeq(a, b);
      var a1, b1 := a[WIDTH..], b[WIDTH..];
      assert c[WIDTH..] == XorSeq(a1, b1) && c[..WIDTH] == XorSymbol(a[..WIDTH], b[..WIDTH]);
      AtXor(s, p, a1, b1);
      AdditiveAt(s.g, p, At(s, p, a1), At(s, p, b1));
      EmbedXor(s, a[..WIDTH], b[..WIDTH], WIDTH);
      Exchange(s.g, p(At(s, p, a1)), p(At(s, p, b1)), Coefficient(s, a[..WIDTH]), Coefficient(s, b[..WIDTH]));
    } else {
      ZeroIs(s.g, s.g.zero, s.g.zero);
    }
  }

  /** The value of a word is that of its low coefficients, and of the high ones times a power of the point. */
  lemma {:induction false} AtAppend<T(!new)>(s: Space<T>, p: T -> T, a: seq<bool>, b: seq<bool>, k: nat)
    requires Laws(s.g) && Additive(s.g, p) && |a| == WIDTH * k
    ensures At(s, p, a + b) == s.g.add(At(s, p, a), Iter(p, k, At(s, p, b)))
    decreases k
  {
    if k == 0 {
      assert a + b == b;
    } else {
      var a1, v := a[WIDTH..], a[..WIDTH];
      assert (a + b)[WIDTH..] == a1 + b && (a + b)[..WIDTH] == v;
      AtAppend(s, p, a1, b, k - 1);
      var x, y, z := At(s, p, a1), Iter(p, k - 1, At(s, p, b)), Coefficient(s, v);
      AdditiveAt(s.g, p, x, y);
      Associate(s.g, p(x), p(y), z);
      Commute(s.g, p(y), z);
      Associate(s.g, p(x), z, p(y));
    }
  }

  lemma {:induction false} AtSymbol<T(!new)>(s: Space<T>, p: T -> T, v: Symbol)
    requires Laws(s.g) && Additive(s.g, p)
    ensures At(s, p, v) == Coefficient(s, v)
  {
    assert v[WIDTH..] == [] && v[..WIDTH] == v;
  }

  lemma {:induction false} AtZero<T(!new)>(s: Space<T>, p: T -> T, n: nat)
    requires Laws(s.g) && Additive(s.g, p)
    ensures At(s, p, Zeros(n)) == s.g.zero
    decreases n
  {
    if n >= WIDTH {
      assert Zeros(n)[WIDTH..] == Zeros(n - WIDTH) && Zeros(n)[..WIDTH] == ZeroSymbol();
      AtZero(s, p, n - WIDTH);
      EmbedZero(s, WIDTH);
    }
  }

  // ---------------------------------------------------------------- one step

  /** An additive map of words. */
  ghost predicate Valuation<T(!new)>(g: Group<T>, val: Bits -> T) {
    forall x, k {:trigger val(Xor(x, k))} :: val(Xor(x, k)) == g.add(val(x), val(k))
  }

  lemma {:induction false} XorIfAt<T(!new)>(g: Group<T>, val: Bits -> T, on: bool, x: Bits, k: Bits)
    requires Laws(g) && Valuation(g, val)
    ensures val(XorIf(on, x, k)) == g.add(val(x), Pick(g, on, val(k)))
  {
  }

  /** The sixth power of the point, as a map. */
  function Sixth<T>(p: T -> T): T -> T {
    v => Iter(p, CHECKSUM, v)
  }

  /** The constants have the values of multiples of x^6. */
  ghost predicate Reduces<T>(s: Space<T>, h: T -> T, val: Bits -> T, g: Generator) {
    && val(g.k0) == h(s.base(0)) && val(g.k1) == h(s.base(1)) && val(g.k2) == h(s.base(2))
    && val(g.k3) == h(s.base(3)) && val(g.k4) == h(s.base(4))
  }

  /** Adding the constants that the top bits choose adds the value of those bits times x^6. */
  lemma {:induction false} ConstantsAt<T(!new)>(
    s: Space<T>, h: T -> T, val: Bits -> T, g: Generator, x: Bits, top: Symbol)
    requires Laws(s.g) && Valuation(s.g, val) && Reduces(s, h, val, g)
    ensures val(XorIf(top[4], XorIf(top[3], XorIf(top[2], XorIf(top[1], XorIf(top[0], x, g.k0), g.k1), g.k2), g.k3),
                      g.k4))
            == Mapped(s, h, val(x), top, WIDTH)
  {
    var x1 := XorIf(top[0], x, g.k0);
    var x2 := XorIf(top[1], x1, g.k1);
    var x3 := XorIf(top[2], x2, g.k2);
    var x4 := XorIf(top[3], x3, g.k3);
    XorIfAt(s.g, val, top[0], x, g.k0);
    XorIfAt(s.g, val, top[1], x1, g.k1);
    XorIfAt(s.g, val, top[2], x2, g.k2);
    XorIfAt(s.g, val, top[3], x3, g.k3);
    XorIfAt(s.g, val, top[4], x4, g.k4);
    MappedFive(s, h, top, val(x), val(x1), val(x2), val(x3), val(x4));
  }

  lemma {:induction false} MappedFive<T(!new)>(
    s: Space<T>, h: T -> T, top: Symbol, y: T, y1: T, y2: T, y3: T, y4: T)
    requires y1 == s.g.add(y, Pick(s.g, top[0], h(s.base(0)))) && y2 == s.g.add(y1, Pick(s.g, top[1], h(s.base(1))))
    requires y3 == s.g.add(y2, Pick(s.g, top[2], h(s.base(2)))) && y4 == s.g.add(y3, Pick(s.g, top[3], h(s.base(3))))
    ensures Mapped(s, h, y, top, WIDTH) == s.g.add(y4, Pick(s.g, top[4], h(s.base(4))))
  {
    assert y1 == Mapped(s, h, y, top, 1);
    assert y2 == Mapped(s, h, y, top, 2);
    assert y3 == Mapped(s, h, y, top, 3);
    assert y4 == Mapped(s, h, y, top, 4);
  }

  function ValueAt<T>(s: Space<T>, p: T -> T): Bits -> T {
    c => At(s, p, c)
  }

  lemma {:induction false} ValueAdds<T(!new)>(s: Space<T>, p: T -> T)
    requires Laws(s.g) && Additive(s.g, p)
    ensures Valuation(s.g, ValueAt(s, p))
  {
    forall x: Bits, k: Bits ensures At(s, p, Xor(x, k)) == s.g.add(At(s, p, x), At(s, p, k)) {
      assert Xor(x, k) == XorSeq(x, k);
      AtXor(s, p, x, k);
    }
  }

  /** The point is a root of the generator. */
  ghost predicate Root<T>(s: Space<T>, p: T -> T, g: Generator) {
    Reduces(s, Sixth(p), ValueAt(s, p), g)
  }

  /** What has left a word above is put back, times x^6. */
  lemma {:induction false} FoldAt<T(!new)>(s: Space<T>, p: T -> T, g: Generator, c: Bits, x: Bits, top: Symbol)
    requires Laws(s.g) && Additive(s.g, p) && Root(s, p, g) && top == c[BITS - WIDTH..]
    ensures At(s, p, Xor(x, Fold(g, c))) == s.g.add(At(s, p, x), Iter(p, CHECKSUM, Coefficient(s, top)))
  {
    var h, val := Sixth(p), ValueAt(s, p);
    ValueAdds(s, p);
    IterMap(s.g, p, CHECKSUM);
    FoldIsChain(g, c, x);
    assert top[0] == c[25] && top[1] == c[26] && top[2] == c[27] && top[3] == c[28] && top[4] == c[29];
    ConstantsAt(s, h, val, g, x, top);
    MappedIs(s, h, val(x), top, WIDTH);
  }

  lemma {:induction false} Rotate<T(!new)>(g: Group<T>, x: T, y: T, z: T)
    requires Laws(g)
    ensures g.add(g.add(x, y), z) == g.add(g.add(y, z), x)
  {
    Associate(g, x, y, z);
    Commute(g, x, g.add(y, z));
  }

  lemma {:induction false} ShiftedAt<T(!new)>(s: Space<T>, p: T -> T, c: Bits, v: Symbol, low: seq<bool>)
    requires Laws(s.g) && Additive(s.g, p) && low == c[..BITS - WIDTH]
    ensures At(s, p, Shifted(c, v)) == s.g.add(Coefficient(s, v), p(At(s, p, low)))
  {
    AtAppend(s, p, v, low, 1);
    AtSymbol(s, p, v);
    assert Iter(p, 1, At(s, p, low)) == p(Iter(p, 0, At(s, p, low)));
  }

  lemma {:induction false} WordAt<T(!new)>(s: Space<T>, p: T -> T, c: Bits, low: seq<bool>, top: Symbol)
    requires Laws(s.g) && Additive(s.g, p) && low == c[..BITS - WIDTH] && top == c[BITS - WIDTH..]
    ensures p(At(s, p, c)) == s.g.add(p(At(s, p, low)), Iter(p, CHECKSUM, Coefficient(s, top)))
  {
    assert c == low + top;
    AtAppend(s, p, low, top, CHECKSUM - 1);
    AtSymbol(s, p, top);
    AdditiveAt(s.g, p, At(s, p, low), Iter(p, CHECKSUM - 1, Coefficient(s, top)));
  }

  /** Taking a symbol multiplies the value by the point and adds the symbol. */
  lemma {:induction false} StepAt<T(!new)>(s: Space<T>, p: T -> T, g: Generator, c: Bits, v: Symbol)
    requires Laws(s.g) && Additive(s.g, p) && Root(s, p, g)
    ensures At(s, p, Step(g, c, v)) == s.g.add(p(At(s, p, c)), Coefficient(s, v))
  {
    var low, top := c[..BITS - WIDTH], c[BITS - WIDTH..];
    FoldAt(s, p, g, c, Shifted(c, v), top);
    ShiftedAt(s, p, c, v, low);
    WordAt(s, p, c, low, top);
    Rotate(s.g, Coefficient(s, v), p(At(s, p, low)), Iter(p, CHECKSUM, Coefficient(s, top)));
  }

  // ---------------------------------------------------------------- multiples of the generator

  /** Twice a symbol in GF(32), modulo x^5 + x^3 + 1. */
  function Twice(v: Symbol): Symbol {
    [v[4], v[0], v[1], v[2] != v[4], v[3]]
  }

  /** Twice each coefficient of a word. */
  function TwiceAll(w: seq<bool>): (r: seq<bool>)
    ensures |r| == |w|
  {
    if |w| < WIDTH then w else Twice(w[..WIDTH]) + TwiceAll(w[WIDTH..])
  }

  /** The constants are the first one, times the powers of two. */
  ghost predicate Doubling(g: Generator) {
    TwiceAll(g.k0) == g.k1 && TwiceAll(g.k1) == g.k2 && TwiceAll(g.k2) == g.k3 && TwiceAll(g.k3) == g.k4
  }

  ghost predicate Commutes<T(!new)>(p: T -> T, d: T -> T) {
    forall x :: p(d(x)) == d(p(x))
  }

  /** A map doubles the elements for symbols. */
  ghost predicate Doubles<T(!new)>(s: Space<T>, d: T -> T) {
    && Additive(s.g, d) && (forall v: Symbol :: Coefficient(s, Twice(v)) == d(Coefficient(s, v)))
    && d(s.base(0)) == s.base(1) && d(s.base(1)) == s.base(2) && d(s.base(2)) == s.base(3) && d(s.base(3)) == s.base(4)
  }

  lemma {:induction false} TwiceAt<T(!new)>(s: Space<T>, p: T -> T, d: T -> T, w: seq<bool>)
    requires Doubles(s, d) && Commutes(p, d)
    ensures At(s, p, TwiceAll(w)) == d(At(s, p, w))
    decreases |w|
  {
    if |w| >= WIDTH {
      var v, rest := w[..WIDTH], w[WIDTH..];
      TwiceAt(s, p, d, rest);
      assert TwiceAll(w)[..WIDTH] == Twice(v) && TwiceAll(w)[WIDTH..] == TwiceAll(rest);
      AdditiveAt(s.g, d, p(At(s, p, rest)), Coefficient(s, v));
    }
  }

  lemma {:induction false} IterCommutes<T(!new)>(p: T -> T, d: T -> T, n: nat, x: T)
    requires Commutes(p, d)
    ensures Iter(p, n, d(x)) == d(Iter(p, n, x))
  {
    if n > 0 {
      IterCommutes(p, d, n - 1, x);
    }
  }

  /** A root for the first constant is a root for the others. */
  lemma {:induction false} RootBy<T(!new)>(s: Space<T>, p: T -> T, d: T -> T, g: Generator)
    requires Doubles(s, d) && Commutes(p, d) && Doubling(g) && At(s, p, g.k0) == Iter(p, CHECKSUM, s.base(0))
    ensures Root(s, p, g)
  {
    TwiceAt(s, p, d, g.k0);
    TwiceAt(s, p, d, g.k1);
    TwiceAt(s, p, d, g.k2);
    TwiceAt(s, p, d, g.k3);
    IterCommutes(p, d, CHECKSUM, s.base(0));
    IterCommutes(p, d, CHECKSUM, s.base(1));
    IterCommutes(p, d, CHECKSUM, s.base(2));
    IterCommutes(p, d, CHECKSUM, s.base(3));
  }

  // ---------------------------------------------------------------- sequences

  /** The value of the polynomial whose coefficients are given symbols, the highest first. */
  function Horner<T>(s: Space<T>, p: T -> T, d: seq<Symbol>): T {
    if d == [] then s.g.zero else s.g.add(p(Horner(s, p, d[..|d| - 1])), Coefficient(s, d[|d| - 1]))
  }

  /** The remainder has the value of the polynomial, at every root of the generator. */
  lemma {:induction false} RemainderAt<T(!new)>(s: Space<T>, p: T -> T, g: Generator, d: seq<Symbol>)
    requires Laws(s.g) && Additive(s.g, p) && Root(s, p, g)
    ensures At(s, p, PolyMod(g, Zero(), d)) == Horner(s, p, d)
  {
    if d == [] {
      assert Zero() == Zeros(BITS);
      AtZero(s, p, BITS);
    } else {
      var n := |d| - 1;
      RemainderAt(s, p, g, d[..n]);
      StepAt(s, p, g, PolyMod(g, Zero(), d[..n]), d[n]);
    }
  }

  lemma {:induction false} HornerXor<T(!new)>(s: Space<T>, p: T -> T, d: seq<Symbol>, f: seq<Symbol>)
    requires Laws(s.g) && Additive(s.g, p) && |d| == |f|
    ensures Horner(s, p, XorAll(d, f)) == s.g.add(Horner(s, p, d), Horner(s, p, f))
  {
    if d == [] {
      ZeroIs(s.g, s.g.zero, s.g.zero);
    } else {
      var n := |d| - 1;
      var x, y := Horner(s, p, d[..n]), Horner(s, p, f[..n]);
      assert XorAll(d, f)[..n] == XorAll(d[..n], f[..n]);
      HornerXor(s, p, d[..n], f[..n]);
      AdditiveAt(s.g, p, x, y);
      EmbedXor(s, d[n], f[n], WIDTH);
      Exchange(s.g, p(x), p(y), Coefficient(s, d[n]), Coefficient(s, f[n]));
    }
  }

  /** A sequence with one symbol, and zeros besides. */
  function Lone(n: nat, i: nat, v: Symbol): seq<Symbol> {
    seq(n, (j: nat) => AtPlace(i, v, j))
  }

  function AtPlace(i: nat, v: Symbol, j: nat): Symbol {
    if j == i then v else ZeroSymbol()
  }

  lemma {:induction false} LoneValue<T(!new)>(s: Space<T>, p: T -> T, n: nat, i: nat, v: Symbol)
    requires Laws(s.g) && Additive(s.g, p)
    ensures Horner(s, p, Lone(n, i, v)) == if i < n then Iter(p, n - 1 - i, Coefficient(s, v)) else s.g.zero
    decreases n
  {
    if n > 0 {
      var m := n - 1;
      assert Lone(n, i, v)[..m] == Lone(m, i, v);
      LoneValue(s, p, m, i, v);
      EmbedZero(s, WIDTH);
    }
  }

  // ---------------------------------------------------------------- three places

  /** A sequence whose symbols are zero except in three places. */
  ghost predicate OnlyAt(d: seq<Symbol>, a: nat, b: nat, c: nat) {
    && a < |d| && b < |d| && c < |d| && Distinct(a, b) && Distinct(a, c) && Distinct(b, c)
    && forall i :: 0 <= i < |d| && i != a && i != b && i != c ==> d[i] == ZeroSymbol()
  }

  lemma {:induction false} ThreeLone(d: seq<Symbol>, a: nat, b: nat, c: nat)
    requires OnlyAt(d, a, b, c)
    ensures d == XorAll(XorAll(Lone(|d|, a, d[a]), Lone(|d|, b, d[b])), Lone(|d|, c, d[c]))
  {
    var n := |d|;
    var r := XorAll(XorAll(Lone(n, a, d[a]), Lone(n, b, d[b])), Lone(n, c, d[c]));
    forall i | 0 <= i < n ensures d[i] == r[i] {
      var x, y, z := Lone(n, a, d[a])[i], Lone(n, b, d[b])[i], Lone(n, c, d[c])[i];
      assert r[i] == XorSymbol(XorSymbol(x, y), z);
      XorSymbolZero(d[i]);
    }
  }

  lemma {:induction false} XorSymbolZero(v: Symbol)
    ensures XorSymbol(v, ZeroSymbol()) == v && XorSymbol(ZeroSymbol(), v) == v
  {
  }

  /** Three places, counted from the end. */
  ghost predicate FromEnd(d: seq<Symbol>, a: nat, b: nat, c: nat, i: nat, j: nat, k: nat) {
    OnlyAt(d, a, b, c) && a + i + 1 == |d| && b + j + 1 == |d| && c + k + 1 == |d|
  }

  lemma {:induction false} LonePower<T(!new)>(s: Space<T>, p: T -> T, n: nat, a: nat, i: nat, v: Symbol)
    requires Laws(s.g) && Additive(s.g, p) && a + i + 1 == n
    ensures |Lone(n, a, v)| == n && Horner(s, p, Lone(n, a, v)) == Iter(p, i, Coefficient(s, v))
  {
    LoneValue(s, p, n, a, v);
  }

  /** The value of such a sequence. */
  lemma {:induction false} ThreeValue<T(!new)>(
    s: Space<T>, p: T -> T, d: seq<Symbol>, a: nat, b: nat, c: nat, i: nat, j: nat, k: nat)
    requires Laws(s.g) && Additive(s.g, p) && FromEnd(d, a, b, c, i, j, k)
    ensures Horner(s, p, d) == Sum(s.g, p, i, j, k, Coefficient(s, d[a]), Coefficient(s, d[b]), Coefficient(s, d[c]))
  {
    var n := |d|;
    var x, y, z := Lone(n, a, d[a]), Lone(n, b, d[b]), Lone(n, c, d[c]);
    ThreeLone(d, a, b, c);
    LonePower(s, p, n, a, i, d[a]);
    LonePower(s, p, n, b, j, d[b]);
    LonePower(s, p, n, c, k, d[c]);
    ThreeHorner(s, p, x, y, z);
  }

  lemma {:induction false} ThreeHorner<T(!new)>(
    s: Space<T>, p: T -> T, x: seq<Symbol>, y: seq<Symbol>, z: seq<Symbol>)
    requires Laws(s.g) && Additive(s.g, p) && |x| == |y| == |z|
    ensures Horner(s, p, XorAll(XorAll(x, y), z))
            == s.g.add(s.g.add(Horner(s, p, x), Horner(s, p, y)), Horner(s, p, z))
  {
    HornerXor(s, p, XorAll(x, y), z);
    HornerXor(s, p, x, y);
  }

  /** At a root, the terms of a sequence without remainder cancel. */
  lemma {:induction false} TermsCancel<T(!new)>(
    s: Space<T>, p: T -> T, g: Generator, d: seq<Symbol>, a: nat, b: nat, c: nat, i: nat, j: nat, k: nat)
    requires Laws(s.g) && Additive(s.g, p) && Root(s, p, g)
    requires FromEnd(d, a, b, c, i, j, k) && PolyMod(g, Zero(), d) == Zero()
    ensures Sum(s.g, p, i, j, k, Coefficient(s, d[a]), Coefficient(s, d[b]), Coefficient(s, d[c])) == s.g.zero
  {
    RemainderAt(s, p, g, d);
    assert Zero() == Zeros(BITS);
    AtZero(s, p, BITS);
    ThreeValue(s, p, d, a, b, c, i, j, k);
  }

  /** One map is the n-th power of another. */
  ghost predicate PowerOf<T(!new)>(p: T -> T, f: T -> T, n: nat) {
    forall q: nat, m: nat, x {:trigger Iter(p, q, x), Iter(f, m, x)} :: m == n * q ==> Iter(p, q, x) == Iter(f, m, x)
  }

  lemma {:induction false} PowerAt<T(!new)>(p: T -> T, f: T -> T, n: nat, q: nat, m: nat, x: T)
    requires PowerOf(p, f, n) && m == n * q
    ensures Iter(p, q, x) == Iter(f, m, x)
  {
  }

  /** The sums at three consecutive powers, as sums of the terms at the first. */
  lemma {:induction false} SumsAre<T(!new)>(g: Group<T>, f: T -> T, p: nat, q: nat, r: nat, u: T, v: T, w: T)
    requires Sum(g, f, 997 * p, 997 * q, 997 * r, u, v, w) == g.zero
    requires Sum(g, f, 998 * p, 998 * q, 998 * r, u, v, w) == g.zero
    requires Sum(g, f, 999 * p, 999 * q, 999 * r, u, v, w) == g.zero
    ensures SumsVanish(g, f, p, q, r, Iter(f, 997 * p, u), Iter(f, 997 * q, v), Iter(f, 997 * r, w))
  {
    IterAdd(f, p, 997 * p, 998 * p, u);
    IterAdd(f, q, 997 * q, 998 * q, v);
    IterAdd(f, r, 997 * r, 998 * r, w);
    IterAdd(f, 2 * p, 997 * p, 999 * p, u);
    IterAdd(f, 2 * q, 997 * q, 999 * q, v);
    IterAdd(f, 2 * r, 997 * r, 999 * r, w);
  }

  /** A root of the generator that is the n-th power of a given map. */
  ghost predicate RootPower<T(!new)>(s: Space<T>, p: T -> T, g: Generator, f: T -> T, n: nat) {
    Additive(s.g, p) && Root(s, p, g) && PowerOf(p, f, n)
  }

  lemma {:induction false} PowersCancel<T(!new)>(
    s: Space<T>, p: T -> T, g: Generator, f: T -> T, n: nat, d: seq<Symbol>, a: nat, b: nat, c: nat,
    i: nat, j: nat, k: nat, ni: nat, nj: nat, nk: nat)
    requires Laws(s.g) && RootPower(s, p, g, f, n) && FromEnd(d, a, b, c, i, j, k) && PolyMod(g, Zero(), d) == Zero()
    requires ni == n * i && nj == n * j && nk == n * k
    ensures Sum(s.g, f, ni, nj, nk, Coefficient(s, d[a]), Coefficient(s, d[b]), Coefficient(s, d[c])) == s.g.zero
  {
    TermsCancel(s, p, g, d, a, b, c, i, j, k);
    PowerAt(p, f, n, i, ni, Coefficient(s, d[a]));
    PowerAt(p, f, n, j, nj, Coefficient(s, d[b]));
    PowerAt(p, f, n, k, nk, Coefficient(s, d[c]));
  }

  /** Sums of three elements at three consecutive powers of a primitive map vanish only with the elements. */
  lemma {:induction false} SumsZero<T(!new)>(g: Group<T>, f: T -> T, i: nat, j: nat, k: nat, u: T, v: T, w: T)
    requires Primitive(g, f) && Distinct(i, j) && Distinct(i, k) && Distinct(j, k)
    requires Sum(g, f, 997 * i, 997 * j, 997 * k, u, v, w) == g.zero
    requires Sum(g, f, 998 * i, 998 * j, 998 * k, u, v, w) == g.zero
    requires Sum(g, f, 999 * i, 999 * j, 999 * k, u, v, w) == g.zero
    ensures u == v == w == g.zero
  {
    SumsAre(g, f, i, j, k, u, v, w);
    AllVanish(g, f, i, j, k, Iter(f, 997 * i, u), Iter(f, 997 * j, v), Iter(f, 997 * k, w));
    IterOneToOne(g, f, 997 * i, u);
    IterOneToOne(g, f, 997 * j, v);
    IterOneToOne(g, f, 997 * k, w);
  }

  /** If three consecutive powers of a primitive element are roots, three symbols without remainder are zero. */
  lemma {:induction false} ThreeVanish<T(!new)>(
    s: Space<T>, g: Generator, f: T -> T, p: T -> T, q: T -> T, r: T -> T, d: seq<Symbol>, a: nat, b: nat, c: nat)
    requires Linear(s) && WIDTH <= s.dim && Primitive(s.g, f)
    requires RootPower(s, p, g, f, 997) && RootPower(s, q, g, f, 998) && RootPower(s, r, g, f, 999)
    requires OnlyAt(d, a, b, c) && PolyMod(g, Zero(), d) == Zero()
    ensures d[a] == d[b] == d[c] == ZeroSymbol()
  {
    var i, j, k := |d| - 1 - a, |d| - 1 - b, |d| - 1 - c;
    PowersCancel(s, p, g, f, 997, d, a, b, c, i, j, k, 997 * i, 997 * j, 997 * k);
    PowersCancel(s, q, g, f, 998, d, a, b, c, i, j, k, 998 * i, 998 * j, 998 * k);
    PowersCancel(s, r, g, f, 999, d, a, b, c, i, j, k, 999 * i, 999 * j, 999 * k);
    SumsZero(s.g, f, i, j, k, Coefficient(s, d[a]), Coefficient(s, d[b]), Coefficient(s, d[c]));
    CoefficientZero(s, d[a]);
    CoefficientZero(s, d[b]);
    CoefficientZero(s, d[c]);
  }
}
