/**
 Powers of an additive map on a group in which every element is its own inverse. If no power of
 the map below the 1023rd leaves an element other than zero in its place, then three elements are
 zero as soon as three sums of their images are: the reason why a code detects three errors.
 */
module PowerSums {
  import opened Numbers

  const ORDER := 1023

  datatype Group<!T> = Group(zero: T, add: (T, T) -> T)

  /** Name two or four elements, for the law that is to be used of them. */
  predicate Pair<T>(x: T, y: T) {
    true
  }

  predicate Quad<T>(x: T, y: T, z: T, w: T) {
    true
  }

  ghost predicate Laws<T(!new)>(g: Group<T>) {
    && (forall x :: g.add(x, g.zero) == x && g.add(g.zero, x) == x && g.add(x, x) == g.zero)
    && (forall x, y, z, w {:trigger Quad(x, y, z, w)} ::
          g.add(g.add(x, y), g.add(z, w)) == g.add(g.add(x, z), g.add(y, w)))
  }

  function Iter<T>(f: T -> T, n: nat, v: T): T {
    if n == 0 then v else f(Iter(f, n - 1, v))
  }

  ghost predicate Additive<T(!new)>(g: Group<T>, f: T -> T) {
    f(g.zero) == g.zero && forall x, y {:trigger Pair(x, y)} :: f(g.add(x, y)) == g.add(f(x), f(y))
  }

  ghost predicate OneToOne<T(!new)>(g: Group<T>, f: T -> T) {
    forall x :: f(x) == g.zero ==> x == g.zero
  }

  /** No power of the map short of the whole order keeps anything but zero in its place. */
  ghost predicate Moving<T(!new)>(g: Group<T>, f: T -> T) {
    forall n: nat, x :: 0 < n < ORDER && Iter(f, n, x) == x ==> x == g.zero
  }

  ghost predicate Primitive<T(!new)>(g: Group<T>, f: T -> T) {
    Laws(g) && Additive(g, f) && OneToOne(g, f) && Moving(g, f)
  }

  // ---------------------------------------------------------------- laws

  lemma {:induction false} Exchange<T(!new)>(g: Group<T>, x: T, y: T, z: T, w: T)
    requires Laws(g)
    ensures g.add(g.add(x, y), g.add(z, w)) == g.add(g.add(x, z), g.add(y, w))
  {
    assert Quad(x, y, z, w);
  }

  lemma {:induction false} Commute<T(!new)>(g: Group<T>, x: T, y: T)
    requires Laws(g)
    ensures g.add(x, y) == g.add(y, x)
  {
    Exchange(g, g.zero, x, y, g.zero);
  }

  lemma {:induction false} Associate<T(!new)>(g: Group<T>, x: T, y: T, z: T)
    requires Laws(g)
    ensures g.add(g.add(x, y), z) == g.add(x, g.add(y, z))
  {
    Exchange(g, x, y, g.zero, z);
  }

  lemma {:induction false} ZeroIs<T(!new)>(g: Group<T>, x: T, y: T)
    requires Laws(g)
    ensures g.add(x, y) == g.zero <==> x == y
  {
    Associate(g, x, y, y);
  }

  lemma {:induction false} Mixed<T(!new)>(g: Group<T>, x: T, y: T, z: T)
    requires Laws(g)
    ensures g.add(g.add(x, y), g.add(y, z)) == g.add(x, z)
  {
    Commute(g, y, z);
    Exchange(g, x, y, z, y);
  }

  lemma {:induction false} Regroup<T(!new)>(g: Group<T>, x: T, y: T, z: T, w: T)
    requires Laws(g) && g.add(g.add(x, y), g.add(z, w)) == g.zero
    ensures g.add(x, z) == g.add(y, w)
  {
    Exchange(g, x, y, z, w);
    ZeroIs(g, g.add(x, z), g.add(y, w));
  }

  lemma {:induction false} Cancel<T(!new)>(g: Group<T>, x: T, y: T, z: T)
    requires Laws(g) && g.add(x, z) == g.add(y, z)
    ensures x == y
  {
    Associate(g, x, z, z);
    Associate(g, y, z, z);
  }

  lemma {:induction false} Swap<T(!new)>(g: Group<T>, x: T, y: T, z: T)
    requires Laws(g) && g.add(g.add(x, y), z) == g.zero
    ensures g.add(g.add(y, x), z) == g.zero && z == g.add(x, y)
  {
    Commute(g, x, y);
    ZeroIs(g, g.add(x, y), z);
  }

  lemma {:induction false} Turn<T(!new)>(g: Group<T>, x: T, y: T, z: T)
    requires Laws(g) && g.add(g.add(x, y), z) == g.zero
    ensures g.add(g.add(z, y), x) == g.zero
  {
    Associate(g, x, y, z);
    Commute(g, y, z);
    Commute(g, x, g.add(z, y));
  }

  // ---------------------------------------------------------------- powers

  lemma {:induction false} AdditiveAt<T(!new)>(g: Group<T>, f: T -> T, x: T, y: T)
    requires Additive(g, f)
    ensures f(g.add(x, y)) == g.add(f(x), f(y))
  {
    assert Pair(x, y);
  }

  lemma {:induction false} IterAdditive<T(!new)>(g: Group<T>, f: T -> T, n: nat, x: T, y: T)
    requires Additive(g, f)
    ensures Iter(f, n, g.add(x, y)) == g.add(Iter(f, n, x), Iter(f, n, y))
  {
    if n > 0 {
      IterAdditive(g, f, n - 1, x, y);
      AdditiveAt(g, f, Iter(f, n - 1, x), Iter(f, n - 1, y));
    }
  }

  lemma {:induction false} IterZero<T(!new)>(g: Group<T>, f: T -> T, n: nat)
    requires Additive(g, f)
    ensures Iter(f, n, g.zero) == g.zero
  {
    if n > 0 {
      IterZero(g, f, n - 1);
    }
  }

  lemma {:induction false} IterOneToOne<T(!new)>(g: Group<T>, f: T -> T, n: nat, v: T)
    requires OneToOne(g, f) && Iter(f, n, v) == g.zero
    ensures v == g.zero
  {
    if n > 0 {
      IterOneToOne(g, f, n - 1, v);
    }
  }

  lemma {:induction false} IterAdd<T>(f: T -> T, a: nat, b: nat, n: nat, v: T)
    requires n == a + b
    ensures Iter(f, n, v) == Iter(f, a, Iter(f, b, v))
  {
    if a > 0 {
      IterAdd(f, a - 1, b, n - 1, v);
    }
  }

  // ---------------------------------------------------------------- three sums

  /** Two powers that agree on an element agree only on zero. */
  lemma {:induction false} Apart<T(!new)>(g: Group<T>, f: T -> T, p: nat, q: nat, x: T)
    requires Primitive(g, f) && p < q < p + ORDER && Iter(f, p, x) == Iter(f, q, x)
    ensures x == g.zero
  {
    var d := q - p;
    var y := Iter(f, d, x);
    IterAdd(f, p, d, q, x);
    IterAdditive(g, f, p, x, y);
    ZeroIs(g, Iter(f, p, x), Iter(f, p, y));
    IterOneToOne(g, f, p, g.add(x, y));
    ZeroIs(g, x, y);
  }

  /** Places that are different, and less than a whole order apart. */
  predicate Distinct(p: nat, q: nat) {
    p < q < p + ORDER || q < p < q + ORDER
  }

  lemma {:induction false} Agree<T(!new)>(g: Group<T>, f: T -> T, p: nat, q: nat, x: T)
    requires Primitive(g, f) && Distinct(p, q) && Iter(f, p, x) == Iter(f, q, x)
    ensures x == g.zero
  {
    if p < q {
      Apart(g, f, p, q, x);
    } else {
      Apart(g, f, q, p, x);
    }
  }

  /** The difference of two powers of the map, applied twice: the square of a sum has no mixed terms. */
  lemma {:induction false} DifferenceTwice<T(!new)>(g: Group<T>, f: T -> T, p: nat, q: nat, w: T, x: T)
    requires Laws(g) && Additive(g, f) && x == g.add(Iter(f, p, w), Iter(f, q, w))
    ensures g.add(Iter(f, p, x), Iter(f, q, x)) == g.add(Iter(f, 2 * p, w), Iter(f, 2 * q, w))
  {
    var a, b := Iter(f, p, w), Iter(f, q, w);
    IterAdditive(g, f, p, a, b);
    IterAdditive(g, f, q, a, b);
    IterAdd(f, p, p, 2 * p, w);
    IterAdd(f, q, q, 2 * q, w);
    IterAdd(f, p, q, p + q, w);
    IterAdd(f, q, p, p + q, w);
    Mixed(g, Iter(f, 2 * p, w), Iter(f, p + q, w), Iter(f, 2 * q, w));
  }

  /** The sum of three terms, each with its own power. */
  function Sum<T>(g: Group<T>, f: T -> T, p: nat, q: nat, r: nat, u: T, v: T, w: T): T {
    g.add(g.add(Iter(f, p, u), Iter(f, q, v)), Iter(f, r, w))
  }

  /** The sums of three elements, of their images, and of the images of those are all zero. */
  ghost predicate SumsVanish<T(!new)>(g: Group<T>, f: T -> T, p: nat, q: nat, r: nat, u: T, v: T, w: T) {
    && Sum(g, f, 0, 0, 0, u, v, w) == g.zero
    && Sum(g, f, p, q, r, u, v, w) == g.zero
    && Sum(g, f, 2 * p, 2 * q, 2 * r, u, v, w) == g.zero
  }

  /** The third element taken out of a sum. */
  lemma {:induction false} Eliminate<T(!new)>(g: Group<T>, f: T -> T, p: nat, q: nat, r: nat, u: T, v: T, w: T)
    requires Laws(g) && Additive(g, f) && w == g.add(u, v) && Sum(g, f, p, q, r, u, v, w) == g.zero
    ensures g.add(Iter(f, p, u), Iter(f, r, u)) == g.add(Iter(f, q, v), Iter(f, r, v))
  {
    IterAdditive(g, f, r, u, v);
    Regroup(g, Iter(f, p, u), Iter(f, q, v), Iter(f, r, u), Iter(f, r, v));
  }

  /** If the three sums vanish, so does the first element. */
  lemma {:induction false} FirstVanishes<T(!new)>(g: Group<T>, f: T -> T, p: nat, q: nat, r: nat, u: T, v: T, w: T)
    requires Primitive(g, f) && Distinct(p, q) && Distinct(p, r) && SumsVanish(g, f, p, q, r, u, v, w)
    ensures u == g.zero
  {
    var x := g.add(Iter(f, p, u), Iter(f, r, u));
    Swap(g, u, v, w);
    Eliminate(g, f, p, q, r, u, v, w);
    Eliminate(g, f, 2 * p, 2 * q, 2 * r, u, v, w);
    DifferenceTwice(g, f, p, r, u, x);
    DifferenceTwice(g, f, q, r, v, x);
    Cancel(g, Iter(f, p, x), Iter(f, q, x), Iter(f, r, x));
    Agree(g, f, p, q, x);
    ZeroIs(g, Iter(f, p, u), Iter(f, r, u));
    Agree(g, f, p, r, u);
  }

  lemma {:induction false} SumSwap<T(!new)>(g: Group<T>, f: T -> T, p: nat, q: nat, r: nat, u: T, v: T, w: T)
    requires Laws(g) && Sum(g, f, p, q, r, u, v, w) == g.zero
    ensures Sum(g, f, q, p, r, v, u, w) == g.zero
  {
    Swap(g, Iter(f, p, u), Iter(f, q, v), Iter(f, r, w));
  }

  lemma {:induction false} SumsSwap<T(!new)>(g: Group<T>, f: T -> T, p: nat, q: nat, r: nat, u: T, v: T, w: T)
    requires Laws(g) && SumsVanish(g, f, p, q, r, u, v, w)
    ensures SumsVanish(g, f, q, p, r, v, u, w)
  {
    SumSwap(g, f, 0, 0, 0, u, v, w);
    SumSwap(g, f, p, q, r, u, v, w);
    SumSwap(g, f, 2 * p, 2 * q, 2 * r, u, v, w);
  }

  lemma {:induction false} SumTurn<T(!new)>(g: Group<T>, f: T -> T, p: nat, q: nat, r: nat, u: T, v: T, w: T)
    requires Laws(g) && Sum(g, f, p, q, r, u, v, w) == g.zero
    ensures Sum(g, f, r, q, p, w, v, u) == g.zero
  {
    Turn(g, Iter(f, p, u), Iter(f, q, v), Iter(f, r, w));
  }

  lemma {:induction false} SumsTurn<T(!new)>(g: Group<T>, f: T -> T, p: nat, q: nat, r: nat, u: T, v: T, w: T)
    requires Laws(g) && SumsVanish(g, f, p, q, r, u, v, w)
    ensures SumsVanish(g, f, r, q, p, w, v, u)
  {
    SumTurn(g, f, 0, 0, 0, u, v, w);
    SumTurn(g, f, p, q, r, u, v, w);
    SumTurn(g, f, 2 * p, 2 * q, 2 * r, u, v, w);
  }

  lemma {:induction false} SecondVanishes<T(!new)>(g: Group<T>, f: T -> T, p: nat, q: nat, r: nat, u: T, v: T, w: T)
    requires Primitive(g, f) && Distinct(p, q) && Distinct(q, r) && SumsVanish(g, f, p, q, r, u, v, w)
    ensures v == g.zero
  {
    SumsSwap(g, f, p, q, r, u, v, w);
    FirstVanishes(g, f, q, p, r, v, u, w);
  }

  lemma {:induction false} ThirdVanishes<T(!new)>(g: Group<T>, f: T -> T, p: nat, q: nat, r: nat, u: T, v: T, w: T)
    requires Primitive(g, f) && Distinct(p, r) && Distinct(q, r) && SumsVanish(g, f, p, q, r, u, v, w)
    ensures w == g.zero
  {
    SumsTurn(g, f, p, q, r, u, v, w);
    FirstVanishes(g, f, r, q, p, w, v, u);
  }

  /** If the three sums vanish, so do the elements. */
  lemma {:induction false} AllVanish<T(!new)>(g: Group<T>, f: T -> T, p: nat, q: nat, r: nat, u: T, v: T, w: T)
    requires Primitive(g, f) && Distinct(p, q) && Distinct(p, r) && Distinct(q, r) && SumsVanish(g, f, p, q, r, u, v, w)
    ensures u == v == w == g.zero
  {
    FirstVanishes(g, f, p, q, r, u, v, w);
    SecondVanishes(g, f, p, q, r, u, v, w);
    ThirdVanishes(g, f, p, q, r, u, v, w);
  }

  // ---------------------------------------------------------------- when a map is moving

  ghost predicate Fixed<T>(f: T -> T, n: nat, x: T) {
    Iter(f, n, x) == x
  }

  lemma {:induction false} FixedDifference<T>(f: T -> T, a: nat, b: nat, d: nat, x: T)
    requires b == a + d && Fixed(f, a, x) && Fixed(f, b, x)
    ensures Fixed(f, d, x)
  {
    IterAdd(f, d, a, b, x);
  }

  lemma {:induction false} FixedMultiple<T>(f: T -> T, a: nat, k: nat, n: nat, x: T)
    requires n == a * k && Fixed(f, a, x)
    ensures Fixed(f, n, x)
  {
    if k > 0 {
      var m := a * (k - 1);
      FixedMultiple(f, a, k - 1, m, x);
      IterAdd(f, a, m, n, x);
    }
  }

  /** What two powers keep in place, the power of their greatest common divisor keeps in place. */
  lemma {:induction false} FixedCommon<T>(f: T -> T, a: nat, b: nat, x: T) returns (d: nat, i: nat, j: nat)
    requires a > 0 && b > 0 && Fixed(f, a, x) && Fixed(f, b, x)
    ensures Fixed(f, d, x) && a == d * i && b == d * j && d <= a
    decreases a + b
  {
    if a == b {
      d, i, j := a, 1, 1;
    } else if a < b {
      FixedDifference(f, a, b, b - a, x);
      d, i, j := FixedCommon(f, a, b - a, x);
      j := i + j;
    } else {
      FixedDifference(f, b, a, a - b, x);
      d, i, j := FixedCommon(f, a - b, b, x);
      i := i + j;
    }
  }

  lemma {:induction false} SmallDivisor(d: nat, k: nat)
    requires d * k == 1023 && d <= 31
    ensures d == 1 || d == 3 || d == 11 || d == 31
  {
    assert d == 0 || d == 1 || d == 2 || d == 3 || d == 4 || d == 5 || d == 6 || d == 7 || d == 8 || d == 9 || d == 10
           || d == 11 || d == 12 || d == 13 || d == 14 || d == 15 || d == 16 || d == 17 || d == 18 || d == 19 || d == 20
           || d == 21 || d == 22 || d == 23 || d == 24 || d == 25 || d == 26 || d == 27 || d == 28 || d == 29 || d == 30
           || d == 31;
  }

  /** A proper divisor of 1023 divides 341, 93 or 33. */
  lemma {:induction false} ProperDivisor(d: nat, k: nat) returns (n: nat, i: nat)
    requires d * k == 1023 && d < 1023
    ensures (n == 341 || n == 93 || n == 33) && n == d * i
  {
    if d <= 31 {
      SmallDivisor(d, k);
      if d == 3 {
        n, i := 33, 11;
      } else {
        n := 341;
        i := if d == 1 then 341 else if d == 11 then 31 else 11;
      }
    } else {
      if k >= 32 {
        MulMono(32, d, k);
      }
      SmallDivisor(k, d);
      n := if k == 3 then 341 else if k == 11 then 93 else 33;
      i := 1;
    }
  }

  /** The whole order keeps everything in place, and three divisors of it nothing but zero. */
  ghost predicate HasOrder<T(!new)>(g: Group<T>, f: T -> T, order: nat) {
    && order == ORDER && (forall x :: Fixed(f, order, x))
    && (forall n: nat, x :: (n == 341 || n == 93 || n == 33) && Fixed(f, n, x) ==> x == g.zero)
  }

  lemma {:induction false} NothingFixed<T(!new)>(g: Group<T>, f: T -> T, order: nat, n: nat, x: T)
    requires HasOrder(g, f, order) && 0 < n < ORDER && Fixed(f, n, x)
    ensures x == g.zero
  {
    var d, i, j := FixedCommon(f, n, order, x);
    var m, k := ProperDivisor(d, j);
    FixedMultiple(f, d, k, m, x);
  }

  lemma {:induction false} OrderMoves<T(!new)>(g: Group<T>, f: T -> T, order: nat)
    requires HasOrder(g, f, order)
    ensures Moving(g, f)
  {
    forall n: nat, x | 0 < n < ORDER && Iter(f, n, x) == x ensures x == g.zero {
      NothingFixed(g, f, order, n, x);
    }
  }
}
