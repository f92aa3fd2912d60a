/**
 Additive maps on a space whose elements are sums of basis elements, chosen by bits. A map is known
 by what it does to the basis, so maps can be multiplied as tables.
 */
module AdditiveMaps {
  import opened PowerSums

  /** A group with the bits of its elements, and the element for each bit. */
  datatype Space<!T> = Space(g: Group<T>, bit: (T, nat) -> bool, base: nat -> T, dim: nat)

  ghost predicate Bitwise<T(!new)>(s: Space<T>) {
    && (forall i: nat :: i < s.dim ==> !s.bit(s.g.zero, i))
    && (forall x, y, i: nat {:trigger s.bit(s.g.add(x, y), i)} ::
          i < s.dim ==> s.bit(s.g.add(x, y), i) == (s.bit(x, i) != s.bit(y, i)))
    && (forall i: nat, j: nat {:trigger s.bit(s.base(j), i)} ::
          i < s.dim && j < s.dim ==> s.bit(s.base(j), i) == (i == j))
  }

  function Pick<T>(g: Group<T>, on: bool, k: T): T {
    if on then k else g.zero
  }

  /** The sum of the first n entries of a table that the bits of v choose. */
  function Table<T>(s: Space<T>, cols: seq<T>, v: T, n: nat): T
    requires n <= |cols|
  {
    if n == 0 then s.g.zero else s.g.add(Table(s, cols, v, n - 1), Pick(s.g, s.bit(v, n - 1), cols[n - 1]))
  }

  function Basis<T>(s: Space<T>): seq<T> {
    seq(s.dim, i requires 0 <= i => s.base(i))
  }

  /** Two elements have the same first n bits. */
  ghost predicate SameUpTo<T(!new)>(s: Space<T>, x: T, y: T, n: nat) {
    forall i: nat :: i < n ==> s.bit(x, i) == s.bit(y, i)
  }

  ghost predicate Determined<T(!new)>(s: Space<T>) {
    forall x, y :: SameUpTo(s, x, y, s.dim) ==> x == y
  }

  ghost predicate Linear<T(!new)>(s: Space<T>) {
    Laws(s.g) && Bitwise(s) && Determined(s)
  }

  // ---------------------------------------------------------------- tables are additive maps

  lemma {:induction false} PickAdd<T(!new)>(g: Group<T>, a: bool, b: bool, k: T)
    requires Laws(g)
    ensures Pick(g, a != b, k) == g.add(Pick(g, a, k), Pick(g, b, k))
  {
  }

  lemma {:induction false} TableAdd<T(!new)>(s: Space<T>, cols: seq<T>, x: T, y: T, n: nat)
    requires Laws(s.g) && Bitwise(s) && n <= s.dim == |cols|
    ensures Table(s, cols, s.g.add(x, y), n) == s.g.add(Table(s, cols, x, n), Table(s, cols, y, n))
  {
    if n > 0 {
      var i := n - 1;
      TableAdd(s, cols, x, y, i);
      assert s.bit(s.g.add(x, y), i) == (s.bit(x, i) != s.bit(y, i));
      PickAdd(s.g, s.bit(x, i), s.bit(y, i), cols[i]);
      Exchange(s.g, Table(s, cols, x, i), Table(s, cols, y, i),
               Pick(s.g, s.bit(x, i), cols[i]), Pick(s.g, s.bit(y, i), cols[i]));
    }
  }

  lemma {:induction false} TableBase<T(!new)>(s: Space<T>, cols: seq<T>, j: nat, n: nat)
    requires Laws(s.g) && Bitwise(s) && n <= s.dim == |cols| && j < s.dim
    ensures Table(s, cols, s.base(j), n) == if j < n then cols[j] else s.g.zero
  {
    if n > 0 {
      TableBase(s, cols, j, n - 1);
      assert s.bit(s.base(j), n - 1) == (n - 1 == j);
    }
  }

  lemma {:induction false} BasisBit<T(!new)>(s: Space<T>, v: T, n: nat, j: nat)
    requires Laws(s.g) && Bitwise(s) && n <= s.dim && j < s.dim
    ensures s.bit(Table(s, Basis(s), v, n), j) == (j < n && s.bit(v, j))
  {
    if n > 0 {
      var i := n - 1;
      BasisBit(s, v, i, j);
      assert Basis(s)[i] == s.base(i) && s.bit(s.base(i), j) == (i == j);
    }
  }

  /** Every element is the sum of the basis elements that its bits choose. */
  lemma {:induction false} Spanned<T(!new)>(s: Space<T>, v: T)
    requires Linear(s)
    ensures Table(s, Basis(s), v, s.dim) == v
  {
    var sum := Table(s, Basis(s), v, s.dim);
    forall i: nat | i < s.dim ensures s.bit(sum, i) == s.bit(v, i) {
      BasisBit(s, v, s.dim, i);
    }
    assert SameUpTo(s, sum, v, s.dim);
  }

  // ---------------------------------------------------------------- additive maps are tables

  lemma {:induction false} MapTable<T(!new)>(s: Space<T>, h: T -> T, cols: seq<T>, v: T, n: nat)
    requires Additive(s.g, h) && n <= s.dim == |cols| && forall i: nat :: i < s.dim ==> cols[i] == h(s.base(i))
    ensures h(Table(s, Basis(s), v, n)) == Table(s, cols, v, n)
  {
    if n > 0 {
      var i := n - 1;
      MapTable(s, h, cols, v, i);
      AdditiveAt(s.g, h, Table(s, Basis(s), v, i), Pick(s.g, s.bit(v, i), s.base(i)));
      assert Basis(s)[i] == s.base(i);
    }
  }

  /** What an additive map does to the basis says what it does to every element. */
  lemma {:induction false} MapIsTable<T(!new)>(s: Space<T>, h: T -> T, cols: seq<T>, v: T)
    requires Linear(s) && Additive(s.g, h) && s.dim == |cols| && forall i: nat :: i < s.dim ==> cols[i] == h(s.base(i))
    ensures h(v) == Table(s, cols, v, s.dim)
  {
    MapTable(s, h, cols, v, s.dim);
    Spanned(s, v);
  }

  // ---------------------------------------------------------------- powers as tables

  /** The n-th power of a map, given by a table. */
  ghost predicate IsTable<T(!new)>(s: Space<T>, f: T -> T, n: nat, cols: seq<T>) {
    |cols| == s.dim && forall v :: Iter(f, n, v) == Table(s, cols, v, s.dim)
  }

  lemma {:induction false} IsTableAt<T(!new)>(s: Space<T>, f: T -> T, n: nat, cols: seq<T>, v: T)
    requires IsTable(s, f, n, cols)
    ensures Iter(f, n, v) == Table(s, cols, v, s.dim)
  {
  }

  /** The table of a product, from the tables of its factors. */
  ghost predicate IsProduct<T(!new)>(s: Space<T>, a: seq<T>, b: seq<T>, c: seq<T>) {
    |a| == |b| == |c| == s.dim && forall i: nat :: i < s.dim ==> Table(s, a, b[i], s.dim) == c[i]
  }

  lemma {:induction false} IterMap<T(!new)>(g: Group<T>, f: T -> T, n: nat)
    requires Additive(g, f)
    ensures Additive(g, v => Iter(f, n, v))
  {
    IterZero(g, f, n);
    forall x, y ensures Iter(f, n, g.add(x, y)) == g.add(Iter(f, n, x), Iter(f, n, y)) {
      IterAdditive(g, f, n, x, y);
    }
  }

  lemma {:induction false} ProductIsTable<T(!new)>(
    s: Space<T>, f: T -> T, a: nat, b: nat, n: nat, ta: seq<T>, tb: seq<T>, tc: seq<T>)
    requires Linear(s) && Additive(s.g, f) && n == a + b
    requires IsTable(s, f, a, ta) && IsTable(s, f, b, tb) && IsProduct(s, ta, tb, tc)
    ensures IsTable(s, f, n, tc)
  {
    var h := v => Iter(f, n, v);
    IterMap(s.g, f, n);
    forall i: nat | i < s.dim ensures tc[i] == h(s.base(i)) {
      ProductColumn(s, f, a, b, n, ta, tb, tc, i);
    }
    forall v ensures Iter(f, n, v) == Table(s, tc, v, s.dim) {
      MapIsTable(s, h, tc, v);
    }
  }

  lemma {:induction false} ProductColumn<T(!new)>(
    s: Space<T>, f: T -> T, a: nat, b: nat, n: nat, ta: seq<T>, tb: seq<T>, tc: seq<T>, i: nat)
    requires Linear(s) && n == a + b && i < s.dim
    requires IsTable(s, f, a, ta) && IsTable(s, f, b, tb) && IsProduct(s, ta, tb, tc)
    ensures Iter(f, n, s.base(i)) == tc[i]
  {
    IterAdd(f, a, b, n, s.base(i));
    IsTableAt(s, f, b, tb, s.base(i));
    TableBase(s, tb, i, s.dim);
    IsTableAt(s, f, a, ta, tb[i]);
  }

  lemma {:induction false} TableZero<T(!new)>(s: Space<T>, cols: seq<T>, n: nat)
    requires Laws(s.g) && Bitwise(s) && n <= s.dim == |cols|
    ensures Table(s, cols, s.g.zero, n) == s.g.zero
  {
    if n > 0 {
      TableZero(s, cols, n - 1);
      assert !s.bit(s.g.zero, n - 1);
    }
  }

  /** A table takes the sum of each basis element and its image back to that basis element. */
  ghost predicate Undoes<T(!new)>(s: Space<T>, inverse: seq<T>, cols: seq<T>) {
    && |inverse| == |cols| == s.dim
    && forall i: nat :: i < s.dim ==> Table(s, inverse, s.g.add(cols[i], s.base(i)), s.dim) == s.base(i)
  }

  function Undone<T>(s: Space<T>, f: T -> T, n: nat, inverse: seq<T>, v: T): T
    requires |inverse| == s.dim
  {
    Table(s, inverse, s.g.add(Iter(f, n, v), v), s.dim)
  }

  lemma {:induction false} UndoneAdd<T(!new)>(s: Space<T>, f: T -> T, n: nat, inverse: seq<T>, x: T, y: T)
    requires Linear(s) && Additive(s.g, f) && |inverse| == s.dim
    ensures Undone(s, f, n, inverse, s.g.add(x, y)) == s.g.add(Undone(s, f, n, inverse, x), Undone(s, f, n, inverse, y))
  {
    var a, b := Iter(f, n, x), Iter(f, n, y);
    IterAdditive(s.g, f, n, x, y);
    Exchange(s.g, a, b, x, y);
    TableAdd(s, inverse, s.g.add(a, x), s.g.add(b, y), s.dim);
  }

  lemma {:induction false} UndoneZero<T(!new)>(s: Space<T>, f: T -> T, n: nat, inverse: seq<T>, v: T)
    requires Linear(s) && |inverse| == s.dim && Iter(f, n, v) == v
    ensures Undone(s, f, n, inverse, v) == s.g.zero
  {
    ZeroIs(s.g, v, v);
    TableZero(s, inverse, s.dim);
  }

  lemma {:induction false} UndoneBase<T(!new)>(
    s: Space<T>, f: T -> T, n: nat, cols: seq<T>, inverse: seq<T>, i: nat)
    requires Linear(s) && IsTable(s, f, n, cols) && Undoes(s, inverse, cols) && i < s.dim
    ensures Undone(s, f, n, inverse, s.base(i)) == s.base(i)
  {
    IsTableAt(s, f, n, cols, s.base(i));
    TableBase(s, cols, i, s.dim);
  }

  /** A power of a map with such a table keeps nothing but zero in its place. */
  lemma {:induction false} KeepsOnlyZero<T(!new)>(s: Space<T>, f: T -> T, n: nat, cols: seq<T>, inverse: seq<T>, x: T)
    requires Linear(s) && Additive(s.g, f) && IsTable(s, f, n, cols) && Undoes(s, inverse, cols) && Fixed(f, n, x)
    ensures x == s.g.zero
  {
    var h := v => Undone(s, f, n, inverse, v);
    IterZero(s.g, f, n);
    UndoneZero(s, f, n, inverse, s.g.zero);
    forall y, z ensures h(s.g.add(y, z)) == s.g.add(h(y), h(z)) {
      UndoneAdd(s, f, n, inverse, y, z);
    }
    forall i: nat | i < s.dim ensures Basis(s)[i] == h(s.base(i)) {
      UndoneBase(s, f, n, cols, inverse, i);
    }
    MapIsTable(s, h, Basis(s), x);
    Spanned(s, x);
    UndoneZero(s, f, n, inverse, x);
  }

  function Twofold<T>(s: Space<T>, a: seq<T>, b: seq<T>, v: T): T
    requires |a| == |b| == s.dim
  {
    Table(s, a, Table(s, b, v, s.dim), s.dim)
  }

  lemma {:induction false} TwofoldAdd<T(!new)>(s: Space<T>, a: seq<T>, b: seq<T>, x: T, y: T)
    requires Linear(s) && |a| == |b| == s.dim
    ensures Twofold(s, a, b, s.g.add(x, y)) == s.g.add(Twofold(s, a, b, x), Twofold(s, a, b, y))
  {
    TableAdd(s, b, x, y, s.dim);
    TableAdd(s, a, Table(s, b, x, s.dim), Table(s, b, y, s.dim), s.dim);
  }

  /** The product of two tables is one after the other. */
  lemma {:induction false} TableProduct<T(!new)>(s: Space<T>, a: seq<T>, b: seq<T>, c: seq<T>, v: T)
    requires Linear(s) && IsProduct(s, a, b, c)
    ensures Table(s, a, Table(s, b, v, s.dim), s.dim) == Table(s, c, v, s.dim)
  {
    var h := x => Twofold(s, a, b, x);
    TableZero(s, b, s.dim);
    TableZero(s, a, s.dim);
    forall x, y ensures h(s.g.add(x, y)) == s.g.add(h(x), h(y)) {
      TwofoldAdd(s, a, b, x, y);
    }
    forall i: nat | i < s.dim ensures c[i] == h(s.base(i)) {
      TableBase(s, b, i, s.dim);
    }
    MapIsTable(s, h, c, v);
  }
}
