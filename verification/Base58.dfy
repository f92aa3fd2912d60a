/**
 Base58 strings: bytes as a number in base 58, with a '1' for every leading zero byte. Encoding
 and decoding are inverse to each other, and the buffers the node allocates are large enough.
 */
module Base58 {
  import opened Numbers
  import opened Radix

  // ---------------------------------------------------------------- room in the buffers

  /** The room that EncodeBase58 makes for n bytes, and DecodeBase58 for n characters. */
  function Room58(n: nat): nat {
    n * 138 / 100 + 1
  }

  function Room256(n: nat): nat {
    n * 733 / 1000 + 1
  }

  lemma {:induction false} PowerSum(base: nat, i: nat, j: nat)
    requires base >= 2
    ensures Power(base, i + j) == Power(base, i) * Power(base, j)
  {
    if i > 0 {
      PowerSum(base, i - 1, j);
      MulAssociates(base, Power(base, i - 1), Power(base, j));
    }
  }

  lemma {:induction false} PowerMono(base: nat, i: nat, j: nat)
    requires base >= 2 && i <= j
    ensures Power(base, i) <= Power(base, j)
  {
    if i < j {
      PowerMono(base, i, j - 1);
    }
  }

  lemma {:induction false} Products(a: nat, b: nat, c: nat, d: nat)
    requires a <= b && c <= d
    ensures a * c <= b * d
  {
    assert a * c <= b * c;
    assert b * c <= b * d;
  }

  /** If a block of some digits fits, so does any number of blocks. */
  lemma {:induction false} Blocks(x: nat, i: nat, y: nat, j: nat, k: nat)
    requires x >= 2 && y >= 2 && Power(x, i) <= Power(y, j)
    ensures Power(x, i * k) <= Power(y, j * k)
    decreases k
  {
    if k > 0 {
      Blocks(x, i, y, j, k - 1);
      assert i * k == i + i * (k - 1) && j * k == j + j * (k - 1);
      PowerSum(x, i, i * (k - 1));
      PowerSum(y, j, j * (k - 1));
      Products(Power(x, i), Power(y, j), Power(x, i * (k - 1)), Power(y, j * (k - 1)));
    }
  }

  /** One power after another; the exponent is not a literal, so that it is not expanded. */
  lemma {:induction false} Next(base: nat, k: nat, a: nat, b: nat)
    requires base >= 2 && Power(base, k) == a && b == base * a
    ensures Power(base, k + 1) == b
  {
  }

  lemma {:induction false} Joined(base: nat, i: nat, j: nat, a: nat, b: nat)
    requires base >= 2 && Power(base, i) == a && Power(base, j) == b
    ensures Power(base, i + j) == a * b
  {
    PowerSum(base, i, j);
  }

  /** 58 to a small power. */
  function Small58(k: nat): nat
    requires k <= 15
  {
    if k == 0 then 1
    else if k == 1 then 58
    else if k == 2 then 3364
    else if k == 3 then 195112
    else if k == 4 then 11316496
    else if k == 5 then 656356768
    else if k == 6 then 38068692544
    else if k == 7 then 2207984167552
    else if k == 8 then 128063081718016
    else if k == 9 then 7427658739644928
    else if k == 10 then 430804206899405824
    else if k == 11 then 24986644000165537792
    else if k == 12 then 1449225352009601191936
    else if k == 13 then 84055070416556869132288
    else if k == 14 then 4875194084160298409672704
    else 282761256881297307761016832
  }

  lemma {:induction false} Small58Is(k: nat)
    requires k <= 15
    ensures Power(58, k) == Small58(k)
  {
    if k > 0 {
      Small58Is(k - 1);
      Next(58, k - 1, Small58(k - 1), Small58(k));
    }
  }

  /** 256 to a small power. */
  function Small256(k: nat): nat
    requires k <= 13
  {
    if k == 0 then 1
    else if k == 1 then 256
    else if k == 2 then 65536
    else if k == 3 then 16777216
    else if k == 4 then 4294967296
    else if k == 5 then 1099511627776
    else if k == 6 then 281474976710656
    else if k == 7 then 72057594037927936
    else if k == 8 then 18446744073709551616
    else if k == 9 then 4722366482869645213696
    else if k == 10 then 1208925819614629174706176
    else if k == 11 then 309485009821345068724781056
    else if k == 12 then 79228162514264337593543950336
    else 20282409603651670423947251286016
  }

  lemma {:induction false} Small256Is(k: nat)
    requires k <= 13
    ensures Power(256, k) == Small256(k)
  {
    if k > 0 {
      Small256Is(k - 1);
      Next(256, k - 1, Small256(k - 1), Small256(k));
    }
  }

  lemma {:induction false} Block256(i: nat, j: nat)
    requires i == 8 && j == 11
    ensures Power(256, i) <= Power(58, j)
  {
    Small256Is(i);
    Small58Is(j);
  }

  lemma {:induction false} ShortBlock58(i: nat, j: nat)
    requires i == 15 && j == 11
    ensures Power(58, i) <= Power(256, j)
  {
    Small58Is(i);
    Small256Is(j);
    assert Small58(i) == 282761256881297307761016832 && Small256(j) == 309485009821345068724781056;
  }

  lemma {:induction false} Twice(base: nat, i: nat, j: nat, a: nat, b: nat)
    requires base >= 2 && Power(base, i) == a && j == 2 * i && b == a * a
    ensures Power(base, j) == b
  {
    Joined(base, i, i, a, a);
  }

  /** 71 characters fit in 52 bytes. */
  lemma {:induction false} LongBlock58(i: nat, j: nat, i15: nat, i30: nat, i60: nat, i11: nat, j13: nat, j26: nat)
    requires i15 == 15 && i30 == 30 && i60 == 60 && i11 == 11 && i == 71 && j13 == 13 && j26 == 26 && j == 52
    ensures Power(58, i) <= Power(256, j)
  {
    Small58Is(i15);
    Twice(58, i15, i30, 282761256881297307761016832, 79953928393091004080532279173738402825689466587316224);
    Twice(58, i30, i60, 79953928393091004080532279173738402825689466587316224,
          6392630665487523829925705590507004456832030712891733088851577912861189652777515686114891080333114973618176);
    Small58Is(i11);
    Joined(58, i60, i11,
           6392630665487523829925705590507004456832030712891733088851577912861189652777515686114891080333114973618176,
           24986644000165537792);
    Small256Is(j13);
    Twice(256, j13, j26, 20282409603651670423947251286016,
          411376139330301510538742295639337626245683966408394965837152256);
    Twice(256, j26, j, 411376139330301510538742295639337626245683966408394965837152256,
          0x100000000000000000000000000000000000000000000000000000000000000000000000000000000000000000000000000000000);
  }

  lemma {:induction false} Rest256(r: nat)
    requires r < 8
    ensures Power(256, r) <= Power(58, Room58(r))
  {
    Small256Is(r);
    Small58Is(Room58(r));
  }

  lemma {:induction false} Rest58(r: nat)
    requires r < 15
    ensures Power(58, r) <= Power(256, Room256(r))
  {
    Small58Is(r);
    Small256Is(Room256(r));
    Table58(r);
  }

  lemma {:induction false} Table58(r: nat)
    requires r < 15
    ensures Room256(r) <= 13 && Small58(r) <= Small256(Room256(r))
  {
  }

  /** What is left over in the room of a short rest is more than four blocks of fifteen need. */
  lemma {:induction false} RestLeaves(r: nat)
    requires 0 < r < 15
    ensures r * 733 % 1000 >= 20
  {
  }

  lemma {:induction false} RoomAdds(q: nat, r: nat, n: nat)
    requires q <= 4 && 0 < r < 15 && n == 15 * q + r
    ensures 11 * q + Room256(r) <= Room256(n)
  {
    RestLeaves(r);
    var a, b := r * 733 / 1000, r * 733 % 1000;
    assert n * 733 == 1000 * (11 * q + a) + (b - 5 * q);
  }

  /** Blocks of i that fit in j, and a rest that fits in k. */
  lemma {:induction false} Together(x: nat, y: nat, i: nat, j: nat, q: nat, r: nat, k: nat, n: nat, room: nat)
    requires x >= 2 && y >= 2 && Power(x, i) <= Power(y, j) && Power(x, r) <= Power(y, k)
    requires n == i * q + r && j * q + k <= room
    ensures Power(x, n) <= Power(y, room)
  {
    Blocks(x, i, y, j, q);
    PowerSum(x, i * q, r);
    PowerSum(y, j * q, k);
    Products(Power(x, i * q), Power(y, j * q), Power(x, r), Power(y, k));
    PowerMono(y, j * q + k, room);
  }

  lemma {:induction false} Fits58With(n: nat, i: nat, j: nat)
    requires i == 8 && j == 11
    ensures Power(256, n) <= Power(58, Room58(n))
  {
    var q, r := n / 8, n % 8;
    Block256(i, j);
    Rest256(r);
    Together(256, 58, i, j, q, r, Room58(r), n, Room58(n));
  }

  /** n bytes fit in the room made for them, for every n. */
  lemma {:induction false} Fits58(n: nat)
    ensures Power(256, n) <= Power(58, Room58(n))
  {
    Fits58With(n, 8, 11);
  }

  /** Fewer than 71 characters. */
  lemma {:induction false} FitsBlock(n: nat, i: nat, j: nat, zero: nat)
    requires n < 71 && i == 15 && j == 11 && zero == 0
    ensures Power(58, n) <= Power(256, Room256(n))
  {
    var q, r := n / 15, n % 15;
    ShortBlock58(i, j);
    if r == 0 {
      Together(58, 256, i, j, q, zero, zero, n, Room256(n));
    } else {
      Rest58(r);
      RoomAdds(q, r, n);
      Together(58, 256, i, j, q, r, Room256(r), n, Room256(n));
    }
  }

  lemma {:induction false} Fits256With(n: nat, i: nat, j: nat)
    requires i == 71 && j == 52
    ensures Power(58, n) <= Power(256, Room256(n))
  {
    var q, r := n / 71, n % 71;
    LongBlock58(i, j, 15, 30, 60, 11, 13, 26);
    FitsBlock(r, 15, 11, 0);
    Together(58, 256, i, j, q, r, Room256(r), n, Room256(n));
  }

  /** n characters fit in the room made for them, for every n. */
  lemma {:induction false} Fits256(n: nat)
    ensures Power(58, n) <= Power(256, Room256(n))
  {
    Fits256With(n, 71, 52);
  }
}
