/**
 One text of the test data that has every character of the alphabet in order: it fixes the alphabet,
 both bases, the order of the digits and the leading zero.
 */
module Base58Vectors {
  import opened Radix
  import opened Base58Strings

  /** The number that the first n digits of a sequence read as. */
  ghost predicate ReadsTo(s: seq<nat>, base: nat, n: nat, v: nat) {
    n <= |s| && Read(s[..n], base) == v
  }

  lemma {:induction false} ReadSnoc(s: seq<nat>, d: nat, base: nat)
    ensures Read(s + [d], base) == d + base * Read(s, base)
  {
    assert Reverse(s + [d]) == [d] + Reverse(s) by {
      ReverseSnoc(s, d);
    }
    assert ([d] + Reverse(s))[1..] == Reverse(s);
  }

  lemma {:induction false} ReverseSnoc(s: seq<nat>, d: nat)
    ensures Reverse(s + [d]) == [d] + Reverse(s)
  {
    if s != [] {
      ReverseSnoc(s[1..], d);
      assert (s + [d])[1..] == s[1..] + [d];
    }
  }

  lemma {:induction false} Next(s: seq<nat>, base: nat, n: nat, v: nat, w: nat)
    requires ReadsTo(s, base, n, v) && n < |s| && w == s[n] + base * v
    ensures ReadsTo(s, base, n + 1, w)
  {
    assert s[..n + 1] == s[..n] + [s[n]];
    ReadSnoc(s[..n], s[n], base);
  }

  lemma {:induction false} Bytes0(s: seq<nat>)
    requires |s| == 42 && ReadsTo(s, 256, 0, 0x0)
    requires s[0] == 1 && s[1] == 17 && s[2] == 211 && s[3] == 142 && s[4] == 95 && s[5] == 201 && s[6] == 7
    ensures ReadsTo(s, 256, 7, 0x111d38e5fc907)
  {
    Next(s, 256, 0, 0x0, 0x1);
    Next(s, 256, 1, 0x1, 0x111);
    Next(s, 256, 2, 0x111, 0x111d3);
    Next(s, 256, 3, 0x111d3, 0x111d38e);
    Next(s, 256, 4, 0x111d38e, 0x111d38e5f);
    Next(s, 256, 5, 0x111d38e5f, 0x111d38e5fc9);
    Next(s, 256, 6, 0x111d38e5fc9, 0x111d38e5fc907);
  }

  lemma {:induction false} Bytes1(s: seq<nat>)
    requires |s| == 42 && ReadsTo(s, 256, 7, 0x111d38e5fc907)
    requires s[7] == 31 && s[8] == 252 && s[9] == 210 && s[10] == 11 && s[11] == 74 && s[12] == 118 && s[13] == 60
    ensures ReadsTo(s, 256, 14, 0x111d38e5fc9071ffcd20b4a763c)
  {
    Next(s, 256, 7, 0x111d38e5fc907, 0x111d38e5fc9071f);
    Next(s, 256, 8, 0x111d38e5fc9071f, 0x111d38e5fc9071ffc);
    Next(s, 256, 9, 0x111d38e5fc9071ffc, 0x111d38e5fc9071ffcd2);
    Next(s, 256, 10, 0x111d38e5fc9071ffcd2, 0x111d38e5fc9071ffcd20b);
    Next(s, 256, 11, 0x111d38e5fc9071ffcd20b, 0x111d38e5fc9071ffcd20b4a);
    Next(s, 256, 12, 0x111d38e5fc9071ffcd20b4a, 0x111d38e5fc9071ffcd20b4a76);
    Next(s, 256, 13, 0x111d38e5fc9071ffcd20b4a76, 0x111d38e5fc9071ffcd20b4a763c);
  }

  lemma {:induction false} Bytes2(s: seq<nat>)
    requires |s| == 42 && ReadsTo(s, 256, 14, 0x111d38e5fc9071ffcd20b4a763c)
    requires s[14] == 201 && s[15] == 174 && s[16] == 79 && s[17] == 37 && s[18] == 43 && s[19] == 180 && s[20] == 228
    ensures ReadsTo(s, 256, 21, 0x111d38e5fc9071ffcd20b4a763cc9ae4f252bb4e4)
  {
    Next(s, 256, 14, 0x111d38e5fc9071ffcd20b4a763c, 0x111d38e5fc9071ffcd20b4a763cc9);
    Next(s, 256, 15, 0x111d38e5fc9071ffcd20b4a763cc9, 0x111d38e5fc9071ffcd20b4a763cc9ae);
    Next(s, 256, 16, 0x111d38e5fc9071ffcd20b4a763cc9ae, 0x111d38e5fc9071ffcd20b4a763cc9ae4f);
    Next(s, 256, 17, 0x111d38e5fc9071ffcd20b4a763cc9ae4f, 0x111d38e5fc9071ffcd20b4a763cc9ae4f25);
    Next(s, 256, 18, 0x111d38e5fc9071ffcd20b4a763cc9ae4f25, 0x111d38e5fc9071ffcd20b4a763cc9ae4f252b);
    Next(s, 256, 19, 0x111d38e5fc9071ffcd20b4a763cc9ae4f252b, 0x111d38e5fc9071ffcd20b4a763cc9ae4f252bb4);
    Next(s, 256, 20, 0x111d38e5fc9071ffcd20b4a763cc9ae4f252bb4, 0x111d38e5fc9071ffcd20b4a763cc9ae4f252bb4e4);
  }

  lemma {:induction false} Bytes3(s: seq<nat>)
    requires |s| == 42 && ReadsTo(s, 256, 21, 0x111d38e5fc9071ffcd20b4a763cc9ae4f252bb4e4)
    requires s[21] == 143 && s[22] == 214 && s[23] == 106 && s[24] == 131 && s[25] == 94 && s[26] == 37 && s[27] == 42
    ensures ReadsTo(s, 256, 28, 0x111d38e5fc9071ffcd20b4a763cc9ae4f252bb4e48fd66a835e252a)
  {
    Next(s, 256, 21, 0x111d38e5fc9071ffcd20b4a763cc9ae4f252bb4e4, 0x111d38e5fc9071ffcd20b4a763cc9ae4f252bb4e48f);
    Next(s, 256, 22, 0x111d38e5fc9071ffcd20b4a763cc9ae4f252bb4e48f, 0x111d38e5fc9071ffcd20b4a763cc9ae4f252bb4e48fd6);
    Next(s, 256, 23, 0x111d38e5fc9071ffcd20b4a763cc9ae4f252bb4e48fd6,
         0x111d38e5fc9071ffcd20b4a763cc9ae4f252bb4e48fd66a);
    Next(s, 256, 24, 0x111d38e5fc9071ffcd20b4a763cc9ae4f252bb4e48fd66a,
         0x111d38e5fc9071ffcd20b4a763cc9ae4f252bb4e48fd66a83);
    Next(s, 256, 25, 0x111d38e5fc9071ffcd20b4a763cc9ae4f252bb4e48fd66a83,
         0x111d38e5fc9071ffcd20b4a763cc9ae4f252bb4e48fd66a835e);
    Next(s, 256, 26, 0x111d38e5fc9071ffcd20b4a763cc9ae4f252bb4e48fd66a835e,
         0x111d38e5fc9071ffcd20b4a763cc9ae4f252bb4e48fd66a835e25);
    Next(s, 256, 27, 0x111d38e5fc9071ffcd20b4a763cc9ae4f252bb4e48fd66a835e25,
         0x111d38e5fc9071ffcd20b4a763cc9ae4f252bb4e48fd66a835e252a);
  }

  lemma {:induction false} Bytes4(s: seq<nat>)
    requires |s| == 42 && ReadsTo(s, 256, 28, 0x111d38e5fc9071ffcd20b4a763cc9ae4f252bb4e48fd66a835e252a)
    requires s[28] == 218 && s[29] == 147 && s[30] == 255 && s[31] == 72 && s[32] == 13 && s[33] == 109
      && s[34] == 212
    ensures ReadsTo(s, 256, 35, 0x111d38e5fc9071ffcd20b4a763cc9ae4f252bb4e48fd66a835e252ada93ff480d6dd4)
  {
    Next(s, 256, 28, 0x111d38e5fc9071ffcd20b4a763cc9ae4f252bb4e48fd66a835e252a,
         0x111d38e5fc9071ffcd20b4a763cc9ae4f252bb4e48fd66a835e252ada);
    Next(s, 256, 29, 0x111d38e5fc9071ffcd20b4a763cc9ae4f252bb4e48fd66a835e252ada,
         0x111d38e5fc9071ffcd20b4a763cc9ae4f252bb4e48fd66a835e252ada93);
    Next(s, 256, 30, 0x111d38e5fc9071ffcd20b4a763cc9ae4f252bb4e48fd66a835e252ada93,
         0x111d38e5fc9071ffcd20b4a763cc9ae4f252bb4e48fd66a835e252ada93ff);
    Next(s, 256, 31, 0x111d38e5fc9071ffcd20b4a763cc9ae4f252bb4e48fd66a835e252ada93ff,
         0x111d38e5fc9071ffcd20b4a763cc9ae4f252bb4e48fd66a835e252ada93ff48);
    Next(s, 256, 32, 0x111d38e5fc9071ffcd20b4a763cc9ae4f252bb4e48fd66a835e252ada93ff48,
         0x111d38e5fc9071ffcd20b4a763cc9ae4f252bb4e48fd66a835e252ada93ff480d);
    Next(s, 256, 33, 0x111d38e5fc9071ffcd20b4a763cc9ae4f252bb4e48fd66a835e252ada93ff480d,
         0x111d38e5fc9071ffcd20b4a763cc9ae4f252bb4e48fd66a835e252ada93ff480d6d);
    Next(s, 256, 34, 0x111d38e5fc9071ffcd20b4a763cc9ae4f252bb4e48fd66a835e252ada93ff480d6d,
         0x111d38e5fc9071ffcd20b4a763cc9ae4f252bb4e48fd66a835e252ada93ff480d6dd4);
  }

  lemma {:induction false} Bytes5(s: seq<nat>)
    requires |s| == 42 && ReadsTo(s, 256, 35, 0x111d38e5fc9071ffcd20b4a763cc9ae4f252bb4e48fd66a835e252ada93ff480d6dd4)
    requires s[35] == 61 && s[36] == 198 && s[37] == 42 && s[38] == 100 && s[39] == 17 && s[40] == 85 && s[41] == 165
    ensures ReadsTo(s, 256, 42, 0x111d38e5fc9071ffcd20b4a763cc9ae4f252bb4e48fd66a835e252ada93ff480d6dd43dc62a641155a5)
  {
    Next(s, 256, 35, 0x111d38e5fc9071ffcd20b4a763cc9ae4f252bb4e48fd66a835e252ada93ff480d6dd4,
         0x111d38e5fc9071ffcd20b4a763cc9ae4f252bb4e48fd66a835e252ada93ff480d6dd43d);
    Next(s, 256, 36, 0x111d38e5fc9071ffcd20b4a763cc9ae4f252bb4e48fd66a835e252ada93ff480d6dd43d,
         0x111d38e5fc9071ffcd20b4a763cc9ae4f252bb4e48fd66a835e252ada93ff480d6dd43dc6);
    Next(s, 256, 37, 0x111d38e5fc9071ffcd20b4a763cc9ae4f252bb4e48fd66a835e252ada93ff480d6dd43dc6,
         0x111d38e5fc9071ffcd20b4a763cc9ae4f252bb4e48fd66a835e252ada93ff480d6dd43dc62a);
    Next(s, 256, 38, 0x111d38e5fc9071ffcd20b4a763cc9ae4f252bb4e48fd66a835e252ada93ff480d6dd43dc62a,
         0x111d38e5fc9071ffcd20b4a763cc9ae4f252bb4e48fd66a835e252ada93ff480d6dd43dc62a64);
    Next(s, 256, 39, 0x111d38e5fc9071ffcd20b4a763cc9ae4f252bb4e48fd66a835e252ada93ff480d6dd43dc62a64,
         0x111d38e5fc9071ffcd20b4a763cc9ae4f252bb4e48fd66a835e252ada93ff480d6dd43dc62a6411);
    Next(s, 256, 40, 0x111d38e5fc9071ffcd20b4a763cc9ae4f252bb4e48fd66a835e252ada93ff480d6dd43dc62a6411,
         0x111d38e5fc9071ffcd20b4a763cc9ae4f252bb4e48fd66a835e252ada93ff480d6dd43dc62a641155);
    Next(s, 256, 41, 0x111d38e5fc9071ffcd20b4a763cc9ae4f252bb4e48fd66a835e252ada93ff480d6dd43dc62a641155,
         0x111d38e5fc9071ffcd20b4a763cc9ae4f252bb4e48fd66a835e252ada93ff480d6dd43dc62a641155a5);
  }

  lemma {:induction false} Places0(s: seq<nat>)
    requires |s| == 57 && ReadsTo(s, 58, 0, 0x0)
    requires s[0] == 1 && s[1] == 2 && s[2] == 3 && s[3] == 4 && s[4] == 5 && s[5] == 6 && s[6] == 7
    ensures ReadsTo(s, 58, 7, 0x92d62c467)
  {
    Next(s, 58, 0, 0x0, 0x1);
    Next(s, 58, 1, 0x1, 0x3c);
    Next(s, 58, 2, 0x3c, 0xd9b);
    Next(s, 58, 3, 0xd9b, 0x31522);
    Next(s, 58, 4, 0x31522, 0xb2c9b9);
    Next(s, 58, 5, 0xb2c9b9, 0x2881b3f0);
    Next(s, 58, 6, 0x2881b3f0, 0x92d62c467);
  }

  lemma {:induction false} Places1(s: seq<nat>)
    requires |s| == 57 && ReadsTo(s, 58, 7, 0x92d62c467)
    requires s[7] == 8 && s[8] == 9 && s[9] == 10 && s[10] == 11 && s[11] == 12 && s[12] == 13 && s[13] == 14
    ensures ReadsTo(s, 58, 14, 0x126deb3be77eec9cd128)
  {
    Next(s, 58, 7, 0x92d62c467, 0x21448607f5e);
    Next(s, 58, 8, 0x21448607f5e, 0x789865dcdb55);
    Next(s, 58, 9, 0x789865dcdb55, 0x1b52871409b14c);
    Next(s, 58, 10, 0x1b52871409b14c, 0x630b29a8a322b43);
    Next(s, 58, 11, 0x630b29a8a322b43, 0x1670877034f5dcd3a);
    Next(s, 58, 12, 0x1670877034f5dcd3a, 0x5157eaf6bffb407f31);
    Next(s, 58, 13, 0x5157eaf6bffb407f31, 0x126deb3be77eec9cd128);
  }

  lemma {:induction false} Places2(s: seq<nat>)
    requires |s| == 57 && ReadsTo(s, 58, 14, 0x126deb3be77eec9cd128)
    requires s[14] == 15 && s[15] == 16 && s[16] == 17 && s[17] == 18 && s[18] == 19 && s[19] == 20 && s[20] == 21
    ensures ReadsTo(s, 58, 21, 0x250249d0c9e274b2c1568e335ecee9)
  {
    Next(s, 58, 14, 0x126deb3be77eec9cd128, 0x42ce74b9272c19b87631f);
    Next(s, 58, 15, 0x42ce74b9272c19b87631f, 0xf22c671f2dffdd3cac7516);
    Next(s, 58, 16, 0xf22c671f2dffdd3cac7516, 0x36de0f5d106bf81fbf12870d);
    Next(s, 58, 17, 0x36de0f5d106bf81fbf12870d, 0xc6e4f7b15b87637314a329904);
    Next(s, 58, 18, 0xc6e4f7b15b87637314a329904, 0x2d0fe01e2ebcac8812acf76aafb);
    Next(s, 58, 19, 0x2d0fe01e2ebcac8812acf76aafb, 0xa3598c6d696bf16d43b300e2bcf2);
    Next(s, 58, 20, 0xa3598c6d696bf16d43b300e2bcf2, 0x250249d0c9e274b2c1568e335ecee9);
  }

  lemma {:induction false} Places3(s: seq<nat>)
    requires |s| == 57 && ReadsTo(s, 58, 21, 0x250249d0c9e274b2c1568e335ecee9)
    requires s[21] == 22 && s[22] == 23 && s[23] == 24 && s[24] == 25 && s[25] == 26 && s[26] == 27 && s[27] == 28
    ensures ReadsTo(s, 58, 28, 0x4a51ca8c7363076829a2ad269878e9f5e0234caa)
  {
    Next(s, 58, 21, 0x250249d0c9e274b2c1568e335ecee9, 0x86284b94dbd4e707fcd9c37a37ae0e0);
    Next(s, 58, 22, 0x86284b94dbd4e707fcd9c37a37ae0e0, 0x1e65211fb9ce3c57cf495649b09d6f2d7);
    Next(s, 58, 23, 0x1e65211fb9ce3c57cf495649b09d6f2d7, 0x6e2e9813018b9abe4f69d8cb203ab304ce);
    Next(s, 58, 24, 0x6e2e9813018b9abe4f69d8cb203ab304ce, 0x18f68e744e59a10f1dfdfb1e054d4c8f16c5);
    Next(s, 58, 25, 0x18f68e744e59a10f1dfdfb1e054d4c8f16c5, 0x5a7dc4659c04e7d6ccb8ae4cd3383586b28bc);
    Next(s, 58, 26, 0x5a7dc4659c04e7d6ccb8ae4cd3383586b28bc, 0x14807e7f05591c86aa61d77d67dabc208473ab3);
    Next(s, 58, 27, 0x14807e7f05591c86aa61d77d67dabc208473ab3, 0x4a51ca8c7363076829a2ad269878e9f5e0234caa);
  }

  lemma {:induction false} Places4(s: seq<nat>)
    requires |s| == 57 && ReadsTo(s, 58, 28, 0x4a51ca8c7363076829a2ad269878e9f5e0234caa)
    requires s[28] == 29 && s[29] == 30 && s[30] == 31 && s[31] == 32 && s[32] == 33 && s[33] == 34 && s[34] == 35
    ensures ReadsTo(s, 58, 35, 0x953ea407d95f828b74d0070fe53c6b058d46d9bc943727ca6b)
  {
    Next(s, 58, 28, 0x4a51ca8c7363076829a2ad269878e9f5e0234caa, 0x10d687e3d2246fad996edb3abe8b6501b4c7ff5ea1);
    Next(s, 58, 29, 0x10d687e3d2246fad996edb3abe8b6501b4c7ff5ea1, 0x3d09ac99d9c414d54c31dab4f2b94e262f54fdb7098);
    Next(s, 58, 30, 0x3d09ac99d9c414d54c31dab4f2b94e262f54fdb7098, 0xdd4311adb566cb853434b8cfefdfbb4a6b9417b7828f);
    Next(s, 58, 31, 0xdd4311adb566cb853434b8cfefdfbb4a6b9417b7828f, 0x322132015b194a1c2dd3f1df1c58b06edc5f8d5f939486);
    Next(s, 58, 32, 0x322132015b194a1c2dd3f1df1c58b06edc5f8d5f939486,
         0xb5b85544ea3baca626204cc8c6c17f91deda607a76fa67d);
    Next(s, 58, 33, 0xb5b85544ea3baca626204cc8c6c17f91deda607a76fa67d,
         0x292bc3519d11851da4a351657d07d6e70c7d79dbbef4bb874);
    Next(s, 58, 34, 0x292bc3519d11851da4a351657d07d6e70c7d79dbbef4bb874,
         0x953ea407d95f828b74d0070fe53c6b058d46d9bc943727ca6b);
  }

  lemma {:induction false} Places5(s: seq<nat>)
    requires |s| == 57 && ReadsTo(s, 58, 35, 0x953ea407d95f828b74d0070fe53c6b058d46d9bc943727ca6b)
    requires s[35] == 36 && s[36] == 37 && s[37] == 38 && s[38] == 39 && s[39] == 40 && s[40] == 41 && s[41] == 42
    ensures ReadsTo(s, 58, 42, 0x12bb4a9701b478d51f0e96ab692f3733b209447e9af4c1ef096962e2c482c)
  {
    Next(s, 58, 35, 0x953ea407d95f828b74d0070fe53c6b058d46d9bc943727ca6b,
         0x21d03129c73fa3939877219999efb03f42020d54b9947f03dc62);
    Next(s, 58, 36, 0x21d03129c73fa3939877219999efb03f42020d54b9947f03dc62,
         0x7a92b2377246b0f708afd9ccce04dee54f47705320ba4c6dfee59);
    Next(s, 58, 37, 0x7a92b2377246b0f708afd9ccce04dee54f47705320ba4c6dfee59,
         0x1bc53c608fe40417f7f7d75866ad1a7ff3f62f72d56a3550ebc0050);
    Next(s, 58, 38, 0x1bc53c608fe40417f7f7d75866ad1a7ff3f62f72d56a3550ebc0050,
         0x64aafade099a8ed6e2e26ca07433800fd45c6c0045a1014556981247);
    Next(s, 58, 39, 0x64aafade099a8ed6e2e26ca07433800fd45c6c0045a1014556981247,
         0x16cebcd64e2d045caf674c9c5a53ab03961cf0780fc67a49b59e74243e);
    Next(s, 58, 40, 0x16cebcd64e2d045caf674c9c5a53ab03961cf0780fc67a49b59e74243e,
         0x52ad6c88db632fcffbd675b6c76f4bed0028e7b3392f7b4b325e6503635);
    Next(s, 58, 41, 0x52ad6c88db632fcffbd675b6c76f4bed0028e7b3392f7b4b325e6503635,
         0x12bb4a9701b478d51f0e96ab692f3733b209447e9af4c1ef096962e2c482c);
  }

  lemma {:induction false} Places6(s: seq<nat>)
    requires |s| == 57 && ReadsTo(s, 58, 42, 0x12bb4a9701b478d51f0e96ab692f3733b209447e9af4c1ef096962e2c482c)
    requires s[42] == 43 && s[43] == 44 && s[44] == 45 && s[45] == 46 && s[46] == 47 && s[47] == 48 && s[48] == 49
    ensures ReadsTo(s, 58, 49, 0x259da9f4904c31e0aa95bf1be39def8f41e3d3b92caab5af94a9b655198caa82530c5ed)
  {
    Next(s, 58, 42, 0x12bb4a9701b478d51f0e96ab692f3733b209447e9af4c1ef096962e2c482c,
         0x43e6ee63662e36049094e22d5d4b281b6561984af1b73f02821e0676085a23);
    Next(s, 58, 43, 0x43e6ee63662e36049094e22d5d4b281b6561984af1b73f02821e0676085a23,
         0xf6252028526783d08c1bb3e4723071634f81c80fac38446917acd76bde46c1a);
    Next(s, 58, 44, 0xf6252028526783d08c1bb3e4723071634f81c80fac38446917acd76bde46c1a,
         0x37c4694922ab73dd3fbe46c1c1def9b0800367538d04bf7fcf5d28ce705c07e11);
    Next(s, 58, 45, 0x37c4694922ab73dd3fbe46c1c1def9b0800367538d04bf7fcf5d28ce705c07e11,
         0xca27fda91dad84020711c07e5ec8491fd00c568edf31362f4fb1b3ec574d9c9008);
    Next(s, 58, 46, 0xca27fda91dad84020711c07e5ec8491fd00c568edf31362f4fb1b3ec574d9c9008,
         0x2dcd0f7850b94fe8759a059ca17960913522cb9c5e912646b80e42c38bc79578a1ff);
    Next(s, 58, 47, 0x2dcd0f7850b94fe8759a059ca17960913522cb9c5e912646b80e42c38bc79578a1ff,
         0xa6075814249fc1aaaa4e5457c957fe0e609e2216d6ce2ac05b33b204dab37dd54b3f6);
    Next(s, 58, 48, 0xa6075814249fc1aaaa4e5457c957fe0e609e2216d6ce2ac05b33b204dab37dd54b3f6,
         0x259da9f4904c31e0aa95bf1be39def8f41e3d3b92caab5af94a9b655198caa82530c5ed);
  }

  lemma {:induction false} Places7(s: seq<nat>)
    requires |s| == 57
      && ReadsTo(s, 58, 49, 0x259da9f4904c31e0aa95bf1be39def8f41e3d3b92caab5af94a9b655198caa82530c5ed)
    requires s[49] == 50 && s[50] == 51 && s[51] == 52 && s[52] == 53 && s[53] == 54 && s[54] == 55 && s[55] == 56
    ensures ReadsTo(s, 58, 56, 0x4b89cefff0d5d3dbd0031d5e690b7f88977ed0cc4afd5b2d1124bc5f9b95dee938c7ca6ba1c3543ae)
  {
    Next(s, 58, 49, 0x259da9f4904c31e0aa95bf1be39def8f41e3d3b92caab5af94a9b655198caa82530c5ed,
         0x885b88168b1434ce6a5ed4c5191c84674ed9df7f41ead29c7ae734f47c9dea186d0cd7e4);
    Next(s, 58, 50, 0x885b88168b1434ce6a5ed4c5191c84674ed9df7f41ead29c7ae734f47c9dea186d0cd7e4,
         0x1ee4bcd51b8293f6c4197c34a7b075ff67dd5ca2d4ef33b773d861ff643bc70988b4e8e9db);
    Next(s, 58, 51, 0x1ee4bcd51b8293f6c4197c34a7b075ff67dd5ca2d4ef33b773d861ff643bc70988b4e8e9db,
         0x6ffd2c8483b9585e86dc623edfdfabbdd8826fce43e31b7903f0633dcb58b1828f8fcc4fbd2);
    Next(s, 58, 52, 0x6ffd2c8483b9585e86dc623edfdfabbdd8826fce43e31b7903f0633dcb58b1828f8fcc4fbd2,
         0x195f5c1605d7fe056a8dee423eb8ace9030d8d54bb6174396ae4767c001218379486944a10dc9);
    Next(s, 58, 53, 0x195f5c1605d7fe056a8dee423eb8ace9030d8d54bb6174396ae4767c001218379486944a10dc9,
         0x5bf9adcfd52ef8d3a2427fb0235d72ccab11205327414550237c2d81804197c97a67d98c7d1fc0);
    Next(s, 58, 54, 0x5bf9adcfd52ef8d3a2427fb0235d72ccab11205327414550237c2d81804197c97a67d98c7d1fc0,
         0x14d69161164ca45ff2c310ede8032c025ec1e152d6e4c9b4280a224f570edc63a5bb8749d45931b7);
    Next(s, 58, 55, 0x14d69161164ca45ff2c310ede8032c025ec1e152d6e4c9b4280a224f570edc63a5bb8749d45931b7,
         0x4b89cefff0d5d3dbd0031d5e690b7f88977ed0cc4afd5b2d1124bc5f9b95dee938c7ca6ba1c3543ae);
  }

  lemma {:induction false} Places8(s: seq<nat>)
    requires |s| == 57
      && ReadsTo(s, 58, 56, 0x4b89cefff0d5d3dbd0031d5e690b7f88977ed0cc4afd5b2d1124bc5f9b95dee938c7ca6ba1c3543ae)
    requires s[56] == 57
    ensures ReadsTo(s, 58, 57, 0x111d38e5fc9071ffcd20b4a763cc9ae4f252bb4e48fd66a835e252ada93ff480d6dd43dc62a641155a5)
  {
    Next(s, 58, 56, 0x4b89cefff0d5d3dbd0031d5e690b7f88977ed0cc4afd5b2d1124bc5f9b95dee938c7ca6ba1c3543ae,
         0x111d38e5fc9071ffcd20b4a763cc9ae4f252bb4e48fd66a835e252ada93ff480d6dd43dc62a641155a5);
  }

  function TestBytes(): seq<Byte> {
    [1, 17, 211, 142, 95, 201, 7, 31, 252, 210, 11, 74, 118, 60]
    + [201, 174, 79, 37, 43, 180, 228, 143, 214, 106, 131, 94, 37, 42]
    + [218, 147, 255, 72, 13, 109, 212, 61, 198, 42, 100, 17, 85, 165]
  }

  lemma {:induction false} TestByte()
    ensures |TestBytes()| == 42
    ensures TestBytes()[0] == 1 && TestBytes()[1] == 17 && TestBytes()[2] == 211 && TestBytes()[3] == 142
      && TestBytes()[4] == 95 && TestBytes()[5] == 201 && TestBytes()[6] == 7
    ensures TestBytes()[7] == 31 && TestBytes()[8] == 252 && TestBytes()[9] == 210 && TestBytes()[10] == 11
      && TestBytes()[11] == 74 && TestBytes()[12] == 118 && TestBytes()[13] == 60
    ensures TestBytes()[14] == 201 && TestBytes()[15] == 174 && TestBytes()[16] == 79
      && TestBytes()[17] == 37 && TestBytes()[18] == 43 && TestBytes()[19] == 180 && TestBytes()[20] == 228
    ensures TestBytes()[21] == 143 && TestBytes()[22] == 214 && TestBytes()[23] == 106
      && TestBytes()[24] == 131 && TestBytes()[25] == 94 && TestBytes()[26] == 37 && TestBytes()[27] == 42
    ensures TestBytes()[28] == 218 && TestBytes()[29] == 147 && TestBytes()[30] == 255
      && TestBytes()[31] == 72 && TestBytes()[32] == 13 && TestBytes()[33] == 109 && TestBytes()[34] == 212
    ensures TestBytes()[35] == 61 && TestBytes()[36] == 198 && TestBytes()[37] == 42
      && TestBytes()[38] == 100 && TestBytes()[39] == 17 && TestBytes()[40] == 85 && TestBytes()[41] == 165
  {
  }

  lemma {:induction false} FirstBytes(s: seq<nat>)
    requires |s| == 42 && s == TestBytes()
    ensures ReadsTo(s, 256, 21, 0x111d38e5fc9071ffcd20b4a763cc9ae4f252bb4e4)
  {
    TestByte();
    assert s[..0] == [];
    Bytes0(s);
    Bytes1(s);
    Bytes2(s);
  }

  lemma {:induction false} BytesRead(s: seq<nat>)
    requires |s| == 42 && s == TestBytes()
    ensures Read(s, 256) == 0x111d38e5fc9071ffcd20b4a763cc9ae4f252bb4e48fd66a835e252ada93ff480d6dd43dc62a641155a5
  {
    TestByte();
    FirstBytes(s);
    Bytes3(s);
    Bytes4(s);
    Bytes5(s);
    assert s[..42] == s;
  }

  lemma {:induction false} PlacesRead(s: seq<nat>)
    requires |s| == 57 && forall k :: 0 <= k < 57 ==> s[k] == k + 1
    ensures Read(s, 58) == 0x111d38e5fc9071ffcd20b4a763cc9ae4f252bb4e48fd66a835e252ada93ff480d6dd43dc62a641155a5
  {
    assert s[..0] == [] && s[..57] == s;
    Places0(s);
    Places1(s);
    Places2(s);
    Places3(s);
    Places4(s);
    Places5(s);
    Places6(s);
    Places7(s);
    Places8(s);
  }

  function AllButZero(): seq<nat> {
    seq(57, k requires 0 <= k < 57 => k + 1)
  }

  lemma {:induction false} AllChars(d: seq<nat>)
    requires d == AllButZero()
    ensures AreDigits(d, 58) && Copies(1, '1') + Chars(d) == ALPHABET
  {
    AlphabetCode(0);
    assert ALPHABET[0] == DIGITS[0] == '1';
  }

  /** Bytes after a zero that read as the same number as some digits. */
  lemma {:induction false} EncodedBy(rest: seq<Byte>, d: seq<nat>)
    requires rest != [] && rest[0] != 0 && Plain(d, 58) && Read(rest, 256) == Read(d, 58)
    ensures Encode([0] + rest) == Copies(1, '1') + Chars(d)
  {
    assert Copies(1, 0) + rest == [0] + rest;
    EncodePlain(1, rest, [0] + rest);
    WriteRead(d, 58);
  }

  /** A zero byte and these 42 bytes are encoded by the whole alphabet, and decoded from it. */
  lemma {:induction false} AlphabetVector(rest: seq<Byte>, maxLength: nat)
    requires rest == TestBytes() && maxLength >= 43
    ensures Encode([0] + rest) == ALPHABET && Decode(ALPHABET, maxLength) == Decoded([0] + rest)
  {
    var d := AllButZero();
    TestByte();
    BytesRead(rest);
    PlacesRead(d);
    EncodedBy(rest, d);
    AllChars(d);
    DecodeEncoded([0] + rest, maxLength);
  }
}
