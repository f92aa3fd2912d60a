/**
 The string that BIP 173 lists for the part "abcdef" with all 32 symbols in order. It fixes the
 alphabet, the expanded form of a part of several characters and the order of everything that a
 checksum depends on.
 */
module Bech32Vectors {
  import opened Bech32Checksum
  import opened Bech32Words
  import opened Bech32
  import opened Bech32Strings
  import opened Bech32Codec

  function AllSymbols(): seq<Value> {
    seq(32, i requires 0 <= i < 32 => i)
  }

  function SixSymbols(): seq<Value> {
    [27, 0, 0, 0, 6, 14]
  }

  /** The expanded form of the part. */
  predicate Abcdef(x: seq<Value>) {
    && |x| == 13
    && x[0] == 3 && x[1] == 3 && x[2] == 3 && x[3] == 3 && x[4] == 3 && x[5] == 3 && x[6] == 0
    && x[7] == 1 && x[8] == 2 && x[9] == 3 && x[10] == 4 && x[11] == 5 && x[12] == 6
  }

  lemma {:induction false} ExpandedAbcdef()
    ensures Bytes("abcdef") && Abcdef(ExpandHRP("abcdef"))
  {
  }

  /** The values of the whole string. */
  ghost predicate Whole(v: seq<Value>) {
    && |v| == 51 && Abcdef(v[..13])
    && (forall k :: 13 <= k < 45 ==> v[k] == k - 13)
    && v[45..] == SixSymbols()
  }

  // ---------------------------------------------------------------- the 51 steps

  lemma {:induction false} Steps0()
    ensures StepWord(0x1, 3) == 0x23 && StepWord(0x23, 3) == 0x463
    ensures StepWord(0x463, 3) == 0x8c63 && StepWord(0x8c63, 3) == 0x118c63
  {
  }

  lemma {:induction false} Part0(v: seq<Value>)
    requires |v| == 51 && Computed(v, 0, 0x1)
    requires v[0] == 3 && v[1] == 3 && v[2] == 3 && v[3] == 3
    ensures Computed(v, 4, 0x118c63)
  {
    Steps0();
    ComputedNext(v, 0, 0x1, 0x23);
    ComputedNext(v, 1, 0x23, 0x463);
    ComputedNext(v, 2, 0x463, 0x8c63);
    ComputedNext(v, 3, 0x8c63, 0x118c63);
  }

  lemma {:induction false} Steps1()
    ensures StepWord(0x118c63, 3) == 0x2318c63 && StepWord(0x2318c63, 3) == 0x3d5bdbd1
    ensures StepWord(0x3d5bdbd1, 0) == 0x4dcbcd9 && StepWord(0x4dcbcd9, 1) == 0x3dc7154c
  {
  }

  lemma {:induction false} Part1(v: seq<Value>)
    requires |v| == 51 && Computed(v, 4, 0x118c63)
    requires v[4] == 3 && v[5] == 3 && v[6] == 0 && v[7] == 1
    ensures Computed(v, 8, 0x3dc7154c)
  {
    Steps1();
    ComputedNext(v, 4, 0x118c63, 0x2318c63);
    ComputedNext(v, 5, 0x2318c63, 0x3d5bdbd1);
    ComputedNext(v, 6, 0x3d5bdbd1, 0x4dcbcd9);
    ComputedNext(v, 7, 0x4dcbcd9, 0x3dc7154c);
  }

  lemma {:induction false} Steps2()
    ensures StepWord(0x3dc7154c, 2) == 0x17456f7b && StepWord(0x17456f7b, 3) == 0x8d50561
  {
  }

  lemma {:induction false} Part2(v: seq<Value>)
    requires |v| == 51 && Computed(v, 8, 0x3dc7154c)
    requires v[8] == 2 && v[9] == 3
    ensures Computed(v, 10, 0x8d50561)
  {
    Steps2();
    ComputedNext(v, 8, 0x3dc7154c, 0x17456f7b);
    ComputedNext(v, 9, 0x17456f7b, 0x8d50561);
  }

  lemma {:induction false} Steps3()
    ensures StepWord(0x8d50561, 4) == 0x401b5de && StepWord(0x401b5de, 5) == 0x266635a8
    ensures StepWord(0x266635a8, 6) == 0x3be80e6a
  {
  }

  lemma {:induction false} Part3(v: seq<Value>)
    requires |v| == 51 && Computed(v, 10, 0x8d50561)
    requires v[10] == 4 && v[11] == 5 && v[12] == 6
    ensures Computed(v, 13, 0x3be80e6a)
  {
    Steps3();
    ComputedNext(v, 10, 0x8d50561, 0x401b5de);
    ComputedNext(v, 11, 0x401b5de, 0x266635a8);
    ComputedNext(v, 12, 0x266635a8, 0x3be80e6a);
  }

  lemma {:induction false} Steps4()
    ensures StepWord(0x3be80e6a, 0) == 0xf9cd266 && StepWord(0xf9cd266, 1) == 0x30018ce4
    ensures StepWord(0x30018ce4, 2) == 0x1767cdec
  {
  }

  lemma {:induction false} Part4(v: seq<Value>)
    requires |v| == 51 && Computed(v, 13, 0x3be80e6a)
    requires v[13] == 0 && v[14] == 1 && v[15] == 2
    ensures Computed(v, 16, 0x1767cdec)
  {
    Steps4();
    ComputedNext(v, 13, 0x3be80e6a, 0xf9cd266);
    ComputedNext(v, 14, 0xf9cd266, 0x30018ce4);
    ComputedNext(v, 15, 0x30018ce4, 0x1767cdec);
  }

  lemma {:induction false} Steps5()
    ensures StepWord(0x1767cdec, 3) == 0xc815781 && StepWord(0xc815781, 4) == 0x28db67b3
    ensures StepWord(0x28db67b3, 5) == 0x2fd98d2c
  {
  }

  lemma {:induction false} Part5(v: seq<Value>)
    requires |v| == 51 && Computed(v, 16, 0x1767cdec)
    requires v[16] == 3 && v[17] == 4 && v[18] == 5
    ensures Computed(v, 19, 0x2fd98d2c)
  {
    Steps5();
    ComputedNext(v, 16, 0x1767cdec, 0xc815781);
    ComputedNext(v, 17, 0xc815781, 0x28db67b3);
    ComputedNext(v, 18, 0x28db67b3, 0x2fd98d2c);
  }

  lemma {:induction false} Steps6()
    ensures StepWord(0x2fd98d2c, 6) == 0x12be0710 && StepWord(0x12be0710, 7) == 0x11e88668
    ensures StepWord(0x11e88668, 8) == 0x52fed5
  {
  }

  lemma {:induction false} Part6(v: seq<Value>)
    requires |v| == 51 && Computed(v, 19, 0x2fd98d2c)
    requires v[19] == 6 && v[20] == 7 && v[21] == 8
    ensures Computed(v, 22, 0x52fed5)
  {
    Steps6();
    ComputedNext(v, 19, 0x2fd98d2c, 0x12be0710);
    ComputedNext(v, 20, 0x12be0710, 0x11e88668);
    ComputedNext(v, 21, 0x11e88668, 0x52fed5);
  }

  lemma {:induction false} Steps7()
    ensures StepWord(0x52fed5, 9) == 0xa5fdaa9 && StepWord(0xa5fdaa9, 10) == 0x2e301b62
    ensures StepWord(0x2e301b62, 11) == 0x2f8ccedd
  {
  }

  lemma {:induction false} Part7(v: seq<Value>)
    requires |v| == 51 && Computed(v, 22, 0x52fed5)
    requires v[22] == 9 && v[23] == 10 && v[24] == 11
    ensures Computed(v, 25, 0x2f8ccedd)
  {
    Steps7();
    ComputedNext(v, 22, 0x52fed5, 0xa5fdaa9);
    ComputedNext(v, 23, 0xa5fdaa9, 0x2e301b62);
    ComputedNext(v, 24, 0x2e301b62, 0x2f8ccedd);
  }

  lemma {:induction false} Steps8()
    ensures StepWord(0x2f8ccedd, 12) == 0x1816793a && StepWord(0x1816793a, 13) == 0x212c0d6a
    ensures StepWord(0x212c0d6a, 14) == 0xf95cffd
  {
  }

  lemma {:induction false} Part8(v: seq<Value>)
    requires |v| == 51 && Computed(v, 25, 0x2f8ccedd)
    requires v[25] == 12 && v[26] == 13 && v[27] == 14
    ensures Computed(v, 28, 0xf95cffd)
  {
    Steps8();
    ComputedNext(v, 25, 0x2f8ccedd, 0x1816793a);
    ComputedNext(v, 26, 0x1816793a, 0x212c0d6a);
    ComputedNext(v, 27, 0x212c0d6a, 0xf95cffd);
  }

  lemma {:induction false} Steps9()
    ensures StepWord(0xf95cffd, 15) == 0x31223f8a && StepWord(0x31223f8a, 16) == 0x3311a03e
    ensures StepWord(0x3311a03e, 17) == 0xe08010d
  {
  }

  lemma {:induction false} Part9(v: seq<Value>)
    requires |v| == 51 && Computed(v, 28, 0xf95cffd)
    requires v[28] == 15 && v[29] == 16 && v[30] == 17
    ensures Computed(v, 31, 0xe08010d)
  {
    Steps9();
    ComputedNext(v, 28, 0xf95cffd, 0x31223f8a);
    ComputedNext(v, 29, 0x31223f8a, 0x3311a03e);
    ComputedNext(v, 30, 0x3311a03e, 0xe08010d);
  }

  lemma {:induction false} Steps10()
    ensures StepWord(0xe08010d, 18) == 0x29be197 && StepWord(0x29be197, 19) == 0x28166541
    ensures StepWord(0x28166541, 20) == 0x3679d37d
  {
  }

  lemma {:induction false} Part10(v: seq<Value>)
    requires |v| == 51 && Computed(v, 31, 0xe08010d)
    requires v[31] == 18 && v[32] == 19 && v[33] == 20
    ensures Computed(v, 34, 0x3679d37d)
  {
    Steps10();
    ComputedNext(v, 31, 0xe08010d, 0x29be197);
    ComputedNext(v, 32, 0x29be197, 0x28166541);
    ComputedNext(v, 33, 0x28166541, 0x3679d37d);
  }

  lemma {:induction false} Steps11()
    ensures StepWord(0x3679d37d, 21) == 0x556e704 && StepWord(0x556e704, 22) == 0xc8c6efb
    ensures StepWord(0xc8c6efb, 23) == 0x297c48e0
  {
  }

  lemma {:induction false} Part11(v: seq<Value>)
    requires |v| == 51 && Computed(v, 34, 0x3679d37d)
    requires v[34] == 21 && v[35] == 22 && v[36] == 23
    ensures Computed(v, 37, 0x297c48e0)
  {
    Steps11();
    ComputedNext(v, 34, 0x3679d37d, 0x556e704);
    ComputedNext(v, 35, 0x556e704, 0xc8c6efb);
    ComputedNext(v, 36, 0xc8c6efb, 0x297c48e0);
  }

  lemma {:induction false} Steps12()
    ensures StepWord(0x297c48e0, 24) == 0x1b3c6751 && StepWord(0x1b3c6751, 25) == 0x3f0597ac
    ensures StepWord(0x3f0597ac, 26) == 0x347f64d1
  {
  }

  lemma {:induction false} Part12(v: seq<Value>)
    requires |v| == 51 && Computed(v, 37, 0x297c48e0)
    requires v[37] == 24 && v[38] == 25 && v[39] == 26
    ensures Computed(v, 40, 0x347f64d1)
  {
    Steps12();
    ComputedNext(v, 37, 0x297c48e0, 0x1b3c6751);
    ComputedNext(v, 38, 0x1b3c6751, 0x3f0597ac);
    ComputedNext(v, 39, 0x3f0597ac, 0x347f64d1);
  }

  lemma {:induction false} Steps13()
    ensures StepWord(0x347f64d1, 27) == 0x3eea4538 && StepWord(0x3eea4538, 28) == 0x9853657
    ensures StepWord(0x9853657, 29) == 0x2e07d307
  {
  }

  lemma {:induction false} Part13(v: seq<Value>)
    requires |v| == 51 && Computed(v, 40, 0x347f64d1)
    requires v[40] == 27 && v[41] == 28 && v[42] == 29
    ensures Computed(v, 43, 0x2e07d307)
  {
    Steps13();
    ComputedNext(v, 40, 0x347f64d1, 0x3eea4538);
    ComputedNext(v, 41, 0x3eea4538, 0x9853657);
    ComputedNext(v, 42, 0x9853657, 0x2e07d307);
  }

  lemma {:induction false} Steps14()
    ensures StepWord(0x2e07d307, 30) == 0x2975c268 && StepWord(0x2975c268, 31) == 0x1a0d3656
  {
  }

  lemma {:induction false} Part14(v: seq<Value>)
    requires |v| == 51 && Computed(v, 43, 0x2e07d307)
    requires v[43] == 30 && v[44] == 31
    ensures Computed(v, 45, 0x1a0d3656)
  {
    Steps14();
    ComputedNext(v, 43, 0x2e07d307, 0x2975c268);
    ComputedNext(v, 44, 0x2975c268, 0x1a0d3656);
  }

  lemma {:induction false} Steps15()
    ensures StepWord(0x1a0d3656, 27) == 0x192fb74e && StepWord(0x192fb74e, 0) == 0x615c3e7
    ensures StepWord(0x615c3e7, 0) == 0x1f82a53f
  {
  }

  lemma {:induction false} Part15(v: seq<Value>)
    requires |v| == 51 && Computed(v, 45, 0x1a0d3656)
    requires v[45] == 27 && v[46] == 0 && v[47] == 0
    ensures Computed(v, 48, 0x1f82a53f)
  {
    Steps15();
    ComputedNext(v, 45, 0x1a0d3656, 0x192fb74e);
    ComputedNext(v, 46, 0x192fb74e, 0x615c3e7);
    ComputedNext(v, 47, 0x615c3e7, 0x1f82a53f);
  }

  lemma {:induction false} Steps16()
    ensures StepWord(0x1f82a53f, 0) == 0xe8d5418 && StepWord(0xe8d5418, 6) == 0x12314323
    ensures StepWord(0x12314323, 14) == 0x1
  {
  }

  lemma {:induction false} Part16(v: seq<Value>)
    requires |v| == 51 && Computed(v, 48, 0x1f82a53f)
    requires v[48] == 0 && v[49] == 6 && v[50] == 14
    ensures Computed(v, 51, 0x1)
  {
    Steps16();
    ComputedNext(v, 48, 0x1f82a53f, 0xe8d5418);
    ComputedNext(v, 49, 0xe8d5418, 0x12314323);
    ComputedNext(v, 50, 0x12314323, 0x1);
  }

  lemma {:induction false} Stretch0(v: seq<Value>)
    requires Whole(v) && Computed(v, 0, 0x1)
    ensures Computed(v, 13, 0x3be80e6a)
  {
    assert forall k :: 0 <= k < 13 ==> v[k] == v[..13][k];
    Part0(v);
    Part1(v);
    Part2(v);
    Part3(v);
  }

  lemma {:induction false} Stretch1(v: seq<Value>)
    requires Whole(v) && Computed(v, 13, 0x3be80e6a)
    ensures Computed(v, 31, 0xe08010d)
  {
    Part4(v);
    Part5(v);
    Part6(v);
    Part7(v);
    Part8(v);
    Part9(v);
  }

  lemma {:induction false} Stretch2(v: seq<Value>)
    requires Whole(v) && Computed(v, 31, 0xe08010d)
    ensures Computed(v, 51, 0x1)
  {
    assert forall k :: 45 <= k < 51 ==> v[k] == SixSymbols()[k - 45];
    Part10(v);
    Part11(v);
    Part12(v);
    Part13(v);
    Part14(v);
    Part15(v);
    Part16(v);
  }

  lemma {:induction false} WholeComputed(v: seq<Value>)
    requires Whole(v)
    ensures Remainder(v) == ToBits(1)
  {
    ComputedStart(v);
    Stretch0(v);
    Stretch1(v);
    Stretch2(v);
    ComputedEnd(v, 51, 0x1);
  }

  // ---------------------------------------------------------------- the string

  lemma {:induction false} SymbolChars()
    ensures Chars(AllSymbols()) == "qpzry9x8gf2tvdw0s3jn54khce6mua7l"
    ensures Chars(SixSymbols()) == "mqqqxw"
  {
    assert Chars(AllSymbols()) == CHARSET;
  }

  lemma {:induction false} WholeString(x: seq<Value>, v: seq<Value>)
    requires Abcdef(x) && v == x + (AllSymbols() + SixSymbols())
    ensures Whole(v)
  {
    assert v[..13] == x;
  }

  lemma {:induction false} Encoded(part: string, data: seq<Value>, six: seq<Value>)
    requires Bytes(part) && |six| == CHECKSUM && Legal(part, data)
    requires Remainder(ExpandHRP(part) + (data + six)) == Target(Encoding.Bech32)
    ensures Encode(Encoding.Bech32, part, data) == part + "1" + (Chars(data) + Chars(six))
    ensures Decode(Encode(Encoding.Bech32, part, data)) == Decoded(Encoding.Bech32, part, data)
  {
    VerifiesUnique(Encoding.Bech32, part, data, six);
    assert Chars(data + six) == Chars(data) + Chars(six);
    RoundTrip(Encoding.Bech32, part, data);
  }

  lemma {:induction false} EncodedAs(part: string)
    requires part == "abcdef"
    ensures Bytes(part) && Encode(Encoding.Bech32, part, AllSymbols())
                           == part + "1" + (Chars(AllSymbols()) + Chars(SixSymbols()))
    ensures Decode(Encode(Encoding.Bech32, part, AllSymbols())) == Decoded(Encoding.Bech32, part, AllSymbols())
  {
    ExpandedAbcdef();
    var v := ExpandHRP(part) + (AllSymbols() + SixSymbols());
    WholeString(ExpandHRP(part), v);
    WholeComputed(v);
    Encoded(part, AllSymbols(), SixSymbols());
  }

  /** All 32 symbols in order after "abcdef", encoded and decoded as BIP 173 lists it. */
  lemma {:induction false} AllSymbolsVector(part: string, s: string)
    requires part == "abcdef" && s == part + "1" + ("qpzry9x8gf2tvdw0s3jn54khce6mua7l" + "mqqqxw")
    ensures Bytes(part) && Encode(Encoding.Bech32, part, AllSymbols()) == s
    ensures Decode(s) == Decoded(Encoding.Bech32, part, AllSymbols())
  {
    EncodedAs(part);
    SymbolChars();
  }
}
