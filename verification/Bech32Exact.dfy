/**
 Which strings decode: exactly those, in one case, whose lower-case form encodes something. A change
 of the human-readable part is noticed as well, and the shortest valid strings of BIP 173 and
 BIP 350 come out as these list them.
 */
module Bech32Exact {
  import opened Bech32Checksum
  import opened Bech32Words
  import opened Bech32
  import opened Bech32Strings
  import opened Bech32Codec
  import opened Bech32Errors

  // ---------------------------------------------------------------- upper and lower case

  predicate OneCase(s: string) {
    (forall i :: 0 <= i < |s| ==> !IsLower(s[i])) || (forall i :: 0 <= i < |s| ==> !IsUpper(s[i]))
  }

  lemma {:induction false} LowerKeeps(c: char)
    ensures Printable(Lower(c)) <==> Printable(c)
    ensures (Lower(c) == '1') == (c == '1')
    ensures (Lower(c) as int < 128) == (c as int < 128)
    ensures Lower(Lower(c)) == Lower(c) && !IsUpper(Lower(c))
  {
  }

  /** The letters of rows 4 and 5 of the reverse table stand again in rows 6 and 7. */
  lemma {:induction false} LowerReverses(c: char)
    requires c as int < 128
    ensures Lower(c) as int < 128 && CharsetReverse(Lower(c)) == CharsetReverse(c)
  {
    if IsUpper(c) {
      var n, m := c as int, Lower(c) as int;
      assert m == n + 32;
      assert m / 16 == n / 16 + 2 && m % 16 == n % 16;
      assert n / 16 == 4 || n / 16 == 5;
    }
  }

  lemma {:induction false} LowerLastOne(s: string)
    ensures LastOne(LowerAll(s)) == LastOne(s)
  {
    if s != "" {
      LowerKeeps(s[|s| - 1]);
      LowerLastOne(s[..|s| - 1]);
      assert LowerAll(s)[..|s| - 1] == LowerAll(s[..|s| - 1]);
    }
  }

  lemma {:induction false} LowerCharacters(s: string)
    requires OneCase(s)
    ensures CharactersOk(LowerAll(s)) <==> CharactersOk(s)
  {
    forall i | 0 <= i < |s| ensures Printable(LowerAll(s)[i]) == Printable(s[i]) && !IsUpper(LowerAll(s)[i]) {
      LowerKeeps(s[i]);
    }
    if CharactersOk(LowerAll(s)) {
      assert forall i :: 0 <= i < |s| ==> Printable(LowerAll(s)[i]);
    }
  }

  lemma {:induction false} LowerTail(s: string)
    requires Ascii(s)
    ensures Ascii(LowerAll(s)) && AllReversible(LowerAll(s)) == AllReversible(s)
    ensures AllReversible(s) ==> ReverseAll(LowerAll(s)) == ReverseAll(s)
    ensures LowerAll(LowerAll(s)) == LowerAll(s)
  {
    forall i | 0 <= i < |s|
      ensures LowerAll(s)[i] as int < 128 && CharsetReverse(LowerAll(s)[i]) == CharsetReverse(s[i])
      ensures Lower(LowerAll(s)[i]) == LowerAll(s)[i]
    {
      LowerReverses(s[i]);
      LowerKeeps(s[i]);
    }
    if AllReversible(LowerAll(s)) {
      assert forall i :: 0 <= i < |s| ==> CharsetReverse(LowerAll(s)[i]) != -1;
    }
  }

  /** A string in one case decodes like its lower-case form. */
  lemma {:induction false} CaseIgnored(s: string)
    requires OneCase(s)
    ensures Decode(s) == Decode(LowerAll(s))
  {
    var t, pos := LowerAll(s), LastOne(s);
    LowerCharacters(s);
    LowerLastOne(s);
    if CharactersOk(s) && |s| <= MAX_LENGTH && 0 < pos && pos + 7 <= |s| {
      var head, tail := s[..pos], s[pos + 1..];
      LowerSlices(s, pos, head, tail);
      DecodedAt(s, pos, head, tail);
      DecodedAt(t, pos, LowerAll(head), LowerAll(tail));
      LowerDecodes(head, tail);
    }
  }

  lemma {:induction false} LowerSlices(s: string, pos: nat, head: string, tail: string)
    requires pos < |s| && head == s[..pos] && tail == s[pos + 1..]
    ensures LowerAll(s)[..pos] == LowerAll(head) && LowerAll(s)[pos + 1..] == LowerAll(tail)
  {
  }

  lemma {:induction false} LowerDecodes(head: string, tail: string)
    requires Ascii(head) && Ascii(tail) && |tail| >= CHECKSUM
    ensures Ascii(LowerAll(head)) && Ascii(LowerAll(tail)) && AllReversible(LowerAll(tail)) == AllReversible(tail)
    ensures AllReversible(tail) ==> DecodeParts(LowerAll(head), LowerAll(tail)) == DecodeParts(head, tail)
  {
    LowerTail(head);
    LowerTail(tail);
  }

  /** Decode, once the form of a string is right. */
  lemma {:induction false} DecodedAt(s: string, pos: int, head: string, tail: string)
    requires CharactersOk(s) && |s| <= MAX_LENGTH && pos == LastOne(s) && 0 < pos && pos + 7 <= |s|
    requires head == s[..pos] && tail == s[pos + 1..]
    ensures Ascii(head) && Ascii(tail) && |tail| >= CHECKSUM
    ensures Decode(s) == if AllReversible(tail) then DecodeParts(head, tail) else Invalid
  {
    AsciiParts(s, pos);
  }

  // ---------------------------------------------------------------- what decodes

  /** Every string in one case whose lower-case form is an encoding of legal parts decodes to these. */
  lemma {:induction false} EncodingsDecode(e: Encoding, hrp: string, values: seq<Value>, s: string)
    requires Legal(hrp, values) && OneCase(s)
    requires Bytes(hrp) && LowerAll(s) == Encode(e, hrp, values)
    ensures Decode(s) == Decoded(e, hrp, values)
  {
    CaseIgnored(s);
    RoundTrip(e, hrp, values);
  }

  /** And no other string does: what decodes is in one case, and its lower-case form encodes legal parts. */
  lemma {:induction false} DecodedIsEncoding(s: string)
    requires Decode(s).Decoded?
    ensures var d := Decode(s);
      && OneCase(s) && Legal(d.hrp, d.values) && Bytes(d.hrp) && LowerAll(s) == Encode(d.encoding, d.hrp, d.values)
  {
    var d, pos := Decode(s), LastOne(s);
    DecodedEncodes(s);
    DecodedForm(s, pos, d);
    PartsEncode(s[..pos], s[pos + 1..]);
    assert |LowerAll(s)| == |d.hrp| + 1 + |d.values| + CHECKSUM;
    forall i | 0 <= i < |d.hrp| ensures Printable(d.hrp[i]) && !IsUpper(d.hrp[i]) {
      assert d.hrp[i] == Lower(s[i]);
      LowerKeeps(s[i]);
    }
  }

  // ---------------------------------------------------------------- the human-readable part

  /** The places of the expanded form that one character fills. */
  lemma {:induction false} ExpandedPlaces(hrp: string, other: string, p: nat)
    requires Bytes(hrp) && Bytes(other) && |hrp| == |other| && p < |hrp|
    requires forall i :: 0 <= i < |hrp| && i != p ==> hrp[i] == other[i]
    ensures Changed(ExpandHRP(hrp), ExpandHRP(other)) <= {p, |hrp| + 1 + p}
    ensures hrp[p] != other[p] ==> ExpandHRP(hrp) != ExpandHRP(other)
  {
    var x, y := ExpandHRP(hrp), ExpandHRP(other);
    forall i: nat | i < |x| && x[i] != y[i] ensures i == p || i == |hrp| + 1 + p {
      if i < |hrp| {
        assert x[i] == hrp[i] as int / 32 && y[i] == other[i] as int / 32;
      } else if i > |hrp| {
        assert x[i] == hrp[i - |hrp| - 1] as int % 32 && y[i] == other[i - |hrp| - 1] as int % 32;
      }
    }
    if hrp[p] != other[p] {
      assert x[p] == hrp[p] as int / 32 && y[p] == other[p] as int / 32;
      assert x[|hrp| + 1 + p] == hrp[p] as int % 32 && y[|hrp| + 1 + p] == other[p] as int % 32;
    }
  }

  lemma {:induction false} AtMostThree(s: set<nat>, a: nat, b: nat, c: nat)
    requires s <= {a, b, c}
    ensures |s| <= 3
  {
    assert s + ({a, b, c} - s) == {a, b, c};
  }

  /**
   A valid string of up to 500 characters in which one character of the human-readable part is
   another, and at most one symbol of the rest, does not verify for the same encoding.
   */
  lemma {:induction false} PartNoticed(
    e: Encoding, hrp: string, values: seq<Value>, other: string, changed: seq<Value>, p: nat, q: nat)
    requires Bytes(hrp) && Bytes(other) && Verifies(e, hrp, values) && |hrp| + |values| <= 500
    requires |hrp| == |other| && p < |hrp| && hrp[p] != other[p]
    requires forall i :: 0 <= i < |hrp| && i != p ==> hrp[i] == other[i]
    requires |changed| == |values| && forall i :: 0 <= i < |values| && i != q ==> changed[i] == values[i]
    ensures !Verifies(e, other, changed)
  {
    var x, y := ExpandHRP(hrp), ExpandHRP(other);
    var v, w := x + values, y + changed;
    ExpandedPlaces(hrp, other, p);
    JoinedChange(x, y, values, changed, p, |hrp| + 1 + p, q, v, w);
    AtMostThree(Changed(v, w), p, |hrp| + 1 + p, |x| + q);
    NearWhenShort(v, w);
    ChangeTells(v, w);
  }

  lemma {:induction false} NearWhenShort(v: seq<Value>, w: seq<Value>)
    requires |v| == |w| <= 1023
    ensures Near(Changed(v, w))
  {
  }

  lemma {:induction false} ChangeTells(v: seq<Value>, w: seq<Value>)
    requires |v| == |w| && v != w && |Changed(v, w)| <= 3 && Near(Changed(v, w))
    ensures Remainder(v) != Remainder(w)
  {
    assert [] + v == v && [] + w == w;
    ThreeChange([], v, w);
  }

  lemma {:induction false} JoinedChange(
    x: seq<Value>, y: seq<Value>, values: seq<Value>, changed: seq<Value>, a: nat, b: nat, q: nat,
    v: seq<Value>, w: seq<Value>)
    requires |x| == |y| && x != y && Changed(x, y) <= {a, b} && |values| == |changed|
    requires forall i :: 0 <= i < |values| && i != q ==> changed[i] == values[i]
    requires v == x + values && w == y + changed
    ensures Changed(v, w) <= {a, b, |x| + q} && v != w
  {
    assert v[..|x|] == x && w[..|x|] == y;
    forall i: nat | i in Changed(v, w) ensures i in {a, b, |x| + q} {
      if i < |x| {
        assert i in Changed(x, y);
      } else {
        assert values[i - |x|] != changed[i - |x|];
      }
    }
  }

  // ---------------------------------------------------------------- published strings

  lemma {:induction false} ShortSteps()
    ensures StepWord(0x1, 3) == 0x23 && StepWord(0x23, 0) == 0x460 && StepWord(0x460, 1) == 0x8c01
  {
  }

  lemma {:induction false} Bip173Steps()
    ensures StepWord(0x8c01, 10) == 0x11802a && StepWord(0x11802a, 28) == 0x230055c
    ensures StepWord(0x230055c, 25) == 0x3d6afc2b && StepWord(0x3d6afc2b, 31) == 0x2f84386
    ensures StepWord(0x2f84386, 20) == 0x24622766 && StepWord(0x24622766, 31) == 0x1
  {
  }

  lemma {:induction false} Bip350Steps()
    ensures StepWord(0x8c01, 31) == 0x11803f && StepWord(0x11803f, 0) == 0x23007e0
    ensures StepWord(0x23007e0, 9) == 0x3d6aabbb && StepWord(0x3d6aabbb, 19) == 0x2f2b18a
    ensures StepWord(0x2f2b18a, 17) == 0x253c66e3 && StepWord(0x253c66e3, 29) == 0x2bc830a3
  {
  }

  lemma {:induction false} ExpandedA()
    ensures Bytes("a") && ExpandHRP("a") == [3, 0, 1]
  {
  }

  lemma {:induction false} ThreeComputed(v: seq<Value>)
    requires |v| == 9 && v[0] == 3 && v[1] == 0 && v[2] == 1
    ensures Computed(v, 3, 0x8c01)
  {
    ShortSteps();
    ComputedStart(v);
    ComputedNext(v, 0, 0x1, 0x23);
    ComputedNext(v, 1, 0x23, 0x460);
    ComputedNext(v, 2, 0x460, 0x8c01);
  }

  function A2uel5l(): seq<Value> {
    [3, 0, 1, 10, 28, 25, 31, 20, 31]
  }

  lemma {:induction false} Bip173SixComputed()
    ensures Computed(A2uel5l(), 6, 0x3d6afc2b)
  {
    var v := A2uel5l();
    Bip173Steps();
    ThreeComputed(v);
    ComputedNext(v, 3, 0x8c01, 0x11802a);
    ComputedNext(v, 4, 0x11802a, 0x230055c);
    ComputedNext(v, 5, 0x230055c, 0x3d6afc2b);
  }

  lemma {:induction false} Bip173Computed()
    ensures Remainder(A2uel5l()) == ToBits(1)
  {
    var v := A2uel5l();
    Bip173Steps();
    Bip173SixComputed();
    ComputedNext(v, 6, 0x3d6afc2b, 0x2f84386);
    ComputedNext(v, 7, 0x2f84386, 0x24622766);
    ComputedNext(v, 8, 0x24622766, 0x1);
    ComputedEnd(v, 9, 0x1);
  }

  function Alqfn3a(): seq<Value> {
    [3, 0, 1, 31, 0, 9, 19, 17, 29]
  }

  lemma {:induction false} Bip350SixComputed()
    ensures Computed(Alqfn3a(), 6, 0x3d6aabbb)
  {
    var v := Alqfn3a();
    Bip350Steps();
    ThreeComputed(v);
    ComputedNext(v, 3, 0x8c01, 0x11803f);
    ComputedNext(v, 4, 0x11803f, 0x23007e0);
    ComputedNext(v, 5, 0x23007e0, 0x3d6aabbb);
  }

  lemma {:induction false} Bip350EightComputed()
    ensures Computed(Alqfn3a(), 8, 0x253c66e3)
  {
    var v := Alqfn3a();
    Bip350Steps();
    Bip350SixComputed();
    ComputedNext(v, 6, 0x3d6aabbb, 0x2f2b18a);
    ComputedNext(v, 7, 0x2f2b18a, 0x253c66e3);
  }

  lemma {:induction false} Bip350Computed()
    ensures Remainder(Alqfn3a()) == ToBits(0x2bc830a3)
  {
    var v := Alqfn3a();
    Bip350Steps();
    Bip350EightComputed();
    ComputedNext(v, 8, 0x253c66e3, 0x2bc830a3);
    ComputedEnd(v, 9, 0x2bc830a3);
  }

  lemma {:induction false} LowerStrings()
    ensures LowerAll("A12UEL5L") == "a12uel5l" && OneCase("A12UEL5L")
    ensures LowerAll("A1LQFN3A") == "a1lqfn3a" && OneCase("A1LQFN3A")
  {
  }

  lemma {:induction false} ChecksumChars()
    ensures "a1" + Chars([10, 28, 25, 31, 20, 31]) == "a12uel5l"
    ensures "a1" + Chars([31, 0, 9, 19, 17, 29]) == "a1lqfn3a"
  {
    assert Chars([10, 28, 25, 31, 20, 31]) == "2uel5l";
    assert Chars([31, 0, 9, 19, 17, 29]) == "lqfn3a";
  }

  /** The shortest valid string that BIP 173 lists. */
  lemma {:induction false} Bip173Vector()
    ensures Bytes("a") && Encode(Encoding.Bech32, "a", []) == "a12uel5l"
    ensures Decode("a12uel5l") == Decode("A12UEL5L") == Decoded(Encoding.Bech32, "a", [])
  {
    ExpandedA();
    assert [3, 0, 1] + [10, 28, 25, 31, 20, 31] == A2uel5l();
    Bip173Computed();
    ShortString(Encoding.Bech32, [10, 28, 25, 31, 20, 31]);
    ChecksumChars();
    LowerStrings();
    CaseIgnored("A12UEL5L");
  }

  /** And the one of BIP 350. */
  lemma {:induction false} Bip350Vector()
    ensures Bytes("a") && Encode(Bech32m, "a", []) == "a1lqfn3a"
    ensures Decode("a1lqfn3a") == Decode("A1LQFN3A") == Decoded(Bech32m, "a", [])
  {
    ExpandedA();
    assert [3, 0, 1] + [31, 0, 9, 19, 17, 29] == Alqfn3a();
    Bip350Computed();
    ShortString(Bech32m, [31, 0, 9, 19, 17, 29]);
    ChecksumChars();
    LowerStrings();
    CaseIgnored("A1LQFN3A");
  }

  /** Nothing but a checksum after the human-readable part "a". */
  lemma {:induction false} ShortString(e: Encoding, six: seq<Value>)
    requires Bytes("a") && |six| == CHECKSUM && Remainder(ExpandHRP("a") + six) == Target(e)
    ensures Encode(e, "a", []) == "a1" + Chars(six) && Decode("a1" + Chars(six)) == Decoded(e, "a", [])
  {
    assert [] + six == six;
    VerifiesUnique(e, "a", [], six);
    assert "a" + "1" + Chars(six) == "a1" + Chars(six);
    RoundTrip(e, "a", []);
  }
}
