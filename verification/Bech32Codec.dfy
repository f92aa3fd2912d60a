/**
 The Bech32 routines as the node runs them: loops over characters, values and 32-bit words.
 Each is proved to compute the function of the same purpose in Bech32 and Bech32Strings.
 */
module Bech32Codec {
  import opened Bech32Checksum
  import opened Bech32Words
  import opened Bech32
  import opened Bech32Strings

  // ---------------------------------------------------------------- PolyMod

  lemma {:induction false} EnteringInRange(c: Word, v: Word)
    requires v < 32
    ensures Entering(c, v) < LIMIT
  {
  }

  lemma {:induction false} WhenInRange(b: bool, x: Word, k: Word)
    requires x < LIMIT && k < LIMIT
    ensures When(b, x, k) < LIMIT
  {
  }

  lemma {:induction false} StepInRange(c: Word, v: Word)
    requires v < 32
    ensures StepWord(c, v) < LIMIT
  {
    var c0 := c >> 25;
    var x0 := When(Has(c0, 1), Entering(c, v), K0);
    var x1 := When(Has(c0, 2), x0, K1);
    var x2 := When(Has(c0, 4), x1, K2);
    var x3 := When(Has(c0, 8), x2, K3);
    EnteringInRange(c, v);
    WhenInRange(Has(c0, 1), Entering(c, v), K0);
    WhenInRange(Has(c0, 2), x0, K1);
    WhenInRange(Has(c0, 4), x1, K2);
    WhenInRange(Has(c0, 8), x2, K3);
    WhenInRange(Has(c0, 16), x3, K4);
  }

  /** One of the conditional additions of a constant. */
  method AddIf(b: bool, x: Word, k: Word) returns (y: Word)
    ensures y == When(b, x, k)
  {
    y := x;
    if b { y := x ^ k; }
  }

  method PolyModRound(c: Word, v: Value) returns (x: Word)
    ensures x == StepWord(c, v as bv32)
  {
    var c0 := c >> 25;
    x := ((c & 0x1ffffff) << 5) ^ (v as bv32);
    x := AddIf(c0 & 1 != 0, x, K0);
    x := AddIf(c0 & 2 != 0, x, K1);
    x := AddIf(c0 & 4 != 0, x, K2);
    x := AddIf(c0 & 8 != 0, x, K3);
    x := AddIf(c0 & 16 != 0, x, K4);
  }

  lemma {:induction false} RemainderStep(v: seq<Value>, k: nat, c: Word)
    requires k < |v| && ToBits(c) == Remainder(v[..k])
    ensures v[k] as bv32 < 32 && ToBits(StepWord(c, v[k] as bv32)) == Remainder(v[..k + 1])
  {
    SymWord(v[k]);
    StepWordIsStep(c, v[k] as bv32);
    assert Syms(v[..k + 1])[..k] == Syms(v[..k]);
  }

  /** The loop of PolyMod has read k values. */
  ghost predicate Computed(v: seq<Value>, k: nat, c: Word)
    requires k <= |v|
  {
    var inRange, right := c < LIMIT, ToBits(c) == Remainder(v[..k]);
    inRange && right
  }

  lemma {:induction false} ComputedNext(v: seq<Value>, k: nat, c: Word, x: Word)
    requires k < |v| && Computed(v, k, c) && x == StepWord(c, v[k] as bv32)
    ensures Computed(v, k + 1, x)
  {
    RemainderStep(v, k, c);
    StepInRange(c, v[k] as bv32);
  }

  lemma {:induction false} ComputedStart(v: seq<Value>)
    ensures Computed(v, 0, 1)
  {
    assert Syms(v[..0]) == [];
  }

  lemma {:induction false} ComputedEnd(v: seq<Value>, n: nat, c: Word)
    requires n == |v| && Computed(v, n, c)
    ensures c < LIMIT && ToBits(c) == Remainder(v)
  {
    assert v[..n] == v;
  }

  method PolyModNext(v: seq<Value>, k: nat, c: Word) returns (x: Word)
    requires k < |v| && Computed(v, k, c)
    ensures Computed(v, k + 1, x)
  {
    x := PolyModRound(c, v[k]);
    ComputedNext(v, k, c, x);
  }

  /** PolyMod. */
  method ComputePolyMod(v: seq<Value>) returns (c: Word)
    ensures c < LIMIT && ToBits(c) == Remainder(v)
  {
    c := 1;
    ComputedStart(v);
    for k := 0 to |v|
      invariant Computed(v, k, c)
    {
      c := PolyModNext(v, k, c);
    }
    ComputedEnd(v, |v|, c);
  }

  // ---------------------------------------------------------------- checksums

  /** ExpandHRP. */
  method ExpandPart(hrp: string) returns (r: seq<Value>)
    requires Bytes(hrp)
    ensures r == ExpandHRP(hrp)
  {
    var high: seq<Value>, low: seq<Value> := [], [];
    for i := 0 to |hrp|
      invariant |high| == |low| == i
      invariant forall j :: 0 <= j < i ==> high[j] == hrp[j] as int / 32 && low[j] == hrp[j] as int % 32
    {
      high, low := high + [hrp[i] as int / 32], low + [hrp[i] as int % 32];
    }
    r := high + [0] + low;
  }

  /** VerifyChecksum together with what Decode returns for it. */
  method VerifyValues(hrp: string, v: seq<Value>) returns (d: Decoded)
    requires Bytes(hrp) && |v| >= CHECKSUM
    ensures d == Verify(hrp, v)
  {
    var x := ExpandPart(hrp);
    var check := ComputePolyMod(x + v);
    ConstantsInRange();
    if check == EncodingConstant(Encoding.Bech32) {
      return Decoded(Encoding.Bech32, hrp, v[..|v| - CHECKSUM]);
    }
    SameWord(check, EncodingConstant(Encoding.Bech32));
    if check == EncodingConstant(Bech32m) {
      return Decoded(Bech32m, hrp, v[..|v| - CHECKSUM]);
    }
    SameWord(check, EncodingConstant(Bech32m));
    return Invalid;
  }

  lemma {:induction false} ConstantsInRange()
    ensures EncodingConstant(Encoding.Bech32) < LIMIT && EncodingConstant(Bech32m) < LIMIT
  {
  }

  lemma {:induction false} SameWord(w: Word, x: Word)
    requires w < LIMIT && x < LIMIT
    ensures w == x <==> ToBits(w) == ToBits(x)
  {
    if ToBits(w) == ToBits(x) {
      ToBitsInjective(w, x);
    }
  }

  function Down(w: Word): Word {
    w >> 5
  }

  function Low(w: Word): Word {
    w & 31
  }

  lemma {:induction false} DownHas(w: Word, m: Word)
    requires m < LIMIT
    ensures m >= 32 && Single(m) ==> Has(Down(w), m >> 5) == Has(w, m)
    ensures m < 32 ==> Has(Low(w), m) == Has(w, m)
  {
  }

  /** A word holds the bits of another from some place on. */
  ghost predicate From(x: Word, w: Word, at: nat)
    requires at <= BITS
  {
    ToBits(x)[..BITS - at] == ToBits(w)[at..]
  }

  /** Shifting a word down by a symbol. */
  lemma {:induction false} DownBits(w: Word)
    ensures From(Down(w), w, WIDTH)
  {
    forall i | WIDTH <= i < BITS ensures ToBits(Down(w))[i - WIDTH] == ToBits(w)[i] {
      MaskDown(i);
      MaskSingle(i);
      DownHas(w, Mask(i));
    }
  }

  lemma {:induction false} LowBits(w: Word)
    ensures ToSymbol(Low(w)) == ToBits(w)[..WIDTH]
  {
    forall j | 0 <= j < WIDTH ensures ToSymbol(Low(w))[j] == ToBits(w)[j] {
      assert Mask(j) < 32;
      DownHas(w, Mask(j));
    }
  }

  lemma {:induction false} NextSlice(b: Bits, a: Bits, c: Bits, at: nat)
    requires at + WIDTH <= BITS && a[..BITS - at] == b[at..] && c[..BITS - WIDTH] == a[WIDTH..]
    ensures a[..WIDTH] == b[at..at + WIDTH] && c[..BITS - at - WIDTH] == b[at + WIDTH..]
  {
    assert a[..WIDTH] == a[..BITS - at][..WIDTH];
    assert c[..BITS - at - WIDTH] == a[WIDTH..][..BITS - at - WIDTH] == a[..BITS - at][WIDTH..];
  }

  lemma {:induction false} FromDown(x: Word, w: Word, at: nat)
    requires at + WIDTH <= BITS && From(x, w, at)
    ensures ToSymbol(Low(x)) == ToBits(w)[at..at + WIDTH] && From(Down(x), w, at + WIDTH)
  {
    LowBits(x);
    DownBits(x);
    NextSlice(ToBits(w), ToBits(x), ToBits(Down(x)), at);
  }

  /** The six values of a word, the highest first. */
  lemma {:induction false} SymbolsOf(w: Word)
    ensures Unpack(ToBits(w))
            == [ToSymbol(Low(Down(Down(Down(Down(Down(w))))))), ToSymbol(Low(Down(Down(Down(Down(w)))))),
                ToSymbol(Low(Down(Down(Down(w))))), ToSymbol(Low(Down(Down(w)))), ToSymbol(Low(Down(w))),
                ToSymbol(Low(w))]
  {
    FromDown(w, w, 0);
    FromDown(Down(w), w, 5);
    FromDown(Down(Down(w)), w, 10);
    FromDown(Down(Down(Down(w))), w, 15);
    FromDown(Down(Down(Down(Down(w)))), w, 20);
    FromDown(Down(Down(Down(Down(Down(w))))), w, 25);
  }

  lemma {:induction false} Shifts(w: Word)
    ensures Down(w) == w >> 5 && Down(Down(w)) == w >> 10 && Down(Down(Down(w))) == w >> 15
    ensures Down(Down(Down(Down(w)))) == w >> 20 && Down(Down(Down(Down(Down(w))))) == w >> 25
  {
  }

  lemma {:induction false} NumOfWord(w: Word)
    requires w < 32
    ensures w as int < 32 && Num(ToSymbol(w)) == w as int
  {
    var n: Value := w as int;
    SymWord(n);
    NumSym(n);
  }

  method TakeValue(w: Word) returns (n: Value)
    ensures n == Num(ToSymbol(Low(w)))
  {
    NumOfWord(Low(w));
    n := (w & 31) as int;
  }

  /** The loop of CreateChecksum that takes the six values out of a word. */
  method SixOf(mod: Word) returns (r: seq<Value>)
    ensures r == Nums(Unpack(ToBits(mod)))
  {
    SymbolsOf(mod);
    Shifts(mod);
    var a := TakeValue(mod >> 25);
    var b := TakeValue(mod >> 20);
    var c := TakeValue(mod >> 15);
    var d := TakeValue(mod >> 10);
    var e := TakeValue(mod >> 5);
    var f := TakeValue(mod);
    r := [a, b, c, d, e, f];
  }

  method XorWords(a: Word, b: Word) returns (c: Word)
    ensures ToBits(c) == Xor(ToBits(a), ToBits(b))
  {
    XorToBits(a, b);
    c := a ^ b;
  }

  /** CreateChecksum. */
  method MakeChecksum(e: Encoding, hrp: string, values: seq<Value>) returns (r: seq<Value>)
    requires Bytes(hrp)
    ensures r == CreateChecksum(e, hrp, values)
  {
    var x := ExpandPart(hrp);
    var check := ComputePolyMod(x + values + SixZeros());
    var mod := XorWords(check, EncodingConstant(e));
    r := SixOf(mod);
  }

  // ---------------------------------------------------------------- strings

  /** CheckCharacters: the places of the characters that do not belong. */
  method CheckCharacters(s: string) returns (errors: seq<nat>)
    ensures errors == [] <==> CharactersOk(s)
    ensures forall k :: 0 <= k < |errors| ==> errors[k] < |s|
  {
    var lower, upper := false, false;
    errors := [];
    for i := 0 to |s|
      invariant lower ==> exists j :: 0 <= j < i && IsLower(s[j])
      invariant upper ==> exists j :: 0 <= j < i && IsUpper(s[j])
      invariant !(lower && upper)
      invariant errors == [] ==> CharactersOk(s[..i])
      invariant errors == [] ==> (lower <==> exists j :: 0 <= j < i && IsLower(s[j]))
      invariant errors == [] ==> (upper <==> exists j :: 0 <= j < i && IsUpper(s[j]))
      invariant errors != [] ==> !CharactersOk(s[..i])
      invariant forall k :: 0 <= k < |errors| ==> errors[k] < |s|
    {
      var c := s[i];
      if IsLower(c) {
        if upper { errors := errors + [i]; } else { lower := true; }
      } else if IsUpper(c) {
        if lower { errors := errors + [i]; } else { upper := true; }
      } else if c as int < 33 || c as int > 126 {
        errors := errors + [i];
      }
    }
    assert s[..|s|] == s;
  }

  /** Encode. */
  method EncodeString(e: Encoding, hrp: string, values: seq<Value>) returns (s: string)
    requires Bytes(hrp)
    ensures s == Encode(e, hrp, values)
  {
    var six := MakeChecksum(e, hrp, values);
    var combined := values + six;
    s := hrp + "1";
    for i := 0 to |combined|
      invariant s == hrp + "1" + Chars(combined[..i])
    {
      assert Chars(combined[..i + 1]) == Chars(combined[..i]) + [CHARSET[combined[i]]];
      s := s + [CHARSET[combined[i]]];
    }
    assert combined[..|combined|] == combined;
  }

  /** rfind of the separator. */
  method FindLastOne(s: string) returns (p: int)
    ensures p == LastOne(s)
  {
    p := |s| - 1;
    assert s[..|s|] == s;
    while p >= 0 && s[p] != '1'
      invariant -1 <= p < |s| && LastOne(s) == LastOne(s[..p + 1])
    {
      assert s[..p + 1][..p] == s[..p];
      p := p - 1;
    }
  }

  /** Decode. */
  method DecodeString(s: string) returns (d: Decoded)
    ensures d == Decode(s)
  {
    var errors := CheckCharacters(s);
    if errors != [] { return Invalid; }
    var pos := FindLastOne(s);
    if |s| > MAX_LENGTH || pos <= 0 || pos + 7 > |s| { return Invalid; }
    DecodeSplit(s, pos, s[..pos], s[pos + 1..]);
    d := DecodeBoth(s[..pos], s[pos + 1..]);
  }

  lemma {:induction false} DecodeSplit(s: string, pos: nat, head: string, tail: string)
    requires CharactersOk(s) && |s| <= MAX_LENGTH && pos == LastOne(s) && 0 < pos && pos + 7 <= |s|
    requires head == s[..pos] && tail == s[pos + 1..]
    ensures Ascii(head) && Ascii(tail) && |tail| >= CHECKSUM
    ensures Decode(s) == if AllReversible(tail) then DecodeParts(head, tail) else Invalid
  {
    AsciiParts(s, pos);
  }

  /** Decode once the separator has been found. */
  method DecodeBoth(head: string, tail: string) returns (d: Decoded)
    requires Ascii(head) && Ascii(tail) && |tail| >= CHECKSUM
    ensures d == if AllReversible(tail) then DecodeParts(head, tail) else Invalid
  {
    var ok, values := ReverseTail(tail);
    if !ok { return Invalid; }
    LowerBytes(head);
    var hrp := LowerHead(head);
    d := VerifyValues(hrp, values);
  }

  method ReverseOne(c: char) returns (rev: int)
    requires c as int < 128
    ensures rev == CharsetReverse(c) && (rev != -1 ==> 0 <= rev < 32)
  {
    rev := CharsetReverse(c);
    if rev != -1 {
      CharsetBackward(c);
    }
  }

  /** The loop of Decode over the characters after the separator. */
  method ReverseTail(tail: string) returns (ok: bool, values: seq<Value>)
    requires Ascii(tail)
    ensures ok == AllReversible(tail) && (ok ==> values == ReverseAll(tail))
  {
    values := [];
    for i := 0 to |tail|
      invariant |values| == i
      invariant forall j :: 0 <= j < i ==> values[j] == CharsetReverse(tail[j])
    {
      var rev := ReverseOne(tail[i]);
      if rev == -1 { return false, values; }
      values := values + [rev];
    }
    return true, values;
  }

  method LowerHead(head: string) returns (hrp: string)
    ensures hrp == LowerAll(head)
  {
    hrp := "";
    for i := 0 to |head|
      invariant |hrp| == i && forall j :: 0 <= j < i ==> hrp[j] == Lower(head[j])
    {
      hrp := hrp + [Lower(head[i])];
    }
  }
}
