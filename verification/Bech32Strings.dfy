/**
 Bech32 strings: encoding, decoding and their being inverse to each other.
 */
module Bech32Strings {
  import opened Bech32Checksum
  import opened Bech32

  // ---------------------------------------------------------------- characters

  predicate IsLower(c: char) {
    'a' <= c <= 'z'
  }

  predicate IsUpper(c: char) {
    'A' <= c <= 'Z'
  }

  function Lower(c: char): char {
    if IsUpper(c) then ((c as int) - ('A' as int) + ('a' as int)) as char else c
  }

  function LowerAll(s: string): string {
    seq(|s|, i requires 0 <= i < |s| => Lower(s[i]))
  }

  predicate Printable(c: char) {
    33 <= c as int <= 126
  }

  /** What CheckCharacters accepts: printable characters, and letters of one case only. */
  predicate CharactersOk(s: string) {
    && (forall i :: 0 <= i < |s| ==> Printable(s[i]))
    && ((forall i :: 0 <= i < |s| ==> !IsLower(s[i])) || (forall i :: 0 <= i < |s| ==> !IsUpper(s[i])))
  }

  lemma {:induction false} CharsetForward(v: Value)
    ensures var c := CHARSET[v]; Printable(c) && c != '1' && !IsUpper(c)
  {
  }

  lemma {:induction false} ReversedLow(v: Value)
    requires v < 16
    ensures CHARSET[v] as int < 128 && CharsetReverse(CHARSET[v]) == v
  {
  }

  lemma {:induction false} ReversedHigh(v: Value)
    requires v >= 16
    ensures CHARSET[v] as int < 128 && CharsetReverse(CHARSET[v]) == v
  {
  }

  lemma {:induction false} CharsetReversed(v: Value)
    ensures CHARSET[v] as int < 128 && CharsetReverse(CHARSET[v]) == v
  {
    if v < 16 {
      ReversedLow(v);
    } else {
      ReversedHigh(v);
    }
  }

  /** Row 3 has the digits. */
  lemma {:induction false} DigitsBackward(k: nat)
    requires k < 16 && ReverseRow(3)[k] != -1
    ensures 0 <= ReverseRow(3)[k] < 32 && CHARSET[ReverseRow(3)[k]] as int == 48 + k
  {
  }

  /** Rows 4 and 6 have the letters from a to o, rows 5 and 7 those from p to z. */
  lemma {:induction false} LettersBackward(k: nat)
    requires k < 16 && ReverseRow(4)[k] != -1
    ensures 1 <= k <= 14 && 0 <= ReverseRow(4)[k] < 32 && CHARSET[ReverseRow(4)[k]] as int == 96 + k
  {
  }

  lemma {:induction false} MoreLettersBackward(k: nat)
    requires k < 16 && ReverseRow(5)[k] != -1
    ensures k <= 10 && 0 <= ReverseRow(5)[k] < 32 && CHARSET[ReverseRow(5)[k]] as int == 112 + k
  {
  }

  lemma {:induction false} CharsetBackward(c: char)
    requires c as int < 128 && CharsetReverse(c) != -1
    ensures 0 <= CharsetReverse(c) < 32 && CHARSET[CharsetReverse(c)] == Lower(c)
  {
    var row, k := c as int / 16, c as int % 16;
    RowWithValues(row, k);
    if row == 3 {
      DigitsBackward(k);
    } else if row == 4 || row == 6 {
      LettersBackward(k);
    } else {
      MoreLettersBackward(k);
    }
  }

  lemma {:induction false} RowWithValues(row: nat, k: nat)
    requires row < 8 && k < 16 && ReverseRow(row)[k] != -1
    ensures row in {3, 4, 5, 6, 7}
    ensures ReverseRow(6) == ReverseRow(4) && ReverseRow(7) == ReverseRow(5)
  {
  }

  // ---------------------------------------------------------------- Encode and Decode

  function Chars(v: seq<Value>): string {
    seq(|v|, i requires 0 <= i < |v| => CHARSET[v[i]])
  }

  /** Encode, which asserts that the human-readable part has no capitals. */
  function Encode(e: Encoding, hrp: string, values: seq<Value>): string
    requires Bytes(hrp)
  {
    hrp + "1" + Chars(values + CreateChecksum(e, hrp, values))
  }

  /** The last place of the separator, or -1. */
  function LastOne(s: string): (p: int)
    ensures -1 <= p < |s|
  {
    if s == "" then -1 else if s[|s| - 1] == '1' then |s| - 1 else LastOne(s[..|s| - 1])
  }

  predicate Ascii(s: string) {
    forall i :: 0 <= i < |s| ==> s[i] as int < 128
  }

  predicate AllReversible(s: string)
    requires Ascii(s)
  {
    forall i :: 0 <= i < |s| ==> CharsetReverse(s[i]) != -1
  }

  function ReverseAll(s: string): seq<Value>
    requires Ascii(s) && AllReversible(s)
  {
    seq(|s|, i requires 0 <= i < |s| => CharsetBackward(s[i]); CharsetReverse(s[i]))
  }

  /** VerifyChecksum. */
  function Verify(hrp: string, v: seq<Value>): (r: Decoded)
    requires Bytes(hrp) && |v| >= CHECKSUM
  {
    if Verifies(Encoding.Bech32, hrp, v) then Decoded(Encoding.Bech32, hrp, v[..|v| - CHECKSUM])
    else if Verifies(Bech32m, hrp, v) then Decoded(Bech32m, hrp, v[..|v| - CHECKSUM])
    else Invalid
  }

  lemma {:induction false} LowerBytes(s: string)
    requires Ascii(s)
    ensures Bytes(LowerAll(s))
  {
  }

  lemma {:induction false} AsciiParts(s: string, pos: nat)
    requires CharactersOk(s) && pos < |s|
    ensures Ascii(s[..pos]) && Ascii(s[pos + 1..])
  {
  }

  /** The part of Decode after the checks of form. */
  function DecodeParts(head: string, tail: string): Decoded
    requires Ascii(head) && |tail| >= CHECKSUM && Ascii(tail) && AllReversible(tail)
  {
    LowerBytes(head);
    Verify(LowerAll(head), ReverseAll(tail))
  }

  function Decode(s: string): Decoded {
    if !CharactersOk(s) then Invalid
    else
      var pos := LastOne(s);
      if |s| > MAX_LENGTH || pos <= 0 || pos + 7 > |s| then Invalid
      else
        AsciiParts(s, pos);
        if !AllReversible(s[pos + 1..]) then Invalid else DecodeParts(s[..pos], s[pos + 1..])
  }

  // ---------------------------------------------------------------- encoding, then decoding

  /** What Encode may be given: a printable human-readable part without capitals, perhaps with ones in it. */
  predicate Legal(hrp: string, values: seq<Value>) {
    && hrp != "" && |hrp| + 1 + |values| + 6 <= 90
    && (forall i :: 0 <= i < |hrp| ==> Printable(hrp[i]) && !IsUpper(hrp[i]))
  }

  lemma {:induction false} LastOneFound(head: string, tail: string)
    requires forall i :: 0 <= i < |tail| ==> tail[i] != '1'
    ensures LastOne(head + "1" + tail) == |head|
  {
    var s := head + "1" + tail;
    if tail != "" {
      assert s[..|s| - 1] == head + "1" + tail[..|tail| - 1];
      LastOneFound(head, tail[..|tail| - 1]);
    }
  }

  lemma {:induction false} CharsFacts(v: seq<Value>)
    ensures var s := Chars(v);
      && (forall i :: 0 <= i < |s| ==> Printable(s[i]) && s[i] != '1' && !IsUpper(s[i]))
      && Ascii(s) && AllReversible(s) && ReverseAll(s) == v
  {
    forall i | 0 <= i < |v|
      ensures var c := CHARSET[v[i]]; Printable(c) && c != '1' && !IsUpper(c) && CharsetReverse(c) == v[i]
    {
      CharsetForward(v[i]);
      CharsetReversed(v[i]);
    }
  }

  lemma {:induction false} LowerAlready(s: string)
    requires forall i :: 0 <= i < |s| ==> !IsUpper(s[i])
    ensures LowerAll(s) == s
  {
  }

  lemma {:induction false} EncodedCharacters(hrp: string, v: seq<Value>)
    requires forall i :: 0 <= i < |hrp| ==> Printable(hrp[i]) && !IsUpper(hrp[i])
    ensures CharactersOk(hrp + "1" + Chars(v))
  {
    CharsFacts(v);
  }

  lemma {:induction false} VerifyChosen(e: Encoding, hrp: string, v: seq<Value>)
    requires Bytes(hrp) && |v| >= CHECKSUM && Verifies(e, hrp, v)
    ensures Verify(hrp, v) == Decoded(e, hrp, v[..|v| - CHECKSUM])
  {
    ConstantsDiffer();
  }

  /** Decoding what was encoded gives it back. */
  lemma {:induction false} RoundTrip(e: Encoding, hrp: string, values: seq<Value>)
    requires Legal(hrp, values)
    ensures Bytes(hrp) && Decode(Encode(e, hrp, values)) == Decoded(e, hrp, values)
  {
    var six := CreateChecksum(e, hrp, values);
    var v := values + six;
    var s := Encode(e, hrp, values);
    CharsFacts(v);
    EncodedCharacters(hrp, v);
    LastOneFound(hrp, Chars(v));
    assert s[..|hrp|] == hrp && s[|hrp| + 1..] == Chars(v);
    LowerAlready(hrp);
    ChecksumVerifies(e, hrp, values);
    VerifyChosen(e, hrp, v);
    assert v[..|v| - CHECKSUM] == values;
  }

  // ---------------------------------------------------------------- decoding, then encoding

  lemma {:induction false} CharsOfReversed(s: string)
    requires Ascii(s) && AllReversible(s)
    ensures Chars(ReverseAll(s)) == LowerAll(s)
  {
    forall i | 0 <= i < |s| ensures Chars(ReverseAll(s))[i] == LowerAll(s)[i] {
      CharsetBackward(s[i]);
    }
  }

  lemma {:induction false} LastOneIsOne(s: string)
    ensures LastOne(s) >= 0 ==> s[LastOne(s)] == '1'
  {
    if s != "" && s[|s| - 1] != '1' {
      LastOneIsOne(s[..|s| - 1]);
    }
  }

  /** Values accepted by VerifyChecksum are the returned ones with their checksum. */
  lemma {:induction false} VerifiedValues(hrp: string, v: seq<Value>)
    requires Bytes(hrp) && |v| >= CHECKSUM && Verify(hrp, v).Decoded?
    ensures var d := Verify(hrp, v); d.hrp == hrp && v == d.values + CreateChecksum(d.encoding, hrp, d.values)
  {
    var d := Verify(hrp, v);
    var six := v[|v| - CHECKSUM..];
    assert v == d.values + six;
    VerifiesUnique(d.encoding, hrp, d.values, six);
  }

  lemma {:induction false} LowerParts(s: string, pos: nat)
    requires pos < |s| && s[pos] == '1'
    ensures LowerAll(s) == LowerAll(s[..pos]) + "1" + LowerAll(s[pos + 1..])
  {
  }

  /** A string that decodes has a separator with a decodable part on either side. */
  lemma {:induction false} DecodedForm(s: string, pos: int, d: Decoded)
    requires pos == LastOne(s) && d == Decode(s) && d.Decoded?
    ensures 0 <= pos < |s| && s[pos] == '1' && |s[pos + 1..]| >= CHECKSUM
    ensures Ascii(s[..pos]) && Ascii(s[pos + 1..]) && AllReversible(s[pos + 1..])
    ensures d == DecodeParts(s[..pos], s[pos + 1..])
  {
    LastOneIsOne(s);
    AsciiParts(s, pos);
  }

  lemma {:induction false} PartsEncode(head: string, tail: string)
    requires Ascii(head) && |tail| >= CHECKSUM && Ascii(tail) && AllReversible(tail)
    requires DecodeParts(head, tail).Decoded?
    ensures var d := DecodeParts(head, tail);
      && d.hrp == LowerAll(head) && Bytes(d.hrp)
      && Encode(d.encoding, d.hrp, d.values) == LowerAll(head) + "1" + LowerAll(tail)
  {
    LowerBytes(head);
    VerifiedValues(LowerAll(head), ReverseAll(tail));
    CharsOfReversed(tail);
  }

  /** What is decoded encodes to the same string, in lower case. */
  lemma {:induction false} DecodedEncodes(s: string)
    requires Decode(s).Decoded?
    ensures var d := Decode(s); Bytes(d.hrp) && Encode(d.encoding, d.hrp, d.values) == LowerAll(s)
  {
    var pos := LastOne(s);
    DecodedForm(s, pos, Decode(s));
    var head, tail := s[..pos], s[pos + 1..];
    PartsEncode(head, tail);
    LowerParts(s, pos);
  }
}
