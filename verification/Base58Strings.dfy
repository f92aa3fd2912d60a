/**
 What Base58 encoding and decoding compute, and that they are inverse to each other, with and
 without the four bytes of checksum.
 */
module Base58Strings {
  import opened Radix

  // ---------------------------------------------------------------- the alphabet

  const DIGITS := "123456789"
  const CAPITALS1 := "ABCDEFGH"
  const CAPITALS2 := "JKLMN"
  const CAPITALS3 := "PQRSTUVWXYZ"
  const SMALL1 := "abcdefghijk"
  const SMALL2 := "mnopqrstuvwxyz"

  /** All letters and digits but 0, I, O and l. */
  const ALPHABET := DIGITS + CAPITALS1 + CAPITALS2 + CAPITALS3 + SMALL1 + SMALL2

  /** The code of a digit's character. */
  function Code(d: nat): nat {
    if d < 9 then 49 + d
    else if d < 17 then 56 + d
    else if d < 22 then 57 + d
    else if d < 33 then 58 + d
    else if d < 44 then 64 + d
    else 65 + d
  }

  lemma {:induction false} DigitCodes(i: nat)
    ensures i < 9 ==> DIGITS[i] as int == 49 + i
    ensures i < 8 ==> CAPITALS1[i] as int == 65 + i
    ensures i < 5 ==> CAPITALS2[i] as int == 74 + i
  {
  }

  lemma {:induction false} CapitalCodes(i: nat)
    ensures i < 11 ==> CAPITALS3[i] as int == 80 + i
  {
  }

  lemma {:induction false} SmallCodes(i: nat)
    ensures i < 11 ==> SMALL1[i] as int == 97 + i
  {
  }

  lemma {:induction false} LastCodes(i: nat)
    ensures i < 14 ==> SMALL2[i] as int == 109 + i
  {
  }

  lemma {:induction false} AlphabetCode(d: nat)
    requires d < 58
    ensures |ALPHABET| == 58 && ALPHABET[d] as int == Code(d)
  {
    if d < 9 {
      DigitCodes(d);
      assert ALPHABET[d] == DIGITS[d];
    } else if d < 17 {
      DigitCodes(d - 9);
      assert ALPHABET[d] == CAPITALS1[d - 9];
    } else if d < 22 {
      DigitCodes(d - 17);
      assert ALPHABET[d] == CAPITALS2[d - 17];
    } else if d < 33 {
      CapitalCodes(d - 22);
      assert ALPHABET[d] == CAPITALS3[d - 22];
    } else if d < 44 {
      SmallCodes(d - 33);
      assert ALPHABET[d] == SMALL1[d - 33];
    } else {
      LastCodes(d - 44);
      assert ALPHABET[d] == SMALL2[d - 44];
    }
  }

  /** The rows of the reverse table, sixteen characters each; other rows have no digits. */
  function MapRow(row: nat): (r: seq<int>)
    ensures |r| == 16
  {
    if row == 3 then [-1, 0, 1, 2, 3, 4, 5, 6, 7, 8, -1, -1, -1, -1, -1, -1]
    else if row == 4 then [-1, 9, 10, 11, 12, 13, 14, 15, 16, -1, 17, 18, 19, 20, 21, -1]
    else if row == 5 then [22, 23, 24, 25, 26, 27, 28, 29, 30, 31, 32, -1, -1, -1, -1, -1]
    else if row == 6 then [-1, 33, 34, 35, 36, 37, 38, 39, 40, 41, 42, 43, -1, 44, 45, 46]
    else if row == 7 then [47, 48, 49, 50, 51, 52, 53, 54, 55, 56, 57, -1, -1, -1, -1, -1]
    else [-1, -1, -1, -1, -1, -1, -1, -1, -1, -1, -1, -1, -1, -1, -1, -1]
  }

  function MapBase58(c: char): int {
    MapRow(c as int / 16)[c as int % 16]
  }

  lemma {:induction false} Row3(k: nat)
    requires k < 16
    ensures MapRow(3)[k] == if 1 <= k <= 9 then k - 1 else -1
  {
  }

  lemma {:induction false} Row4(k: nat)
    requires k < 16
    ensures MapRow(4)[k] == if 1 <= k <= 8 then k + 8 else if 10 <= k <= 14 then k + 7 else -1
  {
  }

  lemma {:induction false} Row5(k: nat)
    requires k < 16
    ensures MapRow(5)[k] == if k <= 10 then k + 22 else -1
  {
  }

  lemma {:induction false} Row6(k: nat)
    requires k < 16
    ensures MapRow(6)[k] == if 1 <= k <= 11 then k + 32 else if 13 <= k then k + 31 else -1
  {
  }

  lemma {:induction false} Row7(k: nat)
    requires k < 16
    ensures MapRow(7)[k] == if k <= 10 then k + 47 else -1
  {
  }

  lemma {:induction false} OtherRow(row: nat, k: nat)
    requires k < 16 && !(3 <= row <= 7)
    ensures MapRow(row)[k] == -1
  {
  }

  /** The table and the alphabet say the same. */
  lemma {:induction false} TableOf(row: nat, k: nat, d: nat)
    requires k < 16
    ensures MapRow(row)[k] == -1 || 0 <= MapRow(row)[k] < 58
    ensures d < 58 ==> (MapRow(row)[k] == d <==> 16 * row + k == Code(d))
  {
    if row == 3 { Row3(k); }
    else if row == 4 { Row4(k); }
    else if row == 5 { Row5(k); }
    else if row == 6 { Row6(k); }
    else if row == 7 { Row7(k); }
    else { OtherRow(row, k); }
  }

  predicate IsSpace(c: char) {
    c == ' ' || 9 <= c as int <= 13
  }

  /** A character stands for a digit exactly when it is the digit's character. */
  lemma {:induction false} MapIsInverse(c: char, d: nat)
    requires d < 58
    ensures MapBase58(c) == d <==> c == ALPHABET[d]
    ensures MapBase58(c) == -1 || 0 <= MapBase58(c) < 58
    ensures c == ALPHABET[d] ==> !IsSpace(c) && c as int != 0
  {
    TableOf(c as int / 16, c as int % 16, d);
    AlphabetCode(d);
  }

  // ---------------------------------------------------------------- sequences

  type Byte = b: nat | b < 256

  function Reverse(s: seq<nat>): (r: seq<nat>)
    ensures |r| == |s|
  {
    if s == [] then [] else [s[|s| - 1]] + Reverse(s[..|s| - 1])
  }

  lemma {:induction false} ReverseAt(s: seq<nat>, i: nat)
    requires i < |s|
    ensures Reverse(s)[i] == s[|s| - 1 - i]
  {
    if i > 0 {
      ReverseAt(s[..|s| - 1], i - 1);
    }
  }

  lemma {:induction false} ReverseTwice(s: seq<nat>)
    ensures Reverse(Reverse(s)) == s
  {
    forall i | 0 <= i < |s| ensures Reverse(Reverse(s))[i] == s[i] {
      ReverseAt(Reverse(s), i);
      ReverseAt(s, |s| - 1 - i);
    }
  }

  /** A number written with its highest digit first. */
  function Read(s: seq<nat>, base: nat): nat {
    Number(Reverse(s), base)
  }

  function Write(v: nat, base: nat): seq<nat>
    requires base >= 2
  {
    Reverse(Digits(v, base))
  }

  /** Digits below the base that do not start with a zero. */
  ghost predicate Plain(s: seq<nat>, base: nat) {
    AreDigits(s, base) && (s != [] ==> s[0] != 0)
  }

  lemma {:induction false} PlainReversed(s: seq<nat>, base: nat)
    ensures Plain(s, base) ==> Canonical(Reverse(s), base)
    ensures Canonical(s, base) ==> Plain(Reverse(s), base)
  {
    forall i | 0 <= i < |s| ensures Reverse(s)[i] == s[|s| - 1 - i] {
      ReverseAt(s, i);
    }
  }

  /** Writing what was read gives it back, and the other way round. */
  lemma {:induction false} WriteRead(s: seq<nat>, base: nat)
    requires base >= 2 && Plain(s, base)
    ensures Write(Read(s, base), base) == s
  {
    PlainReversed(s, base);
    DigitsUnique(Reverse(s), base);
    ReverseTwice(s);
  }

  lemma {:induction false} ReadWrite(v: nat, base: nat)
    requires base >= 2
    ensures Plain(Write(v, base), base) && Read(Write(v, base), base) == v
  {
    DigitsCanonical(v, base);
    PlainReversed(Digits(v, base), base);
    ReverseTwice(Digits(v, base));
  }

  // ---------------------------------------------------------------- encoding

  /** How many elements at the front are equal to a given one. */
  function Leading<T(==)>(s: seq<T>, x: T): (n: nat)
    ensures n <= |s|
  {
    if s == [] || s[0] != x then 0 else 1 + Leading(s[1..], x)
  }

  lemma {:induction false} LeadingFacts<T>(s: seq<T>, x: T)
    ensures forall i :: 0 <= i < Leading(s, x) ==> s[i] == x
    ensures Leading(s, x) < |s| ==> s[Leading(s, x)] != x
  {
    if s != [] && s[0] == x {
      LeadingFacts(s[1..], x);
      assert forall i :: 0 < i < |s| ==> s[i] == s[1..][i - 1];
    }
  }

  lemma {:induction false} LeadingIs<T>(s: seq<T>, x: T, n: nat)
    requires n <= |s| && (forall i :: 0 <= i < n ==> s[i] == x) && (n < |s| ==> s[n] != x)
    ensures Leading(s, x) == n
  {
    if n > 0 {
      LeadingIs(s[1..], x, n - 1);
    }
  }

  function Copies<T>(n: nat, x: T): seq<T> {
    seq(n, i => x)
  }

  function Chars(d: seq<nat>): string
    requires AreDigits(d, 58)
  {
    seq(|d|, i requires 0 <= i < |d| => ALPHABET[d[i]])
  }

  /** EncodeBase58. */
  function Encode(b: seq<Byte>): string {
    var z := Leading(b, 0);
    ReadWrite(Read(b[z..], 256), 58);
    Copies(z, '1') + Chars(Write(Read(b[z..], 256), 58))
  }

  // ---------------------------------------------------------------- decoding

  datatype Result = Invalid | Decoded(bytes: seq<nat>)

  function SkipSpaces(s: string): string {
    if s != "" && IsSpace(s[0]) then SkipSpaces(s[1..]) else s
  }

  /** The length of the text before the first space. */
  function WordLength(s: string): (n: nat)
    ensures n <= |s|
  {
    if s == "" || IsSpace(s[0]) then 0 else 1 + WordLength(s[1..])
  }

  predicate AllMapped(s: string) {
    forall i :: 0 <= i < |s| ==> MapBase58(s[i]) != -1
  }

  function Values(s: string): seq<nat>
    requires AllMapped(s)
  {
    seq(|s|, i requires 0 <= i < |s| => ValueOf(s[i]))
  }

  function ValueOf(c: char): (d: nat)
    requires MapBase58(c) != -1
    ensures d == MapBase58(c)
  {
    MapIsInverse(c, 0);
    MapBase58(c)
  }

  /** The bytes for some ones and the characters after them. */
  function DecodeWord(z: nat, word: string, maxLength: nat): Result {
    if !AllMapped(word) then Invalid
    else
      var bytes := Copies(z, 0) + Write(Read(Values(word), 58), 256);
      if |bytes| > maxLength then Invalid else Decoded(bytes)
  }

  /** DecodeBase58 for a text whose leading spaces are gone. */
  function DecodeText(t: string, maxLength: nat): Result {
    var z := Leading(t, '1');
    var u := t[z..];
    if SkipSpaces(u[WordLength(u)..]) != "" then Invalid else DecodeWord(z, u[..WordLength(u)], maxLength)
  }

  /** DecodeBase58. */
  function Decode(s: string, maxLength: nat): Result {
    if 0 as char in s then Invalid else DecodeText(SkipSpaces(s), maxLength)
  }

  // ---------------------------------------------------------------- round trips

  predicate NoSpaces(s: string) {
    forall i :: 0 <= i < |s| ==> !IsSpace(s[i])
  }

  lemma {:induction false} WholeWord(s: string)
    requires NoSpaces(s)
    ensures WordLength(s) == |s| && SkipSpaces(s) == s
  {
    if s != "" {
      WholeWord(s[1..]);
    }
  }

  lemma {:induction false} CharsFacts(d: seq<nat>)
    requires AreDigits(d, 58)
    ensures NoSpaces(Chars(d)) && 0 as char !in Chars(d) && AllMapped(Chars(d)) && Values(Chars(d)) == d
    ensures forall i :: 0 <= i < |d| ==> (Chars(d)[i] == '1' <==> d[i] == 0)
  {
    forall i | 0 <= i < |d|
      ensures !IsSpace(Chars(d)[i]) && Chars(d)[i] as int != 0 && MapBase58(Chars(d)[i]) == d[i]
              && (Chars(d)[i] == '1' <==> d[i] == 0)
    {
      MapIsInverse(Chars(d)[i], d[i]);
      MapIsInverse('1', 0);
      MapIsInverse('1', d[i]);
      assert ALPHABET[0] == '1';
    }
  }

  /** Decoding a text without spaces. */
  lemma {:induction false} DecodePlain(z: nat, word: string, maxLength: nat)
    requires NoSpaces(word) && 0 as char !in word && (word != "" ==> word[0] != '1')
    ensures Decode(Copies(z, '1') + word, maxLength) == DecodeWord(z, word, maxLength)
  {
    var s := Copies(z, '1') + word;
    LeadingIs(s, '1', z);
    WholeWord(s);
    WholeWord(word);
    assert s[z..] == word && word[..|word|] == word && word[|word|..] == "";
  }

  /** Encoding zeros and bytes that do not start with a zero. */
  lemma {:induction false} EncodePlain(z: nat, rest: seq<Byte>, b: seq<Byte>)
    requires b == Copies(z, 0) + rest && (rest != [] ==> rest[0] != 0)
    ensures AreDigits(Write(Read(rest, 256), 58), 58)
    ensures Encode(b) == Copies(z, '1') + Chars(Write(Read(rest, 256), 58))
  {
    LeadingIs(b, 0, z);
    assert b[z..] == rest;
    ReadWrite(Read(rest, 256), 58);
  }

  lemma {:induction false} SplitZeros(b: seq<Byte>) returns (z: nat, rest: seq<Byte>)
    ensures b == Copies(z, 0) + rest && Plain(rest, 256)
  {
    z := Leading(b, 0);
    rest := b[z..];
    LeadingFacts(b, 0);
  }

  /** Decoding what was encoded gives it back, if it may be that long. */
  lemma {:induction false} DecodeEncoded(b: seq<Byte>, maxLength: nat)
    requires |b| <= maxLength
    ensures Decode(Encode(b), maxLength) == Decoded(b)
  {
    var z, rest := SplitZeros(b);
    EncodePlain(z, rest, b);
    var d := Write(Read(rest, 256), 58);
    WordDecodes(z, rest, d, b, maxLength);
    DecodePlain(z, Chars(d), maxLength);
  }

  lemma {:induction false} WordDecodes(z: nat, rest: seq<nat>, d: seq<nat>, b: seq<nat>, maxLength: nat)
    requires Plain(rest, 256) && d == Write(Read(rest, 256), 58) && b == Copies(z, 0) + rest && |b| <= maxLength
    ensures AreDigits(d, 58) && NoSpaces(Chars(d)) && 0 as char !in Chars(d) && (d != [] ==> Chars(d)[0] != '1')
    ensures DecodeWord(z, Chars(d), maxLength) == Decoded(b)
  {
    ReadWrite(Read(rest, 256), 58);
    CharsFacts(d);
    WriteRead(rest, 256);
  }

  lemma {:induction false} MappedChars(s: string)
    requires AllMapped(s)
    ensures AreDigits(Values(s), 58) && Chars(Values(s)) == s
    ensures forall i :: 0 <= i < |s| ==> (s[i] == '1' <==> Values(s)[i] == 0)
  {
    assert ALPHABET[0] == '1';
    forall i | 0 <= i < |s| ensures Values(s)[i] < 58 && ALPHABET[Values(s)[i]] == s[i]
      && (s[i] == '1' <==> Values(s)[i] == 0) {
      MapIsInverse(s[i], 0);
      MapIsInverse(s[i], MapBase58(s[i]));
    }
  }

  lemma {:induction false} SplitOnes(s: string) returns (z: nat, word: string)
    requires NoSpaces(s)
    ensures s == Copies(z, '1') + word && NoSpaces(word) && (word != "" ==> word[0] != '1')
    ensures forall c :: c in word ==> c in s
  {
    z := Leading(s, '1');
    word := s[z..];
    LeadingFacts(s, '1');
  }

  lemma {:induction false} EncodeWord(z: nat, word: string, maxLength: nat)
    requires DecodeWord(z, word, maxLength).Decoded? && (word != "" ==> word[0] != '1')
    ensures var b := DecodeWord(z, word, maxLength).bytes;
      (forall i :: 0 <= i < |b| ==> b[i] < 256) && |b| <= maxLength && Encode(b) == Copies(z, '1') + word
  {
    MappedChars(word);
    var v := Read(Values(word), 58);
    var rest := Write(v, 256);
    ReadWrite(v, 256);
    var b := Copies(z, 0) + rest;
    EncodePlain(z, rest, b);
    WriteRead(Values(word), 58);
  }

  /** A text without spaces that decodes is the encoding of the result. */
  lemma {:induction false} EncodeDecoded(s: string, maxLength: nat)
    requires NoSpaces(s) && Decode(s, maxLength).Decoded?
    ensures var b := Decode(s, maxLength).bytes;
      (forall i :: 0 <= i < |b| ==> b[i] < 256) && |b| <= maxLength && Encode(b) == s
  {
    var z, word := SplitOnes(s);
    DecodePlain(z, word, maxLength);
    EncodeWord(z, word, maxLength);
  }

  // ---------------------------------------------------------------- spaces around a text

  /** The six characters of white space: blank, tab, line feed, vertical tab, form feed, carriage return. */
  lemma {:induction false} SpacesAre(c: char)
    ensures IsSpace(c) <==> c in [' ', '\t', '\n', 11 as char, 12 as char, '\r']
  {
  }

  predicate AllSpaces(s: string) {
    forall i :: 0 <= i < |s| ==> IsSpace(s[i])
  }

  lemma {:induction false} SkipsSpaces(before: string, rest: string)
    requires AllSpaces(before)
    ensures SkipSpaces(before + rest) == SkipSpaces(rest)
  {
    if before == "" {
      assert before + rest == rest;
    } else {
      SkipsSpaces(before[1..], rest);
      assert (before + rest)[1..] == before[1..] + rest;
    }
  }

  lemma {:induction false} OnesThenSpaces(s: string, after: string)
    requires AllSpaces(after)
    ensures Leading(s + after, '1') == Leading(s, '1')
  {
    if s == "" {
      assert s + after == after;
    } else if s[0] == '1' {
      OnesThenSpaces(s[1..], after);
      assert (s + after)[1..] == s[1..] + after;
    }
  }

  lemma {:induction false} WordThenSpaces(s: string, after: string)
    requires NoSpaces(s) && AllSpaces(after)
    ensures WordLength(s + after) == |s|
  {
    if s == "" {
      assert s + after == after;
    } else {
      WordThenSpaces(s[1..], after);
      assert (s + after)[1..] == s[1..] + after;
    }
  }

  /** Spaces around a text do not matter. */
  lemma {:induction false} SpacesIgnored(before: string, s: string, after: string, maxLength: nat)
    requires AllSpaces(before) && NoSpaces(s) && AllSpaces(after)
    ensures Decode(before + s + after, maxLength) == Decode(s, maxLength)
  {
    assert before + s + after == before + (s + after);
    SkipsSpaces(before, s + after);
    SkipsSpaces(after, "");
    assert after + "" == after;
    WholeWord(s);
    if s == "" {
      assert s + after == after;
    } else {
      TextThenSpaces(s, after, maxLength);
    }
    assert 0 as char in before + s + after <==> 0 as char in s;
  }

  lemma {:induction false} TextThenSpaces(s: string, after: string, maxLength: nat)
    requires NoSpaces(s) && AllSpaces(after) && SkipSpaces(after) == ""
    ensures DecodeText(s + after, maxLength) == DecodeText(s, maxLength)
  {
    var z := Leading(s, '1');
    var word := s[z..];
    OnesThenSpaces(s, after);
    assert (s + after)[z..] == word + after;
    WordThenSpaces(word, after);
    WholeWord(word);
    assert (word + after)[..|word|] == word && (word + after)[|word|..] == after;
    assert word[..|word|] == word && word[|word|..] == "";
  }

  lemma {:induction false} SkippedAre(t: string)
    ensures |SkipSpaces(t)| <= |t| && t[|t| - |SkipSpaces(t)|..] == SkipSpaces(t)
    ensures AllSpaces(t[..|t| - |SkipSpaces(t)|])
  {
    if t != "" && IsSpace(t[0]) {
      SkippedAre(t[1..]);
      var n := |t| - |SkipSpaces(t)|;
      assert t[..n] == [t[0]] + t[1..][..n - 1];
      assert t[n..] == t[1..][n - 1..];
    }
  }

  lemma {:induction false} WordIs(u: string)
    ensures NoSpaces(u[..WordLength(u)])
  {
    if u != "" && !IsSpace(u[0]) {
      WordIs(u[1..]);
      assert u[..WordLength(u)] == [u[0]] + u[1..][..WordLength(u) - 1];
    }
  }

  lemma {:induction false} OnesAre(text: string, ones: string)
    requires ones == text[..Leading(text, '1')]
    ensures NoSpaces(ones)
  {
    LeadingFacts(text, '1');
  }

  lemma {:induction false} NoSpacesJoined(a: string, b: string)
    requires NoSpaces(a) && NoSpaces(b)
    ensures NoSpaces(a + b)
  {
  }

  lemma {:induction false} NothingButSpaces(after: string)
    requires SkipSpaces(after) == ""
    ensures AllSpaces(after)
  {
    SkippedAre(after);
    assert after[..|after| - 0] == after;
  }

  /** The first word of a text, with what stands after it. */
  lemma {:induction false} FirstWord(text: string, ones: string, u: string, word: string, after: string)
    requires ones == text[..Leading(text, '1')] && u == text[Leading(text, '1')..]
    requires word == u[..WordLength(u)] && after == u[WordLength(u)..] && SkipSpaces(after) == ""
    ensures text == ones + word + after && NoSpaces(ones + word) && AllSpaces(after)
  {
    OnesAre(text, ones);
    WordIs(u);
    NoSpacesJoined(ones, word);
    NothingButSpaces(after);
  }

  lemma {:induction false} TextWord(text: string, maxLength: nat) returns (s: string, after: string)
    requires DecodeText(text, maxLength).Decoded?
    ensures text == s + after && NoSpaces(s) && AllSpaces(after)
  {
    var ones, u := text[..Leading(text, '1')], text[Leading(text, '1')..];
    var word := u[..WordLength(u)];
    after := u[WordLength(u)..];
    s := ones + word;
    FirstWord(text, ones, u, word, after);
  }

  /** A text that decodes is the encoding of the result with spaces around it. */
  lemma {:induction false} DecodedText(t: string, maxLength: nat) returns (before: string, s: string, after: string)
    requires Decode(t, maxLength).Decoded?
    ensures t == before + s + after && AllSpaces(before) && NoSpaces(s) && AllSpaces(after)
    ensures var b := Decode(t, maxLength).bytes;
      (forall i :: 0 <= i < |b| ==> b[i] < 256) && |b| <= maxLength && Encode(b) == s
  {
    var text := SkipSpaces(t);
    SkippedAre(t);
    before := t[..|t| - |text|];
    s, after := TextWord(text, maxLength);
    assert t == before + text;
    assert t == before + s + after;
    SpacesIgnored(before, s, after, maxLength);
    EncodeDecoded(s, maxLength);
  }

  // ---------------------------------------------------------------- with a checksum

  type Check = c: seq<nat> | |c| == 4 && forall i :: 0 <= i < 4 ==> c[i] < 256 witness [0, 0, 0, 0]

  /** EncodeBase58Check; the first four bytes of the hash are a parameter. */
  function EncodeCheck(b: seq<Byte>, hash: seq<nat> -> Check): string {
    Encode(b + hash(b))
  }

  /** DecodeBase58Check; the limit is not increased beyond what an int can hold. */
  function DecodeCheck(s: string, maxLength: nat, hash: seq<nat> -> Check): Result {
    match Decode(s, if maxLength > 0x7fff_ffff - 4 then 0x7fff_ffff else maxLength + 4)
    case Invalid => Invalid
    case Decoded(bytes) =>
      if |bytes| < 4 then Invalid
      else
        var b := bytes[..|bytes| - 4];
        if hash(b) == bytes[|bytes| - 4..] then Decoded(b) else Invalid
  }

  lemma {:induction false} DecodeEncodedCheck(b: seq<Byte>, maxLength: nat, hash: seq<nat> -> Check)
    requires |b| <= maxLength && |b| + 4 <= 0x7fff_ffff
    ensures DecodeCheck(EncodeCheck(b, hash), maxLength, hash) == Decoded(b)
  {
    var full := b + hash(b);
    DecodeEncoded(full, if maxLength > 0x7fff_ffff - 4 then 0x7fff_ffff else maxLength + 4);
    assert full[..|full| - 4] == b && full[|full| - 4..] == hash(b);
  }

  lemma {:induction false} EncodeDecodedCheck(s: string, maxLength: nat, hash: seq<nat> -> Check)
    requires NoSpaces(s) && DecodeCheck(s, maxLength, hash).Decoded?
    ensures var b := DecodeCheck(s, maxLength, hash).bytes;
      (forall i :: 0 <= i < |b| ==> b[i] < 256) && |b| <= maxLength && EncodeCheck(b, hash) == s
  {
    var limit := if maxLength > 0x7fff_ffff - 4 then 0x7fff_ffff else maxLength + 4;
    EncodeDecoded(s, limit);
    var full := Decode(s, limit).bytes;
    assert full == full[..|full| - 4] + full[|full| - 4..];
  }

  /** What the limit is for the bytes with their checksum. */
  function CheckedLimit(maxLength: nat): nat {
    if maxLength > 0x7fff_ffff - 4 then 0x7fff_ffff else maxLength + 4
  }

  /** Spaces around a text with a checksum do not matter either. */
  lemma {:induction false} SpacesIgnoredCheck(
    before: string, s: string, after: string, maxLength: nat, hash: seq<nat> -> Check)
    requires AllSpaces(before) && NoSpaces(s) && AllSpaces(after)
    ensures DecodeCheck(before + s + after, maxLength, hash) == DecodeCheck(s, maxLength, hash)
  {
    SpacesIgnored(before, s, after, CheckedLimit(maxLength));
  }

  /** Whatever decodes is the encoding of the result, checksum included, with spaces around it. */
  lemma {:induction false} DecodedTextCheck(t: string, maxLength: nat, hash: seq<nat> -> Check)
    returns (before: string, s: string, after: string)
    requires DecodeCheck(t, maxLength, hash).Decoded?
    ensures t == before + s + after && AllSpaces(before) && NoSpaces(s) && AllSpaces(after)
    ensures var b := DecodeCheck(t, maxLength, hash).bytes;
      (forall i :: 0 <= i < |b| ==> b[i] < 256) && |b| <= maxLength && EncodeCheck(b, hash) == s
  {
    before, s, after := DecodedText(t, CheckedLimit(maxLength));
    SpacesIgnoredCheck(before, s, after, maxLength, hash);
    EncodeDecodedCheck(s, maxLength, hash);
  }
}
