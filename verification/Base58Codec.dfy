/**
 Base58 as the node computes it: a buffer of digits that is multiplied and added to in place,
 one byte or character at a time. The buffers are held here with their last element first, the
 order in which the loops go over them.
 */
module Base58Codec {
  import opened Numbers
  import opened Radix
  import opened Base58
  import opened Base58Strings

  /** A buffer that holds the digits of a number, and zeros above them. */
  ghost predicate Holds(s: seq<nat>, length: nat, v: nat, base: nat)
    requires base >= 2
  {
    length <= |s| && s[..length] == Digits(v, base) && forall k :: length <= k < |s| ==> s[k] == 0
  }

  /** The digits of d from i on. */
  function From(d: seq<nat>, i: nat): seq<nat> {
    if i < |d| then d[i..] else []
  }

  /** The inner loop after i digits: those are final, and the others are still to be multiplied. */
  ghost predicate Carrying(s: seq<nat>, d: seq<nat>, i: nat, carry: nat, factor: nat, base: nat, goal: seq<nat>)
    requires base >= 2
  {
    var sized := i <= |s| && |d| <= |s|;
    && sized && (forall k :: i <= k < |s| ==> s[k] == if k < |d| then d[k] else 0)
    && s[..i] + MulAdd(From(d, i), factor, carry, base) == goal
  }

  lemma {:induction false} CarryRound(
    s: seq<nat>, d: seq<nat>, i: nat, carry: nat, factor: nat, base: nat, goal: seq<nat>, n: nat, q: nat, r: nat)
    requires base >= 2 && i < |s| && Carrying(s, d, i, carry, factor, base, goal) && (carry != 0 || i < |d|)
    requires n == carry + factor * s[i] && q == n / base && r == n % base
    ensures Carrying(s[i := r], d, i + 1, q, factor, base, goal)
  {
    MulAddHead(From(d, i), factor, carry, base, n);
    assert (if From(d, i) == [] then [] else From(d, i)[1..]) == From(d, i + 1);
    Shift(s, i, r, MulAdd(From(d, i + 1), factor, q, base));
  }

  lemma {:induction false} Shift(s: seq<nat>, i: nat, r: nat, rest: seq<nat>)
    requires i < |s|
    ensures s[..i] + ([r] + rest) == s[i := r][..i + 1] + rest
  {
    assert s[i := r][..i + 1] == s[..i] + [r];
  }

  lemma {:induction false} CarryDone(
    s: seq<nat>, d: seq<nat>, i: nat, carry: nat, factor: nat, base: nat, goal: seq<nat>)
    requires base >= 2 && Carrying(s, d, i, carry, factor, base, goal) && |goal| <= |s|
    requires i == |s| || (carry == 0 && i >= |d|)
    ensures carry == 0 && s[..i] == goal
  {
    assert From(d, i) == [];
    assert carry > 0 ==> |MulAdd([], factor, carry, base)| > 0;
    assert carry == 0 ==> MulAdd([], factor, carry, base) == [];
  }

  method CarryInto(buf: array<nat>, i: nat, base: nat, factor: nat, carry: nat, ghost d: seq<nat>, ghost goal: seq<nat>)
    returns (c: nat)
    requires base >= 2 && i < buf.Length && (carry != 0 || i < |d|)
    requires Carrying(buf[..], d, i, carry, factor, base, goal)
    modifies buf
    ensures Carrying(buf[..], d, i + 1, c, factor, base, goal)
  {
    ghost var s := buf[..];
    var n := carry + factor * buf[i];
    DivMod(n, base);
    CarryRound(s, d, i, carry, factor, base, goal, n, n / base, n % base);
    buf[i] := n % base;
    assert buf[..] == s[i := buf[i]];
    c := n / base;
  }

  /** "buffer = buffer * factor + carry"; the assertion that no carry is left holds. */
  method MulAddInto(buf: array<nat>, base: nat, factor: nat, c: nat, length: nat, ghost v: nat, ghost w: nat)
    returns (newLength: nat)
    requires base >= 2 && factor >= 1 && Holds(buf[..], length, v, base) && w == factor * v + c
    requires w < Power(base, buf.Length)
    modifies buf
    ensures Holds(buf[..], newLength, w, base)
  {
    ghost var d := Digits(v, base);
    ghost var goal := Digits(w, base);
    MulAddIsDigits(v, factor, c, base);
    DigitsShort(w, base, buf.Length);
    var carry: nat, i: nat := c, 0;
    StartCarrying(buf[..], d, c, factor, base, goal);
    while (carry != 0 || i < length) && i < buf.Length
      invariant 0 <= i <= buf.Length && Carrying(buf[..], d, i, carry, factor, base, goal)
      decreases buf.Length - i
    {
      carry := CarryInto(buf, i, base, factor, carry, d, goal);
      i := i + 1;
    }
    CarryDone(buf[..], d, i, carry, factor, base, goal);
    assert carry == 0;
    newLength := i;
  }

  lemma {:induction false} StartCarrying(s: seq<nat>, d: seq<nat>, c: nat, factor: nat, base: nat, goal: seq<nat>)
    requires base >= 2 && |d| <= |s| && s[..|d|] == d && forall k :: |d| <= k < |s| ==> s[k] == 0
    requires goal == MulAdd(d, factor, c, base)
    ensures Carrying(s, d, 0, c, factor, base, goal)
  {
    assert From(d, 0) == d;
    assert s[..0] == [];
    forall k | 0 <= k < |d| ensures s[k] == d[k] {
      assert s[..|d|][k] == d[k];
    }
  }

  // ---------------------------------------------------------------- EncodeBase58

  lemma {:induction false} ReadNext(s: seq<nat>, k: nat, base: nat)
    requires k < |s|
    ensures Read(s[..k + 1], base) == base * Read(s[..k], base) + s[k]
  {
    assert s[..k + 1][..k] == s[..k];
    assert Reverse(s[..k + 1])[1..] == Reverse(s[..k]);
  }

  lemma {:induction false} ReadBound(s: seq<nat>, k: nat, base: nat)
    requires base >= 2 && AreDigits(s, base) && k <= |s|
    ensures Read(s[..k], base) < Power(base, |s|)
  {
    forall i | 0 <= i < k ensures Reverse(s[..k])[i] < base {
      ReverseAt(s[..k], i);
    }
    NumberBound(Reverse(s[..k]), base);
    PowerMono(base, k, |s|);
  }

  /** The digits of some bytes in another base. */
  method Convert(input: seq<nat>, from: nat, base: nat, size: nat) returns (digits: seq<nat>)
    requires from >= 2 && base >= 2 && AreDigits(input, from) && Power(from, |input|) <= Power(base, size)
    ensures digits == Digits(Read(input, from), base)
  {
    var buf := new nat[size](i => 0);
    var length: nat := 0;
    ghost var v: nat := 0;
    assert input[..0] == [];
    for k := 0 to |input|
      invariant Holds(buf[..], length, v, base) && v == Read(input[..k], from)
    {
      ReadNext(input, k, from);
      ReadBound(input, k + 1, from);
      length := MulAddInto(buf, base, from, input[k], length, v, Read(input[..k + 1], from));
      v := Read(input[..k + 1], from);
    }
    assert input[..|input|] == input;
    digits := buf[..length];
  }

  method ReverseOf(s: seq<nat>) returns (r: seq<nat>)
    ensures r == Reverse(s)
  {
    r := [];
    for k := 0 to |s|
      invariant r == Reverse(s[..k])
    {
      assert s[..k + 1][..k] == s[..k];
      r := [s[k]] + r;
    }
    assert s[..|s|] == s;
  }

  method CountLeading<T(==)>(s: seq<T>, x: T) returns (n: nat)
    ensures n == Leading(s, x)
  {
    n := 0;
    while n < |s| && s[n] == x
      invariant n <= |s| && Leading(s, x) == n + Leading(s[n..], x)
    {
      assert s[n..][1..] == s[n + 1..];
      n := n + 1;
    }
  }

  method WriteChars(d: seq<nat>) returns (s: string)
    requires AreDigits(d, 58)
    ensures s == Chars(d)
  {
    s := "";
    for k := 0 to |d|
      invariant |s| == k && forall i :: 0 <= i < k ==> s[i] == ALPHABET[d[i]]
    {
      s := s + [ALPHABET[d[k]]];
    }
  }

  /** EncodeBase58. */
  method EncodeBase58(input: seq<Byte>) returns (s: string)
    ensures s == Encode(input)
  {
    var zeroes := CountLeading(input, 0);
    var rest := input[zeroes..];
    Fits58(|rest|);
    var digits := Convert(rest, 256, 58, Room58(|rest|));
    var d := ReverseOf(digits);
    ReadWrite(Read(rest, 256), 58);
    var chars := WriteChars(d);
    s := Copies(zeroes, '1') + chars;
  }

  // ---------------------------------------------------------------- DecodeBase58

  /** Reading more digits gives no smaller number, and no fewer digits in another base. */
  lemma {:induction false} ReadGrows(s: seq<nat>, k: nat, from: nat)
    requires k <= |s| && from >= 1
    ensures Read(s[..k], from) <= Read(s, from)
    decreases |s| - k
  {
    if k < |s| {
      ReadGrows(s, k + 1, from);
      ReadNext(s, k, from);
      AtLeast(from, Read(s[..k], from));
    } else {
      assert s[..k] == s;
    }
  }

  lemma {:induction false} AtLeast(f: nat, v: nat)
    requires f >= 1
    ensures f * v >= v
  {
  }

  lemma {:induction false} DigitsGrow(v: nat, w: nat, base: nat)
    requires base >= 2 && v <= w
    ensures |Digits(v, base)| <= |Digits(w, base)|
  {
    if v > 0 {
      DivLess(v, base);
      DivLess(w, base);
      DivGrows(v, w, base);
      DigitsGrow(v / base, w / base, base);
    }
  }

  lemma {:induction false} DivGrows(v: nat, w: nat, base: nat)
    requires base >= 2 && v <= w
    ensures v / base <= w / base
  {
    DivMod(v, base);
    DivMod(w, base);
    if v / base > w / base {
      MulMonoLeft(base, w / base + 1, v / base);
    }
  }

  /** The text is not the encoding of anything short enough. */
  lemma {:induction false} TooLong(z: nat, word: string, k: nat, maxLength: nat)
    requires k <= |word| && AllMapped(word[..k])
    requires |Digits(Read(Values(word[..k]), 58), 256)| + z > maxLength
    ensures DecodeWord(z, word, maxLength) == Invalid
  {
    if AllMapped(word) {
      assert Values(word)[..k] == Values(word[..k]);
      ReadGrows(Values(word), k, 58);
      DigitsGrow(Read(Values(word[..k]), 58), Read(Values(word), 58), 256);
    }
  }

  /** The first k characters have been read into the buffer. */
  ghost predicate Scanned(s: seq<nat>, length: nat, word: string, k: nat) {
    var inside := k <= |word|;
    inside && AllMapped(word[..k]) && Holds(s, length, Read(Values(word[..k]), 58), 256)
  }

  /** One character of the word. */
  method ScanChar(b256: array<nat>, length: nat, word: string, k: nat) returns (ok: bool, newLength: nat)
    requires k < |word| && Power(58, |word|) <= Power(256, b256.Length) && Scanned(b256[..], length, word, k)
    modifies b256
    ensures ok == (MapBase58(word[k]) != -1)
    ensures ok ==> Scanned(b256[..], newLength, word, k + 1)
  {
    var carry := MapBase58(word[k]);
    if carry == -1 { return false, length; }
    ghost var v := Read(Values(word[..k]), 58);
    ghost var w := NextValue(word, k, v);
    NextBound(word, k, w, b256.Length);
    ok := true;
    newLength := MulAddInto(b256, 256, 58, carry, length, v, w);
  }

  lemma {:induction false} ScanStarts(s: seq<nat>, word: string)
    requires forall k :: 0 <= k < |s| ==> s[k] == 0
    ensures Scanned(s, 0, word, 0)
  {
  }

  lemma {:induction false} ScanFails(z: nat, word: string, k: nat, maxLength: nat)
    requires k < |word| && MapBase58(word[k]) == -1
    ensures DecodeWord(z, word, maxLength) == Invalid
  {
  }

  lemma {:induction false} ScanTooLong(s: seq<nat>, length: nat, z: nat, word: string, k: nat, maxLength: nat)
    requires Scanned(s, length, word, k) && length + z > maxLength
    ensures DecodeWord(z, word, maxLength) == Invalid
  {
    TooLong(z, word, k, maxLength);
  }

  lemma {:induction false} ScanEnds(s: seq<nat>, length: nat, z: nat, word: string, maxLength: nat)
    requires Scanned(s, length, word, |word|) && length + z <= maxLength
    ensures DecodeWord(z, word, maxLength) == Decoded(Copies(z, 0) + Reverse(s[..length]))
  {
    assert word[..|word|] == word;
  }

  /** The loop of DecodeBase58 over the characters of the word, and the result it leads to. */
  method ScanWord(word: string, size: nat, zeroes: nat, maxLength: nat) returns (r: Result)
    requires Power(58, |word|) <= Power(256, size) && zeroes <= maxLength
    ensures r == DecodeWord(zeroes, word, maxLength)
  {
    var b256 := new nat[size](i => 0);
    var length: nat := 0;
    ScanStarts(b256[..], word);
    for k := 0 to |word|
      invariant Scanned(b256[..], length, word, k) && length + zeroes <= maxLength
    {
      var ok;
      ok, length := ScanChar(b256, length, word, k);
      if !ok {
        ScanFails(zeroes, word, k, maxLength);
        return Invalid;
      }
      if length + zeroes > maxLength {
        ScanTooLong(b256[..], length, zeroes, word, k + 1, maxLength);
        return Invalid;
      }
    }
    ScanEnds(b256[..], length, zeroes, word, maxLength);
    assert b256[..][..length] == b256[..length];
    var bytes := ReverseOf(b256[..length]);
    return Decoded(Copies(zeroes, 0) + bytes);
  }

  lemma {:induction false} PrefixMapped(word: string, k: nat)
    requires k < |word| && AllMapped(word[..k]) && MapBase58(word[k]) != -1
    ensures AllMapped(word[..k + 1]) && Values(word[..k + 1]) == Values(word[..k]) + [ValueOf(word[k])]
  {
    assert word[..k + 1] == word[..k] + [word[k]];
  }

  lemma {:induction false} NextValue(word: string, k: nat, v: nat) returns (w: nat)
    requires k < |word| && AllMapped(word[..k]) && MapBase58(word[k]) != -1 && v == Read(Values(word[..k]), 58)
    ensures 0 <= MapBase58(word[k]) && w == 58 * v + MapBase58(word[k])
    ensures AllMapped(word[..k + 1]) && w == Read(Values(word[..k + 1]), 58)
  {
    PrefixMapped(word, k);
    w := ReadAppend(Values(word[..k]), ValueOf(word[k]), 58);
  }

  lemma {:induction false} ReadAppend(s: seq<nat>, x: nat, base: nat) returns (w: nat)
    ensures w == Read(s + [x], base) == base * Read(s, base) + x
  {
    ReadNext(s + [x], |s|, base);
    assert (s + [x])[..|s|] == s && (s + [x])[..|s| + 1] == s + [x];
    w := Read(s + [x], base);
  }

  lemma {:induction false} NextBound(word: string, k: nat, w: nat, size: nat)
    requires k < |word| && AllMapped(word[..k + 1]) && w == Read(Values(word[..k + 1]), 58)
    requires Power(58, |word|) <= Power(256, size)
    ensures w < Power(256, size)
  {
    var all := Values(word[..k + 1]);
    MappedChars(word[..k + 1]);
    ReadBound(all, k + 1, 58);
    assert all[..k + 1] == all;
    PowerMono(58, k + 1, |word|);
  }

  method SkipLeadingSpaces(s: string) returns (t: string)
    ensures t == SkipSpaces(s)
  {
    var k := 0;
    while k < |s| && IsSpace(s[k])
      invariant k <= |s| && SkipSpaces(s) == SkipSpaces(s[k..])
    {
      assert s[k..][1..] == s[k + 1..];
      k := k + 1;
    }
    t := s[k..];
  }

  method MeasureWord(s: string) returns (n: nat)
    ensures n == WordLength(s)
  {
    n := 0;
    while n < |s| && !IsSpace(s[n])
      invariant n <= |s| && WordLength(s) == n + WordLength(s[n..])
    {
      assert s[n..][1..] == s[n + 1..];
      n := n + 1;
    }
  }

  /** DecodeBase58. */
  method DecodeBase58(s: string, maxLength: nat) returns (r: Result)
    ensures r == Decode(s, maxLength)
  {
    if 0 as char in s { return Invalid; }
    var t := SkipLeadingSpaces(s);
    var zeroes := CountLeading(t, '1');
    var u := t[zeroes..];
    var n := MeasureWord(u);
    if zeroes > maxLength {
      TooManyOnes(zeroes, u[..n], maxLength);
      return Invalid;
    }
    Fits256(|u|);
    PowerMono(58, n, |u|);
    r := ScanWord(u[..n], Room256(|u|), zeroes, maxLength);
    var rest := SkipLeadingSpaces(u[n..]);
    if rest != "" { return Invalid; }
  }

  lemma {:induction false} TooManyOnes(zeroes: nat, word: string, maxLength: nat)
    requires zeroes > maxLength
    ensures DecodeWord(zeroes, word, maxLength) == Invalid
  {
  }
}
