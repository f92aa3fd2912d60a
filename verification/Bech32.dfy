/**
 Bech32 and Bech32m strings (BIP 173, BIP 350): a human-readable part, the separator '1', and
 five-bit values with a six-symbol checksum. Encoding and decoding are inverse to each other,
 and a burst of errors within six symbols of a valid string is always noticed.
 */
module Bech32 {
  import opened Bech32Checksum
  import opened Bech32Words

  datatype Encoding = Bech32 | Bech32m

  datatype Decoded = Invalid | Decoded(encoding: Encoding, hrp: string, values: seq<Value>)

  type Value = n: nat | n < 32

  const MAX_LENGTH := 90
  const CHARSET := "qpzry9x8gf2tvdw0s3jn54khce6mua7l"

  /** The rows of the reverse table, sixteen characters each. */
  function ReverseRow(row: nat): (r: seq<int>)
    requires row < 8
    ensures |r| == 16
  {
    if row == 3 then [15, -1, 10, 17, 21, 20, 26, 30, 7, 5, -1, -1, -1, -1, -1, -1]
    else if row == 4 || row == 6 then [-1, 29, -1, 24, 13, 25, 9, 8, 23, -1, 18, 22, 31, 27, 19, -1]
    else if row == 5 || row == 7 then [1, 0, 3, 16, 11, 28, 12, 14, 6, 4, 2, -1, -1, -1, -1, -1]
    else [-1, -1, -1, -1, -1, -1, -1, -1, -1, -1, -1, -1, -1, -1, -1, -1]
  }

  function CharsetReverse(c: char): int
    requires c as int < 128
  {
    ReverseRow(c as int / 16)[c as int % 16]
  }

  function EncodingConstant(e: Encoding): Word {
    if e == Bech32 then 1 else 0x2bc830a3
  }

  // ---------------------------------------------------------------- values and symbols

  function Sym(n: Value): Symbol {
    [n % 2 == 1, n / 2 % 2 == 1, n / 4 % 2 == 1, n / 8 % 2 == 1, n / 16 % 2 == 1]
  }

  function One(b: bool): nat {
    if b then 1 else 0
  }

  function Num(s: Symbol): Value {
    One(s[0]) + 2 * One(s[1]) + 4 * One(s[2]) + 8 * One(s[3]) + 16 * One(s[4])
  }

  lemma {:induction false} NumSym(n: Value)
    ensures Num(Sym(n)) == n
  {
  }

  lemma {:induction false} SymNum(s: Symbol)
    ensures Sym(Num(s)) == s
  {
  }

  lemma {:induction false} SymWord(n: Value)
    ensures n as bv32 < 32 && ToSymbol(n as bv32) == Sym(n)
  {
    var w := n as bv32;
    assert ToSymbol(w)[0] == (w & 1 != 0) && ToSymbol(w)[1] == (w & 2 != 0) && ToSymbol(w)[2] == (w & 4 != 0)
           && ToSymbol(w)[3] == (w & 8 != 0) && ToSymbol(w)[4] == (w & 16 != 0);
  }

  function Syms(v: seq<Value>): seq<Symbol> {
    seq(|v|, i requires 0 <= i < |v| => Sym(v[i]))
  }

  function Nums(v: seq<Symbol>): seq<Value> {
    seq(|v|, i requires 0 <= i < |v| => Num(v[i]))
  }

  lemma {:induction false} SymsNums(v: seq<Symbol>)
    ensures Syms(Nums(v)) == v
  {
    forall i | 0 <= i < |v| ensures Syms(Nums(v))[i] == v[i] {
      SymNum(v[i]);
    }
  }

  lemma {:induction false} NumsSyms(v: seq<Value>)
    ensures Nums(Syms(v)) == v
  {
    forall i | 0 <= i < |v| ensures Nums(Syms(v))[i] == v[i] {
      NumSym(v[i]);
    }
  }

  // ---------------------------------------------------------------- the checksum of values

  function Start(): Bits {
    ToBits(1)
  }

  function Target(e: Encoding): Bits {
    ToBits(EncodingConstant(e))
  }

  /** The remainder for some values. */
  function Remainder(v: seq<Value>): Bits {
    PolyMod(Bip173(), Start(), Syms(v))
  }

  /** ExpandHRP: the high bits of every character, a zero, and the low bits. */
  function ExpandHRP(hrp: string): seq<Value>
    requires forall i :: 0 <= i < |hrp| ==> hrp[i] as int < 256
  {
    seq(|hrp|, i requires 0 <= i < |hrp| => hrp[i] as int / 32) + [0]
    + seq(|hrp|, i requires 0 <= i < |hrp| => hrp[i] as int % 32)
  }

  /** A zero between two halves; each character is its high value times 32 plus its low value. */
  lemma {:induction false} ExpandedIs(hrp: string)
    requires Bytes(hrp)
    ensures var x, n := ExpandHRP(hrp), |hrp|;
      && |x| == 2 * n + 1 && x[n] == 0
      && forall i :: 0 <= i < n ==> hrp[i] as int == 32 * (x[i] as int) + (x[n + 1 + i] as int)
  {
    var x, n := ExpandHRP(hrp), |hrp|;
    forall i | 0 <= i < n ensures hrp[i] as int == 32 * (x[i] as int) + (x[n + 1 + i] as int) {
      assert x[i] == hrp[i] as int / 32 && x[n + 1 + i] == hrp[i] as int % 32;
    }
  }

  predicate Bytes(s: string) {
    forall i :: 0 <= i < |s| ==> s[i] as int < 256
  }

  /** VerifyChecksum accepts values for an encoding when the remainder is its constant. */
  predicate Verifies(e: Encoding, hrp: string, values: seq<Value>)
    requires Bytes(hrp)
  {
    Remainder(ExpandHRP(hrp) + values) == Target(e)
  }

  function SixZeros(): seq<Value> {
    [0, 0, 0, 0, 0, 0]
  }

  /** The six values to put after others so that the remainder is a given one. */
  function SixFor(v: seq<Value>, target: Bits): (r: seq<Value>)
    ensures |r| == CHECKSUM
  {
    Nums(Unpack(Xor(Remainder(v + SixZeros()), target)))
  }

  /** CreateChecksum: the difference between the remainder for six zeros and the constant. */
  function CreateChecksum(e: Encoding, hrp: string, values: seq<Value>): (r: seq<Value>)
    requires Bytes(hrp)
    ensures |r| == CHECKSUM
  {
    SixFor(ExpandHRP(hrp) + values, Target(e))
  }

  /** The two constants differ in their second bit. */
  lemma {:induction false} ConstantsDiffer()
    ensures Target(Bech32) != Target(Bech32m)
  {
    assert !Target(Bech32)[1] && Target(Bech32m)[1];
  }

  lemma {:induction false} RemainderSplit(v: seq<Value>, w: seq<Value>)
    ensures Remainder(v + w) == PolyMod(Bip173(), Remainder(v), Syms(w))
  {
    assert Syms(v + w) == Syms(v) + Syms(w);
    PolyModSplit(Bip173(), Start(), Syms(v), Syms(w));
  }

  lemma {:induction false} ZeroSyms(zeros: seq<Value>)
    requires forall i :: 0 <= i < |zeros| ==> zeros[i] == 0
    ensures AllZero(Syms(zeros))
  {
    assert Sym(0) == ZeroSymbol();
  }

  lemma {:induction false} SixReach(v: seq<Value>, target: Bits)
    ensures Remainder(v + SixFor(v, target)) == target
  {
    ZeroSyms(SixZeros());
    RemainderSplit(v, SixZeros());
    SymsNums(Unpack(Xor(Remainder(v + SixZeros()), target)));
    ChecksumReaches(Bip173(), Remainder(v), target, Syms(SixZeros()));
    RemainderSplit(v, SixFor(v, target));
  }

  /** Values with the checksum made for them verify. */
  lemma {:induction false} ChecksumVerifies(e: Encoding, hrp: string, values: seq<Value>)
    requires Bytes(hrp)
    ensures Verifies(e, hrp, values + CreateChecksum(e, hrp, values))
  {
    SixReach(ExpandHRP(hrp) + values, Target(e));
    assert ExpandHRP(hrp) + (values + CreateChecksum(e, hrp, values))
           == ExpandHRP(hrp) + values + CreateChecksum(e, hrp, values);
  }

  lemma {:induction false} SixUnique(v: seq<Value>, six: seq<Value>, target: Bits)
    requires |six| == CHECKSUM && Remainder(v + six) == target
    ensures six == SixFor(v, target)
  {
    var made := SixFor(v, target);
    SixReach(v, target);
    RemainderSplit(v, six);
    RemainderSplit(v, made);
    Bip173Suitable();
    ChecksumUnique(Bip173(), Remainder(v), Syms(six), Syms(made));
    NumsSyms(six);
    NumsSyms(made);
  }

  /** Values that verify end in the checksum made for the others. */
  lemma {:induction false} VerifiesUnique(e: Encoding, hrp: string, values: seq<Value>, six: seq<Value>)
    requires Bytes(hrp) && |six| == CHECKSUM && Verifies(e, hrp, values + six)
    ensures six == CreateChecksum(e, hrp, values)
  {
    assert ExpandHRP(hrp) + (values + six) == ExpandHRP(hrp) + values + six;
    SixUnique(ExpandHRP(hrp) + values, six, Target(e));
  }

  lemma {:induction false} SymInjective(a: Value, b: Value)
    ensures a == b <==> Sym(a) == Sym(b)
  {
    NumSym(a);
    NumSym(b);
  }

  /** A change within six consecutive places changes the remainder. */
  lemma {:induction false} BurstChanges(v: seq<Value>, w: seq<Value>, start: nat, k: nat)
    requires |v| == |w| && k < |v| && v[k] != w[k]
    requires forall i :: 0 <= i < |v| && v[i] != w[i] ==> start <= i < start + CHECKSUM
    ensures Remainder(v) != Remainder(w)
  {
    forall i | 0 <= i < |v| ensures v[i] == w[i] <==> Syms(v)[i] == Syms(w)[i] {
      SymInjective(v[i], w[i]);
    }
    assert Syms(v)[k] != Syms(w)[k];
    Bip173Suitable();
    BurstDetected(Bip173(), Start(), Syms(v), Syms(w), start);
  }

  /**
   A valid string in which symbols change within six consecutive places does not verify for the
   same encoding, whatever its length.
   */
  lemma {:induction false} BurstNoticed(e: Encoding, hrp: string, values: seq<Value>, changed: seq<Value>, start: nat)
    requires Bytes(hrp) && Verifies(e, hrp, values) && |changed| == |values| && changed != values
    requires forall i :: 0 <= i < |values| && values[i] != changed[i] ==> start <= i < start + CHECKSUM
    ensures !Verifies(e, hrp, changed)
  {
    var x := ExpandHRP(hrp);
    var v, w := x + values, x + changed;
    var k :| 0 <= k < |values| && values[k] != changed[k];
    assert v[|x| + k] != w[|x| + k];
    forall i | 0 <= i < |v| && v[i] != w[i] ensures |x| + start <= i < |x| + start + CHECKSUM {
      assert values[i - |x|] != changed[i - |x|];
    }
    BurstChanges(v, w, |x| + start, |x| + k);
  }
}
