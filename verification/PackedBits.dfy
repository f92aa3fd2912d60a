/** Flags packed eight to a byte, least significant bit first. */
module PackedBits {
  import opened Numbers

  /** 1 << j for a bit position of a byte. */
  function Mask(j: nat): bv8
    requires j < 8
  {
    match j
    case 0 => 1
    case 1 => 2
    case 2 => 4
    case 3 => 8
    case 4 => 16
    case 5 => 32
    case 6 => 64
    case 7 => 128
  }

  predicate TestBit(b: bv8, j: nat)
    requires j < 8
  {
    b & Mask(j) != 0
  }

  lemma {:induction false} SetBit(b: bv8, j: nat, k: nat)
    requires j < 8 && k < 8
    ensures TestBit(b | Mask(j), k) == (TestBit(b, k) || k == j)
  {
  }

  lemma {:induction false} UnsetBit(b: bv8, j: nat, k: nat)
    requires j < 8 && k < 8
    ensures TestBit(b & !Mask(j), k) == (TestBit(b, k) && k != j)
  {
  }

  lemma {:induction false} PlainBytes(k: nat)
    requires k < 8
    ensures TestBit(0xFF, k) && !TestBit(0, k)
  {
  }

  lemma {:induction false} MaskIsPower(j: nat)
    requires j < 8
    ensures Mask(j) == (1 as bv8) << j && Mask(j) as int == Pow2(j)
  {
    assert Pow2(0) == 1 && Pow2(1) == 2 && Pow2(2) == 4 && Pow2(3) == 8;
    assert Pow2(4) == 16 && Pow2(5) == 32 && Pow2(6) == 64 && Pow2(7) == 128;
  }

  /** The number that n bits from a place on spell, the first one worth 1 and each next one twice as much. */
  function Spelled(bits: seq<bool>, from: nat, n: nat): nat {
    if n == 0 then 0
    else Spelled(bits, from, n - 1) + if from + n - 1 < |bits| && bits[from + n - 1] then Pow2(n - 1) else 0
  }

  /** What a bit is worth. */
  function Worth(b: bv8, j: nat): nat
    requires j < 8
  {
    if TestBit(b, j) then Pow2(j) else 0
  }

  lemma {:induction false} ByteValue(b: bv8)
    ensures b as int == Worth(b, 0) + Worth(b, 1) + Worth(b, 2) + Worth(b, 3)
                        + Worth(b, 4) + Worth(b, 5) + Worth(b, 6) + Worth(b, 7)
  {
    assert Pow2(0) == 1 && Pow2(1) == 2 && Pow2(2) == 4 && Pow2(3) == 8;
    assert Pow2(4) == 16 && Pow2(5) == 32 && Pow2(6) == 64 && Pow2(7) == 128;
  }

  /** A byte whose bits are the given ones is the number they spell. */
  lemma {:induction false} ByteIsSpelled(b: bv8, bits: seq<bool>, from: nat)
    requires forall j :: 0 <= j < 8 ==> TestBit(b, j) == (from + j < |bits| && bits[from + j])
    ensures b as int == Spelled(bits, from, 8)
  {
    ByteValue(b);
    assert TestBit(b, 0) == (from + 0 < |bits| && bits[from + 0]);
    assert Spelled(bits, from, 1) == Worth(b, 0);
    assert Spelled(bits, from, 2) == Spelled(bits, from, 1) + Worth(b, 1);
    assert Spelled(bits, from, 3) == Spelled(bits, from, 2) + Worth(b, 2);
    assert Spelled(bits, from, 4) == Spelled(bits, from, 3) + Worth(b, 3);
    assert Spelled(bits, from, 5) == Spelled(bits, from, 4) + Worth(b, 4);
    assert Spelled(bits, from, 6) == Spelled(bits, from, 5) + Worth(b, 5);
    assert Spelled(bits, from, 7) == Spelled(bits, from, 6) + Worth(b, 6);
    assert Spelled(bits, from, 8) == Spelled(bits, from, 7) + Worth(b, 7);
  }
}
