/** Bytes and their bits. */
module Bytes {
  newtype byte = x: int | 0 <= x < 256

  function Bits(a: byte): bv8 {
    a as bv8
  }

  function FromBits(x: bv8): byte {
    x as byte
  }

  function Xor(a: byte, b: byte): byte {
    FromBits(Bits(a) ^ Bits(b))
  }

  /** Exclusive or bit by bit: the lowest bit of the result is set when one of the lowest bits is, and
      the other bits come from the other bits in the same way. */
  lemma XorMeans(a: byte, b: byte)
    ensures Xor(a, b) as int % 2 == (a as int + b as int) % 2
    ensures Xor(a, b) as int / 2 == Xor((a as int / 2) as byte, (b as int / 2) as byte) as int
  {
    hide *;
    LowestOfXor(a, b);
    OthersOfXor(a, b);
  }

  lemma LowestOfXor(a: byte, b: byte)
    ensures Xor(a, b) as int % 2 == (a as int + b as int) % 2
  {
    hide *;
    ByteBack(a);
    ByteBack(b);
    XorIs(a, b);
    LowestOfBits(Bits(a), Bits(b));
  }

  lemma LowestOfBits(x: bv8, y: bv8)
    ensures FromBits(x ^ y) as int % 2 == (FromBits(x) as int + FromBits(y) as int) % 2
  {
    hide *;
    LowestBit(x);
    LowestBit(y);
    LowestBit(x ^ y);
    XorOfBits(x, y);
    Parity(x & 1, y & 1);
  }

  lemma OthersOfXor(a: byte, b: byte)
    ensures Xor(a, b) as int / 2 == Xor((a as int / 2) as byte, (b as int / 2) as byte) as int
  {
    hide *;
    var x, y := Bits(a), Bits(b);
    ByteBack(a);
    ByteBack(b);
    OtherBits(x);
    OtherBits(y);
    OtherBits(x ^ y);
    BitsBack(x >> 1);
    BitsBack(y >> 1);
    XorOfBits(x, y);
    XorIs(a, b);
    XorIs((a as int / 2) as byte, (b as int / 2) as byte);
  }

  lemma XorIs(a: byte, b: byte)
    ensures Xor(a, b) == FromBits(Bits(a) ^ Bits(b))
  {
  }

  lemma XorOfBits(x: bv8, y: bv8)
    ensures (x ^ y) & 1 == (x & 1) ^ (y & 1) && (x ^ y) >> 1 == (x >> 1) ^ (y >> 1)
  {
  }

  lemma Parity(x: bv8, y: bv8)
    requires x <= 1 && y <= 1
    ensures FromBits(x ^ y) as int == (FromBits(x) as int + FromBits(y) as int) % 2
  {
    assert x == 0 || x == 1;
    assert y == 0 || y == 1;
  }

  lemma BitsBack(x: bv8)
    ensures Bits(FromBits(x)) == x
  {
  }

  lemma ByteBack(a: byte)
    ensures FromBits(Bits(a)) == a
  {
    hide *;
    ConvertedBack(a as int);
    BitsAreConverted(a);
  }

  lemma ConvertedBack(a: int)
    requires 0 <= a < 256
    ensures (a as bv8) as int == a
  {
    if a < 16 {
    } else if a < 32 {
    } else if a < 64 {
    } else if a < 128 {
    } else {
    }
  }

  lemma BitsAreConverted(a: byte)
    ensures FromBits(Bits(a)) as int == (a as int as bv8) as int
  {
  }

  lemma LowestBit(x: bv8)
    ensures FromBits(x) as int % 2 == FromBits(x & 1) as int
  {
  }

  lemma OtherBits(x: bv8)
    ensures FromBits(x) as int / 2 == FromBits(x >> 1) as int
  {
  }
}
