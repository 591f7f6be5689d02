/** Bytes as the machine's bit vectors, and the arithmetic that their shifts and masks come to. */
module Bits {

  lemma Zero(x: bv8, y: bv8)
    requires (x as int) < 1 && (y as int) < 1
    ensures (x ^ y) as int == 0
  {
    assert x == 0 && y == 0;
  }

  /** Halving shifts, and the remainder is the lowest bit. */
  lemma Halves(x: bv8)
    ensures (x as int) / 2 == (x >> 1) as int && (x as int) % 2 == (x & 1) as int
  {
  }

  lemma LowBits(x: bv8, y: bv8)
    ensures ((x ^ y) & 1) as int == if (x & 1) as int == (y & 1) as int then 0 else 1
  {
  }

  lemma XorShift(x: bv8, y: bv8)
    ensures (x ^ y) >> 1 == (x >> 1) ^ (y >> 1)
  {
  }

  /** Exclusive or goes bit by bit: the halves and the lowest bits do not mix. */
  lemma XorHalves(x: bv8, y: bv8)
    ensures ((x ^ y) as int) / 2 == ((x >> 1) ^ (y >> 1)) as int
    ensures ((x ^ y) as int) % 2 == if (x as int) % 2 == (y as int) % 2 then 0 else 1
  {
    Halves(x);
    Halves(y);
    Halves(x ^ y);
    XorShift(x, y);
    LowBits(x, y);
  }

  lemma LowBit(x: bv8)
    ensures (x as int) % 2 == 1 <==> x & 1 != 0
  {
  }

  lemma Quarter(n: nat)
    ensures n / 16 == n / 2 / 2 / 2 / 2
  {
  }

  lemma Shifts(x: bv8)
    ensures x >> 1 >> 1 == x >> 2 && x >> 2 >> 1 == x >> 3 && x >> 3 >> 1 == x >> 4
    ensures (x >> 1) & 1 != 0 <==> x & 2 != 0
    ensures (x >> 4) & 1 != 0 <==> x & 16 != 0
  {
  }

  /** Masking with 1, 2 or 16 tests a bit. */
  lemma Masks(x: bv8)
    ensures (x as int) % 2 == 1 <==> x & 1 != 0
    ensures (x as int) / 2 % 2 == 1 <==> x & 2 != 0
    ensures (x as int) / 16 % 2 == 1 <==> x & 16 != 0
  {
    LowBit(x);
    Halves(x);
    LowBit(x >> 1);
    Halves(x >> 1);
    Halves(x >> 2);
    Halves(x >> 3);
    LowBit(x >> 4);
    Quarter(x as int);
    Shifts(x);
  }
}
