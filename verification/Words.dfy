/** Fixed-width words, byte strings in network order and the exclusive-or of bytes. */
module Words {
  import Bits

  datatype Option<+T> = None | Some(value: T)

  type Byte = b: int | 0 <= b < 0x100
  type U16 = n: int | 0 <= n < 0x1_0000
  type U32 = n: int | 0 <= n < 0x1_0000_0000
  type U64 = n: int | 0 <= n < 0x1_0000_0000_0000_0000

  const TWO16 := 0x1_0000
  const TWO32 := 0x1_0000_0000
  const TWO64 := 0x1_0000_0000_0000_0000

  /** What a 32-bit unsigned variable holds after being assigned x. */
  function Wrap32(x: int): (r: U32)
    ensures 0 <= x < TWO32 ==> r == x
  {
    x % 0x1_0000_0000
  }

  /** Wrapping twice on the way to a sum is the same as wrapping once. */
  lemma WrapAdd(a: int, b: int)
    ensures Wrap32(Wrap32(a) + b) == Wrap32(a + b)
  {
  }

  lemma WrapOnce(x: nat)
    requires x < 2 * TWO32
    ensures Wrap32(x) == if x < TWO32 then x else x - TWO32
  {
  }

  /** Two offsets of one 2^32 range that land on the same sequence number are equal. */
  lemma WrapInjective(base: int, a: nat, b: nat)
    requires a < TWO32 && b < TWO32
    requires Wrap32(base + a) == Wrap32(base + b)
    ensures a == b
  {
  }

  function Pow256(k: nat): (p: nat)
    ensures p >= 1
  {
    if k == 0 then 1 else 256 * Pow256(k - 1)
  }

  lemma Pow256Values()
    ensures Pow256(1) == 0x100
    ensures Pow256(2) == TWO16
    ensures Pow256(4) == TWO32
    ensures Pow256(8) == TWO64
  {
    assert Pow256(3) == 0x100_0000;
    assert Pow256(5) == 256 * Pow256(4);
    assert Pow256(6) == 256 * Pow256(5);
    assert Pow256(7) == 256 * Pow256(6);
  }

  /** The k low-order bytes of n, most significant first (network order). */
  function ToBE(n: nat, k: nat): (s: seq<Byte>)
    ensures |s| == k
  {
    if k == 0 then [] else ToBE(n / 256, k - 1) + [n % 256]
  }

  /** The number a byte string denotes in network order. */
  function FromBE(s: seq<Byte>): (n: nat)
    ensures n < Pow256(|s|)
  {
    if s == [] then 0 else 256 * FromBE(s[..|s| - 1]) + s[|s| - 1]
  }

  lemma {:induction false} FromToBE(n: nat, k: nat)
    requires n < Pow256(k)
    ensures FromBE(ToBE(n, k)) == n
  {
    if k > 0 {
      FromToBE(n / 256, k - 1);
      assert ToBE(n, k)[..k - 1] == ToBE(n / 256, k - 1);
    }
  }

  lemma LastDigit(n: nat, last: Byte)
    ensures (256 * n + last) / 256 == n && (256 * n + last) % 256 == last
  {
  }

  lemma {:induction false} ToFromBE(s: seq<Byte>)
    ensures ToBE(FromBE(s), |s|) == s
  {
    if s != [] {
      var front, last := s[..|s| - 1], s[|s| - 1];
      ToFromBE(front);
      LastDigit(FromBE(front), last);
      assert s == front + [last];
    }
  }

  lemma Small(d: int, e: int)
    requires -d < d * e < d
    ensures e == 0
  {
  }

  lemma QuotientIs(n: nat, d: nat, q: nat, r: nat)
    requires d > 0 && n == d * q + r && r < d
    ensures n / d == q
  {
    assert d * (n / d - q) == r - n % d;
    Small(d, n / d - q);
  }

  lemma DivTwice(n: nat, p: nat)
    requires p > 0
    ensures n / 256 / p == n / (256 * p)
  {
    var m := n / 256;
    var q, r := m / p, m % p;
    assert m == p * q + r;
    assert 256 * (p * q) == (256 * p) * q;
    QuotientIs(n, 256 * p, q, 256 * r + n % 256);
  }

  /** Network order: byte j of k has the weight 256^(k-1-j). */
  lemma {:induction false} ByteAt(n: nat, k: nat, j: nat)
    requires j < k
    ensures ToBE(n, k)[j] == n / Pow256(k - 1 - j) % 256
  {
    if j < k - 1 {
      ByteAt(n / 256, k - 1, j);
      DivTwice(n, Pow256(k - 2 - j));
    }
  }

  lemma Weigh(b: nat, p: nat, x: nat, last: nat)
    ensures 256 * (b * p + x) + last == b * (256 * p) + (256 * x + last)
  {
  }

  /** The same for reading: the first byte has the greatest weight. */
  lemma {:induction false} LeadingByte(b: Byte, s: seq<Byte>)
    ensures FromBE([b] + s) == b * Pow256(|s|) + FromBE(s)
  {
    if s == [] {
      assert ([b] + s)[..0] == [];
    } else {
      var front, last := s[..|s| - 1], s[|s| - 1];
      LeadingByte(b, front);
      assert ([b] + s)[..|s|] == [b] + front;
      Weigh(b, Pow256(|front|), FromBE(front), last);
    }
  }

  lemma TwoBytes(a: Byte, b: Byte)
    ensures FromBE([a, b]) == 256 * a + b
  {
    assert [a, b][..1] == [a] && [a][..0] == [];
    assert FromBE([a]) == a;
  }

  /** Exclusive or of the k low-order bits of two numbers, bit by bit. */
  function XorBits(a: nat, b: nat, k: nat): (r: nat)
  {
    if k == 0 then 0 else (if a % 2 == b % 2 then 0 else 1) + 2 * XorBits(a / 2, b / 2, k - 1)
  }

  function Pow2(k: nat): (p: nat)
    ensures p >= 1
  {
    if k == 0 then 1 else 2 * Pow2(k - 1)
  }

  lemma {:induction false} XorBound(a: nat, b: nat, k: nat)
    ensures XorBits(a, b, k) < Pow2(k)
  {
    if k > 0 { XorBound(a / 2, b / 2, k - 1); }
  }

  lemma {:induction false} XorUndo(a: nat, b: nat, k: nat)
    requires a < Pow2(k)
    ensures XorBits(XorBits(a, b, k), b, k) == a
  {
    if k > 0 {
      XorUndo(a / 2, b / 2, k - 1);
      var x := XorBits(a / 2, b / 2, k - 1);
      var d := if a % 2 == b % 2 then 0 else 1;
      var r := d + 2 * x;
      assert XorBits(a, b, k) == r;
      assert r / 2 == x && r % 2 == d;
      assert XorBits(r, b, k) == (if r % 2 == b % 2 then 0 else 1) + 2 * XorBits(r / 2, b / 2, k - 1);
    }
  }

  /** The `^` of two bytes. */
  function Xor(a: Byte, b: Byte): (r: Byte)
  {
    XorBound(a, b, 8);
    assert Pow2(8) == 256;
    XorBits(a, b, 8)
  }

  /** A number whose half and lowest bit are the exclusive or of those of a and b is that of a and b. */
  lemma XorStep(a: nat, b: nat, r: nat, k: nat)
    requires k > 0
    requires XorBits(a / 2, b / 2, k - 1) == r / 2
    requires r % 2 == if a % 2 == b % 2 then 0 else 1
    ensures XorBits(a, b, k) == r
  {
  }

  lemma XorShifted(x: bv8, y: bv8, k: nat)
    requires k > 0
    requires XorBits((x >> 1) as int, (y >> 1) as int, k - 1) == ((x >> 1) ^ (y >> 1)) as int
    ensures XorBits(x as int, y as int, k) == (x ^ y) as int
  {
    Bits.Halves(x);
    Bits.Halves(y);
    Bits.XorHalves(x, y);
    XorStep(x as int, y as int, (x ^ y) as int, k);
  }

  lemma HalfBound(x: bv8, k: nat)
    requires k > 0 && (x as int) < Pow2(k)
    ensures ((x >> 1) as int) < Pow2(k - 1)
  {
    Bits.Halves(x);
  }

  lemma {:induction false} XorBitsIs(x: bv8, y: bv8, k: nat)
    requires (x as int) < Pow2(k) && (y as int) < Pow2(k)
    ensures XorBits(x as int, y as int, k) == (x ^ y) as int
  {
    if k == 0 {
      Bits.Zero(x, y);
    } else {
      HalfBound(x, k);
      HalfBound(y, k);
      XorBitsIs(x >> 1, y >> 1, k - 1);
      XorShifted(x, y, k);
    }
  }

  /** It is the exclusive or of the machine's bytes. */
  lemma XorIsBitwise(x: bv8, y: bv8)
    ensures Xor(x as int, y as int) == (x ^ y) as int
  {
    assert Pow2(8) == 256;
    XorBitsIs(x, y, 8);
    hide XorBits;
  }

  /** Masking with the same byte twice gives the byte back. */
  lemma XorTwice(a: Byte, b: Byte)
    ensures Xor(Xor(a, b), b) == a
  {
    assert Pow2(8) == 256;
    XorUndo(a, b, 8);
  }

  /** Bit i of a flag byte. */
  predicate HasBit(flags: Byte, weight: nat)
    requires weight > 0
  {
    flags / weight % 2 == 1
  }

  /** Testing a bit is what `&` with its weight does. */
  lemma BitIsMask(x: bv8)
    ensures HasBit(x as int, 1) <==> x & 1 != 0
    ensures HasBit(x as int, 2) <==> x & 2 != 0
    ensures HasBit(x as int, 16) <==> x & 16 != 0
  {
    Bits.Masks(x);
  }
}
