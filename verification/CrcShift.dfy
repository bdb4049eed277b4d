/**
 The CRC of zlib (dep/zlib/crc32.c; section 8 of RFC 1952) as a shift register, and why it is linear: polynomials over GF(2)
 with the lowest powers in the most significant bits.
 */
module CrcShift {
  import opened Bits

  /** Addition of polynomials. */
  function Xor(a: bv32, b: bv32): bv32 {
    a ^ b
  }

  lemma XorGroup(a: bv32, b: bv32, c: bv32)
    ensures Xor(Xor(a, b), c) == Xor(a, Xor(b, c)) && Xor(a, b) == Xor(b, a)
    ensures Xor(a, 0) == a && Xor(a, a) == 0
  {
  }

  /** Two sums of two, added. */
  lemma XorSwap(a: bv32, b: bv32, c: bv32, d: bv32)
    ensures Xor(Xor(a, b), Xor(c, d)) == Xor(Xor(a, c), Xor(b, d))
  {
    hide *;
    XorGroup(a, b, Xor(c, d));
    XorGroup(b, c, d);
    XorGroup(c, b, d);
    XorGroup(a, c, Xor(b, d));
  }

  /** The highest power: the bit that is shifted out. */
  predicate Odd(c: bv32) {
    c & 1 == 1
  }

  function Half(c: bv32): bv32 {
    c >> 1
  }

  lemma HalfXor(a: bv32, b: bv32)
    ensures Half(Xor(a, b)) == Xor(Half(a), Half(b))
  {
  }

  lemma OddXor(a: bv32, b: bv32)
    ensures Odd(Xor(a, b)) == (Odd(a) != Odd(b))
  {
    LowBit(a);
    LowBit(b);
    LowXor(a, b);
  }

  lemma LowBit(a: bv32)
    ensures a & 1 == 0 || a & 1 == 1
  {
  }

  lemma LowXor(a: bv32, b: bv32)
    ensures (a ^ b) & 1 == (a & 1) ^ (b & 1)
  {
  }

  /** One zero bit enters the register. */
  function Bit(c: bv32): bv32 {
    if Odd(c) then Xor(0xedb8_8320, Half(c)) else Half(c)
  }

  /** n zero bits enter the register. */
  function Shift(c: bv32, n: nat): bv32
    decreases n
  {
    if n == 0 then c else Shift(Bit(c), n - 1)
  }

  lemma BitIs(c: bv32)
    ensures Bit(c) == if Odd(c) then Xor(0xedb8_8320, Half(c)) else Half(c)
  {
  }

  lemma BitLinear(a: bv32, b: bv32)
    ensures Bit(Xor(a, b)) == Xor(Bit(a), Bit(b))
  {
    hide *;
    var p: bv32, x, y := 0xedb8_8320, Half(a), Half(b);
    BitIs(a);
    BitIs(b);
    BitIs(Xor(a, b));
    HalfXor(a, b);
    OddXor(a, b);
    XorSwap(p, x, p, y);
    XorGroup(p, 0, 0);
    XorGroup(Xor(x, y), 0, 0);
    XorGroup(0, Xor(x, y), 0);
    XorGroup(p, x, y);
    XorGroup(x, p, y);
    XorGroup(p, y, x);
    XorGroup(x, y, p);
  }

  lemma ShiftNext(c: bv32, n: nat)
    ensures Shift(c, 0) == c && Shift(c, n + 1) == Shift(Bit(c), n)
  {
  }

  lemma {:induction false} ShiftLinear(a: bv32, b: bv32, n: nat)
    ensures Shift(Xor(a, b), n) == Xor(Shift(a, n), Shift(b, n))
    decreases n
  {
    hide *;
    if n == 0 {
      ShiftNext(a, 0);
      ShiftNext(b, 0);
      ShiftNext(Xor(a, b), 0);
    } else {
      BitLinear(a, b);
      ShiftNext(a, n - 1);
      ShiftNext(b, n - 1);
      ShiftNext(Xor(a, b), n - 1);
      ShiftLinear(Bit(a), Bit(b), n - 1);
    }
  }

  lemma {:induction false} ShiftSum(c: bv32, m: nat, n: nat)
    ensures Shift(c, m + n) == Shift(Shift(c, m), n)
    decreases m
  {
    hide Bit;
    if m > 0 {
      ShiftSum(Bit(c), m - 1, n);
    }
  }

  lemma {:induction false} ShiftZero(n: nat)
    ensures Shift(0, n) == 0
    decreases n
  {
    if n > 0 {
      ShiftZero(n - 1);
    }
  }

  /** As long as only zeros fall out, shifting is all that happens. */
  lemma EightZeros(c: bv32)
    requires c & 0xff == 0
    ensures Shift(c, 8) == c >> 8
  {
    EvenBits(c);
    HalfAgain(c);
    hide *;
    EvenStep(c, 7);
    EvenStep(c >> 1, 6);
    EvenStep(c >> 2, 5);
    EvenStep(c >> 3, 4);
    EvenStep(c >> 4, 3);
    EvenStep(c >> 5, 2);
    EvenStep(c >> 6, 1);
    EvenStep(c >> 7, 0);
    ShiftNext(c >> 8, 0);
  }

  lemma EvenStep(c: bv32, n: nat)
    requires !Odd(c)
    ensures Shift(c, n + 1) == Shift(Half(c), n)
  {
    ShiftNext(c, n);
  }

  lemma EvenBits(c: bv32)
    requires c & 0xff == 0
    ensures !Odd(c) && !Odd(c >> 1) && !Odd(c >> 2) && !Odd(c >> 3) && !Odd(c >> 4) && !Odd(c >> 5) && !Odd(c >> 6) && !Odd(c >> 7)
  {
  }

  lemma HalfAgain(c: bv32)
    ensures Half(c) == c >> 1 && Half(c >> 1) == c >> 2 && Half(c >> 2) == c >> 3 && Half(c >> 3) == c >> 4
    ensures Half(c >> 4) == c >> 5 && Half(c >> 5) == c >> 6 && Half(c >> 6) == c >> 7 && Half(c >> 7) == c >> 8
  {
  }

  // Bytes.

  /** A byte as a word. */
  function Word(b: byte): (w: bv32)
    ensures w & 0xff == w
  {
    b as bv8 as bv32
  }

  /** One byte enters the register, bit by bit. */
  function Update(c: bv32, b: byte): bv32 {
    Shift(Xor(c, Word(b)), 8)
  }

  /** The register after a string of bytes. */
  function Register(c: bv32, bytes: seq<byte>): bv32 {
    if bytes == [] then c else Update(Register(c, bytes[..|bytes| - 1]), bytes[|bytes| - 1])
  }

  const ONES: bv32 := 0xffff_ffff

  /** crc32 as it is defined: the register starts and ends complemented. */
  function Crc(crc: bv32, bytes: seq<byte>): bv32 {
    Xor(Register(Xor(crc, ONES), bytes), ONES)
  }

  lemma RegisterOne(c: bv32, bytes: seq<byte>, b: byte)
    ensures Register(c, bytes + [b]) == Update(Register(c, bytes), b) && Register(c, []) == c
  {
    assert (bytes + [b])[..|bytes|] == bytes;
  }

  lemma {:induction false} RegisterConcat(c: bv32, a: seq<byte>, b: seq<byte>)
    ensures Register(c, a + b) == Register(Register(c, a), b)
    decreases |b|
  {
    hide Update;
    if b == [] {
      assert a + b == a;
    } else {
      var k := |b| - 1;
      RegisterConcat(c, a, b[..k]);
      assert a + b == a + b[..k] + [b[k]];
      RegisterOne(c, a + b[..k], b[k]);
    }
  }

  /** What the register held before is only shifted by what comes after. */
  lemma {:induction false} RegisterAffine(c: bv32, bytes: seq<byte>)
    ensures Register(c, bytes) == Xor(Shift(c, 8 * |bytes|), Register(0, bytes))
    decreases |bytes|
  {
    hide *;
    if bytes != [] {
      var k := |bytes| - 1;
      assert bytes == bytes[..k] + [bytes[k]];
      RegisterOne(c, bytes[..k], bytes[k]);
      RegisterOne(0, bytes[..k], bytes[k]);
      RegisterAffine(c, bytes[..k]);
      UpdateAffine(Shift(c, 8 * k), Register(0, bytes[..k]), bytes[k]);
      ShiftSum(c, 8 * k, 8);
      assert 8 * k + 8 == 8 * |bytes|;
    } else {
      RegisterOne(c, [], 0);
      RegisterOne(0, [], 0);
      XorGroup(c, 0, 0);
      ShiftNext(c, 0);
    }
  }

  lemma UpdateAffine(a: bv32, r: bv32, b: byte)
    ensures Update(Xor(a, r), b) == Xor(Shift(a, 8), Update(r, b))
  {
    hide Xor, Shift;
    XorGroup(a, r, Word(b));
    ShiftLinear(a, Xor(r, Word(b)), 8);
  }

  lemma CrcIs(crc: bv32, bytes: seq<byte>)
    ensures Crc(crc, bytes) == Xor(Register(Xor(crc, ONES), bytes), ONES)
  {
  }

  /** The CRC of a concatenation from the CRCs of its parts and the length of the second. */
  lemma CombinedCrc(crc: bv32, a: seq<byte>, b: seq<byte>)
    ensures Xor(Shift(Crc(crc, a), 8 * |b|), Crc(0, b)) == Crc(crc, a + b)
  {
    hide *;
    var x, n := Register(Xor(crc, ONES), a), 8 * |b|;
    CrcIs(crc, a);
    CrcIs(0, b);
    CrcIs(crc, a + b);
    XorGroup(0, ONES, 0);
    XorGroup(ONES, 0, 0);
    RegisterConcat(Xor(crc, ONES), a, b);
    RegisterAffine(x, b);
    RegisterAffine(ONES, b);
    ShiftLinear(x, ONES, n);
    OnesCancel(Shift(x, n), Shift(ONES, n), Register(0, b), ONES);
  }

  lemma OnesCancel(s: bv32, o: bv32, r: bv32, e: bv32)
    ensures Xor(Xor(s, o), Xor(Xor(o, r), e)) == Xor(Xor(s, r), e)
  {
  }
}
