/** The rolling hash of deflate (UPDATE_HASH, dep/zlib/deflate.c:167): it depends on the last three bytes only, and on the whole of the third. */
module DeflateHash {
  import opened Bits

  /** a ^ b. */
  function Xor(a: nat, b: nat): nat {
    if a == 0 && b == 0 then 0 else 2 * Xor(a / 2, b / 2) + (a + b) % 2
  }

  /** The size of the hash in bits, and how far it moves for each byte. */
  datatype Hashing = Hashing(bits: nat, shift: nat)

  /** hash_bits and hash_shift for a memory level, as deflateInit2 sets them. */
  function HashingFor(memLevel: nat): (c: Hashing)
    requires 1 <= memLevel <= 9
    ensures HashOk(c)
  {
    Hashing(memLevel + 7, (memLevel + 7 + 2) / 3)
  }

  predicate HashOk(c: Hashing) {
    8 <= c.bits && 3 * c.shift >= c.bits
  }

  /** UPDATE_HASH. */
  function Update(c: Hashing, h: nat, b: byte): (r: nat)
    ensures r < Pow2(c.bits)
  {
    Low(Xor(Shl(h, c.shift), b), c.bits)
  }

  /** The hash of a string of three bytes. */
  function Hash(c: Hashing, b0: byte, b1: byte, b2: byte): (r: nat)
    ensures r < Pow2(c.bits)
  {
    Update(c, Update(c, b0, b1), b2)
  }

  lemma XorStep(a: nat, b: nat)
    ensures Xor(a, b) / 2 == Xor(a / 2, b / 2) && Xor(a, b) % 2 == (a + b) % 2
  {
  }

  lemma LowStep(v: nat, n: nat)
    requires n > 0
    ensures Low(v, n) == 2 * Low(v / 2, n - 1) + v % 2 && Low(v, n) / 2 == Low(v / 2, n - 1) && Low(v, n) % 2 == v % 2
  {
  }

  lemma LowNone(v: nat)
    ensures Low(v, 0) == 0
  {
  }

  lemma {:induction false} XorLow(a: nat, b: nat, n: nat)
    ensures Low(Xor(a, b), n) == Low(Xor(Low(a, n), Low(b, n)), n)
  {
    hide *;
    LowNone(Xor(a, b));
    LowNone(Xor(Low(a, n), Low(b, n)));
    if n > 0 {
      XorLow(a / 2, b / 2, n - 1);
      XorStep(a, b);
      XorStep(Low(a, n), Low(b, n));
      LowStep(a, n);
      LowStep(b, n);
      LowStep(Xor(a, b), n);
      LowStep(Xor(Low(a, n), Low(b, n)), n);
    }
  }

  lemma {:induction false} LowLow(v: nat, m: nat, n: nat)
    requires m <= n
    ensures Low(Low(v, n), m) == Low(v, m)
  {
    hide *;
    LowNone(v);
    LowNone(Low(v, n));
    if m > 0 {
      LowLow(v / 2, m - 1, n - 1);
      LowStep(v, n);
      LowStep(v, m);
      LowStep(Low(v, n), m);
    }
  }

  lemma {:induction false} LowShl(v: nat, s: nat, k: nat)
    ensures Low(Shl(v, s), k + s) == Shl(Low(v, k), s)
  {
    hide *;
    ShlTwice(v, s);
    ShlTwice(Low(v, k), s);
    if s > 0 {
      LowShl(v, s - 1, k);
      LowStep(Shl(v, s), k + s);
    }
  }

  lemma ShlTwice(v: nat, s: nat)
    ensures s > 0 ==> Shl(v, s) == 2 * Shl(v, s - 1)
    ensures Shl(v, 0) == v
  {
    assert Pow2(0) == 1;
    if s > 0 {
      var p := Pow2(s - 1);
      assert v * (2 * p) == 2 * (v * p);
    }
  }

  /** What agrees in k low bits agrees in s more after a byte. */
  lemma Spread(c: Hashing, h: nat, h': nat, b: byte, k: nat, m: nat)
    requires Low(h, k) == Low(h', k) && m <= k + c.shift && m <= c.bits
    ensures Low(Update(c, h, b), m) == Low(Update(c, h', b), m)
  {
    hide Xor, Low, Shl;
    var x, x' := Shl(h, c.shift), Shl(h', c.shift);
    LowShl(h, c.shift, k);
    LowShl(h', c.shift, k);
    LowLow(x, m, k + c.shift);
    LowLow(x', m, k + c.shift);
    XorLow(x, b, m);
    XorLow(x', b, m);
    LowLow(Xor(x, b), m, c.bits);
    LowLow(Xor(x', b), m, c.bits);
  }

  lemma SmallByte(c: Hashing, b: byte)
    requires HashOk(c)
    ensures b < Pow2(c.bits) && Update(c, 0, b) == b
  {
    WordSize();
    Pow2Monotone(8, c.bits);
    LowFits(b, c.bits);
    assert Shl(0, c.shift) == 0;
    XorZero(b);
  }

  lemma {:induction false} XorZero(b: nat)
    ensures Xor(0, b) == b
  {
    if b > 0 {
      XorZero(b / 2);
    }
  }

  /** After three bytes it does not matter what the hash was before. */
  lemma LastThree(c: Hashing, h: nat, b0: byte, b1: byte, b2: byte)
    requires HashOk(c)
    ensures Update(c, Update(c, Update(c, h, b0), b1), b2) == Hash(c, b0, b1, b2)
  {
    hide Update, Low, HashOk;
    SmallByte(c, b0);
    var s := c.shift;
    var m1, m2 := if s <= c.bits then s else c.bits, if 2 * s <= c.bits then 2 * s else c.bits;
    LowNone(h);
    LowNone(0);
    Spread(c, h, 0, b0, 0, m1);
    Spread(c, Update(c, h, b0), b0, b1, m1, m2);
    HashOkIs(c);
    Spread(c, Update(c, Update(c, h, b0), b1), Update(c, b0, b1), b2, m2, c.bits);
    LowFits(Hash(c, b0, b1, b2), c.bits);
    LowFits(Update(c, Update(c, Update(c, h, b0), b1), b2), c.bits);
  }

  lemma HashOkIs(c: Hashing)
    ensures HashOk(c) <==> 8 <= c.bits && 3 * c.shift >= c.bits
  {
  }

  lemma {:induction false} XorCancel(a: nat, b: nat, b': nat, n: nat)
    requires Low(Xor(a, b), n) == Low(Xor(a, b'), n)
    ensures Low(b, n) == Low(b', n)
  {
    hide *;
    LowNone(b);
    LowNone(b');
    if n > 0 {
      XorStep(a, b);
      XorStep(a, b');
      LowStep(Xor(a, b), n);
      LowStep(Xor(a, b'), n);
      LowStep(b, n);
      LowStep(b', n);
      XorCancel(a / 2, b / 2, b' / 2, n - 1);
      SameParity(a, b, b');
    }
  }

  lemma SameParity(a: nat, b: nat, b': nat)
    requires (a + b) % 2 == (a + b') % 2
    ensures b % 2 == b' % 2
  {
  }

  /** Two strings with the same hash that agree in two bytes agree in the third: longest_match relies on it. */
  lemma ThirdByte(c: Hashing, b0: byte, b1: byte, b2: byte, b2': byte)
    requires HashOk(c) && Hash(c, b0, b1, b2) == Hash(c, b0, b1, b2')
    ensures b2 == b2'
  {
    hide Xor, Low, Shl;
    var x := Shl(Update(c, b0, b1), c.shift);
    LowLow(Xor(x, b2), 8, c.bits);
    LowLow(Xor(x, b2'), 8, c.bits);
    XorCancel(x, b2, b2', 8);
    WordSize();
    LowFits(b2, 8);
    LowFits(b2', 8);
  }

  /** h is a hash that has taken in b0 and b1. */
  ghost predicate Ready(c: Hashing, h: nat, b0: byte, b1: byte) {
    forall b2: byte :: Update(c, h, b2) == Hash(c, b0, b1, b2)
  }

  lemma ReadyFirst(c: Hashing, b0: byte, b1: byte)
    ensures Ready(c, Update(c, b0, b1), b0, b1)
  {
  }

  lemma ReadyNext(c: Hashing, h: nat, b0: byte, b1: byte, b2: byte)
    requires HashOk(c) && Ready(c, h, b0, b1)
    ensures Update(c, h, b2) == Hash(c, b0, b1, b2) && Ready(c, Update(c, h, b2), b1, b2)
  {
    hide Update, HashOk;
    forall b: byte
      ensures Update(c, Update(c, h, b2), b) == Hash(c, b1, b2, b)
    {
      LastThree(c, b0, b1, b2, b);
    }
  }
}
