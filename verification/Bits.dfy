/** Bit strings, most significant bit first, and the numbers they spell. */
module Bits {

  type byte = x: int | 0 <= x < 256

  function Pow2(n: nat): (p: nat)
    ensures p >= 1
  {
    if n == 0 then 1 else 2 * Pow2(n - 1)
  }

  function BitOf(b: bool): nat {
    if b then 1 else 0
  }

  /** The number a bit string spells. */
  function Value(bits: seq<bool>): nat {
    if bits == [] then 0 else 2 * Value(bits[..|bits| - 1]) + BitOf(bits[|bits| - 1])
  }

  /** The low n bits of v. */
  function BitsOf(n: nat, v: nat): (bits: seq<bool>)
    ensures |bits| == n
  {
    if n == 0 then [] else BitsOf(n - 1, v / 2) + [v % 2 == 1]
  }

  lemma {:induction false} ValueBound(bits: seq<bool>)
    ensures Value(bits) < Pow2(|bits|)
  {
    if bits != [] {
      ValueBound(bits[..|bits| - 1]);
    }
  }

  lemma {:induction false} ValueOfBits(n: nat, v: nat)
    requires v < Pow2(n)
    ensures Value(BitsOf(n, v)) == v
  {
    if n > 0 {
      ValueOfBits(n - 1, v / 2);
      assert BitsOf(n, v)[..n - 1] == BitsOf(n - 1, v / 2);
    }
  }

  lemma {:induction false} BitsOfValue(bits: seq<bool>)
    ensures BitsOf(|bits|, Value(bits)) == bits
  {
    if bits != [] {
      BitsOfValue(bits[..|bits| - 1]);
    }
  }

  lemma {:induction false} Pow2Monotone(m: nat, n: nat)
    requires m <= n
    ensures Pow2(m) <= Pow2(n)
    decreases n
  {
    if m < n {
      Pow2Monotone(m, n - 1);
    }
  }

  /** v >> n. */
  function Shr(v: nat, n: nat): (r: nat)
    ensures r <= v
  {
    if n == 0 then v else Shr(v / 2, n - 1)
  }

  /** v & ((1 << n) - 1). */
  function Low(v: nat, n: nat): (r: nat)
    ensures r < Pow2(n) && r <= v
  {
    if n == 0 then 0 else 2 * Low(v / 2, n - 1) + v % 2
  }

  /** A bit field splits at any place. */
  lemma {:induction false} BitsSplit(m: nat, n: nat, v: nat)
    ensures BitsOf(m + n, v) == BitsOf(m, Shr(v, n)) + BitsOf(n, v)
  {
    if n > 0 {
      BitsSplit(m, n - 1, v / 2);
      assert BitsOf(m + n, v) == BitsOf(m + (n - 1), v / 2) + [v % 2 == 1];
    }
  }

  /** One step of each function, for numbers of n bits. */
  lemma AtOneMore(n: nat, v: nat)
    requires n > 0
    ensures Pow2(n) == 2 * Pow2(n - 1) && Low(v, n) == 2 * Low(v / 2, n - 1) + v % 2 && Shr(v, n) == Shr(v / 2, n - 1)
    ensures BitsOf(n, v) == BitsOf(n - 1, v / 2) + [v % 2 == 1]
  {
  }

  lemma AtZero(v: nat)
    ensures Pow2(0) == 1 && Low(v, 0) == 0 && Shr(v, 0) == v && BitsOf(0, v) == [] && Value([]) == 0
  {
  }

  lemma ValueSnoc(bits: seq<bool>, b: bool)
    ensures Value(bits + [b]) == 2 * Value(bits) + BitOf(b)
  {
    assert (bits + [b])[..|bits|] == bits;
  }

  lemma OddBit(v: nat)
    ensures BitOf(v % 2 == 1) == v % 2
  {
  }

  lemma TwiceProduct(a: nat, p: nat)
    ensures a * (2 * p) == 2 * (a * p)
  {
  }

  lemma HalfOfSum(h: nat, low: nat)
    ensures (2 * h + low) / 2 == h + low / 2 && (2 * h + low) % 2 == low % 2
  {
  }

  lemma {:induction false} ValueOfLow(n: nat, v: nat)
    ensures Value(BitsOf(n, v)) == Low(v, n)
  {
    hide *;
    if n > 0 {
      ValueOfLow(n - 1, v / 2);
      AtOneMore(n, v);
      ValueSnoc(BitsOf(n - 1, v / 2), v % 2 == 1);
      OddBit(v);
    } else {
      AtZero(v);
    }
  }

  /** Truncating to k bits leaves the lower fields alone. */
  lemma {:induction false} BitsOfLow(n: nat, k: nat, v: nat)
    requires n <= k
    ensures BitsOf(n, Low(v, k)) == BitsOf(n, v)
  {
    if n > 0 {
      BitsOfLow(n - 1, k - 1, v / 2);
    }
  }

  lemma {:induction false} LowFits(v: nat, n: nat)
    requires v < Pow2(n)
    ensures Low(v, n) == v
  {
    if n > 0 {
      LowFits(v / 2, n - 1);
    }
  }

  /** A field of n bits below another number: both can be taken out again. */
  lemma {:induction false} ShiftedField(n: nat, high: nat, low: nat)
    requires low < Pow2(n)
    ensures Shr(high * Pow2(n) + low, n) == high
    ensures BitsOf(n, high * Pow2(n) + low) == BitsOf(n, low)
  {
    hide *;
    if n > 0 {
      AtOneMore(n, high * Pow2(n) + low);
      AtOneMore(n, low);
      TwiceProduct(high, Pow2(n - 1));
      HalfOfSum(high * Pow2(n - 1), low);
      ShiftedField(n - 1, high, low / 2);
    } else {
      AtZero(high);
      AtZero(low);
    }
  }

  lemma {:induction false} Pow2Sum(m: nat, n: nat)
    ensures Pow2(m + n) == Pow2(m) * Pow2(n)
  {
    hide *;
    if n > 0 {
      Pow2Sum(m, n - 1);
      AtOneMore(n, 0);
      AtOneMore(m + n, 0);
      TwiceProduct(Pow2(m), Pow2(n - 1));
    } else {
      AtZero(0);
    }
  }

  /** A number is its high part and its low part. */
  lemma {:induction false} HighAndLow(v: nat, n: nat)
    ensures v == Shr(v, n) * Pow2(n) + Low(v, n)
  {
    hide *;
    if n > 0 {
      HighAndLow(v / 2, n - 1);
      AtOneMore(n, v);
      TwiceProduct(Shr(v / 2, n - 1), Pow2(n - 1));
    } else {
      AtZero(v);
    }
  }

  lemma HighFits(v: nat, m: nat, n: nat)
    requires v < Pow2(m + n)
    ensures Shr(v, n) < Pow2(m)
  {
    HighAndLow(v, n);
    Pow2Sum(m, n);
    if Shr(v, n) >= Pow2(m) {
      ProductGrows(Shr(v, n), Pow2(m), Pow2(n));
    }
  }

  lemma ProductGrows(a: nat, b: nat, c: nat)
    requires a >= b
    ensures a * c >= b * c
  {
  }

  /** The low part of a number put together from two fields. */
  lemma {:induction false} LowField(n: nat, high: nat, low: nat)
    requires low < Pow2(n)
    ensures Low(high * Pow2(n) + low, n) == low
  {
    hide *;
    if n > 0 {
      AtOneMore(n, high * Pow2(n) + low);
      TwiceProduct(high, Pow2(n - 1));
      HalfOfSum(high * Pow2(n - 1), low);
      LowField(n - 1, high, low / 2);
    } else {
      AtZero(high + low);
    }
  }

  /** v << n. */
  function Shl(v: nat, n: nat): nat {
    v * Pow2(n)
  }

  lemma ShlShl(v: nat, m: nat, n: nat)
    ensures Shl(Shl(v, m), n) == Shl(v, m + n)
  {
    Pow2Sum(m, n);
    var p, q := Pow2(m), Pow2(n);
    assert (v * p) * q == v * (p * q);
  }

  lemma ShlAdd(a: nat, b: nat, n: nat)
    ensures Shl(a + b, n) == Shl(a, n) + Shl(b, n)
  {
  }

  lemma ShlFits(v: nat, m: nat, n: nat)
    requires v < Pow2(m)
    ensures Shl(v, n) < Pow2(m + n)
  {
    Pow2Sum(m, n);
    ProductGrows(Pow2(m), v + 1, Pow2(n));
  }

  /** A number put together from two fields, and taken apart again. */
  lemma TwoFields(high: nat, low: nat, n: nat)
    requires low < Pow2(n)
    ensures Shr(Shl(high, n) + low, n) == high && Low(Shl(high, n) + low, n) == low
    ensures BitsOf(n, Shl(high, n) + low) == BitsOf(n, low)
  {
    ShiftedField(n, high, low);
    LowField(n, high, low);
  }

  lemma TakenApart(v: nat, n: nat)
    ensures v == Shl(Shr(v, n), n) + Low(v, n)
  {
    HighAndLow(v, n);
  }

  lemma ShlByte(v: nat)
    ensures Shl(v, 8) == 256 * v && Shl(v, 0) == v
  {
    WordSize();
  }

  lemma WordSize()
    ensures Pow2(8) == 256 && Pow2(16) == 0x1_0000 && Pow2(24) == 0x100_0000 && Pow2(32) == 0x1_0000_0000
  {
    assert Pow2(4) == 16 && Pow2(8) == 256 && Pow2(12) == 4096 && Pow2(16) == 0x1_0000;
    assert Pow2(20) == 0x10_0000 && Pow2(24) == 0x100_0000 && Pow2(28) == 0x1000_0000;
  }

  lemma Associate<T>(a: seq<T>, b: seq<T>, c: seq<T>)
    ensures a + b + c == a + (b + c)
  {
  }
}
