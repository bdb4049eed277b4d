/**
 crc32_combine_ (dep/zlib/crc32.c): matrices over GF(2), squared again and again, apply as many zero bytes to a CRC as the
 second part is long.
 */
module CrcCombine {
  import opened Bits
  import opened CrcShift

  /** A row: 1 << i. */
  function Double(c: bv32): bv32 {
    c << 1
  }

  function Lift(c: bv32, i: nat): bv32 {
    if i == 0 then c else Double(Lift(c, i - 1))
  }

  lemma DoubleXor(a: bv32, b: bv32)
    ensures Double(Xor(a, b)) == Xor(Double(a), Double(b))
  {
  }

  lemma LiftNext(c: bv32, i: nat)
    ensures Lift(c, 0) == c && Lift(c, i + 1) == Double(Lift(c, i))
  {
  }

  lemma {:induction false} LiftXor(a: bv32, b: bv32, i: nat)
    ensures Lift(Xor(a, b), i) == Xor(Lift(a, i), Lift(b, i))
  {
    hide Double, Xor;
    if i > 0 {
      LiftXor(a, b, i - 1);
      DoubleXor(Lift(a, i - 1), Lift(b, i - 1));
    }
  }

  lemma {:induction false} LiftDouble(c: bv32, i: nat)
    ensures Lift(Double(c), i) == Lift(c, i + 1)
  {
    hide Double;
    if i > 0 {
      LiftDouble(c, i - 1);
    }
  }

  /** A number is its lowest bit and twice its half. */
  lemma LowAndHalf(v: bv32)
    ensures v == Xor(if Odd(v) then 1 else 0, Double(Half(v)))
  {
    LowBit(v);
    if v & 1 == 1 { OddParts(v); } else { EvenParts(v); }
  }

  lemma OddParts(v: bv32)
    requires v & 1 == 1
    ensures v == 1 ^ ((v >> 1) << 1)
  {
  }

  lemma EvenParts(v: bv32)
    requires v & 1 == 0
    ensures v == 0 ^ ((v >> 1) << 1)
  {
  }

  /** After k halvings nothing is left. */
  predicate Fits(v: bv32, k: nat) {
    v == 0 || (k > 0 && Fits(Half(v), k - 1))
  }

  lemma {:induction false} FitsMore(v: bv32, k: nat)
    requires Fits(v, k)
    ensures Fits(v, k + 1)
    decreases k
  {
    hide Half;
    if v != 0 { FitsMore(Half(v), k - 1); }
  }

  lemma FitsDouble(v: bv32, k: nat)
    requires Fits(Half(v), k)
    ensures Fits(v, k + 1)
  {
  }

  lemma EightHalves(v: bv32, k: nat)
    requires Fits(v >> 8, k)
    ensures Fits(v, k + 8)
  {
    HalfAgain(v);
    hide Half, Fits;
    FitsDouble(v >> 7, k);
    FitsDouble(v >> 6, k + 1);
    FitsDouble(v >> 5, k + 2);
    FitsDouble(v >> 4, k + 3);
    FitsDouble(v >> 3, k + 4);
    FitsDouble(v >> 2, k + 5);
    FitsDouble(v >> 1, k + 6);
    FitsDouble(v, k + 7);
  }

  lemma AllFit(v: bv32)
    ensures Fits(v, 32)
  {
    NothingLeft(v);
    var a := v >> 8;
    var b := a >> 8;
    var c := b >> 8;
    hide Half;
    assert Fits(c >> 8, 0);
    EightHalves(c, 0);
    EightHalves(b, 8);
    EightHalves(a, 16);
    EightHalves(v, 24);
  }

  lemma NothingLeft(v: bv32)
    ensures (((v >> 8) >> 8) >> 8) >> 8 == 0
  {
  }

  /** The row of a matrix that a bit adds to the product. */
  function Chosen(odd: bool, row: bv32): bv32 {
    if odd then row else 0
  }

  /** gf2_matrix_times, from row i on. */
  function Times(mat: seq<bv32>, i: nat, v: bv32): bv32
    requires i <= |mat| == 32 && Fits(v, 32 - i)
    decreases 32 - i
  {
    if v == 0 then 0 else Xor(Chosen(Odd(v), mat[i]), Times(mat, i + 1, Half(v)))
  }

  /** The operator that lets n zero bits enter the register. */
  ghost predicate Operator(mat: seq<bv32>, n: nat) {
    |mat| == 32 && forall i :: 0 <= i < 32 ==> mat[i] == Shift(Lift(1, i), n)
  }

  lemma OperatorAt(mat: seq<bv32>, n: nat, i: nat)
    requires Operator(mat, n) && i < 32
    ensures |mat| == 32 && mat[i] == Shift(Lift(1, i), n)
  {
  }

  lemma {:induction false} LiftZero(i: nat)
    ensures Lift(0, i) == 0
  {
    if i > 0 { LiftZero(i - 1); }
  }

  /** Multiplying by the operator is shifting. */
  lemma {:induction false} TimesIsShift(mat: seq<bv32>, n: nat, i: nat, v: bv32)
    requires Operator(mat, n) && i <= |mat| == 32 && Fits(v, 32 - i)
    ensures Times(mat, i, v) == Shift(Lift(v, i), n)
    decreases 32 - i
  {
    if v == 0 {
      LiftZero(i);
      ShiftZero(n);
    } else {
      FitsHalf(v, 32 - i);
      TimesStep(mat, i, v);
      hide *;
      var h, o: bv32 := Half(v), if Odd(v) then 1 else 0;
      TimesIsShift(mat, n, i + 1, h);
      OperatorAt(mat, n, i);
      LowAndHalf(v);
      LiftXor(o, Double(h), i);
      LiftDouble(h, i);
      ShiftLinear(Lift(o, i), Lift(h, i + 1), n);
      LiftZero(i);
      ShiftZero(n);
    }
  }

  lemma FitsHalf(v: bv32, k: nat)
    requires Fits(v, k) && v != 0
    ensures k > 0 && Fits(Half(v), k - 1)
  {
  }

  lemma TimesStep(mat: seq<bv32>, i: nat, v: bv32)
    requires i < |mat| == 32 && Fits(v, 32 - i) && v != 0 && Fits(Half(v), 32 - (i + 1))
    ensures Times(mat, i, v) == Xor(Chosen(Odd(v), mat[i]), Times(mat, i + 1, Half(v)))
  {
  }

  /** The product of a matrix and a vector. */
  ghost function Product(mat: seq<bv32>, v: bv32): bv32
    requires |mat| == 32
  {
    AllFit(v);
    Times(mat, 0, v)
  }

  lemma ProductIs(mat: seq<bv32>, v: bv32)
    requires |mat| == 32
    ensures Fits(v, 32) && Product(mat, v) == Times(mat, 0, v)
  {
    AllFit(v);
  }

  lemma {:induction false} FitsXor(a: bv32, b: bv32, k: nat)
    requires Fits(a, k) && Fits(b, k)
    ensures Fits(Xor(a, b), k)
    decreases k
  {
    if k > 0 {
      HalfOfFitting(a, k);
      HalfOfFitting(b, k);
      FitsXor(Half(a), Half(b), k - 1);
      HalfXor(a, b);
    } else {
      XorGroup(0, 0, 0);
    }
  }

  lemma HalfOfFitting(a: bv32, k: nat)
    requires Fits(a, k) && k > 0
    ensures Fits(Half(a), k - 1)
  {
    if a == 0 { assert Half(0) == 0; }
  }

  lemma TimesUnfold(mat: seq<bv32>, i: nat, v: bv32)
    requires i < |mat| == 32 && Fits(v, 32 - i)
    ensures Fits(Half(v), 32 - (i + 1))
    ensures Times(mat, i, v) == Xor(Chosen(Odd(v), mat[i]), Times(mat, i + 1, Half(v)))
  {
    HalfOfFitting(v, 32 - i);
    if v == 0 {
      assert Half(0) == 0 && !Odd(0);
      XorGroup(0, 0, 0);
    }
  }

  lemma ChosenIs(odd: bool, row: bv32)
    ensures Chosen(odd, row) == if odd then row else 0
  {
  }

  lemma ChosenXor(p: bool, q: bool, row: bv32)
    ensures Xor(Chosen(p, row), Chosen(q, row)) == Chosen(p != q, row)
  {
    XorGroup(row, 0, 0);
    XorGroup(0, row, 0);
    XorGroup(0, 0, 0);
  }

  /** Multiplication is linear. */
  lemma {:induction false} TimesLinear(mat: seq<bv32>, i: nat, a: bv32, b: bv32)
    requires i <= |mat| == 32 && Fits(a, 32 - i) && Fits(b, 32 - i)
    ensures Fits(Xor(a, b), 32 - i) && Times(mat, i, Xor(a, b)) == Xor(Times(mat, i, a), Times(mat, i, b))
    decreases 32 - i
  {
    FitsXor(a, b, 32 - i);
    if i < 32 {
      hide *;
      TimesUnfold(mat, i, a);
      TimesUnfold(mat, i, b);
      TimesUnfold(mat, i, Xor(a, b));
      TimesLinear(mat, i + 1, Half(a), Half(b));
      HalfXor(a, b);
      OddXor(a, b);
      XorSwap(Chosen(Odd(a), mat[i]), Times(mat, i + 1, Half(a)), Chosen(Odd(b), mat[i]), Times(mat, i + 1, Half(b)));
      ChosenXor(Odd(a), Odd(b), mat[i]);
    } else {
      XorGroup(0, 0, 0);
    }
  }

  /** A matrix whose rows are the products of another one's rows multiplies twice. */
  lemma {:induction false} SquareTimes(square: seq<bv32>, mat: seq<bv32>, i: nat, v: bv32)
    requires i <= |square| == |mat| == 32 && Fits(v, 32 - i) && forall k :: 0 <= k < 32 ==> square[k] == Product(mat, mat[k])
    ensures Times(square, i, v) == Product(mat, Times(mat, i, v))
    decreases 32 - i
  {
    hide *;
    ProductIs(mat, 0);
    TimesNone(mat, 0);
    if i < 32 {
      TimesUnfold(square, i, v);
      TimesUnfold(mat, i, v);
      var row, rest := Chosen(Odd(v), mat[i]), Times(mat, i + 1, Half(v));
      ChosenIs(Odd(v), mat[i]);
      ChosenIs(Odd(v), square[i]);
      SquareTimes(square, mat, i + 1, Half(v));
      ProductIs(mat, row);
      ProductIs(mat, rest);
      ProductIs(mat, Xor(row, rest));
      TimesLinear(mat, 0, row, rest);
    } else {
      NothingFits(v);
      TimesNone(mat, 32);
      TimesNone(square, 32);
    }
  }

  lemma NothingFits(v: bv32)
    ensures Fits(v, 0) <==> v == 0
  {
  }

  /** gf2_matrix_times: the product, without leaving the matrix. */
  method MatrixTimes(mat: array<bv32>, vec0: bv32) returns (sum: bv32)
    requires mat.Length == 32
    ensures sum == Product(mat[..], vec0)
  {
    hide *;
    ghost var m := mat[..];
    ProductIs(m, vec0);
    LiftNext(vec0, 0);
    sum := 0;
    var vec, i := vec0, 0;
    XorGroup(0, Times(m, 0, vec0), 0);
    XorGroup(Times(m, 0, vec0), 0, 0);
    while vec != 0
      invariant 0 <= i <= 32 && Fits(vec, 32 - i) && Xor(sum, Times(m, i, vec)) == Times(m, 0, vec0)
      decreases 32 - i
    {
      FitsHalf(vec, 32 - i);
      TimesStep(m, i, vec);
      ChosenIs(Odd(vec), m[i]);
      XorGroup(sum, Chosen(Odd(vec), m[i]), Times(m, i + 1, Half(vec)));
      XorGroup(sum, 0, 0);
      if Odd(vec) { sum := Xor(sum, mat[i]); }
      vec := Half(vec);
      i := i + 1;
    }
    TimesNone(m, i);
    XorGroup(sum, 0, 0);
  }

  lemma TimesNone(mat: seq<bv32>, i: nat)
    requires i <= |mat| == 32 && Fits(0, 32 - i)
    ensures Times(mat, i, 0) == 0
  {
  }

  /** gf2_matrix_square: multiplying by the square is multiplying twice. */
  method MatrixSquare(square: array<bv32>, mat: array<bv32>)
    requires square != mat && square.Length == mat.Length == 32
    modifies square
    ensures forall k :: 0 <= k < 32 ==> square[k] == Product(mat[..], mat[k])
    ensures forall v :: Product(square[..], v) == Product(mat[..], Product(mat[..], v))
  {
    hide *;
    ghost var m := mat[..];
    var i := 0;
    while i < 32
      invariant 0 <= i <= 32 && mat[..] == m
      invariant forall k :: 0 <= k < i ==> square[k] == Product(m, m[k])
    {
      square[i] := MatrixTimes(mat, mat[i]);
      i := i + 1;
    }
    forall v
      ensures Product(square[..], v) == Product(m, Product(m, v))
    {
      ProductIs(square[..], v);
      ProductIs(m, v);
      SquareTimes(square[..], m, 0, v);
    }
  }

  lemma OperatorProduct(mat: seq<bv32>, n: nat, v: bv32)
    requires Operator(mat, n)
    ensures |mat| == 32 && Product(mat, v) == Shift(v, n)
  {
    AllFit(v);
    TimesIsShift(mat, n, 0, v);
    LiftNext(v, 0);
  }

  /** The square of the operator for n zero bits is the operator for twice as many. */
  lemma SquareOperator(square: seq<bv32>, mat: seq<bv32>, n: nat)
    requires Operator(mat, n) && |square| == |mat| == 32 && forall k :: 0 <= k < 32 ==> square[k] == Product(mat, mat[k])
    ensures Operator(square, 2 * n)
  {
    hide *;
    forall i | 0 <= i < 32
      ensures square[i] == Shift(Lift(1, i), 2 * n)
    {
      OperatorAt(mat, n, i);
      OperatorProduct(mat, n, mat[i]);
      ShiftSum(Lift(1, i), n, n);
    }
    OperatorFrom(square, 2 * n);
  }

  lemma OperatorFrom(mat: seq<bv32>, n: nat)
    requires |mat| == 32 && forall i :: 0 <= i < 32 ==> mat[i] == Shift(Lift(1, i), n)
    ensures Operator(mat, n)
  {
  }

  /** The operator for one zero bit. */
  method OneZeroBit(odd: array<bv32>)
    requires odd.Length == 32
    modifies odd
    ensures Operator(odd[..], 1)
  {
    hide *;
    odd[0] := 0xedb8_8320;
    FirstRow();
    var row: bv32 := 1;
    var n := 1;
    LiftNext(1, 0);
    while n < 32
      invariant 1 <= n <= 32 && row == Lift(1, n - 1)
      invariant forall k :: 0 <= k < n ==> odd[k] == Shift(Lift(1, k), 1)
    {
      LiftNext(1, n - 1);
      ShiftNext(Lift(1, n), 0);
      ShiftNext(Bit(Lift(1, n)), 0);
      LiftedBit(n);
      odd[n] := row;
      row := Double(row);
      n := n + 1;
    }
    OperatorFrom(odd[..], 1);
  }

  lemma FirstRow()
    ensures Shift(Lift(1, 0), 1) == 0xedb8_8320
  {
    ShiftNext(1, 0);
    ShiftNext(Bit(1), 0);
    OneIsOdd();
  }

  lemma OneIsOdd()
    ensures Bit(1) == 0xedb8_8320
  {
    BitIs(1);
    HalfOfOne();
  }

  lemma HalfOfOne()
    ensures Half(1) == 0 && Odd(1) && Xor(0xedb8_8320, 0) == 0xedb8_8320
  {
  }

  /** A bit that is not the lowest moves down by one. */
  lemma LiftedBit(n: nat)
    requires 1 <= n < 32
    ensures Bit(Lift(1, n)) == Lift(1, n - 1)
  {
    hide *;
    LiftNext(1, n - 1);
    LowRow(n - 1);
    HalfDouble(Lift(1, n - 1));
    BitIs(Lift(1, n));
  }

  /** The rows are short enough to be doubled: otherwise row 31 would be empty. */
  lemma LowRow(n: nat)
    requires n < 31
    ensures Lift(1, n) < 0x8000_0000
  {
    hide *;
    if Lift(1, n) >= 0x8000_0000 {
      SingleRow(n);
      TopSingle(Lift(1, n));
      LiftNext(1, n);
      RowGone(n + 1, 31);
      LastRow();
      assert false;
    }
  }

  lemma {:induction false} SingleRow(n: nat)
    ensures Lift(1, n) & (Lift(1, n) - 1) == 0
  {
    if n > 0 {
      SingleRow(n - 1);
      hide *;
      LiftNext(1, n - 1);
      DoubleSingle(Lift(1, n - 1));
    }
  }

  lemma DoubleSingle(c: bv32)
    requires c & (c - 1) == 0
    ensures Double(c) & (Double(c) - 1) == 0
  {
  }

  lemma TopSingle(c: bv32)
    requires c & (c - 1) == 0 && c >= 0x8000_0000
    ensures Double(c) == 0
  {
  }

  lemma {:induction false} RowGone(n: nat, m: nat)
    requires Lift(1, n) == 0 && n <= m
    ensures Lift(1, m) == 0
    decreases m
  {
    if n < m {
      RowGone(n, m - 1);
      assert Double(0) == 0;
    }
  }

  lemma LastRow()
    ensures Lift(1, 31) == 0x8000_0000
  {
    assert Lift(1, 4) == 0x10;
    assert Lift(1, 8) == 0x100;
    assert Lift(1, 12) == 0x1000;
    assert Lift(1, 16) == 0x1_0000;
    assert Lift(1, 20) == 0x10_0000;
    assert Lift(1, 24) == 0x100_0000;
    assert Lift(1, 28) == 0x1000_0000;
  }

  lemma HalfDouble(c: bv32)
    requires c < 0x8000_0000
    ensures Half(Double(c)) == c && !Odd(Double(c))
  {
  }

  /** The operator is squared. */
  method Squared(square: array<bv32>, mat: array<bv32>, ghost n: nat)
    requires square != mat && square.Length == 32 && Operator(mat[..], n)
    modifies square
    ensures Operator(square[..], 2 * n)
  {
    hide *;
    OperatorAt(mat[..], n, 0);
    MatrixSquare(square, mat);
    SquareOperator(square[..], mat[..], n);
  }

  /**
   crc32_combine_. For every length, negative ones included, it applies that many zero bytes to the first CRC; so for the CRCs
   of two strings it gives the CRC of the concatenation.
   */
  method Combine(crc1start: bv32, crc2: bv32, len2start: int) returns (crc: bv32)
    ensures len2start <= 0 ==> crc == crc1start
    ensures len2start > 0 ==> crc == Xor(Shift(crc1start, 8 * len2start), crc2)
    ensures forall c, a, b :: crc1start == Crc(c, a) && crc2 == Crc(0, b) && len2start == |b| ==> crc == Crc(c, a + b)
  {
    hide *;
    if len2start <= 0 {
      NothingAdded(crc1start, len2start);
      return crc1start;
    }
    var crc1, len2 := crc1start, len2start;
    var odd, even := new bv32[32], new bv32[32];
    OneZeroBit(odd);
    Squared(even, odd, 1);
    Squared(odd, even, 2);
    ghost var u: nat := 4;
    while true
      invariant Operator(odd[..], u) && u >= 1 && len2 > 0 && Shift(crc1, 2 * u * len2) == Shift(crc1start, 8 * len2start)
      decreases len2
    {
      Squared(even, odd, u);
      ApplyBit(crc1, 2 * u, len2);
      OperatorProduct(even[..], 2 * u, crc1);
      if len2 % 2 == 1 { crc1 := MatrixTimes(even, crc1); }
      len2 := len2 / 2;
      if len2 == 0 { NoBytes(crc1, 2 * (2 * u)); break; }
      Squared(odd, even, 2 * u);
      ApplyBit(crc1, 2 * (2 * u), len2);
      OperatorProduct(odd[..], 2 * (2 * u), crc1);
      if len2 % 2 == 1 { crc1 := MatrixTimes(odd, crc1); }
      len2 := len2 / 2;
      u := 2 * (2 * u);
      if len2 == 0 { NoBytes(crc1, 2 * u); break; }
    }
    crc := Xor(crc1, crc2);
    forall c, a, b | crc1start == Crc(c, a) && crc2 == Crc(0, b) && len2start == |b|
      ensures crc == Crc(c, a + b)
    {
      CombinedCrc(c, a, b);
    }
  }

  /** One bit of the length. */
  lemma ApplyBit(c: bv32, n: nat, len: nat)
    ensures Shift(c, n * len) == Shift(if len % 2 == 1 then Shift(c, n) else c, 2 * n * (len / 2))
  {
    hide Shift;
    var h := len / 2;
    if len % 2 == 1 {
      assert n * len == n + 2 * n * h by { assert len == 2 * h + 1; }
      ShiftSum(c, n, 2 * n * h);
    } else {
      assert n * len == 2 * n * h by { assert len == 2 * h; }
    }
  }

  lemma NoBytes(c: bv32, n: nat)
    ensures Shift(c, n * 0) == c
  {
  }

  lemma NothingAdded(crc: bv32, len: int)
    requires len <= 0
    ensures forall c, a, b: seq<byte> :: crc == Crc(c, a) && len == |b| ==> crc == Crc(c, a + b)
  {
    forall c, a, b: seq<byte> | crc == Crc(c, a) && len == |b|
      ensures crc == Crc(c, a + b)
    {
      assert a + b == a;
    }
  }
}
