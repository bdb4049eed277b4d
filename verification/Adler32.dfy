/** The Adler-32 checksum of zlib (dep/zlib/adler32.c; sections 8.2 and 9 of RFC 1950), with the remainder put off. BASE is 65521, NMAX 5552. */
module Adler32 {
  import opened Bits

  /** The two sums. */
  datatype Sums = Sums(a: nat, b: nat)

  /** One byte at a time, as RFC 1950 defines it. */
  function Bytewise(from: Sums, s: seq<byte>): (r: Sums) {
    if s == [] then from
    else
      var r := Bytewise(from, s[..|s| - 1]);
      var a := (r.a + s[|s| - 1]) % 65521;
      Sums(a, (r.b + a) % 65521)
  }

  /** The checksum of a string. */
  function Checksum(s: seq<byte>): Sums {
    Bytewise(Sums(1, 0), s)
  }

  /** The sums as one word. */
  function Packed(r: Sums): nat {
    r.a + 0x1_0000 * r.b
  }

  predicate Reduced(r: Sums) {
    r.a < 65521 && r.b < 65521
  }

  /** A checksum in pieces. */
  lemma {:induction false} InPieces(from: Sums, s: seq<byte>, t: seq<byte>)
    ensures Bytewise(from, s + t) == Bytewise(Bytewise(from, s), t)
    decreases |t|
  {
    if t == [] {
      assert s + t == s;
    } else {
      InPieces(from, s, t[..|t| - 1]);
      assert (s + t)[..|s + t| - 1] == s + t[..|t| - 1];
    }
  }

  lemma {:induction false} StaysReduced(from: Sums, s: seq<byte>)
    requires Reduced(from)
    ensures Reduced(Bytewise(from, s))
  {
    if s != [] { StaysReduced(from, s[..|s| - 1]); }
  }

  // Without remainders.

  /** The sum of the bytes, and the sum of the sums. */
  function Exact(from: Sums, s: seq<byte>): (r: Sums) {
    if s == [] then from
    else
      var r := Exact(from, s[..|s| - 1]);
      Sums(r.a + s[|s| - 1], r.b + r.a + s[|s| - 1])
  }

  /** Both sums agree with those of the definition, however they were reduced before. */
  ghost predicate Agree(x: Sums, y: Sums) {
    x.a % 65521 == y.a % 65521 && x.b % 65521 == y.b % 65521
  }

  lemma StepAgrees(r: Sums, r': Sums, b: byte)
    requires Agree(r, r')
    ensures var a := (r'.a + b) % 65521;
            Agree(Sums(r.a + b, r.b + r.a + b), Sums(a, (r'.b + a) % 65521))
  {
    PlusSame(r.a, r'.a, b, b);
    PlusSame(r.a + b, (r'.a + b) % 65521, r.b, r'.b);
  }

  lemma PlusSame(x: nat, y: nat, d: nat, e: nat)
    requires x % 65521 == y % 65521 && d % 65521 == e % 65521
    ensures (x + d) % 65521 == (y + e) % 65521 == ((y + e) % 65521) % 65521
  {
    var m, n := x % 65521, d % 65521;
    Shift(m + n, x / 65521 + d / 65521);
    Shift(m + n, y / 65521 + e / 65521);
    assert x + d == m + n + 65521 * (x / 65521 + d / 65521) && y + e == m + n + 65521 * (y / 65521 + e / 65521);
  }

  /** Multiples of BASE do not matter. */
  lemma Shift(x: int, q: int)
    ensures (x + 65521 * q) % 65521 == x % 65521
  {
  }

  lemma {:induction false} ExactAgrees(from: Sums, from': Sums, s: seq<byte>)
    requires Agree(from, from')
    ensures Agree(Exact(from, s), Bytewise(from', s))
  {
    if s != [] {
      ExactAgrees(from, from', s[..|s| - 1]);
      hide Agree;
      StepAgrees(Exact(from, s[..|s| - 1]), Bytewise(from', s[..|s| - 1]), s[|s| - 1]);
    }
  }

  /** How large the sums can get: n bytes of 255 at most. */
  lemma {:induction false} ExactBound(from: Sums, s: seq<byte>)
    ensures Exact(from, s).a <= from.a + 255 * |s|
    ensures 2 * Exact(from, s).b <= 2 * from.b + 2 * |s| * from.a + 255 * |s| * (|s| + 1)
  {
    if s != [] {
      var n := |s| - 1;
      ExactBound(from, s[..n]);
      assert 255 * (n + 1) * (n + 2) == 255 * n * (n + 1) + 2 * 255 * (n + 1);
      assert 2 * (n + 1) * from.a == 2 * n * from.a + 2 * from.a;
    }
  }

  /** Up to NMAX bytes no sum leaves 32 bits, whatever 16-bit halves it starts from. */
  lemma NoOverflow(from: Sums, s: seq<byte>)
    requires from.a <= 0xffff && from.b <= 0xffff && |s| <= 5552
    ensures Exact(from, s).a <= 0xffff_ffff && Exact(from, s).b <= 0xffff_ffff
  {
    ExactBound(from, s);
    Product(|s|, 5552, from.a, 0xffff);
    Product(|s|, 5552, |s| + 1, 5553);
    assert 2 * |s| * from.a == 2 * (|s| * from.a) && 255 * |s| * (|s| + 1) == 255 * (|s| * (|s| + 1));
  }

  lemma Product(a: nat, a': nat, b: nat, b': nat)
    requires a <= a' && b <= b'
    ensures a * b <= a' * b'
  {
    ProductGrows(a', a, b);
    ProductGrows(b', b, a');
  }

  // The macros without division.

  /** CHOP: 65536 is 15 more than BASE. */
  function Chop(a: nat): nat {
    a % 0x1_0000 + 15 * (a / 0x1_0000)
  }

  /** MOD28. */
  function Mod28(a: nat): nat {
    var c := Chop(a);
    if c >= 65521 then c - 65521 else c
  }

  /** MOD. */
  function Mod(a: nat): nat {
    Mod28(Chop(a))
  }

  /** MOD63: 2^32 is 225 more than a multiple of BASE. */
  function Mod63(a: nat): nat {
    Mod28(Chop(a % 0x1_0000_0000 + 225 * (a / 0x1_0000_0000)))
  }

  /** Each macro is the remainder on the numbers that it is used for. */
  lemma MacrosDivide(a: nat)
    ensures a < 0x1000_0000 ==> Mod28(a) == a % 65521
    ensures a < 0x1_0000_0000 ==> Mod(a) == a % 65521
    ensures a < 0x8000_0000_0000_0000 ==> Mod63(a) == a % 65521
  {
    hide Chop, Mod28;
    if a < 0x1000_0000 { Mod28Divides(a); }
    if a < 0x1_0000_0000 {
      ChopKeeps(a);
      Mod28Divides(Chop(a));
    }
    if a < 0x8000_0000_0000_0000 {
      var f := a % 0x1_0000_0000 + 225 * (a / 0x1_0000_0000);
      assert a == f + 65521 * (65551 * (a / 0x1_0000_0000));
      Shift(f, 65551 * (a / 0x1_0000_0000));
      ChopKeeps(f);
      Mod28Divides(Chop(f));
    }
  }

  lemma Mod28Divides(a: nat)
    requires a < 0x1000_0000
    ensures Mod28(a) == a % 65521
  {
    hide Chop;
    ChopKeeps(a);
    Shift(Mod28(a), if Chop(a) >= 65521 then 1 else 0);
  }

  lemma ChopKeeps(a: nat)
    ensures Chop(a) % 65521 == a % 65521
    ensures Chop(a) <= 0xffff + 15 * (a / 0x1_0000)
  {
    assert a == Chop(a) + 65521 * (a / 0x1_0000);
    Shift(Chop(a), a / 0x1_0000);
  }

  // adler32.

  /** n of the unrolled sums; they stay within 32 bits. */
  method AddBytes(a: nat, b: nat, buf: seq<byte>, i: nat, n: nat) returns (adler: nat, sum2: nat)
    requires a <= 0xffff && b <= 0xffff && n <= 5552 && i + n <= |buf|
    ensures Sums(adler, sum2) == Exact(Sums(a, b), buf[i..i + n]) && adler <= 0xffff_ffff && sum2 <= 0xffff_ffff
    ensures adler <= a + 255 * n
  {
    adler, sum2 := a, b;
    var k := 0;
    while k < n
      invariant k <= n && Sums(adler, sum2) == Exact(Sums(a, b), buf[i..i + k])
    {
      var piece := buf[i..i + k + 1];
      assert piece[..k] == buf[i..i + k] && piece[k] == buf[i + k];
      NoOverflow(Sums(a, b), piece);
      adler := adler + buf[i + k];
      sum2 := sum2 + adler;
      k := k + 1;
    }
    NoOverflow(Sums(a, b), buf[i..i + n]);
    ExactBound(Sums(a, b), buf[i..i + n]);
  }

  /** The sums so far: they agree with the definition, and fit 16 bits. */
  ghost predicate SoFar(from: Sums, buf: seq<byte>, i: nat, a: nat, b: nat) {
    i <= |buf| && Agree(Sums(a, b), Bytewise(from, buf[..i])) && a <= 0xffff && b <= 0xffff
  }

  lemma MoreBytes(from: Sums, buf: seq<byte>, i: nat, n: nat, a: nat, b: nat, a': nat, b': nat)
    requires SoFar(from, buf, i, a, b) && i + n <= |buf| && Sums(a', b') == Exact(Sums(a, b), buf[i..i + n])
    ensures Agree(Sums(a', b'), Bytewise(from, buf[..i + n]))
    ensures SoFar(from, buf, i + n, a' % 65521, b' % 65521)
  {
    InPieces(from, buf[..i], buf[i..i + n]);
    assert buf[..i] + buf[i..i + n] == buf[..i + n];
    ExactAgrees(Sums(a, b), Bytewise(from, buf[..i]), buf[i..i + n]);
    hide Agree, Bytewise, Exact;
    AgreeReduced(Sums(a', b'), Bytewise(from, buf[..i + n]));
  }

  lemma AgreeReduced(x: Sums, y: Sums)
    requires Agree(x, y)
    ensures Agree(Sums(x.a % 65521, x.b % 65521), y)
    ensures Reduced(y) ==> y == Sums(x.a % 65521, x.b % 65521)
  {
  }

  /**
   adler32. The result agrees with the definition whatever word it starts from, and is the checksum when it starts from one;
   no sum leaves 32 bits, and every remainder is taken where the macros without division are right.
   */
  method Adler(adler: nat, buf: seq<byte>) returns (r: nat)
    requires adler <= 0xffff_ffff
    ensures r <= 0xffff_ffff
    ensures var from := Sums(adler % 0x1_0000, adler / 0x1_0000);
            && Agree(Sums(r % 0x1_0000, r / 0x1_0000), Bytewise(from, buf))
            && (Reduced(from) ==> r == Packed(Bytewise(from, buf)))
  {
    var a: nat, b: nat := adler % 0x1_0000, adler / 0x1_0000;
    ghost var from := Sums(a, b);
    hide *;
    Start(from, buf);
    if |buf| < 16 {
      a, b := Short(a, b, buf);
      return Pack(from, buf, a, b);
    }
    var i := 0;
    while |buf| - i >= 5552
      invariant SoFar(from, buf, i, a, b) && i <= |buf| && a <= 0xffff && b <= 0xffff
      invariant i > 0 ==> a < 65521 && b < 65521
      decreases |buf| - i
    {
      ghost var a0, b0 := a, b;
      a, b := AddBytes(a, b, buf, i, 5552);
      MoreBytes(from, buf, i, 5552, a0, b0, a, b);
      MacrosDivide(a);
      MacrosDivide(b);
      a, b := Mod(a), Mod(b);
      i := i + 5552;
      SoFarIs(from, buf, i, a, b);
    }
    if i < |buf| {
      ghost var a0, b0 := a, b;
      var n := |buf| - i;
      a, b := AddBytes(a, b, buf, i, n);
      MoreBytes(from, buf, i, n, a0, b0, a, b);
      MacrosDivide(a);
      MacrosDivide(b);
      a, b := Mod(a), Mod(b);
      i := i + n;
      SoFarIs(from, buf, i, a, b);
    }
    r := Pack(from, buf, a, b);
  }

  /** The paths for less than 16 bytes: sums this small need only one subtraction, or MOD28. */
  method Short(a: nat, b: nat, buf: seq<byte>) returns (adler: nat, sum2: nat)
    requires a <= 0xffff && b <= 0xffff && |buf| < 16
    ensures adler <= 0xffff && sum2 <= 0xffff && SoFar(Sums(a, b), buf, |buf|, adler, sum2)
    ensures a < 65521 && b < 65521 ==> adler < 65521 && sum2 < 65521
  {
    hide *;
    ghost var from := Sums(a, b);
    if |buf| == 1 {
      adler := a + buf[0];
      if adler >= 65521 { adler := adler - 65521; }
      sum2 := b + adler;
      if sum2 >= 65521 { sum2 := sum2 - 65521; }
      OneByte(from, buf, adler, sum2);
    } else {
      Start(from, buf);
      adler, sum2 := AddBytes(a, b, buf, 0, |buf|);
      MoreBytes(from, buf, 0, |buf|, a, b, adler, sum2);
      ExactBound(from, buf[0..|buf|]);
      Product(|buf|, 15, a, 0xffff);
      Product(|buf|, 15, |buf| + 1, 16);
      ShortBound(|buf|, a);
      MacrosDivide(sum2);
      if adler >= 65521 { adler := adler - 65521; }
      sum2 := Mod28(sum2);
    }
  }

  lemma ShortBound(n: nat, a: nat)
    ensures 2 * n * a == 2 * (n * a) && 255 * n * (n + 1) == 255 * (n * (n + 1))
  {
  }

  lemma OneByte(from: Sums, buf: seq<byte>, a: nat, b: nat)
    requires |buf| == 1 && a <= 0xffff && b <= 0xffff
    requires a == from.a + buf[0] || a + 65521 == from.a + buf[0]
    requires b == from.b + a || b + 65521 == from.b + a
    ensures SoFar(from, buf, 1, a, b)
  {
    var a1 := (from.a + buf[0]) % 65521;
    assert buf[..1][..0] == [] && Bytewise(from, []) == from;
    assert Bytewise(from, buf[..1]) == Sums(a1, (from.b + a1) % 65521);
    Shift(a, if a == from.a + buf[0] then 0 else 1);
    Shift(b, if b == from.b + a then 0 else 1);
    PlusSame(a, a1, from.b, from.b);
  }

  lemma Start(from: Sums, buf: seq<byte>)
    requires from.a <= 0xffff && from.b <= 0xffff
    ensures SoFar(from, buf, 0, from.a, from.b)
  {
    assert Bytewise(from, buf[..0]) == from;
  }

  lemma SoFarIs(from: Sums, buf: seq<byte>, i: nat, a: nat, b: nat)
    ensures SoFar(from, buf, i, a, b) <==>
            i <= |buf| && Agree(Sums(a, b), Bytewise(from, buf[..i])) && a <= 0xffff && b <= 0xffff
  {
    hide Agree, Bytewise;
  }

  lemma Halves(a: nat, b: nat)
    ensures a <= 0xffff ==> (a + 0x1_0000 * b) % 0x1_0000 == a && (a + 0x1_0000 * b) / 0x1_0000 == b
  {
  }

  /** adler | (sum2 << 16). */
  function Pack(ghost from: Sums, ghost buf: seq<byte>, a: nat, b: nat): (r: nat)
    requires SoFar(from, buf, |buf|, a, b) && (Reduced(from) ==> a < 65521 && b < 65521)
    ensures r <= 0xffff_ffff && Agree(Sums(r % 0x1_0000, r / 0x1_0000), Bytewise(from, buf))
    ensures Reduced(from) ==> r == Packed(Bytewise(from, buf))
  {
    assert buf[..|buf|] == buf;
    Halves(a, b);
    assert Reduced(from) ==> Bytewise(from, buf) == Sums(a, b) by {
      if Reduced(from) {
        StaysReduced(from, buf);
        AgreeReduced(Sums(a, b), Bytewise(from, buf));
      }
    }
    a + 0x1_0000 * b
  }

  // adler32_combine.

  /** The sums of a concatenation, from the sums of the parts and the length of the second. */
  function Combined(x: Sums, y: Sums, n: nat): Sums {
    Sums((x.a + y.a - 1) % 65521, (n * (x.a - 1) + x.b + y.b) % 65521)
  }

  lemma {:induction false} ExactOn(from: Sums, s: seq<byte>, t: seq<byte>)
    ensures Exact(from, s + t) == Exact(Exact(from, s), t)
    decreases |t|
  {
    if t == [] {
      assert s + t == s;
    } else {
      ExactOn(from, s, t[..|t| - 1]);
      assert (s + t)[..|s + t| - 1] == s + t[..|t| - 1];
    }
  }

  /** What the sums start from goes into every later sum. */
  lemma {:induction false} ExactFrom(from: Sums, t: seq<byte>)
    ensures var e := Exact(Sums(0, 0), t); Exact(from, t) == Sums(from.a + e.a, from.b + |t| * from.a + e.b)
  {
    if t != [] {
      var n := |t| - 1;
      ExactFrom(from, t[..n]);
      assert (n + 1) * from.a == n * from.a + from.a;
    }
  }

  /** The checksum of a concatenation, for all strings. */
  lemma CombinedChecksum(s: seq<byte>, t: seq<byte>)
    ensures Combined(Checksum(s), Checksum(t), |t|) == Checksum(s + t)
  {
    var one, n := Sums(1, 0), |t|;
    ExactAgrees(one, one, s);
    ExactAgrees(one, one, t);
    ExactAgrees(one, one, s + t);
    ExactOn(one, s, t);
    ExactFrom(one, t);
    ExactFrom(Exact(one, s), t);
    StaysReduced(one, s + t);
    StaysReduced(one, s);
    StaysReduced(one, t);
    hide *;
    var x, y := Exact(one, s), Exact(one, t);
    FromParts(x, y, Exact(Sums(0, 0), t), Exact(one, s + t), n);
    ChecksumIs(s);
    ChecksumIs(t);
    ChecksumIs(s + t);
    SameCombined(x, Checksum(s), y, Checksum(t), n);
    AgreeReduced(Exact(one, s + t), Checksum(s + t));
  }

  lemma ChecksumIs(s: seq<byte>)
    ensures Checksum(s) == Bytewise(Sums(1, 0), s)
  {
  }

  lemma FromParts(x: Sums, y: Sums, e: Sums, all: Sums, n: nat)
    requires y == Sums(1 + e.a, n * 1 + e.b) || y == Sums(1 + e.a, 0 + n * 1 + e.b)
    requires all == Sums(x.a + e.a, x.b + n * x.a + e.b)
    ensures Combined(x, y, n) == Sums(all.a % 65521, all.b % 65521)
  {
    assert n * (x.a - 1) == n * x.a - n;
  }

  lemma SameCombined(x: Sums, x': Sums, y: Sums, y': Sums, n: nat)
    requires Agree(x, x') && Agree(y, y')
    ensures Combined(x, y, n) == Combined(x', y', n)
  {
    var ka, kb := x.a / 65521 - x'.a / 65521, x.b / 65521 - x'.b / 65521;
    var la, lb := y.a / 65521 - y'.a / 65521, y.b / 65521 - y'.b / 65521;
    assert x.a == x'.a + 65521 * ka && x.b == x'.b + 65521 * kb && y.a == y'.a + 65521 * la && y.b == y'.b + 65521 * lb;
    Shift(x'.a + y'.a - 1, ka + la);
    Spread(n, x'.a - 1, ka);
    Shift(n * (x'.a - 1) + x'.b + y'.b, n * ka + kb + lb);
  }

  lemma Spread(n: nat, a: int, k: int)
    ensures n * (a + 65521 * k) == n * a + 65521 * (n * k)
  {
  }

  /** adler32_combine_; for a negative length it gives no checksum. */
  method Combine(adler1: nat, adler2: nat, len2: int) returns (r: nat)
    requires adler1 <= 0xffff_ffff && adler2 <= 0xffff_ffff && len2 < 0x8000_0000_0000_0000
    ensures len2 < 0 ==> r == 0xffff_ffff
    ensures var x, y := Sums(adler1 % 0x1_0000, adler1 / 0x1_0000), Sums(adler2 % 0x1_0000, adler2 / 0x1_0000);
            len2 >= 0 && Reduced(x) && Reduced(y) ==> r == Packed(Combined(x, y, len2))
  {
    if len2 < 0 { return 0xffff_ffff; }
    MacrosDivide(len2);
    var rem := Mod63(len2);
    var a1, b1, a2, b2 := adler1 % 0x1_0000, adler1 / 0x1_0000, adler2 % 0x1_0000, adler2 / 0x1_0000;
    r := CombineHalves(a1, b1, a2, b2, rem, len2);
  }

  /** The sums from the halves of the checksums, and the remainder of the length. */
  method CombineHalves(a1: nat, b1: nat, a2: nat, b2: nat, rem: nat, ghost n: nat) returns (r: nat)
    requires a1 <= 0xffff && rem == n % 65521
    ensures Reduced(Sums(a1, b1)) && Reduced(Sums(a2, b2)) ==> r == Packed(Combined(Sums(a1, b1), Sums(a2, b2), n))
  {
    hide *;
    Product(rem, 65520, a1, 0xffff);
    MacrosDivide(rem * a1);
    var sum1 := a1;
    var sum2 := Mod(rem * sum1);
    ghost var m: nat := sum2;
    sum1 := sum1 + a2 + 65521 - 1;
    sum2 := sum2 + b1 + b2 + 65521 - rem;
    ghost var k1, k2;
    sum1, sum2, k1, k2 := Subtract(sum1, sum2);
    r := sum1 + 0x1_0000 * sum2;
    ghost var x, y := Sums(a1, b1), Sums(a2, b2);
    ReducedIs(x);
    ReducedIs(y);
    if Reduced(x) && Reduced(y) {
      CombineSums(x, y, n, rem, m, sum1, sum2, k1, k2);
    }
  }

  /** The subtractions at the end of adler32_combine_. */
  method Subtract(s1: nat, s2: nat) returns (sum1: nat, sum2: nat, ghost k1: int, ghost k2: int)
    ensures sum1 == s1 - 65521 * k1 && sum2 == s2 - 65521 * k2
    ensures s1 < 3 * 65521 ==> sum1 < 65521
    ensures s2 < 4 * 65521 ==> sum2 < 65521
  {
    sum1, sum2, k1, k2 := s1, s2, 0, 0;
    if sum1 >= 65521 { sum1 := sum1 - 65521; k1 := 1; }
    if sum1 >= 65521 { sum1 := sum1 - 65521; k1 := k1 + 1; }
    if sum2 >= 2 * 65521 { sum2 := sum2 - 2 * 65521; k2 := 2; }
    if sum2 >= 65521 { sum2 := sum2 - 65521; k2 := k2 + 1; }
  }

  lemma ReducedIs(r: Sums)
    ensures Reduced(r) <==> r.a < 65521 && r.b < 65521
  {
  }

  lemma CombineSums(x: Sums, y: Sums, n: nat, rem: nat, m: nat, sum1: int, sum2: int, k1: int, k2: int)
    requires rem == n % 65521 && m == (rem * x.a) % 65521
    requires sum1 == x.a + y.a + 65520 - 65521 * k1 && sum2 == m + x.b + y.b + 65521 - rem - 65521 * k2
    requires 0 <= sum1 < 65521 && 0 <= sum2 < 65521
    ensures sum1 + 0x1_0000 * sum2 == Packed(Combined(x, y, n))
  {
    SumOne(x.a + y.a - 1, sum1, 1 - k1);
    var q, v := n / 65521, (rem * x.a) / 65521;
    Factor(n, q, rem, x.a);
    SumTwo(n * (x.a - 1) + x.b + y.b, x.b + y.b, q * x.a, rem * x.a, q, v, rem, m, sum2, k2);
  }

  lemma SumOne(x: int, sum: int, k: int)
    requires sum == x + 65521 * k && 0 <= sum < 65521
    ensures sum == x % 65521
  {
    Shift(x, k);
  }

  lemma SumTwo(b: int, c: int, qa: int, ra: int, q: int, v: int, rem: int, m: int, sum: int, k: int)
    requires b == 65521 * qa + ra - 65521 * q - rem + c && ra == 65521 * v + m && sum == m + c + 65521 - rem - 65521 * k
    requires 0 <= sum < 65521
    ensures sum == b % 65521
  {
    SumOne(b, sum, 1 - k - v - qa + q);
  }

  lemma Factor(n: nat, q: nat, rem: nat, a: nat)
    requires n == 65521 * q + rem
    ensures n * (a - 1) == 65521 * (q * a) + rem * a - 65521 * q - rem
  {
    assert n * (a - 1) == n * a - n;
    assert (65521 * q + rem) * a == 65521 * (q * a) + rem * a;
  }
}
