/** inflateSync and syncsearch (dep/zlib/inflate.c:1326-1407): looking for the bytes 00 00 FF FF that a full flush leaves behind. */
module InflateSync {
  import opened Bits
  import opened LowBits
  import opened InflateInput

  const PATTERN: seq<byte> := [0, 0, 0xff, 0xff]

  /** The last n bytes of s are the first n of the pattern. */
  ghost predicate EndsWith(s: seq<byte>, n: nat) {
    n <= 4 && n <= |s| && s[|s| - n..] == PATTERN[..n]
  }

  /** n is how much of the pattern the end of s has matched. */
  ghost predicate Matched(s: seq<byte>, n: nat) {
    EndsWith(s, n) && forall m :: n < m <= 4 ==> !EndsWith(s, m)
  }

  /** The pattern has not ended before the end of s. */
  ghost predicate NotBefore(s: seq<byte>) {
    forall i :: 0 <= i < |s| ==> !EndsWith(s[..i], 4)
  }

  lemma EndsOneMore(s: seq<byte>, b: byte, n: nat)
    requires n < 4
    ensures EndsWith(s + [b], n + 1) <==> EndsWith(s, n) && b == PATTERN[n]
  {
    var t := s + [b];
    if n + 1 <= |t| {
      assert t[|t| - (n + 1)..] == s[|s| - n..] + [b];
      assert PATTERN[..n + 1] == PATTERN[..n] + [PATTERN[n]];
    }
  }

  /** What less of the pattern also matches. */
  lemma Shorter(s: seq<byte>, n: nat)
    requires EndsWith(s, n)
    ensures EndsWith(s, 0)
    ensures n == 1 || n == 2 ==> EndsWith(s, 1)
    ensures n == 3 || n == 4 ==> !EndsWith(s, 1) && !EndsWith(s, 2)
  {
    if n >= 1 {
      assert s[|s| - n..][n - 1] == s[|s| - 1] == s[|s| - 1..][0];
    }
    if n >= 2 {
      assert s[|s| - 2..][1] == s[|s| - 1];
    }
  }

  /** One byte. */
  lemma Step(s: seq<byte>, got: nat, b: byte)
    requires Matched(s, got) && got < 4
    ensures Matched(s + [b], if b == PATTERN[got] then got + 1 else if b != 0 then 0 else 4 - got)
  {
    Shorter(s, got);
    forall n: nat | n < 4
      ensures EndsWith(s + [b], n + 1) <==> EndsWith(s, n) && b == PATTERN[n]
    {
      EndsOneMore(s, b, n);
    }
    assert EndsWith(s + [b], 0);
    hide EndsWith;
    assert EndsWith(s, got) && forall m :: got < m <= 4 ==> !EndsWith(s, m);
    StepCases(s, got, b);
  }

  lemma StepCases(s: seq<byte>, got: nat, b: byte)
    requires got < 4 && EndsWith(s + [b], 0)
    requires forall n: nat | n < 4 :: EndsWith(s + [b], n + 1) <==> EndsWith(s, n) && b == PATTERN[n]
    requires EndsWith(s, got) && forall m :: got < m <= 4 ==> !EndsWith(s, m)
    requires EndsWith(s, 0) && (got == 1 || got == 2 ==> EndsWith(s, 1)) && (got == 3 ==> !EndsWith(s, 1) && !EndsWith(s, 2))
    ensures Matched(s + [b], if b == PATTERN[got] then got + 1 else if b != 0 then 0 else 4 - got)
  {
    hide EndsWith;
    var t := s + [b];
    assert EndsWith(t, 0 + 1) <==> EndsWith(s, 0) && b == PATTERN[0];
    assert EndsWith(t, 1 + 1) <==> EndsWith(s, 1) && b == PATTERN[1];
    assert EndsWith(t, 2 + 1) <==> EndsWith(s, 2) && b == PATTERN[2];
    assert EndsWith(t, 3 + 1) <==> EndsWith(s, 3) && b == PATTERN[3];
  }

  /**
   syncsearch: the search goes on from the bytes before, of which have bytes of the pattern have matched, and stops right behind the first
   place where the whole pattern ends, or at the end of buf.
   */
  method SyncSearch(have: nat, buf: seq<byte>, ghost before: seq<byte>) returns (got: nat, next: nat)
    requires have < 4 && Matched(before, have) && NotBefore(before)
    ensures next <= |buf| && got <= 4 && (got < 4 ==> next == |buf|)
    ensures Matched(before + buf[..next], got) && NotBefore(before + buf[..next])
    ensures got == 4 <==> EndsWith(before + buf[..next], 4)
  {
    hide *;
    got, next := have, 0;
    assert before + buf[..0] == before;
    MatchedIs(before, have);
    while next < |buf| && got < 4
      invariant next <= |buf| && got <= 4 && Matched(before + buf[..next], got) && NotBefore(before + buf[..next])
    {
      ghost var s, b := before + buf[..next], buf[next];
      Step(s, got, b);
      OnePast(s, got, b);
      PatternAt(got);
      assert before + buf[..next + 1] == s + [b];
      if buf[next] == (if got < 2 then 0 else 0xff) {
        got := got + 1;
      } else if buf[next] != 0 {
        got := 0;
      } else {
        got := 4 - got;
      }
      next := next + 1;
    }
    MatchedIs(before + buf[..next], got);
  }

  lemma PatternAt(n: nat)
    ensures n < 4 ==> |PATTERN| == 4 && PATTERN[n] == if n < 2 then 0 else 0xff
  {
  }

  lemma MatchedIs(s: seq<byte>, n: nat)
    requires Matched(s, n)
    ensures n <= 4 && (n == 4 <==> EndsWith(s, 4))
  {
  }

  lemma OnePast(s: seq<byte>, got: nat, b: byte)
    requires Matched(s, got) && got < 4 && NotBefore(s)
    ensures NotBefore(s + [b])
  {
    hide EndsWith;
    forall i | 0 <= i < |s + [b]|
      ensures !EndsWith((s + [b])[..i], 4)
    {
      assert (s + [b])[..i] == s[..i];
      if i == |s| { assert s[..i] == s; }
    }
  }

  // The bytes that are held in the bit buffer.

  /** The bytes that inflateSync takes out of the bit buffer to begin with (dep/zlib/inflate.c:1374-1387). */
  method HeldBytes(hold: nat, bits: nat) returns (buf: seq<byte>)
    requires bits <= 32
    ensures ByteBits(buf) == LowestBits(bits - bits % 8, Shl(hold, bits % 8)) && |buf| <= 4
  {
    hide *;
    var h, b := Shl(hold, bits % 8), bits - bits % 8;
    ghost var h0, b0 := h, b;
    buf := [];
    NoByteYet(LowestBits(b, h));
    while b >= 8
      invariant 0 <= b <= 32 && b % 8 == 0 && b + 8 * |buf| == b0
      invariant ByteBits(buf) + LowestBits(b, h) == LowestBits(b0, h0)
    {
      TakeByte(buf, b, h);
      buf := buf + [h % 256];
      h, b := h / 256, b - 8;
    }
    NoBitLeft(ByteBits(buf), h);
  }

  lemma NoByteYet(bits: seq<bool>)
    ensures ByteBits([]) + bits == bits
  {
  }

  lemma NoBitLeft(bits: seq<bool>, h: nat)
    ensures bits + LowestBits(0, h) == bits
  {
  }

  lemma TakeByte(buf: seq<byte>, b: nat, h: nat)
    requires b >= 8
    ensures ByteBits(buf + [h % 256]) + LowestBits(b - 8, h / 256) == ByteBits(buf) + LowestBits(b, h)
  {
    hide *;
    ByteBitsAppend(buf, [h % 256]);
    OneByteBits(h % 256);
    LowestSplit(8, b - 8, h);
    EightBits(h);
    Associate(ByteBits(buf), LowestBits(8, h), LowestBits(b - 8, h / 256));
  }

  lemma OneByteBits(b: byte)
    ensures ByteBits([b]) == LowestBits(8, b)
  {
    OneByte(b);
  }

  lemma {:induction false} LowestSplit(m: nat, n: nat, v: nat)
    ensures LowestBits(m + n, v) == LowestBits(m, v) + LowestBits(n, Shr(v, m))
  {
    if m > 0 {
      LowestSplit(m - 1, n, v / 2);
    } else {
      assert LowestBits(0, v) + LowestBits(n, v) == LowestBits(n, v);
    }
  }

  lemma EightBits(h: nat)
    ensures LowestBits(8, h) == LowestBits(8, h % 256) && Shr(h, 8) == h / 256
  {
    hide LowestBits, Shr, Low, Pow2;
    WordSize();
    HighAndLow(h, 8);
    LowIs(8, h);
  }

  lemma {:induction false} LowIs(n: nat, h: nat)
    ensures LowestBits(n, Low(h, n)) == LowestBits(n, h)
  {
    if n > 0 {
      LowIs(n - 1, h / 2);
    }
  }

  /**
   The bytes that are searched are the whole bytes that are held, whatever these are, exactly when no bits are left over from the byte
   before them or there is no whole byte: the code shifts the bits that are left over up instead of out.
   */
  lemma HeldBytesRight(bits: nat)
    ensures (forall hold: nat :: hold < Pow2(bits) ==>
               LowestBits(bits - bits % 8, Shl(hold, bits % 8)) == LowestBits(bits - bits % 8, Shr(hold, bits % 8)))
            <==> bits % 8 == 0 || bits < 8
  {
    var k, m := bits % 8, bits - bits % 8;
    if k == 0 {
      forall hold: nat
        ensures Shl(hold, k) == Shr(hold, k) == hold
      {
        assert Pow2(0) == 1;
      }
    } else if bits >= 8 {
      var hold := Pow2(k);
      LeftOverBit(k, m);
      Pow2Strict(k, bits);
    }
  }

  lemma Pow2Strict(a: nat, b: nat)
    requires a < b
    ensures Pow2(a) < Pow2(b)
  {
    Pow2Monotone(a + 1, b);
  }

  /** A buffer in which the first whole byte is 1 shows it: shifted the wrong way it is even. */
  lemma LeftOverBit(k: nat, m: nat)
    requires 1 <= k && 1 <= m
    ensures LowestBits(m, Shl(Pow2(k), k))[0] != LowestBits(m, Shr(Pow2(k), k))[0]
  {
    ShrPow(k);
    assert Shl(Pow2(k), k) == Pow2(k) * (2 * Pow2(k - 1)) == 2 * (Pow2(k) * Pow2(k - 1));
  }

  lemma {:induction false} ShrPow(k: nat)
    ensures Shr(Pow2(k), k) == 1
  {
    if k > 0 {
      ShrPow(k - 1);
      assert Pow2(k) / 2 == Pow2(k - 1);
    }
  }
}
