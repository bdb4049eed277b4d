/** Bit strings with the least significant bit first, as deflate packs its codes (section 3.1.1 of RFC 1951). */
module LowBits {
  import opened Bits

  /** The number a bit string spells when its first bit is the lowest. */
  function LowValue(bits: seq<bool>): (v: nat)
    ensures v < Pow2(|bits|)
  {
    if bits == [] then 0 else BitOf(bits[0]) + 2 * LowValue(bits[1..])
  }

  /** The low n bits of v, the lowest first. */
  function LowestBits(n: nat, v: nat): (bits: seq<bool>)
    ensures |bits| == n
  {
    if n == 0 then [] else [v % 2 == 1] + LowestBits(n - 1, v / 2)
  }

  lemma {:induction false} ValueOfLowest(n: nat, v: nat)
    requires v < Pow2(n)
    ensures LowValue(LowestBits(n, v)) == v
  {
    if n > 0 {
      ValueOfLowest(n - 1, v / 2);
      assert LowestBits(n, v)[1..] == LowestBits(n - 1, v / 2);
    }
  }

  /** Different strings of one length spell different numbers. */
  lemma {:induction false} LowValueApart(a: seq<bool>, b: seq<bool>)
    requires |a| == |b| && LowValue(a) == LowValue(b)
    ensures a == b
  {
    if a != [] {
      assert a[0] == b[0];
      LowValueApart(a[1..], b[1..]);
      assert a == [a[0]] + a[1..] && b == [b[0]] + b[1..];
    }
  }

  /** Taking a number apart is taking the string apart. */
  lemma {:induction false} LowValueSplit(s: seq<bool>, n: nat)
    requires n <= |s|
    ensures Shr(LowValue(s), n) == LowValue(s[n..]) && Low(LowValue(s), n) == LowValue(s[..n])
    decreases n
  {
    if n > 0 {
      LowValueSplit(s[1..], n - 1);
      assert s[1..][n - 1..] == s[n..] && s[1..][..n - 1] == s[..n][1..] && s[..n][0] == s[0];
      assert LowValue(s) / 2 == LowValue(s[1..]) && LowValue(s) % 2 == BitOf(s[0]);
    } else {
      assert s[0..] == s;
    }
  }

  lemma LowValueConcat(a: seq<bool>, b: seq<bool>)
    ensures LowValue(a + b) == LowValue(a) + Shl(LowValue(b), |a|)
  {
    LowValueSplit(a + b, |a|);
    assert (a + b)[..|a|] == a && (a + b)[|a|..] == b;
    HighAndLow(LowValue(a + b), |a|);
  }

  /** One bit of the number. */
  lemma BitAt(s: seq<bool>, i: nat)
    requires i < |s|
    ensures (Shr(LowValue(s), i) % 2 == 1) == s[i]
  {
    LowValueSplit(s, i);
  }

  function Zeros(n: nat): (z: seq<bool>)
    ensures |z| == n && forall k :: 0 <= k < n ==> !z[k]
  {
    seq(n, _ => false)
  }

  lemma {:induction false} ZerosAreZero(n: nat)
    ensures LowValue(Zeros(n)) == 0
  {
    if n > 0 {
      ZerosAreZero(n - 1);
      assert Zeros(n)[1..] == Zeros(n - 1);
    }
  }
}
