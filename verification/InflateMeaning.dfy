/**
 What the symbols of a deflate block mean, in numbers (section 3.2.5 of RFC 1951): the tables that inflate_table makes
 (dep/zlib/inftrees.c:60-72) read every length and every distance as this says.
 */
module InflateMeaning {
  import opened Bits
  import opened HuffmanDecode
  import opened InflateEntries
  import opened InflateSpec
  import opened InflateSymbols
  import opened Lz77
  import opened LowBits
  import opened TokenBits

  /** The extra bits of a length: none up to symbol 264, then one more for every four symbols, and none for the last. */
  function LengthExtra(i: nat): nat
    requires 257 <= i <= 285
  {
    if i < 265 || i == 285 then 0 else (i - 261) / 4
  }

  /** The first length of a symbol: 3, and then where the symbol before ends; the last symbol is 258. */
  function LengthStart(i: nat): nat
    requires 257 <= i <= 285
  {
    if i == 257 then 3 else if i == 285 then 258 else LengthStart(i - 1) + Pow2(LengthExtra(i - 1))
  }

  /** The extra bits of a distance: one more for every two symbols. */
  function DistanceExtra(i: nat): nat {
    if i < 2 then 0 else i / 2 - 1
  }

  function DistanceStart(i: nat): nat {
    if i == 0 then 1 else DistanceStart(i - 1) + Pow2(DistanceExtra(i - 1))
  }

  /** What decoding does with symbol i of the code for literals and lengths. */
  function LengthMeaning(i: nat): Mode {
    if i < 256 then Lit(i) else if i == 256 then Type
    else if i <= 285 then LenExt(LengthStart(i), LengthExtra(i)) else Bad
  }

  /** And with symbol i of the code for distances, behind a length. */
  function DistanceMeaning(length: nat, i: nat): Mode {
    if i < 30 then DistExt(length, DistanceStart(i), DistanceExtra(i)) else Bad
  }

  lemma FirstLengths()
    ensures LengthStart(257) == 3 && LengthStart(258) == 4 && LengthStart(259) == 5 && LengthStart(260) == 6
    ensures LengthStart(261) == 7 && LengthStart(262) == 8 && LengthStart(263) == 9 && LengthStart(264) == 10
    ensures LengthStart(265) == 11 && LengthStart(266) == 13 && LengthStart(267) == 15 && LengthStart(268) == 17
    ensures LengthStart(269) == 19 && LengthStart(270) == 23 && LengthStart(271) == 27 && LengthStart(272) == 31
  {
    hide Pow2;
    Powers();
    assert LengthStart(261) == 7;
    assert LengthStart(265) == 11;
    assert LengthStart(269) == 19;
  }

  lemma LastLengths()
    ensures LengthStart(273) == 35 && LengthStart(274) == 43 && LengthStart(275) == 51 && LengthStart(276) == 59
    ensures LengthStart(277) == 67 && LengthStart(278) == 83 && LengthStart(279) == 99 && LengthStart(280) == 115
    ensures LengthStart(281) == 131 && LengthStart(282) == 163 && LengthStart(283) == 195 && LengthStart(284) == 227
    ensures LengthStart(285) == 258
  {
    hide Pow2;
    Powers();
    FirstLengths();
    assert LengthStart(273) == 35;
    assert LengthStart(277) == 67;
    assert LengthStart(281) == 131;
  }

  lemma FirstDistances()
    ensures DistanceStart(0) == 1 && DistanceStart(1) == 2 && DistanceStart(2) == 3 && DistanceStart(3) == 4 && DistanceStart(4) == 5
    ensures DistanceStart(5) == 7 && DistanceStart(6) == 9 && DistanceStart(7) == 13 && DistanceStart(8) == 17 && DistanceStart(9) == 25
    ensures DistanceStart(10) == 33 && DistanceStart(11) == 49 && DistanceStart(12) == 65 && DistanceStart(13) == 97
    ensures DistanceStart(14) == 129 && DistanceStart(15) == 193
  {
    hide Pow2;
    Powers();
    assert DistanceStart(4) == 5;
    assert DistanceStart(8) == 17;
    assert DistanceStart(12) == 65;
  }

  lemma LastDistances()
    ensures DistanceStart(16) == 257 && DistanceStart(17) == 385 && DistanceStart(18) == 513 && DistanceStart(19) == 769
    ensures DistanceStart(20) == 1025 && DistanceStart(21) == 1537 && DistanceStart(22) == 2049 && DistanceStart(23) == 3073
    ensures DistanceStart(24) == 4097 && DistanceStart(25) == 6145 && DistanceStart(26) == 8193 && DistanceStart(27) == 12289
    ensures DistanceStart(28) == 16385 && DistanceStart(29) == 24577 && DistanceStart(30) == 32769
  {
    hide Pow2;
    Powers();
    FirstDistances();
    assert DistanceStart(16) == 257;
    assert DistanceStart(20) == 1025;
    assert DistanceStart(24) == 4097;
    assert DistanceStart(28) == 16385;
  }

  lemma LeafByte(i: nat)
    requires i <= 256
    ensures LenMode(Leaf(LENS, i, 0)) == LengthMeaning(i)
  {
  }

  lemma LeavesFrom257()
    ensures LenMode(Leaf(LENS, 257, 0)) == LengthMeaning(257)
    ensures LenMode(Leaf(LENS, 258, 0)) == LengthMeaning(258)
    ensures LenMode(Leaf(LENS, 259, 0)) == LengthMeaning(259)
    ensures LenMode(Leaf(LENS, 260, 0)) == LengthMeaning(260)
  {
    hide LengthStart;
    FirstLengths();
  }

  lemma LeavesFrom261()
    ensures LenMode(Leaf(LENS, 261, 0)) == LengthMeaning(261)
    ensures LenMode(Leaf(LENS, 262, 0)) == LengthMeaning(262)
    ensures LenMode(Leaf(LENS, 263, 0)) == LengthMeaning(263)
    ensures LenMode(Leaf(LENS, 264, 0)) == LengthMeaning(264)
  {
    hide LengthStart;
    FirstLengths();
  }

  lemma LeavesFrom265()
    ensures LenMode(Leaf(LENS, 265, 0)) == LengthMeaning(265)
    ensures LenMode(Leaf(LENS, 266, 0)) == LengthMeaning(266)
    ensures LenMode(Leaf(LENS, 267, 0)) == LengthMeaning(267)
    ensures LenMode(Leaf(LENS, 268, 0)) == LengthMeaning(268)
  {
    hide LengthStart;
    FirstLengths();
  }

  lemma LeavesFrom269()
    ensures LenMode(Leaf(LENS, 269, 0)) == LengthMeaning(269)
    ensures LenMode(Leaf(LENS, 270, 0)) == LengthMeaning(270)
    ensures LenMode(Leaf(LENS, 271, 0)) == LengthMeaning(271)
    ensures LenMode(Leaf(LENS, 272, 0)) == LengthMeaning(272)
  {
    hide LengthStart;
    FirstLengths();
  }

  lemma LeavesFrom273()
    ensures LenMode(Leaf(LENS, 273, 0)) == LengthMeaning(273)
    ensures LenMode(Leaf(LENS, 274, 0)) == LengthMeaning(274)
    ensures LenMode(Leaf(LENS, 275, 0)) == LengthMeaning(275)
    ensures LenMode(Leaf(LENS, 276, 0)) == LengthMeaning(276)
  {
    hide LengthStart;
    LastLengths();
  }

  lemma LeavesFrom277()
    ensures LenMode(Leaf(LENS, 277, 0)) == LengthMeaning(277)
    ensures LenMode(Leaf(LENS, 278, 0)) == LengthMeaning(278)
    ensures LenMode(Leaf(LENS, 279, 0)) == LengthMeaning(279)
    ensures LenMode(Leaf(LENS, 280, 0)) == LengthMeaning(280)
  {
    hide LengthStart;
    LastLengths();
  }

  lemma LeavesFrom281()
    ensures LenMode(Leaf(LENS, 281, 0)) == LengthMeaning(281)
    ensures LenMode(Leaf(LENS, 282, 0)) == LengthMeaning(282)
    ensures LenMode(Leaf(LENS, 283, 0)) == LengthMeaning(283)
    ensures LenMode(Leaf(LENS, 284, 0)) == LengthMeaning(284)
  {
    hide LengthStart;
    LastLengths();
  }

  lemma LeavesFrom285()
    ensures LenMode(Leaf(LENS, 285, 0)) == LengthMeaning(285)
    ensures LenMode(Leaf(LENS, 286, 0)) == LengthMeaning(286)
    ensures LenMode(Leaf(LENS, 287, 0)) == LengthMeaning(287)
  {
    hide LengthStart;
    LastLengths();
  }

  lemma DistancesFrom0(n: nat)
    ensures DistMode(n, Leaf(DISTS, 0, 0)) == DistanceMeaning(n, 0)
    ensures DistMode(n, Leaf(DISTS, 1, 0)) == DistanceMeaning(n, 1)
    ensures DistMode(n, Leaf(DISTS, 2, 0)) == DistanceMeaning(n, 2)
    ensures DistMode(n, Leaf(DISTS, 3, 0)) == DistanceMeaning(n, 3)
  {
    hide DistanceStart;
    FirstDistances();
  }

  lemma DistancesFrom4(n: nat)
    ensures DistMode(n, Leaf(DISTS, 4, 0)) == DistanceMeaning(n, 4)
    ensures DistMode(n, Leaf(DISTS, 5, 0)) == DistanceMeaning(n, 5)
    ensures DistMode(n, Leaf(DISTS, 6, 0)) == DistanceMeaning(n, 6)
    ensures DistMode(n, Leaf(DISTS, 7, 0)) == DistanceMeaning(n, 7)
  {
    hide DistanceStart;
    FirstDistances();
  }

  lemma DistancesFrom8(n: nat)
    ensures DistMode(n, Leaf(DISTS, 8, 0)) == DistanceMeaning(n, 8)
    ensures DistMode(n, Leaf(DISTS, 9, 0)) == DistanceMeaning(n, 9)
    ensures DistMode(n, Leaf(DISTS, 10, 0)) == DistanceMeaning(n, 10)
    ensures DistMode(n, Leaf(DISTS, 11, 0)) == DistanceMeaning(n, 11)
  {
    hide DistanceStart;
    FirstDistances();
  }

  lemma DistancesFrom12(n: nat)
    ensures DistMode(n, Leaf(DISTS, 12, 0)) == DistanceMeaning(n, 12)
    ensures DistMode(n, Leaf(DISTS, 13, 0)) == DistanceMeaning(n, 13)
    ensures DistMode(n, Leaf(DISTS, 14, 0)) == DistanceMeaning(n, 14)
    ensures DistMode(n, Leaf(DISTS, 15, 0)) == DistanceMeaning(n, 15)
  {
    hide DistanceStart;
    FirstDistances();
  }

  lemma DistancesFrom16(n: nat)
    ensures DistMode(n, Leaf(DISTS, 16, 0)) == DistanceMeaning(n, 16)
    ensures DistMode(n, Leaf(DISTS, 17, 0)) == DistanceMeaning(n, 17)
    ensures DistMode(n, Leaf(DISTS, 18, 0)) == DistanceMeaning(n, 18)
    ensures DistMode(n, Leaf(DISTS, 19, 0)) == DistanceMeaning(n, 19)
  {
    hide DistanceStart;
    LastDistances();
  }

  lemma DistancesFrom20(n: nat)
    ensures DistMode(n, Leaf(DISTS, 20, 0)) == DistanceMeaning(n, 20)
    ensures DistMode(n, Leaf(DISTS, 21, 0)) == DistanceMeaning(n, 21)
    ensures DistMode(n, Leaf(DISTS, 22, 0)) == DistanceMeaning(n, 22)
    ensures DistMode(n, Leaf(DISTS, 23, 0)) == DistanceMeaning(n, 23)
  {
    hide DistanceStart;
    LastDistances();
  }

  lemma DistancesFrom24(n: nat)
    ensures DistMode(n, Leaf(DISTS, 24, 0)) == DistanceMeaning(n, 24)
    ensures DistMode(n, Leaf(DISTS, 25, 0)) == DistanceMeaning(n, 25)
    ensures DistMode(n, Leaf(DISTS, 26, 0)) == DistanceMeaning(n, 26)
    ensures DistMode(n, Leaf(DISTS, 27, 0)) == DistanceMeaning(n, 27)
  {
    hide DistanceStart;
    LastDistances();
  }

  lemma DistancesFrom28(n: nat)
    ensures DistMode(n, Leaf(DISTS, 28, 0)) == DistanceMeaning(n, 28)
    ensures DistMode(n, Leaf(DISTS, 29, 0)) == DistanceMeaning(n, 29)
    ensures DistMode(n, Leaf(DISTS, 30, 0)) == DistanceMeaning(n, 30)
    ensures DistMode(n, Leaf(DISTS, 31, 0)) == DistanceMeaning(n, 31)
  {
    hide DistanceStart;
    LastDistances();
  }

  lemma LeafLength(i: nat)
    requires i < 288
    ensures LenMode(Leaf(LENS, i, 0)) == LengthMeaning(i)
  {
    hide *;
    LeavesFrom257();
    LeavesFrom261();
    LeavesFrom265();
    LeavesFrom269();
    LeavesFrom273();
    LeavesFrom277();
    LeavesFrom281();
    LeavesFrom285();
    if i <= 256 { LeafByte(i); }
  }

  lemma LeafDistance(length: nat, i: nat)
    requires i < 32
    ensures DistMode(length, Leaf(DISTS, i, 0)) == DistanceMeaning(length, i)
  {
    hide *;
    DistancesFrom0(length);
    DistancesFrom4(length);
    DistancesFrom8(length);
    DistancesFrom12(length);
    DistancesFrom16(length);
    DistancesFrom20(length);
    DistancesFrom24(length);
    DistancesFrom28(length);
  }

  /** Where the bits begin with the code of symbol i, decoding goes on with what this symbol means, behind its bits. */
  lemma LengthRead(c: Code, ls: seq<nat>, s: seq<bool>, i: nat)
    requires Made(c, LENS, ls) && i < |ls| && ls[i] <= 15 && StartsWith(ls, s, i)
    ensures ls[i] <= |s| && NextEntry(c, s).Found? && NextEntry(c, s).rest == s[ls[i]..]
    ensures i < 288 && LenMode(NextEntry(c, s).e) == LengthMeaning(i)
  {
    hide *;
    NextIsSymbol(c, LENS, ls, s, i);
    HowManySymbols();
    LeafLength(i);
    StartsInside(ls, s, i);
  }

  lemma DistanceRead(c: Code, ls: seq<nat>, s: seq<bool>, i: nat, length: nat)
    requires Made(c, DISTS, ls) && i < |ls| && ls[i] <= 15 && StartsWith(ls, s, i)
    ensures ls[i] <= |s| && NextEntry(c, s).Found? && NextEntry(c, s).rest == s[ls[i]..]
    ensures i < 32 && DistMode(length, NextEntry(c, s).e) == DistanceMeaning(length, i)
  {
    hide *;
    NextIsSymbol(c, DISTS, ls, s, i);
    HowManySymbols();
    LeafDistance(length, i);
    StartsInside(ls, s, i);
  }

  /**
   A length and a distance, coded as above: the code of a symbol that begins at most n, extra bits for what is missing, and the same for
   the distance. This is what a match of deflate is read back from.
   */
  lemma PairRead(cs: Codes, ll: seq<nat>, dl: seq<nat>, s: seq<bool>, i: nat, x: seq<bool>, t: seq<bool>, j: nat, y: seq<bool>, rest: seq<bool>)
    requires Made(cs.lens, LENS, ll) && 257 <= i < |ll| && i <= 285 && ll[i] <= 15 && StartsWith(ll, s, i)
    requires ll[i] <= |s| && s[ll[i]..] == x + t && |x| == LengthExtra(i)
    requires Made(cs.dists, DISTS, dl) && j < |dl| && j < 30 && dl[j] <= 15 && StartsWith(dl, t, j)
    requires dl[j] <= |t| && t[dl[j]..] == y + rest && |y| == DistanceExtra(j)
    ensures Reads(cs, Pair(LengthStart(i) + LowValue(x), DistanceStart(j) + LowValue(y)), s, rest)
  {
    hide LengthStart, LengthExtra, DistanceStart, DistanceExtra, LowValue, NextEntry, LenMode, DistMode, Made, StartsWith;
    LengthRead(cs.lens, ll, s, i);
    DistanceRead(cs.dists, dl, t, j, LengthStart(i) + LowValue(x));
    assert (x + t)[..|x|] == x && (x + t)[|x|..] == t && (y + rest)[..|y|] == y && (y + rest)[|y|..] == rest;
  }

  lemma HowManySymbols()
    ensures Symbols(LENS) == 288 && Symbols(DISTS) == 32
  {
  }

  lemma StartsInside(ls: seq<nat>, s: seq<bool>, i: nat)
    requires StartsWith(ls, s, i) && i < |ls|
    ensures ls[i] <= |s|
  {
  }

  // Every length and every distance is read in one way.

  lemma {:induction false} StartsRise(i: nat, j: nat)
    requires i < j
    ensures DistanceStart(i) + Pow2(DistanceExtra(i)) <= DistanceStart(j)
    decreases j
  {
    if i + 1 < j {
      StartsRise(i, j - 1);
    }
  }

  lemma {:induction false} LengthsRise(i: nat, j: nat)
    requires 257 <= i < j <= 284
    ensures LengthStart(i) + Pow2(LengthExtra(i)) <= LengthStart(j)
    decreases j
  {
    hide Pow2, LengthExtra;
    if i + 1 < j {
      LengthsRise(i, j - 1);
    }
  }

  lemma {:induction false} FindDistance(d: nat, n: nat) returns (i: nat)
    requires 1 <= d < DistanceStart(n)
    ensures i < n && DistanceStart(i) <= d < DistanceStart(i) + Pow2(DistanceExtra(i))
  {
    i := n - 1;
    if d < DistanceStart(i) { i := FindDistance(d, i); }
  }

  /** Every distance from 1 to 32768 is the start of exactly one symbol and some number in its extra bits. */
  lemma EveryDistance(d: nat)
    requires 1 <= d <= 32768
    ensures exists i :: i < 30 && DistanceStart(i) <= d < DistanceStart(i) + Pow2(DistanceExtra(i))
    ensures forall i, j :: i < j && DistanceStart(i) <= d < DistanceStart(i) + Pow2(DistanceExtra(i)) ==>
                             !(DistanceStart(j) <= d < DistanceStart(j) + Pow2(DistanceExtra(j)))
  {
    hide *;
    LastDistances();
    var i := FindDistance(d, 30);
    forall i: nat, j: nat | i < j && DistanceStart(i) <= d < DistanceStart(i) + Pow2(DistanceExtra(i))
      ensures d < DistanceStart(j)
    {
      StartsRise(i, j);
    }
  }

  lemma {:induction false} FindLength(n: nat, k: nat) returns (i: nat)
    requires 258 <= k <= 284 && 3 <= n < LengthStart(k)
    ensures 257 <= i < k && LengthStart(i) <= n < LengthStart(i) + Pow2(LengthExtra(i))
  {
    hide Pow2;
    i := k - 1;
    if n < LengthStart(i) { i := FindLength(n, i); }
  }

  /** Every length from 3 to 258 is read from exactly one symbol up to 284, and 258 from symbol 285 as well. */
  lemma EveryLength(n: nat)
    requires 3 <= n <= 258
    ensures exists i :: 257 <= i <= 284 && LengthStart(i) <= n < LengthStart(i) + Pow2(LengthExtra(i))
    ensures forall i, j :: 257 <= i < j <= 284 && LengthStart(i) <= n < LengthStart(i) + Pow2(LengthExtra(i)) ==>
                             !(LengthStart(j) <= n < LengthStart(j) + Pow2(LengthExtra(j)))
    ensures LengthStart(285) <= n < LengthStart(285) + Pow2(LengthExtra(285)) <==> n == 258
  {
    hide *;
    LastLengths();
    LastExtra();
    if n < 227 {
      var i := FindLength(n, 284);
    }
    forall i: nat, j: nat | 257 <= i < j <= 284 && LengthStart(i) <= n < LengthStart(i) + Pow2(LengthExtra(i))
      ensures n < LengthStart(j)
    {
      LengthsRise(i, j);
    }
  }

  lemma LastExtra()
    ensures Pow2(LengthExtra(284)) == 32 && Pow2(LengthExtra(285)) == 1
  {
    assert Pow2(5) == 32;
  }
}
