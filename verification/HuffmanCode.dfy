/**
 The canonical code that BZ2_hbAssignCodes hands out and the decoding tables of
 BZ2_hbCreateDecodeTables (dep/bzip2/huffman.c).
 */
module HuffmanCode {
  import opened Bits
  import opened CountingOrder
  import opened KraftSum

  /** The first code of length n: one past the codes of length n - 1, one bit longer. */
  function FirstCode(lens: seq<nat>, n: nat): nat {
    if n == 0 then 0 else 2 * (FirstCode(lens, n - 1) + Count(lens, n - 1))
  }

  /** The code of symbol i, as a number. */
  function CodeOf(lens: seq<nat>, i: nat): nat
    requires i < |lens|
  {
    FirstCode(lens, lens[i]) + Rank(lens, i)
  }

  lemma {:induction false} NothingBefore(lens: seq<nat>, n: nat)
    requires CountBelow(lens, n) == 0
    ensures FirstCode(lens, n) == 0
  {
    if n > 0 {
      CountBelowNext(lens, n - 1);
      NothingBefore(lens, n - 1);
    }
  }

  // Kraft's inequality makes the codes fit their lengths.

  /** The codes up to length n, in units of 2 to the power -n. */
  ghost function Used(lens: seq<nat>, n: nat): nat {
    if lens == [] then 0
    else Used(lens[..|lens| - 1], n) + if lens[|lens| - 1] <= n then Pow2(n - lens[|lens| - 1]) else 0
  }

  lemma {:induction false} UsedNext(lens: seq<nat>, n: nat)
    ensures Used(lens, n + 1) == 2 * Used(lens, n) + Count(lens, n + 1)
  {
    if lens != [] {
      UsedNext(lens[..|lens| - 1], n);
      var l := lens[|lens| - 1];
      if l <= n {
        assert Pow2(n + 1 - l) == 2 * Pow2(n - l);
      }
    }
  }

  lemma {:induction false} UsedNone(lens: seq<nat>)
    requires forall i :: 0 <= i < |lens| ==> 1 <= lens[i]
    ensures Used(lens, 0) == 0 == Count(lens, 0)
  {
    if lens != [] {
      UsedNone(lens[..|lens| - 1]);
    }
  }

  /** Code assignment leaves no gaps: the codes of length n end where the used part of the code space ends. */
  lemma {:induction false} CodesAreDense(lens: seq<nat>, n: nat)
    requires forall i :: 0 <= i < |lens| ==> 1 <= lens[i]
    ensures FirstCode(lens, n) + Count(lens, n) == Used(lens, n)
  {
    if n == 0 {
      UsedNone(lens);
    } else {
      CodesAreDense(lens, n - 1);
      UsedNext(lens, n - 1);
    }
  }

  lemma {:induction false} HalfPow2(n: nat)
    ensures Half(n) > 0.0 && Times(Pow2(n), Half(n)) == 1.0
  {
    if n > 0 {
      HalfPow2(n - 1);
    }
  }

  lemma {:induction false} HalfSplit(l: nat, d: nat)
    ensures Times(Pow2(d), Half(l + d)) == Half(l)
  {
    if d > 0 {
      HalfSplit(l, d - 1);
      assert Times(Pow2(d), Half(l + d)) == Times(Pow2(d - 1), Half(l + d - 1));
    }
  }

  lemma {:induction false} UsedIsKraft(lens: seq<nat>, n: nat)
    ensures Times(Used(lens, n), Half(n)) <= Kraft(lens)
  {
    assert lens == [] ==> Used(lens, n) == 0 && Kraft(lens) == 0.0;
    if lens != [] {
      var l, u := lens[|lens| - 1], Used(lens[..|lens| - 1], n);
      assert Used(lens, n) == u + if l <= n then Pow2(n - l) else 0;
      assert Kraft(lens) == Kraft(lens[..|lens| - 1]) + Half(l);
      hide *;
      UsedIsKraft(lens[..|lens| - 1], n);
      HalfPow2(l);
      var p := if l <= n then Pow2(n - l) else 0;
      if l <= n {
        HalfSplit(l, n - l);
      }
      KraftStep(u, p, Half(n), Kraft(lens[..|lens| - 1]), Half(l));
    }
  }

  /** With a Kraft sum of at most 1 every code fits in the number of bits it is given. */
  lemma CodeFits(lens: seq<nat>, i: nat)
    requires i < |lens| && Kraft(lens) <= 1.0
    requires forall k :: 0 <= k < |lens| ==> 1 <= lens[k]
    ensures CodeOf(lens, i) < FirstCode(lens, lens[i]) + Count(lens, lens[i]) <= Pow2(lens[i])
  {
    PlaceInRange(lens, i);
    CodesAreDense(lens, lens[i]);
    UsedFits(lens, lens[i]);
  }

  lemma UsedFits(lens: seq<nat>, n: nat)
    requires Kraft(lens) <= 1.0
    ensures Used(lens, n) <= Pow2(n)
  {
    hide *;
    UsedIsKraft(lens, n);
    HalfPow2(n);
    FitsByHalf(Used(lens, n), Pow2(n), Half(n));
  }

  lemma FitsByHalf(u: nat, p: nat, h: real)
    requires h > 0.0 && Times(p, h) == 1.0 && Times(u, h) <= 1.0
    ensures u <= p
  {
    if u > p {
      TimesStrict(p as real, u as real, h);
    }
  }

  lemma TimesStrict(x: real, y: real, h: real)
    requires x < y && 0.0 < h
    ensures x * h < y * h
  {
  }

  /** n times h. */
  ghost function Times(n: nat, h: real): real {
    n as real * h
  }

  lemma KraftStep(u: nat, p: nat, h: real, kraft: real, half: real)
    requires Times(u, h) <= kraft && half > 0.0
    requires p == 0 || Times(p, h) == half
    ensures Times(u + p, h) <= kraft + half
  {
    assert (u + p) as real == u as real + p as real;
    assert Times(u + p, h) == u as real * h + p as real * h;
  }

  /** The bits written for symbol i. */
  function CodeBits(lens: seq<nat>, i: nat): seq<bool>
    requires i < |lens|
  {
    BitsOf(lens[i], CodeOf(lens, i))
  }

  /** BZ2_hbAssignCodes: consecutive codes within a length, one bit appended between lengths. */
  method AssignCodes(code: array<int>, length: array<nat>, minLen: nat, maxLen: nat, alphaSize: nat)
    requires alphaSize <= code.Length && alphaSize <= length.Length && code as object != length
    requires forall i :: 0 <= i < alphaSize ==> minLen <= length[i] <= maxLen
    modifies code
    ensures forall i :: 0 <= i < alphaSize ==> code[i] == CodeOf(length[..alphaSize], i)
    ensures forall i :: alphaSize <= i < code.Length ==> code[i] == old(code[i])
  {
    hide *;
    ghost var lens := length[..alphaSize];
    var n, vec := minLen, 0;
    AssignedStart(lens, code[..], minLen);
    while n <= maxLen
      invariant minLen <= n && (n <= maxLen + 1 || maxLen < minLen)
      invariant length[..alphaSize] == lens && vec == FirstCode(lens, n)
      invariant Assigned(lens, code[..], n, 0)
      invariant forall k :: alphaSize <= k < code.Length ==> code[k] == old(code[k])
    {
      var i := 0;
      AssignedRound(lens, n);
      while i < alphaSize
        invariant 0 <= i <= alphaSize && length[..alphaSize] == lens
        invariant vec == FirstCode(lens, n) + Count(lens[..i], n)
        invariant Assigned(lens, code[..], n, i)
        invariant forall k :: alphaSize <= k < code.Length ==> code[k] == old(code[k])
      {
        AssignedStep(lens, code[..], n, i);
        if length[i] == n {
          code[i] := vec;
          vec := vec + 1;
        }
        i := i + 1;
      }
      AssignedNext(lens, code[..], n);
      vec := vec * 2;
      n := n + 1;
    }
    AssignedAll(lens, code[..], n);
  }

  /** The symbols shorter than n, and those of length n before symbol j, have their codes. */
  ghost predicate Assigned(lens: seq<nat>, code: seq<int>, n: nat, j: nat) {
    |lens| <= |code| && forall k :: 0 <= k < |lens| && (lens[k] < n || (lens[k] == n && k < j)) ==> code[k] == CodeOf(lens, k)
  }

  lemma AssignedStart(lens: seq<nat>, code: seq<int>, minLen: nat)
    requires |lens| <= |code| && forall i :: 0 <= i < |lens| ==> minLen <= lens[i]
    ensures Assigned(lens, code, minLen, 0) && FirstCode(lens, minLen) == 0
  {
    NoneBelow(lens, minLen);
    NothingBefore(lens, minLen);
  }

  lemma AssignedRound(lens: seq<nat>, n: nat)
    ensures Count(lens[..0], n) == 0
  {
  }

  lemma AssignedStep(lens: seq<nat>, code: seq<int>, n: nat, j: nat)
    requires Assigned(lens, code, n, j) && j < |lens|
    ensures Count(lens[..j + 1], n) == Count(lens[..j], n) + if lens[j] == n then 1 else 0
    ensures lens[j] != n ==> Assigned(lens, code, n, j + 1)
    ensures lens[j] == n ==> Assigned(lens, code[j := FirstCode(lens, n) + Count(lens[..j], n)], n, j + 1)
  {
    CountPrefix(lens, j, n);
  }

  lemma AssignedNext(lens: seq<nat>, code: seq<int>, n: nat)
    requires Assigned(lens, code, n, |lens|)
    ensures Assigned(lens, code, n + 1, 0)
    ensures 2 * (FirstCode(lens, n) + Count(lens[..|lens|], n)) == FirstCode(lens, n + 1)
  {
    assert lens[..|lens|] == lens;
  }

  lemma AssignedAll(lens: seq<nat>, code: seq<int>, n: nat)
    requires Assigned(lens, code, n, 0) && forall i :: 0 <= i < |lens| ==> lens[i] < n
    ensures forall i :: 0 <= i < |lens| ==> code[i] == CodeOf(lens, i)
  {
  }

  // The decoding tables.

  const BZ_MAX_CODE_LEN := 23

  /** The contents of the three tables for a code whose lengths run from minLen to maxLen. */
  ghost predicate Tables(lens: seq<nat>, minLen: nat, maxLen: nat, limit: seq<int>, base: seq<int>, perm: seq<nat>) {
    && 1 <= minLen <= maxLen <= 20 && minLen in lens && (forall i :: 0 <= i < |lens| ==> minLen <= lens[i] <= maxLen)
    && Permuted(lens, perm) && |limit| >= BZ_MAX_CODE_LEN && |base| >= BZ_MAX_CODE_LEN
    && (forall n :: minLen <= n <= maxLen ==> limit[n] == FirstCode(lens, n) + Count(lens, n) - 1)
    && (forall n :: maxLen < n < BZ_MAX_CODE_LEN ==> limit[n] == 0)
    && (forall n :: minLen <= n <= maxLen ==> base[n] == FirstCode(lens, n) - CountBelow(lens, n))
  }

  /** With the shortest length minLen, limit, base and perm are the decoding tables. */
  ghost predicate Decoding(lens: seq<nat>, minLen: nat, limit: seq<int>, base: seq<int>, perm: seq<nat>) {
    exists maxLen: nat :: Tables(lens, minLen, maxLen, limit, base, perm)
  }

  method SortByLength(perm: array<nat>, length: array<nat>, minLen: nat, maxLen: nat, alphaSize: nat)
    requires perm != length && alphaSize <= perm.Length && alphaSize <= length.Length
    requires forall i :: 0 <= i < alphaSize ==> minLen <= length[i] <= maxLen
    modifies perm
    ensures Permuted(length[..alphaSize], perm[..])
  {
    hide *;
    ghost var lens := length[..alphaSize];
    var pp, i := 0, minLen;
    SortedStart(lens, perm[..], minLen);
    while i <= maxLen
      invariant minLen <= i && (i <= maxLen + 1 || maxLen < minLen)
      invariant length[..alphaSize] == lens && pp == CountBelow(lens, i)
      invariant Sorted(lens, perm[..], i, 0)
    {
      var j := 0;
      AssignedRound(lens, i);
      while j < alphaSize
        invariant 0 <= j <= alphaSize && length[..alphaSize] == lens
        invariant pp == CountBelow(lens, i) + Count(lens[..j], i)
        invariant Sorted(lens, perm[..], i, j)
      {
        SortedStep(lens, perm[..], i, j);
        if length[j] == i {
          perm[pp] := j;
          pp := pp + 1;
        }
        j := j + 1;
      }
      SortedNext(lens, perm[..], i);
      i := i + 1;
    }
    SortedAll(lens, perm[..], i);
  }

  /** The symbols shorter than n, and those of length n before symbol j, are in place. */
  ghost predicate Sorted(lens: seq<nat>, perm: seq<nat>, n: nat, j: nat) {
    |lens| <= |perm| && forall k :: 0 <= k < |lens| && (lens[k] < n || (lens[k] == n && k < j)) ==>
                                      SortedPlace(lens, k) < |perm| && perm[SortedPlace(lens, k)] == k
  }

  lemma SortedStart(lens: seq<nat>, perm: seq<nat>, minLen: nat)
    requires |lens| <= |perm| && forall i :: 0 <= i < |lens| ==> minLen <= lens[i]
    ensures Sorted(lens, perm, minLen, 0) && CountBelow(lens, minLen) == 0
  {
    NoneBelow(lens, minLen);
  }

  lemma SortedStep(lens: seq<nat>, perm: seq<nat>, n: nat, j: nat)
    requires Sorted(lens, perm, n, j) && j < |lens|
    ensures Count(lens[..j + 1], n) == Count(lens[..j], n) + if lens[j] == n then 1 else 0
    ensures lens[j] != n ==> Sorted(lens, perm, n, j + 1)
    ensures lens[j] == n ==> var pp := CountBelow(lens, n) + Count(lens[..j], n);
                             pp < |lens| && pp < |perm| && Sorted(lens, perm[pp := j], n, j + 1)
  {
    CountPrefix(lens, j, n);
    if lens[j] == n {
      PlaceInRange(lens, j);
      forall k | 0 <= k < |lens| && (lens[k] < n || (lens[k] == n && k < j))
        ensures SortedPlace(lens, k) < SortedPlace(lens, j)
      {
        PlacesApart(lens, k, n, j);
      }
    }
  }

  lemma SortedNext(lens: seq<nat>, perm: seq<nat>, n: nat)
    requires Sorted(lens, perm, n, |lens|)
    ensures Sorted(lens, perm, n + 1, 0)
    ensures CountBelow(lens, n) + Count(lens[..|lens|], n) == CountBelow(lens, n + 1)
  {
    CountBelowNext(lens, n);
    assert lens[..|lens|] == lens;
  }

  lemma SortedAll(lens: seq<nat>, perm: seq<nat>, n: nat)
    requires Sorted(lens, perm, n, 0) && forall i :: 0 <= i < |lens| ==> lens[i] < n
    ensures Permuted(lens, perm)
  {
  }

  /** The counting part: base[k] becomes the number of symbols shorter than k. */
  method CountLengths(base: array<int>, length: array<nat>, alphaSize: nat)
    requires base.Length >= BZ_MAX_CODE_LEN && alphaSize <= length.Length && base as object != length
    requires forall i :: 0 <= i < alphaSize ==> length[i] <= 20
    modifies base
    ensures forall k :: 0 <= k < BZ_MAX_CODE_LEN ==> base[k] == CountBelow(length[..alphaSize], k)
  {
    ghost var lens := length[..alphaSize];
    for i := 0 to BZ_MAX_CODE_LEN
      invariant length[..alphaSize] == lens
      invariant forall k :: 0 <= k < i ==> base[k] == 0
    {
      base[i] := 0;
    }
    for i := 0 to alphaSize
      invariant length[..alphaSize] == lens && base[0] == 0
      invariant forall k :: 1 <= k < BZ_MAX_CODE_LEN ==> base[k] == Count(lens[..i], k - 1)
    {
      forall k: nat
        ensures Count(lens[..i + 1], k) == Count(lens[..i], k) + if lens[i] == k then 1 else 0
      {
        CountPrefix(lens, i, k);
      }
      base[length[i] + 1] := base[length[i] + 1] + 1;
    }
    assert lens[..alphaSize] == lens;
    NoneBelow(lens, 0);
    for i := 1 to BZ_MAX_CODE_LEN
      invariant length[..alphaSize] == lens
      invariant forall k :: 0 <= k < i ==> base[k] == CountBelow(lens, k)
      invariant forall k :: i <= k < BZ_MAX_CODE_LEN ==> base[k] == Count(lens, k - 1)
    {
      CountBelowNext(lens, i - 1);
      base[i] := base[i] + base[i - 1];
    }
  }

  /** BZ2_hbCreateDecodeTables. */
  method CreateDecodeTables(limit: array<int>, base: array<int>, perm: array<nat>, length: array<nat>,
                            minLen: nat, maxLen: nat, alphaSize: nat)
    requires limit != base && perm != length && base as object != length && limit as object != length
    requires perm as object != limit && perm as object != base
    requires limit.Length >= BZ_MAX_CODE_LEN && base.Length >= BZ_MAX_CODE_LEN
    requires alphaSize <= perm.Length && alphaSize <= length.Length
    requires 1 <= minLen <= maxLen <= 20 && minLen in length[..alphaSize]
    requires forall i :: 0 <= i < alphaSize ==> minLen <= length[i] <= maxLen
    modifies limit, base, perm
    ensures Tables(length[..alphaSize], minLen, maxLen, limit[..], base[..], perm[..])
  {
    hide Count, CountBelow, SortedPlace;
    ghost var lens := length[..alphaSize];
    SortByLength(perm, length, minLen, maxLen, alphaSize);
    CountLengths(base, length, alphaSize);
    FillLimits(limit, base, lens, minLen, maxLen);
    FillBases(limit, base, lens, minLen, maxLen);
  }

  /** The limits: the last code of each length. */
  method FillLimits(limit: array<int>, base: array<int>, ghost lens: seq<nat>, minLen: nat, maxLen: nat)
    requires limit != base && limit.Length >= 23 && base.Length >= 23
    requires 1 <= minLen <= maxLen <= 20 && forall i :: 0 <= i < |lens| ==> minLen <= lens[i] <= maxLen
    requires forall k :: 0 <= k < 23 ==> base[k] == CountBelow(lens, k)
    modifies limit
    ensures forall n :: minLen <= n <= maxLen ==> limit[n] == FirstCode(lens, n) + Count(lens, n) - 1
    ensures forall n :: maxLen < n < 23 ==> limit[n] == 0
  {
    hide *;
    FirstAtMin(lens, minLen);
    for i := 0 to 23
      invariant forall k :: 0 <= k < i ==> limit[k] == 0
    {
      limit[i] := 0;
    }
    var vec := 0;
    for i := minLen to maxLen + 1
      invariant vec == FirstCode(lens, i)
      invariant forall k :: minLen <= k < i ==> limit[k] == FirstCode(lens, k) + Count(lens, k) - 1
      invariant forall k :: i <= k < 23 ==> limit[k] == 0
    {
      CountBelowNext(lens, i);
      FirstCodeNext(lens, i);
      vec := vec + (base[i + 1] - base[i]);
      limit[i] := vec - 1;
      vec := vec * 2;
    }
  }

  lemma FirstCodeNext(lens: seq<nat>, n: nat)
    ensures FirstCode(lens, n + 1) == 2 * (FirstCode(lens, n) + Count(lens, n))
  {
  }

  lemma FirstAtMin(lens: seq<nat>, minLen: nat)
    requires forall i :: 0 <= i < |lens| ==> minLen <= lens[i]
    ensures FirstCode(lens, minLen) == 0 && CountBelow(lens, minLen) == 0
  {
    NoneBelow(lens, minLen);
    NothingBefore(lens, minLen);
  }

  /** The bases: what to subtract from a code to get its place among all symbols. */
  method FillBases(limit: array<int>, base: array<int>, ghost lens: seq<nat>, minLen: nat, maxLen: nat)
    requires limit != base && limit.Length > 20 && base.Length > 20
    requires 1 <= minLen <= maxLen <= 20 && forall i :: 0 <= i < |lens| ==> minLen <= lens[i] <= maxLen
    requires forall k :: 0 <= k <= 20 ==> base[k] == CountBelow(lens, k)
    requires forall n :: minLen <= n <= maxLen ==> limit[n] == FirstCode(lens, n) + Count(lens, n) - 1
    modifies base
    ensures forall n :: minLen <= n <= maxLen ==> base[n] == FirstCode(lens, n) - CountBelow(lens, n)
  {
    hide *;
    FirstAtMin(lens, minLen);
    for i := minLen + 1 to maxLen + 1
      invariant forall k :: i <= k <= maxLen ==> base[k] == CountBelow(lens, k)
      invariant forall k :: minLen <= k < i ==> base[k] == FirstCode(lens, k) - CountBelow(lens, k)
    {
      FirstCodeNext(lens, i - 1);
      base[i] := (limit[i - 1] + 1) * 2 - base[i];
    }
  }

  /** No entry of the limit table outgrows 32 bits, whatever lengths the stream declares. */
  lemma LimitsFit(lens: seq<nat>, minLen: nat, maxLen: nat, limit: seq<int>, base: seq<int>, perm: seq<nat>, n: nat)
    requires Tables(lens, minLen, maxLen, limit, base, perm) && |lens| <= 258 && minLen <= n <= maxLen
    ensures limit[n] < 0x2000_0000
  {
    CodesAreDense(lens, n);
    UsedBound(lens, n, 20);
    assert Pow2(20) == 0x10_0000 by {
      assert Pow2(5) == 32 && Pow2(10) == 1024 && Pow2(15) == 32768;
    }
  }

  lemma {:induction false} UsedBound(lens: seq<nat>, n: nat, m: nat)
    requires n <= m
    ensures Used(lens, n) <= |lens| * Pow2(m)
  {
    if lens != [] {
      UsedBound(lens[..|lens| - 1], n, m);
      assert |lens| * Pow2(m) == (|lens| - 1) * Pow2(m) + Pow2(m);
      if lens[|lens| - 1] <= n {
        Pow2Monotone(n - lens[|lens| - 1], m);
      }
    }
  }
}
