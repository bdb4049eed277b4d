/**
 fallbackSort (dep/bzip2/blocksort.c): a bucket sort by first character, doubling passes, and the block put back
 together.
 */
module FallbackSort {
  import opened Bits
  import opened CountingOrder
  import opened Rotations
  import opened RotationPrefixes
  import opened FallbackPass

  // The initial bucket sort. Equal characters come out in reverse order.

  /** One past the bucket of character c. */
  ghost function BucketEnd(block: seq<byte>, c: nat): nat {
    CountBelow(block, c + 1)
  }

  /** Where position i goes: its bucket is filled from the end. */
  ghost function ReversePlace(block: seq<byte>, i: nat): int
    requires i < |block|
  {
    BucketEnd(block, block[i]) - 1 - Rank(block, i)
  }

  lemma ReversePlaceRange(block: seq<byte>, i: nat)
    requires i < |block|
    ensures CountBelow(block, block[i]) <= ReversePlace(block, i) < BucketEnd(block, block[i]) <= |block|
  {
    PlaceInRange(block, i);
    CountBelowNext(block, block[i]);
    var c: nat := block[i];
    CountBelowMonotone(block, c, c + 1);
  }

  lemma ReversePlacesApart(block: seq<byte>, i: nat, j: nat)
    requires i < |block| && j < |block| && ReversePlace(block, i) == ReversePlace(block, j)
    ensures i == j
  {
    ReversePlaceRange(block, i);
    ReversePlaceRange(block, j);
    if block[i] < block[j] {
      CountBelowMonotone(block, block[i] + 1, block[j]);
    } else if block[j] < block[i] {
      CountBelowMonotone(block, block[j] + 1, block[i]);
    } else {
      SameRank(block, i, j);
    }
  }

  lemma ReversePlaceTaken(block: seq<byte>, p: nat) returns (i: nat)
    requires p < |block|
    ensures i < |block| && ReversePlace(block, i) == p
  {
    AllBelow(block, 256);
    var k := PlaceCovered(block, 256, p);
    var c: nat := block[k];
    PlaceInRange(block, k);
    CountBelowNext(block, c);
    i := PlaceTaken(block, c, BucketEnd(block, c) - 1 - p);
  }

  /** The state of the bucket sort after i positions. */
  ghost predicate Bucketing(block: seq<byte>, f: seq<nat>, ftab: seq<int>, i: nat) {
    && |f| == |block| && |ftab| == 257 && i <= |block|
    && (forall c :: 0 <= c < 256 ==> ftab[c] == CountBelow(block, c + 1) - Count(block[..i], c))
    && (forall m :: 0 <= m < i ==> 0 <= ReversePlace(block, m) < |block| && f[ReversePlace(block, m)] == m)
  }

  lemma BucketingStep(block: seq<byte>, f: seq<nat>, ftab: seq<int>, i: nat)
    requires Bucketing(block, f, ftab, i) && i < |block|
    ensures var k := ftab[block[i]] - 1;
            && 0 <= k < |block|
            && Bucketing(block, f[k := i], ftab[block[i] := k], i + 1)
  {
    var k := ftab[block[i]] - 1;
    ReversePlaceRange(block, i);
    assert k == ReversePlace(block, i);
    forall c: nat | c < 256
      ensures Count(block[..i + 1], c) == Count(block[..i], c) + if block[i] == c then 1 else 0
    {
      CountPrefix(block, i, c);
    }
    forall m | 0 <= m < i
      ensures ReversePlace(block, m) != k
    {
      if ReversePlace(block, m) == k {
        ReversePlacesApart(block, m, i);
      }
    }
  }

  /** The bucket sort is done: every position stands in the bucket of its character. */
  ghost predicate InBuckets(block: seq<byte>, f: seq<nat>) {
    && IsPerm(f, |block|)
    && forall p :: 0 <= p < |block| ==> CountBelow(block, block[f[p]]) <= p < BucketEnd(block, block[f[p]])
  }

  lemma BucketingEnd(block: seq<byte>, f: seq<nat>, ftab: seq<int>)
    requires Bucketing(block, f, ftab, |block|)
    ensures InBuckets(block, f)
    ensures forall c :: 0 <= c < 256 ==> ftab[c] == CountBelow(block, c)
  {
    assert block[..|block|] == block;
    forall c: nat | c < 256
      ensures ftab[c] == CountBelow(block, c)
    {
      CountBelowNext(block, c);
    }
    forall p | 0 <= p < |block|
      ensures f[p] < |block| && ReversePlace(block, f[p]) == p
      ensures CountBelow(block, block[f[p]]) <= p < BucketEnd(block, block[f[p]])
    {
      var i := ReversePlaceTaken(block, p);
      ReversePlaceRange(block, i);
    }
  }

  /** The buckets are in the order of their characters, and the starts of buckets are the headers of depth 1. */
  lemma BucketsSorted(block: seq<byte>, f: seq<nat>)
    requires InBuckets(block, f)
    ensures SortedTo(block, f, 1, 0, |block|)
  {
    forall i, j | 0 <= i <= j < |block|
      ensures LexLe(Pre(block, f[i], 1), Pre(block, f[j], 1))
    {
      var a, b := block[f[i]], block[f[j]];
      if b < a { CountBelowMonotone(block, b + 1, a); }
      One(block, f[i]);
      One(block, f[j]);
    }
  }

  lemma One(block: seq<byte>, i: nat)
    requires i < |block|
    ensures Pre(block, i, 1) == [block[i]]
  {
    PreStraight(block, i, 1);
  }

  lemma BucketStart(block: seq<byte>, f: seq<nat>, p: nat)
    requires InBuckets(block, f) && p < |block|
    ensures (p == 0 || !Tied(block, f, 1, p - 1, p)) <==> exists c: nat :: c < 256 && CountBelow(block, c) == p
  {
    One(block, f[p]);
    var c := block[f[p]];
    if p == 0 {
      NoneBelow(block, 0);
    } else {
      One(block, f[p - 1]);
      var a := block[f[p - 1]];
      if a != c {
        if a < c { CountBelowMonotone(block, a + 1, c); } else { CountBelowMonotone(block, c + 1, a); }
        assert CountBelow(block, c) == p;
      } else {
        forall d: nat | d < 256
          ensures CountBelow(block, d) != p
        {
          if d <= c { CountBelowMonotone(block, d, c); } else { CountBelowMonotone(block, c + 1, d); }
        }
      }
    }
  }

  /** Counting the characters, and the start of every bucket's end. */
  method CountChars(ftab: array<int>, ftabCopy: array<int>, eclass8: array<byte>, nblock: nat, ghost block: seq<byte>)
    requires ftab != ftabCopy && ftab as object != eclass8 && ftabCopy as object != eclass8
    requires ftab.Length == 257 && ftabCopy.Length == 256 && nblock == |block| <= eclass8.Length
    requires eclass8[..nblock] == block
    modifies ftab, ftabCopy
    ensures forall c :: 0 <= c < 256 ==> ftabCopy[c] == Count(block, c)
    ensures Bucketing(block, seq(nblock, _ => 0), ftab[..], 0)
  {
    var i := 0;
    while i < 257
      invariant 0 <= i <= 257 && forall k :: 0 <= k < i ==> ftab[k] == 0
    {
      ftab[i] := 0;
      i := i + 1;
    }
    i := 0;
    while i < nblock
      invariant 0 <= i <= nblock && ftab[256] == 0
      invariant forall c :: 0 <= c < 256 ==> ftab[c] == Count(block[..i], c)
    {
      forall c: nat | c < 256
        ensures Count(block[..i + 1], c) == Count(block[..i], c) + if block[i] == c then 1 else 0
      {
        CountPrefix(block, i, c);
      }
      assert eclass8[i] == eclass8[..nblock][i];
      ftab[eclass8[i]] := ftab[eclass8[i]] + 1;
      i := i + 1;
    }
    assert block[..nblock] == block;
    assert forall c :: 0 <= c < 256 ==> ftab[c] == Count(block, c);
    i := 0;
    while i < 256
      modifies ftabCopy
      invariant 0 <= i <= 256 && forall k :: 0 <= k < i ==> ftabCopy[k] == Count(block, k)
    {
      ftabCopy[i] := ftab[i];
      i := i + 1;
    }
    NoneBelow(block, 0);
    CountBelowNext(block, 0);
    i := 1;
    while i < 257
      invariant 1 <= i <= 257 && forall k :: 0 <= k < 256 ==> ftabCopy[k] == Count(block, k)
      invariant forall k :: 0 <= k < i && k < 256 ==> ftab[k] == CountBelow(block, k + 1)
      invariant forall k :: i <= k < 256 ==> ftab[k] == Count(block, k)
    {
      CountBelowNext(block, i);
      ftab[i] := ftab[i] + ftab[i - 1];
      i := i + 1;
    }
    assert block[..0] == [];
  }

  /** The radix sort by first character. */
  method FillBuckets(fmap: array<nat>, ftab: array<int>, eclass8: array<byte>, nblock: nat, ghost block: seq<byte>)
    requires fmap as object != ftab && ftab as object != eclass8 && fmap as object != eclass8
    requires nblock == |block| == fmap.Length && nblock <= eclass8.Length && eclass8[..nblock] == block
    requires Bucketing(block, seq(nblock, _ => 0), ftab[..], 0)
    modifies fmap, ftab
    ensures InBuckets(block, fmap[..])
    ensures ftab.Length == 257 && forall c :: 0 <= c < 256 ==> ftab[c] == CountBelow(block, c)
  {
    var i := 0;
    while i < nblock
      invariant 0 <= i <= nblock && Bucketing(block, fmap[..], ftab[..], i)
    {
      assert eclass8[i] == eclass8[..nblock][i];
      BucketingStep(block, fmap[..], ftab[..], i);
      var j := eclass8[i];
      var k := ftab[j] - 1;
      ftab[j] := k;
      fmap[k] := i;
      i := i + 1;
    }
    BucketingEnd(block, fmap[..], ftab[..]);
  }

  /** The first header bits and the sentinels. */
  method SetFirstHeaders(bh: array<bool>, ftab: array<int>, nblock: nat, ghost f: seq<nat>, ghost block: seq<byte>)
    requires bh as object != ftab && nblock == |block| == |f| && nblock + 64 <= bh.Length
    requires InBuckets(block, f)
    requires ftab.Length == 257 && forall c :: 0 <= c < 256 ==> ftab[c] == CountBelow(block, c)
    modifies bh
    ensures Headers(block, f, bh[..], 1, 0, nblock) && Sentinels(bh[..], nblock)
  {
    var i := 0;
    var nBhtab := 2 + nblock / 32;
    while i < 32 * nBhtab
      invariant 0 <= i <= 32 * nBhtab && forall k :: 0 <= k < i ==> !bh[k]
    {
      bh[i] := false;
      i := i + 1;
    }
    i := 0;
    while i < 256
      invariant 0 <= i <= 256
      invariant forall p :: 0 <= p < 32 * nBhtab ==> (bh[p] <==> exists c: nat :: c < i && CountBelow(block, c) == p)
    {
      CountBelowMonotone(block, i, i);
      bh[ftab[i]] := true;
      i := i + 1;
    }
    i := 0;
    while i < 32
      invariant 0 <= i <= 32
      invariant forall p :: 0 <= p < nblock ==> (bh[p] <==> exists c: nat :: c < 256 && CountBelow(block, c) == p)
      invariant forall k :: 0 <= k < i ==> bh[nblock + 2 * k] && !bh[nblock + 2 * k + 1]
    {
      bh[nblock + 2 * i] := true;
      bh[nblock + 2 * i + 1] := false;
      i := i + 1;
    }
    forall p | 0 <= p < nblock
      ensures bh[p] <==> p == 0 || !Tied(block, f, 1, p - 1, p)
    {
      BucketStart(block, f, p);
    }
  }

  // Putting the block back together.

  /** Writing a byte view of eclass, or eclass itself, leaves nothing to be known about the other. */
  method Overwritten(view: array<byte>)
    modifies view
  {
  }

  /** What is left of each bucket after the first i places of the list. */
  ghost predicate Remaining(block: seq<byte>, counts: seq<int>, i: nat, j: nat) {
    && |counts| == 256 && j < 256 && CountBelow(block, j) <= i <= BucketEnd(block, j)
    && counts[j] == BucketEnd(block, j) - i
    && (forall c :: j < c < 256 ==> counts[c] == Count(block, c))
  }

  /** The i-th place of the list belongs to the first bucket that is not used up. */
  lemma RemainingNext(block: seq<byte>, counts: seq<int>, i: nat, j: nat, b: byte)
    requires Remaining(block, counts, i, j) && CountBelow(block, b) <= i < BucketEnd(block, b)
    ensures j <= b && counts[b] > 0
    ensures j < b ==> counts[j] == 0 && Remaining(block, counts, i, j + 1)
    ensures j == b ==> Remaining(block, counts[j := counts[j] - 1], i + 1, j)
  {
    var c: nat := b;
    CountBelowNext(block, c);
    CountBelowNext(block, j + 1);
    if c < j {
      CountBelowMonotone(block, c + 1, j);
    } else if j < c {
      CountBelowMonotone(block, j + 1, c);
    }
  }

  /** The characters are handed out again in the order of the list. */
  method Reconstruct(fmap: array<nat>, eclass8: array<byte>, ftabCopy: array<int>, nblock: nat,
                     ghost block: seq<byte>, ghost first: seq<byte>)
    requires fmap as object != eclass8 && ftabCopy as object != eclass8 && fmap as object != ftabCopy
    requires nblock == |block| == fmap.Length && nblock <= eclass8.Length && ftabCopy.Length == 256
    requires IsPerm(fmap[..], nblock) && FirstColumn(block, fmap[..], first)
    requires forall p :: 0 <= p < nblock ==> CountBelow(block, first[p]) <= p < BucketEnd(block, first[p])
    requires forall c :: 0 <= c < 256 ==> ftabCopy[c] == Count(block, c)
    modifies eclass8, ftabCopy
    ensures eclass8[..nblock] == block
  {
    var j, i := 0, 0;
    ghost var f := fmap[..];
    NoneBelow(block, 0);
    CountBelowNext(block, 0);
    while i < nblock
      invariant 0 <= i <= nblock && 0 <= j < 256 && Remaining(block, ftabCopy[..], i, j)
      invariant forall m :: 0 <= m < i ==> eclass8[f[m]] == block[f[m]]
    {
      ghost var b := first[i];
      RemainingNext(block, ftabCopy[..], i, j, b);
      while ftabCopy[j] == 0
        modifies {}
        invariant 0 <= j <= b && Remaining(block, ftabCopy[..], i, j) && ftabCopy[b] > 0
        decreases b - j
      {
        RemainingNext(block, ftabCopy[..], i, j, b);
        j := j + 1;
      }
      RemainingNext(block, ftabCopy[..], i, j, b);
      assert f[i] == fmap[i] && forall m :: 0 <= m < i ==> f[m] != f[i];
      ftabCopy[j] := ftabCopy[j] - 1;
      eclass8[fmap[i]] := j;
      i := i + 1;
    }
    forall y | 0 <= y < nblock
      ensures eclass8[y] == block[y]
    {
      var m := PermHas(f, nblock, y);
    }
  }

  lemma FirstOf(block: seq<byte>, f: seq<nat>) returns (first: seq<byte>)
    requires InBuckets(block, f)
    ensures FirstColumn(block, f, first)
    ensures forall p :: 0 <= p < |block| ==> CountBelow(block, first[p]) <= p < BucketEnd(block, first[p])
  {
    first := seq(|block|, p requires 0 <= p < |block| => block[f[p]]);
  }

  lemma InBucketsPerm(block: seq<byte>, f: seq<nat>)
    requires InBuckets(block, f)
    ensures IsPerm(f, |block|) && |f| == |block|
  {
  }

  lemma AllSetEach(bh: seq<bool>, n: nat)
    requires AllSet(bh, 0, n)
    ensures forall i :: 0 <= i < n ==> bh[i]
  {
  }

  lemma OrderIsPerm(block: seq<byte>, f: seq<nat>)
    requires IsOrder(block, f)
    ensures IsPerm(f, |block|)
  {
  }

  /**
   fallbackSort. The words of eclass are first read as bytes: eclass8 holds the block on entry, is
   lost while the words hold ranks, and holds the block again on exit.
   */
  method FallbackSort(fmap: array<nat>, eclass: array<nat>, eclass8: array<byte>, bh: array<bool>, nblock: nat,
                      ghost block: seq<byte>)
    requires fmap != eclass && fmap as object != eclass8 && fmap as object != bh
    requires eclass as object != eclass8 && eclass as object != bh && eclass8 as object != bh
    requires nblock == |block| == fmap.Length && 1 <= nblock < 0x8000_0000
    requires nblock <= eclass.Length && nblock <= eclass8.Length && nblock + 64 <= bh.Length
    requires eclass8[..nblock] == block
    modifies fmap, eclass, eclass8, bh
    ensures IsOrder(block, fmap[..])
    ensures eclass8[..nblock] == block
  {
    hide *;
    var ftab, ftabCopy := new int[257], new int[256];
    CountChars(ftab, ftabCopy, eclass8, nblock, block);
    FillBuckets(fmap, ftab, eclass8, nblock, block);
    SetFirstHeaders(bh, ftab, nblock, fmap[..], block);
    ghost var first := FirstOf(block, fmap[..]);
    InBucketsPerm(block, fmap[..]);
    BucketsSorted(block, fmap[..]);
    Overwritten(eclass8);
    var H := 1;
    while true
      invariant 1 <= H <= nblock && IsPerm(fmap[..], nblock) && SortedTo(block, fmap[..], H, 0, nblock)
      invariant Headers(block, fmap[..], bh[..], H, 0, nblock) && Sentinels(bh[..], nblock)
      invariant FirstColumn(block, fmap[..], first)
      invariant forall c :: 0 <= c < 256 ==> ftabCopy[c] == Count(block, c)
      decreases nblock - H
    {
      AssignRanks(fmap, eclass, bh, nblock, H, block);
      var nNotDone := DoublingPass(fmap, eclass, bh, nblock, H, block, first);
      H := 2 * H;
      if H > nblock || nNotDone == 0 {
        if nNotDone == 0 { AllSetEach(bh[..], nblock); }
        DeepEnough(block, fmap[..], bh[..], H);
        break;
      }
    }
    OrderIsPerm(block, fmap[..]);
    Reconstruct(fmap, eclass8, ftabCopy, nblock, block, first);
  }
}
