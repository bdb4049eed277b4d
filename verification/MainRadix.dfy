/**
 The beginning of mainSort (dep/bzip2/blocksort.c): the radix sort by the first two characters, the overshoot behind the
 block, and the order in which the big buckets are going to be worked on.
 */
module MainRadix {
  import opened Bits
  import opened CountingOrder
  import opened Rotations
  import opened RotationOrder
  import opened FallbackSimpleSort
  import opened FallbackPass
  import opened SmallBuckets
  import opened MainCompare
  import opened MainSimpleSort

  // Counting from the end of the block.

  lemma {:induction false} CountSplit(keys: seq<nat>, i: nat, c: nat)
    requires i <= |keys|
    ensures Count(keys, c) == Count(keys[..i], c) + Count(keys[i..], c)
    decreases |keys|
  {
    if i < |keys| {
      var k := |keys| - 1;
      CountSplit(keys[..k], i, c);
      assert keys[..k][..i] == keys[..i] && keys[..k][i..] == keys[i..][..k - i];
    } else {
      assert keys[..i] == keys;
    }
  }

  lemma CountSuffix(keys: seq<nat>, i: nat, c: nat)
    requires i < |keys|
    ensures Count(keys[i..], c) == Count(keys[i + 1..], c) + if keys[i] == c then 1 else 0
  {
    CountSplit(keys, i, c);
    CountSplit(keys, i + 1, c);
    CountPrefix(keys, i, c);
  }

  lemma PairAt(block: seq<byte>, i: nat)
    requires i < |block|
    ensures Pairs(block)[i] == PairOf(block[i], block[Next(|block|, i)]) && |Pairs(block)| == |block| && Pairs(block)[i] < 65536
    ensures Next(|block|, i) == if i + 1 == |block| then 0 else i + 1
  {
  }

  /** The pair of the position before, from the pair of the position: one character is shifted in on top. */
  function Shifted2(j: nat, b: byte): nat {
    j / 256 + 256 * (b as nat)
  }

  lemma ShiftIn(block: seq<byte>, j: nat, i: nat)
    requires i < |block| && j / 256 == block[Next(|block|, i)]
    ensures Shifted2(j, block[i]) == Pairs(block)[i] && Shifted2(j, block[i]) / 256 == block[i] && Shifted2(j, block[i]) < 65536
  {
  }

  /** The 2-byte frequency table. */
  method CountPairs(ftab: array<nat>, quadrant: array<nat>, ext: array<byte>, nblock: nat, ghost block: seq<byte>)
    requires ftab != quadrant && ftab as object != ext && quadrant as object != ext && ftab.Length == 65537
    requires 0 < nblock == |block| <= ext.Length && ext[..nblock] == block && nblock <= quadrant.Length
    modifies ftab, quadrant
    ensures forall c :: 0 <= c < 65536 ==> ftab[c] == Count(Pairs(block), c)
    ensures ftab[65536] == 0 && forall x :: 0 <= x < nblock ==> quadrant[x] == 0
  {
    hide Count, Pairs, Shifted2;
    var i := 65536;
    while i >= 0
      modifies ftab
      invariant -1 <= i <= 65536 && forall c :: i < c <= 65536 ==> ftab[c] == 0
    {
      ftab[i] := 0;
      i := i - 1;
    }
    assert block[0] == ext[..nblock][0];
    var j: nat := 256 * (ext[0] as nat);
    i := nblock - 1;
    ghost var pairs := Pairs(block);
    NoneLeft(pairs);
    PairAt(block, i);
    while i >= 0
      invariant -1 <= i < nblock && (i >= 0 ==> j / 256 == block[Next(nblock, i)])
      invariant forall c :: 0 <= c < 65536 ==> ftab[c] == Count(pairs[i + 1..], c)
      invariant ftab[65536] == 0 && forall x :: i < x < nblock ==> quadrant[x] == 0
    {
      quadrant[i] := 0;
      assert ext[i] == ext[..nblock][i];
      ShiftIn(block, j, i);
      forall c: nat | c < 65536
        ensures Count(pairs[i..], c) == Count(pairs[i + 1..], c) + if pairs[i] == c then 1 else 0
      {
        CountSuffix(pairs, i, c);
      }
      j := Shifted2(j, ext[i]);
      ftab[j] := ftab[j] + 1;
      if i > 0 { PairAt(block, i - 1); }
      i := i - 1;
    }
    assert pairs[0..] == pairs;
  }

  lemma NoneLeft(keys: seq<nat>)
    ensures forall c :: Count(keys[|keys|..], c) == 0
  {
  }

  /** The block goes on at its beginning. */
  method Overshoot(quadrant: array<nat>, ext: array<byte>, nblock: nat, ghost block: seq<byte>)
    requires quadrant as object != ext && 34 < nblock == |block| && nblock + 34 <= ext.Length && nblock + 34 <= quadrant.Length
    requires ext[..nblock] == block && forall x :: 0 <= x < nblock ==> quadrant[x] == 0
    modifies quadrant, ext
    ensures Extended(block, ext[..]) && ext[..nblock] == block
    ensures forall x :: 0 <= x < nblock + 34 ==> quadrant[x] == 0
  {
    var i := 0;
    assert forall x :: 0 <= x < nblock ==> ext[x] == ext[..nblock][x];
    while i < 34
      invariant 0 <= i <= 34 && (forall x :: 0 <= x < nblock ==> ext[x] == block[x])
      invariant forall x :: 0 <= x < i ==> ext[nblock + x] == block[x]
      invariant forall x :: 0 <= x < nblock + i ==> quadrant[x] == 0
    {
      ext[nblock + i] := ext[i];
      quadrant[nblock + i] := 0;
      i := i + 1;
    }
  }

  /** The radix sort, when positions from i on have been placed: they are where a stable sort puts them. */
  ghost predicate Filling(pairs: seq<nat>, f: seq<nat>, ftab: seq<nat>, i: nat) {
    && |f| == |pairs| && |ftab| == 65537 && i <= |pairs| && (forall x :: 0 <= x < |pairs| ==> pairs[x] < 65536)
    && (forall c :: 0 <= c < 65536 ==> ftab[c] == CountBelow(pairs, c + 1) - Count(pairs[i..], c))
    && (forall m :: i <= m < |pairs| ==> SortedPlace(pairs, m) < |f| && f[SortedPlace(pairs, m)] == m)
  }

  lemma FillingStep(pairs: seq<nat>, f: seq<nat>, ftab: seq<nat>, i: nat)
    requires Filling(pairs, f, ftab, i + 1) && i < |pairs|
    ensures 1 <= ftab[pairs[i]] <= |pairs|
    ensures Filling(pairs, f[ftab[pairs[i]] - 1 := i], ftab[pairs[i] := ftab[pairs[i]] - 1], i)
  {
    PlaceInRange(pairs, i);
    CountSplit(pairs, i + 1, pairs[i]);
    CountPrefix(pairs, i, pairs[i]);
    CountBelowNext(pairs, pairs[i]);
    var j := SortedPlace(pairs, i);
    assert ftab[pairs[i]] == j + 1;
    forall c: nat | c < 65536
      ensures Count(pairs[i..], c) == Count(pairs[i + 1..], c) + if pairs[i] == c then 1 else 0
    {
      CountSuffix(pairs, i, c);
    }
    hide Count, CountBelow;
    forall m | i < m < |pairs|
      ensures SortedPlace(pairs, m) != j
    {
      if SortedPlace(pairs, m) == j { SamePlace(pairs, i, m); }
    }
  }

  lemma SamePlace(pairs: seq<nat>, i: nat, m: nat)
    requires i < |pairs| && m < |pairs| && SortedPlace(pairs, i) == SortedPlace(pairs, m)
    ensures i == m
  {
    PlaceInRange(pairs, i);
    PlaceInRange(pairs, m);
    if pairs[i] < pairs[m] {
      CountBelowMonotone(pairs, pairs[i] + 1, pairs[m]);
    } else if pairs[m] < pairs[i] {
      CountBelowMonotone(pairs, pairs[m] + 1, pairs[i]);
    } else {
      SameRank(pairs, i, m);
    }
  }

  lemma FillingEnd(block: seq<byte>, f: seq<nat>, ftab: seq<nat>)
    requires Filling(Pairs(block), f, ftab, 0)
    ensures InSmall(block, f)
    ensures forall c :: 0 <= c < 65536 ==> ftab[c] == Start(block, c)
  {
    var pairs, n := Pairs(block), |block|;
    assert pairs[0..] == pairs;
    forall c: nat | c < 65536
      ensures ftab[c] == Start(block, c)
    {
      CountBelowNext(pairs, c);
    }
    hide Count, CountBelow, SortedPlace;
    forall r | 0 <= r < n
      ensures f[r] < n && SortedPlace(pairs, f[r]) == r
    {
      PermutedInverse(pairs, f, 65536, r);
    }
    forall p | 0 <= p < n
      ensures Start(block, pairs[f[p]]) <= p < Start(block, pairs[f[p]] + 1)
    {
      PlaceOf(block, f[p]);
    }
  }

  lemma PlaceOf(block: seq<byte>, x: nat)
    requires x < |block|
    ensures Start(block, Pairs(block)[x]) <= SortedPlace(Pairs(block), x) < Start(block, Pairs(block)[x] + 1)
  {
    PlaceInRange(Pairs(block), x);
  }

  /** The sums of the frequencies, and the radix sort itself. */
  method RadixSort(ptr: array<nat>, ftab: array<nat>, ext: array<byte>, nblock: nat, ghost block: seq<byte>)
    requires ptr != ftab && ptr as object != ext && ftab as object != ext && ftab.Length == 65537
    requires 0 < nblock == |block| == ptr.Length && nblock <= ext.Length && ext[..nblock] == block
    requires ftab[65536] == 0 && forall c :: 0 <= c < 65536 ==> ftab[c] == Count(Pairs(block), c)
    modifies ptr, ftab
    ensures InSmall(block, ptr[..]) && forall c :: 0 <= c <= 65536 ==> ftab[c] == Start(block, c)
  {
    hide *;
    ghost var pairs := Pairs(block);
    SumUp(ftab, block);
    NoneLeft(pairs);
    PairAt(block, nblock - 1);
    assert block[0] == ext[..nblock][0];
    var s: nat := 256 * (ext[0] as nat);
    var i := nblock - 1;
    FillingStart(block, ptr[..], ftab[..]);
    while i >= 0
      invariant -1 <= i < nblock && (i >= 0 ==> s / 256 == block[Next(nblock, i)])
      invariant Filling(pairs, ptr[..], ftab[..], i + 1) && ftab[65536] == nblock
    {
      assert ext[i] == ext[..nblock][i];
      ShiftIn(block, s, i);
      FillingStep(pairs, ptr[..], ftab[..], i);
      ghost var f: seq<nat>, t: seq<nat> := ptr[..], ftab[..];
      s := Shifted2(s, ext[i]);
      var j := ftab[s] - 1;
      ftab[s] := j;
      ptr[j] := i;
      assert ptr[..] == f[t[pairs[i]] - 1 := i as nat] && ftab[..] == t[pairs[i] := t[pairs[i]] - 1];
      if i > 0 { PairAt(block, i - 1); }
      i := i - 1;
    }
    FillingEnd(block, ptr[..], ftab[..]);
    LastStart(block);
  }

  lemma LastStart(block: seq<byte>)
    ensures Start(block, 65536) == |block|
  {
    AllBelow(Pairs(block), 65536);
  }

  lemma FillingStart(block: seq<byte>, f: seq<nat>, ftab: seq<nat>)
    requires |f| == |block| && |ftab| == 65537
    requires forall c :: 0 <= c < 65536 ==> ftab[c] == CountBelow(Pairs(block), c + 1)
    ensures Filling(Pairs(block), f, ftab, |block|)
  {
    assert Pairs(block)[|block|..] == [];
  }

  method SumUp(ftab: array<nat>, ghost block: seq<byte>)
    requires ftab.Length == 65537
    requires ftab[65536] == 0 && forall c :: 0 <= c < 65536 ==> ftab[c] == Count(Pairs(block), c)
    modifies ftab
    ensures ftab[65536] == |block| && forall c :: 0 <= c < 65536 ==> ftab[c] == CountBelow(Pairs(block), c + 1)
  {
    ghost var pairs := Pairs(block);
    NoneBelow(pairs, 0);
    CountBelowNext(pairs, 0);
    AllBelow(pairs, 65536);
    hide Count, CountBelow, Pairs;
    var i := 1;
    while i <= 65536
      invariant 1 <= i <= 65537 && (i <= 65536 ==> ftab[65536] == 0) && (i == 65537 ==> ftab[65536] == |block|)
      invariant forall c :: 0 <= c < i && c < 65536 ==> ftab[c] == CountBelow(pairs, c + 1)
      invariant forall c :: i <= c < 65536 ==> ftab[c] == Count(pairs, c)
    {
      CountBelowNext(pairs, i);
      ftab[i] := ftab[i] + ftab[i - 1];
      i := i + 1;
    }
  }

  // The running order.

  /** How many positions each big bucket has. */
  ghost predicate Frequencies(block: seq<byte>, freqs: seq<nat>) {
    |freqs| == 256 && forall b :: 0 <= b < 256 ==> freqs[b] == Start(block, PairOf(b + 1, 0)) - Start(block, PairOf(b, 0))
  }

  lemma FrequenciesOf(block: seq<byte>) returns (freqs: seq<nat>)
    ensures Frequencies(block, freqs)
  {
    forall b: nat | b < 256
      ensures Start(block, PairOf(b + 1, 0)) >= Start(block, PairOf(b, 0))
    {
      StartMonotone(block, PairOf(b, 0), PairOf(b + 1, 0));
    }
    freqs := seq(256, b requires 0 <= b < 256 =>
      if Start(block, PairOf(b + 1, 0)) >= Start(block, PairOf(b, 0))
      then Start(block, PairOf(b + 1, 0)) - Start(block, PairOf(b, 0)) else 0);
  }

  /** BIGFREQ(b). */
  method BigFreq(ftab: array<nat>, b: nat, ghost block: seq<byte>, ghost freqs: seq<nat>) returns (r: int)
    requires b < 256 && ftab.Length == 65537 && Frequencies(block, freqs)
    requires forall c :: 0 <= c <= 65536 ==> ftab[c] == Start(block, c)
    ensures r == freqs[b]
  {
    hide Start;
    r := ftab[256 * (b + 1)] as int - ftab[256 * b];
    assert PairOf(b + 1, 0) == 256 * (b + 1) && PairOf(b, 0) == 256 * b;
  }

  /** One insertion with gap h. */
  method OrderOne(order: array<nat>, ftab: array<nat>, h: nat, i: int, ghost block: seq<byte>, ghost freqs: seq<nat>)
    requires order != ftab && ftab.Length == 65537 && order.Length == 256 && 1 <= h <= i < 256
    requires Frequencies(block, freqs) && forall c :: 0 <= c <= 65536 ==> ftab[c] == Start(block, c)
    requires forall k :: 0 <= k < 256 ==> order[k] < 256
    modifies order
    ensures SamePart(old(order[..]), order[..], 0, 256) && forall k :: 0 <= k < 256 ==> order[k] < 256
    ensures h == 1 && SortedBy(old(order[..]), freqs, 0, i) ==> SortedBy(order[..], freqs, 0, i + 1)
  {
    hide *;
    FrequenciesSize(block, freqs);
    ghost var f0: seq<nat> := order[..];
    var vv: nat := order[i];
    var j := i;
    SamePartRefl(f0, 0, 256);
    ShiftNone(f0, freqs, i, vv);
    assert f0[j := vv] == f0;
    var mine := BigFreq(ftab, vv, block, freqs);
    while true
      invariant h <= j <= i && SamePart(f0, order[..][j := vv], 0, 256) && forall k :: 0 <= k < 256 ==> order[k] < 256
      invariant h == 1 ==> Shifted(f0, order[..], i, j) && Above(f0, freqs, i, j, vv)
      decreases j
    {
      ghost var f: seq<nat> := order[..];
      var other := BigFreq(ftab, order[j - h], block, freqs);
      if other <= mine { break; }
      order[j] := order[j - h];
      HoleMoves(f0, f, 0, 256, j, j - h, vv);
      assert order[..] == f[j := f[j - h]];
      if h == 1 { ShiftOne(f0, f, freqs, i, j, vv); }
      j := j - h;
      if j <= h - 1 { break; }
    }
    ghost var f: seq<nat> := order[..];
    order[j] := vv;
    assert order[..] == f[j := vv];
    if h == 1 && SortedBy(f0, freqs, 0, i) { ShiftEnd(f0, f, freqs, 0, i, j, vv); }
  }

  lemma FrequenciesSize(block: seq<byte>, freqs: seq<nat>)
    requires Frequencies(block, freqs)
    ensures |freqs| == 256
  {
  }

  lemma RangeIsPermOf(f: seq<nat>)
    requires |f| == 256 && forall k :: 0 <= k < 256 ==> f[k] == k
    ensures IsPerm(f, 256)
  {
  }

  lemma PermBound(f: seq<nat>, n: nat)
    requires IsPerm(f, n)
    ensures |f| == n && forall k :: 0 <= k < n ==> f[k] < n
  {
  }

  /** The running order: every big bucket once, from the smallest to the largest. */
  method RunningOrder(ftab: array<nat>, ghost block: seq<byte>) returns (order: array<nat>, ghost freqs: seq<nat>)
    requires ftab.Length == 65537 && forall c :: 0 <= c <= 65536 ==> ftab[c] == Start(block, c)
    ensures fresh(order) && order.Length == 256 && IsPerm(order[..], 256)
    ensures Frequencies(block, freqs) && SortedBy(order[..], freqs, 0, 256)
  {
    hide *;
    freqs := FrequenciesOf(block);
    FrequenciesSize(block, freqs);
    order := new nat[256];
    var i := 0;
    while i <= 255
      modifies order
      invariant 0 <= i <= 256 && forall k :: 0 <= k < i ==> order[k] == k
    {
      order[i] := i;
      i := i + 1;
    }
    RangeIsPermOf(order[..]);
    var h := 1;
    while h <= 256
      invariant 1 <= h <= 769 && (h == 1 || h == 4 || h == 13 || h == 40 || h == 121 || h == 364)
      decreases 1000 - h
    {
      h := 3 * h + 1;
    }
    while h != 1
      invariant h == 364 || h == 121 || h == 40 || h == 13 || h == 4 || h == 1
      invariant IsPerm(order[..], 256) && (h == 1 ==> SortedBy(order[..], freqs, 0, 256))
      decreases h
    {
      h := h / 3;
      i := h;
      PermBound(order[..], 256);
      if h == 1 { ShortIsSorted(order[..], freqs, 0, 1); }
      while i <= 255
        invariant h <= i <= 256 && IsPerm(order[..], 256) && (h == 1 ==> SortedBy(order[..], freqs, 0, i))
      {
        ghost var f := order[..];
        PermBound(f, 256);
        OrderOne(order, ftab, h, i, block, freqs);
        PermSame(f, order[..], 256, 0, 256);
        i := i + 1;
      }
    }
  }
}
