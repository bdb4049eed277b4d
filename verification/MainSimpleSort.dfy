/** mainSimpleSort (dep/bzip2/blocksort.c): a shell sort of rotations that agree on their first d characters. */
module MainSimpleSort {
  import opened Bits
  import opened RotationPrefixes
  import opened RotationOrder
  import opened FallbackSimpleSort
  import opened MainCompare

  /** The slice [lo, hi) of f holds rotations that agree on their first d characters. */
  ghost predicate TiedSlice(block: seq<byte>, f: seq<nat>, d: nat, lo: int, hi: int) {
    && 0 <= lo <= hi <= |f| && (forall i :: lo <= i < hi ==> f[i] < |block|)
    && forall p, q :: lo <= p < hi && lo <= q < hi ==> Pre(block, f[p], d) == Pre(block, f[q], d)
  }

  lemma TiedPair(block: seq<byte>, f: seq<nat>, d: nat, lo: int, hi: int, p: int, q: int)
    requires TiedSlice(block, f, d, lo, hi) && lo <= p < hi && lo <= q < hi
    ensures f[p] < |block| && f[q] < |block| && Pre(block, f[p], d) == Pre(block, f[q], d)
  {
  }

  lemma TiedBounds(block: seq<byte>, f: seq<nat>, d: nat, lo: int, hi: int)
    requires TiedSlice(block, f, d, lo, hi)
    ensures 0 <= lo <= hi <= |f| && forall i :: lo <= i < hi ==> f[i] < |block|
  {
  }

  lemma TiedSame(block: seq<byte>, f: seq<nat>, g: seq<nat>, d: nat, lo: int, hi: int)
    requires TiedSlice(block, f, d, lo, hi) && SamePart(f, g, lo, hi)
    ensures TiedSlice(block, g, d, lo, hi)
  {
    SamePartLength(f, g, lo, hi);
    hide SamePart, Pre;
    forall p, q | lo <= p < hi && lo <= q < hi
      ensures p < |g| && q < |g| && g[p] < |block| && g[q] < |block| && Pre(block, g[p], d) == Pre(block, g[q], d)
    {
      var p' := SamePartInside(f, g, lo, hi, p);
      var q' := SamePartInside(f, g, lo, hi, q);
    }
  }

  lemma SamePartLength(f: seq<nat>, g: seq<nat>, lo: int, hi: int)
    requires SamePart(f, g, lo, hi)
    ensures |f| == |g|
  {
  }

  /** Skipping d common characters. */
  lemma SaysDeep(block: seq<byte>, gt: bool, x: nat, y: nat, d: nat)
    requires x < |block| && y < |block| && d <= 15 && 34 < |block| && Pre(block, x, d) == Pre(block, y, d)
    requires Says(block, gt, Wrap(|block|, x + d), Wrap(|block|, y + d))
    ensures gt ==> Order(block)[y] <= Order(block)[x]
    ensures !gt ==> Order(block)[x] <= Order(block)[y]
  {
    AheadWraps(|block|, x, d);
    AheadWraps(|block|, y, d);
    OrderAhead(block, x, y, d);
    OrderAhead(block, y, x, d);
  }

  // Insertion with gap 1.

  /** Elements j..i-1 of f0 have moved up by one. */
  ghost predicate Shifted(f0: seq<nat>, f: seq<nat>, i: int, j: int) {
    && 0 <= j <= i < |f| == |f0|
    && (forall k :: j < k <= i ==> f[k] == f0[k - 1])
    && forall k :: 0 <= k < j || i < k < |f| ==> f[k] == f0[k]
  }

  ghost predicate Above(f0: seq<nat>, e: seq<nat>, i: int, j: int, v: nat) {
    && 0 <= j <= i < |f0| && v < |e|
    && forall k :: j <= k < i ==> f0[k] < |e| && e[v] <= e[f0[k]]
  }

  lemma ShiftNone(f0: seq<nat>, e: seq<nat>, i: int, v: nat)
    requires 0 <= i < |f0| && v < |e|
    ensures Shifted(f0, f0, i, i) && Above(f0, e, i, i, v)
  {
  }

  lemma ShiftOne(f0: seq<nat>, f: seq<nat>, e: seq<nat>, i: int, j: int, v: nat)
    requires Shifted(f0, f, i, j) && Above(f0, e, i, j, v) && j > 0 && f[j - 1] < |e| && e[v] <= e[f[j - 1]]
    ensures Shifted(f0, f[j := f[j - 1]], i, j - 1) && Above(f0, e, i, j - 1, v)
  {
  }

  lemma ShiftEnd(f0: seq<nat>, f: seq<nat>, e: seq<nat>, lo: int, i: int, j: int, v: nat)
    requires Shifted(f0, f, i, j) && Above(f0, e, i, j, v) && SortedBy(f0, e, lo, i) && lo <= j && v == f0[i]
    requires j > lo ==> f[j - 1] < |e| && e[f[j - 1]] <= e[v]
    ensures SortedBy(f[j := v], e, lo, i + 1)
  {
    var g := f[j := v];
    forall k | lo <= k < i + 1
      ensures g[k] == if k < j then f0[k] else if k == j then v else f0[k - 1]
    {
    }
  }

  /** One insertion with gap h: element i moves down in steps of h. With gap 1 it extends the sorted part. */
  method InsertGap(ptr: array<nat>, ext: array<byte>, quadrant: array<nat>, nblock: nat, lo: int, hi: int, d: nat, h: nat,
                   i: int, budget0: int, ghost block: seq<byte>)
    returns (budget: int)
    requires ptr != quadrant && ptr as object != ext && nblock == |block| && d <= 15 && 1 <= h && lo + h <= i <= hi
    requires Extended(block, ext[..]) && Quadrants(block, quadrant[..]) && TiedSlice(block, ptr[..], d, lo, hi + 1)
    modifies ptr
    ensures SamePart(old(ptr[..]), ptr[..], lo, hi + 1) && TiedSlice(block, ptr[..], d, lo, hi + 1) && budget <= budget0
    ensures h == 1 && SortedBy(old(ptr[..]), Order(block), lo, i) ==> SortedBy(ptr[..], Order(block), lo, i + 1)
  {
    hide *;
    ByteAt(block, ext[..], 0);
    TiedBounds(block, ptr[..], d, lo, hi + 1);
    ghost var f0: seq<nat>, e := ptr[..], Order(block);
    budget := budget0;
    var v: nat := ptr[i];
    var j := i;
    SamePartRefl(f0, lo, hi + 1);
    ShiftNone(f0, e, i, v);
    assert f0[j := v] == f0;
    while true
      invariant lo + h <= j <= i && budget <= budget0
      invariant SamePart(f0, ptr[..][j := v], lo, hi + 1) && TiedSlice(block, ptr[..][j := v], d, lo, hi + 1)
      invariant h == 1 ==> Shifted(f0, ptr[..], i, j) && Above(f0, e, i, j, v)
      decreases j
    {
      ghost var f: seq<nat> := ptr[..];
      TiedPair(block, f[j := v], d, lo, hi + 1, j - h, j);
      assert f[j := v][j - h] == ptr[j - h];
      var gt;
      gt, budget := GtU(ptr[j - h] + d, v + d, ext, quadrant, nblock, budget, block);
      SaysDeep(block, gt, ptr[j - h], v, d);
      if !gt { break; }
      ptr[j] := ptr[j - h];
      HoleMoves(f0, f, lo, hi + 1, j, j - h, v);
      assert ptr[..] == f[j := f[j - h]];
      if h == 1 { ShiftOne(f0, f, e, i, j, v); }
      j := j - h;
      TiedSame(block, f0, ptr[..][j := v], d, lo, hi + 1);
      if j <= lo + h - 1 { break; }
    }
    ghost var f: seq<nat> := ptr[..];
    ptr[j] := v;
    assert ptr[..] == f[j := v];
    if h == 1 && SortedBy(f0, e, lo, i) { ShiftEnd(f0, f, e, lo, i, j, v); }
  }

  /** Knuth's increments. */
  const INCS: seq<nat> := [1, 4, 13, 40, 121, 364, 1093, 3280, 9841, 29524, 88573, 265720, 797161, 2391484]

  lemma IncsFacts()
    ensures |INCS| == 14 && INCS[0] == 1 && INCS[13] == 2391484 && forall k :: 0 <= k < 14 ==> INCS[k] >= 1
  {
  }

  /**
   mainSimpleSort. Unless the budget runs out, the slice ends up in the order of the rotations; the budget is looked at
   after every third insertion.
   */
  method SimpleSort(ptr: array<nat>, ext: array<byte>, quadrant: array<nat>, nblock: nat, lo: int, hi: int, d: nat,
                    budget0: int, ghost block: seq<byte>)
    returns (budget: int)
    requires ptr != quadrant && ptr as object != ext && nblock == |block| && d <= 15 && hi - lo < 2391484
    requires Extended(block, ext[..]) && Quadrants(block, quadrant[..]) && TiedSlice(block, ptr[..], d, lo, hi + 1)
    modifies ptr
    ensures SamePart(old(ptr[..]), ptr[..], lo, hi + 1) && budget <= budget0
    ensures budget >= 0 ==> SortedBy(ptr[..], Order(block), lo, hi + 1)
  {
    hide *;
    TiedBounds(block, ptr[..], d, lo, hi + 1);
    IncsFacts();
    ghost var f0, e := ptr[..], Order(block);
    budget := budget0;
    SamePartRefl(f0, lo, hi + 1);
    var bigN := hi - lo + 1;
    if bigN < 2 {
      ShortIsSorted(f0, e, lo, hi + 1);
      return;
    }
    var hp: int := 0;
    while INCS[hp] < bigN
      invariant 0 <= hp < 14 && (hp > 0 ==> INCS[hp - 1] < bigN)
      decreases 14 - hp
    {
      hp := hp + 1;
    }
    hp := hp - 1;
    while hp >= 0
      invariant -1 <= hp < 14 && budget <= budget0
      invariant SamePart(f0, ptr[..], lo, hi + 1) && TiedSlice(block, ptr[..], d, lo, hi + 1)
      invariant hp == -1 ==> SortedBy(ptr[..], e, lo, hi + 1)
    {
      var h := INCS[hp];
      var i := lo + h;
      TiedBounds(block, ptr[..], d, lo, hi + 1);
      if hp == 0 { ShortIsSorted(ptr[..], e, lo, lo + 1); }
      while i <= hi
        invariant lo + h <= i && budget <= budget0 && (hp == 0 ==> i <= hi + 1)
        invariant SamePart(f0, ptr[..], lo, hi + 1) && TiedSlice(block, ptr[..], d, lo, hi + 1)
        invariant hp == 0 ==> SortedBy(ptr[..], e, lo, i)
      {
        ghost var f := ptr[..];
        budget := InsertGap(ptr, ext, quadrant, nblock, lo, hi, d, h, i, budget, block);
        SamePartTransitive(f0, f, ptr[..], lo, hi + 1);
        i := i + 1;
        if (i - (lo + h)) % 3 == 0 && budget < 0 { return; }
      }
      hp := hp - 1;
    }
  }
}
