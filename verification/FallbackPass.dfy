/**
 One doubling pass of fallbackSort (dep/bzip2/blocksort.c): ranking the rotations, finding the
 buckets that the header bits delimit, sorting each by rank and marking the new
 headers. Passes take a list sorted to depth H to one sorted to depth 2H.
 */
module FallbackPass {
  import opened Bits
  import opened Rotations
  import opened RotationPrefixes
  import opened FallbackSimpleSort
  import opened FallbackQSort

  // The header bits, 32 to a word, with alternating sentinels behind the block.

  /** The sentinels: the 64 bits from nblock on are alternately set and clear. */
  ghost predicate Sentinels(bh: seq<bool>, n: nat) {
    n + 64 <= |bh| && forall i :: 0 <= i < 32 ==> bh[n + 2 * i] && !bh[n + 2 * i + 1]
  }

  ghost predicate AllSet(bh: seq<bool>, from: nat, to: nat) {
    to <= |bh| && forall i :: from <= i < to ==> bh[i]
  }

  ghost predicate AllClear(bh: seq<bool>, from: nat, to: nat) {
    to <= |bh| && forall i :: from <= i < to ==> !bh[i]
  }

  /** WORD_BH(k) == 0xffffffff, for k at a word boundary. */
  method WordIsFull(bh: array<bool>, k: nat) returns (full: bool)
    requires k + 32 <= bh.Length
    ensures full <==> AllSet(bh[..], k, k + 32)
  {
    var i := k;
    while i < k + 32 && bh[i]
      invariant k <= i <= k + 32 && AllSet(bh[..], k, i)
    {
      i := i + 1;
    }
    full := i == k + 32;
  }

  /** WORD_BH(k) == 0x00000000, for k at a word boundary. */
  method WordIsEmpty(bh: array<bool>, k: nat) returns (empty: bool)
    requires k + 32 <= bh.Length
    ensures empty <==> AllClear(bh[..], k, k + 32)
  {
    var i := k;
    while i < k + 32 && !bh[i]
      invariant k <= i <= k + 32 && AllClear(bh[..], k, i)
    {
      i := i + 1;
    }
    empty := i == k + 32;
  }

  /** The first clear bit from k0 on. */
  method SkipSet(bh: array<bool>, nblock: nat, k0: nat) returns (k: nat)
    requires k0 <= nblock + 1 && nblock + 64 <= bh.Length && !bh[nblock + 1]
    ensures k0 <= k <= nblock + 1 && AllSet(bh[..], k0, k) && !bh[k]
  {
    k := k0;
    while bh[k] && k % 32 != 0
      invariant k0 <= k <= nblock + 1 && AllSet(bh[..], k0, k)
      decreases nblock + 1 - k
    {
      k := k + 1;
    }
    if bh[k] {
      var full := WordIsFull(bh, k);
      while full
        invariant k0 <= k <= nblock + 1 && AllSet(bh[..], k0, k)
        invariant full ==> AllSet(bh[..], k, k + 32)
        decreases nblock + 1 - k
      {
        assert k + 32 <= nblock + 1;
        k := k + 32;
        full := WordIsFull(bh, k);
      }
      while bh[k]
        invariant k0 <= k <= nblock + 1 && AllSet(bh[..], k0, k)
        decreases nblock + 1 - k
      {
        k := k + 1;
      }
    }
  }

  /** The first set bit from k0 on. */
  method SkipClear(bh: array<bool>, nblock: nat, k0: nat) returns (k: nat)
    requires k0 <= nblock && nblock + 64 <= bh.Length && bh[nblock]
    ensures k0 <= k <= nblock && AllClear(bh[..], k0, k) && bh[k]
  {
    k := k0;
    while !bh[k] && k % 32 != 0
      invariant k0 <= k <= nblock && AllClear(bh[..], k0, k)
      decreases nblock - k
    {
      k := k + 1;
    }
    if !bh[k] {
      var empty := WordIsEmpty(bh, k);
      while empty
        invariant k0 <= k <= nblock && AllClear(bh[..], k0, k)
        invariant empty ==> AllClear(bh[..], k, k + 32)
        decreases nblock - k
      {
        assert k + 32 <= nblock;
        k := k + 32;
        empty := WordIsEmpty(bh, k);
      }
      while !bh[k]
        invariant k0 <= k <= nblock && AllClear(bh[..], k0, k)
        decreases nblock - k
      {
        k := k + 1;
      }
    }
  }

  /** The next bucket of more than one element: positions from k up to l stand alone, [l, r] is one bucket. */
  method NextBucket(bh: array<bool>, nblock: nat, k0: nat) returns (found: bool, l: nat, r: nat)
    requires k0 <= nblock && Sentinels(bh[..], nblock) && bh[k0]
    ensures found ==> k0 <= l < r < nblock && AllSet(bh[..], k0, l + 1) && AllClear(bh[..], l + 1, r + 1) && bh[r + 1]
    ensures !found ==> AllSet(bh[..], k0, nblock)
  {
    assert bh[..][nblock + 2 * 0] && !bh[..][nblock + 2 * 0 + 1];
    var k := SkipSet(bh, nblock, k0);
    l, r := k - 1, 0;
    if l >= nblock { return false, l, r; }
    k := SkipClear(bh, nblock, k);
    r := k - 1;
    if r >= nblock { return false, l, r; }
    found := true;
  }

  // Ranking.

  /** The position h steps before p. */
  function Back(n: nat, p: nat, h: nat): (k: nat)
    requires p < n && h <= n
    ensures k < n
  {
    if p < h then p + n - h else p - h
  }

  /** The positions of the list up to i have been given the header of their class. */
  ghost predicate RankedTo(f: seq<nat>, bh: seq<bool>, e: seq<nat>, n: nat, h: nat, i: nat) {
    && i <= n == |f| && n <= |bh| && n <= |e| && h <= n && (forall m :: 0 <= m < n ==> f[m] < n)
    && forall m :: 0 <= m < i ==> e[Back(n, f[m], h)] == Head(bh, m)
  }

  lemma RankStep(f: seq<nat>, bh: seq<bool>, e: seq<nat>, n: nat, h: nat, i: nat)
    requires RankedTo(f, bh, e, n, h, i) && i < n && IsPerm(f, n)
    ensures RankedTo(f, bh, e[Back(n, f[i], h) := Head(bh, i)], n, h, i + 1)
  {
    forall m | 0 <= m < i
      ensures Back(n, f[m], h) != Back(n, f[i], h)
    {
    }
  }

  /** A list without repetitions lists everything. */
  lemma PermHas(f: seq<nat>, n: nat, y: nat) returns (m: nat)
    requires IsPerm(f, n) && y < n
    ensures m < n && f[m] == y
  {
    PermIsRange(f, n);
    assert Range(n)[y] == y;
    assert y in multiset(Range(n));
    assert y in multiset(f);
    m :| 0 <= m < |f| && f[m] == y;
  }

  lemma RankedAll(block: seq<byte>, f: seq<nat>, bh: seq<bool>, e: seq<nat>, h: nat)
    requires RankedTo(f, bh, e, |block|, h, |block|) && IsPerm(f, |block|)
    requires SortedTo(block, f, h, 0, |block|) && Headers(block, f, bh, h, 0, |block|)
    ensures Ranks(block, e, h)
  {
    var n := |block|;
    forall x, y | 0 <= x < n && 0 <= y < n
      ensures e[x] <= e[y] <==> LexLe(Pre(block, Ahead(n, x, h), h), Pre(block, Ahead(n, y, h), h))
    {
      RankedPair(block, f, bh, e, h, x, y);
    }
  }

  lemma RankedPair(block: seq<byte>, f: seq<nat>, bh: seq<bool>, e: seq<nat>, h: nat, x: nat, y: nat)
    requires |block| == |f| && |block| <= |e| && x < |block| && y < |block|
    requires RankedTo(f, bh, e, |block|, h, |block|) && IsPerm(f, |block|)
    requires SortedTo(block, f, h, 0, |block|) && Headers(block, f, bh, h, 0, |block|)
    ensures e[x] <= e[y] <==> LexLe(Pre(block, Ahead(|block|, x, h), h), Pre(block, Ahead(|block|, y, h), h))
  {
    hide *;
    var i := RankOf(f, bh, e, |block|, h, x);
    var j := RankOf(f, bh, e, |block|, h, y);
    HeadOrder(block, f, bh, h, i, j);
  }

  lemma RankOf(f: seq<nat>, bh: seq<bool>, e: seq<nat>, n: nat, h: nat, x: nat) returns (m: nat)
    requires RankedTo(f, bh, e, n, h, n) && IsPerm(f, n) && x < n
    ensures m < |f| && m < |bh| && x < |e| && f[m] == Ahead(n, x, h) && e[x] == Head(bh, m)
  {
    m := PermHas(f, n, Ahead(n, x, h));
    AheadWraps(n, x, h);
    assert Back(n, f[m], h) == x;
  }

  /** Every rotation is given the header of the class that the rotation H further on belongs to. */
  method AssignRanks(fmap: array<nat>, eclass: array<nat>, bh: array<bool>, nblock: nat, H: nat, ghost block: seq<byte>)
    requires fmap != eclass && eclass as object != bh && nblock == |block| == fmap.Length
    requires nblock <= eclass.Length && nblock <= bh.Length && 1 <= H <= nblock
    requires IsPerm(fmap[..], nblock) && SortedTo(block, fmap[..], H, 0, nblock)
    requires Headers(block, fmap[..], bh[..], H, 0, nblock)
    modifies eclass
    ensures Ranks(block, eclass[..], H)
  {
    hide *;
    ghost var f, b := fmap[..], bh[..];
    var j, i := 0, 0;
    PermBelow(f, nblock);
    RankStart(f, b, eclass[..], nblock, H);
    while i < nblock
      invariant 0 <= i <= nblock && if i == 0 then j == 0 else j == Head(b, i - 1)
      invariant RankedTo(f, b, eclass[..], nblock, H, i)
    {
      HeadStep(b, i);
      if bh[i] { j := i; }
      assert j == Head(b, i);
      RankStep(f, b, eclass[..], nblock, H, i);
      var k: int := fmap[i] - H;
      if k < 0 { k := k + nblock; }
      BackIs(nblock, f[i], H, k);
      eclass[k] := j;
      i := i + 1;
    }
    RankedAll(block, f, b, eclass[..], H);
  }

  lemma PermBelow(f: seq<nat>, n: nat)
    requires IsPerm(f, n)
    ensures |f| == n && forall m :: 0 <= m < n ==> f[m] < n
  {
  }

  lemma RankStart(f: seq<nat>, bh: seq<bool>, e: seq<nat>, n: nat, h: nat)
    requires n == |f| && n <= |bh| && n <= |e| && h <= n && forall m :: 0 <= m < n ==> f[m] < n
    ensures RankedTo(f, bh, e, n, h, 0)
  {
  }

  lemma HeadStep(bh: seq<bool>, i: nat)
    requires i < |bh|
    ensures Head(bh, i) == if i == 0 || bh[i] then i else Head(bh, i - 1)
  {
  }

  lemma BackIs(n: nat, p: nat, h: nat, k: int)
    requires p < n && h <= n && k == if p - h < 0 then p - h + n else p - h
    ensures k == Back(n, p, h)
  {
  }

  // The state of a pass.

  /**
   Up to position k the list is sorted to depth 2h and its headers mark the
   classes of depth 2h; from k on it is as the previous pass left it.
   */
  ghost predicate Halfway(block: seq<byte>, f: seq<nat>, bh: seq<bool>, e: seq<nat>, h: nat, k: nat) {
    && IsPerm(f, |block|) && k <= |block| && Sentinels(bh, |block|) && bh[k]
    && SortedTo(block, f, h, 0, |block|) && Ranks(block, e, h)
    && SortedTo(block, f, 2 * h, 0, k)
    && Headers(block, f, bh, 2 * h, 0, k) && Headers(block, f, bh, h, k, |block|)
  }

  lemma SortedPair(block: seq<byte>, f: seq<nat>, h: nat, from: nat, to: nat, i: nat, j: nat)
    requires SortedTo(block, f, h, from, to) && from <= i <= j < to
    ensures j < |f| && f[i] < |block| && f[j] < |block| && LexLe(Pre(block, f[i], h), Pre(block, f[j], h))
  {
  }

  lemma UntiedDiffer(block: seq<byte>, f: seq<nat>, h: nat, i: nat, j: nat)
    requires i < |f| && j < |f| && f[i] < |block| && f[j] < |block|
    ensures Tied(block, f, h, i, j) <==> Pre(block, f[i], h) == Pre(block, f[j], h)
  {
  }

  /** A header of depth h is also one of depth 2h. */
  lemma HeaderDeepens(block: seq<byte>, f: seq<nat>, bh: seq<bool>, h: nat, i: nat, j: nat)
    requires SortedTo(block, f, h, 0, |f|) && i < j < |f| && j < |bh| && f[i] < |block| && f[j] < |block|
    requires bh[j] && Headers(block, f, bh, h, j, j + 1)
    ensures LexLe(Pre(block, f[i], 2 * h), Pre(block, f[j], 2 * h)) && !Tied(block, f, 2 * h, i, j)
  {
    hide *;
    SortedPair(block, f, h, 0, |f|, i, j);
    HeaderSeparates(block, f, bh, h, i, j);
    UntiedDiffer(block, f, h, i, j);
    StrictDeepens(block, f[i], f[j], h, h);
    assert h + h == 2 * h;
    UntiedDiffer(block, f, 2 * h, i, j);
  }

  lemma HeadersPart(block: seq<byte>, f: seq<nat>, bh: seq<bool>, h: nat, from: nat, to: nat, j: nat)
    requires Headers(block, f, bh, h, from, to) && from <= j < to
    ensures Headers(block, f, bh, h, j, j + 1)
  {
  }

  /** Positions that stand alone need no sorting. */
  lemma SkipSingles(block: seq<byte>, f: seq<nat>, bh: seq<bool>, e: seq<nat>, h: nat, k: nat, l: nat)
    requires Halfway(block, f, bh, e, h, k) && k <= l <= |block| && AllSet(bh, k, l) && l < |bh| && bh[l]
    ensures Halfway(block, f, bh, e, h, l)
  {
    forall i, j | 0 <= i <= j < l
      ensures LexLe(Pre(block, f[i], 2 * h), Pre(block, f[j], 2 * h))
    {
      if i == j {
        LexReflexive(Pre(block, f[i], 2 * h));
      } else if j >= k {
        HeadersPart(block, f, bh, h, k, |block|, j);
        HeaderDeepens(block, f, bh, h, i, j);
      }
    }
    forall i | k <= i < l
      ensures bh[i] <==> i == 0 || !Tied(block, f, 2 * h, i - 1, i)
    {
      if i > 0 {
        HeadersPart(block, f, bh, h, k, |block|, i);
        HeaderDeepens(block, f, bh, h, i - 1, i);
      }
    }
  }

  // One bucket.

  lemma {:induction false} BucketTied(block: seq<byte>, f: seq<nat>, bh: seq<bool>, h: nat, l: nat, i: nat)
    requires l <= i < |f| && Headers(block, f, bh, h, l, i + 1) && AllClear(bh, l + 1, i + 1)
    ensures Tied(block, f, h, l, i)
  {
    if i > l {
      BucketTied(block, f, bh, h, l, i - 1);
      assert !bh[i];
    }
  }

  lemma RangeIsPerm(g: seq<nat>, n: nat)
    requires multiset(g) == multiset(Range(n))
    ensures IsPerm(g, n)
  {
    assert |multiset(g)| == |g| == n;
    forall i | 0 <= i < n
      ensures g[i] < n
    {
      assert g[i] in multiset(Range(n));
    }
    forall i, j | 0 <= i < j < n
      ensures g[i] != g[j]
    {
      if g[i] == g[j] {
        var r := Range(n);
        assert r[..n] == r;
        TwoOccurrences(g, i, j);
        PermCounts(r, n, n, g[i]);
      }
    }
  }

  lemma TwoOccurrences(g: seq<nat>, i: nat, j: nat)
    requires i < j < |g| && g[i] == g[j]
    ensures multiset(g)[g[i]] >= 2
  {
    assert g == g[..i] + [g[i]] + g[i + 1..j] + [g[j]] + g[j + 1..];
  }

  lemma PermSame(f: seq<nat>, g: seq<nat>, n: nat, lo: nat, hi: nat)
    requires IsPerm(f, n) && SamePart(f, g, lo, hi)
    ensures IsPerm(g, n)
  {
    PermIsRange(f, n);
    assert f == f[..lo] + f[lo..hi] + f[hi..];
    assert g == g[..lo] + g[lo..hi] + g[hi..];
    RangeIsPerm(g, n);
  }

  /** Sorting within a bucket does not move any h-character prefix. */
  lemma PrefixesStay(block: seq<byte>, f: seq<nat>, g: seq<nat>, bh: seq<bool>, h: nat, l: nat, r: nat, p: nat)
    requires IsPerm(f, |block|) && IsPerm(g, |block|) && l <= r < |block| && SamePart(f, g, l, r + 1)
    requires Headers(block, f, bh, h, l, r + 1) && AllClear(bh, l + 1, r + 1) && p < |block|
    ensures Pre(block, g[p], h) == Pre(block, f[p], h)
  {
    if l <= p <= r {
      var q := SamePartInside(f, g, l, r + 1, p);
      BucketTied(block, f, bh, h, l, p);
      BucketTied(block, f, bh, h, l, q);
    } else {
      SamePartOutside(f, g, l, r + 1);
    }
  }

  /** The new header bits: one where the rank changes inside the bucket, all others as they were. */
  ghost predicate Marked(g: seq<nat>, e: seq<nat>, bh: seq<bool>, bh': seq<bool>, l: nat, r: nat) {
    && |bh| == |bh'| && l <= r < |g| && r < |bh| && (forall i :: l <= i <= r ==> g[i] < |e|)
    && (forall i :: 0 <= i < |bh| && !(l < i <= r) ==> bh'[i] == bh[i])
    && (forall i :: l < i <= r ==> (bh'[i] <==> e[g[i - 1]] != e[g[i]]))
  }

  /** A bucket of a pass, as NextBucket found it. */
  ghost predicate Bucket(bh: seq<bool>, l: nat, r: nat) {
    l < r && r + 1 < |bh| && bh[l] && AllClear(bh, l + 1, r + 1) && bh[r + 1]
  }

  lemma HalfwayAt(block: seq<byte>, f: seq<nat>, bh: seq<bool>, e: seq<nat>, h: nat, k: nat)
    requires Halfway(block, f, bh, e, h, k) && k < |block|
    ensures |f| == |block| <= |e| && |block| <= |bh| && bh[k] && forall i :: 0 <= i < |f| ==> f[i] < |block|
    ensures SortedTo(block, f, h, 0, |f|) && SortedTo(block, f, 2 * h, 0, k) && Ranks(block, e, h)
    ensures Headers(block, f, bh, h, k, |f|) && Headers(block, f, bh, h, k, k + 1)
  {
  }

  /** Nothing before the bucket is tied with anything in it, to depth h or beyond. */
  lemma BeforeBucket(block: seq<byte>, f: seq<nat>, bh: seq<bool>, e: seq<nat>, h: nat, l: nat, r: nat, i: nat, j: nat)
    requires Halfway(block, f, bh, e, h, l) && Bucket(bh, l, r) && r < |block| && i < l <= j <= r
    requires |f| == |block| && f[i] < |block| && f[j] < |block|
    ensures Pre(block, f[i], h) != Pre(block, f[j], h) && LexLe(Pre(block, f[i], h), Pre(block, f[j], h))
  {
    hide *;
    HalfwayAt(block, f, bh, e, h, l);
    SortedPair(block, f, h, 0, |f|, i, j);
    HeaderSeparates(block, f, bh, h, i, l);
    InBucketTied(block, f, bh, h, l, r, j);
    UntiedDiffer(block, f, h, i, l);
    UntiedDiffer(block, f, h, l, j);
  }

  lemma InBucketTied(block: seq<byte>, f: seq<nat>, bh: seq<bool>, h: nat, l: nat, r: nat, i: nat)
    requires Headers(block, f, bh, h, l, |f|) && Bucket(bh, l, r) && l <= i <= r < |f|
    ensures Tied(block, f, h, l, i)
  {
    BucketTied(block, f, bh, h, l, i);
  }

  lemma BucketOrder(block: seq<byte>, f: seq<nat>, g: seq<nat>, bh: seq<bool>, e: seq<nat>, h: nat,
                    l: nat, r: nat, i: nat, j: nat)
    requires Halfway(block, f, bh, e, h, l) && Bucket(bh, l, r) && r < |block|
    requires SamePart(f, g, l, r + 1) && SortedBy(g, e, l, r + 1) && IsPerm(g, |block|)
    requires |f| == |block| == |g| && forall p :: 0 <= p < |block| ==> f[p] < |block| && g[p] < |block|
    requires forall p :: 0 <= p < |block| ==> Pre(block, g[p], h) == Pre(block, f[p], h)
    requires i <= j <= r && l < |block|
    ensures LexLe(Pre(block, g[i], 2 * h), Pre(block, g[j], 2 * h))
  {
    hide *;
    SamePartOutside(f, g, l, r + 1);
    HalfwayAt(block, f, bh, e, h, l);
    assert h + h == 2 * h;
    if j < l {
      SortedPair(block, f, 2 * h, 0, l, i, j);
    } else if i < l {
      BeforeBucket(block, f, bh, e, h, l, r, i, j);
      StrictDeepens(block, g[i], g[j], h, h);
    } else {
      InBucketTied(block, f, bh, h, l, r, i);
      InBucketTied(block, f, bh, h, l, r, j);
      UntiedDiffer(block, f, h, l, i);
      UntiedDiffer(block, f, h, l, j);
      RankDoubles(block, e, h, g[i], g[j]);
      SortedByPair(g, e, l, r + 1, i, j);
    }
  }

  lemma SortedByPair(g: seq<nat>, e: seq<nat>, lo: nat, hi: nat, i: nat, j: nat)
    requires SortedBy(g, e, lo, hi) && lo <= i <= j < hi
    ensures j < |g| && g[i] < |e| && g[j] < |e| && e[g[i]] <= e[g[j]]
  {
  }

  lemma BucketHeaders(block: seq<byte>, f: seq<nat>, g: seq<nat>, bh: seq<bool>, bh': seq<bool>, e: seq<nat>, h: nat,
                      l: nat, r: nat, i: nat)
    requires Halfway(block, f, bh, e, h, l) && Bucket(bh, l, r) && r < |block|
    requires SamePart(f, g, l, r + 1) && IsPerm(g, |block|) && Marked(g, e, bh, bh', l, r)
    requires forall p :: 0 <= p < |block| ==> Pre(block, g[p], h) == Pre(block, f[p], h)
    requires i < |block|
    ensures i <= r ==> (bh'[i] <==> i == 0 || !Tied(block, g, 2 * h, i - 1, i))
    ensures i > r ==> (bh'[i] <==> i == 0 || !Tied(block, g, h, i - 1, i))
  {
    SamePartOutside(f, g, l, r + 1);
    hide SamePart, LexLe, Pre, Ranks;
    if i == 0 {
    } else if i < l {
      assert g[i - 1] == f[i - 1] && g[i] == f[i];
    } else if i == l {
      BucketFront(block, f, g, bh, e, h, l, r);
    } else if i <= r {
      BucketInside(block, f, g, bh, bh', e, h, l, r, i);
    }
  }

  lemma BucketFront(block: seq<byte>, f: seq<nat>, g: seq<nat>, bh: seq<bool>, e: seq<nat>, h: nat, l: nat, r: nat)
    requires Halfway(block, f, bh, e, h, l) && Bucket(bh, l, r) && 0 < l <= r < |block| && IsPerm(g, |block|)
    requires g[l - 1] == f[l - 1] && forall p :: 0 <= p < |block| ==> Pre(block, g[p], h) == Pre(block, f[p], h)
    ensures !Tied(block, g, 2 * h, l - 1, l)
  {
    hide LexLe, Pre, Ranks;
    HeadersPart(block, f, bh, h, l, |block|, l);
    HeaderSeparates(block, f, bh, h, l - 1, l);
    assert Pre(block, g[l - 1], h) != Pre(block, g[l], h);
    StrictDeepens(block, g[l - 1], g[l], h, h);
  }

  lemma BucketInside(block: seq<byte>, f: seq<nat>, g: seq<nat>, bh: seq<bool>, bh': seq<bool>, e: seq<nat>, h: nat,
                     l: nat, r: nat, i: nat)
    requires Halfway(block, f, bh, e, h, l) && Bucket(bh, l, r) && l < i <= r < |block| && IsPerm(g, |block|)
    requires Marked(g, e, bh, bh', l, r)
    requires forall p :: 0 <= p < |block| ==> Pre(block, g[p], h) == Pre(block, f[p], h)
    ensures bh'[i] <==> !Tied(block, g, 2 * h, i - 1, i)
  {
    hide LexLe, Pre;
    BucketTied(block, f, bh, h, l, i - 1);
    BucketTied(block, f, bh, h, l, i);
    RankDoubles(block, e, h, g[i - 1], g[i]);
  }

  lemma BucketSorted(block: seq<byte>, f: seq<nat>, g: seq<nat>, bh: seq<bool>, e: seq<nat>, h: nat, l: nat, r: nat)
    requires Halfway(block, f, bh, e, h, l) && Bucket(bh, l, r) && r < |block|
    requires SamePart(f, g, l, r + 1) && SortedBy(g, e, l, r + 1) && IsPerm(g, |block|)
    requires forall p :: 0 <= p < |block| ==> Pre(block, g[p], h) == Pre(block, f[p], h)
    ensures SortedTo(block, g, 2 * h, 0, r + 1) && SortedTo(block, g, h, 0, |block|)
  {
    assert SortedTo(block, f, h, 0, |block|) && |g| == |block|;
    forall i, j | 0 <= i <= j < r + 1
      ensures LexLe(Pre(block, g[i], 2 * h), Pre(block, g[j], 2 * h))
    {
      BucketOrder(block, f, g, bh, e, h, l, r, i, j);
    }
    hide Halfway, SamePart, SortedBy, Pre;
    assert SortedTo(block, g, h, 0, |block|);
  }

  lemma BucketMarked(block: seq<byte>, f: seq<nat>, g: seq<nat>, bh: seq<bool>, bh': seq<bool>, e: seq<nat>, h: nat,
                     l: nat, r: nat)
    requires Halfway(block, f, bh, e, h, l) && Bucket(bh, l, r) && r < |block|
    requires SamePart(f, g, l, r + 1) && IsPerm(g, |block|) && Marked(g, e, bh, bh', l, r)
    requires forall p :: 0 <= p < |block| ==> Pre(block, g[p], h) == Pre(block, f[p], h)
    ensures Headers(block, g, bh', 2 * h, 0, r + 1) && Headers(block, g, bh', h, r + 1, |block|)
    ensures Sentinels(bh', |block|) && r + 1 < |bh'| && bh'[r + 1]
  {
    var n := |block|;
    forall i | 0 <= i < n
      ensures i <= r ==> (bh'[i] <==> i == 0 || !Tied(block, g, 2 * h, i - 1, i))
      ensures i > r ==> (bh'[i] <==> i == 0 || !Tied(block, g, h, i - 1, i))
    {
      BucketHeaders(block, f, g, bh, bh', e, h, l, r, i);
    }
    assert Sentinels(bh, n);
    assert forall i :: n <= i < |bh| ==> bh'[i] == bh[i];
    hide Halfway, SamePart, Pre, Marked, Tied;
  }

  /** Sorting one bucket and marking its headers advances the pass past it. */
  lemma BucketDone(block: seq<byte>, f: seq<nat>, g: seq<nat>, bh: seq<bool>, bh': seq<bool>, e: seq<nat>, h: nat,
                   l: nat, r: nat)
    requires Halfway(block, f, bh, e, h, l) && Bucket(bh, l, r) && r < |block|
    requires SamePart(f, g, l, r + 1) && SortedBy(g, e, l, r + 1) && Marked(g, e, bh, bh', l, r)
    ensures Halfway(block, g, bh', e, h, r + 1)
    ensures IsPerm(f, |block|) && IsPerm(g, |block|)
    ensures forall p :: 0 <= p < |block| ==> Pre(block, g[p], h) == Pre(block, f[p], h)
  {
    var n := |block|;
    PermSame(f, g, n, l, r + 1);
    forall p | 0 <= p < n
      ensures Pre(block, g[p], h) == Pre(block, f[p], h)
    {
      PrefixesStay(block, f, g, bh, h, l, r, p);
    }
    assert Ranks(block, e, h);
    hide Pre, Marked, SamePart, SortedBy, SortedTo, Headers, Sentinels, Ranks, Bucket;
    BucketSorted(block, f, g, bh, e, h, l, r);
    BucketMarked(block, f, g, bh, bh', e, h, l, r);
  }

  /** The header bits of a sorted bucket: one wherever the rank changes. */
  method MarkHeaders(fmap: array<nat>, eclass: array<nat>, bh: array<bool>, l: nat, r: nat)
    requires fmap as object != bh && eclass as object != bh && r < fmap.Length && r < bh.Length
    requires Bucket(bh[..], l, r) && forall i :: l <= i <= r ==> fmap[i] < eclass.Length
    modifies bh
    ensures Marked(fmap[..], eclass[..], old(bh[..]), bh[..], l, r)
  {
    var cc: int := -1;
    var i := l;
    ghost var b := bh[..];
    while i <= r
      invariant l <= i <= r + 1 && (cc == if i == l then -1 else eclass[fmap[i - 1]])
      invariant forall k :: 0 <= k < bh.Length && !(l < k < i) ==> bh[k] == b[k]
      invariant forall k :: l < k < i ==> (bh[k] <==> eclass[fmap[k - 1]] != eclass[fmap[k]])
    {
      var cc1 := eclass[fmap[i]];
      if cc != cc1 {
        bh[i] := true;
        cc := cc1;
      }
      i := i + 1;
    }
  }

  /** first holds the first character of every listed rotation. */
  ghost predicate FirstColumn(block: seq<byte>, f: seq<nat>, first: seq<byte>) {
    |first| == |block| <= |f| && forall p :: 0 <= p < |block| ==> f[p] < |block| && block[f[p]] == first[p]
  }

  lemma FirstStays(block: seq<byte>, f: seq<nat>, g: seq<nat>, first: seq<byte>, h: nat)
    requires FirstColumn(block, f, first) && h >= 1 && |block| <= |g|
    requires forall p :: 0 <= p < |block| ==> g[p] < |block| && Pre(block, g[p], h) == Pre(block, f[p], h)
    ensures FirstColumn(block, g, first)
  {
    forall p | 0 <= p < |block|
      ensures block[g[p]] == first[p]
    {
      assert Pre(block, g[p], h)[0] == Pre(block, f[p], h)[0];
    }
  }

  lemma HalfwayStart(block: seq<byte>, f: seq<nat>, bh: seq<bool>, e: seq<nat>, h: nat)
    requires block != [] && IsPerm(f, |block|) && SortedTo(block, f, h, 0, |block|)
    requires Headers(block, f, bh, h, 0, |block|) && Sentinels(bh, |block|) && Ranks(block, e, h)
    ensures Halfway(block, f, bh, e, h, 0)
  {
  }

  lemma HalfwayEnd(block: seq<byte>, f: seq<nat>, bh: seq<bool>, e: seq<nat>, h: nat)
    requires Halfway(block, f, bh, e, h, |block|)
    ensures IsPerm(f, |block|) && SortedTo(block, f, 2 * h, 0, |block|)
    ensures Headers(block, f, bh, 2 * h, 0, |block|) && Sentinels(bh, |block|)
  {
  }

  lemma HalfwayBits(block: seq<byte>, f: seq<nat>, bh: seq<bool>, e: seq<nat>, h: nat, k: nat)
    requires Halfway(block, f, bh, e, h, k)
    ensures |f| == |block| <= |e| && k <= |block| && |block| + 64 <= |bh| && Sentinels(bh, |block|) && bh[k]
    ensures bh[|block|] && forall i :: 0 <= i < |block| ==> f[i] < |block|
  {
    assert bh[|block| + 2 * 0];
  }

  lemma FoundBucket(bh: seq<bool>, k: nat, l: nat, r: nat)
    requires k <= l < r && r + 1 < |bh| && AllSet(bh, k, l + 1) && AllClear(bh, l + 1, r + 1) && bh[r + 1]
    ensures AllSet(bh, k, l) && Bucket(bh, l, r)
  {
  }

  lemma AllSetJoin(bh: seq<bool>, k: nat, n: nat)
    requires AllSet(bh, 0, k) && AllSet(bh, k, n)
    ensures AllSet(bh, 0, n)
  {
  }

  /** All buckets of a pass: the list goes from depth H to depth 2H. */
  method DoublingPass(fmap: array<nat>, eclass: array<nat>, bh: array<bool>, nblock: nat, ghost H: nat,
                      ghost block: seq<byte>, ghost first: seq<byte>)
    returns (nNotDone: nat)
    requires fmap != eclass && fmap as object != bh && eclass as object != bh
    requires nblock == |block| == fmap.Length && 1 <= nblock < 0x8000_0000 && nblock + 64 <= bh.Length
    requires IsPerm(fmap[..], nblock) && SortedTo(block, fmap[..], H, 0, nblock) && H >= 1
    requires Headers(block, fmap[..], bh[..], H, 0, nblock) && Sentinels(bh[..], nblock)
    requires Ranks(block, eclass[..], H) && FirstColumn(block, fmap[..], first)
    modifies fmap, bh
    ensures IsPerm(fmap[..], nblock) && SortedTo(block, fmap[..], 2 * H, 0, nblock)
    ensures Headers(block, fmap[..], bh[..], 2 * H, 0, nblock) && Sentinels(bh[..], nblock)
    ensures FirstColumn(block, fmap[..], first)
    ensures nNotDone == 0 ==> AllSet(bh[..], 0, nblock)
  {
    hide *;
    ghost var e := eclass[..];
    nNotDone := 0;
    var r: int := -1;
    HalfwayStart(block, fmap[..], bh[..], e, H);
    AllSetStart(bh[..]);
    while true
      invariant -1 <= r < nblock && Halfway(block, fmap[..], bh[..], e, H, r + 1)
      invariant FirstColumn(block, fmap[..], first)
      invariant nNotDone == 0 ==> AllSet(bh[..], 0, r + 1)
      decreases nblock - r
    {
      ghost var f, b := fmap[..], bh[..];
      HalfwayBits(block, f, b, e, H, r + 1);
      var found, l, r' := NextBucket(bh, nblock, r + 1);
      if !found {
        SkipSingles(block, f, b, e, H, r + 1, nblock);
        if nNotDone == 0 { AllSetJoin(b, r + 1, nblock); }
        break;
      }
      FoundBucket(b, r + 1, l, r');
      SkipSingles(block, f, b, e, H, r + 1, l);
      r := r';
      nNotDone := nNotDone + (r - l + 1);
      QSort3(fmap, eclass, l, r);
      ghost var g := fmap[..];
      SamePartBelow(f, g, l, r + 1, nblock);
      MarkHeaders(fmap, eclass, bh, l, r);
      BucketDone(block, f, g, b, bh[..], e, H, l, r);
      FirstStays(block, f, g, first, H);
    }
    HalfwayEnd(block, fmap[..], bh[..], e, H);
  }

  lemma AllSetStart(bh: seq<bool>)
    ensures AllSet(bh, 0, 0)
  {
  }

  lemma SamePartBelow(f: seq<nat>, g: seq<nat>, lo: nat, hi: nat, n: nat)
    requires SamePart(f, g, lo, hi) && hi <= |f| && forall i :: 0 <= i < |f| ==> f[i] < n
    ensures |f| == |g| && forall i :: 0 <= i < |f| ==> g[i] < n
  {
    SamePartOutside(f, g, lo, hi);
    forall i | 0 <= i < |f|
      ensures g[i] < n
    {
      if lo <= i < hi { var j := SamePartInside(f, g, lo, hi, i); }
    }
  }
}
