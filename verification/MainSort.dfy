/**
 mainSort (dep/bzip2/blocksort.c): big buckets are completed one after the other, each by sorting those of its small
 buckets that are not known yet, and each then gives the order of small buckets elsewhere.
 */
module MainSort {
  import opened Bits
  import opened CountingOrder
  import opened Rotations
  import opened RotationPrefixes
  import opened RotationOrder
  import opened FallbackSimpleSort
  import opened FallbackPass
  import opened SmallBuckets
  import opened MainCompare
  import opened MainSimpleSort
  import opened MainQSort
  import opened PointerScan
  import opened MainRadix

  // Small buckets and their marks.

  /** ftab[sb] & SETMASK, for tables whose entries are below 2^22. */
  predicate IsSet(v: nat) {
    v >= 0x20_0000
  }

  /** ftab[sb] & CLEARMASK. */
  function Cleared(v: nat): nat {
    if IsSet(v) then v - 0x20_0000 else v
  }

  /** ftab[sb] | SETMASK. */
  function Set(v: nat): nat {
    if IsSet(v) then v else v + 0x20_0000
  }

  /** The table of bucket starts, some of them marked. */
  ghost predicate Table(block: seq<byte>, ftab: seq<nat>) {
    |ftab| == 65537 && |block| < 0x20_0000 && forall c :: 0 <= c <= 65536 ==> Cleared(ftab[c]) == Start(block, c)
  }

  lemma TableAt(block: seq<byte>, ftab: seq<nat>, c: nat)
    requires Table(block, ftab) && c <= 65536
    ensures |ftab| == 65537 && Cleared(ftab[c]) == Start(block, c) <= |block| < 0x20_0000
  {
  }

  lemma TableSet(block: seq<byte>, ftab: seq<nat>, c: nat)
    requires Table(block, ftab) && c < 65536
    ensures |ftab| == 65537 && Table(block, ftab[c := Set(ftab[c])])
  {
    hide Start;
  }

  /** Marked small buckets are sorted. */
  ghost predicate MarkedSorted(block: seq<byte>, f: seq<nat>, ftab: seq<nat>) {
    |ftab| == 65537 && forall c :: 0 <= c < 65536 && IsSet(ftab[c]) ==> SortedBy(f, Order(block), Start(block, c), Start(block, c + 1))
  }

  lemma MarkedAt(block: seq<byte>, f: seq<nat>, ftab: seq<nat>, c: nat)
    requires MarkedSorted(block, f, ftab) && c < 65536
    ensures |ftab| == 65537 && (IsSet(ftab[c]) ==> SortedBy(f, Order(block), Start(block, c), Start(block, c + 1)))
  {
  }

  lemma MarkOne(block: seq<byte>, f: seq<nat>, ftab: seq<nat>, c: nat)
    requires MarkedSorted(block, f, ftab) && c < 65536 && SortedBy(f, Order(block), Start(block, c), Start(block, c + 1))
    ensures |ftab| == 65537 && MarkedSorted(block, f, ftab[c := Set(ftab[c])])
  {
    hide SortedBy, Start;
  }

  /** All small buckets of the finished big buckets are marked. */
  ghost predicate DoneMarked(ftab: seq<nat>, done: seq<bool>) {
    |ftab| == 65537 && |done| == 256 && forall b, j :: 0 <= b < 256 && done[b] && 0 <= j < 256 ==> IsSet(ftab[PairOf(b, j)])
  }

  /** Sorting one small bucket keeps all others. */
  lemma OneSorted(block: seq<byte>, f: seq<nat>, g: seq<nat>, ftab: seq<nat>, c: nat)
    requires InSmall(block, f) && MarkedSorted(block, f, ftab) && c < 65536
    requires SamePart(f, g, Start(block, c), Start(block, c + 1))
    requires SortedBy(g, Order(block), Start(block, c), Start(block, c + 1))
    ensures InSmall(block, g) && MarkedSorted(block, g, ftab)
  {
    hide *;
    StillSmall(block, f, g, c);
    StartMonotone(block, c, c + 1);
    MarkedAt(block, f, ftab, c);
    forall c' | 0 <= c' < 65536 && IsSet(ftab[c'])
      ensures SortedBy(g, Order(block), Start(block, c'), Start(block, c' + 1))
    {
      if c' < c { StartMonotone(block, c' + 1, c); }
      if c < c' { StartMonotone(block, c + 1, c'); }
      MarkedAt(block, f, ftab, c');
      if c' != c { OtherSorted(f, g, Order(block), Start(block, c), Start(block, c + 1), Start(block, c'), Start(block, c' + 1)); }
    }
    MarkedAll(block, g, ftab);
  }

  lemma OtherSorted(f: seq<nat>, g: seq<nat>, e: seq<nat>, lo: int, hi: int, a: int, b: int)
    requires SamePart(f, g, lo, hi) && SortedBy(f, e, a, b) && (b <= lo || hi <= a)
    ensures SortedBy(g, e, a, b)
  {
    SamePartOutside(f, g, lo, hi);
    SamePartLength(f, g, lo, hi);
    hide SamePart;
  }

  lemma MarkedAll(block: seq<byte>, f: seq<nat>, ftab: seq<nat>)
    requires |ftab| == 65537
    requires forall c :: 0 <= c < 65536 && IsSet(ftab[c]) ==> SortedBy(f, Order(block), Start(block, c), Start(block, c + 1))
    ensures MarkedSorted(block, f, ftab)
  {
  }

  lemma StillSmall(block: seq<byte>, f: seq<nat>, g: seq<nat>, c: nat)
    requires InSmall(block, f) && SamePart(f, g, Start(block, c), Start(block, c + 1))
    ensures InSmall(block, g)
  {
    PermSame(f, g, |block|, Start(block, c), Start(block, c + 1));
    SamePartOutside(f, g, Start(block, c), Start(block, c + 1));
    hide SamePart, Start, Pairs;
    forall p | 0 <= p < |block|
      ensures Start(block, Pairs(block)[g[p]]) <= p < Start(block, Pairs(block)[g[p]] + 1)
    {
      InSmallAt(block, f, p);
      if Start(block, c) <= p < Start(block, c + 1) {
        var q := SamePartInside(f, g, Start(block, c), Start(block, c + 1), p);
        InSmallAt(block, f, q);
        OneBucket(block, Pairs(block)[f[q]], c, q);
        OneBucket(block, Pairs(block)[f[q]], c + 1, q);
      }
    }
  }

  /** The members of a small bucket agree on two characters. */
  lemma SmallIsTied(block: seq<byte>, f: seq<nat>, c: nat)
    requires InSmall(block, f)
    ensures TiedSlice(block, f, 2, Start(block, c), Start(block, c + 1))
  {
    StartMonotone(block, c, c + 1);
    hide Start, Pre;
    forall p, q | Start(block, c) <= p < Start(block, c + 1) && Start(block, c) <= q < Start(block, c + 1)
      ensures Pre(block, f[p], 2) == Pre(block, f[q], 2)
    {
      MemberPrefix(block, f, c, p);
      MemberPrefix(block, f, c, q);
    }
  }

  lemma MemberPrefix(block: seq<byte>, f: seq<nat>, c: nat, p: int)
    requires InSmall(block, f) && Start(block, c) <= p < Start(block, c + 1)
    ensures 0 <= p < |f| && f[p] < |block| && Pairs(block)[f[p]] == c
    ensures c < 65536 && Pre(block, f[p], 2) == [c / 256, c % 256]
  {
    hide *;
    InSmallAt(block, f, p);
    OneBucket(block, Pairs(block)[f[p]], c, p);
    OneBucket(block, Pairs(block)[f[p]], c + 1, p);
    PrefixOf(block, f[p]);
    PairAt(block, f[p]);
    PairParts(block[f[p]], block[Next(|block|, f[p])]);
  }

  lemma PrefixOf(block: seq<byte>, x: nat)
    requires x < |block|
    ensures Pre(block, x, 2) == [block[x], block[Next(|block|, x)]]
  {
    PreNext(block, x, 1);
    PreNext(block, x, 0);
  }

  /** A range of sorted small buckets is sorted as a whole. */
  lemma JoinBuckets(block: seq<byte>, f: seq<nat>, a: nat, b: nat)
    requires InSmall(block, f) && a <= b <= 65536
    requires forall c :: a <= c < b ==> SortedBy(f, Order(block), Start(block, c), Start(block, c + 1))
    ensures SortedBy(f, Order(block), Start(block, a), Start(block, b))
  {
    StartMonotone(block, a, b);
    InSmallSize(block, f);
    hide Order, Start;
    forall p, q | Start(block, a) <= p <= q < Start(block, b)
      ensures Order(block)[f[p]] <= Order(block)[f[q]]
    {
      InSmallAt(block, f, p);
      InSmallAt(block, f, q);
      var c, d := Pairs(block)[f[p]], Pairs(block)[f[q]];
      OneBucket(block, c, a, p);
      OneBucket(block, c, b, p);
      OneBucket(block, d, c, q);
      if c == d {
        assert SortedBy(f, Order(block), Start(block, c), Start(block, c + 1));
      } else {
        PairsOrder(block, f[p], f[q]);
      }
    }
  }

  lemma PairsOrder(block: seq<byte>, x: nat, y: nat)
    requires x < |block| && y < |block| && Pairs(block)[x] < Pairs(block)[y]
    ensures Order(block)[x] <= Order(block)[y]
  {
    OrderNext(block, x, y);
    OrderNext(block, Next(|block|, x), Next(|block|, y));
  }

  /** No mark is lost. */
  ghost predicate Grown(t: seq<nat>, t': seq<nat>) {
    |t| == |t'| == 65537 && forall c :: 0 <= c <= 65536 && IsSet(t[c]) ==> IsSet(t'[c])
  }

  lemma GrownSet(t0: seq<nat>, t: seq<nat>, c: nat)
    requires Grown(t0, t) && c < 65536
    ensures Grown(t0, t[c := Set(t[c])]) && IsSet(t[c := Set(t[c])][c])
  {
  }

  lemma GrownSelf(t: seq<nat>)
    requires |t| == 65537
    ensures Grown(t, t)
  {
  }

  lemma GrownTransitive(t: seq<nat>, t': seq<nat>, u: seq<nat>)
    requires Grown(t, t') && Grown(t', u)
    ensures Grown(t, u)
  {
  }

  lemma GrownDone(t: seq<nat>, t': seq<nat>, done: seq<bool>)
    requires DoneMarked(t, done) && Grown(t, t')
    ensures DoneMarked(t', done)
  {
  }

  /** What holds between any two of the steps below. */
  ghost predicate MainState(block: seq<byte>, f: seq<nat>, ftab: seq<nat>) {
    InSmall(block, f) && Table(block, ftab) && MarkedSorted(block, f, ftab)
  }

  lemma StateIs(block: seq<byte>, f: seq<nat>, ftab: seq<nat>)
    ensures MainState(block, f, ftab) <==> InSmall(block, f) && Table(block, ftab) && MarkedSorted(block, f, ftab)
    ensures MainState(block, f, ftab) ==> |f| == |block| && |ftab| == 65537
  {
  }

  /** The small buckets [ss, j] with j < n and j != ss are marked. */
  ghost predicate RestMarked(t: seq<nat>, ss: nat, n: nat) {
    |t| == 65537 && ss < 256 && n <= 256 && forall j :: 0 <= j < n && j != ss ==> IsSet(t[PairOf(ss, j)])
  }

  ghost predicate AllMarked(t: seq<nat>, ss: nat) {
    |t| == 65537 && ss < 256 && forall j :: 0 <= j < 256 ==> IsSet(t[PairOf(ss, j)])
  }

  lemma RestMarkedNext(t: seq<nat>, t': seq<nat>, ss: nat, j: nat)
    requires RestMarked(t, ss, j) && Grown(t, t') && j < 256 && (j == ss || IsSet(t'[256 * ss + j]))
    ensures RestMarked(t', ss, j + 1)
  {
  }

  lemma NoneMarked(t: seq<nat>, ss: nat)
    requires |t| == 65537 && ss < 256
    ensures RestMarked(t, ss, 0)
  {
  }

  lemma AllMarkedFrom(t: seq<nat>, t': seq<nat>, ss: nat)
    requires RestMarked(t, ss, 256) && Grown(t, t') && IsSet(t'[256 * ss + ss])
    ensures AllMarked(t', ss)
  {
  }

  // Step 1.

  /** One small bucket is sorted, unless it is marked, and marked. */
  method SortSmall(ptr: array<nat>, ext: array<byte>, quadrant: array<nat>, ftab: array<nat>, nblock: nat, sb: nat,
                   budget0: int, ghost block: seq<byte>)
    returns (budget: int)
    requires ptr != quadrant && ptr != ftab && quadrant != ftab && ptr as object != ext && ftab as object != ext
    requires nblock == |block| == ptr.Length && sb < 65536 && Extended(block, ext[..]) && Quadrants(block, quadrant[..])
    requires MainState(block, ptr[..], ftab[..])
    modifies ptr, ftab
    ensures budget <= budget0
    ensures budget >= 0 ==> MainState(block, ptr[..], ftab[..])
    ensures ftab.Length == 65537 && (budget >= 0 ==> Grown(old(ftab[..]), ftab[..]) && IsSet(ftab[sb]))
  {
    hide *;
    ghost var f, t := ptr[..], ftab[..];
    StateIs(block, f, t);
    TableAt(block, t, sb);
    TableAt(block, t, sb + 1);
    StartMonotone(block, sb, sb + 1);
    budget := budget0;
    MarkedAt(block, f, t, sb);
    if !IsSet(ftab[sb]) {
      var lo, hi := Cleared(ftab[sb]), Cleared(ftab[sb + 1]) as int - 1;
      if hi > lo {
        SmallIsTied(block, f, sb);
        budget := MainQSort3(ptr, ext, quadrant, nblock, lo, hi, 2, budget, block);
        if budget < 0 { return; }
        OneSorted(block, f, ptr[..], t, sb);
      } else {
        InSmallSize(block, f);
        ShortIsSorted(f, Order(block), lo, hi + 1);
      }
    }
    MarkOne(block, ptr[..], t, sb);
    TableSet(block, t, sb);
    GrownSelf(t);
    GrownSet(t, t, sb);
    ftab[sb] := Set(ftab[sb]);
    assert ftab[..] == t[sb := Set(t[sb])];
    StateIs(block, ptr[..], ftab[..]);
  }

  /** Step 1: the small buckets [ss, j] with j != ss. */
  method SortRest(ptr: array<nat>, ext: array<byte>, quadrant: array<nat>, ftab: array<nat>, nblock: nat, ss: nat,
                  budget0: int, ghost block: seq<byte>)
    returns (budget: int)
    requires ptr != quadrant && ptr != ftab && quadrant != ftab && ptr as object != ext && ftab as object != ext
    requires nblock == |block| == ptr.Length && ss < 256 && Extended(block, ext[..]) && Quadrants(block, quadrant[..])
    requires MainState(block, ptr[..], ftab[..]) && budget0 >= 0
    modifies ptr, ftab
    ensures ftab.Length == 65537 && budget <= budget0
    ensures budget >= 0 ==> MainState(block, ptr[..], ftab[..]) && Grown(old(ftab[..]), ftab[..])
    ensures budget >= 0 ==> RestMarked(ftab[..], ss, 256)
  {
    hide *;
    ghost var t0 := ftab[..];
    budget := budget0;
    StateIs(block, ptr[..], t0);
    GrownSelf(t0);
    NoneMarked(t0, ss);
    var j := 0;
    while j <= 255
      invariant 0 <= j <= 256 && ftab.Length == 65537 && 0 <= budget <= budget0
      invariant MainState(block, ptr[..], ftab[..]) && Grown(t0, ftab[..])
      invariant RestMarked(ftab[..], ss, j)
    {
      ghost var t := ftab[..];
      GrownSelf(t);
      if j != ss {
        var sb := 256 * ss + j;
        budget := SortSmall(ptr, ext, quadrant, ftab, nblock, sb, budget, block);
        if budget < 0 { return; }
        GrownTransitive(t0, t, ftab[..]);
      }
      RestMarkedNext(t, ftab[..], ss, j);
      j := j + 1;
    }
  }

  lemma PairIs(a: nat, b: nat)
    ensures PairOf(a, b) == 256 * a + b
  {
  }

  // Step 2.

  /** copyStart and copyEnd, before anything is copied. */
  method CopyBounds(ftab: array<nat>, copyStart: array<int>, copyEnd: array<int>, ss: nat, ghost block: seq<byte>)
    requires ftab as object != copyStart && ftab as object != copyEnd && copyStart != copyEnd && ss < 256
    requires copyStart.Length == copyEnd.Length == 256 && Table(block, ftab[..])
    modifies copyStart, copyEnd
    ensures forall t :: 0 <= t < 256 ==> copyStart[t] == Lo(block, ss, t) && copyEnd[t] + 1 == Hi(block, ss, t)
  {
    hide *;
    ghost var tab := ftab[..];
    TableAt(block, tab, 0);
    var j := 0;
    while j <= 255
      modifies copyStart, copyEnd
      invariant 0 <= j <= 256
      invariant forall t :: 0 <= t < j ==> copyStart[t] == Lo(block, ss, t) && copyEnd[t] + 1 == Hi(block, ss, t)
    {
      PairIs(j, ss);
      PlacesAre(block, ss, j);
      TableAt(block, tab, PairOf(j, ss));
      TableAt(block, tab, PairOf(j, ss) + 1);
      copyStart[j] := Cleared(ftab[256 * j + ss]);
      copyEnd[j] := Cleared(ftab[256 * j + ss + 1]) as int - 1;
      j := j + 1;
    }
  }

  lemma StartPos(block: seq<byte>, ss: nat, copyStart: seq<int>, copyEnd: seq<int>) returns (s: Pos)
    requires ss < 256 && |copyStart| == |copyEnd| == 256
    requires forall t :: 0 <= t < 256 ==> copyStart[t] == Lo(block, ss, t) && copyEnd[t] + 1 == Hi(block, ss, t)
    ensures AtStart(block, ss, s) && ArraysHold(s, copyStart, copyEnd)
    ensures At(s, true) == Start(block, PairOf(ss, 0)) && At(s, false) == Start(block, PairOf(ss + 1, 0)) - 1
  {
    s := Pos(copyStart, copyEnd, BigLo(block, ss), BigHi(block, ss) - 1, seq(|block|, _ => 0), seq(|block|, _ => 0));
  }

  /** Before step 2 the big bucket is sorted on both sides of [ss, ss]. */
  lemma SidesSorted(block: seq<byte>, f: seq<nat>, ftab: seq<nat>, ss: nat)
    requires MainState(block, f, ftab) && RestMarked(ftab, ss, 256)
    ensures SortedBy(f, Order(block), BigLo(block, ss), Lo(block, ss, ss))
    ensures SortedBy(f, Order(block), Hi(block, ss, ss), BigHi(block, ss))
  {
    hide SortedBy, Order, Start, InSmall, Table;
    forall c | PairOf(ss, 0) <= c < PairOf(ss + 1, 0) && c != PairOf(ss, ss)
      ensures SortedBy(f, Order(block), Start(block, c), Start(block, c + 1))
    {
      assert c == PairOf(ss, c - 256 * ss);
      MarkedAt(block, f, ftab, c);
    }
    JoinBuckets(block, f, PairOf(ss, 0), PairOf(ss, ss));
    JoinBuckets(block, f, PairOf(ss, ss) + 1, PairOf(ss + 1, 0));
  }

  /** After step 2 all small buckets [t, ss] are sorted, and what was marked still is. */
  lemma AllCopied(block: seq<byte>, ss: nat, done: seq<bool>, f0: seq<nat>, f: seq<nat>, ftab: seq<nat>, c: nat)
    requires Synthesised(block, ss, done, f0, f) && MarkedSorted(block, f0, ftab) && DoneMarked(ftab, done) && ss < 256
    requires |done| == 256 && |ftab| == 65537 && c < 65536 && (IsSet(ftab[c]) || c % 256 == ss)
    ensures SortedBy(f, Order(block), Start(block, c), Start(block, c + 1))
  {
    hide *;
    PairBack(c);
    if c % 256 == ss && !done[c / 256] {
      CopiedBucket(block, ss, done, f0, f, c / 256);
      PlacesAre(block, ss, c / 256);
    } else {
      if c % 256 == ss { DoneAt(ftab, done, c / 256, ss); }
      MarkedAt(block, f0, ftab, c);
      SameBucket(block, ss, done, f0, f, c);
    }
  }

  lemma PairBack(c: nat)
    ensures PairOf(c / 256, c % 256) == c
  {
  }

  lemma DoneAt(ftab: seq<nat>, done: seq<bool>, b: nat, j: nat)
    requires DoneMarked(ftab, done) && b < 256 && j < 256 && done[b]
    ensures |ftab| == 65537 && PairOf(b, j) < 65536 && IsSet(ftab[PairOf(b, j)])
  {
  }

  lemma CopiedBucket(block: seq<byte>, ss: nat, done: seq<bool>, f0: seq<nat>, f: seq<nat>, t: nat)
    requires Synthesised(block, ss, done, f0, f) && t < 256 && !done[t]
    ensures SortedBy(f, Order(block), Lo(block, ss, t), Hi(block, ss, t))
  {
  }

  lemma SameBucket(block: seq<byte>, ss: nat, done: seq<bool>, f0: seq<nat>, f: seq<nat>, c: nat)
    requires Synthesised(block, ss, done, f0, f) && c < 65536 && (c % 256 != ss || done[c / 256])
    requires SortedBy(f0, Order(block), Start(block, c), Start(block, c + 1))
    ensures SortedBy(f, Order(block), Start(block, c), Start(block, c + 1))
  {
    InSmallSize(block, f0);
    InSmallSize(block, f);
    hide Order, Start, InSmall, Pairs;
    forall p | Start(block, c) <= p < Start(block, c + 1)
      ensures f[p] == f0[p]
    {
      MemberPrefix(block, f0, c, p);
    }
  }

  lemma SynthesisedIs(block: seq<byte>, ss: nat, done: seq<bool>, f0: seq<nat>, f: seq<nat>)
    requires Synthesised(block, ss, done, f0, f)
    ensures InSmall(block, f) && |f| == |block|
  {
  }

  /** Step 2: the small buckets [t, ss] are copied together and marked. */
  method CopyBuckets(ptr: array<nat>, ext: array<byte>, ftab: array<nat>, bigDone: array<bool>,
                     copyStart: array<int>, copyEnd: array<int>, nblock: nat, ss: nat, ghost block: seq<byte>)
    requires ptr != ftab && ptr as object != ext && ptr as object != bigDone && ftab as object != ext && ftab as object != bigDone
    requires ptr as object != copyStart && ptr as object != copyEnd && copyStart != copyEnd
    requires copyStart as object != bigDone && copyEnd as object != bigDone
    requires ftab as object != copyStart && ftab as object != copyEnd && copyStart.Length == copyEnd.Length == 256
    requires nblock == |block| <= ext.Length && ext[..nblock] == block && ss < 256 && bigDone.Length == 256
    requires MainState(block, ptr[..], ftab[..]) && DoneMarked(ftab[..], bigDone[..])
    requires ftab.Length == 65537 && !bigDone[ss] && RestMarked(ftab[..], ss, 256)
    modifies ptr, ftab, copyStart, copyEnd
    ensures MainState(block, ptr[..], ftab[..]) && Grown(old(ftab[..]), ftab[..])
    ensures AllMarked(ftab[..], ss)
  {
    hide *;
    ghost var f0, tab, done := ptr[..], ftab[..], bigDone[..];
    StateIs(block, f0, tab);
    CopyBounds(ftab, copyStart, copyEnd, ss, block);
    ghost var s := StartPos(block, ss, copyStart[..], copyEnd[..]);
    SidesSorted(block, f0, tab, ss);
    ScanStart(block, ss, done, f0, s);
    PairIs(ss, 0);
    PairIs(ss + 1, 0);
    TableAt(block, tab, 256 * ss);
    TableAt(block, tab, 256 * (ss + 1));
    Synthesise(ptr, ext, bigDone, copyStart, copyEnd, nblock, ss, Cleared(ftab[256 * ss]), Cleared(ftab[256 * (ss + 1)]) as int - 1,
               block, s);
    assert copyStart[ss] - 1 == copyEnd[ss] || (copyStart[ss] == 0 && copyEnd[ss] == nblock - 1);  // AssertH 1007
    ghost var g := ptr[..];
    SynthesisedIs(block, ss, done, f0, g);
    forall c: nat | c < 65536 && (IsSet(tab[c]) || c % 256 == ss)
      ensures SortedBy(g, Order(block), Start(block, c), Start(block, c + 1))
    {
      AllCopied(block, ss, done, f0, g, tab, c);
    }
    MarkedAll(block, g, tab);
    GrownSelf(tab);
    var j := 0;
    while j <= 255
      modifies ftab
      invariant 0 <= j <= 256 && ptr[..] == g
      invariant Grown(tab, ftab[..]) && Table(block, ftab[..]) && MarkedSorted(block, g, ftab[..])
      invariant j > ss ==> IsSet(ftab[256 * ss + ss])
    {
      ghost var t := ftab[..];
      var sb := 256 * j + ss;
      assert sb < 65536 && sb % 256 == ss;
      MarkOne(block, g, t, sb);
      TableSet(block, t, sb);
      GrownSet(tab, t, sb);
      SetMore(t, sb);
      ftab[sb] := Set(ftab[sb]);
      assert ftab[..] == t[sb := Set(t[sb])];
      j := j + 1;
    }
    StateIs(block, ptr[..], ftab[..]);
    AllMarkedFrom(tab, ftab[..], ss);
  }

  lemma SetMore(t: seq<nat>, c: nat)
    requires c < |t|
    ensures IsSet(Set(t[c])) && forall k :: 0 <= k < |t| && IsSet(t[k]) ==> IsSet(t[c := Set(t[c])][k])
  {
  }

  // Step 3.

  lemma BigMember(block: seq<byte>, f: seq<nat>, ss: nat, p: int)
    requires InSmall(block, f) && ss < 256 && BigLo(block, ss) <= p < BigHi(block, ss)
    ensures 0 <= p < |f| == |block| && f[p] < |block| && block[f[p]] == ss
  {
    BucketPlaces(block, ss, ss);
    InSmallAt(block, f, p);
    OneBucket(block, Pairs(block)[f[p]], PairOf(ss, 0), p);
    OneBucket(block, Pairs(block)[f[p]], PairOf(ss + 1, 0), p);
  }

  lemma PlaceInBig(block: seq<byte>, f: seq<nat>, ss: nat, x: nat) returns (p: int)
    requires InSmall(block, f) && ss < 256 && x < |block| && block[x] == ss
    ensures BigLo(block, ss) <= p < BigHi(block, ss) && p < |f| && f[p] == x
  {
    p := PermHas(f, |block|, x);
    InSmallAt(block, f, p);
    StartMonotone(block, PairOf(ss, 0), Pairs(block)[x]);
    StartMonotone(block, Pairs(block)[x] + 1, PairOf(ss + 1, 0));
  }

  lemma {:induction false} ShiftMonotone(a: nat, b: nat, n: nat)
    requires a <= b
    ensures Shr(a, n) <= Shr(b, n)
    decreases n
  {
    if n > 0 { ShiftMonotone(a / 2, b / 2, n - 1); }
  }

  lemma {:induction false} ShiftHalves(v: nat, n: nat)
    ensures Shr(v, n + 1) == Shr(v, n) / 2
    decreases n
  {
    if n > 0 { ShiftHalves(v / 2, n - 1); }
  }

  /** The quadrants of the big bucket, from place j on, are the shifted places. */
  ghost predicate Updated(block: seq<byte>, f: seq<nat>, q0: seq<nat>, q: seq<nat>, ss: nat, n: nat, j: int) {
    && 0 <= j && |f| == |block| && |q| == |q0| && |block| + 34 <= |q| && BigHi(block, ss) <= |block| && 34 < |block|
    && (forall k :: 0 <= k < |f| ==> f[k] < |block|)
    && (forall k :: BigLo(block, ss) + j <= k < BigHi(block, ss) && 0 <= k ==> q[f[k]] == Shr(k - BigLo(block, ss), n))
    && (forall x :: 0 <= x < |block| && block[x] != ss ==> q[x] == q0[x])
    && forall i :: |block| <= i < |block| + 34 ==> q[i] == q[i - |block|]
  }

  lemma UpdateOne(block: seq<byte>, f: seq<nat>, q0: seq<nat>, q: seq<nat>, ss: nat, n: nat, j: nat)
    requires Updated(block, f, q0, q, ss, n, j + 1) && InSmall(block, f) && ss < 256 && BigLo(block, ss) + j < BigHi(block, ss)
    ensures 34 < |block| && BigLo(block, ss) + j < |f| && f[BigLo(block, ss) + j] < |block| && |block| + 34 <= |q|
    ensures var x := f[BigLo(block, ss) + j];
            var q' := q[x := Shr(j, n)];
            Updated(block, f, q0, if x < 34 then q'[x + |block| := Shr(j, n)] else q', ss, n, j)
  {
    hide InSmall, Shr, BigLo, BigHi;
    var b := BigLo(block, ss);
    BigMember(block, f, ss, b + j);
    SmallIsPerm(block, f);
    forall k | b + j < k < BigHi(block, ss)
      ensures f[k] != f[b + j]
    {
      PermApart(f, |block|, b + j, k);
    }
  }

  lemma SmallIsPerm(block: seq<byte>, f: seq<nat>)
    requires InSmall(block, f)
    ensures IsPerm(f, |block|)
  {
  }

  lemma UpdateEnd(block: seq<byte>, f: seq<nat>, q0: seq<nat>, q: seq<nat>, ss: nat, n: nat)
    requires Updated(block, f, q0, q, ss, n, 0) && InSmall(block, f) && ss < 256 && Quadrants(block, q0)
    requires SortedBy(f, Order(block), BigLo(block, ss), BigHi(block, ss))
    ensures Quadrants(block, q) && forall x :: 0 <= x < |block| && block[x] != ss ==> q[x] == q0[x]
  {
    hide Order, InSmall, BigLo, BigHi, Shr;
    forall x, y | 0 <= x < |block| && 0 <= y < |block| && block[x] == block[y] && q[x] < q[y]
      ensures Order(block)[x] <= Order(block)[y]
    {
      if block[x] == ss {
        var a := PlaceInBig(block, f, ss, x);
        var b := PlaceInBig(block, f, ss, y);
        if b <= a { ShiftMonotone(b - BigLo(block, ss), a - BigLo(block, ss), n); }
      }
    }
  }

  lemma UpdatedPlaces(block: seq<byte>, f: seq<nat>, q0: seq<nat>, q: seq<nat>, ss: nat, n: nat)
    requires Updated(block, f, q0, q, ss, n, 0)
    ensures forall k :: 0 <= k && BigLo(block, ss) <= k < BigHi(block, ss) ==>
              k < |f| && f[k] < |block| <= |q| && q[f[k]] == Shr(k - BigLo(block, ss), n)
  {
    hide BigLo, BigHi, Shr;
  }

  lemma UpdateStart(block: seq<byte>, f: seq<nat>, q: seq<nat>, ss: nat, n: nat, size: int)
    requires Quadrants(block, q) && InSmall(block, f) && ss < 256 && BigLo(block, ss) + size == BigHi(block, ss)
    ensures Updated(block, f, q, q, ss, n, size)
  {
    BucketPlaces(block, ss, ss);
    InSmallSize(block, f);
  }

  /** By how much the places have to be shifted. */
  method Shifts(bbSize: nat) returns (shifts: nat)
    ensures Shr(bbSize, shifts) <= 65534
  {
    shifts := 0;
    while Shr(bbSize, shifts) > 65534
      decreases Shr(bbSize, shifts)
    {
      ShiftHalves(bbSize, shifts);
      shifts := shifts + 1;
    }
  }

  /** The quadrants of a finished big bucket: its places, shifted so that they fit 16 bits. */
  method UpdateQuadrants(ptr: array<nat>, quadrant: array<nat>, nblock: nat, ss: nat, bbStart: nat, bbSize: nat, ghost block: seq<byte>)
    requires ptr != quadrant && nblock == |block| && ss < 256 && InSmall(block, ptr[..]) && Quadrants(block, quadrant[..])
    requires bbStart == BigLo(block, ss) && bbStart + bbSize == BigHi(block, ss)
    requires SortedBy(ptr[..], Order(block), BigLo(block, ss), BigHi(block, ss))
    modifies quadrant
    ensures Quadrants(block, quadrant[..]) && nblock <= quadrant.Length
    ensures forall x :: 0 <= x < nblock && block[x] != ss ==> quadrant[x] == old(quadrant[x])
    ensures forall k :: bbStart <= k < bbStart + bbSize ==> ptr[k] < nblock && quadrant[ptr[k]] <= 65535  // AssertH 1002
  {
    hide *;
    QuadrantsSize(block, quadrant[..]);
    ghost var f, q0 := ptr[..], quadrant[..];
    var shifts := Shifts(bbSize);
    UpdateStart(block, f, q0, ss, shifts, bbSize);
    var j := bbSize as int - 1;
    while j >= 0
      invariant -1 <= j < bbSize && Updated(block, f, q0, quadrant[..], ss, shifts, j + 1)
    {
      UpdateOne(block, f, q0, quadrant[..], ss, shifts, j);
      ghost var q: seq<nat> := quadrant[..];
      var a2update := ptr[bbStart + j];
      var qVal: nat := Shr(j, shifts);
      quadrant[a2update] := qVal;
      assert quadrant[..] == q[a2update := qVal];
      if a2update < 34 {
        quadrant[a2update + nblock] := qVal;
        assert quadrant[..] == q[a2update := qVal][a2update + nblock := qVal];
      }
      j := j - 1;
    }
    UpdateEnd(block, f, q0, quadrant[..], ss, shifts);
    UpdatedPlaces(block, f, q0, quadrant[..], ss, shifts);
    forall k | bbStart <= k < bbStart + bbSize
      ensures ptr[k] < nblock && quadrant[ptr[k]] <= 65535
    {
      ShiftMonotone(k - bbStart, bbSize, shifts);
      assert ptr[k] == f[k];
    }
  }

  // The main loop.

  /** Positions whose big bucket is not finished have quadrant 0. */
  ghost predicate ZeroElsewhere(block: seq<byte>, quadrant: seq<nat>, done: seq<bool>) {
    |done| == 256 && |block| <= |quadrant| && forall x :: 0 <= x < |block| && !done[block[x]] ==> quadrant[x] == 0
  }

  lemma ZeroNext(block: seq<byte>, q: seq<nat>, q': seq<nat>, done: seq<bool>, ss: nat)
    requires ZeroElsewhere(block, q, done) && ss < 256 && |block| <= |q'|
    requires forall x :: 0 <= x < |block| && block[x] != ss ==> q'[x] == q[x]
    ensures ZeroElsewhere(block, q', done[ss := true])
  {
  }

  lemma DoneNext(t: seq<nat>, t': seq<nat>, done: seq<bool>, ss: nat)
    requires DoneMarked(t, done) && Grown(t, t') && AllMarked(t', ss)
    ensures |done| == 256 && ss < 256 && DoneMarked(t', done[ss := true])
  {
  }

  /** The big bucket is sorted as a whole when its small buckets are. */
  lemma BigSorted(block: seq<byte>, f: seq<nat>, ftab: seq<nat>, ss: nat)
    requires MainState(block, f, ftab) && AllMarked(ftab, ss)
    ensures SortedBy(f, Order(block), BigLo(block, ss), BigHi(block, ss))
  {
    hide SortedBy, Order, Start, InSmall, Table;
    forall c | PairOf(ss, 0) <= c < PairOf(ss + 1, 0)
      ensures SortedBy(f, Order(block), Start(block, c), Start(block, c + 1))
    {
      assert c == PairOf(ss, c - 256 * ss);
      MarkedAt(block, f, ftab, c);
    }
    JoinBuckets(block, f, PairOf(ss, 0), PairOf(ss + 1, 0));
  }

  lemma BigPlaces(block: seq<byte>, ss: nat)
    requires ss < 256
    ensures BigLo(block, ss) == Start(block, 256 * ss) && BigHi(block, ss) == Start(block, 256 * (ss + 1))
    ensures BigLo(block, ss) <= BigHi(block, ss)
  {
    BucketPlaces(block, ss, ss);
  }

  /** One turn of the main loop. */
  method CompleteBucket(ptr: array<nat>, ext: array<byte>, quadrant: array<nat>, ftab: array<nat>, bigDone: array<bool>,
                        copyStart: array<int>, copyEnd: array<int>, nblock: nat, ss: nat, last: bool, budget0: int,
                        ghost block: seq<byte>)
    returns (budget: int)
    requires ptr != quadrant && ptr != ftab && quadrant != ftab && ptr as object != ext && ftab as object != ext
    requires quadrant as object != ext && ptr as object != bigDone && ftab as object != bigDone && quadrant as object != bigDone
    requires ptr as object != copyStart && ptr as object != copyEnd && copyStart != copyEnd
    requires quadrant as object != copyStart && quadrant as object != copyEnd && ext as object != bigDone
    requires copyStart as object != bigDone && copyEnd as object != bigDone && ext as object != copyStart && ext as object != copyEnd
    requires ftab as object != copyStart && ftab as object != copyEnd && copyStart.Length == copyEnd.Length == 256
    requires nblock == |block| == ptr.Length && nblock <= ext.Length && ext[..nblock] == block && Extended(block, ext[..])
    requires ss < 256 && bigDone.Length == 256 && !bigDone[ss] && budget0 >= 0 && ftab.Length == 65537
    requires MainState(block, ptr[..], ftab[..]) && DoneMarked(ftab[..], bigDone[..])
    requires Quadrants(block, quadrant[..]) && ZeroElsewhere(block, quadrant[..], bigDone[..])
    modifies ptr, quadrant, ftab, bigDone, copyStart, copyEnd
    ensures budget <= budget0
    ensures budget >= 0 ==> bigDone[..] == old(bigDone[..])[ss := true]
    ensures budget >= 0 ==> MainState(block, ptr[..], ftab[..]) && DoneMarked(ftab[..], bigDone[..])
    ensures budget >= 0 ==> Quadrants(block, quadrant[..]) && (last || ZeroElsewhere(block, quadrant[..], bigDone[..]))
  {
    hide *;
    ghost var t0, q0, done := ftab[..], quadrant[..], bigDone[..];
    budget := SortRest(ptr, ext, quadrant, ftab, nblock, ss, budget0, block);
    if budget < 0 { return; }
    assert !bigDone[ss];  // AssertH 1006
    ghost var t1 := ftab[..];
    GrownDone(t0, t1, done);
    CopyBuckets(ptr, ext, ftab, bigDone, copyStart, copyEnd, nblock, ss, block);
    DoneNext(t1, ftab[..], done, ss);
    bigDone[ss] := true;
    assert bigDone[..] == done[ss := true];
    if !last {
      StateIs(block, ptr[..], ftab[..]);
      BigPlaces(block, ss);
      TableAt(block, ftab[..], 256 * ss);
      TableAt(block, ftab[..], 256 * (ss + 1));
      BigSorted(block, ptr[..], ftab[..], ss);
      var bbStart := Cleared(ftab[256 * ss]);
      var bbSize := Cleared(ftab[256 * (ss + 1)]) as int - bbStart;
      UpdateQuadrants(ptr, quadrant, nblock, ss, bbStart, bbSize, block);
      ZeroNext(block, q0, quadrant[..], done, ss);
    }
  }

  /** The finished big buckets are those at the front of the running order. */
  ghost predicate FrontDone(order: seq<nat>, done: seq<bool>, i: nat) {
    && |order| == |done| == 256 && i <= 256 && IsPerm(order, 256)
    && forall k :: 0 <= k < 256 ==> (done[order[k]] <==> k < i)
  }

  lemma FrontNext(order: seq<nat>, done: seq<bool>, i: nat)
    requires FrontDone(order, done, i) && i < 256
    ensures order[i] < 256 && !done[order[i]] && FrontDone(order, done[order[i] := true], i + 1)
  {
  }

  lemma FrontStart(order: seq<nat>, done: seq<bool>)
    requires IsPerm(order, 256) && |done| == 256 && forall b :: 0 <= b < 256 ==> !done[b]
    ensures FrontDone(order, done, 0)
  {
  }

  /** In the end everything is sorted. */
  lemma AllDone(block: seq<byte>, f: seq<nat>, ftab: seq<nat>, order: seq<nat>, done: seq<bool>)
    requires MainState(block, f, ftab) && DoneMarked(ftab, done) && FrontDone(order, done, 256)
    ensures IsOrder(block, f)
  {
    StateIs(block, f, ftab);
    forall c | 0 <= c < 65536
      ensures SortedBy(f, Order(block), Start(block, c), Start(block, c + 1))
    {
      var k := PermHas(order, 256, c / 256);
      PairBack(c);
      DoneAt(ftab, done, c / 256, c % 256);
      MarkedAt(block, f, ftab, c);
    }
    JoinBuckets(block, f, 0, 65536);
    LastStart(block);
    FirstStart(block);
    SmallIsPerm(block, f);
    hide InSmall, Order, Start, MainState, Table, MarkedSorted;
    SortedIsOrder(block, f);
  }

  lemma FirstStart(block: seq<byte>)
    ensures Start(block, 0) == 0
  {
    NoneBelow(Pairs(block), 0);
  }

  lemma MainStart(block: seq<byte>, f: seq<nat>, ftab: seq<nat>, quadrant: seq<nat>, done: seq<bool>)
    requires InSmall(block, f) && |ftab| == 65537 && (forall c :: 0 <= c <= 65536 ==> ftab[c] == Start(block, c))
    requires 34 < |block| < 0x20_0000 && |block| + 34 <= |quadrant| && forall x :: 0 <= x < |block| + 34 ==> quadrant[x] == 0
    requires |done| == 256 && forall b :: 0 <= b < 256 ==> !done[b]
    ensures MainState(block, f, ftab) && DoneMarked(ftab, done) && Quadrants(block, quadrant) && ZeroElsewhere(block, quadrant, done)
  {
    hide Start, Order, InSmall;
  }

  /**
   mainSort. Unless the budget runs out, ptr ends up listing the rotations of the block in order. The block itself is not
   changed; what is behind it is.
   */
  method MainSort(ptr: array<nat>, ext: array<byte>, quadrant: array<nat>, ftab: array<nat>, nblock: nat, budget0: int,
                  ghost block: seq<byte>)
    returns (budget: int)
    requires ptr != quadrant && ptr != ftab && quadrant != ftab && ptr as object != ext && ftab as object != ext
    requires quadrant as object != ext && ftab.Length == 65537 && budget0 >= 0
    requires 34 < nblock == |block| == ptr.Length && nblock < 0x20_0000
    requires nblock + 34 <= ext.Length && nblock + 34 <= quadrant.Length && ext[..nblock] == block
    modifies ptr, ext, quadrant, ftab
    ensures nblock <= ext.Length && ext[..nblock] == block && (budget >= 0 ==> IsOrder(block, ptr[..]))
  {
    hide *;
    CountPairs(ftab, quadrant, ext, nblock, block);
    Overshoot(quadrant, ext, nblock, block);
    RadixSort(ptr, ftab, ext, nblock, block);
    var order;
    ghost var freqs;
    order, freqs := RunningOrder(ftab, block);
    var bigDone := new bool[256](_ => false);
    var copyStart, copyEnd := new int[256], new int[256];
    MainStart(block, ptr[..], ftab[..], quadrant[..], bigDone[..]);
    FrontStart(order[..], bigDone[..]);
    budget := budget0;
    var i := 0;
    while i <= 255
      modifies ptr, quadrant, ftab, bigDone, copyStart, copyEnd
      invariant 0 <= i <= 256 && 0 <= budget <= budget0 && FrontDone(order[..], bigDone[..], i)
      invariant ext[..nblock] == block && Extended(block, ext[..])
      invariant MainState(block, ptr[..], ftab[..]) && DoneMarked(ftab[..], bigDone[..])
      invariant Quadrants(block, quadrant[..]) && (i == 256 || ZeroElsewhere(block, quadrant[..], bigDone[..]))
    {
      FrontNext(order[..], bigDone[..], i);
      var ss := order[i];
      budget := CompleteBucket(ptr, ext, quadrant, ftab, bigDone, copyStart, copyEnd, nblock, ss, i == 255, budget, block);
      if budget < 0 { return; }
      i := i + 1;
    }
    AllDone(block, ptr[..], ftab[..], order[..], bigDone[..]);
  }
}
