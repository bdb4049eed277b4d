/**
 Step 2 of mainSort (dep/bzip2/blocksort.c): the sorted order of all small buckets [t, ss] is copied together by
 scanning the big bucket [ss], from the left and from the right, while [ss, ss] is itself still being filled.
 */
module PointerScan {
  import opened Bits
  import opened CountingOrder
  import opened Rotations
  import opened RotationOrder
  import opened FallbackSimpleSort
  import opened FallbackPass
  import opened SmallBuckets

  /** The first place of small bucket [t, ss], and the place behind its last. */
  ghost function Lo(block: seq<byte>, ss: nat, t: nat): nat {
    Start(block, PairOf(t, ss))
  }

  ghost function Hi(block: seq<byte>, ss: nat, t: nat): nat {
    Start(block, PairOf(t, ss) + 1)
  }

  /** The first place of big bucket [ss], and the place behind its last. */
  ghost function BigLo(block: seq<byte>, ss: nat): nat {
    Start(block, PairOf(ss, 0))
  }

  ghost function BigHi(block: seq<byte>, ss: nat): nat {
    Start(block, PairOf(ss + 1, 0))
  }

  lemma BucketPlaces(block: seq<byte>, ss: nat, t: nat)
    requires ss < 256
    ensures Lo(block, ss, t) <= Hi(block, ss, t) <= |block| && BigLo(block, ss) <= BigHi(block, ss) <= |block|
    ensures t < ss ==> Hi(block, ss, t) <= BigLo(block, ss)
    ensures t > ss ==> BigHi(block, ss) <= Lo(block, ss, t)
    ensures t == ss ==> BigLo(block, ss) <= Lo(block, ss, t) && Hi(block, ss, t) <= BigHi(block, ss)
  {
    StartMonotone(block, PairOf(t, ss), PairOf(t, ss) + 1);
    StartMonotone(block, PairOf(ss, 0), PairOf(ss + 1, 0));
    if t < ss {
      StartMonotone(block, PairOf(t, ss) + 1, PairOf(ss, 0));
    } else if t > ss {
      StartMonotone(block, PairOf(ss + 1, 0), PairOf(t, ss));
    } else {
      StartMonotone(block, PairOf(ss, 0), PairOf(ss, ss));
      StartMonotone(block, PairOf(ss, ss) + 1, PairOf(ss + 1, 0));
    }
  }

  lemma BucketsApart(block: seq<byte>, ss: nat, t: nat, t': nat)
    requires ss < 256 && t < t'
    ensures Hi(block, ss, t) <= Lo(block, ss, t')
  {
    StartMonotone(block, PairOf(t, ss) + 1, PairOf(t', ss));
  }

  /**
   The state of both scans. cs and ce are copyStart and copyEnd, jl and jr the next places to be scanned; src says for
   a place that has been copied to which place was being scanned then, dst says for a scanned place where its copy went.
   */
  datatype Pos = Pos(cs: seq<int>, ce: seq<int>, jl: int, jr: int, src: seq<int>, dst: seq<int>)

  ghost predicate Scanned(block: seq<byte>, ss: nat, s: Pos, q: int) {
    BigLo(block, ss) <= q < s.jl || s.jr < q < BigHi(block, ss)
  }

  /** What there is to scan so far. */
  ghost predicate Ready(block: seq<byte>, ss: nat, s: Pos, q: int) {
    && ss < |s.cs| && ss < |s.ce|
    && (BigLo(block, ss) <= q < s.cs[ss] || s.ce[ss] < q < BigHi(block, ss))
  }

  /** A place of [t, ss] that has been copied to. */
  ghost predicate Copied(block: seq<byte>, ss: nat, s: Pos, t: nat, p: int) {
    && t < |s.cs| && t < |s.ce|
    && (Lo(block, ss, t) <= p < s.cs[t] || s.ce[t] < p < Hi(block, ss, t))
  }

  ghost predicate Room(block: seq<byte>, ss: nat, done: seq<bool>, s: Pos, t: nat) {
    && t < |s.cs| && t < |s.ce| && t < |done|
    && Lo(block, ss, t) <= s.cs[t] <= s.ce[t] + 1 <= Hi(block, ss, t)
    && (done[t] ==> s.cs[t] == Lo(block, ss, t) && s.ce[t] + 1 == Hi(block, ss, t))
  }

  ghost predicate Bounds(block: seq<byte>, ss: nat, done: seq<bool>, s: Pos) {
    && ss < 256 && |done| == |s.cs| == |s.ce| == 256 && |s.src| == |s.dst| == |block| && !done[ss]
    && (forall t :: 0 <= t < 256 ==> Room(block, ss, done, s, t))
    && BigLo(block, ss) <= s.jl <= s.cs[ss] && s.ce[ss] <= s.jr < BigHi(block, ss)
  }

  /** Place p is as before. */
  ghost predicate AsBefore(block: seq<byte>, ss: nat, f0: seq<nat>, f: seq<nat>, s: Pos, p: int) {
    && |f| == |f0| == |block| && |s.cs| == |s.ce| == 256 && 0 <= p < |f| && f0[p] < |block|
    && var c := Pairs(block)[f0[p]];
       (c % 256 != ss || s.cs[c / 256] <= p <= s.ce[c / 256] ==> f[p] == f0[p])
  }

  ghost predicate Untouched(block: seq<byte>, ss: nat, f0: seq<nat>, f: seq<nat>, s: Pos) {
    && |f| == |block| && (forall p :: 0 <= p < |f| ==> f[p] < |block|)
    && forall p :: 0 <= p < |f| ==> AsBefore(block, ss, f0, f, s, p)
  }

  /** Place p of [t, ss] holds the position before the one that was being scanned. */
  ghost predicate CopyAt(block: seq<byte>, ss: nat, f: seq<nat>, s: Pos, t: nat, p: int) {
    && t < |s.cs| && t < |s.ce| && 0 <= p < |f| == |s.src| == |block|
    && var q := s.src[p];
       && 0 <= q < |f| && f[q] < |block| && f[p] == Before(f[q], |block|) && block[f[p]] == t
       && (p < s.cs[t] ==> BigLo(block, ss) <= q < s.jl) && (p > s.ce[t] ==> s.jr < q < BigHi(block, ss))
  }

  ghost predicate CopiesRight(block: seq<byte>, ss: nat, done: seq<bool>, f: seq<nat>, s: Pos) {
    forall t, p :: 0 <= t < |done| && !done[t] && Copied(block, ss, s, t, p) ==> CopyAt(block, ss, f, s, t, p)
  }

  /** Within a bucket the copies come in the order in which their sources stand. */
  ghost predicate CopiesInOrder(block: seq<byte>, ss: nat, done: seq<bool>, s: Pos) {
    forall t, p, q :: 0 <= t < |done| && !done[t] && Copied(block, ss, s, t, p) && Copied(block, ss, s, t, q) && p < q ==>
      0 <= p < q < |s.src| && s.src[p] < s.src[q]
  }

  /** The position before the scanned one has been copied, unless its bucket was done. */
  ghost predicate HasCopy(block: seq<byte>, ss: nat, done: seq<bool>, f: seq<nat>, s: Pos, q: int) {
    && 0 <= q < |f| == |s.src| == |s.dst| == |block| && f[q] < |block| && |done| == 256
    && var t := block[Before(f[q], |block|)];
       (!done[t] ==> Copied(block, ss, s, t, s.dst[q]) && 0 <= s.dst[q] < |s.src| && s.src[s.dst[q]] == q)
  }

  ghost predicate AllHaveCopies(block: seq<byte>, ss: nat, done: seq<bool>, f: seq<nat>, s: Pos) {
    forall q :: Scanned(block, ss, s, q) ==> HasCopy(block, ss, done, f, s, q)
  }

  /** What is ready to be scanned begins with ss, is sorted, and is listed once. */
  ghost predicate InRank(block: seq<byte>, f: seq<nat>, q: int, q': int) {
    && 0 <= q < |f| && 0 <= q' < |f| && f[q] < |block| && f[q'] < |block|
    && f[q] != f[q'] && Order(block)[f[q]] <= Order(block)[f[q']]
  }

  ghost predicate ReadySorted(block: seq<byte>, ss: nat, f: seq<nat>, s: Pos) {
    && (forall q :: Ready(block, ss, s, q) ==> 0 <= q < |f| && f[q] < |block| && block[f[q]] == ss)
    && forall q, q' :: Ready(block, ss, s, q) && Ready(block, ss, s, q') && q < q' ==> InRank(block, f, q, q')
  }

  ghost predicate ScanState(block: seq<byte>, ss: nat, done: seq<bool>, f0: seq<nat>, f: seq<nat>, s: Pos) {
    && Bounds(block, ss, done, s) && InSmall(block, f0) && Untouched(block, ss, f0, f, s)
    && CopiesRight(block, ss, done, f, s) && CopiesInOrder(block, ss, done, s)
    && AllHaveCopies(block, ss, done, f, s) && ReadySorted(block, ss, f, s)
  }

  lemma RoomAt(block: seq<byte>, ss: nat, done: seq<bool>, s: Pos, t: nat)
    requires Bounds(block, ss, done, s) && t < 256
    ensures |s.cs| == |s.ce| == |done| == 256 && ss < 256 && |s.src| == |s.dst| == |block|
    ensures Lo(block, ss, t) <= s.cs[t] <= s.ce[t] + 1 <= Hi(block, ss, t) <= |block|
    ensures done[t] ==> s.cs[t] == Lo(block, ss, t) && s.ce[t] + 1 == Hi(block, ss, t)
    ensures BigLo(block, ss) <= s.jl <= s.cs[ss] <= s.ce[ss] + 1 && s.ce[ss] <= s.jr < BigHi(block, ss) <= |block|
  {
    assert Room(block, ss, done, s, t) && Room(block, ss, done, s, ss);
    BucketPlaces(block, ss, t);
  }

  // One step of either scan.

  /** The next place to be scanned. */
  ghost function At(s: Pos, left: bool): int {
    if left then s.jl else s.jr
  }

  ghost predicate More(s: Pos, ss: nat, left: bool) {
    ss < |s.cs| && ss < |s.ce| && if left then s.jl < s.cs[ss] else s.jr > s.ce[ss]
  }

  ghost function Skip(s: Pos, left: bool): Pos {
    if left then s.(jl := s.jl + 1) else s.(jr := s.jr - 1)
  }

  /** The place that the next copy goes to. */
  ghost function Target(s: Pos, left: bool, t: nat): int
    requires t < |s.cs| && t < |s.ce|
  {
    if left then s.cs[t] else s.ce[t]
  }

  ghost function Put(s: Pos, left: bool, t: nat): Pos
    requires t < |s.cs| && t < |s.ce| && 0 <= At(s, left) < |s.dst| && 0 <= Target(s, left, t) < |s.src|
  {
    var j, p := At(s, left), Target(s, left, t);
    var u := Skip(s, left).(src := s.src[p := j], dst := s.dst[j := p]);
    if left then u.(cs := s.cs[t := p + 1]) else u.(ce := s.ce[t := p - 1])
  }

  lemma NextReady(block: seq<byte>, ss: nat, done: seq<bool>, s: Pos, left: bool)
    requires Bounds(block, ss, done, s) && More(s, ss, left)
    ensures Ready(block, ss, s, At(s, left)) && !Scanned(block, ss, s, At(s, left)) && 0 <= At(s, left) < |block|
  {
    RoomAt(block, ss, done, s, ss);
  }

  lemma ScannedIsReady(block: seq<byte>, ss: nat, done: seq<bool>, s: Pos, q: int)
    requires Bounds(block, ss, done, s) && Scanned(block, ss, s, q)
    ensures Ready(block, ss, s, q) && 0 <= q < |block|
  {
    RoomAt(block, ss, done, s, ss);
  }

  /** Copies in the same bucket are different positions. */
  lemma CopiesDiffer(block: seq<byte>, ss: nat, done: seq<bool>, f0: seq<nat>, f: seq<nat>, s: Pos, t: nat, p: int, q: int)
    requires ScanState(block, ss, done, f0, f, s) && t < 256 && !done[t] && p < q
    requires Copied(block, ss, s, t, p) && Copied(block, ss, s, t, q)
    ensures 0 <= p < q < |f| && f[p] != f[q] && InRank(block, f, p, q)
  {
    assert CopyAt(block, ss, f, s, t, p) && CopyAt(block, ss, f, s, t, q);
    assert s.src[p] < s.src[q];
    CopySource(block, ss, done, f, s, t, p);
    CopySource(block, ss, done, f, s, t, q);
    var a, b := s.src[p], s.src[q];
    assert InRank(block, f, a, b);
    hide Order;
    NextBefore(|block|, f[a]);
    NextBefore(|block|, f[b]);
    OrderNext(block, f[p], f[q]);
  }

  lemma CopySource(block: seq<byte>, ss: nat, done: seq<bool>, f: seq<nat>, s: Pos, t: nat, p: int)
    requires Bounds(block, ss, done, s) && t < 256 && Copied(block, ss, s, t, p) && CopyAt(block, ss, f, s, t, p)
    ensures Scanned(block, ss, s, s.src[p]) && Ready(block, ss, s, s.src[p])
  {
    RoomAt(block, ss, done, s, t);
    ScannedIsReady(block, ss, done, s, s.src[p]);
  }

  /** The position before a ready one belongs to small bucket [t, ss]. */
  lemma BeforeReady(block: seq<byte>, ss: nat, f: seq<nat>, s: Pos, q: int)
    requires ReadySorted(block, ss, f, s) && Ready(block, ss, s, q)
    ensures 0 <= q < |f| && f[q] < |block| && block[f[q]] == ss
    ensures var k := Before(f[q], |block|); Pairs(block)[k] == PairOf(block[k], ss)
  {
    NextBefore(|block|, f[q]);
  }

  lemma CopyPair(block: seq<byte>, ss: nat, done: seq<bool>, f: seq<nat>, s: Pos, t: nat, p: int)
    requires Bounds(block, ss, done, s) && CopiesRight(block, ss, done, f, s) && ReadySorted(block, ss, f, s)
    requires t < 256 && !done[t] && Copied(block, ss, s, t, p)
    ensures CopyAt(block, ss, f, s, t, p) && f[p] < |block| && Pairs(block)[f[p]] == PairOf(t, ss)
  {
    CopySource(block, ss, done, f, s, t, p);
    BeforeReady(block, ss, f, s, s.src[p]);
  }

  /** What is scanned next has not been copied yet. */
  lemma NextIsNew(block: seq<byte>, ss: nat, done: seq<bool>, f0: seq<nat>, f: seq<nat>, s: Pos, j: int, t: nat, p: int)
    requires ScanState(block, ss, done, f0, f, s) && Ready(block, ss, s, j) && !Scanned(block, ss, s, j)
    requires t < 256 && !done[t] && Copied(block, ss, s, t, p)
    ensures 0 <= p < |f| && 0 <= j < |f| && f[j] < |block| && f[p] != Before(f[j], |block|)
  {
    CopyPair(block, ss, done, f, s, t, p);
    CopySource(block, ss, done, f, s, t, p);
    var q := s.src[p];
    assert q != j && (q < j ==> InRank(block, f, q, j)) && (j < q ==> InRank(block, f, j, q));
    NextBefore(|block|, f[q]);
    NextBefore(|block|, f[j]);
  }

  /** The places of [t, ss] that have been copied to, as a list. */
  ghost function CopyPlace(block: seq<byte>, ss: nat, s: Pos, t: nat, a: int): int
    requires t < |s.cs| && t < |s.ce|
  {
    var n := s.cs[t] - Lo(block, ss, t);
    if a < n then Lo(block, ss, t) + a else s.ce[t] + 1 + (a - n)
  }

  ghost function CopyCount(block: seq<byte>, ss: nat, s: Pos, t: nat): int
    requires t < |s.cs| && t < |s.ce|
  {
    (s.cs[t] - Lo(block, ss, t)) + (Hi(block, ss, t) - (s.ce[t] + 1))
  }

  lemma CopyPlaces(block: seq<byte>, ss: nat, done: seq<bool>, s: Pos, t: nat)
    requires Bounds(block, ss, done, s) && t < 256
    ensures |s.cs| == |s.ce| == |done| == 256 && 0 <= CopyCount(block, ss, s, t)
    ensures CopyCount(block, ss, s, t) == Hi(block, ss, t) - Lo(block, ss, t) - (s.ce[t] + 1 - s.cs[t])
    ensures forall a :: 0 <= a < CopyCount(block, ss, s, t) ==>
              var p := CopyPlace(block, ss, s, t, a); Copied(block, ss, s, t, p) && 0 <= p < |block|
    ensures forall a, b :: 0 <= a < b < CopyCount(block, ss, s, t) ==>
              CopyPlace(block, ss, s, t, a) < CopyPlace(block, ss, s, t, b)
    ensures forall p :: Copied(block, ss, s, t, p) ==>
              exists a :: 0 <= a < CopyCount(block, ss, s, t) && CopyPlace(block, ss, s, t, a) == p
  {
    RoomAt(block, ss, done, s, t);
    hide Lo, Hi;
    forall p | Copied(block, ss, s, t, p)
      ensures exists a :: 0 <= a < CopyCount(block, ss, s, t) && CopyPlace(block, ss, s, t, a) == p
    {
      var a := if p < s.cs[t] then p - Lo(block, ss, t) else p - s.ce[t] - 1 + (s.cs[t] - Lo(block, ss, t));
      assert CopyPlace(block, ss, s, t, a) == p;
    }
  }

  /** What has been copied to bucket [t, ss]. */
  ghost function CopyList(block: seq<byte>, ss: nat, f: seq<nat>, s: Pos, t: nat): (list: seq<nat>)
    requires t < |s.cs| && t < |s.ce| && 0 <= CopyCount(block, ss, s, t)
    requires forall a :: 0 <= a < CopyCount(block, ss, s, t) ==> 0 <= CopyPlace(block, ss, s, t, a) < |f|
    ensures |list| == CopyCount(block, ss, s, t)
    ensures forall a :: 0 <= a < |list| ==> list[a] == f[CopyPlace(block, ss, s, t, a)]
  {
    seq(CopyCount(block, ss, s, t), a requires 0 <= a < CopyCount(block, ss, s, t) => f[CopyPlace(block, ss, s, t, a)])
  }

  ghost predicate IsCopy(block: seq<byte>, ss: nat, f: seq<nat>, s: Pos, t: nat, y: nat) {
    exists p :: Copied(block, ss, s, t, p) && 0 <= p < |f| && y == f[p]
  }

  lemma CopyOf(block: seq<byte>, ss: nat, f: seq<nat>, s: Pos, t: nat, y: nat) returns (p: int)
    requires IsCopy(block, ss, f, s, t, y)
    ensures Copied(block, ss, s, t, p) && 0 <= p < |f| && y == f[p]
  {
    p :| Copied(block, ss, s, t, p) && 0 <= p < |f| && y == f[p];
  }

  lemma CopiesListed(block: seq<byte>, ss: nat, done: seq<bool>, f0: seq<nat>, f: seq<nat>, s: Pos, t: nat)
    returns (list: seq<nat>)
    requires ScanState(block, ss, done, f0, f, s) && t < 256 && !done[t]
    ensures |f| == |block| && |s.cs| == |s.ce| == 256 && |list| == CopyCount(block, ss, s, t)
    ensures Distinct(list) && AllIn(block, list, PairOf(t, ss))
    ensures |list| == Hi(block, ss, t) - Lo(block, ss, t) - (s.ce[t] + 1 - s.cs[t])
    ensures forall p :: Copied(block, ss, s, t, p) ==> 0 <= p < |f| && f[p] in list
    ensures forall a :: 0 <= a < |list| ==> IsCopy(block, ss, f, s, t, list[a])
  {
    CopyPlaces(block, ss, done, s, t);
    assert |f| == |block|;
    list := CopyList(block, ss, f, s, t);
    forall a, b | 0 <= a < b < |list|
      ensures list[a] != list[b]
    {
      CopiesDiffer(block, ss, done, f0, f, s, t, CopyPlace(block, ss, s, t, a), CopyPlace(block, ss, s, t, b));
    }
    forall a | 0 <= a < |list|
      ensures list[a] < |block| && Pairs(block)[list[a]] == PairOf(t, ss)
    {
      CopyPair(block, ss, done, f, s, t, CopyPlace(block, ss, s, t, a));
    }
    hide ScanState;
    forall a | 0 <= a < |list|
      ensures IsCopy(block, ss, f, s, t, list[a])
    {
      var p := CopyPlace(block, ss, s, t, a);
      assert Copied(block, ss, s, t, p) && 0 <= p < |f| && list[a] == f[p];
    }
    forall p | Copied(block, ss, s, t, p)
      ensures 0 <= p < |f| && f[p] in list
    {
      var a :| 0 <= a < CopyCount(block, ss, s, t) && CopyPlace(block, ss, s, t, a) == p;
      assert list[a] == f[p];
    }
  }

  /** There is room for the next copy: otherwise the bucket would have more members than places. */
  lemma RoomLeft(block: seq<byte>, ss: nat, done: seq<bool>, f0: seq<nat>, f: seq<nat>, s: Pos, j: int)
    requires ScanState(block, ss, done, f0, f, s) && Ready(block, ss, s, j) && !Scanned(block, ss, s, j)
    ensures 0 <= j < |f| == |block| && f[j] < |block| && |done| == |s.cs| == |s.ce| == 256
    ensures var t := block[Before(f[j], |block|)]; done[t] || s.cs[t] <= s.ce[t]
  {
    BeforeReady(block, ss, f, s, j);
    var k := Before(f[j], |block|);
    var t := block[k];
    if !done[t] && s.cs[t] > s.ce[t] {
      var list := CopiesListed(block, ss, done, f0, f, s, t);
      RoomAt(block, ss, done, s, t);
      hide *;
      forall a | 0 <= a < |list|
        ensures list[a] != k
      {
        var p := CopyOf(block, ss, f, s, t, list[a]);
        NextIsNew(block, ss, done, f0, f, s, j, t, p);
      }
      OneMore(block, list, k, PairOf(t, ss));
      DistinctFit(block, list + [k], PairOf(t, ss));
      PlacesAre(block, ss, t);
    }
  }

  lemma OneMore(block: seq<byte>, list: seq<nat>, k: nat, c: nat)
    requires Distinct(list) && AllIn(block, list, c) && k < |block| && Pairs(block)[k] == c
    requires forall a :: 0 <= a < |list| ==> list[a] != k
    ensures Distinct(list + [k]) && AllIn(block, list + [k], c)
  {
  }

  lemma PlacesAre(block: seq<byte>, ss: nat, t: nat)
    ensures Lo(block, ss, t) == Start(block, PairOf(t, ss)) && Hi(block, ss, t) == Start(block, PairOf(t, ss) + 1)
  {
  }

  // What a step keeps.

  ghost predicate Stepping(block: seq<byte>, ss: nat, done: seq<bool>, f0: seq<nat>, f: seq<nat>, s: Pos, left: bool) {
    && ScanState(block, ss, done, f0, f, s) && More(s, ss, left)
    && 0 <= At(s, left) < |f| == |block| == |f0| && f[At(s, left)] < |block| && |s.cs| == |s.ce| == |done| == 256
    && |s.src| == |s.dst| == |block| && ss < 256
  }

  lemma Step(block: seq<byte>, ss: nat, done: seq<bool>, f0: seq<nat>, f: seq<nat>, s: Pos, left: bool)
    requires ScanState(block, ss, done, f0, f, s) && More(s, ss, left)
    ensures Stepping(block, ss, done, f0, f, s, left) && Ready(block, ss, s, At(s, left)) && !Scanned(block, ss, s, At(s, left))
    ensures block[f[At(s, left)]] == ss
    ensures var t := block[Before(f[At(s, left)], |block|)]; done[t] || s.cs[t] <= s.ce[t]
  {
    NextReady(block, ss, done, s, left);
    RoomLeft(block, ss, done, f0, f, s, At(s, left));
  }

  /** A bucket that was done already is left alone. */
  lemma SkipStep(block: seq<byte>, ss: nat, done: seq<bool>, f0: seq<nat>, f: seq<nat>, s: Pos, left: bool)
    requires Stepping(block, ss, done, f0, f, s, left) && done[block[Before(f[At(s, left)], |block|)]]
    ensures ScanState(block, ss, done, f0, f, Skip(s, left))
  {
    var u, j := Skip(s, left), At(s, left);
    RoomAt(block, ss, done, s, ss);
    assert Bounds(block, ss, done, u) by {
      forall t | 0 <= t < 256
        ensures Room(block, ss, done, u, t)
      {
        assert Room(block, ss, done, s, t);
      }
    }
    forall p | 0 <= p < |f|
      ensures AsBefore(block, ss, f0, f, u, p)
    {
      assert AsBefore(block, ss, f0, f, s, p);
    }
    forall t, p | 0 <= t < |done| && !done[t] && Copied(block, ss, u, t, p)
      ensures CopyAt(block, ss, f, u, t, p)
    {
      assert Copied(block, ss, s, t, p) && CopyAt(block, ss, f, s, t, p);
    }
    forall t, p, q | 0 <= t < |done| && !done[t] && Copied(block, ss, u, t, p) && Copied(block, ss, u, t, q) && p < q
      ensures 0 <= p < q < |u.src| && u.src[p] < u.src[q]
    {
      assert Copied(block, ss, s, t, p) && Copied(block, ss, s, t, q);
    }
    forall q | Scanned(block, ss, u, q)
      ensures HasCopy(block, ss, done, f, u, q)
    {
      if q != j { assert Scanned(block, ss, s, q) && HasCopy(block, ss, done, f, s, q); }
    }
    forall q | Ready(block, ss, u, q)
      ensures Ready(block, ss, s, q)
    {
    }
  }

  /** A copy is about to be made to bucket [t, ss]. */
  ghost predicate Putting(block: seq<byte>, ss: nat, done: seq<bool>, f0: seq<nat>, f: seq<nat>, s: Pos, left: bool, t: nat) {
    && Stepping(block, ss, done, f0, f, s, left) && t < 256 && !done[t] && s.cs[t] <= s.ce[t]
    && t == block[Before(f[At(s, left)], |block|)]
    && Ready(block, ss, s, At(s, left)) && !Scanned(block, ss, s, At(s, left)) && block[f[At(s, left)]] == ss
  }

  lemma PutParts(block: seq<byte>, ss: nat, done: seq<bool>, f0: seq<nat>, f: seq<nat>, s: Pos, left: bool, t: nat)
    requires Putting(block, ss, done, f0, f, s, left, t)
    ensures ScanState(block, ss, done, f0, f, s) && More(s, ss, left) && t < 256 && ss < 256 && !done[t]
    ensures |s.cs| == |s.ce| == |done| == 256 && |s.src| == |s.dst| == |block| == |f| == |f0|
    ensures 0 <= At(s, left) < |f| && f[At(s, left)] < |block| && block[f[At(s, left)]] == ss
    ensures t == block[Before(f[At(s, left)], |block|)] && Lo(block, ss, t) <= Target(s, left, t) < Hi(block, ss, t) <= |block|
    ensures Ready(block, ss, s, At(s, left)) && !Scanned(block, ss, s, At(s, left))
  {
    RoomAt(block, ss, done, s, t);
  }

  /** What the copy changes: one more place is copied, one more is scanned, and one more may be ready. */
  lemma PutFacts(block: seq<byte>, ss: nat, done: seq<bool>, f0: seq<nat>, f: seq<nat>, s: Pos, left: bool, t: nat)
    requires Putting(block, ss, done, f0, f, s, left, t)
    ensures 0 <= At(s, left) < |s.dst| && 0 <= Target(s, left, t) < |s.src| && t < |s.cs| && t < |s.ce|
    ensures var u, p, j := Put(s, left, t), Target(s, left, t), At(s, left);
      && !Copied(block, ss, s, t, p) && !Ready(block, ss, s, p) && j != p
      && (forall t', x :: Copied(block, ss, u, t', x) <==> Copied(block, ss, s, t', x) || (t' == t && x == p))
      && (forall x :: Scanned(block, ss, u, x) <==> Scanned(block, ss, s, x) || x == j)
      && (forall x :: Ready(block, ss, u, x) <==> Ready(block, ss, s, x) || (t == ss && x == p))
  {
    PutParts(block, ss, done, f0, f, s, left, t);
    RoomAt(block, ss, done, s, t);
    RoomAt(block, ss, done, s, ss);
    BucketPlaces(block, ss, t);
    hide ScanState, Lo, Hi, BigLo, BigHi, Before, Putting, Stepping;
  }

  lemma PutBounds(block: seq<byte>, ss: nat, done: seq<bool>, f0: seq<nat>, f: seq<nat>, s: Pos, left: bool, t: nat)
    requires Putting(block, ss, done, f0, f, s, left, t)
    requires 0 <= At(s, left) < |s.dst| && 0 <= Target(s, left, t) < |s.src| && t < |s.cs| && t < |s.ce|
    ensures Bounds(block, ss, done, Put(s, left, t))
  {
    PutParts(block, ss, done, f0, f, s, left, t);
    assert Bounds(block, ss, done, s);
    RoomAt(block, ss, done, s, ss);
    hide ScanState, Lo, Hi, BigLo, BigHi, Before, Putting, Stepping;
    var u := Put(s, left, t);
    forall t' | 0 <= t' < 256
      ensures Room(block, ss, done, u, t')
    {
      assert Room(block, ss, done, s, t');
    }
  }

  lemma PutUntouched(block: seq<byte>, ss: nat, done: seq<bool>, f0: seq<nat>, f: seq<nat>, s: Pos, left: bool, t: nat)
    requires Putting(block, ss, done, f0, f, s, left, t)
    requires 0 <= At(s, left) < |s.dst| && 0 <= Target(s, left, t) < |s.src| && t < |s.cs| && t < |s.ce|
    requires 0 <= Target(s, left, t) < |f| && f[At(s, left)] < |block|
    ensures Untouched(block, ss, f0, f[Target(s, left, t) := Before(f[At(s, left)], |block|)], Put(s, left, t))
  {
    PutParts(block, ss, done, f0, f, s, left, t);
    assert Untouched(block, ss, f0, f, s) && InSmall(block, f0);
    hide ScanState, Before, Putting, Stepping, Pairs, InSmall;
    var u, p := Put(s, left, t), Target(s, left, t);
    var g := f[p := Before(f[At(s, left)], |block|)];
    forall x | 0 <= x < |g|
      ensures AsBefore(block, ss, f0, g, u, x)
    {
      assert AsBefore(block, ss, f0, f, s, x);
      if x == p {
        InSmallAt(block, f0, x);
        var c := Pairs(block)[f0[x]];
        OneBucket(block, c, PairOf(t, ss), x);
        OneBucket(block, c, PairOf(t, ss) + 1, x);
        PairParts(t, ss);
        assert c == PairOf(t, ss);
      }
    }
  }

  lemma PairParts(t: nat, ss: nat)
    requires ss < 256
    ensures PairOf(t, ss) % 256 == ss && PairOf(t, ss) / 256 == t
  {
  }

  lemma PutCopies(block: seq<byte>, ss: nat, done: seq<bool>, f0: seq<nat>, f: seq<nat>, s: Pos, left: bool, t: nat)
    requires Putting(block, ss, done, f0, f, s, left, t)
    requires 0 <= At(s, left) < |s.dst| && 0 <= Target(s, left, t) < |s.src| && t < |s.cs| && t < |s.ce|
    requires 0 <= Target(s, left, t) < |f| && f[At(s, left)] < |block|
    ensures CopiesRight(block, ss, done, f[Target(s, left, t) := Before(f[At(s, left)], |block|)], Put(s, left, t))
  {
    PutParts(block, ss, done, f0, f, s, left, t);
    PutFacts(block, ss, done, f0, f, s, left, t);
    assert CopiesRight(block, ss, done, f, s) && Bounds(block, ss, done, s);
    RoomAt(block, ss, done, s, t);
    hide *;
    var u, p, j := Put(s, left, t), Target(s, left, t), At(s, left);
    var g := f[p := Before(f[j], |block|)];
    forall t', x | 0 <= t' < |done| && !done[t'] && Copied(block, ss, u, t', x)
      ensures CopyAt(block, ss, g, u, t', x)
    {
      if t' == t && x == p {
        NewCopy(block, ss, done, f, s, left, t);
      } else {
        CopiesRightAt(block, ss, done, f, s, t', x);
        CopySource(block, ss, done, f, s, t', x);
        CopiedElsewhere(block, ss, done, s, t, t', p, x);
        OldCopy(block, ss, f, s, left, t, t', x);
      }
    }
    CopiesRightAll(block, ss, done, g, u);
  }

  lemma CopiesRightAt(block: seq<byte>, ss: nat, done: seq<bool>, f: seq<nat>, s: Pos, t: nat, p: int)
    requires CopiesRight(block, ss, done, f, s) && t < |done| && !done[t] && Copied(block, ss, s, t, p)
    ensures CopyAt(block, ss, f, s, t, p)
  {
  }

  lemma CopiesRightAll(block: seq<byte>, ss: nat, done: seq<bool>, f: seq<nat>, s: Pos)
    requires forall t, p :: 0 <= t < |done| && !done[t] && Copied(block, ss, s, t, p) ==> CopyAt(block, ss, f, s, t, p)
    ensures CopiesRight(block, ss, done, f, s)
  {
  }

  lemma NewCopy(block: seq<byte>, ss: nat, done: seq<bool>, f: seq<nat>, s: Pos, left: bool, t: nat)
    requires Bounds(block, ss, done, s) && More(s, ss, left) && t < 256 && |f| == |block|
    requires 0 <= At(s, left) < |s.dst| && 0 <= Target(s, left, t) < |s.src| && At(s, left) != Target(s, left, t)
    requires s.cs[t] <= s.ce[t] && f[At(s, left)] < |block| && t == block[Before(f[At(s, left)], |block|)]
    ensures var p := Target(s, left, t);
            CopyAt(block, ss, f[p := Before(f[At(s, left)], |block|)], Put(s, left, t), t, p)
  {
    RoomAt(block, ss, done, s, ss);
    hide Bounds, Before;
  }

  lemma OldCopy(block: seq<byte>, ss: nat, f: seq<nat>, s: Pos, left: bool, t: nat, t': nat, x: int)
    requires t < |s.cs| && t < |s.ce| && |f| == |s.dst| == |s.src| == |block|
    requires 0 <= At(s, left) < |s.dst| && 0 <= Target(s, left, t) < |s.src| && f[At(s, left)] < |block|
    requires CopyAt(block, ss, f, s, t', x) && x != Target(s, left, t) && s.src[x] != Target(s, left, t)
    requires Copied(block, ss, s, t', x)
    ensures CopyAt(block, ss, f[Target(s, left, t) := Before(f[At(s, left)], |block|)], Put(s, left, t), t', x)
  {
    hide Before;
  }

  lemma PutOrder(block: seq<byte>, ss: nat, done: seq<bool>, f0: seq<nat>, f: seq<nat>, s: Pos, left: bool, t: nat)
    requires Putting(block, ss, done, f0, f, s, left, t)
    requires 0 <= At(s, left) < |s.dst| && 0 <= Target(s, left, t) < |s.src| && t < |s.cs| && t < |s.ce|
    ensures CopiesInOrder(block, ss, done, Put(s, left, t))
  {
    PutParts(block, ss, done, f0, f, s, left, t);
    PutFacts(block, ss, done, f0, f, s, left, t);
    RoomAt(block, ss, done, s, ss);
    RoomAt(block, ss, done, s, t);
    assert CopiesRight(block, ss, done, f, s) && CopiesInOrder(block, ss, done, s) && Bounds(block, ss, done, s);
    hide ScanState, Before, Putting, Stepping, Copied, Ready, Scanned, Bounds, Lo, Hi, BigLo, BigHi;
    var u, p := Put(s, left, t), Target(s, left, t);
    forall t', x, y | 0 <= t' < |done| && !done[t'] && Copied(block, ss, u, t', x) && Copied(block, ss, u, t', y) && x < y
      ensures 0 <= x < y < |u.src| && u.src[x] < u.src[y]
    {
      if t' == t && x == p {
        assert CopyAt(block, ss, f, s, t, y);
      } else if t' == t && y == p {
        assert CopyAt(block, ss, f, s, t, x);
      } else {
        CopiedElsewhere(block, ss, done, s, t, t', p, x);
        CopiedElsewhere(block, ss, done, s, t, t', p, y);
      }
    }
  }

  lemma CopiedElsewhere(block: seq<byte>, ss: nat, done: seq<bool>, s: Pos, t: nat, t': nat, p: int, x: int)
    requires Bounds(block, ss, done, s) && t < 256 && t' < 256 && Lo(block, ss, t) <= p < Hi(block, ss, t)
    requires Copied(block, ss, s, t', x) && (t' == t ==> x != p)
    ensures x != p && 0 <= x < |block|
  {
    RoomAt(block, ss, done, s, t');
    if t < t' { BucketsApart(block, ss, t, t'); }
    if t' < t { BucketsApart(block, ss, t', t); }
  }

  lemma PutHas(block: seq<byte>, ss: nat, done: seq<bool>, f0: seq<nat>, f: seq<nat>, s: Pos, left: bool, t: nat)
    requires Putting(block, ss, done, f0, f, s, left, t)
    requires 0 <= At(s, left) < |s.dst| && 0 <= Target(s, left, t) < |s.src| && t < |s.cs| && t < |s.ce|
    requires 0 <= Target(s, left, t) < |f| && f[At(s, left)] < |block|
    ensures AllHaveCopies(block, ss, done, f[Target(s, left, t) := Before(f[At(s, left)], |block|)], Put(s, left, t))
  {
    PutParts(block, ss, done, f0, f, s, left, t);
    PutFacts(block, ss, done, f0, f, s, left, t);
    assert AllHaveCopies(block, ss, done, f, s) && Bounds(block, ss, done, s);
    RoomAt(block, ss, done, s, t);
    hide ScanState, Putting, Stepping, Copied, Ready, Scanned, Bounds, Lo, Hi, BigLo, BigHi, Before;
    var u, p, j := Put(s, left, t), Target(s, left, t), At(s, left);
    var g := f[p := Before(f[j], |block|)];
    forall q | Scanned(block, ss, u, q)
      ensures HasCopy(block, ss, done, g, u, q)
    {
      if q != j {
        assert HasCopy(block, ss, done, f, s, q);
        ScannedIsReady(block, ss, done, s, q);
        var t' := block[Before(f[q], |block|)];
        if !done[t'] { CopiedElsewhere(block, ss, done, s, t, t', p, s.dst[q]); }
      }
    }
  }

  /** Places of the big bucket before and behind [ss, ss] hold what they held, with a smaller or greater second character. */
  lemma OuterPlace(block: seq<byte>, ss: nat, f0: seq<nat>, f: seq<nat>, s: Pos, q: int)
    requires ss < 256 && InSmall(block, f0) && Untouched(block, ss, f0, f, s) && BigLo(block, ss) <= q < BigHi(block, ss)
    requires q < Lo(block, ss, ss) || q >= Hi(block, ss, ss)
    ensures 0 <= q < |block| == |f| == |f0| && f[q] == f0[q] && f[q] < |block| && block[f[q]] == ss
    ensures var b := block[Next(|block|, f[q])];
            if q < Lo(block, ss, ss) then b < ss else b > ss
  {
    assert AsBefore(block, ss, f0, f, s, q);
    hide *;
    BucketPlaces(block, ss, ss);
    InSmallAt(block, f0, q);
    var c := Pairs(block)[f0[q]];
    OneBucket(block, c, PairOf(ss, 0), q);
    OneBucket(block, c, PairOf(ss + 1, 0), q);
    OneBucket(block, c, PairOf(ss, ss), q);
    OneBucket(block, c, PairOf(ss, ss) + 1, q);
  }

  /** How the new copy compares with what was ready before, if it goes to [ss, ss] itself. */
  lemma NewInRank(block: seq<byte>, ss: nat, done: seq<bool>, f0: seq<nat>, f: seq<nat>, s: Pos, left: bool, q: int)
    requires Putting(block, ss, done, f0, f, s, left, ss) && Ready(block, ss, s, q)
    requires 0 <= At(s, left) < |f| && f[At(s, left)] < |block| && ss < |s.cs| && ss < |s.ce|
    ensures 0 <= q < |f| && f[q] < |block|
    ensures var k, p, e := Before(f[At(s, left)], |block|), Target(s, left, ss), Order(block);
            && q != p && f[q] != k && (q < p ==> e[f[q]] <= e[k]) && (p < q ==> e[k] <= e[f[q]])
  {
    PutParts(block, ss, done, f0, f, s, left, ss);
    RoomAt(block, ss, done, s, ss);
    var n, j, p := |block|, At(s, left), Target(s, left, ss);
    var k := Before(f[j], n);
    NextBefore(n, f[j]);
    BucketPlaces(block, ss, ss);
    assert Untouched(block, ss, f0, f, s) && InSmall(block, f0) && Bounds(block, ss, done, s) && ReadySorted(block, ss, f, s);
    assert CopiesRight(block, ss, done, f, s);
    if Lo(block, ss, ss) <= q < Hi(block, ss, ss) {
      assert Copied(block, ss, s, ss, q) && CopyAt(block, ss, f, s, ss, q);
      CopySource(block, ss, done, f, s, ss, q);
      var x := s.src[q];
      assert x != j && (x < j ==> InRank(block, f, x, j)) && (j < x ==> InRank(block, f, j, x));
      assert q < p ==> x < j;
      assert p < q ==> j < x;
      NextBefore(n, f[x]);
      hide *;
      RankBefore(block, f[x], f[j]);
    } else {
      OuterPlace(block, ss, f0, f, s, q);
      hide *;
      OrderNext(block, f[q], k);
      OrderNext(block, k, f[q]);
      OrderNext(block, Next(n, f[q]), Next(n, k));
      OrderNext(block, Next(n, k), Next(n, f[q]));
    }
  }

  lemma RankBefore(block: seq<byte>, x: nat, y: nat)
    requires x < |block| && y < |block| && block[Before(x, |block|)] == block[Before(y, |block|)]
    ensures Order(block)[x] <= Order(block)[y] ==> Order(block)[Before(x, |block|)] <= Order(block)[Before(y, |block|)]
    ensures Order(block)[y] <= Order(block)[x] ==> Order(block)[Before(y, |block|)] <= Order(block)[Before(x, |block|)]
  {
    NextBefore(|block|, x);
    NextBefore(|block|, y);
    OrderNext(block, Before(x, |block|), Before(y, |block|));
    OrderNext(block, Before(y, |block|), Before(x, |block|));
  }

  lemma PutReady(block: seq<byte>, ss: nat, done: seq<bool>, f0: seq<nat>, f: seq<nat>, s: Pos, left: bool, t: nat)
    requires Putting(block, ss, done, f0, f, s, left, t)
    requires 0 <= At(s, left) < |s.dst| && 0 <= Target(s, left, t) < |s.src| && t < |s.cs| && t < |s.ce|
    requires 0 <= Target(s, left, t) < |f| && f[At(s, left)] < |block|
    ensures ReadySorted(block, ss, f[Target(s, left, t) := Before(f[At(s, left)], |block|)], Put(s, left, t))
  {
    PutParts(block, ss, done, f0, f, s, left, t);
    PutFacts(block, ss, done, f0, f, s, left, t);
    assert ReadySorted(block, ss, f, s);
    hide ScanState, Putting, Stepping, Copied, Ready, Scanned, Before, Order;
    var u, p, k := Put(s, left, t), Target(s, left, t), Before(f[At(s, left)], |block|);
    var g := f[p := k];
    forall q, q' | Ready(block, ss, u, q) && Ready(block, ss, u, q') && q < q'
      ensures InRank(block, g, q, q')
    {
      if q == p {
        NewInRank(block, ss, done, f0, f, s, left, q');
      } else if q' == p {
        NewInRank(block, ss, done, f0, f, s, left, q);
      } else {
        assert InRank(block, f, q, q');
      }
    }
  }

  /** A copy keeps everything. */
  lemma PutStep(block: seq<byte>, ss: nat, done: seq<bool>, f0: seq<nat>, f: seq<nat>, s: Pos, left: bool, t: nat)
    requires Putting(block, ss, done, f0, f, s, left, t)
    ensures t < |s.cs| && t < |s.ce| && 0 <= At(s, left) < |f| == |s.dst| && f[At(s, left)] < |block|
    ensures 0 <= Target(s, left, t) < |f| == |s.src|
    ensures ScanState(block, ss, done, f0, f[Target(s, left, t) := Before(f[At(s, left)], |block|)], Put(s, left, t))
  {
    hide *;
    PutParts(block, ss, done, f0, f, s, left, t);
    PutBounds(block, ss, done, f0, f, s, left, t);
    PutUntouched(block, ss, done, f0, f, s, left, t);
    PutCopies(block, ss, done, f0, f, s, left, t);
    PutOrder(block, ss, done, f0, f, s, left, t);
    PutHas(block, ss, done, f0, f, s, left, t);
    PutReady(block, ss, done, f0, f, s, left, t);
    StateParts(block, ss, done, f0, f, s);
    StateFrom(block, ss, done, f0, f[Target(s, left, t) := Before(f[At(s, left)], |block|)], Put(s, left, t));
  }

  lemma StateParts(block: seq<byte>, ss: nat, done: seq<bool>, f0: seq<nat>, f: seq<nat>, s: Pos)
    requires ScanState(block, ss, done, f0, f, s)
    ensures Bounds(block, ss, done, s) && InSmall(block, f0) && Untouched(block, ss, f0, f, s)
    ensures CopiesRight(block, ss, done, f, s) && CopiesInOrder(block, ss, done, s)
    ensures AllHaveCopies(block, ss, done, f, s) && ReadySorted(block, ss, f, s)
    ensures |f| == |block|
  {
  }

  lemma StateFrom(block: seq<byte>, ss: nat, done: seq<bool>, f0: seq<nat>, f: seq<nat>, s: Pos)
    requires Bounds(block, ss, done, s) && InSmall(block, f0) && Untouched(block, ss, f0, f, s)
    requires CopiesRight(block, ss, done, f, s) && CopiesInOrder(block, ss, done, s)
    requires AllHaveCopies(block, ss, done, f, s) && ReadySorted(block, ss, f, s)
    ensures ScanState(block, ss, done, f0, f, s)
  {
  }

  // The beginning and the end.

  ghost predicate AtStart(block: seq<byte>, ss: nat, s: Pos) {
    && |s.cs| == |s.ce| == 256 && |s.src| == |s.dst| == |block| && ss < 256
    && (forall t :: 0 <= t < 256 ==> s.cs[t] == Lo(block, ss, t) && s.ce[t] + 1 == Hi(block, ss, t))
    && s.jl == BigLo(block, ss) && s.jr + 1 == BigHi(block, ss)
  }

  lemma StartBounds(block: seq<byte>, ss: nat, done: seq<bool>, s: Pos)
    requires AtStart(block, ss, s) && |done| == 256 && !done[ss]
    ensures Bounds(block, ss, done, s)
    ensures forall t, p :: !Copied(block, ss, s, t, p)
    ensures forall q :: !Scanned(block, ss, s, q)
    ensures forall q :: Ready(block, ss, s, q) ==>
              (BigLo(block, ss) <= q < BigHi(block, ss) && (q < Lo(block, ss, ss) || Hi(block, ss, ss) <= q))
  {
    BucketPlaces(block, ss, ss);
    hide Lo, Hi, BigLo, BigHi;
    forall t | 0 <= t < 256
      ensures Room(block, ss, done, s, t)
    {
      BucketPlaces(block, ss, t);
    }
  }

  /** With all other small buckets of [ss] sorted, the scan can begin. */
  lemma ScanStart(block: seq<byte>, ss: nat, done: seq<bool>, f: seq<nat>, s: Pos)
    requires AtStart(block, ss, s) && |done| == 256 && !done[ss] && InSmall(block, f)
    requires SortedBy(f, Order(block), BigLo(block, ss), Lo(block, ss, ss))
    requires SortedBy(f, Order(block), Hi(block, ss, ss), BigHi(block, ss))
    ensures ScanState(block, ss, done, f, f, s)
  {
    hide *;
    StartBounds(block, ss, done, s);
    AllUntouched(block, ss, f, s);
    forall q | Ready(block, ss, s, q)
      ensures 0 <= q < |f| && f[q] < |block| && block[f[q]] == ss
    {
      OuterPlace(block, ss, f, f, s, q);
    }
    forall q, q' | Ready(block, ss, s, q) && Ready(block, ss, s, q') && q < q'
      ensures InRank(block, f, q, q')
    {
      StartPair(block, ss, f, s, q, q');
    }
    NothingYet(block, ss, done, f, f, s);
  }

  lemma AllUntouched(block: seq<byte>, ss: nat, f: seq<nat>, s: Pos)
    requires InSmall(block, f) && AtStart(block, ss, s)
    ensures Untouched(block, ss, f, f, s) && ss < 256
  {
  }

  lemma NothingYet(block: seq<byte>, ss: nat, done: seq<bool>, f0: seq<nat>, f: seq<nat>, s: Pos)
    requires Bounds(block, ss, done, s) && InSmall(block, f0) && Untouched(block, ss, f0, f, s)
    requires (forall t, p :: !Copied(block, ss, s, t, p)) && forall q :: !Scanned(block, ss, s, q)
    requires forall q :: Ready(block, ss, s, q) ==> 0 <= q < |f| && f[q] < |block| && block[f[q]] == ss
    requires forall q, q' :: Ready(block, ss, s, q) && Ready(block, ss, s, q') && q < q' ==> InRank(block, f, q, q')
    ensures ScanState(block, ss, done, f0, f, s)
  {
    hide Copied, Scanned, Ready, InRank, Bounds, InSmall, Untouched;
  }

  lemma StartPair(block: seq<byte>, ss: nat, f: seq<nat>, s: Pos, q: int, q': int)
    requires ss < 256 && InSmall(block, f) && Untouched(block, ss, f, f, s) && BigLo(block, ss) <= q < q' < BigHi(block, ss)
    requires (q < Lo(block, ss, ss) || Hi(block, ss, ss) <= q) && (q' < Lo(block, ss, ss) || Hi(block, ss, ss) <= q')
    requires SortedBy(f, Order(block), BigLo(block, ss), Lo(block, ss, ss))
    requires SortedBy(f, Order(block), Hi(block, ss, ss), BigHi(block, ss))
    ensures InRank(block, f, q, q')
  {
    OuterPlace(block, ss, f, f, s, q);
    OuterPlace(block, ss, f, f, s, q');
    BucketPlaces(block, ss, ss);
    hide Order, Lo, Hi, BigLo, BigHi, Untouched;
    assert f[q] != f[q'];
    if q < Lo(block, ss, ss) && Hi(block, ss, ss) <= q' {
      OrderNext(block, Next(|block|, f[q]), Next(|block|, f[q']));
      OrderNext(block, f[q], f[q']);
    }
  }

  /** How far z lies behind x, cyclically. */
  ghost function Distance(n: nat, x: nat, z: nat): nat
    requires x < n && z < n
  {
    if x <= z then z - x else z - x + n
  }

  /** When both scans have ended, every position with ss has been scanned: the run of ss it belongs to ends somewhere. */
  lemma Covered(block: seq<byte>, ss: nat, done: seq<bool>, f0: seq<nat>, f: seq<nat>, s: Pos, x: nat, z: nat) returns (q: int)
    requires ScanState(block, ss, done, f0, f, s) && !More(s, ss, true) && !More(s, ss, false)
    requires x < |block| && z < |block| && block[x] == ss && block[z] != ss
    ensures Scanned(block, ss, s, q) && 0 <= q < |f| && f[q] == x
    decreases Distance(|block|, x, z)
  {
    RoomAt(block, ss, done, s, ss);
    BucketPlaces(block, ss, ss);
    var y := Next(|block|, x);
    if block[y] == ss {
      var q' := Covered(block, ss, done, f0, f, s, y, z);
      assert HasCopy(block, ss, done, f, s, q');
      q := s.dst[q'];
      assert CopyAt(block, ss, f, s, ss, q);
    } else {
      q := PermHas(f0, |block|, x);
      InSmallAt(block, f0, q);
      var c := Pairs(block)[x];
      OneBucket(block, c, PairOf(ss, 0), q);
      OneBucket(block, c, PairOf(ss + 1, 0), q);
      OneBucket(block, c, PairOf(ss, ss), q);
      OneBucket(block, c, PairOf(ss, ss) + 1, q);
      StartMonotone(block, PairOf(ss, 0), c);
      StartMonotone(block, c + 1, PairOf(ss + 1, 0));
      OuterPlace(block, ss, f0, f, s, q);
    }
  }

  /** The two scans meet: every place of an unfinished bucket [t, ss] has been copied to. */
  lemma ScansMeet(block: seq<byte>, ss: nat, done: seq<bool>, f0: seq<nat>, f: seq<nat>, s: Pos, t: nat, z: nat)
    requires ScanState(block, ss, done, f0, f, s) && !More(s, ss, true) && !More(s, ss, false)
    requires t < 256 && !done[t] && z < |block| && block[z] != ss
    ensures |s.cs| == |s.ce| == 256 && s.cs[t] == s.ce[t] + 1
  {
    hide *;
    StateParts(block, ss, done, f0, f, s);
    RoomAt(block, ss, done, s, t);
    PlacesAre(block, ss, t);
    if s.cs[t] <= s.ce[t] {
      var list := CopiesListed(block, ss, done, f0, f, s, t);
      var y := SomeMissing(block, list, PairOf(t, ss));
      PairRead(block, y, t, ss);
      var q := Covered(block, ss, done, f0, f, s, Next(|block|, y), z);
      CopyMade(block, ss, done, f, s, q, y, t);
    }
  }

  lemma PairRead(block: seq<byte>, y: nat, t: nat, ss: nat)
    requires y < |block| && ss < 256 && Pairs(block)[y] == PairOf(t, ss)
    ensures block[y] == t && block[Next(|block|, y)] == ss && Before(Next(|block|, y), |block|) == y
  {
  }

  lemma CopyMade(block: seq<byte>, ss: nat, done: seq<bool>, f: seq<nat>, s: Pos, q: int, y: nat, t: nat)
    requires Bounds(block, ss, done, s) && AllHaveCopies(block, ss, done, f, s) && CopiesRight(block, ss, done, f, s)
    requires Scanned(block, ss, s, q) && 0 <= q < |f| && f[q] < |block| && Before(f[q], |block|) == y && block[y] == t
    requires t < 256 && |done| == 256 && !done[t]
    ensures exists p :: Copied(block, ss, s, t, p) && 0 <= p < |f| && f[p] == y
  {
    assert HasCopy(block, ss, done, f, s, q);
    assert CopyAt(block, ss, f, s, t, s.dst[q]);
  }

  /** What step 2 achieves: all unfinished buckets [t, ss] are sorted, everything else is as it was. */
  ghost predicate Synthesised(block: seq<byte>, ss: nat, done: seq<bool>, f0: seq<nat>, f: seq<nat>) {
    && InSmall(block, f0) && InSmall(block, f) && |done| == 256
    && (forall t :: 0 <= t < 256 && !done[t] ==> SortedBy(f, Order(block), Lo(block, ss, t), Hi(block, ss, t)))
    && forall p :: 0 <= p < |block| ==>
         var c := Pairs(block)[f0[p]];
         (c % 256 != ss || done[c / 256] ==> f[p] == f0[p])
  }

  /** A block with more than one character. */
  lemma ScanEnds(block: seq<byte>, ss: nat, done: seq<bool>, f0: seq<nat>, f: seq<nat>, s: Pos, z: nat)
    requires ScanState(block, ss, done, f0, f, s) && !More(s, ss, true) && !More(s, ss, false)
    requires z < |block| && block[z] != ss
    ensures Synthesised(block, ss, done, f0, f)
    ensures |s.cs| == |s.ce| == 256 && s.cs[ss] == s.ce[ss] + 1
  {
    StateParts(block, ss, done, f0, f, s);
    RoomAt(block, ss, done, s, ss);
    hide *;
    ScansMeet(block, ss, done, f0, f, s, ss, z);
    forall t | 0 <= t < 256 && !done[t]
      ensures SortedBy(f, Order(block), Lo(block, ss, t), Hi(block, ss, t))
    {
      ScansMeet(block, ss, done, f0, f, s, t, z);
      CopiesSorted(block, ss, done, f0, f, s, t);
    }
    forall p | 0 <= p < |block|
      ensures p < |f0| && f0[p] < |block| && p < |f| && f[p] < |block| && Pairs(block)[f[p]] == Pairs(block)[f0[p]]
      ensures Pairs(block)[f0[p]] % 256 != ss || done[Pairs(block)[f0[p]] / 256] ==> f[p] == f0[p]
    {
      EndPlace(block, ss, done, f0, f, s, p, z);
    }
    forall p, q | 0 <= p < q < |block|
      ensures f[p] != f[q]
    {
      if Pairs(block)[f[p]] == Pairs(block)[f[q]] { EndDistinct(block, ss, done, f0, f, s, p, q, z); }
    }
    EndSmall(block, f0, f);
    EndAll(block, ss, done, f0, f);
  }

  lemma EndAll(block: seq<byte>, ss: nat, done: seq<bool>, f0: seq<nat>, f: seq<nat>)
    requires InSmall(block, f0) && InSmall(block, f) && |done| == 256
    requires forall t :: 0 <= t < 256 && !done[t] ==> SortedBy(f, Order(block), Lo(block, ss, t), Hi(block, ss, t))
    requires forall p :: 0 <= p < |block| ==> (Pairs(block)[f0[p]] % 256 != ss || done[Pairs(block)[f0[p]] / 256] ==> f[p] == f0[p])
    ensures Synthesised(block, ss, done, f0, f)
  {
  }

  lemma CopiesSorted(block: seq<byte>, ss: nat, done: seq<bool>, f0: seq<nat>, f: seq<nat>, s: Pos, t: nat)
    requires ScanState(block, ss, done, f0, f, s) && t < 256 && !done[t] && s.cs[t] == s.ce[t] + 1
    ensures SortedBy(f, Order(block), Lo(block, ss, t), Hi(block, ss, t))
  {
    RoomAt(block, ss, done, s, t);
    assert |f| == |block| && forall p :: 0 <= p < |f| ==> f[p] < |block|;
    forall p, q | Lo(block, ss, t) <= p <= q < Hi(block, ss, t)
      ensures Order(block)[f[p]] <= Order(block)[f[q]]
    {
      if p < q { CopiesDiffer(block, ss, done, f0, f, s, t, p, q); }
    }
  }

  /** A place ends up with a position of its own small bucket. */
  lemma EndPlace(block: seq<byte>, ss: nat, done: seq<bool>, f0: seq<nat>, f: seq<nat>, s: Pos, p: int, z: nat)
    requires ScanState(block, ss, done, f0, f, s) && !More(s, ss, true) && !More(s, ss, false)
    requires z < |block| && block[z] != ss && 0 <= p < |block|
    ensures |f0| == |f| == |block| && f0[p] < |block| && f[p] < |block| && |done| == 256
    ensures Pairs(block)[f[p]] == Pairs(block)[f0[p]]
    ensures Pairs(block)[f0[p]] % 256 != ss || done[Pairs(block)[f0[p]] / 256] ==> f[p] == f0[p]
    ensures Pairs(block)[f0[p]] % 256 == ss && !done[Pairs(block)[f0[p]] / 256] ==> Copied(block, ss, s, Pairs(block)[f0[p]] / 256, p)
  {
    InSmallAt(block, f0, p);
    assert AsBefore(block, ss, f0, f, s, p);
    var c := Pairs(block)[f0[p]];
    var t := c / 256;
    RoomAt(block, ss, done, s, t);
    if c % 256 == ss {
      assert c == PairOf(t, ss);
      if !done[t] {
        ScansMeet(block, ss, done, f0, f, s, t, z);
        CopyPair(block, ss, done, f, s, t, p);
      }
    }
  }

  lemma EndDistinct(block: seq<byte>, ss: nat, done: seq<bool>, f0: seq<nat>, f: seq<nat>, s: Pos, p: int, q: int, z: nat)
    requires ScanState(block, ss, done, f0, f, s) && !More(s, ss, true) && !More(s, ss, false)
    requires z < |block| && block[z] != ss && 0 <= p < q < |block| == |f| && f[p] < |block| && f[q] < |block|
    requires Pairs(block)[f[p]] == Pairs(block)[f[q]]
    ensures f[p] != f[q]
  {
    assert IsPerm(f0, |block|);
    hide *;
    EndPlace(block, ss, done, f0, f, s, p, z);
    EndPlace(block, ss, done, f0, f, s, q, z);
    PermApart(f0, |block|, p, q);
    var c := Pairs(block)[f0[p]];
    if c % 256 == ss && !done[c / 256] {
      CopiesDiffer(block, ss, done, f0, f, s, c / 256, p, q);
    }
  }

  lemma PermApart(f: seq<nat>, n: nat, p: int, q: int)
    requires IsPerm(f, n) && 0 <= p < q < n
    ensures |f| == n && f[p] != f[q]
  {
  }

  lemma EndSmall(block: seq<byte>, f0: seq<nat>, f: seq<nat>)
    requires InSmall(block, f0) && |f0| == |f| == |block|
    requires forall p :: 0 <= p < |block| ==> f0[p] < |block| && f[p] < |block| && Pairs(block)[f[p]] == Pairs(block)[f0[p]]
    requires forall p, q :: 0 <= p < q < |block| ==> f[p] != f[q]
    ensures InSmall(block, f)
  {
    hide Start, Pairs;
    forall p | 0 <= p < |block|
      ensures Start(block, Pairs(block)[f[p]]) <= p < Start(block, Pairs(block)[f[p]] + 1)
    {
      InSmallAt(block, f0, p);
    }
  }

  // A block made of one character.

  ghost predicate Uniform(block: seq<byte>, ss: nat) {
    forall z :: 0 <= z < |block| ==> block[z] == ss
  }

  lemma UniformScan(block: seq<byte>, ss: nat, s: Pos)
    requires Uniform(block, ss) && AtStart(block, ss, s)
    ensures !More(s, ss, true) && !More(s, ss, false) && s.cs[ss] == 0 && s.ce[ss] == |block| - 1
  {
    NoneBelow(Pairs(block), PairOf(ss, ss));
    NoneBelow(Pairs(block), PairOf(ss, 0));
    AllBelow(Pairs(block), PairOf(ss, ss) + 1);
    AllBelow(Pairs(block), PairOf(ss + 1, 0));
  }

  lemma UniformSorted(block: seq<byte>, ss: nat, f: seq<nat>, lo: int, hi: int)
    requires Uniform(block, ss) && InSmall(block, f) && 0 <= lo <= hi <= |block|
    ensures SortedBy(f, Order(block), lo, hi)
  {
    hide Order, LexLe;
    forall p, q | lo <= p <= q < hi
      ensures Order(block)[f[p]] <= Order(block)[f[q]]
    {
      assert Rot(block, f[p]) == Rot(block, f[q]);
      LexReflexive(Rot(block, f[p]));
      OrderIsLex(block, f[p], f[q]);
    }
  }

  lemma UniformEnds(block: seq<byte>, ss: nat, done: seq<bool>, f: seq<nat>)
    requires Uniform(block, ss) && InSmall(block, f) && |done| == 256 && ss < 256
    ensures Synthesised(block, ss, done, f, f)
  {
    hide Uniform, InSmall, Order, Lo, Hi;
    forall t | 0 <= t < 256 && !done[t]
      ensures SortedBy(f, Order(block), Lo(block, ss, t), Hi(block, ss, t))
    {
      BucketPlaces(block, ss, t);
      UniformSorted(block, ss, f, Lo(block, ss, t), Hi(block, ss, t));
    }
    InSmallSize(block, f);
  }

  lemma InSmallSize(block: seq<byte>, f: seq<nat>)
    requires InSmall(block, f)
    ensures |f| == |block| && forall p :: 0 <= p < |f| ==> f[p] < |block|
  {
  }

  // The scans.

  ghost predicate ArraysHold(s: Pos, copyStart: seq<int>, copyEnd: seq<int>) {
    s.cs == copyStart && s.ce == copyEnd
  }

  /** One place is scanned: ptr[copyStart[c1]++] = k or ptr[copyEnd[c1]--] = k, unless big bucket c1 was done. */
  method ScanOne(ptr: array<nat>, ext: array<byte>, bigDone: array<bool>, copyStart: array<int>, copyEnd: array<int>,
                 nblock: nat, ss: nat, left: bool, j: int, ghost block: seq<byte>, ghost f0: seq<nat>, ghost s: Pos)
    returns (ghost u: Pos)
    requires nblock == |block| && nblock <= ext.Length && ext[..nblock] == block && ptr as object != ext && ptr as object != bigDone
    requires ptr as object != copyStart && ptr as object != copyEnd && copyStart != copyEnd
    requires copyStart as object != bigDone && copyEnd as object != bigDone
    requires ScanState(block, ss, bigDone[..], f0, ptr[..], s) && More(s, ss, left) && j == At(s, left)
    requires ArraysHold(s, copyStart[..], copyEnd[..])
    modifies ptr, copyStart, copyEnd
    ensures ScanState(block, ss, bigDone[..], f0, ptr[..], u) && ArraysHold(u, copyStart[..], copyEnd[..])
    ensures At(u, left) == (if left then j + 1 else j - 1) && At(u, !left) == At(s, !left)
    ensures if left then copyEnd[..] == old(copyEnd[..]) else copyStart[..] == old(copyStart[..])
  {
    hide *;
    ghost var f, done := ptr[..], bigDone[..];
    Step(block, ss, done, f0, f, s, left);
    StepParts(block, ss, done, f0, f, s, left, copyStart[..], copyEnd[..]);
    var k := ptr[j] as int - 1;
    if k < 0 { k := k + nblock; }
    BeforeIs(f[j], nblock);
    var c1 := ext[k];
    assert c1 == block[k];
    if bigDone[c1] {
      SkipStep(block, ss, done, f0, f, s, left);
      u := Skip(s, left);
      SkipAt(s, left);
    } else {
      PuttingFrom(block, ss, done, f0, f, s, left, c1);
      PutStep(block, ss, done, f0, f, s, left, c1);
      u := Put(s, left, c1);
      PutAt(s, left, c1);
      if left {
        ptr[copyStart[c1]] := k;
        copyStart[c1] := copyStart[c1] + 1;
        assert copyStart[..] == s.cs[c1 := s.cs[c1] + 1];
      } else {
        ptr[copyEnd[c1]] := k;
        copyEnd[c1] := copyEnd[c1] - 1;
        assert copyEnd[..] == s.ce[c1 := s.ce[c1] - 1];
      }
      assert ptr[..] == f[Target(s, left, c1) := Before(f[j], nblock)];
    }
  }

  lemma StepParts(block: seq<byte>, ss: nat, done: seq<bool>, f0: seq<nat>, f: seq<nat>, s: Pos, left: bool,
                  copyStart: seq<int>, copyEnd: seq<int>)
    requires Stepping(block, ss, done, f0, f, s, left) && ArraysHold(s, copyStart, copyEnd)
    ensures 0 <= At(s, left) < |f| == |block| && f[At(s, left)] < |block|
    ensures |done| == 256 && s.cs == copyStart && s.ce == copyEnd && |s.cs| == |s.ce| == 256 && |s.src| == |s.dst| == |block|
  {
  }

  lemma BeforeIs(p: nat, n: nat)
    requires p < n
    ensures Before(p, n) == if p == 0 then n - 1 else p - 1
  {
  }

  lemma SkipAt(s: Pos, left: bool)
    ensures At(Skip(s, left), left) == (if left then At(s, left) + 1 else At(s, left) - 1)
    ensures At(Skip(s, left), !left) == At(s, !left) && Skip(s, left).cs == s.cs && Skip(s, left).ce == s.ce
    ensures ArraysHold(Skip(s, left), s.cs, s.ce)
  {
  }

  lemma PutAt(s: Pos, left: bool, t: nat)
    requires t < |s.cs| && t < |s.ce| && 0 <= At(s, left) < |s.dst| && 0 <= Target(s, left, t) < |s.src|
    ensures var u := Put(s, left, t);
      && At(u, left) == (if left then At(s, left) + 1 else At(s, left) - 1) && At(u, !left) == At(s, !left)
      && Target(s, left, t) == (if left then s.cs[t] else s.ce[t])
      && ArraysHold(u, if left then s.cs[t := s.cs[t] + 1] else s.cs, if left then s.ce else s.ce[t := s.ce[t] - 1])
  {
  }

  lemma PuttingFrom(block: seq<byte>, ss: nat, done: seq<bool>, f0: seq<nat>, f: seq<nat>, s: Pos, left: bool, t: nat)
    requires Stepping(block, ss, done, f0, f, s, left) && Ready(block, ss, s, At(s, left)) && !Scanned(block, ss, s, At(s, left))
    requires block[f[At(s, left)]] == ss && t == block[Before(f[At(s, left)], |block|)] && !done[t] && s.cs[t] <= s.ce[t]
    ensures Putting(block, ss, done, f0, f, s, left, t)
  {
  }

  lemma MoreIs(block: seq<byte>, ss: nat, done: seq<bool>, f0: seq<nat>, f: seq<nat>, s: Pos, copyStart: seq<int>, copyEnd: seq<int>)
    requires ScanState(block, ss, done, f0, f, s) && ArraysHold(s, copyStart, copyEnd)
    ensures ss < 256 && |copyStart| == |copyEnd| == 256 && (More(s, ss, true) <==> At(s, true) < copyStart[ss])
    ensures More(s, ss, false) <==> At(s, false) > copyEnd[ss]
    ensures At(s, true) <= copyStart[ss] <= |block| && -1 <= copyEnd[ss] <= At(s, false)
  {
    RoomAt(block, ss, done, s, ss);
  }

  lemma SomeOther(block: seq<byte>, ss: nat) returns (z: nat)
    requires !Uniform(block, ss)
    ensures z < |block| && block[z] != ss
  {
    z :| 0 <= z < |block| && block[z] != ss;
  }

  /**
   Step 2. The scans end, and they meet: in [ss, ss] exactly, unless the block is one repeated character, in which case
   nothing is copied and nothing needs to be (assertion 1007).
   */
  method Synthesise(ptr: array<nat>, ext: array<byte>, bigDone: array<bool>, copyStart: array<int>, copyEnd: array<int>,
                    nblock: nat, ss: nat, first: int, last: int, ghost block: seq<byte>, ghost s0: Pos)
    requires nblock == |block| && nblock <= ext.Length && ext[..nblock] == block && ptr as object != ext && ptr as object != bigDone
    requires ptr as object != copyStart && ptr as object != copyEnd && copyStart != copyEnd
    requires copyStart as object != bigDone && copyEnd as object != bigDone
    requires ScanState(block, ss, bigDone[..], ptr[..], ptr[..], s0) && AtStart(block, ss, s0)
    requires ArraysHold(s0, copyStart[..], copyEnd[..]) && first == At(s0, true) && last == At(s0, false)
    modifies ptr, copyStart, copyEnd
    ensures Synthesised(block, ss, bigDone[..], old(ptr[..]), ptr[..])
    ensures ss < copyStart.Length && ss < copyEnd.Length
    ensures copyStart[ss] - 1 == copyEnd[ss] || (copyStart[ss] == 0 && copyEnd[ss] == nblock - 1)
  {
    hide *;
    ghost var f0, done, s := ptr[..], bigDone[..], s0;
    StateParts(block, ss, done, f0, f0, s);
    MoreIs(block, ss, done, f0, ptr[..], s, copyStart[..], copyEnd[..]);
    ghost var uniform := Uniform(block, ss);
    if uniform { UniformScan(block, ss, s0); }
    var j := first;
    while j < copyStart[ss]
      invariant bigDone[..] == done && ss < copyStart.Length == copyEnd.Length == 256
      invariant ScanState(block, ss, done, f0, ptr[..], s) && ArraysHold(s, copyStart[..], copyEnd[..])
      invariant j == At(s, true) && last == At(s, false) && copyStart[ss] <= nblock
      invariant uniform ==> s == s0 && ptr[..] == f0
      decreases nblock - j
    {
      MoreIs(block, ss, done, f0, ptr[..], s, copyStart[..], copyEnd[..]);
      s := ScanOne(ptr, ext, bigDone, copyStart, copyEnd, nblock, ss, true, j, block, f0, s);
      MoreIs(block, ss, done, f0, ptr[..], s, copyStart[..], copyEnd[..]);
      j := j + 1;
    }
    MoreIs(block, ss, done, f0, ptr[..], s, copyStart[..], copyEnd[..]);
    ghost var left := j;
    j := last;
    while j > copyEnd[ss]
      invariant bigDone[..] == done && ss < copyStart.Length == copyEnd.Length == 256
      invariant ScanState(block, ss, done, f0, ptr[..], s) && ArraysHold(s, copyStart[..], copyEnd[..])
      invariant j == At(s, false) && left == At(s, true) && left >= copyStart[ss] && -1 <= copyEnd[ss]
      invariant uniform ==> s == s0 && ptr[..] == f0
      decreases j
    {
      MoreIs(block, ss, done, f0, ptr[..], s, copyStart[..], copyEnd[..]);
      s := ScanOne(ptr, ext, bigDone, copyStart, copyEnd, nblock, ss, false, j, block, f0, s);
      MoreIs(block, ss, done, f0, ptr[..], s, copyStart[..], copyEnd[..]);
      j := j - 1;
    }
    MoreIs(block, ss, done, f0, ptr[..], s, copyStart[..], copyEnd[..]);
    HoldsAt(s, copyStart[..], copyEnd[..], ss);
    if uniform {
      UniformEnds(block, ss, done, f0);
    } else {
      ghost var z := SomeOther(block, ss);
      ScanEnds(block, ss, done, f0, ptr[..], s, z);
    }
  }

  lemma HoldsAt(s: Pos, copyStart: seq<int>, copyEnd: seq<int>, ss: nat)
    requires ArraysHold(s, copyStart, copyEnd) && ss < |copyStart| && ss < |copyEnd|
    ensures ss < |s.cs| && ss < |s.ce| && s.cs[ss] == copyStart[ss] && s.ce[ss] == copyEnd[ss]
  {
  }
}
