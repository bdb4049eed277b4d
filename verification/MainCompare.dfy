/** mainGtU (dep/bzip2/blocksort.c): which of two rotations is greater, helped by what the quadrants remember. */
module MainCompare {
  import opened Bits
  import opened RotationPrefixes
  import opened RotationOrder

  /** A place in the block or in the 34 places of overshoot behind it. */
  function Wrap(n: nat, i: nat): (r: nat)
    requires i < 2 * n
    ensures r < n
  {
    if i < n then i else i - n
  }

  /** ext holds the block, and its first 34 bytes once more behind it. */
  ghost predicate Extended(block: seq<byte>, ext: seq<byte>) {
    && 34 < |block| && |block| + 34 <= |ext|
    && forall i :: 0 <= i < |block| + 34 ==> ext[i] == block[Wrap(|block|, i)]
  }

  /** Among positions with the same character, a smaller quadrant means that the rotation is not greater. */
  ghost predicate Quadrants(block: seq<byte>, quadrant: seq<nat>) {
    && 34 < |block| && |block| + 34 <= |quadrant|
    && (forall i :: |block| <= i < |block| + 34 ==> quadrant[i] == quadrant[i - |block|])
    && forall x, y :: 0 <= x < |block| && 0 <= y < |block| && block[x] == block[y] && quadrant[x] < quadrant[y] ==>
         Order(block)[x] <= Order(block)[y]
  }

  /** c characters of the rotations x and y have been found equal, and the next ones are at i1 and i2. */
  ghost predicate Comparing(block: seq<byte>, x: nat, y: nat, i1: nat, i2: nat, c: nat) {
    && x < |block| && y < |block| && i1 < 2 * |block| && i2 < 2 * |block|
    && Pre(block, x, c) == Pre(block, y, c)
    && Wrap(|block|, i1) == Ahead(|block|, x, c) && Wrap(|block|, i2) == Ahead(|block|, y, c)
  }

  lemma CompareStep(block: seq<byte>, x: nat, y: nat, i1: nat, i2: nat, c: nat)
    requires Comparing(block, x, y, i1, i2, c) && i1 + 1 < 2 * |block| && i2 + 1 < 2 * |block|
    requires block[Wrap(|block|, i1)] == block[Wrap(|block|, i2)]
    ensures Comparing(block, x, y, i1 + 1, i2 + 1, c + 1)
  {
    var n := |block|;
    AheadNext(n, x, c);
    AheadNext(n, y, c);
    PreNext(block, x, c);
    PreNext(block, y, c);
  }

  lemma CompareDiffer(block: seq<byte>, x: nat, y: nat, i1: nat, i2: nat, c: nat)
    requires Comparing(block, x, y, i1, i2, c)
    ensures block[Wrap(|block|, i1)] > block[Wrap(|block|, i2)] ==> Order(block)[y] <= Order(block)[x]
    ensures block[Wrap(|block|, i1)] < block[Wrap(|block|, i2)] ==> Order(block)[x] <= Order(block)[y]
  {
    var n := |block|;
    OrderAhead(block, x, y, c);
    OrderAhead(block, y, x, c);
    OrderNext(block, Ahead(n, x, c), Ahead(n, y, c));
    OrderNext(block, Ahead(n, y, c), Ahead(n, x, c));
  }

  lemma CompareQuadrants(block: seq<byte>, quadrant: seq<nat>, x: nat, y: nat, i1: nat, i2: nat, c: nat)
    requires Comparing(block, x, y, i1, i2, c) && Quadrants(block, quadrant)
    requires block[Wrap(|block|, i1)] == block[Wrap(|block|, i2)] && i1 < |block| + 34 && i2 < |block| + 34
    ensures quadrant[i1] > quadrant[i2] ==> Order(block)[y] <= Order(block)[x]
    ensures quadrant[i1] < quadrant[i2] ==> Order(block)[x] <= Order(block)[y]
  {
    OrderAhead(block, x, y, c);
    OrderAhead(block, y, x, c);
  }

  lemma CompareEnd(block: seq<byte>, x: nat, y: nat, i1: nat, i2: nat, c: nat)
    requires Comparing(block, x, y, i1, i2, c) && c >= |block|
    ensures Order(block)[x] == Order(block)[y]
  {
    AllSame(block, x, y, c);
  }

  lemma CompareStart(block: seq<byte>, i1: nat, i2: nat)
    requires i1 < 2 * |block| && i2 < 2 * |block|
    ensures Comparing(block, Wrap(|block|, i1), Wrap(|block|, i2), i1, i2, 0)
  {
  }

  lemma CompareWrap(block: seq<byte>, x: nat, y: nat, i1: nat, i2: nat, c: nat)
    requires Comparing(block, x, y, i1, i2, c)
    ensures Comparing(block, x, y, Wrap(|block|, i1), Wrap(|block|, i2), c)
  {
  }

  lemma ByteAt(block: seq<byte>, ext: seq<byte>, i: nat)
    requires Extended(block, ext) && i < |block| + 34
    ensures 34 < |block| && |block| + 34 <= |ext| && ext[i] == block[Wrap(|block|, i)]
  {
  }

  lemma QuadrantsSize(block: seq<byte>, quadrant: seq<nat>)
    requires Quadrants(block, quadrant)
    ensures 34 < |block| && |block| + 34 <= |quadrant|
  {
  }

  /** What mainGtU says about the rotations x and y. */
  ghost predicate Says(block: seq<byte>, gt: bool, x: nat, y: nat)
    requires x < |block| && y < |block|
  {
    if gt then Order(block)[y] <= Order(block)[x] else Order(block)[x] <= Order(block)[y]
  }

  lemma SaysIf(block: seq<byte>, gt: bool, x: nat, y: nat)
    requires x < |block| && y < |block|
    requires if gt then Order(block)[y] <= Order(block)[x] else Order(block)[x] <= Order(block)[y]
    ensures Says(block, gt, x, y)
  {
  }

  lemma WrapIs(n: nat, i: nat)
    requires i < 2 * n
    ensures Wrap(n, i) == if i < n then i else i - n
  {
  }

  lemma ComparingParts(block: seq<byte>, x: nat, y: nat, i1: nat, i2: nat, c: nat)
    requires Comparing(block, x, y, i1, i2, c)
    ensures x < |block| && y < |block|
  {
  }

  /** One pair of characters. */
  method CharsDiffer(i1: nat, i2: nat, ext: array<byte>, nblock: nat, ghost block: seq<byte>, ghost x: nat, ghost y: nat, ghost c: nat)
    returns (gt: bool, differ: bool)
    requires nblock == |block| && Extended(block, ext[..]) && Comparing(block, x, y, i1, i2, c)
    requires i1 < nblock + 34 && i2 < nblock + 34
    ensures 34 < nblock && nblock + 34 <= ext.Length && x < nblock && y < nblock
    ensures differ ==> Says(block, gt, x, y)
    ensures !differ ==> block[Wrap(nblock, i1)] == block[Wrap(nblock, i2)] && Comparing(block, x, y, i1 + 1, i2 + 1, c + 1)
  {
    hide *;
    ByteAt(block, ext[..], i1);
    ByteAt(block, ext[..], i2);
    ComparingParts(block, x, y, i1, i2, c);
    CompareDiffer(block, x, y, i1, i2, c);
    var c1, c2 := ext[i1], ext[i2];
    gt, differ := c1 > c2, c1 != c2;
    if differ {
      SaysIf(block, gt, x, y);
    } else {
      CompareStep(block, x, y, i1, i2, c);
    }
  }

  /**
   mainGtU. It compares characters, then characters and quadrants, and never reads beyond the overshoot. Equal
   rotations may be reported either way.
   */
  method GtU(i1start: nat, i2start: nat, ext: array<byte>, quadrant: array<nat>, nblock: nat, budget0: int,
             ghost block: seq<byte>)
    returns (gt: bool, budget: int)
    requires nblock == |block| && Extended(block, ext[..]) && Quadrants(block, quadrant[..])
    requires i1start < nblock + 15 && i2start < nblock + 15
    ensures nblock > 34 && Says(block, gt, Wrap(nblock, i1start), Wrap(nblock, i2start)) && budget <= budget0
  {
    hide *;
    ByteAt(block, ext[..], 0);
    QuadrantsSize(block, quadrant[..]);
    budget := budget0;
    var i1: nat, i2: nat := i1start, i2start;
    ghost var x, y := Wrap(nblock, i1), Wrap(nblock, i2);
    CompareStart(block, i1, i2);
    var j := 0;
    while j < 12
      invariant 0 <= j <= 12 && i1 == i1start + j && i2 == i2start + j && Comparing(block, x, y, i1, i2, j)
    {
      var differ;
      gt, differ := CharsDiffer(i1, i2, ext, nblock, block, x, y, j);
      if differ { return gt, budget; }
      i1, i2, j := i1 + 1, i2 + 1, j + 1;
    }
    var k: int := nblock + 8;
    ghost var c := 12;
    while k >= 0
      invariant i1 < nblock + 27 && i2 < nblock + 27 && c + k == nblock + 20 && c >= 12
      invariant Comparing(block, x, y, i1, i2, c) && budget <= budget0
      decreases k + 8
    {
      j := 0;
      ghost var c0 := c;
      while j < 8
        invariant 0 <= j <= 8 && i1 < nblock + 27 + j && i2 < nblock + 27 + j && c == c0 + j
        invariant Comparing(block, x, y, i1, i2, c)
      {
        var differ;
        gt, differ := CharsDiffer(i1, i2, ext, nblock, block, x, y, c);
        if differ { return gt, budget; }
        CompareQuadrants(block, quadrant[..], x, y, i1, i2, c);
        var s1, s2 := quadrant[i1], quadrant[i2];
        if s1 != s2 {
          gt := s1 > s2;
          SaysIf(block, gt, x, y);
          return gt, budget;
        }
        i1, i2, j := i1 + 1, i2 + 1, j + 1;
        c := c + 1;
      }
      CompareWrap(block, x, y, i1, i2, c);
      WrapIs(nblock, i1);
      WrapIs(nblock, i2);
      if i1 >= nblock { i1 := i1 - nblock; }
      if i2 >= nblock { i2 := i2 - nblock; }
      k := k - 8;
      budget := budget - 1;
    }
    CompareEnd(block, x, y, i1, i2, c);
    SaysIf(block, false, x, y);
    gt := false;
  }
}
