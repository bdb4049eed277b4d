/**
 The two ways in which the decompressor undoes the Burrows-Wheeler transform
 (dep/bzip2/decompress.c, dep/bzip2/bzlib.c, dep/bzip2/bzlib_private.h): FAST keeps 32 bits per position
 in tt, SMALL keeps 20 bits split over ll16 and ll4. Both are tied to the walk
 that Rotations proves to give the block back.
 */
module InverseBwt {
  import opened Bits
  import opened CountingOrder
  import opened Rotations

  /** cftab holds, for every byte, how many bytes of the last column are smaller. */
  ghost predicate Cumulative(l: seq<byte>, cftab: seq<int>) {
    |cftab| == 257 && forall c :: 0 <= c <= 256 ==> cftab[c] == CountBelow(l, c)
  }

  /** The state of cftab after the first i positions have been placed. */
  ghost predicate Advanced(l: seq<byte>, cftab: seq<int>, i: nat) {
    |cftab| == 257 && i <= |l| && forall c :: 0 <= c < 256 ==> cftab[c] == CountBelow(l, c) + Count(l[..i], c)
  }

  lemma AdvancedStart(l: seq<byte>, cftab: seq<int>)
    requires Cumulative(l, cftab)
    ensures Advanced(l, cftab, 0)
  {
  }

  lemma AdvancedStep(l: seq<byte>, cftab: seq<int>, i: nat)
    requires Advanced(l, cftab, i) && i < |l|
    ensures cftab[l[i]] == SortedPlace(l, i) && SortedPlace(l, i) < |l|
    ensures Advanced(l, cftab[l[i] := cftab[l[i]] + 1], i + 1)
  {
    PlaceInRange(l, i);
    forall c: nat | c < 256
      ensures Count(l[..i + 1], c) == Count(l[..i], c) + if l[i] == c then 1 else 0
    {
      CountPrefix(l, i, c);
    }
  }

  lemma PlacesDistinct(l: seq<byte>, i: nat, j: nat)
    requires i < |l| && j < |l| && SortedPlace(l, i) == SortedPlace(l, j)
    ensures i == j
  {
    if l[i] < l[j] {
      PlacesApart(l, i, l[j], j);
    } else if l[j] < l[i] {
      PlacesApart(l, j, l[i], i);
    } else {
      SameRank(l, i, j);
    }
  }

  /** There is only one way to list the positions of the last column in sorted order. */
  lemma OneInverse(l: seq<byte>, p: seq<nat>, q: seq<nat>, r: nat)
    requires Permuted(l, p) && Permuted(l, q) && r < |l|
    ensures r < |p| && r < |q| && p[r] == q[r] < |l|
  {
    PermutedInverse(l, p, 256, r);
    PermutedInverse(l, q, 256, r);
    PlacesDistinct(l, p[r], q[r]);
  }

  lemma {:induction false} SameWalk(l: seq<byte>, p: seq<nat>, q: seq<nat>, r: nat, k: nat)
    requires Permuted(l, p) && Permuted(l, q) && r < |l| && |l| <= |p| && |l| <= |q|
    requires forall i :: 0 <= i < |l| ==> p[i] < |l| && q[i] < |l|
    ensures Walk(l, p, r, k) == Walk(l, q, r, k)
    decreases k
  {
    if k > 0 {
      OneInverse(l, p, q, r);
      SameWalk(l, p, q, p[r], k - 1);
    }
  }

  // FAST

  /** After i steps: the low byte of every cell is the last column, the rest links the first i positions. */
  ghost predicate Linked(l: seq<byte>, tt: seq<nat>, i: nat) {
    && |tt| >= |l|
    && (forall r :: 0 <= r < |l| ==> tt[r] % 256 == l[r])
    && (forall k :: 0 <= k < |l| ==>
          SortedPlace(l, k) < |l| && tt[SortedPlace(l, k)] / 256 == if k < i then k else 0)
  }

  lemma LinkedStart(l: seq<byte>, tt: seq<nat>)
    requires |tt| >= |l| && forall r :: 0 <= r < |l| ==> tt[r] == l[r]
    ensures Linked(l, tt, 0)
  {
    forall k | 0 <= k < |l|
      ensures SortedPlace(l, k) < |l|
    {
      PlaceInRange(l, k);
    }
  }

  lemma LowByte(l: seq<byte>, tt: seq<nat>, i: nat)
    requires Linked(l, tt, i) && i < |l|
    ensures i < |tt| && tt[i] % 256 == l[i]
  {
  }

  lemma LinkedStep(l: seq<byte>, tt: seq<nat>, i: nat)
    requires Linked(l, tt, i) && i < |l|
    ensures Linked(l, tt[SortedPlace(l, i) := tt[SortedPlace(l, i)] + 256 * i], i + 1)
  {
    var r := SortedPlace(l, i);
    var tt' := tt[r := tt[r] + 256 * i];
    forall k | 0 <= k < |l|
      ensures SortedPlace(l, k) < |l| && tt'[SortedPlace(l, k)] / 256 == if k < i + 1 then k else 0
    {
      if k != i && SortedPlace(l, k) == r {
        PlacesDistinct(l, k, i);
      }
    }
  }

  lemma LinkedEnd(l: seq<byte>, tt: seq<nat>)
    requires Linked(l, tt, |l|)
    ensures Permuted(l, Links(tt))
    ensures forall r :: 0 <= r < |l| ==> Links(tt)[r] < |l|
  {
    forall r | 0 <= r < |l|
      ensures Links(tt)[r] < |l|
    {
      AllBelow(l, 256);
      var i := PlaceCovered(l, 256, r);
    }
  }

  /** The link parts of the cells of tt. */
  ghost function Links(tt: seq<nat>): (p: seq<nat>)
    ensures |p| == |tt| && forall r :: 0 <= r < |tt| ==> p[r] == tt[r] / 256
  {
    seq(|tt|, r requires 0 <= r < |tt| => tt[r] / 256)
  }

  class FastBwt {
    var tt: array<nat>
    var tPos: nat
    /** The last column and the place the walk has reached. */
    ghost var l: seq<byte>
    ghost var place: nat

    ghost predicate Valid()
      reads this, tt
    {
      && Permuted(l, Links(tt[..])) && |l| <= tt.Length && place < |l|
      && (forall r :: 0 <= r < |l| ==> tt[r] / 256 < |l| && tt[r] % 256 == l[r])
      && tPos == tt[place] / 256
    }

    /** The next k bytes of the block. */
    ghost function Coming(k: nat): seq<byte>
      requires Valid()
      reads this, tt
    {
      Walk(l, Links(tt[..]), place, k)
    }

    /** The T^(-1) vector is built in the upper bytes of the cells that hold the last column. */
    constructor (cells: array<nat>, cftab: array<int>, nblock: nat, origPtr: nat, ghost column: seq<byte>)
      requires nblock == |column| && cells as object != cftab && |column| <= cells.Length && origPtr < |column|
      requires forall r :: 0 <= r < |column| ==> cells[r] == column[r]
      requires Cumulative(column, cftab[..])
      modifies cells, cftab
      ensures Valid() && tt == cells && l == column && place == origPtr
    {
      tt, l, place, tPos := cells, column, origPtr, 0;
      new;
      LinkAll(cells, cftab, nblock, column);
      LinkedEnd(column, cells[..]);
      tPos := cells[origPtr] / 256;
    }

    /** BZ_GET_FAST. */
    method GetFast() returns (ch: byte)
      requires Valid()
      modifies this`tPos, this`place
      ensures Valid() && [ch] == old(Coming(1)) && tt == old(tt)
      ensures forall k: nat :: old(Coming(k + 1)) == [ch] + Coming(k)
    {
      ghost var perm := Links(tt[..]);
      assert perm[place] == tPos && perm[tPos] == tt[tPos] / 256;
      assert Walk(l, perm, perm[place], 0) == [];
      var cell := tt[tPos];
      ch := cell % 256;
      tPos := cell / 256;
      place := perm[place];
    }
  }

  method LinkAll(tt: array<nat>, cftab: array<int>, nblock: nat, ghost l: seq<byte>)
    requires nblock == |l| && tt as object != cftab && |l| <= tt.Length
    requires forall r :: 0 <= r < |l| ==> tt[r] == l[r]
    requires Cumulative(l, cftab[..])
    modifies tt, cftab
    ensures Linked(l, tt[..], |l|)
  {
    hide Linked, Advanced, Cumulative;
    AdvancedStart(l, cftab[..]);
    LinkedStart(l, tt[..]);
    var i := 0;
    while i < nblock
      invariant 0 <= i <= nblock && cftab.Length == 257
      invariant Advanced(l, cftab[..], i) && Linked(l, tt[..], i)
    {
      LowByte(l, tt[..], i);
      AdvancedStep(l, cftab[..], i);
      LinkedStep(l, tt[..], i);
      var uc := tt[i] % 256;
      var at := cftab[uc];
      tt[at] := tt[at] + 256 * i;
      cftab[uc] := cftab[uc] + 1;
      i := i + 1;
    }
  }
}
