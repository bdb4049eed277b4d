/**
 The SMALL inverse transform (dep/bzip2/decompress.c, dep/bzip2/bzlib.c, dep/bzip2/bzlib_private.h):
 positions of 20 bits packed into a 16-bit and a nibble array, T turned into
 its inverse along one cycle by pointer reversal, and the first column found by
 binary search.
 */
module InverseBwtSmall {
  import opened Bits
  import opened CountingOrder
  import opened Rotations
  import opened InverseBwt

  // Nibble packing.

  /** GET_LL4. */
  function GetLL4(ll4: seq<byte>, i: nat): (v: nat)
    requires i / 2 < |ll4|
    ensures v < 16
  {
    if i % 2 == 0 then ll4[i / 2] % 16 else ll4[i / 2] / 16
  }

  /** SET_LL4: one half of the byte is replaced. */
  function SetLL4(ll4: seq<byte>, i: nat, v: nat): (s: seq<byte>)
    requires i / 2 < |ll4| && v < 16
    ensures |s| == |ll4|
  {
    if i % 2 == 0 then ll4[i / 2 := ll4[i / 2] / 16 * 16 + v]
    else ll4[i / 2 := ll4[i / 2] % 16 + 16 * v]
  }

  /** GET_LL. */
  function GetLL(ll16: seq<nat>, ll4: seq<byte>, i: nat): nat
    requires i < |ll16| && i / 2 < |ll4|
  {
    ll16[i] + 0x1_0000 * GetLL4(ll4, i)
  }

  lemma SetLL4Get(ll4: seq<byte>, i: nat, v: nat, j: nat)
    requires i / 2 < |ll4| && j / 2 < |ll4| && v < 16
    ensures GetLL4(SetLL4(ll4, i, v), j) == if j == i then v else GetLL4(ll4, j)
  {
  }

  /** What SET_LL stores comes back from GET_LL, and all other entries stay. */
  lemma SetLLGet(ll16: seq<nat>, ll4: seq<byte>, i: nat, n: nat, j: nat)
    requires i < |ll16| && i / 2 < |ll4| && j < |ll16| && j / 2 < |ll4| && n < 0x10_0000
    ensures n / 0x1_0000 < 16
    ensures GetLL(ll16[i := n % 0x1_0000], SetLL4(ll4, i, n / 0x1_0000), j) == if j == i then n else GetLL(ll16, ll4, j)
  {
    SetLL4Get(ll4, i, n / 0x1_0000, j);
  }

  /** The positions stored for the first n entries. */
  ghost function Stored(ll16: seq<nat>, ll4: seq<byte>, n: nat): (p: seq<nat>)
    requires n <= |ll16| && (n + 1) / 2 <= |ll4|
    ensures |p| == n && forall i :: 0 <= i < n ==> p[i] == GetLL(ll16, ll4, i)
  {
    seq(n, i requires 0 <= i < n => GetLL(ll16, ll4, i))
  }

  /** SET_LL, on the arrays. */
  method SetLL(ll16: array<nat>, ll4: array<byte>, i: nat, v: nat, ghost n: nat)
    requires i < n <= ll16.Length && (n + 1) / 2 <= ll4.Length && v < 0x10_0000
    modifies ll16, ll4
    ensures Stored(ll16[..], ll4[..], n) == old(Stored(ll16[..], ll4[..], n))[i := v]
    ensures forall k :: 0 <= k < ll16.Length && k != i ==> ll16[k] == old(ll16[k])
  {
    ghost var s16, s4 := ll16[..], ll4[..];
    var low: nat, nib: nat := v % 0x1_0000, v / 0x1_0000;
    ll16[i] := low;
    if i % 2 == 0 {
      ll4[i / 2] := ll4[i / 2] / 16 * 16 + nib;
    } else {
      ll4[i / 2] := ll4[i / 2] % 16 + 16 * nib;
    }
    assert ll16[..] == s16[i := low] && ll4[..] == SetLL4(s4, i, nib);
    forall j | 0 <= j < n
      ensures GetLL(ll16[..], ll4[..], j) == if j == i then v else GetLL(s16, s4, j)
    {
      SetLLGet(s16, s4, i, v, j);
    }
  }

  // T, and its inverse along a cycle.

  /** T: every position of the last column is sent to its place in the first. */
  ghost function T(l: seq<byte>): (t: seq<nat>)
    ensures |t| == |l| && forall i :: 0 <= i < |l| ==> t[i] == SortedPlace(l, i) && t[i] < |l|
  {
    seq(|l|, i requires 0 <= i < |l| => PlaceOf(l, i))
  }

  ghost function PlaceOf(l: seq<byte>, i: nat): (r: nat)
    requires i < |l|
    ensures r == SortedPlace(l, i) && r < |l|
  {
    PlaceInRange(l, i);
    SortedPlace(l, i)
  }

  /** The T vector is computed in place: cell i is read as a byte and then overwritten. */
  method ComputeT(ll16: array<nat>, ll4: array<byte>, cftabCopy: array<int>, nblock: nat, ghost l: seq<byte>)
    requires ll16 as object != cftabCopy && ll4 as object != cftabCopy && ll16 as object != ll4
    requires nblock == |l| && nblock <= ll16.Length && (nblock + 1) / 2 <= ll4.Length && nblock <= 0x10_0000
    requires forall r :: 0 <= r < nblock ==> ll16[r] == l[r]
    requires Cumulative(l, cftabCopy[..])
    modifies ll16, ll4, cftabCopy
    ensures Stored(ll16[..], ll4[..], nblock) == T(l)
  {
    AdvancedStart(l, cftabCopy[..]);
    var i := 0;
    while i < nblock
      invariant 0 <= i <= nblock && cftabCopy.Length == 257
      invariant Advanced(l, cftabCopy[..], i)
      invariant forall r :: i <= r < nblock ==> ll16[r] == l[r]
      invariant forall r :: 0 <= r < i ==> Stored(ll16[..], ll4[..], nblock)[r] == T(l)[r]
    {
      AdvancedStep(l, cftabCopy[..], i);
      var uc := ll16[i] % 256;
      SetLL(ll16, ll4, i, cftabCopy[uc], nblock);
      cftabCopy[uc] := cftabCopy[uc] + 1;
      i := i + 1;
    }
  }

  /** path follows T from start; its members are distinct positions. */
  ghost predicate Path(t: seq<nat>, path: seq<nat>, start: nat) {
    && path != [] && path[0] == start
    && (forall k :: 0 <= k < |path| ==> path[k] < |t|)
    && (forall k :: 0 < k < |path| ==> path[k] == t[path[k - 1]])
    && (forall j, k :: 0 <= j < k < |path| ==> path[j] != path[k])
  }

  /** The stored vector: reversed on the path without its start, T everywhere else. */
  ghost predicate Reversed(t: seq<nat>, path: seq<nat>, stored: seq<nat>)
    requires path != [] && forall k :: 0 <= k < |path| ==> path[k] < |t|
  {
    && |stored| == |t|
    && (forall k :: 0 < k < |path| ==> stored[path[k]] == path[k - 1])
    && (forall x :: 0 <= x < |t| && x !in path[1..] ==> stored[x] == t[x])
  }

  ghost predicate Injective(t: seq<nat>) {
    forall i, j :: 0 <= i < |t| && 0 <= j < |t| && t[i] == t[j] ==> i == j
  }

  lemma {:induction false} Pigeonhole(s: seq<nat>, n: nat)
    requires forall k :: 0 <= k < |s| ==> s[k] < n
    requires forall j, k :: 0 <= j < k < |s| ==> s[j] != s[k]
    ensures |s| <= n
  {
    if s != [] {
      assert s[0] < n;
      if n - 1 in s {
        var i :| 0 <= i < |s| && s[i] == n - 1;
        var rest := s[..i] + s[i + 1..];
        assert forall k :: 0 <= k < |rest| ==> rest[k] == if k < i then s[k] else s[k + 1];
        Pigeonhole(rest, n - 1);
      } else {
        Pigeonhole(s, n - 1);
      }
    }
  }

  lemma ReverseStep(t: seq<nat>, path: seq<nat>, start: nat, stored: seq<nat>)
    requires Injective(t) && Path(t, path, start) && Reversed(t, path, stored)
    requires forall k :: 0 <= k < |t| ==> t[k] < |t|
    ensures var i := path[|path| - 1];
            var j := t[i];
            && stored[j] == t[j]
            && (j != start ==> Path(t, path + [j], start) && Reversed(t, path + [j], stored[j := i]))
  {
    var last := |path| - 1;
    var i := path[last];
    var j := t[i];
    assert t[path[last]] == j;
    forall m | 0 < m < |path|
      ensures path[m] != j
    {
      assert path[m] == t[path[m - 1]];
    }
    assert j !in path[1..];
    if j != start {
      ReverseLonger(t, path, start, stored, j);
    }
  }

  lemma ReverseLonger(t: seq<nat>, path: seq<nat>, start: nat, stored: seq<nat>, j: nat)
    requires Path(t, path, start) && Reversed(t, path, stored)
    requires j == t[path[|path| - 1]] && j < |t| && j != start && j !in path[1..]
    ensures Path(t, path + [j], start) && Reversed(t, path + [j], stored[j := path[|path| - 1]])
  {
    var p := path + [j];
    assert p[1..] == path[1..] + [j];
    assert forall k :: 0 < k < |path| ==> path[1..][k - 1] == path[k];
  }

  /** On the cycle, which the walk never leaves, the stored vector is the inverse of T. */
  ghost predicate Inverted(t: seq<nat>, stored: seq<nat>, cycle: set<nat>) {
    |stored| == |t| && forall x :: x in cycle ==> x < |t| && stored[x] in cycle && stored[x] < |t| && t[stored[x]] == x
  }

  lemma CycleClosed(t: seq<nat>, path: seq<nat>, start: nat, stored: seq<nat>)
    requires Path(t, path, start) && start < |stored| && Reversed(t, path, stored[start := t[start]])
    requires t[path[|path| - 1]] == start && stored[start] == path[|path| - 1]
    ensures Inverted(t, stored, set x | x in path)
  {
    forall k | 0 <= k < |path|
      ensures path[k] < |stored| && stored[path[k]] in path && t[stored[path[k]]] == path[k]
    {
      if k > 0 { PathBack(t, path, start, stored, k); }
    }
    hide Path, Reversed;
  }

  lemma PathBack(t: seq<nat>, path: seq<nat>, start: nat, stored: seq<nat>, k: nat)
    requires Path(t, path, start) && start < |stored| && Reversed(t, path, stored[start := t[start]]) && 0 < k < |path|
    ensures path[k] < |stored| && stored[path[k]] == path[k - 1] && t[path[k - 1]] == path[k]
  {
    assert stored[start := t[start]][path[k]] == path[k - 1];
    assert path[0] != path[k];
  }

  /** Pointer reversal along the cycle of origPtr. */
  method ReversePointers(ll16: array<nat>, ll4: array<byte>, nblock: nat, origPtr: nat, ghost t: seq<nat>)
    returns (ghost cycle: set<nat>)
    requires ll16 as object != ll4 && origPtr < nblock <= 0x10_0000
    requires nblock <= ll16.Length && (nblock + 1) / 2 <= ll4.Length
    requires |t| == nblock && Injective(t) && forall k :: 0 <= k < |t| ==> t[k] < |t|
    requires Stored(ll16[..], ll4[..], nblock) == t
    modifies ll16, ll4
    ensures origPtr in cycle && Inverted(t, Stored(ll16[..], ll4[..], nblock), cycle)
  {
    var i := origPtr;
    var j := GetLL(ll16[..], ll4[..], i);
    ghost var path: seq<nat> := [origPtr];
    while true
      invariant i < nblock && j < nblock && Path(t, path, origPtr) && i == path[|path| - 1] && j == t[i]
      invariant Reversed(t, path, Stored(ll16[..], ll4[..], nblock))
      decreases nblock - |path|
    {
      ghost var stored := Stored(ll16[..], ll4[..], nblock);
      ReverseStep(t, path, origPtr, stored);
      var tmp := GetLL(ll16[..], ll4[..], j);
      SetLL(ll16, ll4, j, i, nblock);
      if j == origPtr {
        assert Stored(ll16[..], ll4[..], nblock)[origPtr := t[origPtr]] == stored;
        CycleClosed(t, path, origPtr, Stored(ll16[..], ll4[..], nblock));
        cycle := set x | x in path;
        return;
      }
      path := path + [j];
      Pigeonhole(path, nblock);
      i, j := j, tmp;
    }
  }

  // The first column, by binary search.

  /** BZ2_indexIntoF: the byte whose block in the first column contains position indx. */
  method IndexIntoF(indx: nat, cftab: array<int>, ghost l: seq<byte>) returns (nb: byte)
    requires Cumulative(l, cftab[..]) && indx < |l|
    ensures CountBelow(l, nb) <= indx < CountBelow(l, nb + 1)
  {
    nb := 0;
    var na := 256;
    NoneBelow(l, 0);
    AllBelow(l, 256);
    while na - nb != 1
      invariant 0 <= nb < na <= 256
      invariant CountBelow(l, nb) <= indx < CountBelow(l, na)
      decreases na - nb
    {
      var mid := (nb + na) / 2;
      if indx >= cftab[mid] { nb := mid; } else { na := mid; }
    }
  }

  /** The byte found is the one the walk meets from this position. */
  lemma IndexIntoFFinds(l: seq<byte>, r: nat, nb: nat, p: nat)
    requires CountBelow(l, nb) <= r < CountBelow(l, nb + 1)
    requires p < |l| && SortedPlace(l, p) == r
    ensures l[p] == nb
  {
    PlaceInRange(l, p);
    var b: nat := l[p];
    if b < nb {
      CountBelowMonotone(l, b + 1, nb);
    } else if b > nb {
      CountBelowMonotone(l, nb + 1, b);
    }
  }

  /** A copy of cftab is used up to compute T, and T is inverted on the cycle of origPtr. */
  method Prepare(ll16: array<nat>, ll4: array<byte>, cftab: array<int>, nblock: nat, origPtr: nat, ghost l: seq<byte>)
    returns (ghost cycle: set<nat>)
    requires ll16 as object != ll4 && ll16 as object != cftab && ll4 as object != cftab
    requires nblock == |l| && nblock <= ll16.Length && (nblock + 1) / 2 <= ll4.Length
    requires origPtr < nblock <= 0x10_0000
    requires forall r :: 0 <= r < nblock ==> ll16[r] == l[r]
    requires Cumulative(l, cftab[..]) && cftab.Length == 257
    modifies ll16, ll4
    ensures origPtr in cycle && Inverted(T(l), Stored(ll16[..], ll4[..], nblock), cycle)
  {
    hide *;
    var cftabCopy := new int[257](i requires 0 <= i < 257 && cftab.Length == 257 reads cftab => cftab[i]);
    assert cftabCopy[..] == cftab[..];
    ComputeT(ll16, ll4, cftabCopy, nblock, l);
    TIsInjective(l);
    cycle := ReversePointers(ll16, ll4, nblock, origPtr, T(l));
  }

  class SmallBwt {
    var ll16: array<nat>
    var ll4: array<byte>
    var cftab: array<int>
    var tPos: nat
    ghost var l: seq<byte>
    ghost var perm: seq<nat>
    ghost var cycle: set<nat>

    ghost predicate Valid()
      reads this, ll16, ll4, cftab
    {
      && ll16 as object != ll4 && |l| <= ll16.Length && (|l| + 1) / 2 <= ll4.Length
      && Permuted(l, perm) && |l| <= |perm| && (forall i :: 0 <= i < |l| ==> perm[i] < |l|)
      && Cumulative(l, cftab[..])
      && tPos in cycle && Inverted(T(l), Stored(ll16[..], ll4[..], |l|), cycle)
    }

    /** The next k bytes of the block. */
    ghost function Coming(k: nat): seq<byte>
      requires Valid()
      reads this, ll16, ll4, cftab
    {
      Walk(l, perm, tPos, k)
    }

    constructor (a16: array<nat>, a4: array<byte>, counts: array<int>, nblock: nat, origPtr: nat,
                 ghost column: seq<byte>, ghost inverse: seq<nat>)
      requires a16 as object != a4 && a16 as object != counts && a4 as object != counts
      requires nblock == |column| && nblock <= a16.Length && (nblock + 1) / 2 <= a4.Length
      requires origPtr < nblock <= 0x10_0000
      requires forall r :: 0 <= r < nblock ==> a16[r] == column[r]
      requires Cumulative(column, counts[..]) && counts.Length == 257
      requires Permuted(column, inverse) && nblock <= |inverse| && forall i :: 0 <= i < nblock ==> inverse[i] < nblock
      modifies a16, a4
      ensures Valid() && l == column && perm == inverse && tPos == origPtr
      ensures ll16 == a16 && ll4 == a4 && cftab == counts
    {
      ll16, ll4, cftab, tPos, l, perm := a16, a4, counts, origPtr, column, inverse;
      new;
      hide Permuted, Inverted, GetLL, T, CountBelow;
      cycle := Prepare(a16, a4, counts, nblock, origPtr, column);
    }

    /** BZ_GET_SMALL. */
    method GetSmall() returns (ch: byte)
      requires Valid()
      modifies this`tPos
      ensures Valid() && [ch] == old(Coming(1))
      ensures forall k: nat :: old(Coming(k + 1)) == [ch] + Coming(k)
    {
      ghost var r := tPos;
      SmallStep(l, perm, Stored(ll16[..], ll4[..], |l|), cycle, r);
      ch := IndexIntoF(tPos, cftab, l);
      IndexIntoFFinds(l, r, ch, perm[r]);
      tPos := GetLL(ll16[..], ll4[..], tPos);
      assert Walk(l, perm, perm[r], 0) == [];
    }
  }

  lemma TIsInjective(l: seq<byte>)
    ensures Injective(T(l))
  {
    forall i, j | 0 <= i < |l| && 0 <= j < |l| && T(l)[i] == T(l)[j]
      ensures i == j
    {
      PlacesDistinct(l, i, j);
    }
  }

  lemma SmallStep(l: seq<byte>, perm: seq<nat>, stored: seq<nat>, cycle: set<nat>, r: nat)
    requires Permuted(l, perm) && Inverted(T(l), stored, cycle) && r in cycle
    ensures r < |l| && r < |perm| && perm[r] == stored[r] < |l| && SortedPlace(l, perm[r]) == r && stored[r] in cycle
  {
    assert T(l)[stored[r]] == r;
  }
}
