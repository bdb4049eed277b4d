/** Sorting a slice of fmap by equivalence class: fallbackSimpleSort (dep/bzip2/blocksort.c). */
module FallbackSimpleSort {

  /** The slice [lo, hi) of f holds indices of e. */
  ghost predicate Keyed(f: seq<nat>, e: seq<nat>, lo: int, hi: int) {
    0 <= lo <= hi <= |f| && forall i :: lo <= i < hi ==> f[i] < |e|
  }

  /** The slice [lo, hi) of f is in the order of the classes e. */
  ghost predicate SortedBy(f: seq<nat>, e: seq<nat>, lo: int, hi: int) {
    Keyed(f, e, lo, hi) && forall i, j :: lo <= i <= j < hi ==> e[f[i]] <= e[f[j]]
  }

  /** What permuting the slice [lo, hi) leaves alone: the elements before, those in it in any order, those behind. */
  ghost function Parts(f: seq<nat>, lo: int, hi: int): (seq<nat>, multiset<nat>, seq<nat>)
    requires 0 <= lo <= hi <= |f|
  {
    (f[..lo], multiset(f[lo..hi]), f[hi..])
  }

  /** g is f with the slice [lo, hi) permuted. */
  ghost predicate SamePart(f: seq<nat>, g: seq<nat>, lo: int, hi: int) {
    |f| == |g| && 0 <= lo <= hi <= |f| && Parts(f, lo, hi) == Parts(g, lo, hi)
  }

  lemma SamePartOutside(f: seq<nat>, g: seq<nat>, lo: int, hi: int)
    requires SamePart(f, g, lo, hi)
    ensures forall i :: 0 <= i < |f| && !(lo <= i < hi) ==> f[i] == g[i]
  {
    forall i | 0 <= i < |f| && !(lo <= i < hi)
      ensures f[i] == g[i]
    {
      if i < lo {
        assert f[i] == f[..lo][i] && g[i] == g[..lo][i];
      } else {
        assert f[i] == f[hi..][i - hi] && g[i] == g[hi..][i - hi];
      }
    }
  }

  /** Whatever stands in the permuted slice stood there before. */
  lemma SamePartInside(f: seq<nat>, g: seq<nat>, lo: int, hi: int, i: int) returns (j: int)
    requires SamePart(f, g, lo, hi) && lo <= i < hi
    ensures lo <= j < hi && g[i] == f[j]
  {
    assert g[i] == g[lo..hi][i - lo];
    assert g[i] in multiset(f[lo..hi]);
    var k :| 0 <= k < hi - lo && f[lo..hi][k] == g[i];
    j := lo + k;
  }

  lemma SamePartTransitive(f: seq<nat>, g: seq<nat>, h: seq<nat>, lo: int, hi: int)
    requires SamePart(f, g, lo, hi) && SamePart(g, h, lo, hi)
    ensures SamePart(f, h, lo, hi)
  {
  }

  lemma SwapSame(f: seq<nat>, lo: int, hi: int, x: int, y: int)
    requires 0 <= lo <= x < hi <= |f| && lo <= y < hi
    ensures SamePart(f, f[x := f[y]][y := f[x]], lo, hi)
  {
    var g := f[x := f[y]][y := f[x]];
    var s := f[lo..hi];
    assert g[lo..hi] == s[x - lo := s[y - lo]][y - lo := s[x - lo]];
    SwapMultiset(s, x - lo, y - lo);
  }

  lemma SwapMultiset(s: seq<nat>, x: int, y: int)
    requires 0 <= x < |s| && 0 <= y < |s|
    ensures multiset(s[x := s[y]][y := s[x]]) == multiset(s)
  {
  }

  /** Moving the hole that an insertion leaves. */
  lemma HoleMoves(f0: seq<nat>, f: seq<nat>, lo: int, hi: int, z: int, y: int, tmp: nat)
    requires 0 <= lo <= z < hi <= |f| && lo <= y < hi && z != y
    requires SamePart(f0, f[z := tmp], lo, hi)
    ensures SamePart(f0, f[z := f[y]][y := tmp], lo, hi)
  {
    var g := f[z := tmp];
    SwapSame(g, lo, hi, z, y);
    assert f[z := f[y]][y := tmp] == g[z := g[y]][y := g[z]];
    SamePartTransitive(f0, g, f[z := f[y]][y := tmp], lo, hi);
  }

  lemma SamePartRefl(f: seq<nat>, lo: int, hi: int)
    requires 0 <= lo <= hi <= |f|
    ensures SamePart(f, f, lo, hi)
  {
  }

  /** Insertion along every fourth position: only a rough ordering, but a permutation of the slice. */
  method InsertGap4(fmap: array<nat>, eclass: array<nat>, lo: int, hi: int, start: int)
    requires fmap != eclass && 0 <= lo <= start && start + 4 <= hi < fmap.Length
    requires forall i :: lo <= i <= hi ==> fmap[i] < eclass.Length
    modifies fmap
    ensures SamePart(old(fmap[..]), fmap[..], lo, hi + 1)
    ensures forall i :: lo <= i <= hi ==> fmap[i] < eclass.Length
  {
    hide *;
    ghost var f0 := fmap[..];
    var tmp := fmap[start];
    var ecTmp := eclass[tmp];
    var j := start + 4;
    assert f0[start := tmp] == f0;
    SamePartRefl(f0, lo, hi + 1);
    while j <= hi && ecTmp > eclass[fmap[j]]
      invariant start + 4 <= j
      invariant forall i :: lo <= i <= hi ==> fmap[i] < eclass.Length
      invariant j - 4 <= hi && SamePart(f0, fmap[..][j - 4 := tmp], lo, hi + 1)
      decreases hi - j
    {
      ghost var f := fmap[..];
      HoleMoves(f0, f, lo, hi + 1, j - 4, j, tmp);
      fmap[j - 4] := fmap[j];
      assert fmap[..] == f[j - 4 := f[j]];
      j := j + 4;
    }
    ghost var f := fmap[..];
    fmap[j - 4] := tmp;
    assert fmap[..] == f[j - 4 := tmp];
  }

  /** f with element i moved up to just before position j. */
  ghost function MovedUp(f: seq<nat>, i: int, j: int): (g: seq<nat>)
    requires 0 <= i < j <= |f|
    ensures |g| == |f|
  {
    f[..i] + f[i + 1..j] + [f[i]] + f[j..]
  }

  lemma MovedUpSame(f: seq<nat>, lo: int, hi: int, i: int, j: int)
    requires 0 <= lo <= i < j <= hi <= |f|
    ensures SamePart(f, MovedUp(f, i, j), lo, hi)
  {
    var part := f[lo..i] + f[i + 1..j] + [f[i]] + f[j..hi];
    assert f[..i] == f[..lo] + f[lo..i] && f[j..] == f[j..hi] + f[hi..];
    var g := MovedUp(f, i, j);
    assert g == f[..lo] + part + f[hi..];
    Middle(f[..lo], part, f[hi..]);
    assert g[..lo] == f[..lo] && g[lo..hi] == part && g[hi..] == f[hi..];
    assert f[lo..hi] == f[lo..i] + [f[i]] + f[i + 1..j] + f[j..hi];
    assert multiset(f[lo..hi]) == multiset(g[lo..hi]);
  }

  lemma Middle(a: seq<nat>, b: seq<nat>, c: seq<nat>)
    ensures var s := a + b + c; s[..|a|] == a && s[|a|..|a| + |b|] == b && s[|a| + |b|..] == c
  {
  }

  lemma MovedUpSorted(f: seq<nat>, e: seq<nat>, i: int, j: int, hi: int)
    requires 0 <= i < j <= hi <= |f| && SortedBy(f, e, i + 1, hi) && f[i] < |e|
    requires forall k :: i < k < j ==> e[f[k]] < e[f[i]]
    requires j < hi ==> e[f[i]] <= e[f[j]]
    ensures SortedBy(MovedUp(f, i, j), e, i, hi)
  {
    var g := MovedUp(f, i, j);
    forall k | i <= k < hi
      ensures g[k] == if k < j - 1 then f[k + 1] else if k == j - 1 then f[i] else f[k]
    {
    }
  }

  /** The insertion of element start into the sorted rest of the slice. */
  method Insert(fmap: array<nat>, eclass: array<nat>, lo: int, hi: int, start: int)
    requires fmap != eclass && 0 <= lo <= start < hi < fmap.Length
    requires forall i :: lo <= i <= hi ==> fmap[i] < eclass.Length
    requires SortedBy(fmap[..], eclass[..], start + 1, hi + 1)
    modifies fmap
    ensures SamePart(old(fmap[..]), fmap[..], lo, hi + 1)
    ensures SortedBy(fmap[..], eclass[..], start, hi + 1)
    ensures forall i :: lo <= i <= hi ==> fmap[i] < eclass.Length
  {
    hide *;
    ghost var f0, e := fmap[..], eclass[..];
    assert forall i :: lo <= i <= hi ==> f0[i] < |e|;
    var tmp := fmap[start];
    var ecTmp := eclass[tmp];
    var j := start + 1;
    while j <= hi && ecTmp > eclass[fmap[j]]
      invariant start + 1 <= j <= hi + 1 && eclass[..] == e
      invariant forall k :: start <= k < j - 1 ==> fmap[k] == f0[k + 1]
      invariant forall k :: 0 <= k < start || j - 1 <= k < fmap.Length ==> fmap[k] == f0[k]
      invariant forall k :: start < k < j ==> e[f0[k]] < e[f0[start]]
    {
      fmap[j - 1] := fmap[j];
      j := j + 1;
    }
    fmap[j - 1] := tmp;
    ShiftIsMove(f0, fmap[..], start, j);
    MovedUpSame(f0, lo, hi + 1, start, j);
    MovedUpSorted(f0, e, start, j, hi + 1);
  }

  lemma ShiftIsMove(f: seq<nat>, g: seq<nat>, i: int, j: int)
    requires 0 <= i < j <= |f| == |g|
    requires forall k :: i <= k < j - 1 ==> g[k] == f[k + 1]
    requires g[j - 1] == f[i]
    requires forall k :: 0 <= k < i || j <= k < |f| ==> g[k] == f[k]
    ensures g == MovedUp(f, i, j)
  {
    var m := MovedUp(f, i, j);
    forall k | 0 <= k < |f|
      ensures g[k] == m[k]
    {
      if k < i {
        assert m[k] == f[..i][k];
      } else if k < j - 1 {
        assert m[k] == f[i + 1..j][k - i];
      } else if k >= j {
        assert m[k] == f[j..][k - j];
      }
    }
  }

  /** fallbackSimpleSort. */
  method SimpleSort(fmap: array<nat>, eclass: array<nat>, lo: int, hi: int)
    requires fmap != eclass && 0 <= lo <= hi + 1 && hi < fmap.Length
    requires forall i :: lo <= i <= hi ==> fmap[i] < eclass.Length
    modifies fmap
    ensures SamePart(old(fmap[..]), fmap[..], lo, hi + 1)
    ensures SortedBy(fmap[..], eclass[..], lo, hi + 1)
    ensures forall i :: lo <= i <= hi ==> fmap[i] < eclass.Length
  {
    hide *;
    ghost var f0, e := fmap[..], eclass[..];
    SamePartRefl(f0, lo, hi + 1);
    if hi <= lo {
      ShortIsSorted(f0, e, lo, hi + 1);
    }
    if lo == hi { return; }
    if hi - lo > 3 {
      var i := hi - 4;
      while i >= lo
        invariant lo - 1 <= i <= hi - 4 && eclass[..] == e
        invariant SamePart(f0, fmap[..], lo, hi + 1)
        invariant forall k :: lo <= k <= hi ==> fmap[k] < eclass.Length
      {
        ghost var f1 := fmap[..];
        InsertGap4(fmap, eclass, lo, hi, i);
        SamePartTransitive(f0, f1, fmap[..], lo, hi + 1);
        i := i - 1;
      }
    }
    var i := hi - 1;
    if i >= lo {
      ShortIsSorted(fmap[..], e, hi, hi + 1);
    }
    while i >= lo
      invariant hi > lo ==> lo - 1 <= i < hi
      invariant hi < lo ==> i < lo
      invariant eclass[..] == e && SamePart(f0, fmap[..], lo, hi + 1)
      invariant hi > lo ==> SortedBy(fmap[..], e, i + 1, hi + 1)
      invariant hi < lo ==> fmap[..] == f0
      invariant forall k :: lo <= k <= hi ==> fmap[k] < eclass.Length
      decreases i
    {
      ghost var f1 := fmap[..];
      Insert(fmap, eclass, lo, hi, i);
      SamePartTransitive(f0, f1, fmap[..], lo, hi + 1);
      i := i - 1;
    }
  }

  lemma ShortIsSorted(f: seq<nat>, e: seq<nat>, lo: int, hi: int)
    requires 0 <= lo <= hi <= |f| && hi - lo <= 1 && forall i :: lo <= i < hi ==> f[i] < |e|
    ensures SortedBy(f, e, lo, hi)
  {
  }
}
