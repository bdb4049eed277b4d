/**
 Sorting a bucket by class: fallbackQSort3 (dep/bzip2/blocksort.c), a three-way
 quicksort with an explicit stack of pending ranges.
 */
module FallbackQSort {
  import opened FallbackSimpleSort

  // Three-way partitioning of [lo, hi].

  ghost predicate AllLess(f: seq<nat>, e: seq<nat>, med: nat, from: int, to: int) {
    Keyed(f, e, from, to) && forall i :: from <= i < to ==> e[f[i]] < med
  }

  ghost predicate AllEqual(f: seq<nat>, e: seq<nat>, med: nat, from: int, to: int) {
    Keyed(f, e, from, to) && forall i :: from <= i < to ==> e[f[i]] == med
  }

  ghost predicate AllGreater(f: seq<nat>, e: seq<nat>, med: nat, from: int, to: int) {
    Keyed(f, e, from, to) && forall i :: from <= i < to ==> e[f[i]] > med
  }

  /** While scanning: equal elements gather at both ends, the part between unLo and unHi is not looked at yet. */
  ghost predicate Scanning(f: seq<nat>, e: seq<nat>, med: nat, lo: int, hi: int,
                           ltLo: int, unLo: int, unHi: int, gtHi: int) {
    && 0 <= lo <= ltLo <= unLo <= unHi + 1 && unHi <= gtHi <= hi < |f|
    && Keyed(f, e, lo, hi + 1)
    && AllEqual(f, e, med, lo, ltLo) && AllLess(f, e, med, ltLo, unLo)
    && AllGreater(f, e, med, unHi + 1, gtHi + 1) && AllEqual(f, e, med, gtHi + 1, hi + 1)
  }

  /** g is f with elements x and y exchanged. */
  ghost predicate Swapped(f: seq<nat>, g: seq<nat>, x: int, y: int) {
    0 <= x < |f| && 0 <= y < |f| && g == f[x := f[y]][y := f[x]]
  }

  lemma ScanLowEqual(f: seq<nat>, g: seq<nat>, e: seq<nat>, med: nat, lo: int, hi: int, ltLo: int, unLo: int, unHi: int, gtHi: int)
    requires Scanning(f, e, med, lo, hi, ltLo, unLo, unHi, gtHi) && unLo <= unHi && e[f[unLo]] == med
    requires Swapped(f, g, unLo, ltLo)
    ensures Scanning(g, e, med, lo, hi, ltLo + 1, unLo + 1, unHi, gtHi)
    ensures SamePart(f, g, lo, hi + 1)
  {
    SwapSame(f, lo, hi + 1, unLo, ltLo);
  }

  lemma ScanHighEqual(f: seq<nat>, g: seq<nat>, e: seq<nat>, med: nat, lo: int, hi: int, ltLo: int, unLo: int, unHi: int, gtHi: int)
    requires Scanning(f, e, med, lo, hi, ltLo, unLo, unHi, gtHi) && unLo <= unHi && e[f[unHi]] == med
    requires Swapped(f, g, unHi, gtHi)
    ensures unLo < unHi ==> g[unLo] == f[unLo]
    ensures Scanning(g, e, med, lo, hi, ltLo, unLo, unHi - 1, gtHi - 1)
    ensures SamePart(f, g, lo, hi + 1)
  {
    SwapSame(f, lo, hi + 1, unHi, gtHi);
  }

  lemma ScanPast(f: seq<nat>, e: seq<nat>, med: nat, lo: int, hi: int, ltLo: int, unLo: int, unHi: int, gtHi: int)
    requires Scanning(f, e, med, lo, hi, ltLo, unLo, unHi, gtHi) && unLo <= unHi
    ensures e[f[unLo]] < med ==> Scanning(f, e, med, lo, hi, ltLo, unLo + 1, unHi, gtHi)
    ensures e[f[unHi]] > med ==> Scanning(f, e, med, lo, hi, ltLo, unLo, unHi - 1, gtHi)
  {
  }

  lemma ScanSwap(f: seq<nat>, g: seq<nat>, e: seq<nat>, med: nat, lo: int, hi: int, ltLo: int, unLo: int, unHi: int, gtHi: int)
    requires Scanning(f, e, med, lo, hi, ltLo, unLo, unHi, gtHi) && unLo <= unHi
    requires e[f[unLo]] > med && e[f[unHi]] < med && Swapped(f, g, unLo, unHi)
    ensures unLo < unHi
    ensures Scanning(g, e, med, lo, hi, ltLo, unLo + 1, unHi - 1, gtHi)
    ensures SamePart(f, g, lo, hi + 1)
  {
    SwapSame(f, lo, hi + 1, unLo, unHi);
  }

  lemma ScanKeyed(f: seq<nat>, e: seq<nat>, med: nat, lo: int, hi: int, ltLo: int, unLo: int, unHi: int, gtHi: int)
    requires Scanning(f, e, med, lo, hi, ltLo, unLo, unHi, gtHi)
    ensures 0 <= lo <= ltLo <= unLo <= unHi + 1 && unHi <= gtHi <= hi < |f|
    ensures unLo <= unHi ==> f[unLo] < |e| && f[unHi] < |e|
  {
  }

  /** fswap. */
  method Swap(fmap: array<nat>, x: int, y: int)
    requires 0 <= x < fmap.Length && 0 <= y < fmap.Length
    modifies fmap
    ensures Swapped(old(fmap[..]), fmap[..], x, y)
  {
    fmap[x], fmap[y] := fmap[y], fmap[x];
  }

  /** The first inner loop: unLo rises to an element above med. */
  method ScanLow(fmap: array<nat>, eclass: array<nat>, med: nat, lo: int, hi: int,
                 ltLo0: int, unLo0: int, unHi: int, gtHi: int)
    returns (ltLo: int, unLo: int)
    requires fmap != eclass && Scanning(fmap[..], eclass[..], med, lo, hi, ltLo0, unLo0, unHi, gtHi)
    modifies fmap
    ensures Scanning(fmap[..], eclass[..], med, lo, hi, ltLo, unLo, unHi, gtHi) && unLo0 <= unLo
    ensures SamePart(old(fmap[..]), fmap[..], lo, hi + 1)
    ensures 0 <= lo <= unLo && unHi <= hi < fmap.Length
    ensures unLo <= unHi ==> fmap[unLo] < eclass.Length && eclass[fmap[unLo]] > med
  {
    hide *;
    ltLo, unLo := ltLo0, unLo0;
    ghost var f0, e := fmap[..], eclass[..];
    ScanKeyed(f0, e, med, lo, hi, ltLo, unLo, unHi, gtHi);
    SamePartRefl(f0, lo, hi + 1);
    while unLo <= unHi && eclass[fmap[unLo]] <= med
      invariant eclass[..] == e && unLo0 <= unLo
      invariant Scanning(fmap[..], e, med, lo, hi, ltLo, unLo, unHi, gtHi) && SamePart(f0, fmap[..], lo, hi + 1)
      invariant 0 <= ltLo <= unLo && unHi <= hi < fmap.Length && (unLo <= unHi ==> fmap[unLo] < eclass.Length)
      decreases unHi - unLo
    {
      ghost var f := fmap[..];
      if eclass[fmap[unLo]] == med {
        Swap(fmap, unLo, ltLo);
        ScanLowEqual(f, fmap[..], e, med, lo, hi, ltLo, unLo, unHi, gtHi);
        SamePartTransitive(f0, f, fmap[..], lo, hi + 1);
        ltLo, unLo := ltLo + 1, unLo + 1;
      } else {
        ScanPast(f, e, med, lo, hi, ltLo, unLo, unHi, gtHi);
        unLo := unLo + 1;
      }
      ScanKeyed(fmap[..], e, med, lo, hi, ltLo, unLo, unHi, gtHi);
    }
  }

  /** The second inner loop: unHi falls to an element below med. */
  method ScanHigh(fmap: array<nat>, eclass: array<nat>, med: nat, lo: int, hi: int,
                  ltLo: int, unLo: int, unHi0: int, gtHi0: int)
    returns (unHi: int, gtHi: int)
    requires fmap != eclass && Scanning(fmap[..], eclass[..], med, lo, hi, ltLo, unLo, unHi0, gtHi0)
    modifies fmap
    ensures Scanning(fmap[..], eclass[..], med, lo, hi, ltLo, unLo, unHi, gtHi) && unHi <= unHi0
    ensures SamePart(old(fmap[..]), fmap[..], lo, hi + 1)
    ensures unLo <= unHi ==> 0 <= unHi < fmap.Length && fmap[unHi] < eclass.Length && eclass[fmap[unHi]] < med
    ensures unLo <= unHi0 ==> 0 <= unLo < fmap.Length && (unLo <= unHi ==> fmap[unLo] == old(fmap[unLo]))
  {
    hide *;
    unHi, gtHi := unHi0, gtHi0;
    ghost var f0, e := fmap[..], eclass[..];
    ScanKeyed(f0, e, med, lo, hi, ltLo, unLo, unHi, gtHi);
    SamePartRefl(f0, lo, hi + 1);
    while unLo <= unHi && eclass[fmap[unHi]] >= med
      invariant eclass[..] == e && unHi <= unHi0
      invariant Scanning(fmap[..], e, med, lo, hi, ltLo, unLo, unHi, gtHi) && SamePart(f0, fmap[..], lo, hi + 1)
      invariant 0 <= unLo && unHi <= gtHi <= hi < fmap.Length && (unLo <= unHi ==> fmap[unHi] < eclass.Length)
      invariant unLo <= unHi ==> fmap[unLo] == f0[unLo]
      decreases unHi - unLo
    {
      ghost var f := fmap[..];
      if eclass[fmap[unHi]] == med {
        Swap(fmap, unHi, gtHi);
        ScanHighEqual(f, fmap[..], e, med, lo, hi, ltLo, unLo, unHi, gtHi);
        SamePartTransitive(f0, f, fmap[..], lo, hi + 1);
        unHi, gtHi := unHi - 1, gtHi - 1;
      } else {
        ScanPast(f, e, med, lo, hi, ltLo, unLo, unHi, gtHi);
        unHi := unHi - 1;
      }
      ScanKeyed(fmap[..], e, med, lo, hi, ltLo, unLo, unHi, gtHi);
    }
  }

  /** The partitioning loop: nothing is left unlooked at, equal elements are at the ends. */
  method Separate(fmap: array<nat>, eclass: array<nat>, med: nat, lo: int, hi: int)
    returns (ltLo: int, unLo: int, unHi: int, gtHi: int)
    requires fmap != eclass && 0 <= lo <= hi < fmap.Length
    requires forall i :: lo <= i <= hi ==> fmap[i] < eclass.Length
    modifies fmap
    ensures Scanning(fmap[..], eclass[..], med, lo, hi, ltLo, unLo, unHi, gtHi) && unHi == unLo - 1
    ensures SamePart(old(fmap[..]), fmap[..], lo, hi + 1)
  {
    hide *;
    ltLo, unLo, unHi, gtHi := lo, lo, hi, hi;
    ghost var f0, e := fmap[..], eclass[..];
    ScanStart(f0, e, med, lo, hi);
    SamePartRefl(f0, lo, hi + 1);
    while true
      invariant eclass[..] == e
      invariant Scanning(fmap[..], e, med, lo, hi, ltLo, unLo, unHi, gtHi) && SamePart(f0, fmap[..], lo, hi + 1)
      decreases unHi - unLo
    {
      ghost var f1, unLo0, unHi0 := fmap[..], unLo, unHi;
      ltLo, unLo := ScanLow(fmap, eclass, med, lo, hi, ltLo, unLo, unHi, gtHi);
      ghost var f2 := fmap[..];
      SamePartTransitive(f0, f1, f2, lo, hi + 1);
      unHi, gtHi := ScanHigh(fmap, eclass, med, lo, hi, ltLo, unLo, unHi, gtHi);
      ghost var f3 := fmap[..];
      SamePartTransitive(f0, f2, f3, lo, hi + 1);
      ScanKeyed(f3, e, med, lo, hi, ltLo, unLo, unHi, gtHi);
      if unLo > unHi { break; }
      Swap(fmap, unLo, unHi);
      ScanSwap(f3, fmap[..], e, med, lo, hi, ltLo, unLo, unHi, gtHi);
      SamePartTransitive(f0, f3, fmap[..], lo, hi + 1);
      unLo, unHi := unLo + 1, unHi - 1;
    }
  }

  lemma ScanStart(f: seq<nat>, e: seq<nat>, med: nat, lo: int, hi: int)
    requires 0 <= lo <= hi < |f| && forall i :: lo <= i <= hi ==> f[i] < |e|
    ensures Scanning(f, e, med, lo, hi, lo, lo, hi, hi)
  {
  }

  /** g is f with the n elements from p1 and from p2 exchanged. */
  ghost predicate Exchanged(f: seq<nat>, g: seq<nat>, p1: int, p2: int, n: int) {
    && |f| == |g| && 0 <= n && 0 <= p1 && p1 + n <= p2 && p2 + n <= |f|
    && (forall i :: p1 <= i < p1 + n ==> g[i] == f[i - p1 + p2])
    && (forall i :: p2 <= i < p2 + n ==> g[i] == f[i - p2 + p1])
    && (forall i :: 0 <= i < |f| && !(p1 <= i < p1 + n) && !(p2 <= i < p2 + n) ==> g[i] == f[i])
  }

  /** fvswap. */
  method VectorSwap(fmap: array<nat>, p1: int, p2: int, n: int, ghost lo: int, ghost hi: int)
    requires 0 <= lo <= p1 && 0 <= n && p1 + n <= p2 && p2 + n <= hi <= fmap.Length
    modifies fmap
    ensures Exchanged(old(fmap[..]), fmap[..], p1, p2, n)
    ensures SamePart(old(fmap[..]), fmap[..], lo, hi)
  {
    hide *;
    var k := 0;
    ghost var f0 := fmap[..];
    SamePartRefl(f0, lo, hi);
    ExchangeStart(f0, p1, p2);
    while k < n
      invariant 0 <= k <= n && Exchanged(f0, fmap[..], p1, p2, k) && SamePart(f0, fmap[..], lo, hi)
    {
      ghost var f := fmap[..];
      SwapSame(f, lo, hi, p1 + k, p2 + k);
      SamePartTransitive(f0, f, f[p1 + k := f[p2 + k]][p2 + k := f[p1 + k]], lo, hi);
      ExchangeStep(f0, f, p1, p2, k);
      fmap[p1 + k], fmap[p2 + k] := fmap[p2 + k], fmap[p1 + k];
      k := k + 1;
    }
  }

  lemma ExchangeStart(f: seq<nat>, p1: int, p2: int)
    requires 0 <= p1 <= p2 <= |f|
    ensures Exchanged(f, f, p1, p2, 0)
  {
  }

  lemma ExchangeStep(f0: seq<nat>, f: seq<nat>, p1: int, p2: int, k: int)
    requires Exchanged(f0, f, p1, p2, k) && p1 + k < p2 && p2 + k < |f|
    ensures Exchanged(f0, f[p1 + k := f[p2 + k]][p2 + k := f[p1 + k]], p1, p2, k + 1)
  {
  }

  function Min(a: int, b: int): int {
    if a < b then a else b
  }

  /** The result: [lo, n] below med, the middle equal to med, [m, hi] above med. */
  ghost predicate Parted(f: seq<nat>, e: seq<nat>, med: nat, lo: int, hi: int, n: int, m: int) {
    && 0 <= lo <= n + 1 <= m <= hi + 1 <= |f|
    && AllLess(f, e, med, lo, n + 1) && AllEqual(f, e, med, n + 1, m) && AllGreater(f, e, med, m, hi + 1)
  }

  lemma LowerHalf(f: seq<nat>, g: seq<nat>, e: seq<nat>, med: nat, lo: int, ltLo: int, unLo: int)
    requires 0 <= lo <= ltLo <= unLo <= |f|
    requires AllEqual(f, e, med, lo, ltLo) && AllLess(f, e, med, ltLo, unLo)
    requires var n := Min(ltLo - lo, unLo - ltLo); Exchanged(f, g, lo, unLo - n, n)
    ensures AllLess(g, e, med, lo, lo + unLo - ltLo) && AllEqual(g, e, med, lo + unLo - ltLo, unLo)
    ensures forall i :: 0 <= i < |f| && !(lo <= i < unLo) ==> g[i] == f[i]
  {
  }

  lemma UpperHalf(f: seq<nat>, g: seq<nat>, e: seq<nat>, med: nat, hi: int, unLo: int, gtHi: int)
    requires 0 <= unLo <= gtHi + 1 <= hi + 1 <= |f|
    requires AllGreater(f, e, med, unLo, gtHi + 1) && AllEqual(f, e, med, gtHi + 1, hi + 1)
    requires var m := Min(hi - gtHi, gtHi - (unLo - 1)); Exchanged(f, g, unLo, hi - m + 1, m)
    ensures var p := hi - (gtHi - (unLo - 1)) + 1;
            AllEqual(g, e, med, unLo, p) && AllGreater(g, e, med, p, hi + 1)
    ensures forall i :: 0 <= i < |f| && !(unLo <= i <= hi) ==> g[i] == f[i]
  {
  }

  lemma PartedFrom(f: seq<nat>, g: seq<nat>, h: seq<nat>, e: seq<nat>, med: nat, lo: int, hi: int,
                   ltLo: int, unLo: int, gtHi: int, w: int)
    requires Scanning(f, e, med, lo, hi, ltLo, unLo, unLo - 1, gtHi)
    requires lo <= w <= hi && e[f[w]] == med
    requires var n := Min(ltLo - lo, unLo - ltLo); Exchanged(f, g, lo, unLo - n, n)
    requires var m := Min(hi - gtHi, gtHi - (unLo - 1)); Exchanged(g, h, unLo, hi - m + 1, m)
    ensures var n, m := lo + unLo - ltLo - 1, hi - (gtHi - (unLo - 1)) + 1;
            Parted(h, e, med, lo, hi, n, m) && n + 1 < m
  {
    LowerHalf(f, g, e, med, lo, ltLo, unLo);
    assert AllGreater(g, e, med, unLo, gtHi + 1) && AllEqual(g, e, med, gtHi + 1, hi + 1);
    UpperHalf(g, h, e, med, hi, unLo, gtHi);
    var n := lo + unLo - ltLo - 1;
    forall i | lo <= i < unLo
      ensures h[i] == g[i]
    {
    }
    assert AllLess(h, e, med, lo, n + 1) && AllEqual(h, e, med, n + 1, unLo);
    assert n + 1 < hi - (gtHi - (unLo - 1)) + 1;
  }

  lemma AllEqualSorted(f: seq<nat>, e: seq<nat>, med: nat, lo: int, hi: int, ltLo: int, unLo: int, gtHi: int)
    requires Scanning(f, e, med, lo, hi, ltLo, unLo, unLo - 1, gtHi) && gtHi < ltLo
    ensures SortedBy(f, e, lo, hi + 1)
  {
  }

  /** One partitioning: either everything was equal, or two smaller ranges remain. */
  method Partition(fmap: array<nat>, eclass: array<nat>, med: nat, lo: int, hi: int, ghost w: int)
    returns (done: bool, n: int, m: int)
    requires fmap != eclass && 0 <= lo <= hi < fmap.Length && lo <= w <= hi
    requires (forall i :: lo <= i <= hi ==> fmap[i] < eclass.Length) && eclass[fmap[w]] == med
    modifies fmap
    ensures SamePart(old(fmap[..]), fmap[..], lo, hi + 1)
    ensures done ==> SortedBy(fmap[..], eclass[..], lo, hi + 1)
    ensures !done ==> Parted(fmap[..], eclass[..], med, lo, hi, n, m) && n + 1 < m
  {
    hide *;
    n, m := lo, hi;
    ghost var f0, e := fmap[..], eclass[..];
    var ltLo, unLo, unHi, gtHi := Separate(fmap, eclass, med, lo, hi);
    ghost var f := fmap[..];
    ghost var w' := StillThere(f0, f, e, med, lo, hi, w);
    ScanKeyed(f, e, med, lo, hi, ltLo, unLo, unHi, gtHi);
    done := gtHi < ltLo;
    if done {
      AllEqualSorted(f, e, med, lo, hi, ltLo, unLo, gtHi);
      return;
    }
    n := if ltLo - lo < unLo - ltLo then ltLo - lo else unLo - ltLo;
    VectorSwap(fmap, lo, unLo - n, n, lo, hi + 1);
    ghost var g := fmap[..];
    m := if hi - gtHi < gtHi - unHi then hi - gtHi else gtHi - unHi;
    VectorSwap(fmap, unLo, hi - m + 1, m, lo, hi + 1);
    MinIs(n, ltLo - lo, unLo - ltLo);
    MinIs(m, hi - gtHi, gtHi - (unLo - 1));
    PartedFrom(f, g, fmap[..], e, med, lo, hi, ltLo, unLo, gtHi, w');
    SamePartTransitive(f0, f, g, lo, hi + 1);
    SamePartTransitive(f0, g, fmap[..], lo, hi + 1);
    n := lo + unLo - ltLo - 1;
    m := hi - (gtHi - unHi) + 1;
  }

  lemma MinIs(c: int, a: int, b: int)
    requires c == if a < b then a else b
    ensures c == Min(a, b)
  {
  }

  lemma StillThere(f: seq<nat>, g: seq<nat>, e: seq<nat>, med: nat, lo: int, hi: int, w: int) returns (w': int)
    requires SamePart(f, g, lo, hi + 1) && lo <= w <= hi && f[w] < |e| && e[f[w]] == med
    ensures lo <= w' <= hi < |g| && g[w'] < |e| && e[g[w']] == med
  {
    SamePartBack(f, g, lo, hi + 1);
    w' := SamePartInside(g, f, lo, hi + 1, w);
  }

  lemma SamePartBack(f: seq<nat>, g: seq<nat>, lo: int, hi: int)
    requires SamePart(f, g, lo, hi)
    ensures SamePart(g, f, lo, hi)
  {
  }

  // The stack of pending ranges.

  /** Positions p and q lie in one pending range. */
  ghost predicate OneRange(stk: seq<(int, int)>, p: int, q: int) {
    exists k :: 0 <= k < |stk| && stk[k].0 <= p && q <= stk[k].1
  }

  /** Two positions are in order unless they lie in one pending range. */
  ghost predicate NearlySorted(f: seq<nat>, e: seq<nat>, lo: int, hi: int, stk: seq<(int, int)>) {
    && Keyed(f, e, lo, hi + 1)
    && forall p, q :: lo <= p <= q <= hi ==> e[f[p]] <= e[f[q]] || OneRange(stk, p, q)
  }

  /** The pending ranges lie in [lo, hi] and do not overlap. */
  ghost predicate Apart(lo: int, hi: int, stk: seq<(int, int)>) {
    && (forall k :: 0 <= k < |stk| ==> lo <= stk[k].0 <= stk[k].1 + 1 && stk[k].1 <= hi)
    && (forall j, k :: 0 <= j < |stk| && 0 <= k < |stk| && j != k ==> stk[j].1 < stk[k].0 || stk[k].1 < stk[j].0)
  }

  /** Each range is at most half as long as the bound for the range below it. */
  ghost predicate Halving(stk: seq<(int, int)>, size: int) {
    forall k :: 0 <= k < |stk| ==> Fits(stk[k], k, size)
  }

  ghost predicate Fits(range: (int, int), k: nat, size: int) {
    (range.1 - range.0 + 1) * Twice(k) <= size
  }

  ghost function Twice(k: nat): (r: nat)
    ensures r >= 1
  {
    if k == 0 then 1 else 2 * Twice(k - 1)
  }

  /** Permuting the top range, and ordering it up to the ranges that replace it, keeps the rest in order. */
  lemma ReplaceTop(f: seq<nat>, g: seq<nat>, e: seq<nat>, lo: int, hi: int,
                   rest: seq<(int, int)>, top: (int, int), more: seq<(int, int)>)
    requires NearlySorted(f, e, lo, hi, rest + [top]) && Apart(lo, hi, rest + [top])
    requires SamePart(f, g, top.0, top.1 + 1)
    requires NearlySorted(g, e, top.0, top.1, more)
    ensures NearlySorted(g, e, lo, hi, rest + more)
  {
    forall p, q | lo <= p <= q <= hi
      ensures g[p] < |e| && g[q] < |e| && (e[g[p]] <= e[g[q]] || OneRange(rest + more, p, q))
    {
      ReplaceTopPair(f, g, e, lo, hi, rest, top, more, p, q);
    }
  }

  lemma ReplaceTopPair(f: seq<nat>, g: seq<nat>, e: seq<nat>, lo: int, hi: int,
                       rest: seq<(int, int)>, top: (int, int), more: seq<(int, int)>, p: int, q: int)
    requires NearlySorted(f, e, lo, hi, rest + [top]) && Apart(lo, hi, rest + [top])
    requires SamePart(f, g, top.0, top.1 + 1)
    requires NearlySorted(g, e, top.0, top.1, more) && lo <= p <= q <= hi
    ensures |f| == |g| && g[p] < |e| && g[q] < |e| && (e[g[p]] <= e[g[q]] || OneRange(rest + more, p, q))
  {
    ApartPop(lo, hi, rest, top);
    assert |f| == |g|;
    if top.0 <= p && q <= top.1 {
      OneRangeExtend(rest, more, p, q);
    } else {
      SamePartOutside(f, g, top.0, top.1 + 1);
      hide Apart, OneRange, SamePart;
      var p', q' := p, q;
      if top.0 <= p <= top.1 { p' := SamePartInside(f, g, top.0, top.1 + 1, p); }
      if top.0 <= q <= top.1 { q' := SamePartInside(f, g, top.0, top.1 + 1, q); }
      OneRangeKeep(lo, hi, rest, top, more, p, q, p', q');
      assert g[p] == f[p'] && g[q] == f[q'];
    }
  }

  lemma OneRangeExtend(rest: seq<(int, int)>, more: seq<(int, int)>, p: int, q: int)
    ensures OneRange(more, p, q) ==> OneRange(rest + more, p, q)
  {
    if OneRange(more, p, q) {
      var k :| 0 <= k < |more| && more[k].0 <= p && q <= more[k].1;
      assert (rest + more)[|rest| + k] == more[k];
    }
  }

  /** A pair not inside the top range: moving its members within the top range does not change the other ranges. */
  lemma OneRangeKeep(lo: int, hi: int, rest: seq<(int, int)>, top: (int, int), more: seq<(int, int)>,
                     p: int, q: int, p': int, q': int)
    requires Apart(lo, hi, rest + [top]) && p <= q && !(top.0 <= p && q <= top.1)
    requires if top.0 <= p <= top.1 then top.0 <= p' <= top.1 else p' == p
    requires if top.0 <= q <= top.1 then top.0 <= q' <= top.1 else q' == q
    ensures p' <= q'
    ensures OneRange(rest + [top], p', q') ==> OneRange(rest + more, p, q)
  {
    var stk := rest + [top];
    assert stk[|rest|] == top;
    if OneRange(stk, p', q') {
      var k :| 0 <= k < |stk| && stk[k].0 <= p' && q' <= stk[k].1;
      assert k < |rest| && (rest + more)[k] == stk[k];
      assert p' == p && q' == q;
    }
  }

  lemma SortedIsNearly(f: seq<nat>, e: seq<nat>, lo: int, hi: int)
    requires SortedBy(f, e, lo, hi + 1)
    ensures NearlySorted(f, e, lo, hi, [])
  {
  }

  lemma PartedIsNearly(f: seq<nat>, e: seq<nat>, med: nat, lo: int, hi: int, n: int, m: int, more: seq<(int, int)>)
    requires Parted(f, e, med, lo, hi, n, m)
    requires more == [(lo, n), (m, hi)] || more == [(m, hi), (lo, n)]
    ensures NearlySorted(f, e, lo, hi, more)
  {
    forall p, q | lo <= p <= q <= hi
      ensures f[p] < |e| && f[q] < |e| && (e[f[p]] <= e[f[q]] || OneRange(more, p, q))
    {
      assert more[0] in more && more[1] in more;
      if q <= n {
        assert OneRange(more, p, q) by {
          if more[0] == (lo, n) { assert more[0].0 <= p && q <= more[0].1; } else { assert more[1].0 <= p && q <= more[1].1; }
        }
      } else if m <= p {
        assert OneRange(more, p, q) by {
          if more[0] == (m, hi) { assert more[0].0 <= p && q <= more[0].1; } else { assert more[1].0 <= p && q <= more[1].1; }
        }
      }
    }
  }

  lemma ApartReplace(lo: int, hi: int, rest: seq<(int, int)>, top: (int, int), a: (int, int), b: (int, int))
    requires Apart(lo, hi, rest + [top])
    requires top.0 <= a.0 <= a.1 + 1 && a.1 <= top.1 && top.0 <= b.0 <= b.1 + 1 && b.1 <= top.1
    requires a.1 < b.0 || b.1 < a.0
    ensures Apart(lo, hi, rest + [a, b])
  {
    var stk := rest + [top];
    assert stk[|rest|] == top;
    forall k | 0 <= k < |rest|
      ensures stk[k] == rest[k]
    {
    }
  }

  lemma ApartPop(lo: int, hi: int, rest: seq<(int, int)>, top: (int, int))
    requires Apart(lo, hi, rest + [top])
    ensures Apart(lo, hi, rest) && lo <= top.0 <= top.1 + 1 && top.1 <= hi
  {
    var stk := rest + [top];
    assert stk[|rest|] == top;
    assert forall k :: 0 <= k < |rest| ==> stk[k] == rest[k];
  }

  lemma HalvingReplace(rest: seq<(int, int)>, top: (int, int), a: (int, int), b: (int, int), size: int)
    requires Halving(rest + [top], size)
    requires 0 <= b.1 - b.0 + 1 <= a.1 - a.0 + 1 && (a.1 - a.0 + 1) + (b.1 - b.0 + 1) <= top.1 - top.0
    ensures Halving(rest + [a, b], size)
  {
    var stk, stk' := rest + [top], rest + [a, b];
    var k0, s := |rest|, top.1 - top.0 + 1;
    assert stk[k0] == top && Fits(stk[k0], k0, size);
    assert stk[k0] == top && stk'[k0] == a && stk'[k0 + 1] == b;
    TimesMonotone(a.1 - a.0 + 1, s, Twice(k0));
    TimesMonotone(2 * (b.1 - b.0 + 1), s, Twice(k0));
    assert (b.1 - b.0 + 1) * Twice(k0 + 1) == 2 * (b.1 - b.0 + 1) * Twice(k0);
    forall k | 0 <= k < |stk'|
      ensures Fits(stk'[k], k, size)
    {
      if k < k0 {
        assert stk'[k] == stk[k];
      }
    }
  }

  lemma TimesMonotone(x: int, y: int, z: int)
    requires x <= y && 0 <= z
    ensures x * z <= y * z
  {
  }

  lemma HalvingPop(rest: seq<(int, int)>, top: (int, int), size: int)
    requires Halving(rest + [top], size)
    ensures Halving(rest, size) && Fits(top, |rest|, size)
  {
    hide Fits;
    var stk := rest + [top];
    assert stk[|rest|] == top;
    assert forall k :: 0 <= k < |rest| ==> stk[k] == rest[k];
  }

  /** A range of at least 11 elements is never found above position 27 of the stack. */
  lemma StackShallow(range: (int, int), k: nat, size: int)
    requires range.1 - range.0 >= 10 && Fits(range, k, size) && size < 0x8000_0000
    ensures k < 28
  {
    var s := range.1 - range.0 + 1;
    if k >= 28 {
      TwiceMonotone(28, k);
      assert Twice(4) == 16 && Twice(8) == 256 && Twice(12) == 4096 && Twice(16) == 65536;
      assert Twice(20) == 0x10_0000 && Twice(24) == 0x100_0000 && Twice(28) == 0x1000_0000;
      TimesMonotone(11, s, Twice(k));
    }
  }

  lemma {:induction false} TwiceMonotone(m: nat, n: nat)
    requires m <= n
    ensures Twice(m) <= Twice(n)
    decreases n
  {
    if m < n {
      TwiceMonotone(m, n - 1);
    }
  }

  /** What is left to do: it shrinks with every range taken off the stack. */
  ghost function Work(stk: seq<(int, int)>): int {
    if stk == [] then 0
    else Work(stk[..|stk| - 1]) + 2 * (stk[|stk| - 1].1 - stk[|stk| - 1].0 + 1) + 1
  }

  lemma WorkPush(stk: seq<(int, int)>, a: (int, int))
    ensures Work(stk + [a]) == Work(stk) + 2 * (a.1 - a.0 + 1) + 1
  {
    assert (stk + [a])[..|stk|] == stk;
  }

  lemma {:induction false} WorkPositive(lo: int, hi: int, stk: seq<(int, int)>)
    requires Apart(lo, hi, stk)
    ensures Work(stk) >= |stk|
  {
    if stk != [] {
      var rest := stk[..|stk| - 1];
      assert stk == rest + [stk[|stk| - 1]];
      ApartPop(lo, hi, rest, stk[|stk| - 1]);
      WorkPositive(lo, hi, rest);
    }
  }

  lemma SamePartWider(f: seq<nat>, g: seq<nat>, lo: int, hi: int, lo': int, hi': int)
    requires SamePart(f, g, lo, hi) && 0 <= lo' <= lo && hi <= hi' <= |f|
    ensures SamePart(f, g, lo', hi')
  {
    assert f[..lo'] == f[..lo][..lo'] && g[..lo'] == g[..lo][..lo'];
    assert f[hi'..] == f[hi..][hi' - hi..] && g[hi'..] == g[hi..][hi' - hi..];
    SliceParts(f, lo', lo, hi, hi');
    SliceParts(g, lo', lo, hi, hi');
  }

  lemma SliceParts(f: seq<nat>, lo': int, lo: int, hi: int, hi': int)
    requires 0 <= lo' <= lo <= hi <= hi' <= |f|
    ensures f[lo'..hi'] == f[..lo][lo'..] + f[lo..hi] + f[hi..][..hi' - hi]
  {
  }

  /** Everything known about the sort between two ranges. */
  ghost predicate Sorting(f0: seq<nat>, f: seq<nat>, e: seq<nat>, lo: int, hi: int, stk: seq<(int, int)>) {
    && 0 <= lo <= hi < |f| && hi - lo + 1 < 0x8000_0000
    && SamePart(f0, f, lo, hi + 1) && NearlySorted(f, e, lo, hi, stk)
    && Apart(lo, hi, stk) && Halving(stk, hi - lo + 1)
  }

  lemma SortingStart(f: seq<nat>, e: seq<nat>, lo: int, hi: int)
    requires 0 <= lo <= hi < |f| && hi - lo + 1 < 0x8000_0000 && forall i :: lo <= i <= hi ==> f[i] < |e|
    ensures Sorting(f, f, e, lo, hi, [(lo, hi)]) && Work([(lo, hi)]) == 2 * (hi - lo + 1) + 1
  {
    forall p, q | lo <= p <= q <= hi
      ensures OneRange([(lo, hi)], p, q)
    {
      assert [(lo, hi)][0].0 <= p;
    }
    WorkPush([], (lo, hi));
    assert [] + [(lo, hi)] == [(lo, hi)];
  }

  lemma SortingRange(f0: seq<nat>, f: seq<nat>, e: seq<nat>, lo: int, hi: int, rest: seq<(int, int)>, top: (int, int))
    requires Sorting(f0, f, e, lo, hi, rest + [top])
    ensures 0 <= lo <= top.0 <= top.1 + 1 && top.1 <= hi < |f| && forall i :: top.0 <= i <= top.1 ==> f[i] < |e|
    ensures top.1 - top.0 >= 10 ==> |rest| < 28
    ensures 0 <= Work(rest) < Work(rest + [top])
  {
    assert Keyed(f, e, lo, hi + 1) && hi - lo + 1 < 0x8000_0000;
    assert Apart(lo, hi, rest + [top]) && Halving(rest + [top], hi - lo + 1);
    assert forall i :: lo <= i <= hi ==> f[i] < |e|;
    hide *;
    ApartPop(lo, hi, rest, top);
    HalvingPop(rest, top, hi - lo + 1);
    WorkPositive(lo, hi, rest);
    WorkPush(rest, top);
    if top.1 - top.0 >= 10 {
      StackShallow(top, |rest|, hi - lo + 1);
    }
  }

  lemma SortingDone(f0: seq<nat>, f: seq<nat>, g: seq<nat>, e: seq<nat>, lo: int, hi: int,
                    rest: seq<(int, int)>, top: (int, int))
    requires Sorting(f0, f, e, lo, hi, rest + [top])
    requires SamePart(f, g, top.0, top.1 + 1) && SortedBy(g, e, top.0, top.1 + 1)
    ensures Sorting(f0, g, e, lo, hi, rest)
  {
    ApartPop(lo, hi, rest, top);
    HalvingPop(rest, top, hi - lo + 1);
    hide *;
    SortedIsNearly(g, e, top.0, top.1);
    SortingReplace(f0, f, g, e, lo, hi, rest, top, []);
  }

  lemma SortingReplace(f0: seq<nat>, f: seq<nat>, g: seq<nat>, e: seq<nat>, lo: int, hi: int,
                       rest: seq<(int, int)>, top: (int, int), more: seq<(int, int)>)
    requires Sorting(f0, f, e, lo, hi, rest + [top])
    requires SamePart(f, g, top.0, top.1 + 1) && NearlySorted(g, e, top.0, top.1, more)
    requires Apart(lo, hi, rest + more) && Halving(rest + more, hi - lo + 1)
    ensures Sorting(f0, g, e, lo, hi, rest + more)
  {
    ApartPop(lo, hi, rest, top);
    assert 0 <= lo <= hi < |f| && hi - lo + 1 < 0x8000_0000 && |f| == |g|;
    hide OneRange, Halving, Apart, NearlySorted, SamePart;
    ReplaceTop(f, g, e, lo, hi, rest, top, more);
    SamePartWider(f, g, top.0, top.1 + 1, lo, hi + 1);
    SamePartTransitive(f0, f, g, lo, hi + 1);
  }

  lemma PartedBounds(f: seq<nat>, e: seq<nat>, med: nat, lo: int, hi: int, n: int, m: int)
    requires Parted(f, e, med, lo, hi, n, m)
    ensures 0 <= lo <= n + 1 <= m <= hi + 1 <= |f|
  {
  }

  lemma SortingHas(f0: seq<nat>, f: seq<nat>, e: seq<nat>, lo: int, hi: int, stk: seq<(int, int)>)
    requires Sorting(f0, f, e, lo, hi, stk)
    ensures Apart(lo, hi, stk) && Halving(stk, hi - lo + 1)
  {
    hide Apart, Halving;
  }

  lemma SortingParted(f0: seq<nat>, f: seq<nat>, g: seq<nat>, e: seq<nat>, med: nat, lo: int, hi: int,
                      rest: seq<(int, int)>, top: (int, int), n: int, m: int)
    requires Sorting(f0, f, e, lo, hi, rest + [top])
    requires SamePart(f, g, top.0, top.1 + 1) && Parted(g, e, med, top.0, top.1, n, m) && n + 1 < m
    ensures n - top.0 > top.1 - m ==> Sorting(f0, g, e, lo, hi, rest + [(top.0, n), (m, top.1)])
    ensures n - top.0 <= top.1 - m ==> Sorting(f0, g, e, lo, hi, rest + [(m, top.1), (top.0, n)])
    ensures Work(rest + [(top.0, n), (m, top.1)]) < Work(rest + [top])
    ensures Work(rest + [(m, top.1), (top.0, n)]) < Work(rest + [top])
  {
    hide *;
    var a, b := (top.0, n), (m, top.1);
    PartedBounds(g, e, med, top.0, top.1, n, m);
    SortingHas(f0, f, e, lo, hi, rest + [top]);
    ApartReplace(lo, hi, rest, top, a, b);
    ApartReplace(lo, hi, rest, top, b, a);
    if n - top.0 > top.1 - m {
      HalvingReplace(rest, top, a, b, hi - lo + 1);
      PartedIsNearly(g, e, med, top.0, top.1, n, m, [a, b]);
      SortingReplace(f0, f, g, e, lo, hi, rest, top, [a, b]);
    } else {
      HalvingReplace(rest, top, b, a, hi - lo + 1);
      PartedIsNearly(g, e, med, top.0, top.1, n, m, [b, a]);
      SortingReplace(f0, f, g, e, lo, hi, rest, top, [b, a]);
    }
    WorkPush(rest, top);
    WorkPush(rest, a);
    WorkPush(rest + [a], b);
    WorkPush(rest, b);
    WorkPush(rest + [b], a);
    assert rest + [a] + [b] == rest + [a, b] && rest + [b] + [a] == rest + [b, a];
  }

  /** fallbackQSort3: the slice ends up in the order of the classes, and the stack never fills. */
  method QSort3(fmap: array<nat>, eclass: array<nat>, loSt: int, hiSt: int)
    requires fmap != eclass && 0 <= loSt <= hiSt < fmap.Length && hiSt - loSt + 1 < 0x8000_0000
    requires forall i :: loSt <= i <= hiSt ==> fmap[i] < eclass.Length
    modifies fmap
    ensures SamePart(old(fmap[..]), fmap[..], loSt, hiSt + 1)
    ensures SortedBy(fmap[..], eclass[..], loSt, hiSt + 1)
  {
    hide *;
    ghost var f0, e := fmap[..], eclass[..];
    var stackLo := new int[100];
    var stackHi := new int[100];
    var r, sp := 0, 0;
    stackLo[sp], stackHi[sp], sp := loSt, hiSt, sp + 1;
    ghost var stk := [(loSt, hiSt)];
    SortingStart(f0, e, loSt, hiSt);
    while sp > 0
      invariant eclass[..] == e && 0 <= sp == |stk| <= 29
      invariant forall k :: 0 <= k < sp ==> stackLo[k] == stk[k].0 && stackHi[k] == stk[k].1
      invariant Sorting(f0, fmap[..], e, loSt, hiSt, stk)
      invariant 0 <= Work(stk)
      decreases Work(stk)
    {
      assert sp < 100 - 1;  // AssertH 1004
      ghost var rest, top := stk[..sp - 1], stk[sp - 1];
      assert stk == rest + [top];
      ghost var f := fmap[..];
      SortingRange(f0, f, e, loSt, hiSt, rest, top);
      sp := sp - 1;
      var lo, hi := stackLo[sp], stackHi[sp];
      assert forall i :: lo <= i <= hi ==> f[i] < |e|;
      if hi - lo < 10 {
        SimpleSort(fmap, eclass, lo, hi);
        SortingDone(f0, f, fmap[..], e, loSt, hiSt, rest, top);
        stk := rest;
        continue;
      }
      r := (r * 7621 + 1) % 32768;
      var at := if r % 3 == 0 then lo else if r % 3 == 1 then (lo + hi) / 2 else hi;
      var med := eclass[fmap[at]];
      var done, n, m := Partition(fmap, eclass, med, lo, hi, at);
      if done {
        SortingDone(f0, f, fmap[..], e, loSt, hiSt, rest, top);
        stk := rest;
        continue;
      }
      SortingParted(f0, f, fmap[..], e, med, loSt, hiSt, rest, top, n, m);
      if n - lo > hi - m {
        stackLo[sp], stackHi[sp], sp := lo, n, sp + 1;
        stackLo[sp], stackHi[sp], sp := m, hi, sp + 1;
        stk := rest + [(lo, n), (m, hi)];
      } else {
        stackLo[sp], stackHi[sp], sp := m, hi, sp + 1;
        stackLo[sp], stackHi[sp], sp := lo, n, sp + 1;
        stk := rest + [(m, hi), (lo, n)];
      }
      SortingWork(f0, fmap[..], e, loSt, hiSt, stk);
    }
    SortingEnd(f0, fmap[..], e, loSt, hiSt, stk);
  }

  lemma SortingWork(f0: seq<nat>, f: seq<nat>, e: seq<nat>, lo: int, hi: int, stk: seq<(int, int)>)
    requires Sorting(f0, f, e, lo, hi, stk)
    ensures 0 <= Work(stk)
  {
    WorkPositive(lo, hi, stk);
  }

  lemma SortingEnd(f0: seq<nat>, f: seq<nat>, e: seq<nat>, lo: int, hi: int, stk: seq<(int, int)>)
    requires Sorting(f0, f, e, lo, hi, stk) && stk == []
    ensures SamePart(f0, f, lo, hi + 1) && SortedBy(f, e, lo, hi + 1)
  {
  }
}
