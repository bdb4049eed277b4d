/**
 mainQSort3 (dep/bzip2/blocksort.c): a three-way quicksort for strings. Every pending range holds rotations that agree
 on the number of characters noted with it.
 */
module MainQSort {
  import opened Bits
  import opened CodeLengthTree
  import opened RotationPrefixes
  import opened RotationOrder
  import opened FallbackSimpleSort
  import opened FallbackQSort
  import opened MainCompare
  import opened MainSimpleSort

  // Partitioning by the character behind the first d.

  /** The character of each rotation behind its first d. */
  ghost function Keys(block: seq<byte>, d: nat): (e: seq<nat>)
    ensures |e| == |block|
  {
    seq(|block|, x requires 0 <= x < |block| => block[Ahead(|block|, x, d)])
  }

  /** block[ptr[i] + d]. */
  method CharAt(ptr: array<nat>, ext: array<byte>, i: int, d: nat, ghost block: seq<byte>) returns (c: byte)
    requires 0 <= i < ptr.Length && ptr[i] < |block| && d <= 15 && Extended(block, ext[..])
    ensures ptr[i] < |Keys(block, d)| && c == Keys(block, d)[ptr[i]]
  {
    AheadWraps(|block|, ptr[i], d);
    c := ext[ptr[i] + d];
  }

  method MainScanLow(ptr: array<nat>, ext: array<byte>, d: nat, med: byte, lo: int, hi: int,
                     ltLo0: int, unLo0: int, unHi: int, gtHi: int, ghost block: seq<byte>)
    returns (ltLo: int, unLo: int)
    requires ptr as object != ext && d <= 15 && Extended(block, ext[..])
    requires Scanning(ptr[..], Keys(block, d), med, lo, hi, ltLo0, unLo0, unHi, gtHi)
    modifies ptr
    ensures Scanning(ptr[..], Keys(block, d), med, lo, hi, ltLo, unLo, unHi, gtHi) && unLo0 <= unLo
    ensures SamePart(old(ptr[..]), ptr[..], lo, hi + 1)
    ensures 0 <= lo <= unLo && unHi <= hi < ptr.Length
    ensures unLo <= unHi ==> ptr[unLo] < |Keys(block, d)| && Keys(block, d)[ptr[unLo]] > med
  {
    hide *;
    ltLo, unLo := ltLo0, unLo0;
    ghost var f0, e := ptr[..], Keys(block, d);
    ScanKeyed(f0, e, med, lo, hi, ltLo, unLo, unHi, gtHi);
    SamePartRefl(f0, lo, hi + 1);
    while unLo <= unHi
      invariant unLo0 <= unLo
      invariant Scanning(ptr[..], e, med, lo, hi, ltLo, unLo, unHi, gtHi) && SamePart(f0, ptr[..], lo, hi + 1)
      invariant 0 <= lo <= ltLo <= unLo && unHi <= hi < ptr.Length && (unLo <= unHi ==> ptr[unLo] < |e|)
      decreases unHi - unLo
    {
      ghost var f := ptr[..];
      var c := CharAt(ptr, ext, unLo, d, block);
      if c == med {
        Swap(ptr, unLo, ltLo);
        ScanLowEqual(f, ptr[..], e, med, lo, hi, ltLo, unLo, unHi, gtHi);
        SamePartTransitive(f0, f, ptr[..], lo, hi + 1);
        ltLo, unLo := ltLo + 1, unLo + 1;
      } else if c > med {
        break;
      } else {
        ScanPast(f, e, med, lo, hi, ltLo, unLo, unHi, gtHi);
        unLo := unLo + 1;
      }
      ScanKeyed(ptr[..], e, med, lo, hi, ltLo, unLo, unHi, gtHi);
    }
  }

  method MainScanHigh(ptr: array<nat>, ext: array<byte>, d: nat, med: byte, lo: int, hi: int,
                      ltLo: int, unLo: int, unHi0: int, gtHi0: int, ghost block: seq<byte>)
    returns (unHi: int, gtHi: int)
    requires ptr as object != ext && d <= 15 && Extended(block, ext[..])
    requires Scanning(ptr[..], Keys(block, d), med, lo, hi, ltLo, unLo, unHi0, gtHi0)
    modifies ptr
    ensures Scanning(ptr[..], Keys(block, d), med, lo, hi, ltLo, unLo, unHi, gtHi) && unHi <= unHi0
    ensures SamePart(old(ptr[..]), ptr[..], lo, hi + 1)
    ensures unLo <= unHi ==> 0 <= unHi < ptr.Length && ptr[unHi] < |Keys(block, d)| && Keys(block, d)[ptr[unHi]] < med
    ensures unLo <= unHi0 ==> 0 <= unLo < ptr.Length && (unLo <= unHi ==> ptr[unLo] == old(ptr[unLo]))
  {
    hide *;
    unHi, gtHi := unHi0, gtHi0;
    ghost var f0, e := ptr[..], Keys(block, d);
    ScanKeyed(f0, e, med, lo, hi, ltLo, unLo, unHi, gtHi);
    SamePartRefl(f0, lo, hi + 1);
    while unLo <= unHi
      invariant unHi <= unHi0
      invariant Scanning(ptr[..], e, med, lo, hi, ltLo, unLo, unHi, gtHi) && SamePart(f0, ptr[..], lo, hi + 1)
      invariant 0 <= unLo && unHi <= gtHi <= hi < ptr.Length && (unLo <= unHi ==> ptr[unHi] < |e|)
      invariant unLo <= unHi ==> ptr[unLo] == f0[unLo]
      decreases unHi - unLo
    {
      ghost var f := ptr[..];
      var c := CharAt(ptr, ext, unHi, d, block);
      if c == med {
        Swap(ptr, unHi, gtHi);
        ScanHighEqual(f, ptr[..], e, med, lo, hi, ltLo, unLo, unHi, gtHi);
        SamePartTransitive(f0, f, ptr[..], lo, hi + 1);
        unHi, gtHi := unHi - 1, gtHi - 1;
      } else if c < med {
        break;
      } else {
        ScanPast(f, e, med, lo, hi, ltLo, unLo, unHi, gtHi);
        unHi := unHi - 1;
      }
      ScanKeyed(ptr[..], e, med, lo, hi, ltLo, unLo, unHi, gtHi);
    }
  }

  method MainSeparate(ptr: array<nat>, ext: array<byte>, d: nat, med: byte, lo: int, hi: int, ghost block: seq<byte>)
    returns (ltLo: int, unLo: int, unHi: int, gtHi: int)
    requires ptr as object != ext && d <= 15 && Extended(block, ext[..]) && 0 <= lo <= hi < ptr.Length
    requires forall i :: lo <= i <= hi ==> ptr[i] < |block|
    modifies ptr
    ensures Scanning(ptr[..], Keys(block, d), med, lo, hi, ltLo, unLo, unHi, gtHi) && unHi == unLo - 1
    ensures SamePart(old(ptr[..]), ptr[..], lo, hi + 1)
  {
    hide *;
    ltLo, unLo, unHi, gtHi := lo, lo, hi, hi;
    ghost var f0, e := ptr[..], Keys(block, d);
    ScanStart(f0, e, med, lo, hi);
    SamePartRefl(f0, lo, hi + 1);
    while true
      invariant Scanning(ptr[..], e, med, lo, hi, ltLo, unLo, unHi, gtHi) && SamePart(f0, ptr[..], lo, hi + 1)
      decreases unHi - unLo
    {
      ghost var f1 := ptr[..];
      ltLo, unLo := MainScanLow(ptr, ext, d, med, lo, hi, ltLo, unLo, unHi, gtHi, block);
      ghost var f2 := ptr[..];
      SamePartTransitive(f0, f1, f2, lo, hi + 1);
      unHi, gtHi := MainScanHigh(ptr, ext, d, med, lo, hi, ltLo, unLo, unHi, gtHi, block);
      ghost var f3 := ptr[..];
      SamePartTransitive(f0, f2, f3, lo, hi + 1);
      ScanKeyed(f3, e, med, lo, hi, ltLo, unLo, unHi, gtHi);
      if unLo > unHi { break; }
      Swap(ptr, unLo, unHi);
      ScanSwap(f3, ptr[..], e, med, lo, hi, ltLo, unLo, unHi, gtHi);
      SamePartTransitive(f0, f3, ptr[..], lo, hi + 1);
      unLo, unHi := unLo + 1, unHi - 1;
    }
  }

  /** One partitioning: either all characters were equal, or the range is parted in three, the middle one not empty. */
  method MainPartition(ptr: array<nat>, ext: array<byte>, d: nat, med: byte, lo: int, hi: int, ghost w: int,
                       ghost block: seq<byte>)
    returns (same: bool, n: int, m: int)
    requires ptr as object != ext && d <= 15 && Extended(block, ext[..]) && 0 <= lo <= w <= hi < ptr.Length
    requires (forall i :: lo <= i <= hi ==> ptr[i] < |block|) && Keys(block, d)[ptr[w]] == med
    modifies ptr
    ensures SamePart(old(ptr[..]), ptr[..], lo, hi + 1)
    ensures same ==> AllEqual(ptr[..], Keys(block, d), med, lo, hi + 1)
    ensures !same ==> Parted(ptr[..], Keys(block, d), med, lo, hi, n, m) && n + 1 < m
  {
    hide *;
    n, m := lo, hi;
    ghost var f0, e := ptr[..], Keys(block, d);
    var ltLo, unLo, unHi, gtHi := MainSeparate(ptr, ext, d, med, lo, hi, block);
    ghost var f := ptr[..];
    ghost var w' := StillThere(f0, f, e, med, lo, hi, w);
    ScanKeyed(f, e, med, lo, hi, ltLo, unLo, unHi, gtHi);
    same := gtHi < ltLo;
    if same {
      NoneApart(f, e, med, lo, hi, ltLo, unLo, gtHi);
      return;
    }
    n := if ltLo - lo < unLo - ltLo then ltLo - lo else unLo - ltLo;
    VectorSwap(ptr, lo, unLo - n, n, lo, hi + 1);
    ghost var g := ptr[..];
    m := if hi - gtHi < gtHi - unHi then hi - gtHi else gtHi - unHi;
    VectorSwap(ptr, unLo, hi - m + 1, m, lo, hi + 1);
    MinIs(n, ltLo - lo, unLo - ltLo);
    MinIs(m, hi - gtHi, gtHi - (unLo - 1));
    PartedFrom(f, g, ptr[..], e, med, lo, hi, ltLo, unLo, gtHi, w');
    SamePartTransitive(f0, f, g, lo, hi + 1);
    SamePartTransitive(f0, g, ptr[..], lo, hi + 1);
    n := lo + unLo - ltLo - 1;
    m := hi - (gtHi - unHi) + 1;
  }

  lemma NoneApart(f: seq<nat>, e: seq<nat>, med: nat, lo: int, hi: int, ltLo: int, unLo: int, gtHi: int)
    requires Scanning(f, e, med, lo, hi, ltLo, unLo, unLo - 1, gtHi) && gtHi < ltLo
    ensures AllEqual(f, e, med, lo, hi + 1)
  {
  }

  // Pending ranges.

  /** A pending range and the number of characters its rotations are known to share. */
  datatype Piece = Piece(lo: int, hi: int, d: nat)

  function Size(p: Piece): int {
    p.hi - p.lo + 1
  }

  ghost function Spans(ps: seq<Piece>): (s: seq<(int, int)>)
    ensures |s| == |ps| && forall k :: 0 <= k < |ps| ==> s[k] == (ps[k].lo, ps[k].hi)
  {
    seq(|ps|, k requires 0 <= k < |ps| => (ps[k].lo, ps[k].hi))
  }

  lemma SpansJoin(a: seq<Piece>, b: seq<Piece>)
    ensures Spans(a + b) == Spans(a) + Spans(b)
  {
  }

  ghost predicate Deep(block: seq<byte>, f: seq<nat>, ps: seq<Piece>) {
    forall k :: 0 <= k < |ps| ==> ps[k].d <= 15 && TiedSlice(block, f, ps[k].d, ps[k].lo, ps[k].hi + 1)
  }

  /** The sizes on the stack shrink at least as fast as Fibonacci numbers grow. */
  ghost predicate Shrinking(ps: seq<Piece>, size: int) {
    forall k :: 0 <= k < |ps| ==> 0 <= Size(ps[k]) && Size(ps[k]) * Fib(k + 2) <= size
  }

  /** What is left to do. */
  ghost function Effort(p: Piece): int {
    4 * Size(p) * (20 - p.d) + 1
  }

  ghost function Efforts(ps: seq<Piece>): int {
    if ps == [] then 0 else Efforts(ps[..|ps| - 1]) + Effort(ps[|ps| - 1])
  }

  lemma EffortsPush(ps: seq<Piece>, p: Piece)
    ensures Efforts(ps + [p]) == Efforts(ps) + Effort(p)
  {
    assert (ps + [p])[..|ps|] == ps;
  }

  lemma EffortPositive(p: Piece)
    requires p.d <= 15 && Size(p) >= 0
    ensures Effort(p) >= 1
  {
    TimesMonotone(0, Size(p), 20 - p.d);
  }

  lemma {:induction false} EffortsPositive(block: seq<byte>, f: seq<nat>, ps: seq<Piece>)
    requires Deep(block, f, ps)
    ensures 0 <= Efforts(ps)
  {
    if ps != [] {
      EffortsPositive(block, f, ps[..|ps| - 1]);
      EffortPositive(ps[|ps| - 1]);
    }
  }

  /** Everything known about the sort between two ranges. */
  ghost predicate Ranging(block: seq<byte>, f0: seq<nat>, f: seq<nat>, lo: int, hi: int, stk: seq<Piece>) {
    && 0 <= lo <= hi < |f| && hi - lo + 1 < 2391484
    && SamePart(f0, f, lo, hi + 1) && NearlySorted(f, Order(block), lo, hi, Spans(stk))
    && Apart(lo, hi, Spans(stk)) && Shrinking(stk, hi - lo + 1) && Deep(block, f, stk)
  }

  lemma RangingStart(block: seq<byte>, f: seq<nat>, lo: int, hi: int, d: nat)
    requires 0 <= lo <= hi < |f| && hi - lo + 1 < 2391484 && d <= 15 && TiedSlice(block, f, d, lo, hi + 1)
    ensures Ranging(block, f, f, lo, hi, [Piece(lo, hi, d)])
  {
    hide TiedSlice, Order;
    TiedBounds(block, f, d, lo, hi + 1);
    var stk := [Piece(lo, hi, d)];
    assert Fib(2) == 1;
    forall p, q | lo <= p <= q <= hi
      ensures OneRange(Spans(stk), p, q)
    {
      assert Spans(stk)[0].0 <= p && q <= Spans(stk)[0].1;
    }
  }

  /** The top range: it lies in the slice, its rotations agree, and a long one is not far up the stack. */
  lemma RangingTop(block: seq<byte>, f0: seq<nat>, f: seq<nat>, lo: int, hi: int, rest: seq<Piece>, top: Piece)
    requires Ranging(block, f0, f, lo, hi, rest + [top])
    ensures 0 <= lo <= top.lo <= top.hi + 1 && top.hi <= hi < |f| && top.hi - top.lo + 1 < 2391484
    ensures top.d <= 15 && TiedSlice(block, f, top.d, top.lo, top.hi + 1)
    ensures top.hi - top.lo >= 20 ==> |rest| <= 32
    ensures 0 <= Efforts(rest) < Efforts(rest + [top])
  {
    hide *;
    RangingParts(block, f0, f, lo, hi, rest, top);
    ApartPop(lo, hi, Spans(rest), (top.lo, top.hi));
    DeepTop(block, f, rest, top);
    ShrinkingTop(rest, top, hi - lo + 1);
    EffortsPush(rest, top);
    EffortPositive(top);
    EffortsPositive(block, f, rest);
    TopShallow(top, |rest|, hi - lo + 1);
  }

  lemma DeepTop(block: seq<byte>, f: seq<nat>, rest: seq<Piece>, top: Piece)
    requires Deep(block, f, rest + [top])
    ensures Deep(block, f, rest) && top.d <= 15 && TiedSlice(block, f, top.d, top.lo, top.hi + 1)
  {
    hide TiedSlice;
    var stk := rest + [top];
    assert stk[|rest|] == top && forall k :: 0 <= k < |rest| ==> rest[k] == stk[k];
  }

  lemma ShrinkingTop(rest: seq<Piece>, top: Piece, size: int)
    requires Shrinking(rest + [top], size)
    ensures Shrinking(rest, size) && 0 <= Size(top) && Size(top) * Fib(|rest| + 2) <= size
  {
    hide Fib, Size;
    var stk := rest + [top];
    assert stk[|rest|] == top && forall k :: 0 <= k < |rest| ==> rest[k] == stk[k];
  }

  lemma TopShallow(top: Piece, k: nat, size: int)
    requires 0 <= Size(top) && Size(top) * Fib(k + 2) <= size < 2391484
    ensures top.hi - top.lo >= 20 ==> k <= 32
    ensures Size(top) == top.hi - top.lo + 1
  {
    if top.hi - top.lo >= 20 && k > 32 {
      FibMonotone(35, k + 2);
      FibValues();
      TimesMonotone(1, Size(top), Fib(k + 2));
    }
  }

  lemma RangingParts(block: seq<byte>, f0: seq<nat>, f: seq<nat>, lo: int, hi: int, rest: seq<Piece>, top: Piece)
    requires Ranging(block, f0, f, lo, hi, rest + [top])
    ensures 0 <= lo <= hi < |f| && hi - lo + 1 < 2391484 && SamePart(f0, f, lo, hi + 1)
    ensures NearlySorted(f, Order(block), lo, hi, Spans(rest) + [(top.lo, top.hi)])
    ensures Apart(lo, hi, Spans(rest) + [(top.lo, top.hi)]) && Shrinking(rest + [top], hi - lo + 1)
    ensures Deep(block, f, rest + [top]) && Deep(block, f, rest)
  {
    assert Spans(rest + [top]) == Spans(rest) + [(top.lo, top.hi)];
    hide Deep, NearlySorted, Apart, Shrinking, SamePart;
    DeepTop(block, f, rest, top);
  }

  lemma RangingFrom(block: seq<byte>, f0: seq<nat>, f: seq<nat>, lo: int, hi: int, stk: seq<Piece>)
    requires 0 <= lo <= hi < |f| && hi - lo + 1 < 2391484 && SamePart(f0, f, lo, hi + 1)
    requires NearlySorted(f, Order(block), lo, hi, Spans(stk))
    requires Apart(lo, hi, Spans(stk)) && Shrinking(stk, hi - lo + 1) && Deep(block, f, stk)
    ensures Ranging(block, f0, f, lo, hi, stk)
  {
  }

  /** Permuting the top range and ordering it up to the ranges that replace it. */
  lemma RangingReplace(block: seq<byte>, f0: seq<nat>, f: seq<nat>, g: seq<nat>, lo: int, hi: int,
                       rest: seq<Piece>, top: Piece, more: seq<Piece>)
    requires Ranging(block, f0, f, lo, hi, rest + [top]) && SamePart(f, g, top.lo, top.hi + 1)
    requires NearlySorted(g, Order(block), top.lo, top.hi, Spans(more)) && Deep(block, g, more)
    requires Apart(lo, hi, Spans(rest + more)) && Shrinking(rest + more, hi - lo + 1)
    ensures Ranging(block, f0, g, lo, hi, rest + more)
  {
    hide *;
    RangingParts(block, f0, f, lo, hi, rest, top);
    RangingTop(block, f0, f, lo, hi, rest, top);
    SamePartLength(f, g, top.lo, top.hi + 1);
    SpansJoin(rest, more);
    RestDeep(block, f, g, lo, hi, rest, top);
    DeepJoin(block, g, rest, more);
    ReplaceTop(f, g, Order(block), lo, hi, Spans(rest), (top.lo, top.hi), Spans(more));
    SamePartWider(f, g, top.lo, top.hi + 1, lo, hi + 1);
    SamePartTransitive(f0, f, g, lo, hi + 1);
    RangingFrom(block, f0, g, lo, hi, rest + more);
  }

  lemma DeepJoin(block: seq<byte>, f: seq<nat>, a: seq<Piece>, b: seq<Piece>)
    requires Deep(block, f, a) && Deep(block, f, b)
    ensures Deep(block, f, a + b)
  {
  }

  lemma RestDeep(block: seq<byte>, f: seq<nat>, g: seq<nat>, lo: int, hi: int, rest: seq<Piece>, top: Piece)
    requires Deep(block, f, rest) && SamePart(f, g, top.lo, top.hi + 1)
    requires Apart(lo, hi, Spans(rest) + [(top.lo, top.hi)])
    ensures Deep(block, g, rest)
  {
    var s := Spans(rest) + [(top.lo, top.hi)];
    assert s[|rest|] == (top.lo, top.hi);
    hide TiedSlice, SamePart;
    forall k | 0 <= k < |rest|
      ensures rest[k].d <= 15 && TiedSlice(block, g, rest[k].d, rest[k].lo, rest[k].hi + 1)
    {
      assert s[k] == (rest[k].lo, rest[k].hi);
      OutsideTied(block, f, g, rest[k].d, rest[k].lo, rest[k].hi + 1, top.lo, top.hi + 1);
    }
  }

  /** A range apart from the permuted one keeps its rotations. */
  lemma OutsideTied(block: seq<byte>, f: seq<nat>, g: seq<nat>, d: nat, a: int, b: int, lo: int, hi: int)
    requires TiedSlice(block, f, d, a, b) && SamePart(f, g, lo, hi) && (b <= lo || hi <= a)
    ensures TiedSlice(block, g, d, a, b)
  {
    SamePartLength(f, g, lo, hi);
    SamePartOutside(f, g, lo, hi);
    hide SamePart;
    assert forall i :: a <= i < b ==> g[i] == f[i];
  }

  lemma RangingDone(block: seq<byte>, f0: seq<nat>, f: seq<nat>, g: seq<nat>, lo: int, hi: int, rest: seq<Piece>, top: Piece)
    requires Ranging(block, f0, f, lo, hi, rest + [top])
    requires SamePart(f, g, top.lo, top.hi + 1) && SortedBy(g, Order(block), top.lo, top.hi + 1)
    ensures Ranging(block, f0, g, lo, hi, rest)
  {
    hide *;
    RangingParts(block, f0, f, lo, hi, rest, top);
    ApartPop(lo, hi, Spans(rest), (top.lo, top.hi));
    ShrinkingTop(rest, top, hi - lo + 1);
    SortedIsNearly(g, Order(block), top.lo, top.hi);
    NoSpans();
    assert rest + [] == rest;
    RangingReplace(block, f0, f, g, lo, hi, rest, top, []);
  }

  lemma NoSpans()
    ensures Spans([]) == [] && forall block, f :: Deep(block, f, [])
  {
  }

  /** All characters behind the first d were equal: the range goes back on the stack, one character deeper. */
  lemma RangingSame(block: seq<byte>, f0: seq<nat>, f: seq<nat>, g: seq<nat>, med: nat, lo: int, hi: int,
                    rest: seq<Piece>, top: Piece)
    requires Ranging(block, f0, f, lo, hi, rest + [top]) && top.d <= 14 && top.lo <= top.hi
    requires SamePart(f, g, top.lo, top.hi + 1) && AllEqual(g, Keys(block, top.d), med, top.lo, top.hi + 1)
    ensures Ranging(block, f0, g, lo, hi, rest + [Piece(top.lo, top.hi, top.d + 1)])
    ensures 0 <= Efforts(rest + [Piece(top.lo, top.hi, top.d + 1)]) < Efforts(rest + [top])
  {
    var next := Piece(top.lo, top.hi, top.d + 1);
    hide *;
    RangingParts(block, f0, f, lo, hi, rest, top);
    RangingTop(block, f0, f, lo, hi, rest, top);
    TiedSame(block, f, g, top.d, top.lo, top.hi + 1);
    Deepened(block, g, top.d, med, top.lo, top.hi + 1);
    OneSpan(block, g, next);
    SpansJoin(rest, [next]);
    ReplaceLast(rest, top, next, hi - lo + 1);
    RangingReplace(block, f0, f, g, lo, hi, rest, top, [next]);
    EffortsPush(rest, top);
    EffortsPush(rest, next);
    EffortSame(top, next);
  }

  lemma OneSpan(block: seq<byte>, f: seq<nat>, p: Piece)
    requires p.d <= 15 && TiedSlice(block, f, p.d, p.lo, p.hi + 1)
    ensures Spans([p]) == [(p.lo, p.hi)] && NearlySorted(f, Order(block), p.lo, p.hi, Spans([p])) && Deep(block, f, [p])
  {
    hide Order;
    forall i, j | p.lo <= i <= j <= p.hi
      ensures OneRange(Spans([p]), i, j)
    {
      assert Spans([p])[0].0 <= i && j <= Spans([p])[0].1;
    }
  }

  lemma EffortSame(top: Piece, next: Piece)
    requires next == Piece(top.lo, top.hi, top.d + 1) && top.d <= 14 && top.lo <= top.hi
    ensures 1 <= Effort(next) < Effort(top)
  {
    EffortPositive(next);
    assert Effort(top) == Effort(next) + 4 * Size(top);
  }

  lemma ReplaceLast(rest: seq<Piece>, top: Piece, next: Piece, size: int)
    requires Shrinking(rest + [top], size) && top.lo == next.lo && top.hi == next.hi
    ensures Shrinking(rest + [next], size)
  {
    hide Fib;
    var a, b := rest + [top], rest + [next];
    forall k | 0 <= k < |b|
      ensures 0 <= Size(b[k]) && Size(b[k]) * Fib(k + 2) <= size
    {
      assert Size(a[k]) == Size(b[k]);
    }
  }

  lemma Deepened(block: seq<byte>, f: seq<nat>, d: nat, med: nat, lo: int, hi: int)
    requires TiedSlice(block, f, d, lo, hi) && AllEqual(f, Keys(block, d), med, lo, hi)
    ensures TiedSlice(block, f, d + 1, lo, hi)
  {
    forall p, q | lo <= p < hi && lo <= q < hi
      ensures Pre(block, f[p], d + 1) == Pre(block, f[q], d + 1)
    {
      PreNext(block, f[p], d);
      PreNext(block, f[q], d);
    }
  }

  // The three ranges of a partitioning.

  /** ps are the ranges that the range top has been parted in, in some order. */
  ghost predicate Cut(block: seq<byte>, f: seq<nat>, top: Piece, ps: seq<Piece>) {
    && |ps| == 3 && 0 <= Size(ps[0]) && 0 <= Size(ps[1]) && 0 <= Size(ps[2])
    && Size(ps[0]) + Size(ps[1]) + Size(ps[2]) == Size(top)
    && Effort(ps[0]) + Effort(ps[1]) + Effort(ps[2]) < Effort(top)
    && NearlySorted(f, Order(block), top.lo, top.hi, Spans(ps)) && Apart(top.lo, top.hi, Spans(ps)) && Deep(block, f, ps)
  }

  lemma CutSizes(block: seq<byte>, f: seq<nat>, top: Piece, ps: seq<Piece>)
    requires Cut(block, f, top, ps)
    ensures |ps| == 3 && 0 <= Size(ps[0]) && 0 <= Size(ps[1]) && 0 <= Size(ps[2])
    ensures Size(ps[0]) + Size(ps[1]) + Size(ps[2]) == Size(top)
    ensures Effort(ps[0]) + Effort(ps[1]) + Effort(ps[2]) < Effort(top)
    ensures NearlySorted(f, Order(block), top.lo, top.hi, Spans(ps)) && Apart(top.lo, top.hi, Spans(ps)) && Deep(block, f, ps)
  {
  }

  lemma Smaller3(block: seq<byte>, f: seq<nat>, d: nat, lo: int, hi: int, p: int, q: int)
    requires TiedSlice(block, f, d, lo, hi) && lo <= p < hi && lo <= q < hi
    ensures f[p] < |block| && f[q] < |block|
    ensures Keys(block, d)[f[p]] < Keys(block, d)[f[q]] ==> Order(block)[f[p]] <= Order(block)[f[q]]
  {
    TiedPair(block, f, d, lo, hi, p, q);
    hide TiedSlice, Order;
    OrderAhead(block, f[p], f[q], d);
    OrderNext(block, Ahead(|block|, f[p], d), Ahead(|block|, f[q], d));
  }

  /** Smaller, greater and equal characters: the ranges left over after a partitioning. */
  lemma CutStart(block: seq<byte>, f: seq<nat>, med: nat, top: Piece, n: int, m: int)
    requires top.d <= 14 && TiedSlice(block, f, top.d, top.lo, top.hi + 1)
    requires Parted(f, Keys(block, top.d), med, top.lo, top.hi, n, m) && n + 1 < m
    ensures Cut(block, f, top, [Piece(top.lo, n, top.d), Piece(m, top.hi, top.d), Piece(n + 1, m - 1, top.d + 1)])
  {
    hide *;
    var ps := [Piece(top.lo, n, top.d), Piece(m, top.hi, top.d), Piece(n + 1, m - 1, top.d + 1)];
    var s := [(top.lo, n), (m, top.hi), (n + 1, m - 1)];
    PartedParts(f, Keys(block, top.d), med, top.lo, top.hi, n, m);
    TiedParts(block, f, top.d, top.lo, n + 1, m, top.hi + 1);
    Deepened(block, f, top.d, med, n + 1, m);
    ThreeDeep(block, f, ps);
    CutEffort(top, ps, n, m);
    CutNearly(block, f, med, top, n, m, s);
    CutApart(top.lo, top.hi, n, m, s);
    assert Spans(ps) == s;
    CutFrom(block, f, top, ps);
  }

  lemma CutFrom(block: seq<byte>, f: seq<nat>, top: Piece, ps: seq<Piece>)
    requires |ps| == 3 && 0 <= Size(ps[0]) && 0 <= Size(ps[1]) && 0 <= Size(ps[2])
    requires Size(ps[0]) + Size(ps[1]) + Size(ps[2]) == Size(top)
    requires Effort(ps[0]) + Effort(ps[1]) + Effort(ps[2]) < Effort(top)
    requires NearlySorted(f, Order(block), top.lo, top.hi, Spans(ps)) && Apart(top.lo, top.hi, Spans(ps)) && Deep(block, f, ps)
    ensures Cut(block, f, top, ps)
  {
  }

  lemma PartedParts(f: seq<nat>, e: seq<nat>, med: nat, lo: int, hi: int, n: int, m: int)
    requires Parted(f, e, med, lo, hi, n, m)
    ensures 0 <= lo <= n + 1 <= m <= hi + 1 <= |f| && AllEqual(f, e, med, n + 1, m)
  {
  }

  lemma TiedParts(block: seq<byte>, f: seq<nat>, d: nat, a: int, b: int, c: int, e: int)
    requires TiedSlice(block, f, d, a, e) && a <= b <= c <= e
    ensures TiedSlice(block, f, d, a, b) && TiedSlice(block, f, d, b, c) && TiedSlice(block, f, d, c, e)
  {
    hide Pre;
  }

  lemma ThreeDeep(block: seq<byte>, f: seq<nat>, ps: seq<Piece>)
    requires |ps| == 3 && forall k :: 0 <= k < 3 ==> ps[k].d <= 15
    requires TiedSlice(block, f, ps[0].d, ps[0].lo, ps[0].hi + 1) && TiedSlice(block, f, ps[1].d, ps[1].lo, ps[1].hi + 1)
    requires TiedSlice(block, f, ps[2].d, ps[2].lo, ps[2].hi + 1)
    ensures Deep(block, f, ps)
  {
    hide TiedSlice;
  }

  lemma CutNearly(block: seq<byte>, f: seq<nat>, med: nat, top: Piece, n: int, m: int, s: seq<(int, int)>)
    requires TiedSlice(block, f, top.d, top.lo, top.hi + 1) && Parted(f, Keys(block, top.d), med, top.lo, top.hi, n, m)
    requires s == [(top.lo, n), (m, top.hi), (n + 1, m - 1)]
    ensures NearlySorted(f, Order(block), top.lo, top.hi, s)
  {
    hide Order, Keys, TiedSlice;
    forall p, q | top.lo <= p <= q <= top.hi
      ensures f[p] < |block| && f[q] < |block| && (Order(block)[f[p]] <= Order(block)[f[q]] || OneRange(s, p, q))
    {
      Smaller3(block, f, top.d, top.lo, top.hi + 1, p, q);
      if q <= n {
        assert s[0].0 <= p && q <= s[0].1;
      } else if m <= p {
        assert s[1].0 <= p && q <= s[1].1;
      } else if n < p && q < m {
        assert s[2].0 <= p && q <= s[2].1;
      }
    }
  }

  lemma CutApart(lo: int, hi: int, n: int, m: int, s: seq<(int, int)>)
    requires lo <= n + 1 < m <= hi + 1 && s == [(lo, n), (m, hi), (n + 1, m - 1)]
    ensures Apart(lo, hi, s)
  {
  }

  lemma CutEffort(top: Piece, ps: seq<Piece>, n: int, m: int)
    requires top.lo <= n + 1 < m <= top.hi + 1 && top.d <= 14
    requires ps == [Piece(top.lo, n, top.d), Piece(m, top.hi, top.d), Piece(n + 1, m - 1, top.d + 1)]
    ensures Effort(ps[0]) + Effort(ps[1]) + Effort(ps[2]) < Effort(top)
    ensures Size(ps[0]) + Size(ps[1]) + Size(ps[2]) == Size(top)
    ensures 0 <= Size(ps[0]) && 0 <= Size(ps[1]) && 0 <= Size(ps[2])
  {
    var a, b, c, w := Size(ps[0]), Size(ps[1]), Size(ps[2]), 20 - top.d;
    assert (a + b + c) * w == a * w + b * w + c * w;
    assert c * (w - 1) == c * w - c;
  }

  lemma CutSwap(block: seq<byte>, f: seq<nat>, top: Piece, ps: seq<Piece>, i: nat)
    requires Cut(block, f, top, ps) && i < 2
    ensures Cut(block, f, top, ps[i := ps[i + 1]][i + 1 := ps[i]])
  {
    var qs := ps[i := ps[i + 1]][i + 1 := ps[i]];
    hide *;
    CutSizes(block, f, top, ps);
    assert Spans(qs) == Spans(ps)[i := Spans(ps)[i + 1]][i + 1 := Spans(ps)[i]];
    NearlySwap(f, Order(block), top.lo, top.hi, Spans(ps), i);
    ApartSwap(top.lo, top.hi, Spans(ps), i);
    DeepSwap(block, f, ps, i);
    CutFrom(block, f, top, qs);
  }

  lemma NearlySwap(f: seq<nat>, e: seq<nat>, lo: int, hi: int, s: seq<(int, int)>, i: nat)
    requires NearlySorted(f, e, lo, hi, s) && i + 1 < |s|
    ensures NearlySorted(f, e, lo, hi, s[i := s[i + 1]][i + 1 := s[i]])
  {
    var t := s[i := s[i + 1]][i + 1 := s[i]];
    forall p, q | lo <= p <= q <= hi && OneRange(s, p, q)
      ensures OneRange(t, p, q)
    {
      var k :| 0 <= k < |s| && s[k].0 <= p && q <= s[k].1;
      var k' := if k == i then i + 1 else if k == i + 1 then i else k;
      assert t[k'] == s[k];
    }
  }

  lemma ApartSwap(lo: int, hi: int, s: seq<(int, int)>, i: nat)
    requires Apart(lo, hi, s) && i + 1 < |s|
    ensures Apart(lo, hi, s[i := s[i + 1]][i + 1 := s[i]])
  {
  }

  lemma DeepSwap(block: seq<byte>, f: seq<nat>, ps: seq<Piece>, i: nat)
    requires Deep(block, f, ps) && i + 1 < |ps|
    ensures Deep(block, f, ps[i := ps[i + 1]][i + 1 := ps[i]])
  {
    hide TiedSlice;
  }

  lemma FibGrows(k: nat)
    ensures Fib(k + 1) <= 2 * Fib(k) || k == 0
    ensures k >= 1 ==> Fib(k + 2) <= 3 * Fib(k)
  {
    if k >= 1 {
      FibMonotone(k - 1, k);
      assert Fib(k + 1) == Fib(k) + Fib(k - 1);
    }
  }

  /** Three ranges in the order of their sizes, in place of one, keep the stack shallow. */
  lemma ThreeShrink(rest: seq<Piece>, top: Piece, ps: seq<Piece>, size: int)
    requires Shrinking(rest + [top], size) && |ps| == 3
    requires 0 <= Size(ps[2]) <= Size(ps[1]) <= Size(ps[0]) && Size(ps[0]) + Size(ps[1]) + Size(ps[2]) == Size(top)
    ensures Shrinking(rest + ps, size)
  {
    var a, b, k0 := rest + [top], rest + ps, |rest|;
    assert a[k0] == top && b[k0] == ps[0] && b[k0 + 1] == ps[1] && b[k0 + 2] == ps[2];
    var s, w := Size(top), Fib(k0 + 2);
    assert s * w <= size;
    FibGrows(k0 + 2);
    ThreeProducts(Size(ps[0]), Size(ps[1]), Size(ps[2]), s, w, Fib(k0 + 3), Fib(k0 + 4));
    hide Fib;
    forall k | 0 <= k < |b|
      ensures 0 <= Size(b[k]) && Size(b[k]) * Fib(k + 2) <= size
    {
      if k < k0 { assert a[k] == b[k]; }
    }
  }

  lemma ThreeProducts(x: int, y: int, z: int, s: int, w: int, v: int, u: int)
    requires 0 <= z <= y <= x && x + y + z == s && 0 <= w && v <= 2 * w && u <= 3 * w
    ensures x * w <= s * w && y * v <= s * w && z * u <= s * w
  {
    TimesMonotone(x, s, w);
    TimesMonotone(2 * y, s, w);
    TimesMonotone(3 * z, s, w);
    TimesMonotone(v, 2 * w, y);
    TimesMonotone(u, 3 * w, z);
    assert v * y == y * v && 2 * w * y == 2 * y * w && u * z == z * u && 3 * w * z == 3 * z * w;
  }

  lemma ApartInside(lo: int, hi: int, rest: seq<(int, int)>, top: (int, int), more: seq<(int, int)>)
    requires Apart(lo, hi, rest + [top]) && Apart(top.0, top.1, more)
    ensures Apart(lo, hi, rest + more)
  {
    var a, b := rest + [top], rest + more;
    assert a[|rest|] == top;
    assert forall k :: 0 <= k < |rest| ==> a[k] == rest[k] == b[k];
    assert forall k :: |rest| <= k < |b| ==> b[k] == more[k - |rest|];
  }

  lemma RangingCut(block: seq<byte>, f0: seq<nat>, f: seq<nat>, g: seq<nat>, lo: int, hi: int,
                   rest: seq<Piece>, top: Piece, ps: seq<Piece>)
    requires Ranging(block, f0, f, lo, hi, rest + [top]) && SamePart(f, g, top.lo, top.hi + 1)
    requires Cut(block, g, top, ps) && Size(ps[0]) >= Size(ps[1]) >= Size(ps[2])
    ensures Ranging(block, f0, g, lo, hi, rest + ps) && Efforts(rest + ps) < Efforts(rest + [top])
  {
    hide *;
    CutSizes(block, g, top, ps);
    RangingParts(block, f0, f, lo, hi, rest, top);
    ApartInside(lo, hi, Spans(rest), (top.lo, top.hi), Spans(ps));
    SpansJoin(rest, ps);
    ThreeShrink(rest, top, ps, hi - lo + 1);
    RangingReplace(block, f0, f, g, lo, hi, rest, top, ps);
    EffortsPush(rest, top);
    EffortsPush(rest, ps[0]);
    EffortsPush(rest + [ps[0]], ps[1]);
    EffortsPush(rest + [ps[0]] + [ps[1]], ps[2]);
    assert rest + [ps[0]] + [ps[1]] + [ps[2]] == rest + ps;
  }

  // The sort.

  /** mmed3. */
  function Med3(a0: byte, b0: byte, c: byte): (r: byte)
    ensures r == a0 || r == b0 || r == c
    ensures (r <= a0 || r <= b0) && (r <= a0 || r <= c) && (r <= b0 || r <= c)
    ensures (r >= a0 || r >= b0) && (r >= a0 || r >= c) && (r >= b0 || r >= c)
  {
    var a, b := if a0 > b0 then b0 else a0, if a0 > b0 then a0 else b0;
    if b > c then (if a > c then a else c) else b
  }

  /** The median of three characters of the range, and a place where it occurs. */
  method Median(ptr: array<nat>, ext: array<byte>, lo: int, hi: int, d: nat, ghost block: seq<byte>)
    returns (med: byte, ghost w: int)
    requires 0 <= lo <= hi < ptr.Length && d <= 15 && Extended(block, ext[..]) && forall i :: lo <= i <= hi ==> ptr[i] < |block|
    ensures lo <= w <= hi && ptr[w] < |Keys(block, d)| && Keys(block, d)[ptr[w]] == med
  {
    hide Keys, Extended;
    var mid := (lo + hi) / 2;
    var a := CharAt(ptr, ext, lo, d, block);
    var b := CharAt(ptr, ext, hi, d, block);
    var c := CharAt(ptr, ext, mid, d, block);
    med := Med3(a, b, c);
    w := if med == a then lo else if med == b then hi else mid;
  }

  /** The three ranges, the largest first. */
  method BySize(lo: int, hi: int, d: nat, n: int, m: int, ghost block: seq<byte>, ghost f: seq<nat>)
    returns (next: seq<Piece>)
    requires Cut(block, f, Piece(lo, hi, d), [Piece(lo, n, d), Piece(m, hi, d), Piece(n + 1, m - 1, d + 1)])
    ensures Cut(block, f, Piece(lo, hi, d), next) && |next| == 3 && Size(next[0]) >= Size(next[1]) >= Size(next[2])
  {
    hide Cut;
    ghost var top := Piece(lo, hi, d);
    next := [Piece(lo, n, d), Piece(m, hi, d), Piece(n + 1, m - 1, d + 1)];
    if next[0].hi - next[0].lo < next[1].hi - next[1].lo {
      CutSwap(block, f, top, next, 0);
      next := next[0 := next[1]][1 := next[0]];
    }
    if next[1].hi - next[1].lo < next[2].hi - next[2].lo {
      CutSwap(block, f, top, next, 1);
      next := next[1 := next[2]][2 := next[1]];
    }
    if next[0].hi - next[0].lo < next[1].hi - next[1].lo {
      CutSwap(block, f, top, next, 0);
      next := next[0 := next[1]][1 := next[0]];
    }
  }

  /**
   mainQSort3. Unless the budget runs out, the slice ends up in the order of the rotations; the stack never fills, and no
   comparison starts more than 15 characters into a rotation.
   */
  method MainQSort3(ptr: array<nat>, ext: array<byte>, quadrant: array<nat>, nblock: nat, loSt: int, hiSt: int, dSt: nat,
                    budget0: int, ghost block: seq<byte>)
    returns (budget: int)
    requires ptr != quadrant && ptr as object != ext && nblock == |block| && dSt <= 15
    requires 0 <= loSt <= hiSt < ptr.Length && hiSt - loSt + 1 < 2391484
    requires Extended(block, ext[..]) && Quadrants(block, quadrant[..]) && TiedSlice(block, ptr[..], dSt, loSt, hiSt + 1)
    modifies ptr
    ensures SamePart(old(ptr[..]), ptr[..], loSt, hiSt + 1) && budget <= budget0
    ensures budget >= 0 ==> SortedBy(ptr[..], Order(block), loSt, hiSt + 1)
  {
    hide *;
    ghost var f0 := ptr[..];
    budget := budget0;
    var stack := new Piece[100];
    var sp := 0;
    stack[sp], sp := Piece(loSt, hiSt, dSt), sp + 1;
    ghost var stk := [Piece(loSt, hiSt, dSt)];
    RangingStart(block, f0, loSt, hiSt, dSt);
    while sp > 0
      invariant 0 <= sp == |stk| <= 36 && budget <= budget0
      invariant forall k :: 0 <= k < sp ==> stack[k] == stk[k]
      invariant Ranging(block, f0, ptr[..], loSt, hiSt, stk)
      decreases Efforts(stk)
    {
      assert sp < 100 - 2;  // AssertH 1001
      ghost var rest, top := stk[..sp - 1], stk[sp - 1];
      assert stk == rest + [top];
      ghost var f := ptr[..];
      RangingTop(block, f0, f, loSt, hiSt, rest, top);
      sp := sp - 1;
      var lo, hi, d := stack[sp].lo, stack[sp].hi, stack[sp].d;
      if hi - lo < 20 || d > 14 {
        budget := MainSimpleSort.SimpleSort(ptr, ext, quadrant, nblock, lo, hi, d, budget, block);
        if budget < 0 {
          RangingAbandoned(block, f0, f, ptr[..], loSt, hiSt, rest, top);
          return;
        }
        RangingDone(block, f0, f, ptr[..], loSt, hiSt, rest, top);
        stk := rest;
        continue;
      }
      TiedBounds(block, f, d, lo, hi + 1);
      var med;
      ghost var w;
      med, w := Median(ptr, ext, lo, hi, d, block);
      var same, n, m := MainPartition(ptr, ext, d, med, lo, hi, w, block);
      if same {
        RangingSame(block, f0, f, ptr[..], med, loSt, hiSt, rest, top);
        stack[sp], sp := Piece(lo, hi, d + 1), sp + 1;
        stk := rest + [Piece(lo, hi, d + 1)];
        continue;
      }
      TiedSame(block, f, ptr[..], d, lo, hi + 1);
      CutStart(block, ptr[..], med, top, n, m);
      var next := BySize(lo, hi, d, n, m, block, ptr[..]);
      RangingCut(block, f0, f, ptr[..], loSt, hiSt, rest, top, next);
      stack[sp], sp := next[0], sp + 1;
      stack[sp], sp := next[1], sp + 1;
      stack[sp], sp := next[2], sp + 1;
      stk := rest + next;
    }
    RangingEnd(block, f0, ptr[..], loSt, hiSt, stk);
  }

  lemma RangingAbandoned(block: seq<byte>, f0: seq<nat>, f: seq<nat>, g: seq<nat>, lo: int, hi: int, rest: seq<Piece>, top: Piece)
    requires Ranging(block, f0, f, lo, hi, rest + [top]) && SamePart(f, g, top.lo, top.hi + 1)
    ensures SamePart(f0, g, lo, hi + 1)
  {
    hide *;
    RangingParts(block, f0, f, lo, hi, rest, top);
    RangingTop(block, f0, f, lo, hi, rest, top);
    SamePartWider(f, g, top.lo, top.hi + 1, lo, hi + 1);
    SamePartTransitive(f0, f, g, lo, hi + 1);
  }

  lemma RangingEnd(block: seq<byte>, f0: seq<nat>, f: seq<nat>, lo: int, hi: int, stk: seq<Piece>)
    requires Ranging(block, f0, f, lo, hi, stk) && stk == []
    ensures SamePart(f0, f, lo, hi + 1) && SortedBy(f, Order(block), lo, hi + 1)
  {
    assert forall p, q :: !OneRange(Spans(stk), p, q);
  }
}
