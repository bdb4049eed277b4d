/**
 How sendMTFValues (dep/bzip2/compress.c) settles on coding tables and selectors: a first guess, then four
 rounds in which every group of 50 symbols picks the cheapest table and the tables are rebuilt.
 */
module TableChoice {
  import opened Bits
  import opened KraftSum
  import opened MtfEncode
  import opened CodeLengths

  const BZ_N_ITERS := 4
  const BZ_MAX_SELECTORS := 2 + 900000 / 50
  const BZ_LESSER_ICOST := 0
  const BZ_GREATER_ICOST := 15

  /** The number of tables grows with the number of symbols. */
  function GroupsFor(nMTF: nat): (nGroups: nat)
    ensures 2 <= nGroups <= 6 && (nGroups >= 3 <==> nMTF >= 200) && (nGroups >= 4 <==> nMTF >= 600)
    ensures (nGroups >= 5 <==> nMTF >= 1200) && (nGroups == 6 <==> nMTF >= 2400)
  {
    if nMTF < 200 then 2 else if nMTF < 600 then 3 else if nMTF < 1200 then 4 else if nMTF < 2400 then 5 else 6
  }

  /** nGroups different tables of at least alphaSize cells. */
  ghost predicate Separate<T>(tables: seq<array<T>>, nGroups: nat, alphaSize: nat) {
    && |tables| == nGroups && (forall t :: 0 <= t < nGroups ==> alphaSize <= tables[t].Length)
    && forall s, t :: 0 <= s < t < nGroups ==> tables[s] != tables[t]
  }

  /** No length exceeds m. */
  ghost predicate Lengths(len: seq<array<nat>>, alphaSize: nat, m: nat)
    requires forall t :: 0 <= t < |len| ==> alphaSize <= len[t].Length
    reads len
  {
    forall t, v :: 0 <= t < |len| && 0 <= v < alphaSize ==> len[t][v] <= m
  }

  /** Every length is one of the two costs of the first guess. */
  ghost predicate Guessed(len: seq<array<nat>>, alphaSize: nat)
    requires forall t :: 0 <= t < |len| ==> alphaSize <= len[t].Length
    reads len
  {
    forall t, v :: 0 <= t < |len| && 0 <= v < alphaSize ==> len[t][v] == BZ_LESSER_ICOST || len[t][v] == BZ_GREATER_ICOST
  }

  lemma GuessIsShort(len: seq<array<nat>>, alphaSize: nat)
    requires forall t :: 0 <= t < |len| ==> alphaSize <= len[t].Length
    requires Guessed(len, alphaSize)
    ensures Lengths(len, alphaSize, 17)
  {
  }

  /** One table of the first guess: cheap from gs to ge, dear everywhere else. */
  method GuessTable(len: array<nat>, alphaSize: nat, gs: int, ge: int)
    requires alphaSize <= len.Length
    modifies len
    ensures forall v :: 0 <= v < alphaSize ==> len[v] == if gs <= v <= ge then BZ_LESSER_ICOST else BZ_GREATER_ICOST
  {
    var v := 0;
    while v < alphaSize
      invariant 0 <= v <= alphaSize && forall k :: 0 <= k < v ==> len[k] == if gs <= k <= ge then BZ_LESSER_ICOST else BZ_GREATER_ICOST
    {
      if v >= gs && v <= ge { len[v] := BZ_LESSER_ICOST; } else { len[v] := BZ_GREATER_ICOST; }
      v := v + 1;
    }
  }

  /** Generate an initial set of coding tables: the alphabet is cut into ranges of about equal frequency. */
  method InitialTables(len: seq<array<nat>>, mtfFreq: array<nat>, alphaSize: nat, nMTF: nat, nGroups: nat)
    requires nGroups > 0 && Separate(len, nGroups, alphaSize) && alphaSize <= mtfFreq.Length && mtfFreq !in len
    modifies len
    ensures Guessed(len, alphaSize)
    ensures forall s, t, v :: 0 <= s < t < nGroups && 0 <= v < alphaSize && len[s][v] == 0 ==> len[t][v] == 15
  {
    var nPart: int, remF: int, gs: int := nGroups, nMTF, 0;
    while nPart > 0
      invariant 0 <= nPart <= nGroups && 0 <= gs <= alphaSize
      invariant forall t, v :: nPart <= t < nGroups && 0 <= v < alphaSize ==> len[t][v] == 0 || len[t][v] == 15
      invariant forall t, v :: nPart <= t < nGroups && gs <= v < alphaSize ==> len[t][v] == 15
      invariant forall s, t, v :: nPart <= s < t < nGroups && 0 <= v < alphaSize && len[s][v] == 0 ==> len[t][v] == 15
    {
      var tFreq := if remF >= 0 then remF / nPart else -(-remF / nPart);
      var ge: int, aFreq: int := gs - 1, 0;
      while aFreq < tFreq && ge < alphaSize - 1
        modifies {}
        invariant gs - 1 <= ge <= alphaSize - 1
        decreases alphaSize - ge
      {
        ge := ge + 1;
        aFreq := aFreq + mtfFreq[ge];
      }
      if ge > gs && nPart != nGroups && nPart != 1 && (nGroups - nPart) % 2 == 1 {
        aFreq := aFreq - mtfFreq[ge];
        ge := ge - 1;
      }
      GuessTable(len[nPart - 1], alphaSize, gs, ge);
      nPart := nPart - 1;
      gs := ge + 1;
      remF := remF - aFreq;
    }
  }

  /** What the symbols from lo up to hi cost in a table. */
  ghost function Cost(len: seq<nat>, words: seq<nat>, lo: nat, hi: nat): nat
    requires lo <= hi <= 2 * |words| && forall i :: lo <= i < hi ==> HalfAt(words, i) < |len|
    decreases hi - lo
  {
    if lo == hi then 0 else Cost(len, words, lo, hi - 1) + len[HalfAt(words, hi - 1)]
  }

  lemma {:induction false} CostBound(len: seq<nat>, words: seq<nat>, lo: nat, hi: nat)
    requires lo <= hi <= 2 * |words| && forall i :: lo <= i < hi ==> HalfAt(words, i) < |len|
    requires forall v :: 0 <= v < |len| ==> len[v] <= 17
    ensures Cost(len, words, lo, hi) <= 17 * (hi - lo)
    decreases hi - lo
  {
    hide HalfAt;
    if lo < hi { CostBound(len, words, lo, hi - 1); }
  }

  /** Table bt is the first of those in which these symbols cost least; no cost leaves 16 bits. */
  ghost predicate Cheapest(len: seq<array<nat>>, alphaSize: nat, words: seq<nat>, lo: nat, hi: nat, bt: int)
    requires forall t :: 0 <= t < |len| ==> alphaSize <= len[t].Length
    reads len
  {
    && 0 <= bt < |len| && lo <= hi <= 2 * |words| && (forall i :: lo <= i < hi ==> HalfAt(words, i) < alphaSize)
    && (forall t :: 0 <= t < |len| ==> Cost(len[t][..alphaSize], words, lo, hi) < 0x1_0000)
    && (forall t :: 0 <= t < |len| ==> Cost(len[bt][..alphaSize], words, lo, hi) <= Cost(len[t][..alphaSize], words, lo, hi))
    && (forall t :: 0 <= t < bt ==> Cost(len[bt][..alphaSize], words, lo, hi) < Cost(len[t][..alphaSize], words, lo, hi))
  }

  /** The costs of a group, one symbol after the other. */
  method GroupCosts(cost: array<int>, len: seq<array<nat>>, arr1: array<nat>, gs: nat, ge: nat, nGroups: nat, alphaSize: nat)
    requires 2 <= nGroups <= 6 == cost.Length && Separate(len, nGroups, alphaSize)
    requires arr1 as object != cost && forall t :: 0 <= t < nGroups ==> len[t] as object != cost
    requires gs <= ge < gs + 50 && ge < 2 * arr1.Length
    requires forall i :: gs <= i <= ge ==> HalfAt(arr1[..], i) < alphaSize
    modifies cost
    ensures forall t :: 0 <= t < nGroups ==> cost[t] == Cost(len[t][..alphaSize], arr1[..], gs, ge + 1)
  {
    hide HalfAt;
    ghost var words := arr1[..];
    var t := 0;
    while t < nGroups
      invariant 0 <= t <= nGroups && forall k :: 0 <= k < t ==> cost[k] == 0
    {
      cost[t] := 0;
      t := t + 1;
    }
    var i := gs;
    while i <= ge
      invariant gs <= i <= ge + 1 && forall k :: 0 <= k < nGroups ==> cost[k] == Cost(len[k][..alphaSize], words, gs, i)
    {
      var icv := HalfAt(arr1[..], i);
      t := 0;
      while t < nGroups
        invariant 0 <= t <= nGroups
        invariant forall k :: 0 <= k < t ==> cost[k] == Cost(len[k][..alphaSize], words, gs, i + 1)
        invariant forall k :: t <= k < nGroups ==> cost[k] == Cost(len[k][..alphaSize], words, gs, i)
      {
        assert len[t][..alphaSize][icv] == len[t][icv];
        cost[t] := cost[t] + len[t][icv];
        t := t + 1;
      }
      i := i + 1;
    }
  }

  /** The same for six tables and a full group: two costs are added up in one word each, and never carry into one another. */
  method PackedCosts(cost: array<int>, len: seq<array<nat>>, pack: seq<array<nat>>, arr1: array<nat>, gs: nat, ge: nat, alphaSize: nat)
    requires cost.Length == 6 && Separate(len, 6, alphaSize) && Lengths(len, alphaSize, 17) && IsPacked(pack, len, alphaSize)
    requires arr1 as object != cost && ge == gs + 49 && ge < 2 * arr1.Length
    requires forall t :: 0 <= t < 6 ==> len[t] as object != cost
    requires forall i :: gs <= i <= ge ==> HalfAt(arr1[..], i) < alphaSize
    modifies cost
    ensures forall t :: 0 <= t < 6 ==> cost[t] == Cost(len[t][..alphaSize], arr1[..], gs, ge + 1)
  {
    hide HalfAt, Cost, Lengths;
    ghost var words := arr1[..];
    ghost var a, b, c, d, e, f :=
      len[0][..alphaSize], len[1][..alphaSize], len[2][..alphaSize], len[3][..alphaSize], len[4][..alphaSize], len[5][..alphaSize];
    SmallLengths(len, alphaSize, 0);
    SmallLengths(len, alphaSize, 2);
    SmallLengths(len, alphaSize, 4);
    CostNone(a, b, words, gs);
    CostNone(c, d, words, gs);
    CostNone(e, f, words, gs);
    var cost01, cost23, cost45 := 0, 0, 0;
    var i := gs;
    while i <= ge
      modifies {}
      invariant gs <= i <= ge + 1
      invariant cost01 == 0x1_0000 * Cost(b, words, gs, i) + Cost(a, words, gs, i)
      invariant cost23 == 0x1_0000 * Cost(d, words, gs, i) + Cost(c, words, gs, i)
      invariant cost45 == 0x1_0000 * Cost(f, words, gs, i) + Cost(e, words, gs, i)
    {
      var icv := HalfAt(arr1[..], i);
      CostsNext(a, b, words, gs, i);
      CostsNext(c, d, words, gs, i);
      CostsNext(e, f, words, gs, i);
      cost01, cost23, cost45 := cost01 + pack[0][icv], cost23 + pack[1][icv], cost45 + pack[2][icv];
      i := i + 1;
    }
    CostBound(a, words, gs, ge + 1);
    CostBound(c, words, gs, ge + 1);
    CostBound(e, words, gs, ge + 1);
    HalvesOf(Cost(b, words, gs, ge + 1), Cost(a, words, gs, ge + 1));
    HalvesOf(Cost(d, words, gs, ge + 1), Cost(c, words, gs, ge + 1));
    HalvesOf(Cost(f, words, gs, ge + 1), Cost(e, words, gs, ge + 1));
    cost[0], cost[1] := cost01 % 0x1_0000, cost01 / 0x1_0000;
    cost[2], cost[3] := cost23 % 0x1_0000, cost23 / 0x1_0000;
    cost[4], cost[5] := cost45 % 0x1_0000, cost45 / 0x1_0000;
  }

  lemma SmallLengths(len: seq<array<nat>>, alphaSize: nat, t: nat)
    requires Separate(len, 6, alphaSize) && Lengths(len, alphaSize, 17) && t < 6
    ensures forall v :: 0 <= v < |len[t][..alphaSize]| ==> len[t][..alphaSize][v] <= 17
  {
  }

  lemma CostNone(a: seq<nat>, b: seq<nat>, words: seq<nat>, gs: nat)
    requires gs <= 2 * |words|
    ensures Cost(a, words, gs, gs) == 0 == Cost(b, words, gs, gs)
  {
    hide HalfAt;
  }

  lemma CostsNext(a: seq<nat>, b: seq<nat>, words: seq<nat>, gs: nat, i: nat)
    requires gs <= i < 2 * |words| && |a| == |b| && forall k :: gs <= k <= i ==> HalfAt(words, k) < |a|
    ensures Cost(a, words, gs, i + 1) == Cost(a, words, gs, i) + a[HalfAt(words, i)]
    ensures Cost(b, words, gs, i + 1) == Cost(b, words, gs, i) + b[HalfAt(words, i)]
  {
  }

  /** len_pack holds the lengths of two tables in one word each. */
  ghost predicate IsPacked(pack: seq<array<nat>>, len: seq<array<nat>>, alphaSize: nat)
    requires |len| == 6 && forall t :: 0 <= t < 6 ==> alphaSize <= len[t].Length
    reads pack, len
  {
    && |pack| == 3 && (forall p :: 0 <= p < 3 ==> alphaSize <= pack[p].Length)
    && forall p, v :: 0 <= p < 3 && 0 <= v < alphaSize ==> pack[p][v] == 0x1_0000 * len[2 * p + 1][v] + len[2 * p][v]
  }

  method PackTwo(low: array<nat>, high: array<nat>, alphaSize: nat) returns (pack: array<nat>)
    requires alphaSize <= low.Length && alphaSize <= high.Length
    ensures fresh(pack) && pack.Length == alphaSize && forall v :: 0 <= v < alphaSize ==> pack[v] == 0x1_0000 * high[v] + low[v]
  {
    pack := new nat[alphaSize];
    var v := 0;
    while v < alphaSize
      invariant 0 <= v <= alphaSize && forall k :: 0 <= k < v ==> pack[k] == 0x1_0000 * high[k] + low[k]
    {
      pack[v] := 0x1_0000 * high[v] + low[v];
      v := v + 1;
    }
  }

  method PackLengths(len: seq<array<nat>>, alphaSize: nat) returns (pack: seq<array<nat>>)
    requires Separate(len, 6, alphaSize)
    ensures fresh(pack) && IsPacked(pack, len, alphaSize)
  {
    var a := PackTwo(len[0], len[1], alphaSize);
    var b := PackTwo(len[2], len[3], alphaSize);
    var c := PackTwo(len[4], len[5], alphaSize);
    pack := [a, b, c];
  }

  /** The table in which the symbols gs..ge cost least. */
  method BestTable(len: seq<array<nat>>, pack: seq<array<nat>>, arr1: array<nat>, gs: nat, ge: nat, nGroups: nat, alphaSize: nat)
    returns (bt: int)
    requires 2 <= nGroups <= 6 && Separate(len, nGroups, alphaSize) && Lengths(len, alphaSize, 17)
    requires nGroups == 6 ==> IsPacked(pack, len, alphaSize)
    requires gs <= ge < gs + 50 && ge < 2 * arr1.Length
    requires forall i :: gs <= i <= ge ==> HalfAt(arr1[..], i) < alphaSize
    ensures Cheapest(len, alphaSize, arr1[..], gs, ge + 1, bt)
  {
    hide HalfAt, Cost, IsPacked;
    ghost var words := arr1[..];
    var cost := new int[6];
    if nGroups == 6 && 50 == ge - gs + 1 {
      PackedCosts(cost, len, pack, arr1, gs, ge, alphaSize);
    } else {
      GroupCosts(cost, len, arr1, gs, ge, nGroups, alphaSize);
    }
    forall t | 0 <= t < nGroups
      ensures cost[t] < 0x1_0000
    {
      CostBound(len[t][..alphaSize], words, gs, ge + 1);
    }
    var bc := 999999999;
    bt := -1;
    var t := 0;
    while t < nGroups
      invariant 0 <= t <= nGroups && (t == 0 ==> bt == -1 && bc == 999999999)
      invariant t > 0 ==> 0 <= bt < t && bc == cost[bt]
      invariant forall k :: 0 <= k < t ==> bc <= cost[k]
      invariant forall k :: 0 <= k < bt ==> bc < cost[k]
    {
      if cost[t] < bc { bc, bt := cost[t], t; }
      t := t + 1;
    }
  }

  /** Counting one symbol more raises the weight of a table by at most 1. */
  lemma {:induction false} WeightGrows(freq: seq<int>, k: nat)
    requires k < |freq| && forall i :: 0 <= i < |freq| ==> 0 <= freq[i]
    ensures StartSum(freq[k := freq[k] + 1]) <= StartSum(freq) + 1
  {
    var n := |freq| - 1;
    var f := freq[k := freq[k] + 1];
    if k < n {
      WeightGrows(freq[..n], k);
      assert f[..n] == freq[..n][k := freq[k] + 1];
    } else {
      assert f[..n] == freq[..n];
    }
  }

  lemma {:induction false} WeightOfNone(freq: seq<int>)
    requires forall i :: 0 <= i < |freq| ==> freq[i] == 0
    ensures StartSum(freq) == |freq|
  {
    if freq != [] {
      WeightOfNone(freq[..|freq| - 1]);
    }
  }

  /** The counts of every table after at most n symbols. */
  ghost predicate Counted(freq: seq<int>, n: nat) {
    (forall i :: 0 <= i < |freq| ==> 0 <= freq[i]) && StartSum(freq) <= |freq| + n
  }

  lemma CountedOne(freq: seq<int>, n: nat, k: nat)
    requires Counted(freq, n) && k < |freq|
    ensures Counted(freq[k := freq[k] + 1], n + 1)
  {
    WeightGrows(freq, k);
  }

  lemma CountedNone(freq: seq<int>)
    requires forall i :: 0 <= i < |freq| ==> freq[i] == 0
    ensures Counted(freq, 0)
  {
    WeightOfNone(freq);
  }

  /** How often symbol v stands among the symbols from lo up to hi. */
  ghost function Occurs(words: seq<nat>, v: nat, lo: nat, hi: nat): nat
    requires lo <= hi <= 2 * |words|
    decreases hi - lo
  {
    if lo == hi then 0 else Occurs(words, v, lo, hi - 1) + if HalfAt(words, hi - 1) == v then 1 else 0
  }

  /** How often symbol v stands in the groups whose selector is t. */
  ghost function Tally(words: seq<nat>, sel: seq<byte>, t: nat, v: nat, nMTF: nat): nat
    requires nMTF <= 2 * |words| && 50 * |sel| - 50 < nMTF
    decreases |sel|
  {
    if sel == [] then 0
    else
      var g := |sel| - 1;
      Tally(words, sel[..g], t, v, nMTF)
      + if sel[g] == t then Occurs(words, v, 50 * g, if 50 * g + 50 <= nMTF then 50 * g + 50 else nMTF) else 0
  }

  /** How often each symbol stands in the groups that select table t. */
  ghost function Tallies(words: seq<nat>, sel: seq<byte>, t: nat, alphaSize: nat, nMTF: nat): (f: seq<int>)
    requires nMTF <= 2 * |words| && 50 * |sel| - 50 < nMTF
    ensures |f| == alphaSize && forall v :: 0 <= v < alphaSize ==> f[v] == Tally(words, sel, t, v, nMTF)
  {
    seq(alphaSize, v requires 0 <= v < alphaSize => Tally(words, sel, t, v, nMTF))
  }

  lemma TalliedIs(rfreq: seq<array<int>>, words: seq<nat>, sel: seq<byte>, t: nat, nMTF: nat)
    requires nMTF <= 2 * |words| && 50 * |sel| - 50 < nMTF && t < |rfreq| && Tallied(rfreq, words, sel, nMTF)
    ensures rfreq[t][..] == Tallies(words, sel, t, rfreq[t].Length, nMTF)
  {
    hide Tally;
  }

  lemma TallyOne(words: seq<nat>, sel: seq<byte>, bt: byte, t: nat, v: nat, nMTF: nat)
    requires nMTF <= 2 * |words| && 50 * |sel| < nMTF
    ensures var hi := if 50 * |sel| + 50 <= nMTF then 50 * |sel| + 50 else nMTF;
            Tally(words, sel + [bt], t, v, nMTF) == Tally(words, sel, t, v, nMTF) + if bt == t then Occurs(words, v, 50 * |sel|, hi) else 0
  {
    assert (sel + [bt])[..|sel|] == sel;
  }

  /** The frequencies of the selected table are incremented. */
  method CountSymbols(freq: array<int>, arr1: array<nat>, gs: nat, ge: nat, alphaSize: nat)
    requires freq.Length == alphaSize && arr1 as object != freq && gs <= ge < 2 * arr1.Length && Counted(freq[..], gs)
    requires forall i :: gs <= i <= ge ==> HalfAt(arr1[..], i) < alphaSize
    modifies freq
    ensures Counted(freq[..], ge + 1)
    ensures forall v :: 0 <= v < alphaSize ==> freq[v] == old(freq[v]) + Occurs(arr1[..], v, gs, ge + 1)
  {
    hide HalfAt, Counted;
    ghost var words := arr1[..];
    var i := gs;
    while i <= ge
      invariant gs <= i <= ge + 1 && Counted(freq[..], i) && arr1[..] == words
      invariant forall v :: 0 <= v < alphaSize ==> freq[v] == old(freq[v]) + Occurs(words, v, gs, i)
    {
      var v := HalfAt(arr1[..], i);
      ghost var before := freq[..];
      CountedOne(before, i, v);
      freq[v] := freq[v] + 1;
      assert freq[..] == before[v := before[v] + 1];
      i := i + 1;
    }
  }

  /** How the symbols split into groups: nSelectors is nMTF / 50, rounded up. */
  ghost predicate Grouped(nSelectors: nat, nMTF: nat) {
    50 * nSelectors - 50 < nMTF <= 50 * nSelectors
  }

  /** The counts of all tables. */
  ghost predicate AllCounted(rfreq: seq<array<int>>, n: nat)
    reads rfreq
  {
    forall t :: 0 <= t < |rfreq| ==> Counted(rfreq[t][..], n)
  }

  method ClearCounts(rfreq: seq<array<int>>, nGroups: nat, alphaSize: nat)
    requires Separate(rfreq, nGroups, alphaSize)
    modifies rfreq
    ensures AllCounted(rfreq, 0)
    ensures forall t, v :: 0 <= t < nGroups && 0 <= v < rfreq[t].Length ==> rfreq[t][v] == 0
  {
    var t := 0;
    while t < nGroups
      invariant 0 <= t <= nGroups && forall k :: 0 <= k < t ==> Counted(rfreq[k][..], 0)
      invariant forall k, v :: 0 <= k < t && 0 <= v < rfreq[k].Length ==> rfreq[k][v] == 0
    {
      ClearCount(rfreq[t]);
      t := t + 1;
    }
  }

  method ClearCount(freq: array<int>)
    modifies freq
    ensures Counted(freq[..], 0) && forall v :: 0 <= v < freq.Length ==> freq[v] == 0
  {
    var v := 0;
    while v < freq.Length
      invariant 0 <= v <= freq.Length && forall k :: 0 <= k < v ==> freq[k] == 0
    {
      freq[v] := 0;
      v := v + 1;
    }
    CountedNone(freq[..]);
  }

  lemma OthersCounted(rfreq: seq<array<int>>, n: nat, m: nat)
    requires AllCounted(rfreq, n) && n <= m
    ensures AllCounted(rfreq, m)
  {
  }

  /** Every table counts each symbol as often as it stands in the groups that selected the table. */
  ghost predicate Tallied(rfreq: seq<array<int>>, words: seq<nat>, sel: seq<byte>, nMTF: nat)
    requires nMTF <= 2 * |words| && 50 * |sel| - 50 < nMTF
    reads rfreq
  {
    forall t, v :: 0 <= t < |rfreq| && 0 <= v < rfreq[t].Length ==> rfreq[t][v] == Tally(words, sel, t, v, nMTF)
  }

  /** Where a group ends. */
  function GroupEnd(g: nat, nMTF: nat): nat {
    if 50 * g + 50 <= nMTF then 50 * g + 50 else nMTF
  }

  /** Every group has selected the table in which it costs least. */
  ghost predicate WellChosen(len: seq<array<nat>>, alphaSize: nat, words: seq<nat>, sel: seq<byte>, nMTF: nat)
    requires forall t :: 0 <= t < |len| ==> alphaSize <= len[t].Length
    reads len
  {
    forall g :: 0 <= g < |sel| ==> Cheapest(len, alphaSize, words, 50 * g, GroupEnd(g, nMTF), sel[g] as int)
  }

  /** One group: its cheapest table is selected and counts its symbols. */
  method SelectOne(len: seq<array<nat>>, pack: seq<array<nat>>, rfreq: seq<array<int>>, arr1: array<nat>, ghost sel: seq<byte>,
                   nMTF: nat, nGroups: nat, alphaSize: nat, gs: nat, ge: nat)
    returns (bt: int)
    requires 2 <= nGroups <= 6 && Separate(len, nGroups, alphaSize) && Lengths(len, alphaSize, 17)
    requires nGroups == 6 ==> IsPacked(pack, len, alphaSize)
    requires Separate(rfreq, nGroups, alphaSize) && forall t :: 0 <= t < nGroups ==> rfreq[t].Length == alphaSize
    requires forall t :: 0 <= t < nGroups ==> arr1 as object != rfreq[t]
    requires forall t, u :: 0 <= t < nGroups && 0 <= u < nGroups ==> len[t] as object != rfreq[u]
    requires nMTF <= 2 * arr1.Length && gs == 50 * |sel| < nMTF && ge + 1 == GroupEnd(|sel|, nMTF)
    requires forall i :: 0 <= i < nMTF ==> HalfAt(arr1[..], i) < alphaSize
    requires AllCounted(rfreq, gs) && Tallied(rfreq, arr1[..], sel, nMTF)
    modifies rfreq
    ensures 0 <= bt < nGroups && Cheapest(len, alphaSize, arr1[..], gs, ge + 1, bt)
    ensures AllCounted(rfreq, ge + 1) && Tallied(rfreq, arr1[..], sel + [bt as byte], nMTF)
  {
    hide HalfAt, Counted, Occurs, Cost, Tally, IsPacked;
    ghost var words := arr1[..];
    bt := BestTable(len, pack, arr1, gs, ge, nGroups, alphaSize);
    OthersCounted(rfreq, gs, ge + 1);
    label counting:
    assert Counted(rfreq[bt][..], gs);
    CountSymbols(rfreq[bt], arr1, gs, ge, alphaSize);
    forall t | 0 <= t < nGroups
      ensures Counted(rfreq[t][..], ge + 1)
    {
      if t != bt { assert rfreq[t][..] == old@counting(rfreq[t][..]); }
    }
    forall t, v | 0 <= t < nGroups && 0 <= v < alphaSize
      ensures rfreq[t][v] == Tally(words, sel + [bt as byte], t, v, nMTF)
    {
      TallyOne(words, sel, bt as byte, t, v, nMTF);
    }
  }

  /** All groups choose their tables, and the tables count what they were chosen for. */
  method SelectGroups(len: seq<array<nat>>, rfreq: seq<array<int>>, arr1: array<nat>, selector: array<byte>,
                      nMTF: nat, nGroups: nat, alphaSize: nat)
    returns (nSelectors: nat)
    requires 2 <= nGroups <= 6 && Separate(len, nGroups, alphaSize) && Lengths(len, alphaSize, 17)
    requires Separate(rfreq, nGroups, alphaSize) && forall t :: 0 <= t < nGroups ==> rfreq[t].Length == alphaSize
    requires forall t :: 0 <= t < nGroups ==> arr1 as object != rfreq[t] && selector as object != rfreq[t]
    requires forall t, u :: 0 <= t < nGroups && 0 <= u < nGroups ==> len[t] as object != rfreq[u]
    requires forall t :: 0 <= t < nGroups ==> selector as object != len[t]
    requires arr1 as object != selector && selector.Length == BZ_MAX_SELECTORS
    requires 1 <= nMTF <= 900001 && nMTF <= 2 * arr1.Length
    requires forall i :: 0 <= i < nMTF ==> HalfAt(arr1[..], i) < alphaSize
    modifies rfreq, selector
    ensures nSelectors <= BZ_MAX_SELECTORS && Grouped(nSelectors, nMTF)
    ensures WellChosen(len, alphaSize, arr1[..], selector[..nSelectors], nMTF)
    ensures forall g :: 0 <= g < nSelectors ==> selector[g] < nGroups
    ensures Tallied(rfreq, arr1[..], selector[..nSelectors], nMTF) && AllCounted(rfreq, nMTF)
  {
    hide HalfAt, Cheapest, Tallied, AllCounted, IsPacked, Counted, WellChosen, Tally, Cost, Lengths;
    ghost var words := arr1[..];
    ClearCounts(rfreq, nGroups, alphaSize);
    NothingTallied(rfreq, words, nMTF);
    var pack := [];
    if nGroups == 6 { pack := PackLengths(len, alphaSize); }
    nSelectors := 0;
    var gs := 0;
    assert selector[..0] == [];
    NothingChosen(len, alphaSize, words, nMTF);
    while true
      invariant 0 <= gs <= nMTF && arr1[..] == words && nSelectors <= BZ_MAX_SELECTORS && fresh(pack)
      invariant nGroups == 6 ==> IsPacked(pack, len, alphaSize)
      invariant if gs < nMTF then gs == 50 * nSelectors else Grouped(nSelectors, nMTF)
      invariant WellChosen(len, alphaSize, words, selector[..nSelectors], nMTF)
      invariant forall g :: 0 <= g < nSelectors ==> selector[g] < nGroups
      invariant Tallied(rfreq, words, selector[..nSelectors], nMTF) && AllCounted(rfreq, gs)
      decreases nMTF - gs
    {
      if gs >= nMTF { break; }
      var ge := gs + 50 - 1;
      if ge >= nMTF { ge := nMTF - 1; }
      SelectNext(len, pack, rfreq, arr1, selector, nSelectors, nMTF, nGroups, alphaSize, gs, ge);
      nSelectors := nSelectors + 1;
      gs := ge + 1;
    }
  }

  /** The next group: its choice is entered in selector. */
  method SelectNext(len: seq<array<nat>>, pack: seq<array<nat>>, rfreq: seq<array<int>>, arr1: array<nat>, selector: array<byte>,
                    n: nat, nMTF: nat, nGroups: nat, alphaSize: nat, gs: nat, ge: nat)
    requires 2 <= nGroups <= 6 && Separate(len, nGroups, alphaSize) && Lengths(len, alphaSize, 17)
    requires nGroups == 6 ==> IsPacked(pack, len, alphaSize)
    requires Separate(rfreq, nGroups, alphaSize) && forall t :: 0 <= t < nGroups ==> rfreq[t].Length == alphaSize
    requires forall t :: 0 <= t < nGroups ==> arr1 as object != rfreq[t] && selector as object != rfreq[t]
    requires forall t, u :: 0 <= t < nGroups && 0 <= u < nGroups ==> len[t] as object != rfreq[u]
    requires forall t :: 0 <= t < nGroups ==> selector as object != len[t]
    requires arr1 as object != selector && n < selector.Length
    requires nMTF <= 2 * arr1.Length && gs == 50 * n < nMTF && ge + 1 == GroupEnd(n, nMTF)
    requires forall i :: 0 <= i < nMTF ==> HalfAt(arr1[..], i) < alphaSize
    requires WellChosen(len, alphaSize, arr1[..], selector[..n], nMTF) && forall g :: 0 <= g < n ==> selector[g] < nGroups
    requires Tallied(rfreq, arr1[..], selector[..n], nMTF) && AllCounted(rfreq, gs)
    modifies rfreq, selector
    ensures WellChosen(len, alphaSize, arr1[..], selector[..n + 1], nMTF) && forall g :: 0 <= g < n + 1 ==> selector[g] < nGroups
    ensures Tallied(rfreq, arr1[..], selector[..n + 1], nMTF) && AllCounted(rfreq, ge + 1)
  {
    hide HalfAt, Cheapest, Tallied, AllCounted, IsPacked, Counted, WellChosen, Tally, Cost;
    ghost var words, sel := arr1[..], selector[..n];
    var bt := SelectOne(len, pack, rfreq, arr1, sel, nMTF, nGroups, alphaSize, gs, ge);
    ChosenOne(len, alphaSize, words, sel, bt as byte, nMTF);
    selector[n] := bt;
    assert selector[..n + 1] == sel + [bt as byte];
  }

  lemma HalvesOf(high: nat, low: nat)
    requires low < 0x1_0000
    ensures (0x1_0000 * high + low) % 0x1_0000 == low && (0x1_0000 * high + low) / 0x1_0000 == high
  {
  }

  lemma NothingChosen(len: seq<array<nat>>, alphaSize: nat, words: seq<nat>, nMTF: nat)
    requires forall t :: 0 <= t < |len| ==> alphaSize <= len[t].Length
    ensures WellChosen(len, alphaSize, words, [], nMTF)
  {
  }

  lemma ChosenOne(len: seq<array<nat>>, alphaSize: nat, words: seq<nat>, sel: seq<byte>, bt: byte, nMTF: nat)
    requires forall t :: 0 <= t < |len| ==> alphaSize <= len[t].Length
    requires WellChosen(len, alphaSize, words, sel, nMTF)
    requires Cheapest(len, alphaSize, words, 50 * |sel|, GroupEnd(|sel|, nMTF), bt as int)
    ensures WellChosen(len, alphaSize, words, sel + [bt], nMTF)
  {
    hide Cheapest;
  }

  lemma NothingTallied(rfreq: seq<array<int>>, words: seq<nat>, nMTF: nat)
    requires nMTF <= 2 * |words| && forall t, v :: 0 <= t < |rfreq| && 0 <= v < rfreq[t].Length ==> rfreq[t][v] == 0
    ensures Tallied(rfreq, words, [], nMTF)
  {
  }

  /** Recompute the tables based on the accumulated frequencies. */
  method RebuildTables(len: seq<array<nat>>, rfreq: seq<array<int>>, nGroups: nat, alphaSize: nat, ghost nMTF: nat)
    requires 2 <= nGroups <= 6 && Separate(len, nGroups, alphaSize) && 3 <= alphaSize <= 258
    requires Separate(rfreq, nGroups, alphaSize) && forall t :: 0 <= t < nGroups ==> rfreq[t].Length == alphaSize
    requires forall t, u :: 0 <= t < nGroups && 0 <= u < nGroups ==> len[t] as object != rfreq[u]
    requires nMTF <= 900001 && AllCounted(rfreq, nMTF)
    modifies len
    ensures Lengths(len, alphaSize, 17)
    ensures forall t :: 0 <= t < nGroups ==> Kraft(len[t][..alphaSize]) == 1.0
    ensures forall t, v :: 0 <= t < nGroups && 0 <= v < alphaSize ==> 1 <= len[t][v] <= 17
    ensures forall t :: 0 <= t < nGroups ==> BestLengths(rfreq[t][..], len[t][..alphaSize], 17)
  {
    hide Kraft, BestLengths;
    var t := 0;
    while t < nGroups
      invariant 0 <= t <= nGroups && AllCounted(rfreq, nMTF)
      invariant forall k :: 0 <= k < t ==> BestLengths(rfreq[k][..], len[k][..alphaSize], 17)
      invariant forall k :: 0 <= k < t ==> Kraft(len[k][..alphaSize]) == 1.0
      invariant forall k, v :: 0 <= k < t && 0 <= v < alphaSize ==> 1 <= len[k][v] <= 17
    {
      assert Counted(rfreq[t][..], nMTF);
      assert rfreq[t][..alphaSize] == rfreq[t][..];
      assert forall i :: 0 <= i < alphaSize ==> rfreq[t][i] == rfreq[t][..][i];
      MakeCodeLengths(len[t], rfreq[t], alphaSize, 17);
      t := t + 1;
    }
  }

  /**
   The coding tables and selectors of a block: complete codes of at most 17 bits for every table, and a
   selector for every group (assertions 3001 to 3005). Every table is best for the symbols of the groups that select it.
   */
  method ChooseTables(arr1: array<nat>, nMTF: nat, alphaSize: nat, mtfFreq: array<nat>)
    returns (nGroups: nat, len: seq<array<nat>>, selector: array<byte>, nSelectors: nat)
    requires 1 <= nMTF <= 900001 && nMTF <= 2 * arr1.Length && 3 <= alphaSize <= 258 <= mtfFreq.Length
    requires forall i :: 0 <= i < nMTF ==> HalfAt(arr1[..], i) < alphaSize
    ensures 2 <= nGroups <= 6 && fresh(len) && fresh(selector)
    ensures (nGroups >= 3 <==> nMTF >= 200) && (nGroups >= 4 <==> nMTF >= 600) && (nGroups >= 5 <==> nMTF >= 1200)
    ensures nGroups == 6 <==> nMTF >= 2400
    ensures Separate(len, nGroups, alphaSize) && forall t :: 0 <= t < nGroups ==> Kraft(len[t][..alphaSize]) == 1.0
    ensures forall t, v :: 0 <= t < nGroups && 0 <= v < alphaSize ==> 1 <= len[t][v] <= 17
    ensures Grouped(nSelectors, nMTF) && nSelectors <= 18002 == selector.Length
    ensures forall g :: 0 <= g < nSelectors ==> selector[g] < nGroups
    ensures 50 * nSelectors - 50 < nMTF
    ensures forall t :: 0 <= t < nGroups ==>
              BestLengths(Tallies(arr1[..], selector[..nSelectors], t, alphaSize, nMTF), len[t][..alphaSize], 17)
  {
    hide HalfAt, Kraft, AllCounted, Tallied, WellChosen, Guessed, Grouped, BestLengths, Tally;
    nGroups := GroupsFor(nMTF);
    ghost var words := arr1[..];
    var rfreq;
    len, rfreq := AllocateTables(nGroups, alphaSize);
    selector := new byte[BZ_MAX_SELECTORS];
    InitialTables(len, mtfFreq, alphaSize, nMTF, nGroups);
    GuessIsShort(len, alphaSize);
    nSelectors := 0;
    var iter := 0;
    while iter < BZ_N_ITERS
      invariant 0 <= iter <= BZ_N_ITERS && arr1[..] == words && Lengths(len, alphaSize, 17)
      invariant iter > 0 ==> forall t :: 0 <= t < nGroups ==> Kraft(len[t][..alphaSize]) == 1.0
      invariant iter > 0 ==> forall t, v :: 0 <= t < nGroups && 0 <= v < alphaSize ==> 1 <= len[t][v] <= 17
      invariant iter > 0 ==> Grouped(nSelectors, nMTF) && nSelectors <= BZ_MAX_SELECTORS
      invariant iter > 0 ==> forall g :: 0 <= g < nSelectors ==> selector[g] < nGroups
      invariant iter > 0 ==> 50 * nSelectors - 50 < nMTF
      invariant iter > 0 ==> forall t :: 0 <= t < nGroups ==>
                  BestLengths(Tallies(words, selector[..nSelectors], t, alphaSize, nMTF), len[t][..alphaSize], 17)
    {
      nSelectors := SelectGroups(len, rfreq, arr1, selector, nMTF, nGroups, alphaSize);
      GroupedIs(nSelectors, nMTF);
      RebuildTables(len, rfreq, nGroups, alphaSize, nMTF);
      forall t | 0 <= t < nGroups
        ensures BestLengths(Tallies(words, selector[..nSelectors], t, alphaSize, nMTF), len[t][..alphaSize], 17)
      {
        TalliedIs(rfreq, words, selector[..nSelectors], t, nMTF);
      }
      iter := iter + 1;
    }
  }

  lemma GroupedIs(n: nat, nMTF: nat)
    requires Grouped(n, nMTF)
    ensures 50 * n - 50 < nMTF
  {
  }

  method AllocateTables(nGroups: nat, alphaSize: nat) returns (len: seq<array<nat>>, rfreq: seq<array<int>>)
    ensures fresh(len) && fresh(rfreq) && Separate(len, nGroups, alphaSize) && Separate(rfreq, nGroups, alphaSize)
    ensures forall t :: 0 <= t < nGroups ==> rfreq[t].Length == alphaSize
    ensures forall t, u :: 0 <= t < nGroups && 0 <= u < nGroups ==> len[t] as object != rfreq[u]
  {
    len, rfreq := [], [];
    var t := 0;
    while t < nGroups
      invariant 0 <= t <= nGroups && fresh(len) && fresh(rfreq)
      invariant Separate(len, t, alphaSize) && Separate(rfreq, t, alphaSize)
      invariant forall k :: 0 <= k < t ==> rfreq[k].Length == alphaSize
      invariant forall k, u :: 0 <= k < t && 0 <= u < t ==> len[k] as object != rfreq[u]
    {
      var a := new nat[alphaSize];
      var b := new int[alphaSize];
      len, rfreq := len + [a], rfreq + [b];
      t := t + 1;
    }
  }
}
