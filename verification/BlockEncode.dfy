/** Writing one block: sendMTFValues and the block part of BZ2_compressBlock (dep/bzip2/compress.c). */
module BlockEncode {
  import opened Bits
  import opened BitReader
  import opened BitWriter
  import opened KraftSum
  import opened Rotations
  import opened CharacterMaps
  import opened MoveToFront
  import opened MtfEncode
  import opened MappingTable
  import opened Selectors
  import opened CodingTables
  import opened HuffmanCode
  import opened SymbolStream
  import opened TableChoice
  import opened CountingOrder
  import BlockSort
  import opened BlockFormat

  ghost function Contents(len: seq<array<nat>>, n: nat): (tables: seq<seq<nat>>)
    requires forall t :: 0 <= t < |len| ==> n <= len[t].Length
    reads len
    ensures |tables| == |len| && forall t :: 0 <= t < |len| ==> tables[t] == len[t][..n]
  {
    seq(|len|, t requires 0 <= t < |len| && n <= len[t].Length reads len => len[t][..n])
  }

  lemma ContentsAt(len: seq<array<nat>>, n: nat)
    requires forall t :: 0 <= t < |len| ==> n <= len[t].Length
    ensures forall t :: 0 <= t < |len| ==> len[t][..n] == Contents(len, n)[t]
  {
  }

  // The coding tables.

  lemma TablesBitsNext(s: seq<bool>, tables: seq<seq<nat>>, t: nat)
    requires t < |tables| && forall k :: 0 <= k < |tables| ==> tables[k] != []
    ensures s + TablesBits(tables[t..]) == s + TableBits(tables[t]) + TablesBits(tables[t + 1..])
  {
    assert tables[t..][1..] == tables[t + 1..] && tables[t..][0] == tables[t];
    assert TablesBits(tables[t..]) == TableBits(tables[t]) + TablesBits(tables[t + 1..]);
    hide *;
    Associate(s, TableBits(tables[t]), TablesBits(tables[t + 1..]));
  }

  lemma NoTables(s: seq<bool>, tables: seq<seq<nat>>)
    ensures s + TablesBits(tables[|tables|..]) == s
  {
  }

  /** Now the coding tables. */
  method WriteTables(w: Writer, len: seq<array<nat>>, alphaSize: nat, ghost tables: seq<seq<nat>>)
    requires w.Valid() && 1 <= alphaSize && |tables| == |len|
    requires forall t :: 0 <= t < |len| ==> alphaSize <= len[t].Length && len[t] as object != w.zbits
    requires forall t :: 0 <= t < |len| ==> len[t][..alphaSize] == tables[t] && len[t][0] < 32
    requires forall t :: 0 <= t < |len| ==> tables[t] != []
    requires |w.Written()| + |TablesBits(tables)| <= 8 * w.zbits.Length
    modifies w, w.zbits
    ensures w.Valid() && w.Written() == old(w.Written()) + TablesBits(tables)
  {
    hide *;
    ghost var full := w.Written() + TablesBits(tables);
    assert tables[0..] == tables;
    var t := 0;
    while t < |len|
      invariant 0 <= t <= |len| && w.Valid() && w.Written() + TablesBits(tables[t..]) == full
      invariant forall k :: 0 <= k < |len| ==> len[k][..alphaSize] == tables[k] && len[k][0] < 32
    {
      TablesBitsNext(w.Written(), tables, t);
      WriteTable(w, len[t], alphaSize);
      t := t + 1;
    }
    NoTables(w.Written(), tables);
  }

  /** Assign actual codes for the tables. */
  method AssignAll(len: seq<array<nat>>, alphaSize: nat, ghost tables: seq<seq<nat>>) returns (code: seq<array<int>>)
    requires 1 <= alphaSize <= 258 && |tables| == |len|
    requires forall t :: 0 <= t < |len| ==> alphaSize <= len[t].Length && len[t][..alphaSize] == tables[t]
    requires forall t :: 0 <= t < |len| ==> |tables[t]| == alphaSize && forall v :: 0 <= v < alphaSize ==> 1 <= tables[t][v] <= 20
    ensures fresh(code) && |code| == |len| && forall t :: 0 <= t < |len| ==> code[t].Length == 258
    ensures forall t, v :: 0 <= t < |len| && 0 <= v < alphaSize ==> code[t][v] == CodeOf(tables[t], v)
  {
    hide CodeOf;
    code := [];
    var t := 0;
    while t < |len|
      invariant 0 <= t <= |len| && fresh(code) && |code| == t && forall k :: 0 <= k < t ==> code[k].Length == 258
      invariant forall k :: 0 <= k < |len| ==> len[k][..alphaSize] == tables[k]
      invariant forall k :: 0 <= k < |len| ==> len[k] as object !in (set c | c in code :: c as object)
      invariant forall k, v :: 0 <= k < t && 0 <= v < alphaSize ==> code[k][v] == CodeOf(tables[k], v)
    {
      var a := new int[258];
      assert forall i :: 0 <= i < alphaSize ==> tables[t][i] == len[t][i];
      var minLen, maxLen := LengthRange(len[t], alphaSize);
      AssignCodes(a, len[t], minLen, maxLen, alphaSize);
      code := code + [a];
      t := t + 1;
    }
  }

  // The block data proper.

  /** What the symbol loop still has to write from symbol i on, after the place at. */
  ghost predicate Pending(tables: seq<seq<nat>>, sel: seq<byte>, n: nat, at: Place, syms: seq<nat>, i: nat) {
    && Coding(tables, sel, n) && (forall k :: 0 <= k < |syms| ==> syms[k] < n)
    && Proper(at) && i <= |syms| && |syms| - i <= Capacity(at, |sel|)
  }

  ghost function PendingBits(tables: seq<seq<nat>>, sel: seq<byte>, n: nat, at: Place, syms: seq<nat>, i: nat): seq<bool>
    requires Pending(tables, sel, n, at, syms, i)
  {
    SymbolBits(tables, sel, n, at, syms[i..])
  }

  lemma PendingStart(tables: seq<seq<nat>>, sel: seq<byte>, n: nat, syms: seq<nat>)
    requires Coding(tables, sel, n) && forall k :: 0 <= k < |syms| ==> syms[k] < n
    requires |syms| <= 50 * |sel|
    ensures Pending(tables, sel, n, Place(-1, 0), syms, 0)
    ensures |syms| <= Capacity(Place(-1, 0), |sel|) && Proper(Place(-1, 0))
    ensures PendingBits(tables, sel, n, Place(-1, 0), syms, 0) == SymbolBits(tables, sel, n, Place(-1, 0), syms)
  {
    assert syms[0..] == syms;
  }

  lemma PendingNext(s: seq<bool>, tables: seq<seq<nat>>, sel: seq<byte>, n: nat, at: Place, syms: seq<nat>, i: nat)
    requires Pending(tables, sel, n, at, syms, i) && i < |syms|
    requires forall t :: 0 <= t < |tables| ==> Kraft(tables[t]) <= 1.0
    ensures 0 <= Advance(at).group < |sel| && sel[Advance(at).group] < |tables|
    ensures Pending(tables, sel, n, Advance(at), syms, i + 1)
    ensures var lens := tables[sel[Advance(at).group]];
            && syms[i] < |lens| && lens[syms[i]] <= 20 && CodeOf(lens, syms[i]) < Pow2(lens[syms[i]])
            && s + PendingBits(tables, sel, n, at, syms, i)
               == s + BitsOf(lens[syms[i]], CodeOf(lens, syms[i])) + PendingBits(tables, sel, n, Advance(at), syms, i + 1)
  {
    hide CodeOf, Kraft, SymbolBits, Pow2, BitsOf, CodeBits;
    GroupInRange(tables, sel, n, at);
    SymbolBitsFirst(tables, sel, n, at, syms[i..]);
    var lens := tables[sel[Advance(at).group]];
    assert syms[i..][1..] == syms[i + 1..];
    CodeFits(lens, syms[i]);
    CodeBitsIs(lens, syms[i]);
    Associate(s, CodeBits(lens, syms[i]), SymbolBits(tables, sel, n, Advance(at), syms[i + 1..]));
  }

  lemma CodeBitsIs(lens: seq<nat>, v: nat)
    requires v < |lens|
    ensures CodeBits(lens, v) == BitsOf(lens[v], CodeOf(lens, v))
  {
  }

  lemma PendingEnd(s: seq<bool>, tables: seq<seq<nat>>, sel: seq<byte>, n: nat, at: Place, syms: seq<nat>)
    requires Pending(tables, sel, n, at, syms, |syms|)
    ensures s + PendingBits(tables, sel, n, at, syms, |syms|) == s
  {
  }

  /** One group: the symbols gs..ge, with the table that the group selected. */
  method WriteGroup(w: Writer, len: array<nat>, code: array<int>, arr1: array<nat>, gs: nat, ge: nat, ghost group: nat,
                    ghost tables: seq<seq<nat>>, ghost sel: seq<byte>, ghost n: nat, ghost syms: seq<nat>, ghost full: seq<bool>)
    returns (ghost at: Place)
    requires w.Valid() && len as object != w.zbits && code as object != w.zbits && arr1 as object != w.zbits
    requires gs <= ge < gs + 50 && ge < |syms| <= 2 * arr1.Length && Halves(arr1[..], |syms|) == syms
    requires Pending(tables, sel, n, Place(group - 1, 0), syms, gs) && group < |sel| && sel[group] < |tables|
    requires forall t :: 0 <= t < |tables| ==> Kraft(tables[t]) <= 1.0
    requires |tables[sel[group]]| == n <= len.Length && n <= code.Length && len[..n] == tables[sel[group]]
    requires forall v :: 0 <= v < n ==> code[v] == CodeOf(tables[sel[group]], v)
    requires w.Written() + PendingBits(tables, sel, n, Place(group - 1, 0), syms, gs) == full && |full| <= 8 * w.zbits.Length
    modifies w, w.zbits
    ensures w.Valid() && Pending(tables, sel, n, at, syms, ge + 1)
    ensures w.Written() + PendingBits(tables, sel, n, at, syms, ge + 1) == full
    ensures ge + 1 < |syms| && ge == gs + 49 ==> at == Place(group, 0)
  {
    hide *;
    at := Place(group - 1, 0);
    var i := gs;
    while i <= ge
      invariant gs <= i <= ge + 1 && w.Valid() && Pending(tables, sel, n, at, syms, i)
      invariant w.Written() + PendingBits(tables, sel, n, at, syms, i) == full
      invariant at == if i == gs then Place(group - 1, 0) else Place(group, 50 - (i - gs))
      invariant Halves(arr1[..], |syms|) == syms && len[..n] == tables[sel[group]]
      invariant forall v :: 0 <= v < n ==> code[v] == CodeOf(tables[sel[group]], v)
    {
      PendingNext(w.Written(), tables, sel, n, at, syms, i);
      AdvanceInGroup(group, i - gs);
      HalvesAt(arr1[..], |syms|, i);
      var v := HalfAt(arr1[..], i);
      assert len[..n][v] == len[v];
      w.W(len[v], code[v]);
      at := Advance(at);
      i := i + 1;
    }
  }

  lemma AdvanceInGroup(group: nat, k: nat)
    requires k < 50
    ensures var at := if k == 0 then Place(group - 1, 0) else Place(group, 50 - k);
            Proper(at) && Advance(at) == Place(group, 49 - k)
  {
  }

  lemma HalvesAt(words: seq<nat>, n: nat, i: nat)
    requires n <= 2 * |words| && i < n
    ensures Halves(words, n)[i] == HalfAt(words, i)
  {
  }

  /** len and code hold the tables. */
  ghost predicate Holding(len: seq<array<nat>>, code: seq<array<int>>, n: nat, tables: seq<seq<nat>>)
    reads len, code
  {
    && |len| == |code| == |tables|
    && (forall t :: 0 <= t < |len| ==> |tables[t]| == n <= len[t].Length && n <= code[t].Length && len[t][..n] == tables[t])
    && forall t, v :: 0 <= t < |len| && 0 <= v < n ==> code[t][v] == CodeOf(tables[t], v)
  }

  lemma HoldingAt(len: seq<array<nat>>, code: seq<array<int>>, n: nat, tables: seq<seq<nat>>, t: nat)
    requires Holding(len, code, n, tables) && t < |tables|
    ensures t < |len| == |code| && |tables[t]| == n <= len[t].Length && n <= code[t].Length && len[t][..n] == tables[t]
    ensures forall v :: 0 <= v < n ==> code[t][v] == CodeOf(tables[t], v)
  {
  }

  lemma GroupTable(tables: seq<seq<nat>>, sel: seq<byte>, n: nat, at: Place, syms: seq<nat>, i: nat)
    requires Pending(tables, sel, n, at, syms, i) && i < |syms|
    ensures 0 <= Advance(at).group < |sel| && sel[Advance(at).group] < |tables|
  {
    GroupInRange(tables, sel, n, at);
  }

  /** All groups. The selectors are used up exactly (assertions 3006 and 3007). */
  method WriteSymbols(w: Writer, len: seq<array<nat>>, code: seq<array<int>>, arr1: array<nat>, nMTF: nat,
                      selector: array<byte>, nSelectors: nat, ghost tables: seq<seq<nat>>, ghost n: nat)
    returns (selCtr: nat)
    requires w.Valid() && arr1 as object != w.zbits && selector != w.zbits
    requires forall t :: 0 <= t < |len| ==> len[t] as object != w.zbits
    requires forall t :: 0 <= t < |code| ==> code[t] as object != w.zbits
    requires Holding(len, code, n, tables) && nSelectors <= selector.Length && 1 <= nMTF <= 2 * arr1.Length
    requires Coding(tables, selector[..nSelectors], n) && Grouped(nSelectors, nMTF)
    requires forall t :: 0 <= t < |tables| ==> Kraft(tables[t]) <= 1.0
    requires forall k :: 0 <= k < nMTF ==> Halves(arr1[..], nMTF)[k] < n
    requires nMTF <= Capacity(Place(-1, 0), nSelectors)
    requires |w.Written()| + |SymbolBits(tables, selector[..nSelectors], n, Place(-1, 0), Halves(arr1[..], nMTF))| <= 8 * w.zbits.Length
    modifies w, w.zbits
    ensures w.Valid() && selCtr == nSelectors
    ensures w.Written() == old(w.Written()) + old(SymbolBits(tables, selector[..nSelectors], n, Place(-1, 0), Halves(arr1[..], nMTF)))
  {
    hide *;
    ghost var words, sel := arr1[..], selector[..nSelectors];
    ghost var syms := Halves(words, nMTF);
    GroupedIs(nSelectors, nMTF);
    PendingStart(tables, sel, n, syms);
    ghost var full := w.Written() + SymbolBits(tables, sel, n, Place(-1, 0), syms);
    ghost var at := Place(-1, 0);
    selCtr := 0;
    var gs := 0;
    while true
      invariant 0 <= gs <= nMTF && w.Valid() && Pending(tables, sel, n, at, syms, gs)
      invariant w.Written() + PendingBits(tables, sel, n, at, syms, gs) == full
      invariant if gs < nMTF then gs == 50 * selCtr && at == Place(selCtr - 1, 0) else Grouped(selCtr, nMTF)
      invariant arr1[..] == words && selector[..nSelectors] == sel && Holding(len, code, n, tables)
      decreases nMTF - gs
    {
      if gs >= nMTF { break; }
      var ge := gs + 50 - 1;
      if ge >= nMTF { ge := nMTF - 1; }
      GroupTable(tables, sel, n, at, syms, gs);
      AdvanceInGroup(selCtr, 0);
      assert selector[selCtr] == sel[selCtr];
      HoldingAt(len, code, n, tables, selector[selCtr]);
      at := WriteGroup(w, len[selector[selCtr]], code[selector[selCtr]], arr1, gs, ge, selCtr, tables, sel, n, syms, full);
      if ge == nMTF - 1 { LastGroup(selCtr, gs, ge, nMTF); }
      gs := ge + 1;
      selCtr := selCtr + 1;
    }
    GroupedOnce(selCtr, nSelectors, nMTF);
    PendingEnd(w.Written(), tables, sel, n, at, syms);
  }

  lemma GroupedIs(nSelectors: nat, nMTF: nat)
    requires Grouped(nSelectors, nMTF)
    ensures nMTF <= 50 * nSelectors
  {
  }

  lemma LastGroup(selCtr: nat, gs: nat, ge: nat, nMTF: nat)
    requires gs == 50 * selCtr && gs <= ge < gs + 50 && ge + 1 == nMTF
    ensures Grouped(selCtr + 1, nMTF)
  {
  }

  lemma GroupedOnce(a: nat, b: nat, nMTF: nat)
    requires Grouped(a, nMTF) && Grouped(b, nMTF)
    ensures a == b
  {
  }

  // How long a block can get.

  lemma {:induction false} StepsShort(curr: nat, len: nat)
    requires 1 <= curr <= 17 && 1 <= len <= 17
    ensures |StepBits(curr, len)| <= 32
    ensures |StepBits(curr, len)| == 2 * if curr <= len then len - curr else curr - len
    decreases if curr <= len then len - curr else curr - len
  {
    if curr < len {
      StepsShort(curr + 1, len);
    } else if curr > len {
      StepsShort(curr - 1, len);
    }
  }

  lemma {:induction false} DeltasShort(curr: nat, lens: seq<nat>)
    requires 1 <= curr <= 17 && forall i :: 0 <= i < |lens| ==> 1 <= lens[i] <= 17
    ensures |DeltaBits(curr, lens)| <= 33 * |lens|
    decreases |lens|
  {
    if lens != [] {
      StepsShort(curr, lens[0]);
      DeltasShort(lens[0], lens[1..]);
    }
  }

  lemma {:induction false} TablesShort(tables: seq<seq<nat>>)
    requires forall t :: 0 <= t < |tables| ==>
               1 <= |tables[t]| <= 258 && forall i :: 0 <= i < |tables[t]| ==> 1 <= tables[t][i] <= 17
    ensures |TablesBits(tables)| <= 8519 * |tables|
  {
    if tables != [] {
      DeltasShort(tables[0][0], tables[0]);
      TablesShort(tables[1..]);
    }
  }

  lemma {:induction false} SymbolsShort(tables: seq<seq<nat>>, sel: seq<byte>, n: nat, at: Place, syms: seq<nat>)
    requires Coding(tables, sel, n) && forall i :: 0 <= i < |syms| ==> syms[i] < n
    requires Proper(at) && |syms| <= Capacity(at, |sel|)
    requires forall t, i :: 0 <= t < |tables| && 0 <= i < n ==> tables[t][i] <= 17
    ensures |SymbolBits(tables, sel, n, at, syms)| <= 17 * |syms|
    decreases |syms|
  {
    if syms != [] {
      GroupInRange(tables, sel, n, at);
      SymbolBitsFirst(tables, sel, n, at, syms);
      SymbolsShort(tables, sel, n, Advance(at), syms[1..]);
    }
  }

  /** Bits enough for any block of nMTF symbols. */
  function Room(nMTF: nat): nat {
    52000 + 18 * nMTF
  }

  // sendMTFValues.

  /** The four sections that sendMTFValues writes. */
  ghost function DataBits(inUse: seq<bool>, tables: seq<seq<nat>>, sel: seq<byte>, syms: seq<nat>): seq<bool>
    requires Sendable(inUse, tables, sel, syms)
  {
    InFirstList(|tables|, sel);
    MapBits(inUse) + SelectorBits(|tables|, Positions(FirstList(|tables|), sel)) + TablesBits(tables)
    + SymbolBits(tables, sel, UsedBelow(inUse, 256) + 2, Place(-1, 0), syms)
  }

  /** Complete tables of lengths 1..17, a selector for every group, symbols of the alphabet. */
  ghost predicate Sendable(inUse: seq<bool>, tables: seq<seq<nat>>, sel: seq<byte>, syms: seq<nat>) {
    && |inUse| == 256 && 2 <= |tables| <= 6 && 1 <= |sel| <= 18002 && Grouped(|sel|, |syms|)
    && Coding(tables, sel, UsedBelow(inUse, 256) + 2) && (forall i :: 0 <= i < |syms| ==> syms[i] < UsedBelow(inUse, 256) + 2)
    && (forall t :: 0 <= t < |tables| ==> Kraft(tables[t]) <= 1.0)
    && (forall t, i :: 0 <= t < |tables| && 0 <= i < UsedBelow(inUse, 256) + 2 ==> tables[t][i] <= 17)
  }

  lemma SendableParts(inUse: seq<bool>, tables: seq<seq<nat>>, sel: seq<byte>, syms: seq<nat>)
    requires Sendable(inUse, tables, sel, syms)
    ensures |inUse| == 256 && |tables| <= 6 && 50 * |sel| - 50 < |syms| <= 50 * |sel| && 1 <= |sel|
    ensures Coding(tables, sel, UsedBelow(inUse, 256) + 2) && forall i :: 0 <= i < |sel| ==> sel[i] < |tables|
    ensures forall t :: 0 <= t < |tables| ==>
               1 <= |tables[t]| <= 258 && tables[t] != [] && forall i :: 0 <= i < |tables[t]| ==> 1 <= tables[t][i] <= 17
    ensures forall i :: 0 <= i < |syms| ==> syms[i] < UsedBelow(inUse, 256) + 2
    ensures forall t, i :: 0 <= t < |tables| && 0 <= i < UsedBelow(inUse, 256) + 2 ==> tables[t][i] <= 17
    ensures Proper(Place(-1, 0)) && |syms| <= Capacity(Place(-1, 0), |sel|)
  {
    hide Kraft, UsedBelow;
  }

  lemma SumShort(m: nat, p: nat, t: nat, y: nat, nTables: nat, nSel: nat, nSyms: nat)
    requires m <= 272 && p <= 6 * nSel && t <= 8519 * nTables && y <= 17 * nSyms && nTables <= 6 && 50 * nSel - 50 < nSyms
    ensures m + (18 + p) + t + y + 105 <= Room(nSyms)
  {
    assert 8519 * nTables <= 51114;
  }

  lemma DataShort(inUse: seq<bool>, tables: seq<seq<nat>>, sel: seq<byte>, syms: seq<nat>)
    requires Sendable(inUse, tables, sel, syms)
    ensures forall i :: 0 <= i < |sel| ==> sel[i] in FirstList(|tables|)
    ensures forall t :: 0 <= t < |tables| ==> tables[t] != []
    ensures |MapBits(inUse)| + |SelectorBits(|tables|, Positions(FirstList(|tables|), sel))| + |TablesBits(tables)|
          + |SymbolBits(tables, sel, UsedBelow(inUse, 256) + 2, Place(-1, 0), syms)| + 105 <= Room(|syms|)
  {
    hide *;
    SendableParts(inUse, tables, sel, syms);
    InFirstList(|tables|, sel);
    var js := Positions(FirstList(|tables|), sel);
    MapShort(inUse);
    PositionBitsLength(js, 6);
    SelectorsLength(|tables|, js);
    TablesShort(tables);
    SymbolsShort(tables, sel, UsedBelow(inUse, 256) + 2, Place(-1, 0), syms);
    SumShort(|MapBits(inUse)|, |PositionBits(js)|, |TablesBits(tables)|,
             |SymbolBits(tables, sel, UsedBelow(inUse, 256) + 2, Place(-1, 0), syms)|, |tables|, |sel|, |syms|);
  }

  lemma MapShort(inUse: seq<bool>)
    requires |inUse| == 256
    ensures |MapBits(inUse)| <= 272
  {
    RowBitsLength(inUse, 0);
  }

  lemma SelectorsLength(nGroups: nat, js: seq<nat>)
    ensures |SelectorBits(nGroups, js)| == 18 + |PositionBits(js)|
  {
  }

  lemma ChosenSendable(inUse: seq<bool>, len: seq<array<nat>>, n: nat, tables: seq<seq<nat>>, sel: seq<byte>, syms: seq<nat>)
    requires |inUse| == 256 && n == UsedBelow(inUse, 256) + 2 && 2 <= |len| <= 6 && |len| == |tables| && syms != []
    requires forall t :: 0 <= t < |len| ==> n <= len[t].Length && tables[t] == len[t][..n] && Kraft(tables[t]) == 1.0
    requires forall t, v :: 0 <= t < |len| && 0 <= v < n ==> 1 <= len[t][v] <= 17
    requires Grouped(|sel|, |syms|) && |sel| <= 18002 && forall g :: 0 <= g < |sel| ==> sel[g] < |len|
    requires forall i :: 0 <= i < |syms| ==> syms[i] < n
    ensures Sendable(inUse, tables, sel, syms)
    ensures Coding(tables, sel, n) && |syms| <= Capacity(Place(-1, 0), |sel|)
    ensures forall t :: 0 <= t < |tables| ==> |tables[t]| == n && forall v :: 0 <= v < n ==> 1 <= tables[t][v] <= 20
  {
    hide Kraft;
    forall t, i | 0 <= t < |tables| && 0 <= i < n
      ensures 1 <= tables[t][i] <= 17
    {
      assert tables[t][i] == len[t][i];
    }
  }

  lemma HoldingIs(len: seq<array<nat>>, code: seq<array<int>>, n: nat, tables: seq<seq<nat>>)
    requires |len| == |code| == |tables|
    requires forall t :: 0 <= t < |len| ==> |tables[t]| == n <= len[t].Length && n <= code[t].Length && len[t][..n] == tables[t]
    requires forall t, v :: 0 <= t < |len| && 0 <= v < n ==> code[t][v] == CodeOf(tables[t], v)
    ensures Holding(len, code, n, tables)
  {
  }

  lemma FourParts(s: seq<bool>, a: seq<bool>, b: seq<bool>, c: seq<bool>, d: seq<bool>)
    ensures s + a + b + c + d == s + (a + b + c + d)
  {
    Associate(s, a, b);
    Associate(s, a + b, c);
    Associate(s, a + b + c, d);
  }

  lemma DataBitsAre(inUse: seq<bool>, tables: seq<seq<nat>>, sel: seq<byte>, syms: seq<nat>)
    requires Sendable(inUse, tables, sel, syms) && forall i :: 0 <= i < |sel| ==> sel[i] in FirstList(|tables|)
    requires forall t :: 0 <= t < |tables| ==> tables[t] != []
    requires Coding(tables, sel, UsedBelow(inUse, 256) + 2) && forall i :: 0 <= i < |syms| ==> syms[i] < UsedBelow(inUse, 256) + 2
    requires Proper(Place(-1, 0)) && |syms| <= Capacity(Place(-1, 0), |sel|)
    ensures DataBits(inUse, tables, sel, syms)
         == MapBits(inUse) + SelectorBits(|tables|, Positions(FirstList(|tables|), sel)) + TablesBits(tables)
            + SymbolBits(tables, sel, UsedBelow(inUse, 256) + 2, Place(-1, 0), syms)
  {
    hide SymbolBits, MapBits, SelectorBits, TablesBits, Kraft, Positions;
  }

  lemma SymbolsBelow(words: seq<nat>, nMTF: nat, syms: seq<nat>, n: nat)
    requires nMTF <= 2 * |words| && Halves(words, nMTF) == syms
    ensures forall i :: 0 <= i < nMTF ==> HalfAt(words, i) == syms[i]
  {
    forall i | 0 <= i < nMTF
      ensures HalfAt(words, i) == syms[i]
    {
      HalvesAt(words, nMTF, i);
    }
  }

  /** The move-to-front positions of the selectors are computed and written. */
  method SendSelectors(w: Writer, selector: array<byte>, nSelectors: nat, nGroups: nat)
    requires w.Valid() && selector as object != w.zbits && 1 <= nGroups <= 6 && nSelectors <= selector.Length && nSelectors < 0x8000
    requires forall i :: 0 <= i < nSelectors ==> selector[..nSelectors][i] in FirstList(nGroups)
    requires |w.Written()| + |SelectorBits(nGroups, Positions(FirstList(nGroups), selector[..nSelectors]))| <= 8 * w.zbits.Length
    modifies w, w.zbits
    ensures w.Valid() && selector[..nSelectors] == old(selector[..nSelectors])
    ensures w.Written() == old(w.Written()) + SelectorBits(nGroups, Positions(FirstList(nGroups), selector[..nSelectors]))
  {
    hide *;
    var selectorMtf := new nat[nSelectors];
    EncodeSelectors(selector, selectorMtf, nSelectors, nGroups);
    WriteSelectors(w, selectorMtf, nSelectors, nGroups);
  }

  /** sendMTFValues. */
  method SendMtfValues(w: Writer, arr1: array<nat>, nMTF: nat, inUse: array<bool>, nInUse: nat, mtfFreq: array<nat>)
    returns (ghost tables: seq<seq<nat>>, ghost sel: seq<byte>)
    requires w.Valid() && arr1 as object != w.zbits && inUse as object != w.zbits && mtfFreq as object != w.zbits
    requires 1 <= nMTF <= 900001 && nMTF <= 2 * arr1.Length && mtfFreq.Length == 258 && inUse.Length == 256
    requires nInUse == UsedBelow(inUse[..], 256) && 1 <= nInUse <= 256
    requires forall i :: 0 <= i < nMTF ==> Halves(arr1[..], nMTF)[i] < nInUse + 2
    requires |w.Written()| + Room(nMTF) - 105 <= 8 * w.zbits.Length
    modifies w, w.zbits
    ensures w.Valid() && Sendable(inUse[..], tables, sel, Halves(arr1[..], nMTF))
    ensures |w.Written()| <= |old(w.Written())| + Room(nMTF) - 105
    ensures w.Written() == old(w.Written()) + DataBits(inUse[..], tables, sel, Halves(arr1[..], nMTF))
  {
    hide *;
    ghost var used, words, start := inUse[..], arr1[..], w.Written();
    ghost var syms := Halves(words, nMTF);
    SymbolsBelow(words, nMTF, syms, nInUse + 2);
    var alphaSize := nInUse + 2;
    var nGroups, len, selector, nSelectors := ChooseTables(arr1, nMTF, alphaSize, mtfFreq);
    SeparateSizes(len, nGroups, alphaSize);
    sel, tables := selector[..nSelectors], Contents(len, alphaSize);
    ContentsAt(len, alphaSize);
    ChosenSendable(used, len, alphaSize, tables, sel, syms);
    DataShort(used, tables, sel, syms);
    StartPlace();
    DataBitsAre(used, tables, sel, syms);
    var code := AssignAll(len, alphaSize, tables);
    HoldingIs(len, code, alphaSize, tables);
    WriteMap(w, inUse);
    SendSelectors(w, selector, nSelectors, nGroups);
    WriteTables(w, len, alphaSize, tables);
    var selCtr := WriteSymbols(w, len, code, arr1, nMTF, selector, nSelectors, tables, alphaSize);
    FourParts(start, MapBits(used), SelectorBits(nGroups, Positions(FirstList(nGroups), sel)), TablesBits(tables),
              SymbolBits(tables, sel, alphaSize, Place(-1, 0), syms));
  }

  lemma StartPlace()
    ensures Proper(Place(-1, 0))
  {
  }

  lemma SeparateSizes(len: seq<array<nat>>, nGroups: nat, alphaSize: nat)
    requires Separate(len, nGroups, alphaSize)
    ensures |len| == nGroups && forall t :: 0 <= t < |len| ==> alphaSize <= len[t].Length
  {
  }

  // BZ2_compressBlock.

  /**
   bits decode, with anything following them, to a block from whose last column the walk that starts at
   origPtr spells out exactly the given block.
   */
  ghost predicate DecodesTo(bits: seq<bool>, level: nat, crc: nat, block: seq<byte>) {
    exists b: Block :: Decoded(bits, level, b) && b.crc == crc && !b.randomised && Spells(b, block)
  }

  ghost predicate Decoded(bits: seq<bool>, level: nat, b: Block) {
    forall more: seq<bool> :: ReadBlock(bits + more, level) == Done(b, more)
  }

  ghost predicate Spells(b: Block, block: seq<byte>) {
    && b.origPtr < |b.column| == |block|
    && forall perm: seq<nat> :: Permuted(b.column, perm) ==>
         && |perm| >= |block| && (forall i :: 0 <= i < |block| ==> perm[i] < |block|)
         && Walk(b.column, perm, b.origPtr, |block|) == block
  }

  lemma OrderInRange(block: seq<byte>, ptr: seq<nat>)
    requires IsOrder(block, ptr)
    ensures |ptr| == |block| && forall i :: 0 <= i < |ptr| ==> ptr[i] < |block|
  {
  }

  /** The whole chain: a block sorted in any valid order, coded with any sound choice of tables, decodes to itself. */
  lemma BlockDecodes(block: seq<byte>, ptr: seq<nat>, ch: Choice, level: nat)
    requires block != [] && AllUsed(block, ch.inUse) && IsOrder(block, ptr)
    requires ch.origPtr < |ptr| && ptr[ch.origPtr] == 0 && |ptr| <= 100000 * level <= 900000
    requires Sound(ch, |Symbols(block, ptr, ch.inUse)|)
    ensures DecodesTo(BlockBits(block, ptr, ch), level, ch.crc, block)
  {
    hide ReadBlock, Symbols, Sound, BlockBits, IsOrder, AllUsed;
    OrderInRange(block, ptr);
    var b := Block(ch.crc, false, ch.origPtr, LastColumn(block, ptr));
    forall more: seq<bool>
      ensures ReadBlock(BlockBits(block, ptr, ch) + more, level) == Done(b, more)
    {
      BlockRoundTrip(block, ptr, ch, level, more);
    }
    forall perm: seq<nat> | Permuted(b.column, perm)
      ensures |perm| >= |block| && forall i :: 0 <= i < |block| ==> perm[i] < |block|
      ensures Walk(b.column, perm, b.origPtr, |block|) == block
    {
      WalkGivesBlock(block, ptr, perm, ch.origPtr);
    }
    assert Decoded(BlockBits(block, ptr, ch), level, b);
  }

  lemma BlockBitsAre(block: seq<byte>, ptr: seq<nat>, ch: Choice, syms: seq<nat>)
    requires block != [] && AllUsed(block, ch.inUse) && forall i :: 0 <= i < |ptr| ==> ptr[i] < |block|
    requires syms == Symbols(block, ptr, ch.inUse) && Sendable(ch.inUse, ch.tables, ch.sel, syms)
    requires ch.crc < 0x1_0000_0000 && ch.origPtr < 0x100_0000
    ensures Sound(ch, |syms|)
    ensures BlockBits(block, ptr, ch)
         == BytesBits([0x31, 0x41, 0x59, 0x26, 0x53, 0x59]) + FixedBits(ch.crc, ch.origPtr)
            + DataBits(ch.inUse, ch.tables, ch.sel, syms)
  {
    hide SymbolBits, MapBits, SelectorBits, TablesBits, Kraft, Positions, Symbols, BytesBits, FixedBits, UsedBelow;
    Selectable(ch, |syms|);
    var a, b := BytesBits(BLOCK_MAGIC), FixedBits(ch.crc, ch.origPtr);
    var c, d := MapBits(ch.inUse), SelectorBits(|ch.tables|, Positions(FirstList(|ch.tables|), ch.sel));
    var e := TablesBits(ch.tables);
    var f := SymbolBits(ch.tables, ch.sel, UsedBelow(ch.inUse, 256) + 2, Place(-1, 0), syms);
    FourParts(a + b, c, d, e, f);
  }

  /** bsPutUChar, for a run of bytes. */
  method WriteBytes(w: Writer, bytes: seq<byte>)
    requires w.Valid() && |w.Written()| + 8 * |bytes| <= 8 * w.zbits.Length
    modifies w, w.zbits
    ensures w.Valid() && w.Written() == old(w.Written()) + BytesBits(bytes)
  {
    WordSize();
    hide Pow2, BitsOf, BytesBits;
    ghost var s := w.Written();
    var i := 0;
    NoBytes(s);
    assert bytes[..0] == [];
    while i < |bytes|
      invariant 0 <= i <= |bytes| && w.Valid() && w.Written() == s + BytesBits(bytes[..i])
    {
      w.W(8, bytes[i]);
      assert bytes[..i + 1] == bytes[..i] + [bytes[i]];
      BytesBitsAppend(bytes[..i], bytes[i]);
      Associate(s, BytesBits(bytes[..i]), BitsOf(8, bytes[i]));
      i := i + 1;
    }
    assert bytes[..|bytes|] == bytes;
  }

  lemma NoBytes(s: seq<bool>)
    ensures s + BytesBits([]) == s
  {
  }

  /** The four bytes of a 32-bit word, most significant first. */
  lemma WordBytes(u: nat)
    requires u < 0x1_0000_0000
    ensures Low(Shr(u, 24), 8) == Shr(u, 24)
    ensures BitsOf(8, Shr(u, 24)) + BitsOf(8, Low(Shr(u, 16), 8)) + BitsOf(8, Low(Shr(u, 8), 8)) + BitsOf(8, Low(u, 8))
         == BitsOf(32, u)
  {
    hide *;
    WordSize();
    HighFits(u, 8, 24);
    LowFits(Shr(u, 24), 8);
    BitsSplit(8, 24, u);
    BitsSplit(8, 16, u);
    BitsSplit(8, 8, u);
    BitsOfLow(8, 8, Shr(u, 16));
    BitsOfLow(8, 8, Shr(u, 8));
    BitsOfLow(8, 8, u);
    assert 8 + 24 == 32 && 8 + 16 == 24 && 8 + 8 == 16;
    var a, b, c, d := BitsOf(8, Shr(u, 24)), BitsOf(8, Shr(u, 16)), BitsOf(8, Shr(u, 8)), BitsOf(8, u);
    Associate(a, b, c + d);
    Associate(a + b, c, d);
  }

  /** bsPutUInt32. */
  method WriteWord(w: Writer, u: nat)
    requires w.Valid() && u < 0x1_0000_0000 && |w.Written()| + 32 <= 8 * w.zbits.Length
    modifies w, w.zbits
    ensures w.Valid() && w.Written() == old(w.Written()) + BitsOf(32, u)
  {
    hide *;
    ghost var s := w.Written();
    WordSize();
    WordBytes(u);
    w.W(8, Low(Shr(u, 24), 8));
    w.W(8, Low(Shr(u, 16), 8));
    w.W(8, Low(Shr(u, 8), 8));
    w.W(8, Low(u, 8));
    FourParts(s, BitsOf(8, Shr(u, 24)), BitsOf(8, Low(Shr(u, 16), 8)), BitsOf(8, Low(Shr(u, 8), 8)), BitsOf(8, Low(u, 8)));
  }

  lemma FixedBitsAre(s: seq<bool>, crc: nat, origPtr: nat)
    ensures s + BitsOf(32, crc) + [false] + BitsOf(24, origPtr) == s + FixedBits(crc, origPtr)
  {
    assert FixedBits(crc, origPtr) == BitsOf(32, crc) + [false] + BitsOf(24, origPtr);
    hide *;
    Associate(s, BitsOf(32, crc), [false]);
    Associate(s, BitsOf(32, crc) + [false], BitsOf(24, origPtr));
  }

  lemma SymbolsAre(block: seq<byte>, ptr: seq<nat>, inUse: seq<bool>, syms: seq<nat>)
    requires block != [] && AllUsed(block, inUse) && forall i :: 0 <= i < |ptr| ==> ptr[i] < |block|
    requires forall i :: 0 <= i < |ptr| ==> CodedColumn(block, ptr, inUse)[i] in FirstList(UsedBelow(inUse, 256))
    requires 1 <= UsedBelow(inUse, 256) <= 256
    requires syms == Emit(FirstList(UsedBelow(inUse, 256)), CodedColumn(block, ptr, inUse), 0) + [UsedBelow(inUse, 256) + 1]
    ensures syms == Symbols(block, ptr, inUse) && 1 <= |syms| && forall i :: 0 <= i < |syms| ==> syms[i] < UsedBelow(inUse, 256) + 2
  {
    hide Emit, CodedColumn, UsedBelow;
  }

  lemma RoomInArea(nMTF: nat, nblock: nat, level: nat)
    requires nMTF <= nblock + 1 && nblock <= 100000 * level && 1 <= level
    ensures 192 + Room(nMTF) <= 8 * (4 * (100000 * level + 34) - nblock)
  {
  }

  /** The fields in front of the mapping table. */
  method WriteFixed(w: Writer, blockCRC: nat, origPtr: nat)
    requires w.Valid() && blockCRC < 0x1_0000_0000 && origPtr < 0x100_0000 && |w.Written()| + 105 <= 8 * w.zbits.Length
    modifies w, w.zbits
    ensures w.Valid() && |w.Written()| == |old(w.Written())| + 105
    ensures w.Written() == old(w.Written()) + BytesBits([0x31, 0x41, 0x59, 0x26, 0x53, 0x59]) + FixedBits(blockCRC, origPtr)
  {
    hide *;
    ghost var head := w.Written() + BytesBits([0x31, 0x41, 0x59, 0x26, 0x53, 0x59]);
    WordSize();
    WriteBytes(w, [0x31, 0x41, 0x59, 0x26, 0x53, 0x59]);
    WriteWord(w, blockCRC);
    WriteBit(w, false);
    w.W(24, origPtr);
    FixedBitsAre(head, blockCRC, origPtr);
  }

  /**
   The block part of BZ2_compressBlock. The output area is what the block leaves of
   arr2; at most 64 bits, the stream header or what the previous block left in the buffer, are in front. The area is never
   outgrown, the block is still there afterwards, and what has been written decodes to it.
   */
  method EncodeBlock(w: Writer, arr1: array<nat>, arr2: array<nat>, block8: array<byte>, ftab: array<bool>,
                       nblock: nat, inUse: array<bool>, unseqToSeq: array<byte>, mtfFreq: array<nat>, blockCRC: nat, level: nat,
                       workFactor: int)
    returns (ghost written: seq<bool>)
    requires w.Valid() && 1 <= level <= 9 && 1 <= nblock <= 100000 * level && blockCRC < 0x1_0000_0000
    requires arr1 != arr2 && arr1 as object != block8 && arr1 as object != ftab && arr1 != mtfFreq && arr2 as object != block8
    requires arr2 as object != ftab && block8 as object != ftab && block8 != unseqToSeq && inUse as object != unseqToSeq
    requires inUse != ftab && inUse as object != arr1 && inUse as object != arr2 && inUse as object != block8
    requires inUse as object != mtfFreq && mtfFreq != arr2 && mtfFreq as object != block8 && mtfFreq as object != ftab
    requires w.zbits as object != arr1 && w.zbits as object != arr2 && w.zbits != block8 && w.zbits as object != ftab
    requires w.zbits as object != inUse && w.zbits != unseqToSeq && w.zbits as object != mtfFreq
    requires arr1.Length == nblock <= arr2.Length && nblock + 34 <= block8.Length && nblock + 64 <= ftab.Length
    requires inUse.Length == 256 == unseqToSeq.Length && mtfFreq.Length == 258
    requires AllUsed(block8[..nblock], inUse[..])
    requires |w.Written()| <= 64 && 4 * (100000 * level + 34) - nblock <= w.zbits.Length
    modifies w, w.zbits, arr1, arr2, block8, ftab, unseqToSeq, mtfFreq
    ensures w.Valid() && block8[..nblock] == old(block8[..nblock])
    ensures w.Written() == old(w.Written()) + written && DecodesTo(written, level, blockCRC, block8[..nblock])
    ensures |w.Written()| + 128 <= 8 * (4 * (100000 * level + 34) - nblock)
  {
    hide *;
    ghost var block, used, start := block8[..nblock], inUse[..], w.Written();
    var origPtr := BlockSort.BlockSort(arr1, arr2, block8, ftab, nblock, workFactor);
    ghost var ptr := arr1[..];
    OrderInRange(block, ptr);
    WriteFixed(w, blockCRC, origPtr);
    assert ptr[..nblock] == ptr;
    var nInUse, nMTF := GenerateMtfValues(arr1, block8, nblock, inUse, unseqToSeq, mtfFreq, block);
    ghost var syms := Halves(arr1[..], nMTF);
    SymbolsAre(block, ptr, used, syms);
    RoomInArea(nMTF, nblock, level);
    RoomIs(nMTF);
    ghost var tables, sel := SendMtfValues(w, arr1, nMTF, inUse, nInUse, mtfFreq);
    ghost var ch := Choice(blockCRC, origPtr, used, sel, tables);
    BlockBitsAre(block, ptr, ch, syms);
    BlockDecodes(block, ptr, ch, level);
    written := BlockBits(block, ptr, ch);
    ThreeParts(start, BytesBits([0x31, 0x41, 0x59, 0x26, 0x53, 0x59]), FixedBits(blockCRC, origPtr), DataBits(used, tables, sel, syms));
  }

  lemma RoomIs(nMTF: nat)
    ensures Room(nMTF) == 52000 + 18 * nMTF
  {
  }

  lemma ThreeParts(s: seq<bool>, a: seq<bool>, b: seq<bool>, c: seq<bool>)
    ensures s + a + b + c == s + (a + b + c)
  {
    Associate(s, a, b);
    Associate(s, a + b, c);
  }
}
