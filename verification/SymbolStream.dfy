/**
 The symbols of a block in groups of 50, each group coded with the table its selector names
 (dep/bzip2/compress.c, dep/bzip2/decompress.c), and what the decoder makes of them.
 */
module SymbolStream {
  import opened Bits
  import opened BitReader
  import opened KraftSum
  import opened HuffmanCode
  import opened HuffmanDecode
  import opened MoveToFront

  const BZ_G_SIZE := 50

  /** groupNo and groupPos: the group of the symbol read last, and how many more it holds. */
  datatype Place = Place(group: int, left: nat)

  /** Before the first symbol no group has been entered. */
  predicate Proper(at: Place) {
    at.left < BZ_G_SIZE && (at.group >= 0 || (at.group == -1 && at.left == 0))
  }

  function Advance(at: Place): (next: Place)
    requires Proper(at)
    ensures Proper(next) && next.group >= 0
  {
    if at.left == 0 then Place(at.group + 1, BZ_G_SIZE - 1) else Place(at.group, at.left - 1)
  }

  /** How many symbols the selectors still provide for. */
  function Capacity(at: Place, nSelectors: nat): int {
    at.left + 50 * (nSelectors - 1 - at.group)
  }

  /** Every selector names a table; every table has n lengths of 1..20. */
  ghost predicate Coding(tables: seq<seq<nat>>, sel: seq<byte>, n: nat) {
    && (forall g :: 0 <= g < |sel| ==> sel[g] < |tables|)
    && (forall t :: 0 <= t < |tables| ==> |tables[t]| == n && forall i :: 0 <= i < n ==> 1 <= tables[t][i] <= 20)
  }

  /** The bits for the symbols that come after a place. */
  function SymbolBits(tables: seq<seq<nat>>, sel: seq<byte>, n: nat, at: Place, syms: seq<nat>): seq<bool>
    requires Coding(tables, sel, n) && forall i :: 0 <= i < |syms| ==> syms[i] < n
    requires Proper(at) && |syms| <= Capacity(at, |sel|)
    decreases |syms|
  {
    if syms == [] then []
    else
      var next := Advance(at);
      CodeBits(tables[sel[next.group]], syms[0]) + SymbolBits(tables, sel, n, next, syms[1..])
  }

  lemma SymbolShrinks(lens: seq<nat>, bits: seq<bool>)
    requires forall i :: 0 <= i < |lens| ==> 1 <= lens[i]
    ensures ReadSymbol(lens, bits).Done? ==> |ReadSymbol(lens, bits).rest| < |bits| && ReadSymbol(lens, bits).value < |lens|
  {
    if i: nat :| StartsWith(lens, bits, i) {
      var j: nat :| StartsWith(lens, bits, j) && ReadSymbol(lens, bits) == Done(j, bits[lens[j]..]);
    }
  }

  /** The next symbol: there must be a selector for its group. */
  ghost function ReadCoded(bits: seq<bool>, tables: seq<seq<nat>>, sel: seq<byte>, n: nat, at: Place): (r: Read<nat>)
    requires Coding(tables, sel, n) && Proper(at)
    ensures r.Done? ==> |r.rest| < |bits| && r.value < n
  {
    var next := Advance(at);
    if next.group >= |sel| then Stop(DataError)
    else
      SymbolShrinks(tables[sel[next.group]], bits);
      ReadSymbol(tables[sel[next.group]], bits)
  }

  /** The constants of a block: its coding tables, selectors, end-of-block symbol, characters and largest size. */
  datatype Coded = Coded(tables: seq<seq<nat>>, sel: seq<byte>, eob: nat, unseq: seq<byte>, max: nat)

  ghost predicate WellCoded(c: Coded) {
    1 <= c.eob <= 257 && Coding(c.tables, c.sel, c.eob + 1)
  }

  /** The last column, decoded symbol by symbol up to the end-of-block symbol. */
  ghost function ReadColumn(bits: seq<bool>, c: Coded, at: Place, s: Mtf): (r: Read<seq<byte>>)
    requires WellCoded(c) && Proper(at) && |s.yy| == 256
    ensures r.Done? ==> |r.rest| < |bits|
    decreases |bits|, 1
  {
    Fetched(ReadCoded(bits, c.tables, c.sel, c.eob + 1, at), c, Advance(at), s)
  }

  /** A symbol has been fetched in state s. */
  ghost function Fetched(sym: Read<nat>, c: Coded, at: Place, s: Mtf): (r: Read<seq<byte>>)
    requires WellCoded(c) && Proper(at) && |s.yy| == 256
    ensures r.Done? ==> sym.Done? && |r.rest| <= |sym.rest|
    decreases if sym.Done? then |sym.rest| else 0, if sym.Done? then 3 else 0
  {
    match sym
    case Done(v, rest) => Continue(Step(s, v, c.eob, c.unseq, c.max), rest, c, at)
    case Stop(why) => Stop(why)
  }

  ghost function Continue(o: Outcome, bits: seq<bool>, c: Coded, at: Place): (r: Read<seq<byte>>)
    requires WellCoded(c) && Proper(at) && (o.More? ==> |o.s.yy| == 256)
    ensures r.Done? ==> |r.rest| <= |bits|
    decreases |bits|, 2
  {
    match o
    case More(s) => ReadColumn(bits, c, at, s)
    case End(out) => Done(out, bits)
    case Bad => Stop(DataError)
  }

  lemma FetchedIs(sym: Read<nat>, c: Coded, at: Place, s: Mtf)
    requires WellCoded(c) && Proper(at) && |s.yy| == 256
    ensures sym.Done? ==> Fetched(sym, c, at, s) == Continue(Step(s, sym.value, c.eob, c.unseq, c.max), sym.rest, c, at)
    ensures sym.Stop? ==> Fetched(sym, c, at, s) == Stop(sym.why)
  {
  }

  lemma Continues(o: Outcome, bits: seq<bool>, c: Coded, at: Place)
    requires WellCoded(c) && Proper(at) && (o.More? ==> |o.s.yy| == 256)
    ensures o.More? ==> Continue(o, bits, c, at) == ReadColumn(bits, c, at, o.s)
    ensures o.End? ==> Continue(o, bits, c, at) == Done(o.out, bits)
    ensures o.Bad? ==> Continue(o, bits, c, at) == Stop(DataError)
  {
  }

  // The round trip.

  lemma GroupInRange(tables: seq<seq<nat>>, sel: seq<byte>, n: nat, at: Place)
    requires Coding(tables, sel, n) && Proper(at) && 0 < Capacity(at, |sel|)
    ensures 0 <= Advance(at).group < |sel| && sel[Advance(at).group] < |tables|
    ensures Capacity(Advance(at), |sel|) == Capacity(at, |sel|) - 1
    ensures var lens := tables[sel[Advance(at).group]]; |lens| == n && forall i :: 0 <= i < n ==> 1 <= lens[i]
  {
  }

  lemma ReadCodedIs(bits: seq<bool>, tables: seq<seq<nat>>, sel: seq<byte>, n: nat, at: Place)
    requires Coding(tables, sel, n) && Proper(at) && Advance(at).group < |sel| && sel[Advance(at).group] < |tables|
    ensures ReadCoded(bits, tables, sel, n, at) == ReadSymbol(tables[sel[Advance(at).group]], bits)
  {
  }

  lemma SymbolBitsFirst(tables: seq<seq<nat>>, sel: seq<byte>, n: nat, at: Place, syms: seq<nat>)
    requires Coding(tables, sel, n) && forall i :: 0 <= i < |syms| ==> syms[i] < n
    requires Proper(at) && |syms| <= Capacity(at, |sel|) && syms != []
    requires 0 <= Advance(at).group < |sel| && sel[Advance(at).group] < |tables| && syms[0] < |tables[sel[Advance(at).group]]|
    requires |syms| - 1 <= Capacity(Advance(at), |sel|)
    ensures SymbolBits(tables, sel, n, at, syms)
         == CodeBits(tables[sel[Advance(at).group]], syms[0]) + SymbolBits(tables, sel, n, Advance(at), syms[1..])
  {
  }

  lemma FirstSymbol(tables: seq<seq<nat>>, sel: seq<byte>, n: nat, at: Place, syms: seq<nat>, more: seq<bool>)
    requires Coding(tables, sel, n) && forall i :: 0 <= i < |syms| ==> syms[i] < n
    requires Proper(at) && |syms| <= Capacity(at, |sel|) && syms != []
    requires forall t :: 0 <= t < |tables| ==> Kraft(tables[t]) <= 1.0
    ensures |syms| - 1 <= Capacity(Advance(at), |sel|)
    ensures ReadCoded(SymbolBits(tables, sel, n, at, syms) + more, tables, sel, n, at)
         == Done(syms[0], SymbolBits(tables, sel, n, Advance(at), syms[1..]) + more)
  {
    hide *;
    GroupInRange(tables, sel, n, at);
    SymbolBitsFirst(tables, sel, n, at, syms);
    var lens, rest := tables[sel[Advance(at).group]], SymbolBits(tables, sel, n, Advance(at), syms[1..]);
    ReadCodedIs(SymbolBits(tables, sel, n, at, syms) + more, tables, sel, n, at);
    Associate(CodeBits(lens, syms[0]), rest, more);
    SymbolRoundTrip(lens, syms[0], rest + more);
  }

  /** Whatever the symbols make of the column, their bits make of it. */
  lemma {:induction false} ColumnRoundTrip(c: Coded, at: Place, s: Mtf, syms: seq<nat>, more: seq<bool>, out: seq<byte>)
    requires WellCoded(c) && Proper(at) && |s.yy| == 256
    requires forall t :: 0 <= t < |c.tables| ==> Kraft(c.tables[t]) <= 1.0
    requires syms != [] && |syms| <= Capacity(at, |c.sel|) && forall i :: 0 <= i < |syms| ==> syms[i] <= c.eob
    requires forall i :: 0 <= i < |syms| - 1 ==> syms[i] != c.eob
    requires Steps(s, syms, c.eob, c.unseq, c.max) == End(out)
    ensures ReadColumn(SymbolBits(c.tables, c.sel, c.eob + 1, at, syms) + more, c, at, s) == Done(out, more)
    decreases |syms|
  {
    hide SymbolBits, ReadCoded, Advance, Capacity, Kraft;
    FirstSymbol(c.tables, c.sel, c.eob + 1, at, syms, more);
    var o := Step(s, syms[0], c.eob, c.unseq, c.max);
    var rest := SymbolBits(c.tables, c.sel, c.eob + 1, Advance(at), syms[1..]) + more;
    FetchedIs(Done(syms[0], rest), c, Advance(at), s);
    Continues(o, rest, c, Advance(at));
    if o.More? {
      assert syms[1..] != [];
      ColumnRoundTrip(c, Advance(at), o.s, syms[1..], more, out);
    } else {
      assert |syms| == 1;
      NoSymbols(c, Advance(at), syms[1..], more);
    }
  }

  lemma NoSymbols(c: Coded, at: Place, syms: seq<nat>, more: seq<bool>)
    requires WellCoded(c) && Proper(at) && syms == [] && 0 <= Capacity(at, |c.sel|)
    ensures SymbolBits(c.tables, c.sel, c.eob + 1, at, syms) + more == more
  {
    assert [] + more == more;
  }
}
