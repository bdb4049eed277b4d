/**
 The bits of one block, as BZ2_compressBlock writes them (dep/bzip2/compress.c) and BZ2_decompress reads
 them (dep/bzip2/decompress.c), and the theorem that the decoder gets the block back.
 */
module BlockFormat {
  import opened Bits
  import opened BitReader
  import opened KraftSum
  import opened Rotations
  import opened CharacterMaps
  import opened MoveToFront
  import opened MtfEncode
  import opened MappingTable
  import opened Selectors
  import opened CodingTables
  import opened SymbolStream

  /** What a block carries: the CRC of its data, the place of rotation 0 and the last column. */
  datatype Block = Block(crc: nat, randomised: bool, origPtr: nat, column: seq<byte>)

  const BLOCK_MAGIC: seq<byte> := [0x31, 0x41, 0x59, 0x26, 0x53, 0x59]

  // Reading.

  /** The given bytes must come next. */
  function ReadMagic(bits: seq<bool>, magic: seq<byte>): (r: Read<()>)
    ensures r.Done? ==> |r.rest| <= |bits|
    decreases |magic|
  {
    if magic == [] then Done((), bits)
    else if |bits| < 8 then Stop(NeedInput)
    else if Value(bits[..8]) != magic[0] then Stop(DataError)
    else ReadMagic(bits[8..], magic[1..])
  }

  /** n bytes more of a number, the highest first, of which acc has been read. */
  function ReadNumber(bits: seq<bool>, n: nat, acc: nat): (r: Read<nat>)
    ensures r.Done? ==> |r.rest| <= |bits|
    decreases n
  {
    if n == 0 then Done(acc, bits)
    else if |bits| < 8 then Stop(NeedInput)
    else ReadNumber(bits[8..], n - 1, 256 * acc + Value(bits[..8]))
  }

  ghost function ReadBlock(bits: seq<bool>, level: nat): (r: Read<Block>)
    ensures r.Done? ==> |r.rest| < |bits| && r.value.origPtr < |r.value.column|
  {
    MagicShrinks(bits, BLOCK_MAGIC);
    AfterMagic(ReadMagic(bits, BLOCK_MAGIC), level)
  }

  lemma MagicShrinks(bits: seq<bool>, magic: seq<byte>)
    requires magic != []
    ensures ReadMagic(bits, magic).Done? ==> |ReadMagic(bits, magic).rest| < |bits|
  {
  }

  // What follows each field, when it has been read.

  ghost function AfterMagic(magic: Read<()>, level: nat): (r: Read<Block>)
    ensures r.Done? ==> magic.Done? && |r.rest| <= |magic.rest| && r.value.origPtr < |r.value.column|
  {
    match magic
    case Done(_, rest) => AfterCrc(ReadNumber(rest, 4, 0), level)
    case Stop(why) => Stop(why)
  }

  ghost function AfterCrc(crc: Read<nat>, level: nat): (r: Read<Block>)
    ensures r.Done? ==> crc.Done? && |r.rest| <= |crc.rest| && r.value.origPtr < |r.value.column|
  {
    match crc
    case Done(v, rest) => ReadRandomised(rest, v, level)
    case Stop(why) => Stop(why)
  }

  ghost function ReadRandomised(bits: seq<bool>, crc: nat, level: nat): (r: Read<Block>)
    ensures r.Done? ==> |r.rest| <= |bits| && r.value.origPtr < |r.value.column|
  {
    if bits == [] then Stop(NeedInput)
    else AfterOrigPtr(ReadNumber(bits[1..], 3, 0), crc, bits[0], level)
  }

  ghost function AfterOrigPtr(origPtr: Read<nat>, crc: nat, randomised: bool, level: nat): (r: Read<Block>)
    ensures r.Done? ==> origPtr.Done? && |r.rest| <= |origPtr.rest| && r.value.origPtr < |r.value.column|
  {
    match origPtr
    case Done(p, rest) =>
      if p > 10 + 100000 * level then Stop(DataError) else AfterMap(ReadMap(rest), Block(crc, randomised, p, []), level)
    case Stop(why) => Stop(why)
  }

  ghost function AfterMap(used: Read<seq<bool>>, b: Block, level: nat): (r: Read<Block>)
    requires used.Done? ==> |used.value| == 256
    ensures r.Done? ==> used.Done? && |r.rest| <= |used.rest| && r.value.origPtr < |r.value.column|
  {
    match used
    case Done(inUse, rest) =>
      if UsedBelow(inUse, 256) == 0 then Stop(DataError) else AfterSelectors(ReadSelectors(rest), b, level, inUse)
    case Stop(why) => Stop(why)
  }

  predicate Tabled(t: Table) {
    t.nGroups <= 6 && forall i :: 0 <= i < |t.sel| ==> t.sel[i] in FirstList(t.nGroups)
  }

  ghost function AfterSelectors(t: Read<Table>, b: Block, level: nat, inUse: seq<bool>): (r: Read<Block>)
    requires |inUse| == 256 && UsedBelow(inUse, 256) > 0 && (t.Done? ==> Tabled(t.value))
    ensures r.Done? ==> t.Done? && |r.rest| <= |t.rest| && r.value.origPtr < |r.value.column|
  {
    match t
    case Done(v, rest) => AfterTables(ReadTables(rest, v.nGroups, UsedBelow(inUse, 256) + 2), b, level, inUse, v)
    case Stop(why) => Stop(why)
  }

  ghost function AfterTables(tables: Read<seq<seq<nat>>>, b: Block, level: nat, inUse: seq<bool>, t: Table): (r: Read<Block>)
    requires |inUse| == 256 && UsedBelow(inUse, 256) > 0 && Tabled(t)
    requires tables.Done? ==> |tables.value| == t.nGroups && Lengths(tables.value, UsedBelow(inUse, 256) + 2)
    ensures r.Done? ==> tables.Done? && |r.rest| <= |tables.rest| && r.value.origPtr < |r.value.column|
  {
    match tables
    case Done(v, rest) =>
      CodedWell(inUse, t, v, 100000 * level);
      AfterColumn(ReadColumn(rest, CodedBy(inUse, t.sel, v, 100000 * level), Place(-1, 0), Mtf(FirstList(256), [], 0, 0)), b)
    case Stop(why) => Stop(why)
  }

  function CodedBy(inUse: seq<bool>, sel: seq<byte>, tables: seq<seq<nat>>, max: nat): Coded
    requires |inUse| == 256
  {
    Coded(tables, sel, UsedBelow(inUse, 256) + 1, UsedList(inUse, 256), max)
  }

  lemma CodedWell(inUse: seq<bool>, t: Table, tables: seq<seq<nat>>, max: nat)
    requires |inUse| == 256 && UsedBelow(inUse, 256) > 0 && Tabled(t)
    requires |tables| == t.nGroups && Lengths(tables, UsedBelow(inUse, 256) + 2)
    ensures WellCoded(CodedBy(inUse, t.sel, tables, max))
  {
    InFirstList(t.nGroups, t.sel);
  }

  ghost function AfterColumn(column: Read<seq<byte>>, b: Block): (r: Read<Block>)
    ensures r.Done? ==> column.Done? && |r.rest| <= |column.rest| && r.value.origPtr < |r.value.column|
  {
    match column
    case Done(v, rest) => if b.origPtr >= |v| then Stop(DataError) else Done(b.(column := v), rest)
    case Stop(why) => Stop(why)
  }

  // Writing.

  /** The symbols of a block. */
  ghost function Symbols(block: seq<byte>, ptr: seq<nat>, inUse: seq<bool>): (syms: seq<nat>)
    requires block != [] && AllUsed(block, inUse) && forall i :: 0 <= i < |ptr| ==> ptr[i] < |block|
    ensures 1 <= |syms| <= |ptr| + 1 && syms[|syms| - 1] == UsedBelow(inUse, 256) + 1
    ensures forall i :: 0 <= i < |syms| - 1 ==> syms[i] <= UsedBelow(inUse, 256)
  {
    SomeUsed(block, inUse);
    CodedInRange(block, ptr, inUse);
    InFirstList(UsedBelow(inUse, 256), CodedColumn(block, ptr, inUse));
    Emit(FirstList(UsedBelow(inUse, 256)), CodedColumn(block, ptr, inUse), 0) + [UsedBelow(inUse, 256) + 1]
  }

  /** Everything about a block that the compressor is free to choose. */
  datatype Choice = Choice(crc: nat, origPtr: nat, inUse: seq<bool>, sel: seq<byte>, tables: seq<seq<nat>>)

  /** There is a selector for every group of 50 symbols and a complete set of lengths for every table. */
  ghost predicate Sound(ch: Choice, nMTF: nat) {
    && ch.crc < 0x1_0000_0000 && ch.origPtr < 0x100_0000 && |ch.inUse| == 256
    && 2 <= |ch.tables| <= 6 && 1 <= |ch.sel| <= BZ_MAX_SELECTORS && nMTF <= 50 * |ch.sel|
    && Coding(ch.tables, ch.sel, UsedBelow(ch.inUse, 256) + 2)
    && forall t :: 0 <= t < |ch.tables| ==> Kraft(ch.tables[t]) <= 1.0
  }

  function FixedBits(crc: nat, origPtr: nat): (b: seq<bool>)
    ensures |b| == 57
  {
    BitsOf(32, crc) + [false] + BitsOf(24, origPtr)
  }

  lemma Selectable(ch: Choice, nMTF: nat)
    requires Sound(ch, nMTF)
    ensures forall i :: 0 <= i < |ch.sel| ==> ch.sel[i] in FirstList(|ch.tables|)
    ensures forall t :: 0 <= t < |ch.tables| ==> ch.tables[t] != []
  {
    InFirstList(|ch.tables|, ch.sel);
  }

  ghost function BlockBits(block: seq<byte>, ptr: seq<nat>, ch: Choice): seq<bool>
    requires block != [] && AllUsed(block, ch.inUse) && forall i :: 0 <= i < |ptr| ==> ptr[i] < |block|
    requires Sound(ch, |Symbols(block, ptr, ch.inUse)|)
  {
    var syms := Symbols(block, ptr, ch.inUse);
    Selectable(ch, |syms|);
    BytesBits(BLOCK_MAGIC) + FixedBits(ch.crc, ch.origPtr) + MapBits(ch.inUse)
    + SelectorBits(|ch.tables|, Positions(FirstList(|ch.tables|), ch.sel)) + TablesBits(ch.tables)
    + SymbolBits(ch.tables, ch.sel, UsedBelow(ch.inUse, 256) + 2, Place(-1, 0), syms)
  }

  // The round trip.

  lemma {:induction false} MagicRoundTrip(magic: seq<byte>, more: seq<bool>)
    ensures ReadMagic(BytesBits(magic) + more, magic) == Done((), more)
  {
    if magic == [] {
      assert [] + more == more;
    } else {
      Associate(BitsOf(8, magic[0]), BytesBits(magic[1..]), more);
      var bits := BytesBits(magic) + more;
      assert bits[..8] == BitsOf(8, magic[0]) && bits[8..] == BytesBits(magic[1..]) + more;
      WordSize();
      ValueOfBits(8, magic[0]);
      MagicRoundTrip(magic[1..], more);
    }
  }

  lemma ShlOne(v: nat, n: nat)
    ensures Shl(v, n + 1) == 2 * Shl(v, n)
  {
    var p := Pow2(n);
    assert v * (2 * p) == 2 * (v * p);
  }

  lemma ValueNext(bits: seq<bool>, b: bool)
    ensures Value(bits + [b]) == 2 * Value(bits) + BitOf(b) && Value([]) == 0
  {
    assert (bits + [b])[..|bits|] == bits;
  }

  lemma {:induction false} ValueConcat(a: seq<bool>, b: seq<bool>)
    ensures Value(a + b) == Shl(Value(a), |b|) + Value(b)
  {
    hide *;
    if b == [] {
      assert a + b == a;
      ShlByte(Value(a));
      ValueNext([], true);
    } else {
      var k := |b| - 1;
      ValueConcat(a, b[..k]);
      assert b == b[..k] + [b[k]] && a + b == (a + b[..k]) + [b[k]];
      ValueNext(b[..k], b[k]);
      ValueNext(a + b[..k], b[k]);
      ShlOne(Value(a), k);
    }
  }

  lemma FirstByte(bits: seq<bool>, n: nat)
    requires n >= 1 && 8 * n <= |bits|
    ensures bits[8..][..8 * (n - 1)] == bits[8..8 * n] && bits[8..][8 * (n - 1)..] == bits[8 * n..]
    ensures bits[..8 * n] == bits[..8] + bits[8..8 * n]
  {
  }

  /** Reading bytes one by one is reading one number. */
  lemma {:induction false} NumberIs(bits: seq<bool>, n: nat, acc: nat)
    requires 8 * n <= |bits|
    ensures ReadNumber(bits, n, acc) == Done(Shl(acc, 8 * n) + Value(bits[..8 * n]), bits[8 * n..])
    decreases n
  {
    hide Value, Shl, Pow2;
    if n == 0 {
      assert bits[..0] == [] && bits[0..] == bits;
      ValueNext([], true);
      ShlByte(acc);
    } else {
      FirstByte(bits, n);
      var first, tail := bits[..8], bits[8..8 * n];
      NumberIs(bits[8..], n - 1, 256 * acc + Value(first));
      ValueConcat(first, tail);
      ShlByte(acc);
      ShlAdd(Shl(acc, 8), Value(first), 8 * (n - 1));
      ShlShl(acc, 8, 8 * (n - 1));
    }
  }

  lemma NumberBack(v: nat, n: nat, more: seq<bool>)
    requires v < Pow2(8 * n)
    ensures ReadNumber(BitsOf(8 * n, v) + more, n, 0) == Done(v, more)
  {
    hide *;
    var bits := BitsOf(8 * n, v) + more;
    NumberIs(bits, n, 0);
    ValueOfBits(8 * n, v);
    ShlNothing(8 * n);
    assert bits[..8 * n] == BitsOf(8 * n, v) && bits[8 * n..] == more;
  }

  lemma ShlNothing(n: nat)
    ensures Shl(0, n) == 0
  {
  }

  lemma FixedRoundTrip(crc: nat, origPtr: nat, more: seq<bool>, level: nat)
    requires crc < 0x1_0000_0000 && origPtr < 0x100_0000 && origPtr <= 10 + 100000 * level
    ensures AfterCrc(ReadNumber(FixedBits(crc, origPtr) + more, 4, 0), level) == AfterMap(ReadMap(more), Block(crc, false, origPtr, []), level)
  {
    WordSize();
    hide BitsOf, Value, Pow2, ReadMap, AfterMap;
    var rest := BitsOf(24, origPtr) + more;
    assert FixedBits(crc, origPtr) + more == BitsOf(32, crc) + ([false] + rest);
    NumberBack(crc, 4, [false] + rest);
    assert ([false] + rest)[1..] == rest;
    NumberBack(origPtr, 3, more);
  }

  /** Coding the last column in numbers and mapping the numbers back gives the last column. */
  lemma MappedBack(block: seq<byte>, ptr: seq<nat>, inUse: seq<bool>)
    requires AllUsed(block, inUse) && forall i :: 0 <= i < |ptr| ==> ptr[i] < |block|
    ensures Mapped(CodedColumn(block, ptr, inUse), UsedList(inUse, 256)) == LastColumn(block, ptr)
  {
    forall i | 0 <= i < |ptr|
      ensures Mapped(CodedColumn(block, ptr, inUse), UsedList(inUse, 256))[i] == LastColumn(block, ptr)[i]
    {
      MapsInverse(inUse, block[Before(ptr[i], |block|)], 256);
    }
  }

  /** The symbols of a block lead the decoder to its last column. */
  lemma SymbolsGiveColumn(block: seq<byte>, ptr: seq<nat>, inUse: seq<bool>, max: nat)
    requires block != [] && AllUsed(block, inUse) && forall i :: 0 <= i < |ptr| ==> ptr[i] < |block|
    requires |ptr| <= max < 2 * 1024 * 1024
    ensures Steps(Mtf(FirstList(256), [], 0, 0), Symbols(block, ptr, inUse), UsedBelow(inUse, 256) + 1, UsedList(inUse, 256), max)
         == End(LastColumn(block, ptr))
  {
    var n, col, unseq := UsedBelow(inUse, 256), CodedColumn(block, ptr, inUse), UsedList(inUse, 256);
    SomeUsed(block, inUse);
    CodedInRange(block, ptr, inUse);
    InFirstList(n, col);
    assert FirstList(256)[..n] == FirstList(n);
    MtfRoundTrip(FirstList(n), col, 0, Mtf(FirstList(256), [], 0, 0), unseq, max);
    MappedBack(block, ptr, inUse);
    assert [] + Repeat(At(unseq, FirstList(n)[0]), 0) + Mapped(col, unseq) == Mapped(col, unseq);
  }

  lemma StartCapacity(ch: Choice, nMTF: nat)
    requires Sound(ch, nMTF)
    ensures Proper(Place(-1, 0)) && nMTF <= Capacity(Place(-1, 0), |ch.sel|)
  {
  }

  /** From the symbols on. */
  lemma SymbolsBack(block: seq<byte>, ptr: seq<nat>, ch: Choice, level: nat, more: seq<bool>)
    requires block != [] && AllUsed(block, ch.inUse) && forall i :: 0 <= i < |ptr| ==> ptr[i] < |block|
    requires Sound(ch, |Symbols(block, ptr, ch.inUse)|) && |ptr| <= 100000 * level <= 900000
    ensures var c := CodedBy(ch.inUse, ch.sel, ch.tables, 100000 * level);
            && WellCoded(c)
            && ReadColumn(SymbolBits(ch.tables, ch.sel, UsedBelow(ch.inUse, 256) + 2, Place(-1, 0), Symbols(block, ptr, ch.inUse)) + more,
                          c, Place(-1, 0), Mtf(FirstList(256), [], 0, 0)) == Done(LastColumn(block, ptr), more)
  {
    hide Steps, SymbolBits, ReadColumn, LastColumn, Kraft, Symbols;
    var syms, c := Symbols(block, ptr, ch.inUse), CodedBy(ch.inUse, ch.sel, ch.tables, 100000 * level);
    SomeUsed(block, ch.inUse);
    StartCapacity(ch, |syms|);
    SymbolsGiveColumn(block, ptr, ch.inUse, 100000 * level);
    ColumnRoundTrip(c, Place(-1, 0), Mtf(FirstList(256), [], 0, 0), syms, more, LastColumn(block, ptr));
  }

  /** The sections of a block, with what follows them. */
  ghost function BitsFromTables(block: seq<byte>, ptr: seq<nat>, ch: Choice, more: seq<bool>): seq<bool>
    requires block != [] && AllUsed(block, ch.inUse) && forall i :: 0 <= i < |ptr| ==> ptr[i] < |block|
    requires Sound(ch, |Symbols(block, ptr, ch.inUse)|)
  {
    Selectable(ch, |Symbols(block, ptr, ch.inUse)|);
    TablesBits(ch.tables)
    + (SymbolBits(ch.tables, ch.sel, UsedBelow(ch.inUse, 256) + 2, Place(-1, 0), Symbols(block, ptr, ch.inUse)) + more)
  }

  ghost function BitsFromSelectors(block: seq<byte>, ptr: seq<nat>, ch: Choice, more: seq<bool>): seq<bool>
    requires block != [] && AllUsed(block, ch.inUse) && forall i :: 0 <= i < |ptr| ==> ptr[i] < |block|
    requires Sound(ch, |Symbols(block, ptr, ch.inUse)|)
  {
    Selectable(ch, |Symbols(block, ptr, ch.inUse)|);
    SelectorBits(|ch.tables|, Positions(FirstList(|ch.tables|), ch.sel)) + BitsFromTables(block, ptr, ch, more)
  }

  lemma TablesBack(block: seq<byte>, ptr: seq<nat>, ch: Choice, level: nat, more: seq<bool>)
    requires block != [] && AllUsed(block, ch.inUse) && forall i :: 0 <= i < |ptr| ==> ptr[i] < |block|
    requires Sound(ch, |Symbols(block, ptr, ch.inUse)|) && |ptr| <= 100000 * level <= 900000 && ch.origPtr < |ptr|
    ensures UsedBelow(ch.inUse, 256) > 0 && forall i :: 0 <= i < |ch.sel| ==> ch.sel[i] in FirstList(|ch.tables|)
    ensures Tabled(Table(|ch.tables|, ch.sel))
    ensures AfterSelectors(Done(Table(|ch.tables|, ch.sel), BitsFromTables(block, ptr, ch, more)), Block(ch.crc, false, ch.origPtr, []),
                           level, ch.inUse)
         == Done(Block(ch.crc, false, ch.origPtr, LastColumn(block, ptr)), more)
  {
    hide SymbolBits, TablesBits, ReadTables, ReadColumn, LastColumn, Symbols, UsedBelow, UsedList, Kraft, InRange;
    SomeUsed(block, ch.inUse);
    var n := UsedBelow(ch.inUse, 256) + 2;
    Selectable(ch, |Symbols(block, ptr, ch.inUse)|);
    var syms := SymbolBits(ch.tables, ch.sel, n, Place(-1, 0), Symbols(block, ptr, ch.inUse)) + more;
    CodingLengths(ch.tables, ch.sel, n);
    TablesRoundTrip(ch.tables, n, syms);
    SymbolsBack(block, ptr, ch, level, more);
    assert |LastColumn(block, ptr)| == |ptr|;
  }

  lemma CodingLengths(tables: seq<seq<nat>>, sel: seq<byte>, n: nat)
    requires Coding(tables, sel, n)
    ensures Lengths(tables, n)
  {
  }

  lemma SelectorsBack(block: seq<byte>, ptr: seq<nat>, ch: Choice, level: nat, more: seq<bool>)
    requires block != [] && AllUsed(block, ch.inUse) && forall i :: 0 <= i < |ptr| ==> ptr[i] < |block|
    requires Sound(ch, |Symbols(block, ptr, ch.inUse)|) && |ptr| <= 100000 * level <= 900000 && ch.origPtr < |ptr|
    ensures UsedBelow(ch.inUse, 256) > 0
    ensures AfterMap(Done(ch.inUse, BitsFromSelectors(block, ptr, ch, more)), Block(ch.crc, false, ch.origPtr, []), level)
         == Done(Block(ch.crc, false, ch.origPtr, LastColumn(block, ptr)), more)
  {
    hide BitsFromTables, Positions, SelectorBits, ReadSelectors, LastColumn, Symbols, UsedBelow, AfterSelectors, Kraft;
    Selectable(ch, |Symbols(block, ptr, ch.inUse)|);
    TablesBack(block, ptr, ch, level, more);
    SelectorsRoundTrip(|ch.tables|, ch.sel, BitsFromTables(block, ptr, ch, more));
  }

  lemma BlockBitsRegroup(block: seq<byte>, ptr: seq<nat>, ch: Choice, more: seq<bool>)
    requires block != [] && AllUsed(block, ch.inUse) && forall i :: 0 <= i < |ptr| ==> ptr[i] < |block|
    requires Sound(ch, |Symbols(block, ptr, ch.inUse)|)
    ensures BlockBits(block, ptr, ch) + more
         == BytesBits(BLOCK_MAGIC) + (FixedBits(ch.crc, ch.origPtr) + (MapBits(ch.inUse) + BitsFromSelectors(block, ptr, ch, more)))
  {
    hide MapBits, SelectorBits, TablesBits, SymbolBits, Symbols, Positions, FixedBits, BytesBits;
    var syms := Symbols(block, ptr, ch.inUse);
    Selectable(ch, |syms|);
    SixParts(BytesBits(BLOCK_MAGIC), FixedBits(ch.crc, ch.origPtr), MapBits(ch.inUse),
             SelectorBits(|ch.tables|, Positions(FirstList(|ch.tables|), ch.sel)), TablesBits(ch.tables),
             SymbolBits(ch.tables, ch.sel, UsedBelow(ch.inUse, 256) + 2, Place(-1, 0), syms), more);
  }

  lemma SixParts(a: seq<bool>, b: seq<bool>, c: seq<bool>, d: seq<bool>, e: seq<bool>, f: seq<bool>, more: seq<bool>)
    ensures a + b + c + d + e + f + more == a + (b + (c + (d + (e + (f + more)))))
  {
    Associate(a + b + c + d + e, f, more);
    Associate(a + b + c + d, e, f + more);
    Associate(a + b + c, d, e + (f + more));
    Associate(a + b, c, d + (e + (f + more)));
    Associate(a, b, c + (d + (e + (f + more))));
  }

  /**
   For every non-empty block that fits, every listing of its rotations and every sound choice of tables and
   selectors, the decoder reads back the last column and origPtr, and stops exactly where the block ends.
   */
  lemma BlockRoundTrip(block: seq<byte>, ptr: seq<nat>, ch: Choice, level: nat, more: seq<bool>)
    requires block != [] && AllUsed(block, ch.inUse) && forall i :: 0 <= i < |ptr| ==> ptr[i] < |block|
    requires Sound(ch, |Symbols(block, ptr, ch.inUse)|) && |ptr| <= 100000 * level <= 900000 && ch.origPtr < |ptr|
    ensures ReadBlock(BlockBits(block, ptr, ch) + more, level)
         == Done(Block(ch.crc, false, ch.origPtr, LastColumn(block, ptr)), more)
  {
    hide BitsFromSelectors, MapBits, ReadMap, ReadMagic, AfterMap, AfterCrc, ReadNumber, BytesBits, FixedBits, LastColumn, Symbols, UsedBelow, BlockBits, Kraft;
    var d := BitsFromSelectors(block, ptr, ch, more);
    BlockBitsRegroup(block, ptr, ch, more);
    MagicRoundTrip(BLOCK_MAGIC, FixedBits(ch.crc, ch.origPtr) + (MapBits(ch.inUse) + d));
    FixedRoundTrip(ch.crc, ch.origPtr, MapBits(ch.inUse) + d, level);
    MapRoundTrip(ch.inUse, d);
    SelectorsBack(block, ptr, ch, level, more);
  }

  // The places for the selectors.

  /** The fields of a block up to its selectors, for a block that gets that far. */
  function ReadFront(bits: seq<bool>, level: nat): Read<()> {
    match ReadMagic(bits, BLOCK_MAGIC)
    case Stop(why) => Stop(why)
    case Done(_, atCrc) =>
      match ReadNumber(atCrc, 4, 0)
      case Stop(why) => Stop(why)
      case Done(_, atBit) =>
        if atBit == [] then Stop(NeedInput)
        else
          match ReadNumber(atBit[1..], 3, 0)
          case Stop(why) => Stop(why)
          case Done(origPtr, atMap) =>
            if origPtr > 10 + 100000 * level then Stop(DataError)
            else
              match ReadMap(atMap)
              case Stop(why) => Stop(why)
              case Done(inUse, rest) => if UsedBelow(inUse, 256) == 0 then Stop(DataError) else Done((), rest)
  }

  lemma {:induction false} MagicFits(bits: seq<bool>, magic: seq<byte>)
    ensures ReadMagic(bits, magic) != Stop(TooMany)
    decreases |magic|
  {
    if magic != [] && |bits| >= 8 { MagicFits(bits[8..], magic[1..]); }
  }

  lemma {:induction false} NumberFits(bits: seq<bool>, n: nat, acc: nat)
    ensures ReadNumber(bits, n, acc) != Stop(TooMany)
    decreases n
  {
    if n > 0 && |bits| >= 8 { NumberFits(bits[8..], n - 1, 256 * acc + Value(bits[..8])); }
  }

  lemma {:induction false} CellsFit(bits: seq<bool>, flags: seq<bool>, k: nat)
    requires |flags| == 16 && k <= 256
    ensures ReadCells(bits, flags, k) != Stop(TooMany)
    decreases 256 - k
  {
    if k < 256 {
      if !flags[k / 16] { CellsFit(bits, flags, k + 1); } else if bits != [] { CellsFit(bits[1..], flags, k + 1); }
    }
  }

  lemma {:induction false} FlagsFit(bits: seq<bool>, flags: seq<bool>)
    requires |flags| <= 16
    ensures ReadFlags(bits, flags) != Stop(TooMany)
    decreases 16 - |flags|
  {
    if |flags| == 16 { CellsFit(bits, flags, 0); } else if bits != [] { FlagsFit(bits[1..], flags + [bits[0]]); }
  }

  lemma {:induction false} LengthFits(bits: seq<bool>, curr: nat)
    ensures ReadLength(bits, curr) != Stop(TooMany)
    decreases |bits|
  {
    if 1 <= curr <= 20 && |bits| >= 2 { LengthFits(bits[1..][1..], if bits[1..][0] then curr - 1 else curr + 1); }
  }

  lemma {:induction false} LengthsFit(bits: seq<bool>, curr: nat, n: nat)
    ensures ReadLengths(bits, curr, n) != Stop(TooMany)
    decreases n
  {
    hide ReadLength;
    LengthFits(bits, curr);
    if n > 0 && ReadLength(bits, curr).Done? { LengthsFit(ReadLength(bits, curr).rest, ReadLength(bits, curr).value, n - 1); }
  }

  lemma {:induction false} TablesFit(bits: seq<bool>, nGroups: nat, n: nat)
    ensures ReadTables(bits, nGroups, n) != Stop(TooMany)
    decreases nGroups
  {
    hide ReadLengths;
    if |bits| >= 5 { LengthsFit(bits[5..], Value(bits[..5]), n); }
    if nGroups > 0 && ReadTable(bits, n).Done? { TablesFit(ReadTable(bits, n).rest, nGroups - 1, n); }
  }

  lemma {:induction false} ColumnFits(bits: seq<bool>, c: Coded, at: Place, s: Mtf)
    requires WellCoded(c) && Proper(at) && |s.yy| == 256
    ensures ReadColumn(bits, c, at, s) != Stop(TooMany)
    decreases |bits|
  {
    hide Step;
    var sym := ReadCoded(bits, c.tables, c.sel, c.eob + 1, at);
    FetchedIs(sym, c, Advance(at), s);
    if sym.Done? {
      var o := Step(s, sym.value, c.eob, c.unseq, c.max);
      Continues(o, sym.rest, c, Advance(at));
      if o.More? { ColumnFits(sym.rest, c, Advance(at), o.s); }
    }
  }

  lemma TailFits(t: Read<Table>, b: Block, level: nat, inUse: seq<bool>)
    requires |inUse| == 256 && UsedBelow(inUse, 256) > 0 && (t.Done? ==> Tabled(t.value))
    ensures AfterSelectors(t, b, level, inUse) == Stop(TooMany) <==> t == Stop(TooMany)
  {
    hide ReadTables, ReadColumn, Tabled, UsedBelow, UsedList, Lengths;
    if t.Done? {
      var n := UsedBelow(inUse, 256) + 2;
      var tables := ReadTables(t.rest, t.value.nGroups, n);
      TablesFit(t.rest, t.value.nGroups, n);
      if tables.Done? {
        CodedWell(inUse, t.value, tables.value, 100000 * level);
        ColumnFits(tables.rest, CodedBy(inUse, t.value.sel, tables.value, 100000 * level), Place(-1, 0), Mtf(FirstList(256), [], 0, 0));
      }
    }
  }

  /**
   Receiving a block writes outside the arrays exactly when the block gets as far as its selectors, announces 2 to 6 tables, and more
   than 18002 selectors arrive before the bits run out or one of them is out of range.
   */
  lemma BlockOutside(bits: seq<bool>, level: nat)
    ensures ReadBlock(bits, level) == Stop(TooMany) <==>
              && ReadFront(bits, level).Done?
              && var s := ReadFront(bits, level).rest;
                 |s| >= 18 && 2 <= Value(s[..3]) <= 6 && Arriving(s[18..], 0, Value(s[3..18]), Value(s[..3])) > BZ_MAX_SELECTORS
  {
    hide Value, ReadMagic, ReadNumber, ReadFlags, ReadSelectors, UsedBelow, AfterSelectors, Arriving;
    MagicFits(bits, BLOCK_MAGIC);
    if ReadMagic(bits, BLOCK_MAGIC).Done? {
      var crc := ReadNumber(ReadMagic(bits, BLOCK_MAGIC).rest, 4, 0);
      NumberFits(ReadMagic(bits, BLOCK_MAGIC).rest, 4, 0);
      if crc.Done? && crc.rest != [] {
        var p := ReadNumber(crc.rest[1..], 3, 0);
        NumberFits(crc.rest[1..], 3, 0);
        if p.Done? && p.value <= 10 + 100000 * level {
          FlagsFit(p.rest, []);
          var used := ReadMap(p.rest);
          if used.Done? && UsedBelow(used.value, 256) > 0 {
            TailFits(ReadSelectors(used.rest), Block(crc.value, crc.rest[0], p.value, []), level, used.value);
            OutsideExactly(used.rest);
          }
        }
      }
    }
  }

  /** A block that announces no more than 18002 selectors stays inside. */
  lemma BlockInside(bits: seq<bool>, level: nat)
    requires ReadFront(bits, level).Done? && |ReadFront(bits, level).rest| >= 18 ==>
               Value(ReadFront(bits, level).rest[3..18]) <= BZ_MAX_SELECTORS
    ensures ReadBlock(bits, level) != Stop(TooMany)
  {
    hide Value, ReadFront, ReadBlock, Arriving;
    BlockOutside(bits, level);
    if ReadFront(bits, level).Done? {
      FewEnough(ReadFront(bits, level).rest);
      OutsideExactly(ReadFront(bits, level).rest);
    }
  }

  /** Only the character 0 is in use. */
  function OneCharacter(): (inUse: seq<bool>)
    ensures |inUse| == 256 && inUse[0]
  {
    seq(256, k => k == 0)
  }

  /** The beginning of a block with one selector too many. */
  function OutsideBits(): seq<bool> {
    BytesBits(BLOCK_MAGIC) + (FixedBits(0, 0) + (MapBits(OneCharacter()) + OneTooMany()))
  }

  lemma OutsideBlock(more: seq<bool>, level: nat)
    ensures ReadBlock(OutsideBits() + more, level) == Stop(TooMany)
  {
    hide BytesBits, FixedBits, MapBits, OneTooMany, ReadMagic, ReadNumber, ReadMap, ReadSelectors, AfterSelectors;
    var inUse := OneCharacter();
    var d, e := OneTooMany() + more, MapBits(inUse) + (OneTooMany() + more);
    Associate(BytesBits(BLOCK_MAGIC), FixedBits(0, 0) + (MapBits(inUse) + OneTooMany()), more);
    Associate(FixedBits(0, 0), MapBits(inUse) + OneTooMany(), more);
    Associate(MapBits(inUse), OneTooMany(), more);
    MagicRoundTrip(BLOCK_MAGIC, FixedBits(0, 0) + e);
    FixedRoundTrip(0, 0, e, level);
    MapRoundTrip(inUse, d);
    OutsideExample(more);
    SomeUsed([0], inUse);
    TailFits(Stop(TooMany), Block(0, false, 0, []), level, inUse);
  }
}
