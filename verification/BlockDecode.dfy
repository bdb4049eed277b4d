/**
 Receiving one block: the part of BZ2_decompress from the block header to cftab (dep/bzip2/decompress.c). It can be interrupted
 at every bit; the label it is resumed at says what is saved there.
 */
module BlockDecode {
  import opened Bits
  import opened BitReader
  import opened CountingOrder
  import opened CharacterMaps
  import opened MoveToFront
  import opened MappingTable
  import opened Selectors
  import opened CodingTables
  import opened CodeTables
  import opened SymbolStream
  import opened BlockTables
  import opened ColumnDecode
  import opened InverseBwt
  import opened BlockFormat

  // The fixed fields.

  lemma MagicOn(bits: seq<bool>, magic: seq<byte>)
    ensures magic == [] ==> ReadMagic(bits, magic) == Done((), bits)
    ensures magic != [] && |bits| < 8 ==> ReadMagic(bits, magic) == Stop(NeedInput)
    ensures magic != [] && |bits| >= 8 ==>
              ReadMagic(bits, magic) == if Value(bits[..8]) != magic[0] then Stop(DataError) else ReadMagic(bits[8..], magic[1..])
  {
  }

  /** The bytes of a header are checked, k of which have been accepted. */
  method ReceiveMagic(r: Reader, magic: seq<byte>, k0: nat, ghost more: seq<bool>) returns (st: Status, k: nat)
    requires r.Valid() && k0 < |magic|
    modifies r
    ensures r.Valid() && |r.Unread()| <= |old(r.Unread())| && (st == Ok ==> |r.Unread()| < |old(r.Unread())|)
    ensures k0 <= k <= |magic| && (st == Waiting ==> k < |magic| && r.input == [])
    ensures Resumes(st, (), r.Ahead(more), ReadMagic(old(r.Ahead(more)), magic[k0..]),
                    if st == Waiting then ReadMagic(r.Ahead(more), magic[k..]) else Stop(NeedInput),
                    if st == Waiting then ReadMagic(r.Unread(), magic[k..]) else Stop(NeedInput))
  {
    hide *;
    k := k0;
    ghost var was := ReadMagic(r.Ahead(more), magic[k..]);
    while k < |magic|
      invariant k0 <= k <= |magic| && r.Valid() && was == ReadMagic(r.Ahead(more), magic[k..])
      invariant |r.Unread()| <= |old(r.Unread())| && (k > k0 ==> |r.Unread()| < |old(r.Unread())|)
    {
      MagicOn(r.Ahead(more), magic[k..]);
      MagicOn(r.Unread(), magic[k..]);
      assert magic[k..][1..] == magic[k + 1..] && magic[k..][0] == magic[k];
      var ok, uc := r.GetBits(8, more);
      if !ok {
        ResumesIs(Waiting, (), r.Ahead(more), was, ReadMagic(r.Ahead(more), magic[k..]), ReadMagic(r.Unread(), magic[k..]));
        return Waiting, k;
      }
      if uc != magic[k] {
        ResumesIs(Failed(DataError), (), r.Ahead(more), was, Stop(NeedInput), Stop(NeedInput));
        return Failed(DataError), k;
      }
      k := k + 1;
    }
    MagicOn(r.Ahead(more), magic[k..]);
    ResumesIs(Ok, (), r.Ahead(more), was, Stop(NeedInput), Stop(NeedInput));
    st := Ok;
  }

  lemma NumberOn(bits: seq<bool>, n: nat, acc: nat)
    ensures n == 0 ==> ReadNumber(bits, n, acc) == Done(acc, bits)
    ensures n > 0 && |bits| < 8 ==> ReadNumber(bits, n, acc) == Stop(NeedInput)
    ensures n > 0 && |bits| >= 8 ==> ReadNumber(bits, n, acc) == ReadNumber(bits[8..], n - 1, 256 * acc + Value(bits[..8]))
  {
  }

  /** n bytes, put together with the first one on top, of which k have been taken and give v. */
  method ReceiveNumber(r: Reader, n: nat, k0: nat, v0: nat, ghost more: seq<bool>) returns (st: Status, k: nat, v: nat)
    requires r.Valid() && k0 < n
    modifies r
    ensures r.Valid() && |r.Unread()| <= |old(r.Unread())| && (st == Ok ==> |r.Unread()| < |old(r.Unread())|)
    ensures k0 <= k <= n && (st == Waiting ==> k < n && r.input == []) && !st.Failed?
    ensures Resumes(st, v, r.Ahead(more), ReadNumber(old(r.Ahead(more)), n - k0, v0),
                    if st == Waiting then ReadNumber(r.Ahead(more), n - k, v) else Stop(NeedInput),
                    if st == Waiting then ReadNumber(r.Unread(), n - k, v) else Stop(NeedInput))
  {
    hide *;
    k, v := k0, v0;
    ghost var was := ReadNumber(r.Ahead(more), n - k, v);
    while k < n
      invariant k0 <= k <= n && r.Valid() && was == ReadNumber(r.Ahead(more), n - k, v)
      invariant |r.Unread()| <= |old(r.Unread())| && (k > k0 ==> |r.Unread()| < |old(r.Unread())|)
    {
      NumberOn(r.Ahead(more), n - k, v);
      NumberOn(r.Unread(), n - k, v);
      var ok, uc := r.GetBits(8, more);
      if !ok {
        ResumesIs(Waiting, v, r.Ahead(more), was, ReadNumber(r.Ahead(more), n - k, v), ReadNumber(r.Unread(), n - k, v));
        return Waiting, k, v;
      }
      v := v * 256 + uc;
      k := k + 1;
    }
    NumberOn(r.Ahead(more), 0, v);
    ResumesIs<nat>(Ok, v, r.Ahead(more), was, Stop(NeedInput), Stop(NeedInput));
    st := Ok;
  }

  // The cumulative counts.

  /** cftab from unzftab. The range checks on both tables never fail. */
  method BuildCftab(unzftab: array<int>, cftab: array<int>, nblock: nat, ghost col: seq<byte>)
    returns (ok: bool)
    requires unzftab != cftab && unzftab.Length == 256 && cftab.Length == 257
    requires nblock == |col| && unzftab[..] == Freqs(col)
    modifies cftab
    ensures ok && Cumulative(col, cftab[..])
  {
    hide Count, CountBelow;
    assert forall k :: 0 <= k < 256 ==> unzftab[k] == Freqs(col)[k] == Count(col, k);
    var i := 0;
    while i <= 255
      invariant 0 <= i <= 256
    {
      CountBelowNext(col, i);
      CountBelowMonotone(col, i, i + 1);
      if unzftab[i] < 0 || unzftab[i] > nblock {
        assert false;
        return false;
      }
      i := i + 1;
    }
    cftab[0] := 0;
    i := 1;
    while i <= 256
      invariant 1 <= i <= 257 && cftab[0] == 0 && forall k :: 1 <= k < i ==> cftab[k] == Count(col, k - 1)
    {
      cftab[i] := unzftab[i - 1];
      i := i + 1;
    }
    NoneBelow(col, 0);
    i := 1;
    while i <= 256
      invariant 1 <= i <= 257 && forall k :: 0 <= k < i ==> cftab[k] == CountBelow(col, k)
      invariant forall k :: i <= k <= 256 ==> cftab[k] == Count(col, k - 1)
    {
      CountBelowNext(col, i - 1);
      cftab[i] := cftab[i] + cftab[i - 1];
      i := i + 1;
    }
    i := 0;
    while i <= 256
      modifies {}
      invariant 0 <= i <= 257
    {
      CountBelowMonotone(col, i, 256);
      if cftab[i] < 0 || cftab[i] > nblock {
        assert false;
        return false;
      }
      i := i + 1;
    }
    i := 1;
    while i <= 256
      modifies {}
      invariant 1 <= i <= 257
    {
      CountBelowMonotone(col, i - 1, i);
      if cftab[i - 1] > cftab[i] {
        assert false;
        return false;
      }
      i := i + 1;
    }
    ok := true;
  }

  // A block.

  /**
   Where receiving a block can be interrupted, with the locals that are saved there: the bytes of BZ_X_BLKHDR_2 to 6,
   BZ_X_BCRC_1 to 4 and BZ_X_ORIGPTR_1 to 3, BZ_X_RANDBIT, and the labels of the sections behind them.
   */
  datatype BlockAt =
    | Header(k: nat)
    | Crc(k: nat, crc: nat)
    | RandBit
    | OrigPtr(k: nat, p: nat)
    | Mapping(used: MapAt)
    | Selecting(sel: SelAt)
    | Coding(code: CodeAt)
    | Symbols(column: ColumnAt)

  /** The fields of DState that receiving a block works on. */
  class BlockReceiver {
    const level: nat
    const h: BlockTables
    const d: ColumnDecoder
    const cftab: array<int>
    var storedBlockCRC: nat
    var blockRandomised: bool
    var origPtr: nat
    /** What the symbols are decoded with. */
    ghost var c: Coded
    ghost const Repr: set<object>

    ghost predicate Valid() {
      && 1 <= level <= 9 && h.Valid() && d.Valid() && d.cells.Length == 100000 * level && cftab.Length == 257
      && Repr == {this, cftab} + h.Repr + d.Repr && this as object != cftab
      && this !in h.Repr && cftab !in h.Repr && this !in d.Repr && cftab !in d.Repr && h.Repr !! d.Repr
    }

    constructor (blockSize100k: nat)
      requires 1 <= blockSize100k <= 9
      ensures Valid() && fresh(Repr) && level == blockSize100k
    {
      var tables := new BlockTables();
      var column := new ColumnDecoder(100000 * blockSize100k);
      var counts := new int[257];
      level, h, d, cftab := blockSize100k, tables, column, counts;
      storedBlockCRC, blockRandomised, origPtr := 0, false, 0;
      c := Coded([], [], 0, [], 0);
      Repr := {this, counts} + tables.Repr + column.Repr;
    }

    /** The fields that have been received so far. */
    ghost function Fields(): Block
      reads this
    {
      Block(storedBlockCRC, blockRandomised, origPtr, [])
    }

    /** The mapping table has been received. */
    ghost predicate HasMap()
      requires Valid()
      reads h.maps, h.maps.inUse, h.maps.seqToUnseq
    {
      && 1 <= h.maps.nInUse <= 256 && h.maps.nInUse == UsedBelow(h.maps.inUse[..], 256)
      && h.maps.seqToUnseq[..h.maps.nInUse] == UsedList(h.maps.inUse[..], 256)
    }

    /** The selectors have been received. */
    ghost function Chosen(): Table
      requires Valid() && h.nSelectors <= BZ_MAX_SELECTORS
      reads h, h.sels.selector
    {
      Table(h.nGroups, h.sels.selector[..h.nSelectors])
    }

    ghost predicate HasSelectors()
      requires Valid()
      reads h, h.sels.selector
    {
      1 <= h.nSelectors <= BZ_MAX_SELECTORS && 2 <= h.nGroups && Tabled(Chosen())
    }

    /** At label at. */
    ghost predicate Stands(at: BlockAt)
      requires Valid()
      reads Repr
    {
      match at
      case Header(k) => k < 6
      case Crc(k, _) => k < 4
      case RandBit => true
      case OrigPtr(k, _) => k < 3
      case Mapping(m) => h.maps.Stands(m)
      case Selecting(s) => HasMap() && h.sels.Stands(s)
      case Coding(t) => HasMap() && HasSelectors() && h.codes.Stands(t, h.nGroups, h.maps.nInUse + 2)
      case Symbols(s) => d.Stands(s, h, c) && c.max == 100000 * level
    }

    /** What reading on from label at gives. */
    ghost function Rest(at: BlockAt, bits: seq<bool>): (b: Read<Block>)
      requires Valid() && Stands(at)
      reads Repr
      ensures b.Done? ==> b.value.origPtr < |b.value.column|
    {
      match at
      case Header(k) => AfterMagic(ReadMagic(bits, BLOCK_MAGIC[k..]), level)
      case Crc(k, crc) => AfterCrc(ReadNumber(bits, 4 - k, crc), level)
      case RandBit => ReadRandomised(bits, storedBlockCRC, level)
      case OrigPtr(k, p) => AfterOrigPtr(ReadNumber(bits, 3 - k, p), storedBlockCRC, blockRandomised, level)
      case Mapping(m) => AfterMap(h.maps.Rest(m, bits), Fields(), level)
      case Selecting(s) => AfterSelectors(h.sels.Rest(s, bits), Fields(), level, h.maps.inUse[..])
      case Coding(t) => AfterTables(h.codes.Rest(t, h.nGroups, h.maps.nInUse + 2, bits), Fields(), level, h.maps.inUse[..], Chosen())
      case Symbols(s) => AfterColumn(d.Rest(s, h, c, bits), Fields())
    }

    lemma Shape()
      requires Valid()
      ensures 1 <= level <= 9 && h.Valid() && d.Valid() && d.cells.Length == 100000 * level && cftab.Length == 257
      ensures this in Repr && cftab in Repr && h.Repr <= Repr && d.Repr <= Repr && h.Repr !! d.Repr && this as object != cftab
      ensures this !in h.Repr && cftab !in h.Repr && this !in d.Repr && cftab !in d.Repr
      ensures h in h.Repr && h.maps.Repr <= h.Repr && h.sels.Repr <= h.Repr && h.codes.Repr <= h.Repr
      ensures h.maps.Valid() && h.sels.Valid() && h.codes.Valid()
      ensures h !in h.maps.Repr && h !in h.sels.Repr && h !in h.codes.Repr
      ensures h.maps.Repr !! h.sels.Repr && h.maps.Repr !! h.codes.Repr && h.sels.Repr !! h.codes.Repr
    {
    }

    /** A step of receiving a block that is not its last did what the specification says. */
    ghost predicate Goes(st: Status, at: BlockAt, was: Read<Block>, ahead: seq<bool>, unread: seq<bool>)
      requires Valid()
      reads Repr
    {
      match st
      case Ok => Stands(at) && was == Rest(at, ahead)
      case Waiting => Stands(at) && was == Rest(at, ahead) && Rest(at, unread) == Stop(NeedInput)
      case Failed(why) => was == Stop(why) && why != NeedInput
    }

    lemma GoesIs(st: Status, at: BlockAt, was: Read<Block>, ahead: seq<bool>, unread: seq<bool>)
      requires Valid()
      ensures Goes(st, at, was, ahead, unread) <==>
                && (!st.Failed? ==> Stands(at) && was == Rest(at, ahead)) && (st == Waiting ==> Rest(at, unread) == Stop(NeedInput))
                && (st.Failed? ==> was == Stop(st.why) && st.why != NeedInput)
    {
    }

    // The fixed fields.

    lemma FixedIs(at: BlockAt, bits: seq<bool>)
      requires Valid()
      ensures at.Header? ==> (Stands(at) <==> at.k < 6) && (at.k < 6 ==> Rest(at, bits) == AfterMagic(ReadMagic(bits, BLOCK_MAGIC[at.k..]), level))
      ensures at.Crc? ==> (Stands(at) <==> at.k < 4) && (at.k < 4 ==> Rest(at, bits) == AfterCrc(ReadNumber(bits, 4 - at.k, at.crc), level))
      ensures at.RandBit? ==> Stands(at) && Rest(at, bits) == ReadRandomised(bits, storedBlockCRC, level)
      ensures at.OrigPtr? ==>
                && (Stands(at) <==> at.k < 3)
                && (at.k < 3 ==> Rest(at, bits) == AfterOrigPtr(ReadNumber(bits, 3 - at.k, at.p), storedBlockCRC, blockRandomised, level))
    {
      hide AfterMagic, AfterCrc, AfterOrigPtr, AfterMap, AfterSelectors, AfterTables, AfterColumn, ReadMagic, ReadNumber, ReadRandomised, Valid;
    }

    lemma AfterFixed(magic: Read<()>, number: Read<nat>, bits: seq<bool>, crc: nat, randomised: bool)
      ensures magic.Stop? ==> AfterMagic(magic, level) == Stop(magic.why)
      ensures magic.Done? ==> AfterMagic(magic, level) == AfterCrc(ReadNumber(magic.rest, 4, 0), level)
      ensures number.Stop? ==> AfterCrc(number, level) == Stop(number.why) && AfterOrigPtr(number, crc, randomised, level) == Stop(number.why)
      ensures number.Done? ==> AfterCrc(number, level) == ReadRandomised(number.rest, number.value, level)
      ensures number.Done? && number.value > 10 + 100000 * level ==> AfterOrigPtr(number, crc, randomised, level) == Stop(DataError)
      ensures number.Done? && number.value <= 10 + 100000 * level ==>
                AfterOrigPtr(number, crc, randomised, level) == AfterMap(ReadMap(number.rest), Block(crc, randomised, number.value, []), level)
      ensures bits == [] ==> ReadRandomised(bits, crc, level) == Stop(NeedInput)
      ensures bits != [] ==> ReadRandomised(bits, crc, level) == AfterOrigPtr(ReadNumber(bits[1..], 3, 0), crc, bits[0], level)
    {
    }

    method StepHeader(r: Reader, k0: nat, ghost more: seq<bool>, ghost was: Read<Block>) returns (st: Status, at: BlockAt)
      requires Valid() && r.Valid() && r !in Repr && Stands(Header(k0)) && was == Rest(Header(k0), r.Ahead(more))
      modifies r
      ensures r.Valid() && |r.Unread()| <= |old(r.Unread())| && (st == Ok ==> |r.Unread()| < |old(r.Unread())|)
      ensures Goes(st, at, was, r.Ahead(more), r.Unread()) && (st == Waiting ==> r.input == [])
    {
      assert |BLOCK_MAGIC| == 6;
      hide *;
      FixedIs(Header(k0), r.Ahead(more));
      ghost var bits := r.Ahead(more);
      var k;
      st, k := ReceiveMagic(r, [0x31, 0x41, 0x59, 0x26, 0x53, 0x59], k0, more);
      MagicIs();
      ghost var now := if st == Waiting then ReadMagic(r.Ahead(more), BLOCK_MAGIC[k..]) else Stop(NeedInput);
      ghost var sofar := if st == Waiting then ReadMagic(r.Unread(), BLOCK_MAGIC[k..]) else Stop(NeedInput);
      ResumesIs(st, (), r.Ahead(more), ReadMagic(bits, BLOCK_MAGIC[k0..]), now, sofar);
      AfterFixed(ReadMagic(bits, BLOCK_MAGIC[k0..]), Stop(NeedInput), [], 0, false);
      AfterFixed(sofar, Stop(NeedInput), [], 0, false);
      at := if st == Ok then Crc(0, 0) else Header(k);
      FixedIs(at, r.Ahead(more));
      FixedIs(at, r.Unread());
      GoesIs(st, at, was, r.Ahead(more), r.Unread());
    }

    method StepCrc(r: Reader, k0: nat, crc0: nat, ghost more: seq<bool>, ghost was: Read<Block>) returns (st: Status, at: BlockAt)
      requires Valid() && r.Valid() && r !in Repr && Stands(Crc(k0, crc0)) && was == Rest(Crc(k0, crc0), r.Ahead(more))
      modifies r, this
      ensures r.Valid() && |r.Unread()| <= |old(r.Unread())| && (st == Ok ==> |r.Unread()| < |old(r.Unread())|)
      ensures Goes(st, at, was, r.Ahead(more), r.Unread()) && (st == Waiting ==> r.input == [])
    {
      hide *;
      Shape();
      FixedIs(Crc(k0, crc0), r.Ahead(more));
      ghost var number := ReadNumber(r.Ahead(more), 4 - k0, crc0);
      var k, crc;
      st, k, crc := ReceiveNumber(r, 4, k0, crc0, more);
      ghost var now := if st == Waiting then ReadNumber(r.Ahead(more), 4 - k, crc) else Stop(NeedInput);
      ghost var sofar := if st == Waiting then ReadNumber(r.Unread(), 4 - k, crc) else Stop(NeedInput);
      ResumesIs(st, crc, r.Ahead(more), number, now, sofar);
      AfterFixed(Stop(NeedInput), number, [], 0, false);
      AfterFixed(Stop(NeedInput), sofar, [], 0, false);
      at := Crc(k, crc);
      if st == Ok {
        storedBlockCRC := crc;
        at := RandBit;
      }
      FixedIs(at, r.Ahead(more));
      FixedIs(at, r.Unread());
      GoesIs(st, at, was, r.Ahead(more), r.Unread());
    }

    method StepRandBit(r: Reader, ghost more: seq<bool>, ghost was: Read<Block>) returns (st: Status, at: BlockAt)
      requires Valid() && r.Valid() && r !in Repr && was == Rest(RandBit, r.Ahead(more))
      modifies r, this
      ensures r.Valid() && |r.Unread()| <= |old(r.Unread())| && (st == Ok ==> |r.Unread()| < |old(r.Unread())|)
      ensures Goes(st, at, was, r.Ahead(more), r.Unread()) && (st == Waiting ==> r.input == [])
    {
      hide *;
      Shape();
      FixedIs(RandBit, r.Ahead(more));
      FixedIs(RandBit, r.Unread());
      AfterFixed(Stop(NeedInput), Stop(NeedInput), r.Ahead(more), storedBlockCRC, false);
      AfterFixed(Stop(NeedInput), Stop(NeedInput), r.Unread(), storedBlockCRC, false);
      var ok, b := r.GetBit(more);
      if !ok {
        GoesIs(Waiting, RandBit, was, r.Ahead(more), r.Unread());
        return Waiting, RandBit;
      }
      blockRandomised := b;
      st, at := Ok, OrigPtr(0, 0);
      FixedIs(at, r.Ahead(more));
      GoesIs(st, at, was, r.Ahead(more), r.Unread());
    }

    method StepOrigPtr(r: Reader, k0: nat, p0: nat, ghost more: seq<bool>, ghost was: Read<Block>) returns (st: Status, at: BlockAt)
      requires Valid() && r.Valid() && r !in Repr && Stands(OrigPtr(k0, p0)) && was == Rest(OrigPtr(k0, p0), r.Ahead(more))
      modifies r, this
      ensures r.Valid() && |r.Unread()| <= |old(r.Unread())| && (st == Ok ==> |r.Unread()| < |old(r.Unread())|)
      ensures Goes(st, at, was, r.Ahead(more), r.Unread()) && (st == Waiting ==> r.input == [])
    {
      hide *;
      Shape();
      FixedIs(OrigPtr(k0, p0), r.Ahead(more));
      ghost var number := ReadNumber(r.Ahead(more), 3 - k0, p0);
      var k, p;
      st, k, p := ReceiveNumber(r, 3, k0, p0, more);
      ghost var now := if st == Waiting then ReadNumber(r.Ahead(more), 3 - k, p) else Stop(NeedInput);
      ghost var sofar := if st == Waiting then ReadNumber(r.Unread(), 3 - k, p) else Stop(NeedInput);
      ResumesIs(st, p, r.Ahead(more), number, now, sofar);
      AfterFixed(Stop(NeedInput), number, [], storedBlockCRC, blockRandomised);
      AfterFixed(Stop(NeedInput), sofar, [], storedBlockCRC, blockRandomised);
      at := OrigPtr(k, p);
      FixedIs(at, r.Ahead(more));
      FixedIs(at, r.Unread());
      if st == Ok {
        origPtr := p;
        if origPtr > 10 + 100000 * level {
          st := Failed(DataError);
        } else {
          at := Mapping(Mapping1(0));
          MapStart(r.Ahead(more));
          MappingIs(at.used, r.Ahead(more));
        }
      }
      GoesIs(st, at, was, r.Ahead(more), r.Unread());
    }

    lemma MapStart(bits: seq<bool>)
      requires Valid()
      ensures h.maps.Valid() && h.maps.Stands(Mapping1(0)) && h.maps.Rest(Mapping1(0), bits) == ReadMap(bits)
      ensures Fields() == Block(storedBlockCRC, blockRandomised, origPtr, [])
    {
      assert h.maps.inUse16[..0] == [];
    }

    lemma MappingIs(m: MapAt, bits: seq<bool>)
      requires Valid()
      ensures h.maps.Valid() && (Stands(Mapping(m)) <==> h.maps.Stands(m))
      ensures Stands(Mapping(m)) ==> Rest(Mapping(m), bits) == AfterMap(h.maps.Rest(m, bits), Fields(), level)
    {
    }

    lemma MagicIs()
      ensures BLOCK_MAGIC == [0x31, 0x41, 0x59, 0x26, 0x53, 0x59] && |BLOCK_MAGIC| == 6
    {
    }

    // The sections.

    method StepMapping(r: Reader, m0: MapAt, ghost more: seq<bool>, ghost was: Read<Block>) returns (st: Status, at: BlockAt)
      requires Valid() && r.Valid() && r !in Repr && Stands(Mapping(m0)) && was == Rest(Mapping(m0), r.Ahead(more))
      modifies r, Repr
      ensures r.Valid() && |r.Unread()| <= |old(r.Unread())| && (st == Ok ==> |r.Unread()| < |old(r.Unread())|)
      ensures Goes(st, at, was, r.Ahead(more), r.Unread()) && (st == Waiting ==> r.input == [])
    {
      hide *;
      Shape();
      h.maps.MapsIs();
      MappingIs(m0, r.Ahead(more));
      FieldsIs();
      ghost var b, used := Fields(), h.maps.Rest(m0, r.Ahead(more));
      var m;
      st, m := h.maps.Receive(r, m0, more);
      ghost var now := if st == Waiting then h.maps.Rest(m, r.Ahead(more)) else Stop(NeedInput);
      ghost var sofar := if st == Waiting then h.maps.Rest(m, r.Unread()) else Stop(NeedInput);
      ResumesIs(st, h.maps.inUse[..], r.Ahead(more), used, now, sofar);
      AfterMapIs(used, b);
      AfterMapIs(sofar, b);
      FieldsIs();
      if st != Ok {
        at := Mapping(m);
        MappingIs(m, r.Ahead(more));
        MappingIs(m, r.Unread());
        GoesIs(st, at, was, r.Ahead(more), r.Unread());
        return;
      }
      var nInUse := MakeMapsD(h.maps.inUse, h.maps.seqToUnseq);
      h.maps.nInUse := nInUse;
      at := Selecting(Selector1);
      if h.maps.nInUse == 0 {
        st := Failed(DataError);
      } else {
        FieldsIs();
        SelectingIs(Selector1, r.Ahead(more));
        h.sels.StandsIs(Selector1, r.Ahead(more));
      }
      GoesIs(st, at, was, r.Ahead(more), r.Unread());
    }

    lemma FieldsIs()
      ensures Fields() == Block(storedBlockCRC, blockRandomised, origPtr, [])
    {
    }

    lemma AfterMapIs(used: Read<seq<bool>>, b: Block)
      requires used.Done? ==> |used.value| == 256
      ensures used.Stop? ==> AfterMap(used, b, level) == Stop(used.why)
      ensures used.Done? && UsedBelow(used.value, 256) == 0 ==> AfterMap(used, b, level) == Stop(DataError)
      ensures used.Done? && UsedBelow(used.value, 256) > 0 ==>
                && (ReadSelectors(used.rest).Done? ==> Tabled(ReadSelectors(used.rest).value))
                && AfterMap(used, b, level) == AfterSelectors(ReadSelectors(used.rest), b, level, used.value)
    {
    }

    lemma SelectingIs(s: SelAt, bits: seq<bool>)
      requires Valid()
      ensures h.maps.Valid() && h.sels.Valid()
      ensures Stands(Selecting(s)) <==>
                && h.sels.Stands(s) && 1 <= h.maps.nInUse <= 256 && h.maps.nInUse == UsedBelow(h.maps.inUse[..], 256)
                && h.maps.nInUse <= h.maps.seqToUnseq.Length && h.maps.seqToUnseq[..h.maps.nInUse] == UsedList(h.maps.inUse[..], 256)
      ensures Stands(Selecting(s)) ==>
                && (h.sels.Rest(s, bits).Done? ==> Tabled(h.sels.Rest(s, bits).value))
                && Rest(Selecting(s), bits) == AfterSelectors(h.sels.Rest(s, bits), Fields(), level, h.maps.inUse[..])
    {
    }

    method StepSelecting(r: Reader, s0: SelAt, ghost more: seq<bool>, ghost was: Read<Block>) returns (st: Status, at: BlockAt)
      requires Valid() && r.Valid() && r !in Repr && Stands(Selecting(s0)) && was == Rest(Selecting(s0), r.Ahead(more))
      modifies r, Repr
      ensures r.Valid() && |r.Unread()| <= |old(r.Unread())| && (st == Ok ==> |r.Unread()| < |old(r.Unread())|)
      ensures Goes(st, at, was, r.Ahead(more), r.Unread()) && (st == Waiting ==> r.input == [])
    {
      hide *;
      Shape();
      h.sels.TableIs();
      h.maps.MapsIs();
      SelectingIs(s0, r.Ahead(more));
      FieldsIs();
      ghost var b, used, t := Fields(), h.maps.inUse[..], h.sels.Rest(s0, r.Ahead(more));
      var s, nGroups, nSelectors;
      st, s, nGroups, nSelectors := h.sels.Receive(r, s0, more);
      ghost var now := if st == Waiting then h.sels.Rest(s, r.Ahead(more)) else Stop(NeedInput);
      ghost var sofar := if st == Waiting then h.sels.Rest(s, r.Unread()) else Stop(NeedInput);
      ghost var table := Table(nGroups, if st == Ok then h.sels.selector[..nSelectors] else []);
      ResumesIs(st, table, r.Ahead(more), t, now, sofar);
      at := Selecting(s);
      FieldsIs();
      AfterSelectorsIs(t, b, used);
      if st == Ok {
        HasMapIs();
        BeginCoding(nGroups, nSelectors, table, r.Ahead(more), was);
        at := Coding(Coding1(0));
      } else {
        AfterSelectorsIs(sofar, b, used);
        SelectingIs(s, r.Ahead(more));
        SelectingIs(s, r.Unread());
        GoesIs(st, at, was, r.Ahead(more), r.Unread());
      }
    }

    /** The selectors are there: the tables come next. */
    method BeginCoding(nGroups: nat, nSelectors: nat, ghost t: Table, ghost bits: seq<bool>, ghost was: Read<Block>)
      requires Valid() && HasMap() && 2 <= t.nGroups == nGroups && Tabled(t) && 1 <= nSelectors <= BZ_MAX_SELECTORS && h.sels.Valid()
      requires h.sels.selector.Length == BZ_MAX_SELECTORS && t.sel == h.sels.selector[..nSelectors]
      requires was == AfterTables(ReadTables(bits, t.nGroups, UsedBelow(h.maps.inUse[..], 256) + 2), Fields(), level, h.maps.inUse[..], t)
      modifies h
      ensures forall unread: seq<bool> :: Goes(Ok, Coding(Coding1(0)), was, bits, unread)
    {
      hide *;
      Shape();
      HasMapIs();
      FieldsIs();
      h.nGroups, h.nSelectors := nGroups, nSelectors;
      FieldsIs();
      HasMapIs();
      CodingStart(bits, t);
      CodingIs(Coding1(0), bits);
      forall unread: seq<bool>
        ensures Goes(Ok, Coding(Coding1(0)), was, bits, unread)
      {
        GoesIs(Ok, Coding(Coding1(0)), was, bits, unread);
      }
    }

    lemma AfterSelectorsIs(t: Read<Table>, b: Block, inUse: seq<bool>)
      requires |inUse| == 256 && UsedBelow(inUse, 256) > 0 && (t.Done? ==> Tabled(t.value))
      ensures t.Stop? ==> AfterSelectors(t, b, level, inUse) == Stop(t.why)
      ensures t.Done? ==>
                AfterSelectors(t, b, level, inUse)
                == AfterTables(ReadTables(t.rest, t.value.nGroups, UsedBelow(inUse, 256) + 2), b, level, inUse, t.value)
    {
    }

    /** The selectors are there: the tables come next. */
    lemma CodingStart(bits: seq<bool>, t: Table)
      requires Valid() && HasMap() && 2 <= h.nGroups == t.nGroups && Tabled(t)
      requires 1 <= h.nSelectors <= BZ_MAX_SELECTORS && h.sels.Valid() && t.sel == h.sels.selector[..h.nSelectors]
      ensures Stands(Coding(Coding1(0)))
      ensures h.codes.Rest(Coding1(0), h.nGroups, h.maps.nInUse + 2, bits) == ReadTables(bits, h.nGroups, h.maps.nInUse + 2)
    {
      var n := h.maps.nInUse + 2;
      assert h.codes.Received(0, n) == [];
      PrependPrepend([], [], ReadTables(bits, h.nGroups, n));
    }

    lemma CodingIs(t: CodeAt, bits: seq<bool>)
      requires Valid()
      ensures h.maps.Valid() && h.sels.Valid() && h.codes.Valid()
      ensures Stands(Coding(t)) <==>
                && h.codes.Stands(t, h.nGroups, h.maps.nInUse + 2) && 1 <= h.maps.nInUse <= 256
                && h.maps.nInUse == UsedBelow(h.maps.inUse[..], 256)
                && h.maps.nInUse <= h.maps.seqToUnseq.Length && h.maps.seqToUnseq[..h.maps.nInUse] == UsedList(h.maps.inUse[..], 256)
                && 1 <= h.nSelectors <= BZ_MAX_SELECTORS && 2 <= h.nGroups && Tabled(Table(h.nGroups, h.sels.selector[..h.nSelectors]))
      ensures Stands(Coding(t)) ==>
                Rest(Coding(t), bits)
                == AfterTables(h.codes.Rest(t, h.nGroups, h.maps.nInUse + 2, bits), Fields(), level, h.maps.inUse[..],
                               Table(h.nGroups, h.sels.selector[..h.nSelectors]))
    {
    }

    method StepCoding(r: Reader, t0: CodeAt, ghost more: seq<bool>, ghost was: Read<Block>) returns (st: Status, at: BlockAt)
      requires Valid() && r.Valid() && r !in Repr && Stands(Coding(t0)) && was == Rest(Coding(t0), r.Ahead(more))
      modifies r, Repr
      ensures r.Valid() && |r.Unread()| <= |old(r.Unread())| && (st == Ok ==> |r.Unread()| < |old(r.Unread())|)
      ensures Goes(st, at, was, r.Ahead(more), r.Unread()) && (st == Waiting ==> r.input == [])
    {
      hide *;
      Shape();
      h.codes.TableShape();
      h.sels.TableIs();
      h.maps.MapsIs();
      CodingIs(t0, r.Ahead(more));
      FieldsIs();
      var n := h.maps.nInUse + 2;
      ghost var b, used, t, tables := Fields(), h.maps.inUse[..], Chosen(), h.codes.Rest(t0, h.nGroups, n, r.Ahead(more));
      ChosenIs();
      var code;
      st, code := h.codes.Receive(r, t0, h.nGroups, n, more);
      ghost var now := if st == Waiting then h.codes.Rest(code, h.nGroups, n, r.Ahead(more)) else Stop(NeedInput);
      ghost var sofar := if st == Waiting then h.codes.Rest(code, h.nGroups, n, r.Unread()) else Stop(NeedInput);
      ResumesIs(st, h.codes.Received(h.nGroups, n), r.Ahead(more), tables, now, sofar);
      AfterTablesIs(tables, b, used, t);
      AfterTablesIs(sofar, b, used, t);
      at := Coding(code);
      FieldsIs();
      if st == Ok {
        HasMapIs();
        ChosenIs();
        st, at := BeginSymbols(r.Ahead(more), was);
        GoesIs(st, at, was, r.Ahead(more), []);
      } else {
        CodingIs(code, r.Ahead(more));
        CodingIs(code, r.Unread());
      }
      GoesIs(st, at, was, r.Ahead(more), r.Unread());
    }

    lemma ChosenIs()
      requires Valid() && h.nSelectors <= BZ_MAX_SELECTORS
      ensures h.sels.Valid() && h.sels.selector.Length == BZ_MAX_SELECTORS
      ensures Chosen() == Table(h.nGroups, h.sels.selector[..h.nSelectors])
    {
    }

    lemma AfterTablesIs(tables: Read<seq<seq<nat>>>, b: Block, inUse: seq<bool>, t: Table)
      requires |inUse| == 256 && UsedBelow(inUse, 256) > 0 && Tabled(t)
      requires tables.Done? ==> |tables.value| == t.nGroups && Lengths(tables.value, UsedBelow(inUse, 256) + 2)
      ensures tables.Stop? ==> AfterTables(tables, b, level, inUse, t) == Stop(tables.why)
      ensures tables.Done? ==>
                var c := CodedBy(inUse, t.sel, tables.value, 100000 * level);
                && WellCoded(c) && Proper(Place(-1, 0))
                && AfterTables(tables, b, level, inUse, t)
                   == AfterColumn(ReadColumn(tables.rest, c, Place(-1, 0), Mtf(FirstList(256), [], 0, 0)), b)
    {
      if tables.Done? { CodedWell(inUse, t, tables.value, 100000 * level); }
    }

    lemma AfterColumnIs(column: Read<seq<byte>>, b: Block)
      ensures column.Stop? ==> AfterColumn(column, b) == Stop(column.why)
      ensures column.Done? ==>
                AfterColumn(column, b) == if b.origPtr >= |column.value| then Stop(DataError) else Done(b.(column := column.value), column.rest)
    {
    }

    lemma SymbolsIs(s: ColumnAt, bits: seq<bool>)
      requires Valid()
      ensures Stands(Symbols(s)) <==> d.Stands(s, h, c) && c.max == 100000 * level
      ensures Stands(Symbols(s)) ==> Rest(Symbols(s), bits) == AfterColumn(d.Rest(s, h, c, bits), Fields())
    {
    }

    lemma FittingNow(tables: seq<seq<nat>>)
      requires Valid() && HasMap() && HasSelectors() && h.codes.Made(tables)
      requires |tables| == h.nGroups && Lengths(tables, h.maps.nInUse + 2)
      ensures var c := CodedBy(h.maps.inUse[..], Chosen().sel, tables, 100000 * level);
              h.Fitting(c) && c.max == 100000 * level
    {
      hide h.codes.Made;
      CodedWell(h.maps.inUse[..], Chosen(), tables, 100000 * level);
    }

    /** The tables are made and the first symbol is begun. */
    method BeginSymbols(ghost bits: seq<bool>, ghost was: Read<Block>) returns (st: Status, at: BlockAt)
      requires Valid() && HasMap() && HasSelectors() && h.nGroups <= 6 && h.codes.Valid()
      requires Lengths(h.codes.Received(h.nGroups, h.maps.nInUse + 2), h.maps.nInUse + 2)
      requires was == AfterTables(Done(h.codes.Received(h.nGroups, h.maps.nInUse + 2), bits), Fields(), level, h.maps.inUse[..], Chosen())
      modifies Repr
      ensures st == Ok || st == Failed(DataError)
      ensures Goes(st, at, was, bits, [])
    {
      hide *;
      Shape();
      h.codes.TableShape();
      HasMapIs();
      ghost var n := h.maps.nInUse + 2;
      ghost var tables, b, used, t := h.codes.Received(h.nGroups, n), Fields(), h.maps.inUse[..], Chosen();
      FieldsIs();
      ChosenIs();
      AfterTablesIs(Done(tables, bits), b, used, t);
      h.codes.MakeTables(h.nGroups, h.maps.nInUse + 2);
      FittingNow(tables);
      c := CodedBy(used, t.sel, tables, 100000 * level);
      var ph := d.Start(h, c, bits);
      ghost var column := ReadColumn(bits, c, Place(-1, 0), Mtf(FirstList(256), [], 0, 0));
      d.FollowsIs(ph, h, c, column, bits);
      AfterColumnIs(column, b);
      FieldsIs();
      st, at := Failed(DataError), RandBit;
      if ph.Going? {
        st, at := Ok, Symbols(ph.at);
        SymbolsIs(ph.at, bits);
      }
      GoesIs(st, at, was, bits, []);
    }

    lemma HasMapIs()
      requires Valid()
      ensures HasMap() <==>
                && h.maps.Valid() && 1 <= h.maps.nInUse <= 256 && h.maps.nInUse == UsedBelow(h.maps.inUse[..], 256)
                && h.maps.nInUse <= h.maps.seqToUnseq.Length && h.maps.seqToUnseq[..h.maps.nInUse] == UsedList(h.maps.inUse[..], 256)
      ensures HasSelectors() <==> 1 <= h.nSelectors <= BZ_MAX_SELECTORS && 2 <= h.nGroups && Tabled(Chosen())
    {
    }

    /** The block that has been received. */
    ghost function Received(): Block
      reads this, d
    {
      Block(storedBlockCRC, blockRandomised, origPtr, d.col)
    }

    lemma ReceivedIs()
      ensures Received() == Fields().(column := d.col)
      ensures Received() == Block(storedBlockCRC, blockRandomised, origPtr, d.col)
    {
    }

    /** The column of the received block is in the cells, its cumulative counts are in cftab. */
    ghost predicate Complete()
      requires Valid()
      reads Repr
    {
      && origPtr < d.nblock == |d.col| <= d.cells.Length && InCells(d.cells[..], d.col)
      && Cumulative(d.col, cftab[..])
    }

    lemma CompleteIs()
      requires Valid()
      ensures Complete() <==> origPtr < d.nblock == |d.col| <= d.cells.Length && InCells(d.cells[..], d.col) && Cumulative(d.col, cftab[..])
    {
    }

    /** The symbols, and the sanity checks behind them. */
    method FinishSymbols(r: Reader, s0: ColumnAt, ghost more: seq<bool>, ghost was: Read<Block>) returns (st: Status, at: BlockAt)
      requires Valid() && r.Valid() && r !in Repr && Stands(Symbols(s0)) && was == Rest(Symbols(s0), r.Ahead(more))
      modifies r, Repr
      ensures r.Valid() && |r.Unread()| <= |old(r.Unread())| && (st == Ok ==> |r.Unread()| < |old(r.Unread())|)
      ensures (st == Waiting ==> Stands(at) && r.input == []) && (st == Ok ==> Complete())
      ensures Resumes(st, Received(), r.Ahead(more), was, if st == Waiting then Rest(at, r.Ahead(more)) else Stop(NeedInput),
                      if st == Waiting then Rest(at, r.Unread()) else Stop(NeedInput))
    {
      hide *;
      Shape();
      d.Shape();
      SymbolsIs(s0, r.Ahead(more));
      FieldsIs();
      ghost var b, column := Fields(), d.Rest(s0, h, c, r.Ahead(more));
      var s;
      st, s := d.Receive(r, h, s0, 100000 * level, c, more);
      ghost var now := if st == Waiting then d.Rest(s, h, c, r.Ahead(more)) else Stop(NeedInput);
      ghost var sofar := if st == Waiting then d.Rest(s, h, c, r.Unread()) else Stop(NeedInput);
      ResumesIs(st, d.col, r.Ahead(more), column, now, sofar);
      AfterColumnIs(column, b);
      AfterColumnIs(sofar, b);
      FieldsIs();
      ReceivedIs();
      at := Symbols(s);
      if st == Waiting {
        SymbolsIs(s, r.Ahead(more));
        SymbolsIs(s, r.Unread());
        ResumesIs(st, Received(), r.Ahead(more), was, Rest(at, r.Ahead(more)), Rest(at, r.Unread()));
        return;
      }
      if st == Ok {
        d.HoldsIs(h, c);
        if origPtr >= d.nblock {
          st := Failed(DataError);
        } else {
          var ok := BuildCftab(d.unzftab, cftab, d.nblock, d.col);
          CompleteIs();
        }
      }
      ReceivedIs();
      FieldsIs();
      ResumesIs(st, Received(), r.Ahead(more), was, Stop(NeedInput), Stop(NeedInput));
    }

    /** One step: up to the next section. */
    method Step(r: Reader, at0: BlockAt, ghost more: seq<bool>, ghost was: Read<Block>) returns (st: Status, at: BlockAt)
      requires Valid() && r.Valid() && r !in Repr && Stands(at0) && was == Rest(at0, r.Ahead(more)) && !at0.Symbols?
      modifies r, Repr
      ensures r.Valid() && |r.Unread()| <= |old(r.Unread())| && (st == Ok ==> |r.Unread()| < |old(r.Unread())|)
      ensures Goes(st, at, was, r.Ahead(more), r.Unread()) && (st == Waiting ==> r.input == [])
    {
      hide *;
      Shape();
      match at0 {
        case Header(k) => st, at := StepHeader(r, k, more, was);
        case Crc(k, crc) => st, at := StepCrc(r, k, crc, more, was);
        case RandBit => st, at := StepRandBit(r, more, was);
        case OrigPtr(k, p) => st, at := StepOrigPtr(r, k, p, more, was);
        case Mapping(m) => st, at := StepMapping(r, m, more, was);
        case Selecting(s) => st, at := StepSelecting(r, s, more, was);
        case Coding(t) => st, at := StepCoding(r, t, more, was);
      }
    }

    /**
     One block is received, from wherever the last call left off. On success the block is the one the specification reads off
     the bits, its last column is in the cells, and cftab holds the cumulative counts.
     */
    method Receive(r: Reader, at0: BlockAt, ghost more: seq<bool>) returns (st: Status, at: BlockAt)
      requires Valid() && r.Valid() && r !in Repr && Stands(at0)
      modifies r, Repr
      ensures r.Valid() && |r.Unread()| <= |old(r.Unread())| && (st == Ok ==> |r.Unread()| < |old(r.Unread())|)
      ensures (st == Waiting ==> Stands(at) && r.input == []) && (st == Ok ==> Complete())
      ensures Resumes(st, Received(), r.Ahead(more), old(Rest(at0, r.Ahead(more))),
                      if st == Waiting then Rest(at, r.Ahead(more)) else Stop(NeedInput),
                      if st == Waiting then Rest(at, r.Unread()) else Stop(NeedInput))
    {
      hide *;
      at := at0;
      ghost var was := Rest(at0, r.Ahead(more));
      while !at.Symbols?
        invariant r.Valid() && Stands(at) && was == Rest(at, r.Ahead(more)) && |r.Unread()| <= |old(r.Unread())|
        decreases |r.Unread()|
      {
        st, at := Step(r, at, more, was);
        GoesIs(st, at, was, r.Ahead(more), r.Unread());
        if st != Ok {
          ResumesIs(st, Received(), r.Ahead(more), was, if st == Waiting then Rest(at, r.Ahead(more)) else Stop(NeedInput),
                    if st == Waiting then Rest(at, r.Unread()) else Stop(NeedInput));
          return;
        }
      }
      st, at := FinishSymbols(r, at.column, more, was);
    }
  }
}
