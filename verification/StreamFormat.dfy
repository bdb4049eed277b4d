/**
 A whole stream: header, blocks and trailer (dep/bzip2/compress.c), how it is read (dep/bzip2/decompress.c,
 dep/bzip2/bzlib.c), and the theorem that what was compressed comes back.
 */
module StreamFormat {
  import opened Bits
  import opened BitReader
  import opened CountingOrder
  import opened Rotations
  import opened RunLength
  import opened MoveToFront
  import opened MtfEncode
  import opened BlockCrc
  import opened CharacterMaps
  import opened KraftSum
  import opened BlockFormat
  import opened BlockEncode
  import InverseBwt

  const STREAM_MAGIC: seq<byte> := [0x42, 0x5a, 0x68]
  const END_MAGIC: seq<byte> := [0x17, 0x72, 0x45, 0x38, 0x50, 0x90]

  // Reading.

  /**
   How reading a stream ends: with its trailer, in the middle of it, without its magic bytes, corrupt, with a block that ends
   within a run, with more selectors than there are places for, or at a randomised block, which is not part of the model.
   */
  datatype Ending = Whole(rest: seq<bool>) | Starving | NotBzip2 | Damaged | RunsPast | TooManySelectors | Randomised

  /** Everything that is decoded up to the end, whatever the end is. */
  datatype Stream = Stream(data: seq<byte>, ending: Ending)

  function Behind(data: seq<byte>, s: Stream): Stream {
    Stream(data + s.data, s.ending)
  }

  function EndingOf(why: Why): Ending {
    match why
    case NeedInput => Starving
    case DataError => Damaged
    case TooMany => TooManySelectors
  }

  lemma EveryPlace(l: seq<byte>, r: nat)
    requires r < |l|
    ensures exists p: nat :: p < |l| && SortedPlace(l, p) == r
  {
    AllBelow(l, 256);
    var p := PlaceCovered(l, 256, r);
  }

  /** The place of the last column that goes to place r of the sorted column. */
  ghost function SourceOf(l: seq<byte>, r: nat): (p: nat)
    requires r < |l|
    ensures p < |l| && SortedPlace(l, p) == r
  {
    EveryPlace(l, r);
    var p: nat :| p < |l| && SortedPlace(l, p) == r;
    p
  }

  /** The permutation that the decoder follows. */
  ghost function Inverse(l: seq<byte>): (perm: seq<nat>)
    ensures |perm| == |l| && forall r :: 0 <= r < |l| ==> perm[r] < |l| && SortedPlace(l, perm[r]) == r
  {
    seq(|l|, r requires 0 <= r < |l| => SourceOf(l, r))
  }

  /** What a block decodes to: the walk, two bytes longer than the block, with its runs undone. */
  ghost function BlockOutput(b: Block): Unpacked
    requires b.origPtr < |b.column|
  {
    Unrle(Walk(b.column, Inverse(b.column), b.origPtr, |b.column| + 2), |b.column|)
  }

  /** The blocks and the trailer; combined is the CRC of the blocks so far. */
  ghost function ReadBlocks(bits: seq<bool>, level: nat, combined: bv32): Stream
    decreases |bits|, 1
  {
    if |bits| < 8 then Stream([], Starving)
    else if Value(bits[..8]) == 0x17 then AfterEnd(ReadMagic(bits[8..], END_MAGIC[1..]), combined)
    else AfterBlock(ReadBlock(bits, level), level, combined)
  }

  /** A block has been read. */
  ghost function AfterBlock(block: Read<Block>, level: nat, combined: bv32): Stream
    requires block.Done? ==> block.value.origPtr < |block.value.column|
    decreases if block.Done? then |block.rest| else 0, if block.Done? then 3 else 0
  {
    match block
    case Stop(why) => Stream([], EndingOf(why))
    case Done(b, rest) =>
      if b.randomised then Stream([], Randomised)
      else FromBlock(BlockOutput(b), Initial(), b.crc, rest, level, combined)
  }

  /** A block of which this is owed and crc is the register so far; its check, and what follows. */
  ghost function FromBlock(owed: Unpacked, crc: bv32, stored: nat, bits: seq<bool>, level: nat, combined: bv32): Stream
    decreases |bits|, 2
  {
    var final := Finalised(Register(crc, owed.bytes));
    if !owed.ok then Stream(owed.bytes, RunsPast)
    else if Number(final) != stored then Stream(owed.bytes, Damaged)
    else Behind(owed.bytes, ReadBlocks(bits, level, Combine(combined, final)))
  }

  ghost function AfterEnd(magic: Read<()>, combined: bv32): Stream {
    match magic
    case Stop(why) => Stream([], EndingOf(why))
    case Done(_, rest) => AfterStreamCrc(ReadNumber(rest, 4, 0), combined)
  }

  ghost function AfterStreamCrc(crc: Read<nat>, combined: bv32): Stream {
    match crc
    case Stop(why) => Stream([], EndingOf(why))
    case Done(v, rest) => Stream([], if v != Number(combined) then Damaged else Whole(rest))
  }

  ghost function ReadStream(bits: seq<bool>): Stream {
    AfterStreamMagic(ReadMagic(bits, STREAM_MAGIC))
  }

  ghost function AfterStreamMagic(magic: Read<()>): Stream {
    match magic
    case Stop(why) => Stream([], if why == NeedInput then Starving else NotBzip2)
    case Done(_, rest) => ReadLevel(rest)
  }

  ghost function ReadLevel(bits: seq<bool>): Stream {
    if |bits| < 8 then Stream([], Starving)
    else if Value(bits[..8]) < 0x31 || Value(bits[..8]) > 0x39 then Stream([], NotBzip2)
    else ReadBlocks(bits[8..], Value(bits[..8]) - 0x30, 0)
  }

  // Writing.

  /** One block as it was written, the block itself and the data it stands for. */
  datatype Piece = Piece(bits: seq<bool>, block: seq<byte>, data: seq<byte>)

  ghost predicate Unpacks(block: seq<byte>, data: seq<byte>) {
    block != [] && forall x: byte, y: byte :: Unrle(block + [x, y], |block|) == Unpacked(data, true)
  }

  ghost predicate Written(p: Piece, level: nat) {
    DecodesTo(p.bits, level, BlockCrcOf(p.data), p.block) && Unpacks(p.block, p.data)
  }

  ghost predicate AllWritten(pieces: seq<Piece>, level: nat) {
    forall i :: 0 <= i < |pieces| ==> Written(pieces[i], level)
  }

  ghost function AllBits(pieces: seq<Piece>): seq<bool> {
    if pieces == [] then [] else AllBits(pieces[..|pieces| - 1]) + pieces[|pieces| - 1].bits
  }

  ghost function AllData(pieces: seq<Piece>): seq<byte> {
    if pieces == [] then [] else AllData(pieces[..|pieces| - 1]) + pieces[|pieces| - 1].data
  }

  ghost function Combined(pieces: seq<Piece>): bv32 {
    if pieces == [] then 0
    else Combine(Combined(pieces[..|pieces| - 1]), Checksum(pieces[|pieces| - 1].data))
  }

  function HeaderBits(level: nat): seq<bool>
    requires 1 <= level <= 9
  {
    BytesBits([0x42, 0x5a, 0x68, 0x30 + level])
  }

  function TrailerBits(combined: bv32): seq<bool> {
    BytesBits([0x17, 0x72, 0x45, 0x38, 0x50, 0x90]) + BitsOf(32, Number(combined))
  }

  // The round trip.

  lemma {:induction false} WalkPrefix(l: seq<byte>, perm: seq<nat>, r: nat, k: nat, j: nat)
    requires |perm| >= |l| && r < |l| && forall i :: 0 <= i < |l| ==> perm[i] < |l|
    ensures Walk(l, perm, r, k + j)[..k] == Walk(l, perm, r, k)
    decreases k
  {
    if k > 0 {
      WalkPrefix(l, perm, perm[r], k - 1, j);
      var w, v := Walk(l, perm, r, k + j), Walk(l, perm, perm[r], k - 1 + j);
      assert w == [l[perm[r]]] + v;
      assert w[..k] == [l[perm[r]]] + v[..k - 1];
    }
  }

  lemma InversePermutes(l: seq<byte>)
    ensures Permuted(l, Inverse(l))
  {
    forall i | 0 <= i < |l|
      ensures SortedPlace(l, i) < |l| && Inverse(l)[SortedPlace(l, i)] == i
    {
      PlaceInRange(l, i);
      InverseBwt.PlacesDistinct(l, Inverse(l)[SortedPlace(l, i)], i);
    }
  }

  lemma SpelledWalk(b: Block, block: seq<byte>, perm: seq<nat>)
    requires Spells(b, block) && Permuted(b.column, perm)
    ensures b.origPtr < |b.column| == |block| <= |perm| && forall i :: 0 <= i < |b.column| ==> perm[i] < |b.column|
    ensures Walk(b.column, perm, b.origPtr, |block|) == block
  {
  }

  lemma UnpacksWith(block: seq<byte>, data: seq<byte>, x: byte, y: byte)
    requires Unpacks(block, data)
    ensures Unrle(block + [x, y], |block|) == Unpacked(data, true)
  {
  }

  /** A block that spells its contents decodes to the data they stand for. */
  lemma SpelledOutput(b: Block, block: seq<byte>, data: seq<byte>)
    requires Spells(b, block) && Unpacks(block, data)
    ensures b.origPtr < |b.column| && BlockOutput(b) == Unpacked(data, true)
  {
    hide *;
    var n, perm := |block|, Inverse(b.column);
    InversePermutes(b.column);
    SpelledWalk(b, block, perm);
    var w := Walk(b.column, perm, b.origPtr, n + 2);
    WalkPrefix(b.column, perm, b.origPtr, n, 2);
    LastTwo(w, block);
    UnpacksWith(block, data, w[n], w[n + 1]);
    BlockOutputIs(b);
  }

  lemma LastTwo(w: seq<byte>, block: seq<byte>)
    requires |w| == |block| + 2 && w[..|block|] == block
    ensures w == block + [w[|block|], w[|block| + 1]]
  {
  }

  lemma BlockOutputIs(b: Block)
    requires b.origPtr < |b.column|
    ensures BlockOutput(b) == Unrle(Walk(b.column, Inverse(b.column), b.origPtr, |b.column| + 2), |b.column|)
  {
  }

  /** The first byte of a block is not that of a trailer. */
  lemma BlockNotTrailer(bits: seq<bool>, level: nat)
    requires ReadBlock(bits, level).Done?
    ensures |bits| >= 8 && Value(bits[..8]) == 0x31
  {
  }

  lemma ReadBlocksIs(bits: seq<bool>, level: nat, combined: bv32)
    ensures |bits| < 8 ==> ReadBlocks(bits, level, combined) == Stream([], Starving)
    ensures |bits| >= 8 && Value(bits[..8]) == 0x17 ==>
              ReadBlocks(bits, level, combined) == AfterEnd(ReadMagic(bits[8..], END_MAGIC[1..]), combined)
    ensures |bits| >= 8 && Value(bits[..8]) != 0x17 ==> ReadBlocks(bits, level, combined) == AfterBlock(ReadBlock(bits, level), level, combined)
  {
  }

  lemma AfterBlockIs(b: Block, rest: seq<bool>, level: nat, combined: bv32)
    requires b.origPtr < |b.column| && !b.randomised
    ensures AfterBlock(Done(b, rest), level, combined) == FromBlock(BlockOutput(b), Initial(), b.crc, rest, level, combined)
  {
  }

  lemma FromBlockIs(owed: Unpacked, crc: bv32, stored: nat, bits: seq<bool>, level: nat, combined: bv32)
    ensures FromBlock(owed, crc, stored, bits, level, combined)
         == (var final := Finalised(Register(crc, owed.bytes));
             if !owed.ok then Stream(owed.bytes, RunsPast)
             else if Number(final) != stored then Stream(owed.bytes, Damaged)
             else Behind(owed.bytes, ReadBlocks(bits, level, Combine(combined, final))))
  {
  }

  lemma ChecksumIs(data: seq<byte>)
    ensures Checksum(data) == Finalised(Register(Initial(), data)) && BlockCrcOf(data) == Number(Checksum(data))
  {
  }

  lemma BlockBack(p: Piece, level: nat, more: seq<bool>, combined: bv32)
    requires Written(p, level)
    ensures ReadBlocks(p.bits + more, level, combined)
         == Behind(p.data, ReadBlocks(more, level, Combine(combined, Checksum(p.data))))
  {
    hide *;
    var b := PieceBlock(p, level);
    SpelledOutput(b, p.block, p.data);
    PieceRead(p, level, b, more);
    ReadBlocksIs(p.bits + more, level, combined);
    AfterBlockIs(b, more, level, combined);
    FromBlockIs(BlockOutput(b), Initial(), b.crc, more, level, combined);
    ChecksumIs(p.data);
  }

  lemma PieceBlock(p: Piece, level: nat) returns (b: Block)
    requires Written(p, level)
    ensures Decoded(p.bits, level, b) && b.crc == BlockCrcOf(p.data) && !b.randomised && Spells(b, p.block) && Unpacks(p.block, p.data)
  {
    hide Decoded, Spells, Unpacks, BlockCrcOf;
    b :| Decoded(p.bits, level, b) && b.crc == BlockCrcOf(p.data) && !b.randomised && Spells(b, p.block);
  }

  lemma PieceRead(p: Piece, level: nat, b: Block, more: seq<bool>)
    requires Decoded(p.bits, level, b)
    ensures ReadBlock(p.bits + more, level) == Done(b, more)
    ensures |p.bits + more| >= 8 && Value((p.bits + more)[..8]) != 0x17
  {
    hide ReadBlock, Value;
    BlockNotTrailer(p.bits + more, level);
  }

  lemma TrailerBack(combined: bv32, more: seq<bool>, level: nat)
    ensures ReadBlocks(TrailerBits(combined) + more, level, combined) == Stream([], Whole(more))
  {
    hide ReadMagic, BytesBits, BitsOf, Value, Pow2, ReadBlock, ReadNumber;
    var c := Number(combined);
    WordSize();
    Associate(BytesBits(END_MAGIC), BitsOf(32, c), more);
    var rest := BitsOf(32, c) + more;
    EndMagic(rest);
    TrailerByte(rest);
    MagicRoundTrip(END_MAGIC[1..], rest);
    NumberBack(c, 4, more);
  }

  /** The magic bytes of the trailer behind the first one. */
  lemma EndMagic(rest: seq<bool>)
    ensures (BytesBits(END_MAGIC) + rest)[8..] == BytesBits(END_MAGIC[1..]) + rest
  {
    var first := BitsOf(8, END_MAGIC[0]);
    Associate(first, BytesBits(END_MAGIC[1..]), rest);
    assert BytesBits(END_MAGIC) == first + BytesBits(END_MAGIC[1..]);
    assert (first + (BytesBits(END_MAGIC[1..]) + rest))[8..] == BytesBits(END_MAGIC[1..]) + rest;
  }

  lemma TrailerByte(rest: seq<bool>)
    ensures var bits := BytesBits(END_MAGIC) + rest; |bits| >= 8 && Value(bits[..8]) == 0x17
  {
    var bits := BytesBits(END_MAGIC) + rest;
    WordSize();
    ValueOfBits(8, 0x17);
    assert bits[..8] == BitsOf(8, 0x17);
  }

  lemma BehindBehind(a: seq<byte>, b: seq<byte>, s: Stream)
    ensures Behind(a, Behind(b, s)) == Behind(a + b, s) && Behind([], s) == s
  {
    Associate(a, b, s.data);
    assert [] + s.data == s.data;
  }

  /** Reading on from the first k blocks is reading everything. */
  lemma {:induction false} BlocksBack(pieces: seq<Piece>, level: nat, more: seq<bool>)
    requires AllWritten(pieces, level)
    ensures ReadBlocks(AllBits(pieces) + more, level, 0) == Behind(AllData(pieces), ReadBlocks(more, level, Combined(pieces)))
  {
    hide ReadBlocks, Written, Combine, BlockCrcOf, Checksum;
    if pieces == [] {
      assert [] + more == more;
      BehindBehind([], [], ReadBlocks(more, level, 0));
    } else {
      var k := |pieces| - 1;
      var p := pieces[k];
      Associate(AllBits(pieces[..k]), p.bits, more);
      BlocksBack(pieces[..k], level, p.bits + more);
      BlockBack(p, level, more, Combined(pieces[..k]));
      BehindBehind(AllData(pieces[..k]), p.data, ReadBlocks(more, level, Combined(pieces)));
    }
  }

  /** The stream that was written, whatever follows it, decodes to the data of all its blocks. */
  lemma StreamRoundTrip(pieces: seq<Piece>, level: nat, more: seq<bool>)
    requires AllWritten(pieces, level) && 1 <= level <= 9
    ensures ReadStream(HeaderBits(level) + AllBits(pieces) + TrailerBits(Combined(pieces)) + more) == Stream(AllData(pieces), Whole(more))
  {
    hide ReadBlocks, AllBits, AllData, Combined, TrailerBits, Written;
    var body := AllBits(pieces) + (TrailerBits(Combined(pieces)) + more);
    BlocksBack(pieces, level, TrailerBits(Combined(pieces)) + more);
    TrailerBack(Combined(pieces), more, level);
    HeaderBack(level, body);
    var h, a, t := HeaderBits(level), AllBits(pieces), TrailerBits(Combined(pieces));
    Associate(h + a, t, more);
    Associate(h, a, t + more);
    assert AllData(pieces) + [] == AllData(pieces);
  }

  lemma HeaderBack(level: nat, body: seq<bool>)
    requires 1 <= level <= 9
    ensures ReadStream(HeaderBits(level) + body) == ReadBlocks(body, level, 0)
  {
    hide ReadBlocks;
    var digit: byte := 0x30 + level;
    var rest := BitsOf(8, digit) + body;
    HeaderSplits(level);
    Associate(BytesBits(STREAM_MAGIC), BitsOf(8, digit), body);
    MagicRoundTrip(STREAM_MAGIC, rest);
    WordSize();
    ValueOfBits(8, digit);
    assert rest[..8] == BitsOf(8, digit) && rest[8..] == body;
  }

  lemma HeaderSplits(level: nat)
    requires 1 <= level <= 9
    ensures HeaderBits(level) == BytesBits(STREAM_MAGIC) + BitsOf(8, (0x30 + level) as byte)
  {
    assert [0x42 as byte, 0x5a, 0x68, (0x30 + level) as byte] == STREAM_MAGIC + [(0x30 + level) as byte];
    BitWriter.BytesBitsAppend(STREAM_MAGIC, (0x30 + level) as byte);
  }

  // Where the decompressor falls short of this.

  /** A stream at whose first block BZ2_decompress writes outside the arrays of selectors. */
  lemma OutsideStream(level: nat, more: seq<bool>)
    requires 1 <= level <= 9
    ensures ReadStream(HeaderBits(level) + (OutsideBits() + more)) == Stream([], TooManySelectors)
  {
    hide HeaderBits, OutsideBits, ReadBlock, ReadStream;
    HeaderBack(level, OutsideBits() + more);
    OutsideBlock(more, level);
    OutsideFirst(more);
    ReadBlocksIs(OutsideBits() + more, level, 0);
  }

  lemma OutsideFirst(more: seq<bool>)
    ensures |OutsideBits() + more| >= 8 && Value((OutsideBits() + more)[..8]) == 0x31
  {
    hide BytesBits, FixedBits, Value, BitsOf;
    FirstOfBlock();
    assert (OutsideBits() + more)[..8] == BytesBits(BLOCK_MAGIC)[..8];
    WordSize();
    ValueOfBits(8, 0x31);
  }

  lemma FirstOfBlock()
    ensures BytesBits(BLOCK_MAGIC)[..8] == BitsOf(8, 0x31) && |BytesBits(BLOCK_MAGIC)| == 48
  {
    hide BitsOf;
    assert BLOCK_MAGIC[0] == 0x31;
  }

  /** Four equal bytes without a count: the block ends within a run, and what is put out takes the byte behind it for the count. */
  lemma RunsPastBlock(crc: nat, a: byte)
    ensures BlockOutput(Block(crc, false, 0, [a, a, a, a])) == Unpacked(Repeat(a, a as nat + 4), false)
  {
    hide Inverse, SortedPlace;
    var l: seq<byte> := [a, a, a, a];
    var perm := Inverse(l);
    WalkUniform(l, perm, a, 0, 6);
    var w := Walk(l, perm, 0, 6);
    assert w[5..] == [a] && forall i :: 0 <= i < 6 ==> w[i] == a;
    assert Unrle(w[5..], -1) == Unpacked([], false);
    assert Repeat(a, a as nat + 4) + [] == Repeat(a, a as nat + 4);
  }

  lemma {:induction false} WalkUniform(l: seq<byte>, perm: seq<nat>, a: byte, r: nat, k: nat)
    requires |perm| == |l| && r < |l| && (forall i :: 0 <= i < |l| ==> l[i] == a && perm[i] < |l|)
    ensures |Walk(l, perm, r, k)| == k && forall i :: 0 <= i < k ==> Walk(l, perm, r, k)[i] == a
    decreases k
  {
    if k > 0 { WalkUniform(l, perm, a, perm[r], k - 1); }
  }

  // A stream with such a block.

  /** Every character in use, a code of nine bits for each symbol, and one group. */
  function PlainChoice(crc: nat): Choice {
    var table := seq(258, _ => 9);
    Choice(crc, 0, seq(256, _ => true), [0], [table, table])
  }

  lemma {:induction false} AllCounted(b: nat)
    requires b <= 256
    ensures UsedBelow(seq(256, _ => true), b) == b
  {
    if b > 0 { AllCounted(b - 1); }
  }

  lemma {:induction false} EvenKraft(n: nat)
    ensures Kraft(seq(n, _ => 9)) == n as real * Half(9)
  {
    if n > 0 {
      EvenKraft(n - 1);
      assert seq(n, _ => 9)[..n - 1] == seq(n - 1, _ => 9);
    }
  }

  lemma NineHalves()
    ensures Half(9) == 1.0 / 512.0
  {
    assert Half(3) == 1.0 / 8.0;
    assert Half(6) == 1.0 / 64.0;
  }

  lemma PlainSound(crc: nat, n: nat)
    requires crc < 0x1_0000_0000 && n <= 50
    ensures Sound(PlainChoice(crc), n)
  {
    AllCounted(256);
    EvenKraft(258);
    NineHalves();
    hide Kraft, UsedBelow, Half;
  }

  function Four(a: byte): seq<byte> {
    [a, a, a, a]
  }

  const PLACES: seq<nat> := [0, 1, 2, 3]

  lemma FourFits(a: byte, crc: nat)
    ensures Four(a) != [] && AllUsed(Four(a), PlainChoice(crc).inUse) && |PLACES| == 4 && PlainChoice(crc).origPtr == 0
    ensures forall i :: 0 <= i < |PLACES| ==> PLACES[i] < |Four(a)|
    ensures LastColumn(Four(a), PLACES) == Four(a) && PlainChoice(crc).crc == crc
  {
  }

  /** Four equal bytes, in the order of their places. */
  ghost function FourBits(crc: nat, a: byte): seq<bool>
    requires crc < 0x1_0000_0000
  {
    FourFits(a, crc);
    PlainSound(crc, |Symbols(Four(a), PLACES, PlainChoice(crc).inUse)|);
    BlockBits(Four(a), PLACES, PlainChoice(crc))
  }

  lemma FourBack(crc: nat, a: byte, level: nat, more: seq<bool>)
    requires crc < 0x1_0000_0000 && 1 <= level <= 9
    ensures ReadBlock(FourBits(crc, a) + more, level) == Done(Block(crc, false, 0, [a, a, a, a]), more)
  {
    FourBitsAre(crc, a);
    hide *;
    FourFits(a, crc);
    PlainSound(crc, |Symbols(Four(a), PLACES, PlainChoice(crc).inUse)|);
    BlockRoundTrip(Four(a), PLACES, PlainChoice(crc), level, more);
    FourIs(a);
  }

  lemma FourIs(a: byte)
    ensures Four(a) == [a, a, a, a]
  {
  }

  lemma FourBitsAre(crc: nat, a: byte)
    requires crc < 0x1_0000_0000
    ensures Four(a) != [] && AllUsed(Four(a), PlainChoice(crc).inUse) && forall i :: 0 <= i < |PLACES| ==> PLACES[i] < |Four(a)|
    ensures Sound(PlainChoice(crc), |Symbols(Four(a), PLACES, PlainChoice(crc).inUse)|)
    ensures FourBits(crc, a) == BlockBits(Four(a), PLACES, PlainChoice(crc))
  {
    hide BlockBits, Sound, Symbols, AllUsed, Four, PLACES, PlainChoice;
    FourFits(a, crc);
    PlainSound(crc, |Symbols(Four(a), PLACES, PlainChoice(crc).inUse)|);
  }

  /** A stream whose first block ends within a run: the header, and the four bytes of RunsPastBlock written as a block. */
  lemma RunsPastStream(level: nat, crc: nat, a: byte, more: seq<bool>)
    requires crc < 0x1_0000_0000 && 1 <= level <= 9
    ensures ReadStream(HeaderBits(level) + (FourBits(crc, a) + more)) == Stream(Repeat(a, a as nat + 4), RunsPast)
  {
    hide *;
    var bits, b := FourBits(crc, a) + more, Block(crc, false, 0, [a, a, a, a]);
    HeaderBack(level, bits);
    FourBack(crc, a, level, more);
    BlockNotTrailer(bits, level);
    ReadBlocksIs(bits, level, 0);
    AfterBlockIs(b, more, level, 0);
    RunsPastBlock(crc, a);
    FromBlockIs(BlockOutput(b), Initial(), crc, more, level, 0);
  }
}
