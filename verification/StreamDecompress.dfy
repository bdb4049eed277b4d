/**
 The decompressor: BZ2_bzDecompress over BZ2_decompress and the two routines that undo the runs (dep/bzip2/bzlib.c,
 dep/bzip2/decompress.c). Input and output are divided among calls in whatever way the caller likes.
 */
module StreamDecompress {
  import opened Bits
  import opened BitReader
  import opened CountingOrder
  import opened Rotations
  import opened RunLength
  import opened BlockCrc
  import opened InverseBwt
  import opened InverseBwtSmall
  import opened ColumnDecode
  import opened BlockFormat
  import opened BlockDecode
  import opened RunUnpack
  import opened RunUnpackSmall
  import opened StreamFormat

  /**
   Where decompression can be interrupted, with the locals that are saved there: BZ_X_MAGIC_1 to 3 and 4, BZ_X_BLKHDR_1, the labels
   within a block, BZ_X_OUTPUT, BZ_X_ENDHDR_2 to 6 and BZ_X_CCRC_1 to 4. After an error there is nothing to resume.
   */
  datatype State =
    | Magic(k: nat)
    | Level
    | BlockHeader
    | InBlock(at: BlockAt)
    | Output
    | EndHeader(k: nat)
    | StreamCrc(k: nat, crc: nat)
    | Idle
    | Halted

  /** What a call replies. The last two stand for a write outside the arrays of selectors and for a randomised block. */
  datatype Ret = BzOk | BzStreamEnd | BzDataError | BzDataErrorMagic | BzSequenceError | OutsideArrays | RandomisedBlock

  /** A step leads on to another label, has to wait for input, or is the last one. */
  datatype Progress = Onward | Waits | Stops(ret: Ret)

  function ErrorOf(why: Why): Ret {
    match why
    case NeedInput => BzOk
    case DataError => BzDataError
    case TooMany => OutsideArrays
  }

  /** The reply fits the way in which the stream ends here. */
  ghost predicate Verdict(ret: Ret, ending: Ending, rest: seq<bool>) {
    match ret
    case BzStreamEnd => ending == Whole(rest)
    case BzDataErrorMagic => ending == NotBzip2
    case BzDataError => ending == Damaged
    case OutsideArrays => ending == TooManySelectors
    case RandomisedBlock => ending == Randomised
    case _ => false
  }

  lemma VerdictOf(why: Why, rest: seq<bool>)
    requires why != NeedInput
    ensures Verdict(ErrorOf(why), EndingOf(why), rest) && ErrorOf(why) != BzStreamEnd
  {
  }

  lemma Verdicts(rest: seq<bool>)
    ensures Verdict(BzDataErrorMagic, NotBzip2, rest) && Verdict(BzDataError, Damaged, rest) && Verdict(RandomisedBlock, Randomised, rest)
    ensures Verdict(BzStreamEnd, Whole(rest), rest)
  {
  }

  /** The inverse transform is set up in tt, and the first byte is fetched. */
  method UnfoldFast(b: BlockReceiver, ghost v: Block) returns (u: FastUnpacker)
    requires b.Valid() && b.Complete() && v == b.Received() && !v.randomised && v.origPtr < |v.column|
    modifies b.d.cells, b.cftab
    ensures fresh(u) && fresh(u.bwt) && u as object != u.bwt && u.bwt.tt == b.d.cells && u.Valid()
    ensures u.Owed() == BlockOutput(v) && u.calculatedBlockCRC == Initial()
  {
    hide *;
    b.Shape();
    b.d.Shape();
    b.CompleteIs();
    b.ReceivedIs();
    CellsHold(b.d.cells[..], b.d.col);
    var bwt := new FastBwt(b.d.cells, b.cftab, b.d.nblock, b.origPtr, b.d.col);
    WalkedBlock(bwt, v);
    u := new FastUnpacker(bwt, b.d.nblock);
  }

  /** The same in ll16 and ll4. */
  method UnfoldSmall(b: BlockReceiver, ll4: array<byte>, ghost v: Block) returns (u: SmallUnpacker)
    requires b.Valid() && b.Complete() && v == b.Received() && !v.randomised && v.origPtr < |v.column|
    requires ll4 !in b.Repr && ll4.Length == (1 + 100000 * b.level) / 2
    modifies b.d.cells, ll4
    ensures fresh(u) && fresh(u.bwt) && u as object != u.bwt && u.Valid()
    ensures u.bwt.ll16 == b.d.cells && u.bwt.ll4 == ll4 && u.bwt.cftab == b.cftab
    ensures u.Owed() == BlockOutput(v) && u.calculatedBlockCRC == Initial()
  {
    hide *;
    b.Shape();
    b.d.Shape();
    b.CompleteIs();
    b.ReceivedIs();
    CellsHold(b.d.cells[..], b.d.col);
    InverseWalks(b.d.col);
    var bwt := new SmallBwt(b.d.cells, ll4, b.cftab, b.d.nblock, b.origPtr, b.d.col, Inverse(b.d.col));
    WalkedSmall(bwt, v);
    u := new SmallUnpacker(bwt, b.d.nblock);
  }

  class Decompressor {
    const r: Reader
    const small: bool
    var state: State
    /** The fields that blocks are received into; they are allocated when the block size is known. */
    var b: BlockReceiver?
    var ll4: array<byte>
    var fast: FastUnpacker?
    var slow: SmallUnpacker?
    var calculatedCombinedCRC: bv32
    var output: seq<byte>
    var availOut: nat
    ghost var Repr: set<object>

    ghost predicate Based()
      reads this, r
    {
      this in Repr && r in Repr && r.Valid() && r as object != this
    }

    /** The fields for blocks are there. */
    ghost predicate Allocated()
      reads this, b
    {
      && b != null && b.Valid() && b.Repr <= Repr && this !in b.Repr && r !in b.Repr
      && (small ==> ll4 in Repr && ll4 !in b.Repr && ll4 as object != this && ll4 as object != r && ll4.Length == (1 + 100000 * b.level) / 2)
    }

    /** A block is being put out. */
    ghost predicate Unpacking()
      requires Allocated()
      reads this, Repr
    {
      if small then
        && slow != null && slow in Repr && slow.bwt in Repr && slow.bwt.ll16 == b.d.cells && slow.bwt.ll4 == ll4 && slow.bwt.cftab == b.cftab
        && b.cftab in Repr && b.d.cells in Repr
        && slow.Valid() && slow !in b.Repr && slow.bwt !in b.Repr && slow as object != this && slow as object != r
        && slow.bwt as object != this && slow.bwt as object != r && slow as object != slow.bwt
      else
        && fast != null && fast in Repr && fast.bwt in Repr && fast.bwt.tt == b.d.cells && b.d.cells in Repr
        && fast.Valid() && fast !in b.Repr && fast.bwt !in b.Repr && fast as object != this && fast as object != r
        && fast.bwt as object != this && fast.bwt as object != r && fast as object != fast.bwt
    }

    ghost predicate Valid()
      reads this, r, b, Repr
    {
      && Based() && (!state.Magic? && !state.Level? && !state.Idle? && !state.Halted? ==> Allocated())
      && match state
         case Magic(k) => k < 3 && calculatedCombinedCRC == 0
         case Level => calculatedCombinedCRC == 0
         case InBlock(at) => b.Stands(at)
         case Output => Unpacking()
         case EndHeader(k) => k < 5
         case StreamCrc(k, _) => k < 4
         case _ => true
    }

    ghost predicate Live()
      reads this
    {
      !state.Idle? && !state.Halted?
    }

    /** What is still to be put out of the block. */
    ghost function Owed(): Unpacked
      requires Allocated() && Unpacking()
      reads this, Repr
    {
      if small then slow.Owed() else fast.Owed()
    }

    ghost function Crc(): bv32
      requires Allocated() && Unpacking()
      reads this, Repr
    {
      if small then slow.calculatedBlockCRC else fast.calculatedBlockCRC
    }

    /** What the specification makes of everything not yet put out, when these bits come next. */
    ghost function Rest(bits: seq<bool>): Stream
      requires Valid() && Live()
      reads this, r, b, Repr
    {
      match state
      case Magic(k) => AfterStreamMagic(ReadMagic(bits, STREAM_MAGIC[k..]))
      case Level => ReadLevel(bits)
      case BlockHeader => ReadBlocks(bits, b.level, calculatedCombinedCRC)
      case InBlock(at) => AfterBlock(b.Rest(at, bits), b.level, calculatedCombinedCRC)
      case Output => FromBlock(Owed(), Crc(), b.storedBlockCRC, bits, b.level, calculatedCombinedCRC)
      case EndHeader(k) => AfterEnd(ReadMagic(bits, END_MAGIC[1..][k..]), calculatedCombinedCRC)
      case StreamCrc(k, crc) => AfterStreamCrc(ReadNumber(bits, 4 - k, crc), calculatedCombinedCRC)
    }

    /** BZ2_bzDecompressInit. */
    constructor (smallDecompress: bool)
      ensures Valid() && fresh(Repr) && state == Magic(0) && small == smallDecompress && output == [] && r.Unread() == [] && r.input == []
      ensures forall bits: seq<bool> :: Rest(bits) == ReadStream(bits)
    {
      var reader := new Reader();
      r, small, state, b, fast, slow := reader, smallDecompress, Magic(0), null, null, null;
      calculatedCombinedCRC, output, availOut := 0, [], 0;
      ll4 := new byte[0];
      Repr := {this, reader};
      new;
      assert STREAM_MAGIC[0..] == STREAM_MAGIC;
    }

    /** A step did what the specification says, which was still to give the stream was. */
    ghost predicate Did(p: Progress, was: Stream, ahead: seq<bool>, unread: seq<bool>)
      requires Valid()
      reads this, r, b, Repr
    {
      match p
      case Onward => Live() && was == Rest(ahead)
      case Waits => Live() && was == Rest(ahead) && Rest(unread) == Stream([], Starving)
      case Stops(ret) => !Live() && was.data == [] && Verdict(ret, was.ending, ahead)
    }

    lemma DidIs(p: Progress, was: Stream, ahead: seq<bool>, unread: seq<bool>)
      requires Valid()
      ensures Did(p, was, ahead, unread) <==>
                && (!p.Stops? ==> Live() && was == Rest(ahead)) && (p == Waits ==> Rest(unread) == Stream([], Starving))
                && (p.Stops? ==> !Live() && was.data == [] && Verdict(p.ret, was.ending, ahead))
    {
    }

    lemma LiveIs()
      ensures Live() <==> !state.Idle? && !state.Halted?
      ensures Based() <==> this in Repr && r in Repr && r.Valid() && r as object != this
      ensures Valid() ==> Based() && (!state.Magic? && !state.Level? && Live() ==> Allocated())
      ensures Based() && !Live() ==> Valid()
    {
    }

    lemma AllocatedIs()
      ensures Allocated() <==>
                && b != null && b.Valid() && b.Repr <= Repr && this !in b.Repr && r !in b.Repr
                && (small ==> ll4 in Repr && ll4 !in b.Repr && ll4 as object != this && ll4 as object != r
                              && ll4.Length == (1 + 100000 * b.level) / 2)
    {
    }

    // The stream header.

    lemma MagicIs(k: nat, bits: seq<bool>)
      requires Based() && state == Magic(k)
      ensures |STREAM_MAGIC| == 3 && STREAM_MAGIC == [0x42, 0x5a, 0x68]
      ensures Valid() <==> k < 3 && calculatedCombinedCRC == 0
      ensures Valid() ==> Live() && Rest(bits) == AfterStreamMagic(ReadMagic(bits, STREAM_MAGIC[k..]))
    {
    }

    lemma LevelIs(bits: seq<bool>)
      requires Based() && state == Level
      ensures Valid() <==> calculatedCombinedCRC == 0
      ensures Valid() ==> Live() && Rest(bits) == ReadLevel(bits)
    {
    }

    lemma AfterStreamMagicIs(magic: Read<()>, bits: seq<bool>)
      ensures magic.Stop? ==> AfterStreamMagic(magic) == Stream([], if magic.why == NeedInput then Starving else NotBzip2)
      ensures magic.Done? ==> AfterStreamMagic(magic) == ReadLevel(magic.rest)
      ensures |bits| < 8 ==> ReadLevel(bits) == Stream([], Starving)
      ensures |bits| >= 8 && (Value(bits[..8]) < 0x31 || Value(bits[..8]) > 0x39) ==> ReadLevel(bits) == Stream([], NotBzip2)
      ensures |bits| >= 8 && 0x31 <= Value(bits[..8]) <= 0x39 ==> ReadLevel(bits) == ReadBlocks(bits[8..], Value(bits[..8]) - 0x30, 0)
    {
    }

    method StepMagic(k0: nat, ghost more: seq<bool>, ghost was: Stream) returns (p: Progress)
      requires Valid() && state == Magic(k0) && Live() && was == Rest(r.Ahead(more))
      modifies this`state, r
      ensures Valid() && |r.Unread()| <= |old(r.Unread())| && (p == Onward ==> |r.Unread()| < |old(r.Unread())|)
      ensures Did(p, was, r.Ahead(more), r.Unread()) && (p == Waits ==> r.input == []) && p != Stops(BzStreamEnd)
    {
      hide *;
      LiveIs();
      MagicIs(k0, r.Ahead(more));
      ghost var magic := ReadMagic(r.Ahead(more), STREAM_MAGIC[k0..]);
      var st, k := ReceiveMagic(r, [0x42, 0x5a, 0x68], k0, more);
      ghost var now := if st == Waiting then ReadMagic(r.Ahead(more), STREAM_MAGIC[k..]) else Stop(NeedInput);
      ghost var sofar := if st == Waiting then ReadMagic(r.Unread(), STREAM_MAGIC[k..]) else Stop(NeedInput);
      ResumesIs(st, (), r.Ahead(more), magic, now, sofar);
      AfterStreamMagicIs(magic, []);
      AfterStreamMagicIs(sofar, []);
      match st {
        case Ok =>
          state, p := Level, Onward;
          LiveIs();
          LevelIs(r.Ahead(more));
        case Waiting =>
          state, p := Magic(k), Waits;
          LiveIs();
          MagicIs(k, r.Ahead(more));
          MagicIs(k, r.Unread());
        case Failed(_) =>
          state, p := Halted, Stops(BzDataErrorMagic);
          LiveIs();
          Verdicts(r.Ahead(more));
      }
      DidIs(p, was, r.Ahead(more), r.Unread());
    }

    lemma HeaderIs(bits: seq<bool>)
      requires Based() && state == BlockHeader && Allocated()
      ensures Valid() && Live() && Rest(bits) == ReadBlocks(bits, b.level, calculatedCombinedCRC)
    {
    }

    /** BZ_X_MAGIC_4: the block size; the fields for blocks are allocated. */
    method StepLevel(ghost more: seq<bool>, ghost was: Stream) returns (p: Progress)
      requires Valid() && state == Level && Live() && was == Rest(r.Ahead(more))
      modifies this, r
      ensures Valid() && |r.Unread()| <= |old(r.Unread())| && (p == Onward ==> |r.Unread()| < |old(r.Unread())|)
      ensures fresh(Repr - old(Repr)) && output == old(output) && availOut == old(availOut)
      ensures Did(p, was, r.Ahead(more), r.Unread()) && (p == Waits ==> r.input == []) && p != Stops(BzStreamEnd)
    {
      hide *;
      LiveIs();
      LevelIs(r.Ahead(more));
      AfterStreamMagicIs(Stop(NeedInput), r.Ahead(more));
      var ok, digit := r.GetBits(8, more);
      if !ok {
        LiveIs();
        LevelIs(r.Ahead(more));
        LevelIs(r.Unread());
        AfterStreamMagicIs(Stop(NeedInput), r.Unread());
        DidIs(Waits, was, r.Ahead(more), r.Unread());
        return Waits;
      }
      if digit < 0x31 || digit > 0x39 {
        state := Halted;
        LiveIs();
        Verdicts(r.Ahead(more));
        DidIs(Stops(BzDataErrorMagic), was, r.Ahead(more), r.Unread());
        return Stops(BzDataErrorMagic);
      }
      LiveIs();
      Allocate(digit - 0x30);
      HeaderIs(r.Ahead(more));
      p := Onward;
      DidIs(p, was, r.Ahead(more), r.Unread());
    }

    /** BZ2_decompress allocates the fields for blocks once the level is known. */
    method Allocate(level: nat)
      requires Based() && 1 <= level <= 9
      modifies this`b, this`ll4, this`Repr, this`state
      ensures Based() && Allocated() && state == BlockHeader && b.level == level && fresh(Repr - old(Repr))
    {
      hide *;
      LiveIs();
      var fields := new BlockReceiver(level);
      b := fields;
      Repr := Repr + fields.Repr;
      if small {
        ll4 := new byte[(1 + 100000 * level) / 2];
        Repr := Repr + {ll4};
      }
      state := BlockHeader;
      AllocatedIs();
      LiveIs();
    }

    // Blocks.

    lemma InBlockIs(at: BlockAt, bits: seq<bool>)
      requires Based() && state == InBlock(at) && Allocated()
      ensures Valid() <==> b.Stands(at)
      ensures b.Stands(at) ==> Live() && Rest(bits) == AfterBlock(b.Rest(at, bits), b.level, calculatedCombinedCRC)
    {
    }

    lemma EndHeaderIs(k: nat, bits: seq<bool>)
      requires Based() && state == EndHeader(k) && Allocated()
      ensures |END_MAGIC| == 6 && |END_MAGIC[1..]| == 5 && END_MAGIC[1..] == [0x72, 0x45, 0x38, 0x50, 0x90]
      ensures Valid() <==> k < 5
      ensures k < 5 ==> Live() && Rest(bits) == AfterEnd(ReadMagic(bits, END_MAGIC[1..][k..]), calculatedCombinedCRC)
    {
    }

    /** A block or the trailer begins, by its first byte. */
    lemma FirstByteIs(bits: seq<bool>, level: nat, combined: bv32)
      ensures |bits| < 8 ==> ReadBlocks(bits, level, combined) == Stream([], Starving)
      ensures |bits| >= 8 && Value(bits[..8]) == 0x17 ==>
                ReadBlocks(bits, level, combined) == AfterEnd(ReadMagic(bits[8..], END_MAGIC[1..][0..]), combined)
      ensures |bits| >= 8 && Value(bits[..8]) == 0x31 ==>
                && (AfterMagic(ReadMagic(bits[8..], BLOCK_MAGIC[1..]), level).Done? ==>
                      var v := AfterMagic(ReadMagic(bits[8..], BLOCK_MAGIC[1..]), level).value; v.origPtr < |v.column|)
                && ReadBlocks(bits, level, combined)
                   == AfterBlock(AfterMagic(ReadMagic(bits[8..], BLOCK_MAGIC[1..]), level), level, combined)
      ensures |bits| >= 8 && Value(bits[..8]) != 0x17 && Value(bits[..8]) != 0x31 ==>
                ReadBlocks(bits, level, combined) == Stream([], Damaged)
    {
      hide Value, AfterMagic, AfterEnd;
      assert END_MAGIC[1..][0..] == END_MAGIC[1..];
      MagicOn(bits, BLOCK_MAGIC);
      ReadBlocksIs(bits, level, combined);
      if |bits| >= 8 && Value(bits[..8]) != 0x17 && Value(bits[..8]) != 0x31 {
        FailedBlock(DataError, level, combined);
        AfterNoMagic(DataError, level);
      }
    }

    lemma FailedBlock(why: Why, level: nat, combined: bv32)
      ensures AfterBlock(Stop(why), level, combined) == Stream([], EndingOf(why)) && EndingOf(DataError) == Damaged && EndingOf(NeedInput) == Starving
    {
    }

    lemma AfterNoMagic(why: Why, level: nat)
      ensures AfterMagic(Stop(why), level) == Stop(why)
    {
    }

    /** BZ_X_BLKHDR_1: a block or the trailer. */
    method StepBlockHeader(ghost more: seq<bool>, ghost was: Stream) returns (p: Progress)
      requires Valid() && state == BlockHeader && Live() && was == Rest(r.Ahead(more))
      modifies this`state, r
      ensures Valid() && |r.Unread()| <= |old(r.Unread())| && (p == Onward ==> |r.Unread()| < |old(r.Unread())|)
      ensures Did(p, was, r.Ahead(more), r.Unread()) && (p == Waits ==> r.input == []) && p != Stops(BzStreamEnd)
    {
      hide *;
      LiveIs();
      AllocatedIs();
      HeaderIs(r.Ahead(more));
      FirstByteIs(r.Ahead(more), b.level, calculatedCombinedCRC);
      var ok, uc := r.GetBits(8, more);
      LiveIs();
      AllocatedIs();
      if !ok {
        HeaderIs(r.Ahead(more));
        HeaderIs(r.Unread());
        FirstByteIs(r.Unread(), b.level, calculatedCombinedCRC);
        DidIs(Waits, was, r.Ahead(more), r.Unread());
        return Waits;
      }
      p := Onward;
      if uc == 0x17 {
        state := EndHeader(0);
        AllocatedIs();
        LiveIs();
        EndHeaderIs(0, r.Ahead(more));
      } else if uc == 0x31 {
        state := InBlock(Header(1));
        AllocatedIs();
        LiveIs();
        b.FixedIs(Header(1), r.Ahead(more));
        InBlockIs(Header(1), r.Ahead(more));
      } else {
        state, p := Halted, Stops(BzDataError);
        LiveIs();
        Verdicts(r.Ahead(more));
      }
      DidIs(p, was, r.Ahead(more), r.Unread());
    }

    lemma BlockDone(v: Block, rest: seq<bool>, level: nat, combined: bv32)
      requires v.origPtr < |v.column|
      ensures AfterBlock(Done(v, rest), level, combined)
           == if v.randomised then Stream([], Randomised) else FromBlock(BlockOutput(v), Initial(), v.crc, rest, level, combined)
    {
    }

    /** The labels within a block. */
    method StepInBlock(at0: BlockAt, ghost more: seq<bool>, ghost was: Stream) returns (p: Progress)
      requires Valid() && state == InBlock(at0) && Live() && was == Rest(r.Ahead(more))
      modifies Repr
      ensures Valid() && |r.Unread()| <= |old(r.Unread())| && (p == Onward ==> |r.Unread()| < |old(r.Unread())|)
      ensures fresh(Repr - old(Repr)) && output == old(output) && availOut == old(availOut)
      ensures Did(p, was, r.Ahead(more), r.Unread()) && (p == Waits ==> r.input == []) && p != Stops(BzStreamEnd)
    {
      hide *;
      LiveIs();
      AllocatedIs();
      InBlockIs(at0, r.Ahead(more));
      b.Shape();
      ghost var block := b.Rest(at0, r.Ahead(more));
      var st, at := b.Receive(r, at0, more);
      ghost var now := if st == Waiting then b.Rest(at, r.Ahead(more)) else Stop(NeedInput);
      ghost var sofar := if st == Waiting then b.Rest(at, r.Unread()) else Stop(NeedInput);
      ResumesIs(st, b.Received(), r.Ahead(more), block, now, sofar);
      FailedBlock(NeedInput, b.level, calculatedCombinedCRC);
      LiveIs();
      AllocatedIs();
      if st == Ok {
        p := BlockReceived(b.Received(), was, r.Ahead(more));
        DidIs(p, was, r.Ahead(more), []);
      } else {
        if st == Waiting {
          state, p := InBlock(at), Waits;
          LiveIs();
          AllocatedIs();
          InBlockIs(at, r.Ahead(more));
          InBlockIs(at, r.Unread());
        } else {
          FailedBlock(st.why, b.level, calculatedCombinedCRC);
          VerdictOf(st.why, r.Ahead(more));
          state, p := Halted, Stops(ErrorOf(st.why));
          LiveIs();
        }
      }
      DidIs(p, was, r.Ahead(more), r.Unread());
    }

    /** A block has been received: it is to be put out. */
    method BlockReceived(ghost v: Block, ghost was: Stream, ghost ahead: seq<bool>) returns (p: Progress)
      requires Based() && Allocated() && b.Complete() && v == b.Received() && v.origPtr < |v.column|
      requires was == AfterBlock(Done(v, ahead), b.level, calculatedCombinedCRC)
      modifies Repr - {r}
      ensures Valid() && p != Waits && r.Unread() == old(r.Unread()) && r.Ahead([]) == old(r.Ahead([]))
      ensures fresh(Repr - old(Repr)) && output == old(output) && availOut == old(availOut)
      ensures Did(p, was, ahead, []) && p != Stops(BzStreamEnd)
    {
      hide *;
      LiveIs();
      AllocatedIs();
      b.Shape();
      b.ReceivedIs();
      BlockDone(v, ahead, b.level, calculatedCombinedCRC);
      if b.blockRandomised {
        state, p := Halted, Stops(RandomisedBlock);
        LiveIs();
        Verdicts(ahead);
      } else {
        BeginOutput(v);
        LiveIs();
        OutputIs(ahead);
        p := Onward;
      }
      DidIs(p, was, ahead, []);
    }

    /** The block is unfolded in tt, or in ll16 and ll4. */
    method BeginOutput(ghost v: Block)
      requires Based() && Allocated() && b.Complete() && v == b.Received() && !v.randomised && v.origPtr < |v.column|
      modifies this`fast, this`slow, this`state, this`Repr, b.d.cells, b.cftab, if small then {ll4} else {}
      ensures Based() && Allocated() && Unpacking() && state == Output && Repr >= old(Repr) && fresh(Repr - old(Repr))
      ensures Owed() == BlockOutput(v) && Crc() == Initial()
    {
      hide *;
      if small { BeginSmall(v); } else { BeginFast(v); }
    }

    method BeginSmall(ghost v: Block)
      requires small && Based() && Allocated() && b.Complete() && v == b.Received() && !v.randomised && v.origPtr < |v.column|
      modifies this`slow, this`state, this`Repr, b.d.cells, b.cftab, ll4
      ensures Based() && Allocated() && Unpacking() && state == Output && Repr >= old(Repr) && fresh(Repr - old(Repr))
      ensures Owed() == BlockOutput(v) && Crc() == Initial()
    {
      hide *;
      LiveIs();
      AllocatedIs();
      b.Shape();
      b.d.Shape();
      slow := UnfoldSmall(b, ll4, v);
      Repr := Repr + {slow, slow.bwt};
      state := Output;
      LiveIs();
      AllocatedIs();
      UnpackingIs();
    }

    method BeginFast(ghost v: Block)
      requires !small && Based() && Allocated() && b.Complete() && v == b.Received() && !v.randomised && v.origPtr < |v.column|
      modifies this`fast, this`state, this`Repr, b.d.cells, b.cftab
      ensures Based() && Allocated() && Unpacking() && state == Output && Repr >= old(Repr) && fresh(Repr - old(Repr))
      ensures Owed() == BlockOutput(v) && Crc() == Initial()
    {
      hide *;
      LiveIs();
      AllocatedIs();
      b.Shape();
      b.d.Shape();
      fast := UnfoldFast(b, v);
      Repr := Repr + {fast, fast.bwt};
      state := Output;
      LiveIs();
      AllocatedIs();
      UnpackingIs();
    }

    lemma UnpackingIs()
      requires Allocated()
      ensures small ==>
                (Unpacking() <==>
                   && slow != null && slow in Repr && slow.bwt in Repr && slow.bwt.ll16 == b.d.cells && slow.bwt.ll4 == ll4
                   && slow.bwt.cftab == b.cftab && b.cftab in Repr && b.d.cells in Repr
                   && slow.Valid() && slow !in b.Repr && slow.bwt !in b.Repr && slow as object != this && slow as object != r
                   && slow.bwt as object != this && slow.bwt as object != r && slow as object != slow.bwt)
      ensures !small ==>
                (Unpacking() <==>
                   && fast != null && fast in Repr && fast.bwt in Repr && fast.bwt.tt == b.d.cells && b.d.cells in Repr
                   && fast.Valid() && fast !in b.Repr && fast.bwt !in b.Repr && fast as object != this && fast as object != r
                   && fast.bwt as object != this && fast.bwt as object != r && fast as object != fast.bwt)
      ensures small && Unpacking() ==> Owed() == slow.Owed() && Crc() == slow.calculatedBlockCRC
      ensures !small && Unpacking() ==> Owed() == fast.Owed() && Crc() == fast.calculatedBlockCRC
    {
    }

    lemma OutputIs(bits: seq<bool>)
      requires Based() && state == Output && Allocated()
      ensures Valid() <==> Unpacking()
      ensures Unpacking() ==> Live() && Rest(bits) == FromBlock(Owed(), Crc(), b.storedBlockCRC, bits, b.level, calculatedCombinedCRC)
    {
    }

    // The trailer.

    lemma StreamCrcIs(k: nat, crc: nat, bits: seq<bool>)
      requires Based() && state == StreamCrc(k, crc) && Allocated()
      ensures Valid() <==> k < 4
      ensures k < 4 ==> Live() && Rest(bits) == AfterStreamCrc(ReadNumber(bits, 4 - k, crc), calculatedCombinedCRC)
    {
    }

    lemma TrailerIs(magic: Read<()>, crc: Read<nat>, combined: bv32)
      ensures magic.Stop? ==> AfterEnd(magic, combined) == Stream([], EndingOf(magic.why))
      ensures magic.Done? ==> AfterEnd(magic, combined) == AfterStreamCrc(ReadNumber(magic.rest, 4, 0), combined)
      ensures crc.Stop? ==> AfterStreamCrc(crc, combined) == Stream([], EndingOf(crc.why))
      ensures crc.Done? ==> AfterStreamCrc(crc, combined) == Stream([], if crc.value != Number(combined) then Damaged else Whole(crc.rest))
      ensures EndingOf(NeedInput) == Starving && EndingOf(DataError) == Damaged
    {
    }

    method StepEndHeader(k0: nat, ghost more: seq<bool>, ghost was: Stream) returns (p: Progress)
      requires Valid() && state == EndHeader(k0) && Live() && was == Rest(r.Ahead(more))
      modifies this`state, r
      ensures Valid() && |r.Unread()| <= |old(r.Unread())| && (p == Onward ==> |r.Unread()| < |old(r.Unread())|)
      ensures Did(p, was, r.Ahead(more), r.Unread()) && (p == Waits ==> r.input == []) && p != Stops(BzStreamEnd)
    {
      hide *;
      LiveIs();
      AllocatedIs();
      EndHeaderIs(k0, r.Ahead(more));
      ghost var magic := ReadMagic(r.Ahead(more), END_MAGIC[1..][k0..]);
      var st, k := ReceiveMagic(r, [0x72, 0x45, 0x38, 0x50, 0x90], k0, more);
      ghost var now := if st == Waiting then ReadMagic(r.Ahead(more), END_MAGIC[1..][k..]) else Stop(NeedInput);
      ghost var sofar := if st == Waiting then ReadMagic(r.Unread(), END_MAGIC[1..][k..]) else Stop(NeedInput);
      ResumesIs(st, (), r.Ahead(more), magic, now, sofar);
      TrailerIs(magic, Stop(NeedInput), calculatedCombinedCRC);
      TrailerIs(sofar, Stop(NeedInput), calculatedCombinedCRC);
      match st {
        case Ok =>
          state, p := StreamCrc(0, 0), Onward;
          LiveIs();
          AllocatedIs();
          StreamCrcIs(0, 0, r.Ahead(more));
        case Waiting =>
          state, p := EndHeader(k), Waits;
          LiveIs();
          AllocatedIs();
          EndHeaderIs(k, r.Ahead(more));
          EndHeaderIs(k, r.Unread());
        case Failed(why) =>
          VerdictOf(why, r.Ahead(more));
          state, p := Halted, Stops(ErrorOf(why));
          LiveIs();
      }
      DidIs(p, was, r.Ahead(more), r.Unread());
    }

    /** The combined CRC decides, and BZ_X_IDLE is entered in any case. */
    method StepStreamCrc(k0: nat, crc0: nat, ghost more: seq<bool>, ghost was: Stream) returns (p: Progress)
      requires Valid() && state == StreamCrc(k0, crc0) && Live() && was == Rest(r.Ahead(more))
      modifies this`state, r
      ensures Valid() && |r.Unread()| <= |old(r.Unread())| && (p == Onward ==> |r.Unread()| < |old(r.Unread())|)
      ensures Did(p, was, r.Ahead(more), r.Unread()) && (p == Waits ==> r.input == []) && (p == Stops(BzStreamEnd) ==> state == Idle)
    {
      hide *;
      LiveIs();
      AllocatedIs();
      StreamCrcIs(k0, crc0, r.Ahead(more));
      ghost var number := ReadNumber(r.Ahead(more), 4 - k0, crc0);
      var st, k, crc := ReceiveNumber(r, 4, k0, crc0, more);
      ghost var now := if st == Waiting then ReadNumber(r.Ahead(more), 4 - k, crc) else Stop(NeedInput);
      ghost var sofar := if st == Waiting then ReadNumber(r.Unread(), 4 - k, crc) else Stop(NeedInput);
      ResumesIs(st, crc, r.Ahead(more), number, now, sofar);
      TrailerIs(Stop(NeedInput), number, calculatedCombinedCRC);
      TrailerIs(Stop(NeedInput), sofar, calculatedCombinedCRC);
      if st == Waiting {
        state, p := StreamCrc(k, crc), Waits;
        LiveIs();
        AllocatedIs();
        StreamCrcIs(k, crc, r.Ahead(more));
        StreamCrcIs(k, crc, r.Unread());
      } else {
        state := Idle;
        LiveIs();
        Verdicts(r.Ahead(more));
        p := Stops(if crc != Number(calculatedCombinedCRC) then BzDataError else BzStreamEnd);
      }
      DidIs(p, was, r.Ahead(more), r.Unread());
    }

    // Putting out.

    /** The test on nblock_used and state_out_len. */
    predicate BlockEnded()
      requires small ==> slow != null
      requires !small ==> fast != null
      reads this, slow, fast
    {
      if small then slow.nblockUsed == slow.saveNblock + 1 && slow.stateOutLen == 0
      else fast.nblockUsed == fast.saveNblock + 1 && fast.stateOutLen == 0
    }

    lemma EndedOwesNothing()
      requires Allocated() && Unpacking() && BlockEnded()
      ensures Owed() == Unpacked([], true)
    {
      if small {
        LeadLead([], [], slow.Unread());
        NoBytes(slow.stateOutCh);
      } else {
        LeadLead([], [], fast.Unread());
        NoBytes(fast.stateOutCh);
      }
    }

    /** unRLE_obuf_to_output_FAST or unRLE_obuf_to_output_SMALL. */
    method UnRle() returns (corrupt: bool)
      requires Based() && Allocated() && Unpacking()
      modifies Repr - {r} - b.Repr
      ensures Based() && Allocated() && Unpacking() && Repr == old(Repr) && state == old(state) && b == old(b)
      ensures calculatedCombinedCRC == old(calculatedCombinedCRC)
      ensures old(output) <= output && |output| + availOut == |old(output)| + old(availOut)
      ensures corrupt ==> !old(Owed()).ok && output == old(output) + (if small then old(Owed()).bytes else [])
      ensures !corrupt ==>
                && old(Owed()) == Lead(output[|old(output)|..], Owed()) && Crc() == Register(old(Crc()), output[|old(output)|..])
                && (availOut == 0 || BlockEnded())
    {
      hide *;
      LiveIs();
      AllocatedIs();
      UnpackingIs();
      ghost var output0 := output;
      if small {
        var before := |slow.output|;
        slow.availOut := availOut;
        corrupt := slow.UnRle();
        output := output + slow.output[before..];
        availOut := slow.availOut;
        OutputGrows(output0, slow.output[before..]);
      } else {
        var before := |fast.output|;
        fast.availOut := availOut;
        corrupt := fast.UnRle();
        output := output + fast.output[before..];
        availOut := fast.availOut;
        OutputGrows(output0, fast.output[before..]);
      }
      LiveIs();
      AllocatedIs();
      UnpackingIs();
      BlockEndedIs();
    }

    /**
     The output state: as much of the block as there is room for, and its check at the end. Bytes are missing only when the FAST
     routine finds the block to end within a run.
     */
    method OutputPhase(ghost bits: seq<bool>, ghost was: Stream) returns (p: Progress)
      requires Valid() && state == Output && was == Rest(bits)
      modifies Repr - {r}
      ensures Valid() && Repr == old(Repr) && r.Unread() == old(r.Unread()) && (forall more: seq<bool> :: r.Ahead(more) == old(r.Ahead(more)))
      ensures old(output) <= output && |output| + availOut == |old(output)| + old(availOut)
      ensures p == Onward ==> state == BlockHeader && was == Behind(output[|old(output)|..], Rest(bits))
      ensures p == Waits ==> state == Output && availOut == 0 && was == Behind(output[|old(output)|..], Rest(bits))
      ensures p.Stops? ==> p.ret == BzDataError && state == Halted && Missed(was, output[|old(output)|..])
    {
      hide *;
      LiveIs();
      AllocatedIs();
      OutputIs(bits);
      b.Shape();
      ghost var owed, crc, output0 := Owed(), Crc(), output;
      var corrupt := UnRle();
      LiveIs();
      AllocatedIs();
      ghost var out := output[|output0|..];
      if corrupt {
        CorruptBlock(owed, crc, b.storedBlockCRC, bits, b.level, calculatedCombinedCRC);
        OutputGrows(output0, if small then owed.bytes else []);
        state, p := Halted, Stops(BzDataError);
        LiveIs();
        MissedIs(was, out);
        return;
      }
      PartOut(owed, out, Owed(), crc, b.storedBlockCRC, bits, b.level, calculatedCombinedCRC);
      UnpackingIs();
      BlockEndedIs();
      if !BlockEnded() {
        OutputIs(bits);
        return Waits;
      }
      p := CheckBlock(bits, FromBlock(Owed(), Crc(), b.storedBlockCRC, bits, b.level, calculatedCombinedCRC));
      JustOut(out, Damaged);
      MissedIs(was, out);
    }

    /** The CRC of the block decides, and goes into the combined one. */
    method CheckBlock(ghost bits: seq<bool>, ghost was: Stream) returns (p: Progress)
      requires Based() && Allocated() && Unpacking() && BlockEnded()
      requires was == FromBlock(Owed(), Crc(), b.storedBlockCRC, bits, b.level, calculatedCombinedCRC)
      modifies this`state, this`calculatedCombinedCRC
      ensures Valid() && p != Waits
      ensures p == Onward ==> state == BlockHeader && was == Rest(bits)
      ensures p.Stops? ==> p.ret == BzDataError && state == Halted && was == Stream([], Damaged)
    {
      hide *;
      LiveIs();
      AllocatedIs();
      UnpackingIs();
      EndedOwesNothing();
      var final := Finalised(if small then slow.calculatedBlockCRC else fast.calculatedBlockCRC);
      BlockChecked(Crc(), b.storedBlockCRC, bits, b.level, calculatedCombinedCRC);
      if Number(final) != b.storedBlockCRC {
        state, p := Halted, Stops(BzDataError);
        LiveIs();
        return;
      }
      calculatedCombinedCRC := Combine(calculatedCombinedCRC, final);
      state, p := BlockHeader, Onward;
      LiveIs();
      AllocatedIs();
      HeaderIs(bits);
    }

    /** What was put out before BZ_DATA_ERROR is everything, except that the FAST routine leaves out the end of a block that ends within a run. */
    ghost predicate Missed(was: Stream, out: seq<byte>) {
      was == Stream(out, Damaged) || (was.ending == RunsPast && out <= was.data && (small ==> out == was.data))
    }

    lemma MissedIs(was: Stream, out: seq<byte>)
      ensures Missed(was, out) <==> was == Stream(out, Damaged) || (was.ending == RunsPast && out <= was.data && (small ==> out == was.data))
    {
    }

    lemma BlockEndedIs()
      requires small ==> slow != null
      requires !small ==> fast != null
      ensures small ==> (BlockEnded() <==> slow.nblockUsed == slow.saveNblock + 1 && slow.stateOutLen == 0)
      ensures !small ==> (BlockEnded() <==> fast.nblockUsed == fast.saveNblock + 1 && fast.stateOutLen == 0)
    {
    }

    // A call.

    /** One label of BZ2_decompress. */
    method Step(ghost more: seq<bool>, ghost was: Stream) returns (p: Progress)
      requires Valid() && Live() && !state.Output? && was == Rest(r.Ahead(more))
      modifies Repr
      ensures Valid() && |r.Unread()| <= |old(r.Unread())| && (p == Onward ==> |r.Unread()| < |old(r.Unread())|)
      ensures fresh(Repr - old(Repr)) && output == old(output) && availOut == old(availOut)
      ensures Did(p, was, r.Ahead(more), r.Unread()) && (p == Waits ==> r.input == []) && (p == Stops(BzStreamEnd) ==> state == Idle)
    {
      hide *;
      LiveIs();
      match state {
        case Magic(k) => p := StepMagic(k, more, was);
        case Level => p := StepLevel(more, was);
        case BlockHeader => p := StepBlockHeader(more, was);
        case InBlock(at) => p := StepInBlock(at, more, was);
        case EndHeader(k) => p := StepEndHeader(k, more, was);
        case StreamCrc(k, crc) => p := StepStreamCrc(k, crc, more, was);
      }
    }

    /** The caller sets next_in and avail_in, and avail_out. */
    method Provide(bytes: seq<byte>, room: nat, ghost more: seq<bool>)
      requires Valid()
      modifies r`input, this`availOut
      ensures Valid() && state == old(state) && output == old(output) && availOut == room && r.Unread() == old(r.Unread()) + BytesBits(bytes)
      ensures r.Ahead(more) == old(r.Ahead(BytesBits(bytes) + more))
      ensures Live() ==> Rest(r.Ahead(more)) == old(Rest(r.Ahead(BytesBits(bytes) + more)))
    {
      hide *;
      LiveIs();
      AllocatedIs();
      ghost var ahead := r.Ahead(BytesBits(bytes) + more);
      StateIs(ahead);
      if state.Output? { UnpackingIs(); }
      r.AheadMore(BytesBits(bytes), more);
      r.Supply(bytes);
      availOut := room;
      r.AheadMore([], more);
      LiveIs();
      AllocatedIs();
      StateIs(ahead);
      if state.Output? { UnpackingIs(); }
    }

    /** What the saved state means. */
    lemma StateIs(bits: seq<bool>)
      requires Based() && (!state.Magic? && !state.Level? && Live() ==> Allocated())
      ensures state.Magic? ==> (Valid() <==> state.k < 3 && calculatedCombinedCRC == 0)
      ensures state.Magic? && Valid() ==> |STREAM_MAGIC| == 3 && Live() && Rest(bits) == AfterStreamMagic(ReadMagic(bits, STREAM_MAGIC[state.k..]))
      ensures state.Level? ==> (Valid() <==> calculatedCombinedCRC == 0)
      ensures state.Level? && Valid() ==> Live() && Rest(bits) == ReadLevel(bits)
      ensures state.BlockHeader? ==> Valid() && Live() && Rest(bits) == ReadBlocks(bits, b.level, calculatedCombinedCRC)
      ensures state.InBlock? ==> (Valid() <==> b.Stands(state.at))
      ensures state.InBlock? && Valid() ==> Live() && Rest(bits) == AfterBlock(b.Rest(state.at, bits), b.level, calculatedCombinedCRC)
      ensures state.Output? ==> (Valid() <==> Unpacking())
      ensures state.Output? && Unpacking() ==>
                Live() && Rest(bits) == FromBlock(Owed(), Crc(), b.storedBlockCRC, bits, b.level, calculatedCombinedCRC)
      ensures state.EndHeader? ==> (Valid() <==> state.k < 5)
      ensures state.EndHeader? && Valid() ==>
                |END_MAGIC| == 6 && Live() && Rest(bits) == AfterEnd(ReadMagic(bits, END_MAGIC[1..][state.k..]), calculatedCombinedCRC)
      ensures state.StreamCrc? ==> (Valid() <==> state.k < 4)
      ensures state.StreamCrc? && Valid() ==>
                Live() && Rest(bits) == AfterStreamCrc(ReadNumber(bits, 4 - state.k, state.crc), calculatedCombinedCRC)
      ensures !Live() ==> Valid()
    {
      hide *;
      LiveIs();
      match state {
        case Magic(k) => MagicIs(k, bits);
        case Level => LevelIs(bits);
        case BlockHeader => HeaderIs(bits);
        case InBlock(at) => InBlockIs(at, bits);
        case Output => OutputIs(bits);
        case EndHeader(k) => EndHeaderIs(k, bits);
        case StreamCrc(k, crc) => StreamCrcIs(k, crc, bits);
        case _ =>
      }
    }

    /**
     BZ2_bzDecompress, whatever bits the future holds. What it puts out, followed by what the specification makes of the
     rest, is what the specification made of everything before: nothing is lost between calls, at whatever bit the input stops
     and wherever the room ends. BZ_OK with room left means that all input has been used up and nothing more follows from it.
     Any other reply comes with the end that the specification finds.
     */
    method BzDecompress(ghost more: seq<bool>) returns (ret: Ret)
      requires Valid() && !state.Halted?
      modifies Repr
      ensures Valid() && fresh(Repr - old(Repr))
      ensures old(output) <= output && |output| + availOut == |old(output)| + old(availOut)
      ensures old(state).Idle? ==> ret == BzSequenceError && output == old(output) && state == Idle
      ensures old(state).Idle? || Replied(ret, old(Rest(r.Ahead(more))), output[|old(output)|..], more)
    {
      hide *;
      LiveIs();
      ghost var output0 := output;
      OutputSplits(output0, output);
      if state.Idle? { return BzSequenceError; }
      ghost var start := Rest(r.Ahead(more));
      BehindBehind([], [], start);
      while true
        invariant Valid() && Live() && r.Valid() && fresh(Repr - old(Repr)) && output0 <= output
        invariant |output| + availOut == |output0| + old(availOut)
        invariant start == Behind(output[|output0|..], Rest(r.Ahead(more)))
        decreases |r.Unread()|, if state.Output? then 1 else 0
      {
        LiveIs();
        ghost var part, out, was := output[|output0|..], output, Rest(r.Ahead(more));
        var p: Progress;
        if state.Output? {
          p := OutputPhase(r.Ahead(more), was);
          LiveIs();
          OutputJoins(output0, out, output);
          if !p.Stops? { BehindBehind(part, output[|out|..], Rest(r.Ahead(more))); }
          if p.Stops? { JoinMissed(part, was, output[|out|..]); }
          FullReply(start, output[|output0|..], more);
        } else {
          p := Step(more, was);
          LiveIs();
          DidIs(p, was, r.Ahead(more), r.Unread());
          StepReply(p, start, was, part, more);
        }
        LiveIs();
        if p.Waits? { return BzOk; }
        if p.Stops? { return p.ret; }
      }
    }

    /**
     The reply to a call that put out `out` where the specification gave was. BZ_OK means that there is no room, or that all input has
     been used up and nothing more follows from it.
     */
    ghost predicate Replied(ret: Ret, was: Stream, out: seq<byte>, more: seq<bool>)
      requires Valid()
      reads this, r, b, Repr
    {
      match ret
      case BzOk =>
        && Live() && was == Behind(out, Rest(r.Ahead(more)))
        && (availOut == 0 || (r.input == [] && Rest(r.Unread()) == Stream([], Starving)))
      case BzStreamEnd => state.Idle? && was == Stream(out, Whole(r.Ahead(more)))
      case BzDataError => !Live() && Missed(was, out)
      case BzDataErrorMagic => !Live() && was == Stream(out, NotBzip2)
      case OutsideArrays => !Live() && was == Stream(out, TooManySelectors)
      case RandomisedBlock => !Live() && was == Stream(out, Randomised)
      case BzSequenceError => false
    }

    lemma FullReply(start: Stream, out: seq<byte>, more: seq<bool>)
      requires Valid()
      ensures Live() && availOut == 0 && start == Behind(out, Rest(r.Ahead(more))) ==> Replied(BzOk, start, out, more)
      ensures !Live() && Missed(start, out) ==> Replied(BzDataError, start, out, more)
    {
    }

    lemma StepReply(p: Progress, start: Stream, was: Stream, part: seq<byte>, more: seq<bool>)
      requires Valid() && start == Behind(part, was)
      requires p == Waits ==> Live() && was == Rest(r.Ahead(more)) && Rest(r.Unread()) == Stream([], Starving) && r.input == []
      requires p.Stops? ==> !Live() && was.data == [] && Verdict(p.ret, was.ending, r.Ahead(more))
      requires p == Stops(BzStreamEnd) ==> state == Idle
      ensures p == Waits ==> Replied(BzOk, start, part, more)
      ensures p.Stops? ==> Replied(p.ret, start, part, more)
    {
      JustOut(part, was.ending);
    }

    lemma JoinMissed(part: seq<byte>, was: Stream, out: seq<byte>)
      requires Missed(was, out)
      ensures Missed(Behind(part, was), part + out)
    {
    }
  }

  lemma OutputSplits(a: seq<byte>, b: seq<byte>)
    requires a == b
    ensures a <= b && b[|a|..] == []
  {
  }

  lemma OutputJoins(a: seq<byte>, b: seq<byte>, c: seq<byte>)
    requires a <= b <= c
    ensures a <= c && c[|a|..] == b[|a|..] + c[|b|..]
  {
  }

  lemma OutputGrows(a: seq<byte>, b: seq<byte>)
    ensures (a + b)[..|a|] == a && (a + b)[|a|..] == b && a <= a + b && |a + b| == |a| + |b|
  {
  }

  lemma CorruptBlock(owed: Unpacked, crc: bv32, stored: nat, bits: seq<bool>, level: nat, combined: bv32)
    requires !owed.ok
    ensures FromBlock(owed, crc, stored, bits, level, combined) == Stream(owed.bytes, RunsPast)
  {
  }

  /** Putting out part of a block leaves the rest of the stream as it was. */
  lemma PartOut(owed: Unpacked, out: seq<byte>, owed': Unpacked, crc: bv32, stored: nat, bits: seq<bool>, level: nat, combined: bv32)
    requires owed == Lead(out, owed')
    ensures FromBlock(owed, crc, stored, bits, level, combined)
         == Behind(out, FromBlock(owed', Register(crc, out), stored, bits, level, combined))
  {
    hide Register, ReadBlocks, Combine, Finalised, Number;
    RegisterConcat(crc, out, owed'.bytes);
    BehindBehind(out, owed'.bytes, ReadBlocks(bits, level, Combine(combined, Finalised(Register(crc, owed.bytes)))));
  }

  /** Nothing is owed any more: the CRC decides. */
  lemma BlockChecked(crc: bv32, stored: nat, bits: seq<bool>, level: nat, combined: bv32)
    ensures FromBlock(Unpacked([], true), crc, stored, bits, level, combined)
         == if Number(Finalised(crc)) != stored then Stream([], Damaged) else ReadBlocks(bits, level, Combine(combined, Finalised(crc)))
  {
    hide ReadBlocks, Combine, Finalised, Number;
    RegisterOne(crc, [], 0);
    BehindBehind([], [], ReadBlocks(bits, level, Combine(combined, Finalised(crc))));
  }

  lemma JustOut(out: seq<byte>, ending: Ending)
    ensures Behind(out, Stream([], ending)) == Stream(out, ending)
  {
    assert out + [] == out;
  }

  lemma CellsHold(cells: seq<nat>, col: seq<byte>)
    requires InCells(cells, col)
    ensures forall i :: 0 <= i < |col| ==> cells[i] == col[i]
  {
  }

  /** The walk that the cells hold is the walk of the specification. */
  lemma WalkedBlock(bwt: FastBwt, v: Block)
    requires bwt.Valid() && bwt.l == v.column && bwt.place == v.origPtr && v.origPtr < |v.column|
    ensures Unrle(bwt.Coming(|v.column| + 2), |v.column|) == BlockOutput(v)
  {
    hide Unrle, Permuted, Walk, SortedPlace;
    InversePermutes(v.column);
    SameWalk(v.column, Links(bwt.tt[..]), Inverse(v.column), v.origPtr, |v.column| + 2);
  }

  lemma WalkedSmall(bwt: SmallBwt, v: Block)
    requires bwt.Valid() && bwt.l == v.column && bwt.tPos == v.origPtr && v.origPtr < |v.column| && bwt.perm == Inverse(v.column)
    ensures Unrle(bwt.Coming(|v.column| + 2), |v.column|) == BlockOutput(v)
  {
    hide Unrle, Permuted, Walk, SortedPlace;
  }

  lemma InverseWalks(l: seq<byte>)
    ensures Permuted(l, Inverse(l)) && |Inverse(l)| == |l| && forall r :: 0 <= r < |l| ==> Inverse(l)[r] < |l|
  {
    hide Permuted;
    InversePermutes(l);
  }
}
