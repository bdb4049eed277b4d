/**
 The compressor as a state machine: handle_compress and BZ2_bzCompress (dep/bzip2/bzlib.c). Calls may come with
 any input and any room for output; the caller changes input and availOut between calls.
 */
module StreamCompress {
  import opened Bits
  import opened BitReader
  import opened BitWriter
  import opened RunLength
  import opened RunPacker
  import opened BlockCrc
  import opened MtfEncode
  import opened BlockEncode
  import opened StreamFormat

  datatype Mode = Idle | Running | Flushing | Finishing
  datatype State = Input | Output
  datatype Action = Run | Flush | Finish
  datatype Ret = ConfigOk | RunOk | FlushOk | FinishOk | StreamEnd | SequenceError | ParamError

  /** The bits of a stream so far: nothing, or the header and the blocks, and the trailer once it is written. */
  ghost function StreamBits(begun: bool, closed: bool, level: nat, pieces: seq<Piece>, pad: seq<bool>): seq<bool>
    requires 1 <= level <= 9
  {
    (if begun then HeaderBits(level) + AllBits(pieces) else [])
    + (if closed then TrailerBits(Combined(pieces)) + pad else [])
  }

  lemma {:induction false} BytesBitsConcat(a: seq<byte>, b: seq<byte>)
    ensures BytesBits(a + b) == BytesBits(a) + BytesBits(b)
  {
    if a == [] {
      assert a + b == b && [] + BytesBits(b) == BytesBits(b);
    } else {
      BytesBitsConcat(a[1..], b);
      assert (a + b)[1..] == a[1..] + b;
      Associate(BitsOf(8, a[0]), BytesBits(a[1..]), BytesBits(b));
    }
  }

  /** The runs of a block can be taken apart again. */
  lemma PackedUnpacks(pairs: seq<Pair>, block: seq<byte>, inUse: seq<bool>, crc: bv32)
    requires Packed(pairs, block, inUse, crc) && block != []
    ensures Unpacks(block, ExpandAll(pairs)) && AllUsed(block, inUse) && Finalised(crc) == Checksum(ExpandAll(pairs))
  {
    hide Register, Unrle;
    forall x: byte, y: byte
      ensures Unrle(block + [x, y], |block|) == Unpacked(ExpandAll(pairs), true)
    {
      RunsRoundTrip(pairs, x, y);
    }
  }

  lemma OneMorePiece(pieces: seq<Piece>, p: Piece, level: nat)
    requires AllWritten(pieces, level) && Written(p, level)
    ensures AllWritten(pieces + [p], level)
    ensures AllBits(pieces + [p]) == AllBits(pieces) + p.bits && AllData(pieces + [p]) == AllData(pieces) + p.data
    ensures Combined(pieces + [p]) == Combine(Combined(pieces), Checksum(p.data))
  {
    hide Written;
    assert (pieces + [p])[..|pieces|] == pieces;
  }

  lemma WrittenIs(bits: seq<bool>, block: seq<byte>, data: seq<byte>, level: nat)
    requires DecodesTo(bits, level, BlockCrcOf(data), block) && Unpacks(block, data)
    ensures Written(Piece(bits, block, data), level)
  {
  }

  class Compressor {
    const level: nat
    const workFactor: int
    var mode: Mode
    var state: State
    var availInExpect: nat
    const packer: Packer
    const w: Writer
    var blockNo: nat
    var combinedCRC: bv32
    var stateOutPos: nat
    /** next_in and avail_in, avail_out, and everything put out so far. */
    var input: seq<byte>
    var availOut: nat
    var output: seq<byte>
    /** The blocks written, the input taken, and whether the trailer has been written, with its padding. */
    ghost var pieces: seq<Piece>
    ghost var consumed: seq<byte>
    ghost var closed: bool
    ghost var pad: seq<bool>

    ghost predicate Parts()
      reads this, packer, packer.block, packer.inUse, w
    {
      && 1 <= level <= 9 && packer.Valid() && packer.block.Length == 100000 * level + 34
      && w.zbits.Length == 4 * (100000 * level + 34) && packer.block != w.zbits && packer.inUse as object != w.zbits
      && packer.inUse as object != packer.block
      && 0 <= w.numZ <= w.zbits.Length && stateOutPos <= w.numZ && (!closed ==> w.Valid())
    }

    /** The blocks so far are in order. */
    ghost predicate Books()
      reads this
    {
      AllWritten(pieces, level) && combinedCRC == Combined(pieces) && |pad| < 8
    }

    /** All bits sent on the way: put out, waiting in zbits, or still in the bit buffer. */
    ghost function Sent(): seq<bool>
      requires stateOutPos <= w.numZ <= w.zbits.Length && (!closed ==> w.bsLive >= 0)
      reads this, w, w.zbits
    {
      BytesBits(output + w.zbits[stateOutPos..w.numZ]) + if closed then [] else BitsOf(w.bsLive, w.live)
    }

    /** Every byte taken is in a block, in the block being filled, or in the run being counted. */
    ghost predicate Accounted()
      reads this, packer
    {
      consumed == AllData(pieces) + if state.Input? then packer.Data() else RunBytes(packer.state_in_ch, packer.state_in_len)
    }

    ghost predicate Streaming()
      requires Parts()
      reads this, packer, packer.block, packer.inUse, w, w.zbits
    {
      Sent() == StreamBits(blockNo > 1 || state.Output?, closed, level, pieces, pad)
    }

    /** What the states mean. A full block leaves a run pending, so that only the end of a flush or of the stream does not. */
    ghost predicate Phases()
      reads this, packer, w
    {
      && (state.Input? ==> !closed && packer.nblock < 100000 * level - 19 && w.numZ == 0 && stateOutPos == 0)
      && (state.Input? && packer.state_in_ch == 256 ==> packer.pairs == [])
      && (state.Output? && !closed ==> packer.state_in_ch < 256 || (mode.Flushing? && availInExpect == 0))
      && packer.nblock <= 100000 * level - 10
      && (closed ==> packer.state_in_ch == 256 && (mode.Finishing? || mode.Idle?) && availInExpect == 0)
      && (mode.Idle? ==> closed && stateOutPos == w.numZ)
      && blockNo >= 1 && (blockNo == 1 && state.Input? ==> pieces == [])
    }

    ghost predicate Valid()
      reads this, packer, packer.block, packer.inUse, w, w.zbits
    {
      Parts() && Books() && Accounted() && Streaming() && Phases()
    }

    /** BZ2_bzCompressInit, for parameters that are in range. */
    constructor (blockSize100k: nat, workFactor0: int)
      requires 1 <= blockSize100k <= 9
      ensures Valid() && mode == Running && state == Input && input == output == consumed == [] && level == blockSize100k
      ensures fresh(packer) && fresh(packer.block) && fresh(packer.inUse) && fresh(w) && fresh(w.zbits)
    {
      hide Packed, Register, HeaderBits, TrailerBits, PackAll, Combine;
      level, mode, state, availInExpect := blockSize100k, Running, Input, 0;
      workFactor := if workFactor0 == 0 then 30 else workFactor0;
      blockNo, combinedCRC, stateOutPos, input, availOut, output := 1, 0, 0, [], 0, [];
      pieces, consumed, closed, pad := [], [], false, [];
      packer := new Packer(100000 * blockSize100k + 34);
      var area := new byte[4 * (100000 * blockSize100k + 34)];
      w := new Writer(area);
      new;
      hide *;
      Started();
    }

    lemma Started()
      requires 1 <= level <= 9 && mode == Running && state == Input && !closed && availInExpect == 0 && blockNo == 1 && combinedCRC == 0
      requires stateOutPos == 0 == w.numZ && w.bsLive == 0 && w.Valid() && output == consumed == [] && pieces == [] && pad == []
      requires packer.Valid() && packer.state_in_ch == 256 && packer.nblock == 0 && packer.pairs == []
      requires packer.block.Length == 100000 * level + 34 && w.zbits.Length == 4 * (100000 * level + 34)
      requires packer.block != w.zbits && packer.inUse as object != w.zbits && packer.inUse as object != packer.block
      ensures Valid()
    {
      hide Packed, Meets, PackAll, HeaderBits, TrailerBits, Combine;
      assert output + w.zbits[0..0] == [];
      assert consumed == [] + [];
    }

    /** A block is being filled, or has just been. */
    ghost predicate Filling()
      reads this, packer, packer.block, packer.inUse, w, w.zbits
    {
      && Parts() && Books() && Accounted() && Streaming() && state.Input? && !closed
      && w.numZ == 0 && stateOutPos == 0 && packer.nblock <= 100000 * level - 10 && !mode.Idle?
      && blockNo >= 1 && (blockNo == 1 ==> pieces == [])
    }

    /** copy_input_until_stop. */
    method CopyInputUntilStop() returns (progressIn: bool)
      requires Valid() && state.Input? && (!mode.Running? ==> availInExpect == |input|)
      modifies this`input, this`availInExpect, this`consumed, packer, packer.block, packer.inUse
      ensures Filling() && (packer.state_in_ch == 256 ==> packer.pairs == [])
      ensures |input| <= |old(input)| && old(input) == old(input)[..|old(input)| - |input|] + input
      ensures consumed == old(consumed) + old(input)[..|old(input)| - |input|]
      ensures progressIn == (|input| < |old(input)|) && (!mode.Running? ==> availInExpect == |input|)
      ensures packer.nblock >= 100000 * level - 19 || input == []
      ensures packer.nblock >= 100000 * level - 19 ==> packer.state_in_ch < 256 && progressIn
      ensures packer.nblock <= 100000 * level - 15
    {
      hide *;
      ghost var all, taken := input, [];
      EntersFilling();
      progressIn := false;
      assert [] + input == input && consumed + [] == consumed;
      while true
        invariant Filling() && all == taken + input && consumed == old(consumed) + taken && progressIn == (taken != [])
        invariant !mode.Running? ==> availInExpect == |input|
        invariant packer.state_in_ch == 256 ==> packer.pairs == []
        invariant packer.nblock >= 100000 * level - 19 ==> packer.state_in_ch < 256 && progressIn
        invariant packer.nblock <= 100000 * level - 15
        decreases |input|
      {
        if packer.nblock >= 100000 * level - 19 { break; }
        if |input| == 0 { break; }
        if !mode.Running? && availInExpect == 0 { break; }
        progressIn := true;
        ghost var c := input[0];
        Associate(old(consumed), taken, [c]);
        OneTaken(taken, input);
        TakeByte();
        taken := taken + [c];
      }
      TakenPrefix(all, taken, input);
    }

    lemma EntersFilling()
      requires Valid() && state.Input?
      ensures Filling() && (packer.state_in_ch == 256 ==> packer.pairs == []) && packer.nblock < 100000 * level - 19
    {
    }

    /** One byte of input is added to the block. */
    method TakeByte()
      requires Filling() && packer.nblock < 100000 * level - 19 && input != []
      requires packer.state_in_ch == 256 ==> packer.pairs == []
      requires !mode.Running? ==> availInExpect == |input|
      modifies this`input, this`availInExpect, this`consumed, packer, packer.block, packer.inUse
      ensures packer.nblock <= 100000 * level - 15
      ensures Filling() && packer.state_in_ch < 256 && input == old(input)[1..] && consumed == old(consumed) + [old(input)[0]]
      ensures !mode.Running? ==> availInExpect == |input|
    {
      hide *;
      FillingIs();
      PartsIs();
      BooksIs();
      InputIs();
      ghost var c, data := input[0], packer.Data();
      packer.AddChar(input[0]);
      consumed := consumed + [c];
      Associate(AllData(pieces), data, [c]);
      input := input[1..];
      if !mode.Running? { availInExpect := availInExpect - 1; }
      PartsIs();
      BooksIs();
      InputIs();
      FillingIs();
    }

    lemma FillingIs()
      ensures Filling() <==>
                && Parts() && Books() && Accounted() && Streaming() && state.Input? && !closed
                && w.numZ == 0 && stateOutPos == 0 && packer.nblock <= 100000 * level - 10 && !mode.Idle?
                && blockNo >= 1 && (blockNo == 1 ==> pieces == [])
    {
      hide Parts, Books, Accounted, Streaming;
    }

    lemma PartsIs()
      ensures Parts() <==>
                && 1 <= level <= 9 && packer.Valid() && packer.block.Length == 100000 * level + 34
                && w.zbits.Length == 4 * (100000 * level + 34) && packer.block != w.zbits && packer.inUse as object != w.zbits
                && packer.inUse as object != packer.block
                && 0 <= w.numZ <= w.zbits.Length && stateOutPos <= w.numZ && (!closed ==> w.Valid())
    {
      hide Packed, Meets, BytesBits, BitsOf, Pow2, Shl;
    }

    lemma BooksIs()
      ensures Books() <==> AllWritten(pieces, level) && combinedCRC == Combined(pieces) && |pad| < 8
    {
      hide AllWritten, Combined;
    }

    /** What has been taken and what has been sent, in the input state. */
    lemma InputIs()
      requires Parts() && state.Input? && !closed
      ensures Accounted() <==> consumed == AllData(pieces) + packer.Data()
      ensures Streaming() <==>
                BytesBits(output + w.zbits[stateOutPos..w.numZ]) + BitsOf(w.bsLive, w.live) == StreamBits(blockNo > 1, false, level, pieces, pad)
    {
      hide AllData, StreamBits, BytesBits, BitsOf, ExpandAll, Packed, Meets, Pow2, Shl;
    }

    /** Before a block is written: what is in the bit buffer continues what has been put out. */
    lemma BeforeBlock()
      requires Filling()
      ensures w.Valid() && |w.Written()| <= 32
      ensures blockNo == 1 ==> BytesBits(output) == [] && w.Written() == [] && w.bsLive == 0 && pieces == []
      ensures blockNo > 1 ==> BytesBits(output) + w.Written() == HeaderBits(level) + AllBits(pieces)
    {
      hide HeaderBits, AllBits, AllWritten, Combined, Packed, Combine;
      assert output + w.zbits[0..0] == output;
      var live := BitsOf(w.bsLive, w.live);
      assert w.zbits[..0] == [] && [] + live == live;
      var s := HeaderBits(level) + AllBits(pieces);
      assert s + [] == s;
      assert Sent() == BytesBits(output) + live;
    }

    /** The stream header, in front of the first block. */
    method PutHeader()
      requires Filling()
      modifies w, w.zbits
      ensures w.Valid() && |w.Written()| <= 64
      ensures BytesBits(output) + w.Written() == HeaderBits(level) + AllBits(pieces)
    {
      hide *;
      BeforeBlock();
      FillingParts();
      PartSizes();
      if blockNo == 1 {
        w.Init();
        WriteBytes(w, [0x42, 0x5a, 0x68, 0x30 + level]);
        FirstHeader(level);
      }
    }

    lemma FillingParts()
      requires Filling()
      ensures Parts() && Books() && blockNo >= 1 && packer.nblock <= 100000 * level - 10 && stateOutPos == 0 == w.numZ
      ensures !mode.Idle? && !closed && AllWritten(pieces, level) && combinedCRC == Combined(pieces) && |pad| < 8
    {
    }

    lemma StillParts()
      requires 1 <= level <= 9 && packer.Valid() && packer.block.Length == 100000 * level + 34 && w.Valid() && stateOutPos == 0
      requires w.zbits.Length == 4 * (100000 * level + 34) && packer.block != w.zbits && packer.inUse as object != w.zbits
      requires packer.inUse as object != packer.block
      ensures Parts() && 0 <= w.numZ <= w.zbits.Length
    {
    }

    lemma PartSizes()
      requires Parts()
      ensures 1 <= level <= 9 && w.zbits.Length == 4 * (100000 * level + 34) && packer.block.Length == 100000 * level + 34
      ensures packer.Valid() && packer.inUse.Length == 256 && packer.nblock <= packer.block.Length
      ensures packer.block != w.zbits && packer.inUse as object != w.zbits && packer.inUse as object != packer.block
    {
    }

    lemma PackerFacts()
      requires packer.Valid()
      ensures Packed(packer.pairs, packer.block[..packer.nblock], packer.inUse[..], packer.blockCRC)
      ensures packer.nblock > 0 ==> packer.block[..packer.nblock] != []
    {
    }

    lemma PackerStill(block: seq<byte>)
      requires packer.nblock <= packer.block.Length && packer.inUse.Length == 256 && block == packer.block[..packer.nblock]
      requires Meets(packer.pairs, packer.state_in_ch, packer.state_in_len)
      requires Packed(packer.pairs, block, packer.inUse[..], packer.blockCRC)
      ensures packer.Valid()
    {
    }

    lemma PackerMeets()
      requires packer.Valid()
      ensures Meets(packer.pairs, packer.state_in_ch, packer.state_in_len)
    {
    }

    /** The block itself: it is sorted and coded, and its CRC goes into the combined one. */
    method PutBlock()
      requires Parts() && w.Valid() && |w.Written()| <= 64 && AllWritten(pieces, level) && combinedCRC == Combined(pieces)
      requires 0 < packer.nblock <= 100000 * level
      requires BytesBits(output) + w.Written() == HeaderBits(level) + AllBits(pieces)
      modifies this`pieces, this`combinedCRC, w, w.zbits, packer.block
      ensures w.Valid() && packer.Valid() && |w.Written()| + 128 <= 8 * w.zbits.Length
      ensures AllWritten(pieces, level) && combinedCRC == Combined(pieces)
      ensures BytesBits(output) + w.Written() == HeaderBits(level) + AllBits(pieces)
      ensures AllData(pieces) == old(AllData(pieces)) + packer.Written()
    {
      hide *;
      PartSizes();
      PackerFacts();
      PackerMeets();
      var n := packer.nblock;
      ghost var block, data, before := packer.block[..n], ExpandAll(packer.pairs), w.Written();
      PackedUnpacks(packer.pairs, block, packer.inUse[..], packer.blockCRC);
      PackerWritten();
      var crc := Finalised(packer.blockCRC);
      combinedCRC := Combine(combinedCRC, crc);
      var arr1, arr2, ftab := new nat[n], new nat[n], new bool[n + 64];
      var unseqToSeq, mtfFreq := new byte[256], new nat[258];
      CrcOf(data);
      ghost var bits := EncodeBlock(w, arr1, arr2, packer.block, ftab, n, packer.inUse, unseqToSeq, mtfFreq, Number(crc), level,
                                    workFactor);
      WrittenIs(bits, block, data, level);
      OneMorePiece(pieces, Piece(bits, block, data), level);
      Associate(BytesBits(output), before, bits);
      Associate(HeaderBits(level), AllBits(pieces), bits);
      pieces := pieces + [Piece(bits, block, data)];
      PackerStill(block);
    }

    lemma PackerWritten()
      ensures packer.Written() == ExpandAll(packer.pairs)
    {
    }

    lemma NothingToWrite()
      requires packer.Valid() && packer.nblock == 0
      ensures packer.Written() == [] && AllData(pieces) + packer.Written() == AllData(pieces)
    {
      assert packer.block[..0] == [];
    }

    /** The trailer and the padding. */
    method PutTrailer()
      requires w.Valid() && |w.Written()| + 128 <= 8 * w.zbits.Length
      modifies this`pad, w, w.zbits
      ensures 0 < w.numZ <= w.zbits.Length && |pad| < 8
      ensures BytesBits(w.zbits[..w.numZ]) == old(w.Written()) + (TrailerBits(combinedCRC) + pad)
    {
      hide *;
      ghost var s, c := w.Written(), Number(combinedCRC);
      WriteBytes(w, [0x17, 0x72, 0x45, 0x38, 0x50, 0x90]);
      WriteWord(w, Number(combinedCRC));
      pad := w.Finish();
      TrailerIs(combinedCRC);
      Associate(s, BytesBits([0x17, 0x72, 0x45, 0x38, 0x50, 0x90]), BitsOf(32, c));
      Associate(s, TrailerBits(combinedCRC), pad);
      TrailerNotEmpty(w.zbits[..w.numZ], s, combinedCRC, pad);
    }

    /** The header, if it is the first block, and the block, unless it is empty. */
    method PutContents()
      requires Filling()
      modifies this`pieces, this`combinedCRC, w, w.zbits, packer.block
      ensures w.Valid() && packer.Valid() && |w.Written()| + 128 <= 8 * w.zbits.Length && 0 <= w.numZ <= w.zbits.Length
      ensures AllWritten(pieces, level) && combinedCRC == Combined(pieces)
      ensures BytesBits(output) + w.Written() == HeaderBits(level) + AllBits(pieces)
      ensures AllData(pieces) == old(AllData(pieces) + packer.Written())
    {
      hide *;
      FillingParts();
      PartSizes();
      PutHeader();
      StillParts();
      if packer.nblock > 0 { PutBlock(); } else { NothingToWrite(); }
      StillParts();
    }

    /** BZ2_compressBlock, with the change to the output state. */
    method CompressBlock(last: bool)
      requires Filling()
      requires last ==> packer.state_in_ch == 256 && mode.Finishing? && availInExpect == 0
      requires !last ==> packer.state_in_ch < 256 || (mode.Flushing? && availInExpect == 0)
      modifies this`pieces, this`combinedCRC, this`pad, this`closed, this`state, w, w.zbits, packer.block
      ensures Valid() && state == Output && closed == last && (last ==> w.numZ > 0)
    {
      hide *;
      FillingParts();
      PartSizes();
      FillingData();
      ghost var data := AllData(pieces) + packer.Written();
      PutContents();
      ghost var before := w.Written();
      if last { PutTrailer(); }
      closed := last;
      state := Output;
      StreamIs(level, pieces, pad, last);
      if last {
        Associate(BytesBits(output), before, TrailerBits(combinedCRC) + pad);
      }
      BlockIsDone(before, data);
    }

    /** What is known of the data when a block is about to be written. */
    lemma FillingData()
      requires Filling()
      ensures consumed == AllData(pieces) + packer.Written() + RunBytes(packer.state_in_ch, packer.state_in_len)
    {
      Associate(AllData(pieces), packer.Written(), RunBytes(packer.state_in_ch, packer.state_in_len));
    }

    lemma BlockIsDone(before: seq<bool>, data: seq<byte>)
      requires 1 <= level <= 9 && packer.Valid() && packer.block.Length == 100000 * level + 34 && packer.nblock <= 100000 * level - 10
      requires w.zbits.Length == 4 * (100000 * level + 34) && packer.block != w.zbits && packer.inUse as object != w.zbits
      requires packer.inUse as object != packer.block && 0 <= w.numZ <= w.zbits.Length && stateOutPos == 0 && blockNo >= 1
      requires AllWritten(pieces, level) && combinedCRC == Combined(pieces) && |pad| < 8 && state == Output && !mode.Idle?
      requires consumed == data + RunBytes(packer.state_in_ch, packer.state_in_len) && data == AllData(pieces)
      requires !closed ==> w.Valid() && before == w.Written()
                           && (packer.state_in_ch < 256 || (mode.Flushing? && availInExpect == 0))
      requires closed ==> packer.state_in_ch == 256 && mode.Finishing? && availInExpect == 0
      requires closed ==> BytesBits(w.zbits[..w.numZ]) == before + (TrailerBits(combinedCRC) + pad)
      requires BytesBits(output) + before == HeaderBits(level) + AllBits(pieces)
      requires closed ==> BytesBits(output) + BytesBits(w.zbits[..w.numZ]) == StreamBits(true, true, level, pieces, pad)
      requires !closed ==> StreamBits(true, false, level, pieces, pad) == HeaderBits(level) + AllBits(pieces)
      ensures Valid()
    {
      hide AllWritten, Combined, HeaderBits, AllBits, TrailerBits, Packed, BytesBits, StreamBits, Combine, Meets;
      assert w.zbits[0..w.numZ] == w.zbits[..w.numZ];
      BytesBitsConcat(output, w.zbits[..w.numZ]);
      if !closed {
        Associate(BytesBits(output), BytesBits(w.zbits[..w.numZ]), BitsOf(w.bsLive, w.live));
      } else {
        assert BytesBits(output + w.zbits[0..w.numZ]) + [] == BytesBits(output + w.zbits[0..w.numZ]);
      }
    }

    lemma OutputParts()
      requires Valid()
      ensures 0 <= stateOutPos <= w.numZ <= w.zbits.Length
    {
    }

    /** One byte is put out. */
    method PutOut()
      requires Valid() && state.Output? && stateOutPos < w.numZ && !mode.Idle? && availOut > 0
      modifies this`stateOutPos, this`availOut, this`output
      ensures Valid() && stateOutPos == old(stateOutPos) + 1 && availOut == old(availOut) - 1
      ensures output == old(output) + [w.zbits[old(stateOutPos)]]
    {
      hide Packed, StreamBits, AllWritten, Combined, ExpandAll, RunBytes, Meets, BytesBits, BitsOf, Pow2, Shl;
      ghost var way := output + w.zbits[stateOutPos..w.numZ];
      output := output + [w.zbits[stateOutPos]];
      stateOutPos := stateOutPos + 1;
      availOut := availOut - 1;
      assert output + w.zbits[stateOutPos..w.numZ] == way;
    }

    /** copy_output_until_stop. */
    method CopyOutputUntilStop() returns (progressOut: bool)
      requires Valid() && state.Output? && !mode.Idle?
      modifies this`stateOutPos, this`availOut, this`output
      ensures Valid() && (availOut == 0 || stateOutPos >= w.numZ) && progressOut == (availOut < old(availOut))
      ensures old(output) <= output && |output| + availOut == |old(output)| + old(availOut)
      ensures 0 <= old(stateOutPos) <= stateOutPos <= w.numZ && output == old(output) + w.zbits[old(stateOutPos)..stateOutPos]
      ensures progressOut == (old(stateOutPos) < stateOutPos)
    {
      hide *;
      OutputParts();
      assert output + w.zbits[stateOutPos..stateOutPos] == output;
      progressOut := false;
      while true
        invariant Valid() && availOut <= old(availOut) && progressOut == (availOut < old(availOut))
        invariant old(output) <= output && |output| + availOut == |old(output)| + old(availOut)
        invariant 0 <= old(stateOutPos) <= stateOutPos <= w.numZ <= w.zbits.Length
        invariant progressOut == (old(stateOutPos) < stateOutPos)
        invariant output == old(output) + w.zbits[old(stateOutPos)..stateOutPos]
        decreases availOut
      {
        OutputParts();
        if availOut == 0 { break; }
        if stateOutPos >= w.numZ { break; }
        progressOut := true;
        ghost var moved := w.zbits[old(stateOutPos)..stateOutPos];
        PutOut();
        assert w.zbits[old(stateOutPos)..stateOutPos] == moved + [w.zbits[stateOutPos - 1]];
        Associate(old(output), moved, [w.zbits[stateOutPos - 1]]);
      }
    }

    /** prepare_new_block, with the change to the input state; all output has been put out. */
    method PrepareNewBlock()
      requires Valid() && state.Output? && stateOutPos == w.numZ && !closed && !mode.Idle?
      modifies this`state, this`blockNo, this`stateOutPos, packer, packer.inUse, w
      ensures Valid() && state.Input? && packer.state_in_ch == old(packer.state_in_ch)
    {
      hide Packed, StreamBits, AllWritten, Combined, ExpandAll, RunBytes, Meets, BytesBits, BitsOf, Pow2, Shl;
      ghost var sent := Sent();
      assert output + w.zbits[stateOutPos..w.numZ] == output;
      packer.NewBlock();
      w.Rewind();
      stateOutPos := 0;
      blockNo := blockNo + 1;
      state := Input;
      assert output + w.zbits[0..0] == output;
      assert packer.Data() == RunBytes(packer.state_in_ch, packer.state_in_len);
    }

    /** isempty_RL. */
    predicate IsEmptyRL()
      reads packer
    {
      !(packer.state_in_ch < 256 && packer.state_in_len > 0)
    }

    lemma RunIsEmpty()
      requires packer.Valid()
      ensures IsEmptyRL() <==> packer.state_in_ch == 256
    {
    }

    /** flush_RL, in a block that is being filled. */
    method FlushRun()
      requires Filling() && packer.nblock <= 100000 * level - 15
      modifies packer, packer.block, packer.inUse
      ensures Filling() && packer.state_in_ch == 256
    {
      hide Packed, StreamBits, AllWritten, Combined, ExpandAll, RunBytes, Meets, BytesBits, BitsOf, Pow2, Shl;
      packer.FlushRL();
    }

    lemma ValidParts()
      requires Valid()
      ensures packer.Valid() && packer.state_in_ch <= 256 && (mode.Idle? ==> closed)
      ensures closed ==> packer.state_in_ch == 256 && availInExpect == 0 && state.Output?
      ensures state.Output? && !closed ==> packer.state_in_ch < 256 || (mode.Flushing? && availInExpect == 0)
      ensures 0 <= stateOutPos <= w.numZ
      ensures closed ==> mode.Finishing? || mode.Idle?
      ensures state.Input? ==> w.numZ == 0 == stateOutPos
    {
    }

    lemma BackToValid()
      requires Filling() && packer.nblock < 100000 * level - 19 && (packer.state_in_ch == 256 ==> packer.pairs == [])
      ensures Valid()
    {
    }

    /** The output state of handle_compress: either nothing more can be done now, or a new block is begun. */
    method OutputPhase() returns (stop: bool, progressOut: bool)
      requires Valid() && state.Output? && !mode.Idle?
      modifies this`stateOutPos, this`availOut, this`output, this`state, this`blockNo, packer, packer.inUse, w
      ensures Valid() && packer.state_in_ch == old(packer.state_in_ch) && packer.Valid()
      ensures old(output) <= output && |output| + availOut == |old(output)| + old(availOut) && progressOut == (availOut < old(availOut))
      ensures !stop ==> state.Input? && packer.state_in_ch < 256
      ensures stop && stateOutPos < w.numZ ==> availOut == 0
      ensures stop && (!mode.Flushing? || stateOutPos < w.numZ) ==>
                state.Output? && w.numZ == old(w.numZ) && old(stateOutPos) <= stateOutPos && progressOut == (old(stateOutPos) < stateOutPos)
      ensures stop && mode.Running? ==> stateOutPos < w.numZ
      ensures stop && mode.Finishing? && stateOutPos >= w.numZ ==> closed
      ensures stop && mode.Flushing? && stateOutPos >= w.numZ ==> state.Input? && availInExpect == 0 && packer.state_in_ch == 256
    {
      hide *;
      progressOut := CopyOutputUntilStop();
      OutputParts();
      ValidParts();
      RunIsEmpty();
      if stateOutPos < w.numZ { return true, progressOut; }
      if mode.Finishing? && availInExpect == 0 && IsEmptyRL() { return true, progressOut; }
      PrepareNewBlock();
      ValidParts();
      RunIsEmpty();
      stop := mode.Flushing? && availInExpect == 0 && IsEmptyRL();
    }

    /** The input state of handle_compress: either all input has been taken, or a block is written. */
    method InputPhase() returns (stop: bool, progressIn: bool, ghost took: seq<byte>)
      requires Valid() && state.Input? && !mode.Idle? && (!mode.Running? ==> availInExpect == |input|)
      modifies this`input, this`availInExpect, this`consumed, this`pieces, this`combinedCRC, this`pad, this`closed, this`state
      modifies packer, packer.block, packer.inUse, w, w.zbits
      ensures Valid() && (!mode.Running? ==> availInExpect == |input|)
      ensures old(input) == took + input && consumed == old(consumed) + took && progressIn == (took != [])
      ensures stop ==> state.Input? && input == [] && mode.Running?
      ensures !stop ==> state.Output? && (|input| < |old(input)| || packer.state_in_ch == 256)
      ensures !stop && !mode.Flushing? ==> |input| < |old(input)| || (mode.Finishing? && closed)
      ensures stop ==> !closed
      ensures closed ==> w.numZ > 0
    {
      hide *;
      ghost var before := input;
      progressIn := CopyInputUntilStop();
      took := before[..|before| - |input|];
      FillingParts();
      stop := false;
      if !mode.Running? && availInExpect == 0 {
        FlushRun();
        CompressBlock(mode.Finishing?);
        ValidParts();
      } else if packer.nblock >= 100000 * level - 19 {
        CompressBlock(false);
      } else {
        BackToValid();
        stop := |input| == 0;
      }
    }

    /** There is more to be put out, or the stream is not closed yet. */
    ghost predicate Unfinished()
      reads this`closed, this`stateOutPos, w`numZ
    {
      closed ==> stateOutPos < w.numZ
    }

    /** There is room, and something for it. */
    ghost predicate CanMove()
      reads this, w`numZ
    {
      availOut > 0 && ((mode.Running? && input != []) || (mode.Finishing? && Unfinished()))
    }

    lemma CanMoveIs()
      ensures CanMove() <==> availOut > 0 && ((mode.Running? && input != []) || (mode.Finishing? && Unfinished()))
    {
    }

    /** How handle_compress stops. */
    ghost predicate Stopped()
      reads this, packer, w
    {
      && (mode.Running? ==> input == [] || availOut == 0)
      && (mode.Flushing? ==> (availOut == 0 && stateOutPos < w.numZ) || (state.Input? && availInExpect == 0 && IsEmptyRL()))
      && (mode.Finishing? ==> (availOut == 0 && stateOutPos < w.numZ) || (closed && stateOutPos >= w.numZ))
    }

    /** A finish that has begun and goes on: all that was announced is still there. */
    ghost predicate Goes()
      reads this, w`numZ
    {
      mode.Finishing? && availInExpect == |input| && Unfinished()
    }

    lemma GoesIs()
      ensures Goes() <==> mode.Finishing? && availInExpect == |input| && Unfinished()
    {
    }

    lemma UnfinishedIs()
      ensures Unfinished() <==> (closed ==> stateOutPos < w.numZ)
    {
    }

    lemma StoppedIs()
      ensures Stopped() <==>
                && (mode.Running? ==> input == [] || availOut == 0)
                && (mode.Flushing? ==> (availOut == 0 && stateOutPos < w.numZ) || (state.Input? && availInExpect == 0 && IsEmptyRL()))
                && (mode.Finishing? ==> (availOut == 0 && stateOutPos < w.numZ) || (closed && stateOutPos >= w.numZ))
    {
    }

    /** One turn of handle_compress. A turn that does not end it has taken input or closed the stream. */
    method Turn() returns (stop: bool, progressIn: bool, progressOut: bool, ghost took: seq<byte>)
      requires Valid() && !mode.Idle? && (!mode.Running? ==> availInExpect == |input|)
      modifies this, packer, packer.block, packer.inUse, w, w.zbits
      ensures Valid() && mode == old(mode) && (!mode.Running? ==> availInExpect == |input|) && (old(closed) ==> closed)
      ensures old(input) == took + input && consumed == old(consumed) + took && progressIn == (took != [])
      ensures old(output) <= output && |output| + availOut == |old(output)| + old(availOut) && progressOut == (availOut < old(availOut))
      ensures !stop ==> state.Output? && Unfinished()
      ensures !stop && took == [] ==> packer.state_in_ch == 256 && old(state.Input? || packer.state_in_ch < 256)
      ensures !stop && !mode.Flushing? ==> took != [] || closed != old(closed)
      ensures stop ==> Stopped()
      ensures stop && old(CanMove()) && took == [] && closed == old(closed) ==>
                progressOut && w.numZ - stateOutPos < old(w.numZ - stateOutPos)
      ensures stop && mode.Finishing? ==> took == [] && closed == old(closed)
      ensures stop && mode.Flushing? && stateOutPos < w.numZ ==>
                took == [] && state == old(state) && packer.state_in_ch == old(packer.state_in_ch)
                && w.numZ - stateOutPos <= old(w.numZ - stateOutPos)
                && (old(availOut) > 0 ==> w.numZ - stateOutPos < old(w.numZ - stateOutPos))
    {
      hide *;
      CanMoveIs();
      ValidParts();
      RunIsEmpty();
      UnfinishedIs();
      took, progressIn, progressOut := [], false, false;
      NoInputYet(input, consumed);
      if state.Output? {
        stop, progressOut := OutputPhase();
        ValidParts();
        RunIsEmpty();
        StoppedIs();
        if stop { return; }
      }
      stop, progressIn, took := InputPhase();
      ValidParts();
      RunIsEmpty();
      UnfinishedIs();
      StoppedIs();
    }

    /**
     handle_compress. It stops when there is no more input, no more room for output, or the flush or the stream is
     complete. A stream that is complete is never begun again: the trailer is written once. Given room it brings a
     stream that is to be finished nearer to its end, and one that is running nearer to the end of the input.
     */
    method HandleCompress() returns (progress: bool)
      requires Valid() && !mode.Idle? && (!mode.Running? ==> availInExpect == |input|)
      modifies this, packer, packer.block, packer.inUse, w, w.zbits
      ensures Valid() && mode == old(mode) && (!mode.Running? ==> availInExpect == |input|)
      ensures |input| <= |old(input)| && old(input) == old(input)[..|old(input)| - |input|] + input
      ensures consumed == old(consumed) + old(input)[..|old(input)| - |input|]
      ensures old(output) <= output && |output| + availOut == |old(output)| + old(availOut)
      ensures progress <==> |input| < |old(input)| || availOut < old(availOut)
      ensures Stopped()
      ensures old(CanMove()) ==> progress && Nearer(|old(input)|, old(closed), old(w.numZ - stateOutPos))
      ensures mode.Flushing? && old(availOut) > 0 ==>
                stateOutPos >= w.numZ
                || FlushNearer(|old(input)|, old(packer.state_in_ch) < 256, old(state.Input?), old(w.numZ - stateOutPos))
    {
      hide *;
      ghost var size, wasClosed, pending := |input|, closed, w.numZ - stateOutPos;
      ghost var all, taken := input, [];
      var progressIn, progressOut, stop := false, false, false;
      NoInputYet(input, consumed);
      ghost var canMove, run, filling := CanMove(), packer.state_in_ch < 256, state.Input?;
      CanMoveIs();
      ValidParts();
      while !stop
        invariant Valid() && !mode.Idle? && mode == old(mode) && (!mode.Running? ==> availInExpect == |input|)
        invariant all == taken + input && consumed == old(consumed) + taken && progressIn == (taken != [])
        invariant old(output) <= output && |output| + availOut == |old(output)| + old(availOut) && progressOut == (availOut < old(availOut))
        invariant wasClosed ==> closed
        invariant stop ==> Stopped()
        invariant !stop && canMove && taken == [] && closed == wasClosed ==> CanMove() && w.numZ - stateOutPos == pending
        invariant !stop && canMove && mode.Finishing? ==> Unfinished()
        invariant stop && canMove && taken == [] && closed == wasClosed ==> progressOut && w.numZ - stateOutPos < pending
        invariant stop && canMove ==> progressIn || progressOut
        invariant mode.Flushing? && old(availOut) > 0 ==>
                    || FlushNearer(size, run, filling, pending)
                    || (!stop && taken == [] && availOut == old(availOut) && state.Input? == filling && (packer.state_in_ch < 256) == run
                        && w.numZ - stateOutPos == pending)
                    || (stop && stateOutPos >= w.numZ)
        decreases !stop, |input|, if state.Output? && packer.state_in_ch == 256 then 0 else 1
      {
        ghost var took;
        var moved, out;
        CanMoveIs();
        FlushNearerIs(size, run, filling, pending);
        ValidParts();
        stop, moved, out, took := Turn();
        progressIn, progressOut := progressIn || moved, progressOut || out;
        Associate(taken, took, input);
        Associate(old(consumed), taken, took);
        taken := taken + took;
        StoppedIs();
        ValidParts();
        FlushNearerIs(size, run, filling, pending);
      }
      TakenPrefix(all, taken, input);
      NearerIs(size, wasClosed, pending);
      progress := progressIn || progressOut;
    }

    /** Less input, the stream closed, or less waiting in zbits. */
    ghost predicate Nearer(size: nat, wasClosed: bool, pending: int)
      reads this, w
    {
      |input| < size || (closed && !wasClosed) || (|input| == size && closed == wasClosed && w.numZ - stateOutPos < pending)
    }

    /** For a flush: less input, or the pending run ended, or the block written, or less waiting in zbits. */
    ghost predicate FlushNearer(size: nat, run: bool, filling: bool, pending: int)
      reads this, packer, w
    {
      || |input| < size
      || (|input| == size && packer.state_in_ch == 256 && run)
      || (|input| == size && (packer.state_in_ch < 256) == run && state.Output? && filling)
      || (|input| == size && (packer.state_in_ch < 256) == run && state.Input? == filling && w.numZ - stateOutPos < pending)
    }

    lemma FlushNearerIs(size: nat, run: bool, filling: bool, pending: int)
      ensures FlushNearer(size, run, filling, pending) <==>
                || |input| < size
                || (|input| == size && packer.state_in_ch == 256 && run)
                || (|input| == size && (packer.state_in_ch < 256) == run && state.Output? && filling)
                || (|input| == size && (packer.state_in_ch < 256) == run && state.Input? == filling && w.numZ - stateOutPos < pending)
    {
    }

    lemma NearerIs(size: nat, wasClosed: bool, pending: int)
      ensures Nearer(size, wasClosed, pending) <==>
                |input| < size || (closed && !wasClosed) || (|input| == size && closed == wasClosed && w.numZ - stateOutPos < pending)
    {
    }

    /** What the caller may rely on once the stream is complete: the output decodes to all input. */
    lemma Complete()
      requires Valid() && mode.Idle?
      ensures ReadStream(BytesBits(output)) == Stream(consumed, Whole(pad)) && |pad| < 8
    {
      hide Packed, AllWritten, ReadStream, BytesBits, AllBits, AllData, HeaderBits, TrailerBits, Combined, Combine;
      assert output + w.zbits[stateOutPos..w.numZ] == output;
      var h, t := HeaderBits(level) + AllBits(pieces), TrailerBits(Combined(pieces));
      assert BytesBits(output) + [] == BytesBits(output);
      assert BytesBits(output) == h + (t + pad);
      Associate(h, t, pad);
      StreamRoundTrip(pieces, level, pad);
      assert consumed == AllData(pieces) + [] == AllData(pieces);
    }

    lemma FlushedData()
      requires Valid() && packer.state_in_ch == 256 && state.Input?
      ensures consumed == AllData(pieces)
    {
      hide AllData, Packed;
      NothingPending();
      assert AllData(pieces) + [] == AllData(pieces);
    }

    lemma NothingPending()
      requires packer.pairs == [] && packer.state_in_ch == 256
      ensures packer.Data() == []
    {
    }

    lemma Finishable()
      requires Valid() && closed && stateOutPos >= w.numZ
      ensures packer.Valid() && packer.state_in_ch == 256 && availInExpect == 0 && stateOutPos == w.numZ
    {
    }

    /** The bookkeeping at the start of a flush or of the end. */
    method Begin(m: Mode)
      requires Valid() && mode.Running? && (m.Flushing? || m.Finishing?)
      modifies this`mode, this`availInExpect
      ensures Valid() && mode == m && availInExpect == |input|
    {
      hide Packed, StreamBits, AllWritten, Combined, ExpandAll, RunBytes, Meets, BytesBits, BitsOf, Pow2, Shl;
      mode := m;
      availInExpect := |input|;
    }

    /** A flush is complete: back to ordinary running. */
    method EndFlush()
      requires Valid() && mode.Flushing? && state.Input?
      modifies this`mode
      ensures Valid() && mode.Running?
    {
      hide Packed, StreamBits, AllWritten, Combined, ExpandAll, RunBytes, Meets, BytesBits, BitsOf, Pow2, Shl;
      mode := Running;
    }

    method EndStream()
      requires Valid() && mode.Finishing? && closed && stateOutPos == w.numZ
      modifies this`mode
      ensures Valid() && mode.Idle?
    {
      hide Packed, StreamBits, AllWritten, Combined, ExpandAll, RunBytes, Meets, BytesBits, BitsOf, Pow2, Shl;
      mode := Idle;
    }

    /** The running mode of BZ2_bzCompress, for the action Run. */
    method CallRun() returns (ret: Ret)
      requires Valid() && mode.Running?
      modifies this, packer, packer.block, packer.inUse, w, w.zbits
      ensures Valid() && mode.Running?
      ensures |input| <= |old(input)| && old(input) == old(input)[..|old(input)| - |input|] + input
      ensures consumed == old(consumed) + old(input)[..|old(input)| - |input|]
      ensures old(output) <= output && |output| + availOut == |old(output)| + old(availOut)
      ensures ret == if |input| < |old(input)| || |output| > |old(output)| then RunOk else ParamError
      ensures ret == ParamError ==> input == old(input) && output == old(output) && consumed == old(consumed)
      ensures input == [] || availOut == 0
      ensures old(input) != [] && old(availOut) > 0 ==>
                ret == RunOk && Nearer(|old(input)|, old(closed), old(w.numZ - stateOutPos))
    {
      hide *;
      NoInputYet(input, consumed);
      CanMoveIs();
      var progress := HandleCompress();
      StoppedIs();
      ret := if progress then RunOk else ParamError;
    }

    /** The flushing mode of BZ2_bzCompress. */
    method CallFlush(action: Action) returns (ret: Ret)
      requires Valid() && mode.Flushing?
      modifies this, packer, packer.block, packer.inUse, w, w.zbits
      ensures Valid()
      ensures |input| <= |old(input)| && old(input) == old(input)[..|old(input)| - |input|] + input
      ensures consumed == old(consumed) + old(input)[..|old(input)| - |input|]
      ensures ret == RunOk ==> action == Flush && mode.Running? && input == [] && consumed == AllData(pieces) && stateOutPos >= w.numZ
      ensures ret == RunOk || ret == FlushOk || ret == SequenceError
      ensures old(output) <= output && |output| + availOut == |old(output)| + old(availOut)
      ensures (action != Flush || old(availInExpect) != |old(input)|) ==> ret == SequenceError && mode == old(mode)
      ensures ret == SequenceError ==> input == old(input) && availOut == old(availOut)
      ensures ret == SequenceError ==> action != Flush || old(availInExpect) != |old(input)|
      ensures ret == FlushOk ==> availOut == 0 && mode.Flushing? && availInExpect == |input|
      ensures ret == FlushOk && old(availOut) > 0 ==>
                FlushNearer(|old(input)|, old(packer.state_in_ch) < 256, old(state.Input?), old(w.numZ - stateOutPos))
    {
      hide *;
      NoInputYet(input, consumed);
      if action != Flush { return SequenceError; }
      if availInExpect != |input| { return SequenceError; }
      var progress := HandleCompress();
      StoppedIs();
      ValidParts();
      if availInExpect > 0 || !IsEmptyRL() || stateOutPos < w.numZ { return FlushOk; }
      RunIsEmpty();
      FlushedData();
      EndFlush();
      return RunOk;
    }

    /** The action Flush while running. */
    method StartFlush() returns (ret: Ret)
      requires Valid() && mode.Running?
      modifies this, packer, packer.block, packer.inUse, w, w.zbits
      ensures Valid()
      ensures |input| <= |old(input)| && old(input) == old(input)[..|old(input)| - |input|] + input
      ensures consumed == old(consumed) + old(input)[..|old(input)| - |input|]
      ensures ret == RunOk ==> mode.Running? && input == [] && consumed == AllData(pieces) && stateOutPos >= w.numZ
      ensures ret == RunOk || (ret == FlushOk && availOut == 0 && mode.Flushing? && availInExpect == |input|)
      ensures ret == FlushOk && old(availOut) > 0 ==>
                FlushNearer(|old(input)|, old(packer.state_in_ch) < 256, old(state.Input?), old(w.numZ - stateOutPos))
      ensures old(output) <= output && |output| + availOut == |old(output)| + old(availOut)
    {
      hide *;
      Begin(Flushing);
      ret := CallFlush(Flush);
    }

    /** The action Finish while running. */
    method StartFinish() returns (ret: Ret)
      requires Valid() && mode.Running?
      modifies this, packer, packer.block, packer.inUse, w, w.zbits
      ensures Valid()
      ensures |input| <= |old(input)| && old(input) == old(input)[..|old(input)| - |input|] + input
      ensures consumed == old(consumed) + old(input)[..|old(input)| - |input|]
      ensures ret == StreamEnd ==> mode.Idle? && ReadStream(BytesBits(output)) == Stream(consumed, Whole(pad)) && |pad| < 8
      ensures ret == StreamEnd || ret == FinishOk || ret == SequenceError
      ensures old(output) <= output && |output| + availOut == |old(output)| + old(availOut)
      ensures ret == SequenceError ==> input == old(input) && availOut == old(availOut)
      ensures ret == FinishOk ==> Goes() && availOut == 0
      ensures old(availOut) > 0 ==>
                ret == StreamEnd || (ret == FinishOk && Nearer(|old(input)|, old(closed), old(w.numZ - stateOutPos)))
    {
      hide *;
      NotIdle();
      Begin(Finishing);
      UnfinishedIs();
      GoesIs();
      ret := CallFinish(Finish);
    }

    /** The finishing mode of BZ2_bzCompress. */
    method CallFinish(action: Action) returns (ret: Ret)
      requires Valid() && mode.Finishing?
      modifies this, packer, packer.block, packer.inUse, w, w.zbits
      ensures Valid()
      ensures |input| <= |old(input)| && old(input) == old(input)[..|old(input)| - |input|] + input
      ensures consumed == old(consumed) + old(input)[..|old(input)| - |input|]
      ensures ret == StreamEnd ==> mode.Idle? && ReadStream(BytesBits(output)) == Stream(consumed, Whole(pad)) && |pad| < 8
      ensures ret == StreamEnd || ret == FinishOk || ret == SequenceError
      ensures old(output) <= output && |output| + availOut == |old(output)| + old(availOut)
      ensures (action != Finish || old(availInExpect) != |old(input)|) ==> ret == SequenceError && mode == old(mode)
      ensures ret == SequenceError ==> input == old(input) && availOut == old(availOut)
      ensures ret == FinishOk ==> Goes() && availOut == 0
      ensures action == Finish && old(Goes()) && old(availOut) > 0 ==>
                ret == StreamEnd || (ret == FinishOk && Nearer(|old(input)|, old(closed), old(w.numZ - stateOutPos)))
    {
      hide *;
      NoInputYet(input, consumed);
      GoesIs();
      CanMoveIs();
      if action != Finish { return SequenceError; }
      if availInExpect != |input| { return SequenceError; }
      var progress := HandleCompress();
      if !progress { return SequenceError; }
      StoppedIs();
      UnfinishedIs();
      GoesIs();
      ValidParts();
      RunIsEmpty();
      if availInExpect > 0 || !IsEmptyRL() || stateOutPos < w.numZ { return FinishOk; }
      Finishable();
      EndStream();
      Complete();
      return StreamEnd;
    }

    /** BZ2_bzCompress while running. */
    method CallRunning(action: Action) returns (ret: Ret)
      requires Valid() && mode.Running?
      modifies this, packer, packer.block, packer.inUse, w, w.zbits
      ensures Valid()
      ensures |input| <= |old(input)| && old(input) == old(input)[..|old(input)| - |input|] + input
      ensures consumed == old(consumed) + old(input)[..|old(input)| - |input|]
      ensures old(output) <= output && |output| + availOut == |old(output)| + old(availOut)
      ensures ret == SequenceError || ret == ParamError ==> input == old(input) && output == old(output) && consumed == old(consumed)
      ensures action == Run ==> mode.Running? && (input == [] || availOut == 0)
      ensures action == Run ==> ret == if |input| < |old(input)| || |output| > |old(output)| then RunOk else ParamError
      ensures action == Run && old(input) != [] && old(availOut) > 0 ==>
                ret == RunOk && Nearer(|old(input)|, old(closed), old(w.numZ - stateOutPos))
      ensures action == Flush ==> ret == RunOk || (ret == FlushOk && availOut == 0 && mode.Flushing? && availInExpect == |input|)
      ensures action == Flush && ret == RunOk ==> mode.Running? && input == [] && consumed == AllData(pieces) && stateOutPos >= w.numZ
      ensures action == Flush && ret == FlushOk && old(availOut) > 0 ==>
                FlushNearer(|old(input)|, old(packer.state_in_ch) < 256, old(state.Input?), old(w.numZ - stateOutPos))
      ensures action == Finish ==> ret == StreamEnd || ret == FinishOk || ret == SequenceError
      ensures ret == StreamEnd ==> mode.Idle? && ReadStream(BytesBits(output)) == Stream(consumed, Whole(pad)) && |pad| < 8
      ensures ret == FinishOk ==> Goes() && availOut == 0
      ensures action == Finish && old(availOut) > 0 ==>
                ret == StreamEnd || (ret == FinishOk && Nearer(|old(input)|, old(closed), old(w.numZ - stateOutPos)))
    {
      hide *;
      NoInputYet(input, consumed);
      if action == Run {
        ret := CallRun();
      } else if action == Flush {
        ret := StartFlush();
      } else {
        ret := StartFinish();
      }
    }

    /**
     BZ2_bzCompress. For every sequence of calls, with any input and any room for output: no input is lost or
     taken twice; a completed flush has written all of it; and when the stream ends, the output decodes to exactly
     the input of all calls together. Calls with room come nearer to the end of the input, of the flush, or of the stream.
     */
    method BzCompress(action: Action) returns (ret: Ret)
      requires Valid()
      modifies this, packer, packer.block, packer.inUse, w, w.zbits
      ensures Valid()
      ensures |input| <= |old(input)| && old(input) == old(input)[..|old(input)| - |input|] + input
      ensures consumed == old(consumed) + old(input)[..|old(input)| - |input|]
      ensures old(mode).Idle? ==> ret == SequenceError && output == old(output)
      ensures ret == StreamEnd ==> mode.Idle? && ReadStream(BytesBits(output)) == Stream(consumed, Whole(pad)) && |pad| < 8
      ensures action == Flush && ret == RunOk ==> mode.Running? && input == [] && consumed == AllData(pieces) && stateOutPos >= w.numZ
      ensures old(output) <= output && |output| + availOut == |old(output)| + old(availOut)
      ensures old(mode).Flushing? && (action != Flush || old(availInExpect) != |old(input)|) ==> ret == SequenceError && mode == old(mode)
      ensures old(mode).Finishing? && (action != Finish || old(availInExpect) != |old(input)|) ==> ret == SequenceError && mode == old(mode)
      ensures ret == ParamError ==> old(mode).Running? && action == Run
      ensures ret == SequenceError || ret == ParamError ==> input == old(input) && output == old(output) && consumed == old(consumed)
      ensures old(mode).Running? && action == Run ==> mode.Running? && (ret == RunOk <==> |input| < |old(input)| || |output| > |old(output)|)
      ensures old(mode).Running? && action == Flush ==> ret == RunOk || ret == FlushOk
      ensures old(mode).Running? && action == Run ==> ret == ParamError || input == [] || availOut == 0
      ensures old(mode).Running? && action == Run && old(input) != [] && old(availOut) > 0 ==>
                ret == RunOk && Nearer(|old(input)|, old(closed), old(w.numZ - stateOutPos))
      ensures ret == FlushOk ==> availOut == 0 && mode.Flushing? && availInExpect == |input|
      ensures ret == FlushOk && old(availOut) > 0 ==>
                FlushNearer(|old(input)|, old(packer.state_in_ch) < 256, old(state.Input?), old(w.numZ - stateOutPos))
      ensures action == Flush && old(mode).Flushing? && old(availInExpect) == |old(input)| ==> ret == RunOk || ret == FlushOk
      ensures ret == FinishOk ==> Goes() && availOut == 0
      ensures action == Finish && (old(mode).Running? || old(Goes())) && old(availOut) > 0 ==>
                ret == StreamEnd || (ret == FinishOk && Nearer(|old(input)|, old(closed), old(w.numZ - stateOutPos)))
    {
      hide *;
      NoInputYet(input, consumed);
      if mode.Idle? {
        GoesIs();
        return SequenceError;
      }
      if mode.Running? {
        ret := CallRunning(action);
      } else if mode.Flushing? {
        GoesIs();
        ret := CallFlush(action);
      } else {
        ret := CallFinish(action);
      }
    }

    /** The caller appends to the input and makes room for output, between two calls. */
    method Provide(bytes: seq<byte>, room: nat)
      requires Valid()
      modifies this`input, this`availOut
      ensures Valid() && input == old(input) + bytes && availOut == room
      ensures bytes == [] && old(Goes()) ==> Goes()
    {
      hide Packed, StreamBits, AllWritten, Combined, ExpandAll, RunBytes, Meets, BytesBits, BitsOf, Pow2, Shl;
      input, availOut := input + bytes, room;
      assert bytes == [] ==> input == old(input);
    }

    lemma NotIdle()
      requires Valid() && mode.Running?
      ensures !closed
    {
    }
  }

  /** BZ2_bzCompressInit with its checks; allocation does not fail here. */
  method CompressInit(blockSize100k: int, workFactor: int) returns (ret: Ret, c: Compressor?)
    ensures ret == if 1 <= blockSize100k <= 9 && 0 <= workFactor <= 250 then ConfigOk else ParamError
    ensures (c != null) <==> ret == ConfigOk
    ensures c != null ==> fresh(c) && c.Valid() && c.mode == Running && c.output == [] && c.consumed == [] && c.level == blockSize100k
  {
    hide *;
    if blockSize100k < 1 || blockSize100k > 9 || workFactor < 0 || workFactor > 250 { return ParamError, null; }
    c := new Compressor(blockSize100k, workFactor);
    ret := ConfigOk;
  }

  lemma FirstHeader(level: nat)
    requires 1 <= level <= 9
    ensures HeaderBits(level) == BytesBits([0x42, 0x5a, 0x68, 0x30 + level]) && AllBits([]) == []
    ensures [] + ([] + HeaderBits(level)) == HeaderBits(level) + []
  {
  }

  lemma TrailerIs(combined: bv32)
    ensures TrailerBits(combined) == BytesBits([0x17, 0x72, 0x45, 0x38, 0x50, 0x90]) + BitsOf(32, Number(combined))
  {
  }

  /** A trailer takes room. */
  lemma TrailerNotEmpty(bytes: seq<byte>, before: seq<bool>, combined: bv32, pad: seq<bool>)
    requires BytesBits(bytes) == before + (TrailerBits(combined) + pad)
    ensures bytes != []
  {
    assert TrailerBits(combined) == BytesBits([0x17, 0x72, 0x45, 0x38, 0x50, 0x90]) + BitsOf(32, Number(combined));
  }

  lemma StreamIs(level: nat, pieces: seq<Piece>, pad: seq<bool>, last: bool)
    requires 1 <= level <= 9
    ensures StreamBits(true, last, level, pieces, pad)
         == HeaderBits(level) + AllBits(pieces) + if last then TrailerBits(Combined(pieces)) + pad else []
    ensures HeaderBits(level) + AllBits(pieces) + [] == HeaderBits(level) + AllBits(pieces)
  {
  }

  lemma CrcOf(data: seq<byte>)
    ensures BlockCrcOf(data) == Number(Checksum(data))
  {
  }

  lemma OneTaken(taken: seq<byte>, input: seq<byte>)
    requires input != []
    ensures taken + input == taken + [input[0]] + input[1..]
  {
  }

  lemma TakenPrefix(all: seq<byte>, taken: seq<byte>, input: seq<byte>)
    requires all == taken + input
    ensures all[..|all| - |input|] == taken
  {
  }

  lemma NoInputYet(input: seq<byte>, consumed: seq<byte>)
    ensures input[..|input| - |input|] == [] && [] + input == input && consumed + [] == consumed
  {
  }
}
