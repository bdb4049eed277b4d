/** A block of deflate, read by inflate. */
module DeflateInflate {
  import opened Bits
  import opened Lz77
  import opened DeflateState
  import opened DeflateTally
  import opened InflateSpec
  import opened InflateInput
  import opened InflateSplit
  import opened TokenBits

  /** Where the current block begins in what has been read. */
  ghost function BlockFrom(s: Deflate): int
    reads s
  {
    |s.hist| - s.end + s.blockStart
  }

  /** Where it ends. */
  ghost function BlockTo(s: Deflate): int
    reads s
  {
    |s.hist| - s.end + s.strstart
  }

  /** The tokens of the current block, coded in some way that can be read back, with the end-of-block code e behind. */
  ghost predicate BlockBits(s: Deflate, cs: Codes, bits: seq<seq<bool>>, e: InflateEntries.Entry, rest: seq<bool>)
    reads s
  {
    Coded(cs, s.block, bits) && NextEntry(cs.lens, bits[|s.block|]) == Found(e, rest) && LenMode(e) == Type
  }

  /**
   The tokens of the current block, coded in any way that can be read back, mean exactly the bytes that the block was made from, when the
   window is not smaller than that of deflate; where calls begin does not matter.
   */
  lemma BlockSurvives(s: Deflate, cs: Codes, reach: Reach, bits: seq<seq<bool>>, e: InflateEntries.Entry, rest: seq<bool>)
    requires Emitted(s, 0) && cs.window >= s.wsize && BlockBits(s, cs, bits, e, rest)
    requires reach.From? ==> reach.start <= BlockFrom(s)
    ensures 0 <= BlockFrom(s) <= BlockTo(s) <= |s.hist|
    ensures Run(cs, reach, Len, bits[0], s.hist[..BlockFrom(s)]) == Result(s.hist[BlockFrom(s)..BlockTo(s)], EndOfBlock(rest))
  {
    hide *;
    EmittedIs(s, 0);
    PlacesAre(s);
    BlockBitsIs(s, cs, bits, e, rest);
    var q, p := BlockFrom(s), BlockTo(s);
    ToldIs(s.wsize, s.sent, s.block, s.hist, q, p);
    ExpandOn(s.sent, s.block, []);
    forall t | t in s.block && t.Pair?
      ensures 1 <= t.distance <= cs.window
    {
      assert t in s.sent + s.block;
      FitsIs(t, s.wsize);
    }
    BlockInflates(cs, reach, s.block, bits, s.hist[..q], e, rest);
    assert s.hist[..p][q..] == s.hist[q..p];
  }

  lemma PlacesAre(s: Deflate)
    ensures BlockFrom(s) == |s.hist| - s.end + s.blockStart && BlockTo(s) == |s.hist| - s.end + s.strstart
  {
  }

  lemma BlockBitsIs(s: Deflate, cs: Codes, bits: seq<seq<bool>>, e: InflateEntries.Entry, rest: seq<bool>)
    requires BlockBits(s, cs, bits, e, rest)
    ensures |bits| == |s.block| + 1 && Coded(cs, s.block, bits)
    ensures NextEntry(cs.lens, bits[|s.block|]) == Found(e, rest) && LenMode(e) == Type
  {
    hide Reads, NextEntry, LenMode;
  }

  lemma FitsIs(t: Token, wsize: nat)
    requires Fits(t, wsize) && t.Pair?
    ensures 3 <= t.length <= 258 && 1 <= t.distance <= wsize
  {
  }

  /**
   A block of deflate through inflate: from behind the same history, whatever bits are held from before, the calls give back exactly the
   bytes of the block and stop at its end, for every amount of input and of room per call.
   */
  method BlockComesBack(s: Deflate, t: InflateState.State, data: seq<byte>, ghost bits: seq<seq<bool>>, ghost e: InflateEntries.Entry,
                        ghost rest: seq<bool>, take: nat, room: nat)
    returns (output: seq<byte>)
    requires Emitted(s, 0) && BlockBits(s, t.codes, bits, e, rest) && t.codes.window >= s.wsize && 0 <= BlockFrom(s) <= |s.hist|
    requires Between(t, data, 0) && t.mode == Len && t.hist == s.hist[..BlockFrom(s)] && t.input.Held() + ByteBits(data) == bits[0]
    requires take > 0 && room > 0
    modifies t, t.input, t.win, t.win.window
    ensures 0 <= BlockFrom(s) <= BlockTo(s) <= |s.hist| && output == s.hist[BlockFrom(s)..BlockTo(s)]
    ensures t.mode == Type && t.hist == s.hist[..BlockTo(s)]
  {
    hide *;
    BetweenIs(t, data, 0);
    RestIs(t, data, 0);
    assert data[0..] == data;
    BlockSurvives(s, t.codes, Each, bits, e, rest);
    BlockSurvives(s, t.codes, From(|t.hist|), bits, e, rest);
    ghost var p := Rest(t, data, 0);
    MeaningsAre(t.codes, p);
    var c;
    output, c := InflateAll(t, data, take, room);
    ExactlyIs(t.mode, output, Wide(t.codes, p));
    assert s.hist[..BlockFrom(s)] + s.hist[BlockFrom(s)..BlockTo(s)] == s.hist[..BlockTo(s)];
  }
}
