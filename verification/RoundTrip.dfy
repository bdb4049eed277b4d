/** Whole runs: decompressing with input and output divided in any way, and decompressing what was compressed. */
module RoundTrip {
  import opened Bits
  import opened BitReader
  import opened StreamFormat
  import C = StreamCompress
  import D = StreamDecompress

  function Flat(pieces: seq<seq<byte>>): seq<byte> {
    if pieces == [] then [] else pieces[0] + Flat(pieces[1..])
  }

  /**
   What a run over a stream that the specification reads as s may come to: the reply of the last call and everything
   that was put out. With BZ_OK the input was not enough, or, unless there was room left, not everything was fetched.
   */
  ghost predicate Outcome(small: bool, ret: D.Ret, s: Stream, output: seq<byte>, roomLeft: bool) {
    match ret
    case BzOk => output <= s.data && (roomLeft ==> s == Stream(output, Starving))
    case BzStreamEnd => s.data == output && s.ending.Whole?
    case BzDataError => s == Stream(output, Damaged) || (s.ending == RunsPast && output <= s.data && (small ==> output == s.data))
    case BzDataErrorMagic => s == Stream(output, NotBzip2)
    case OutsideArrays => s == Stream(output, TooManySelectors)
    case RandomisedBlock => s == Stream(output, Randomised)
    case BzSequenceError => false
  }

  /**
   Two runs over the same input, however input and output were divided and in whichever form, that both came to an end: the replies are the
   same and so is the output. Only the FAST routine may leave out a part of a block that ends within a run.
   */
  lemma SameForEverySplit(small: bool, small': bool, s: Stream, ret: D.Ret, output: seq<byte>, left: bool,
                          ret': D.Ret, output': seq<byte>, left': bool)
    requires Outcome(small, ret, s, output, left) && (ret == D.BzOk ==> left)
    requires Outcome(small', ret', s, output', left') && (ret' == D.BzOk ==> left')
    ensures ret == ret'
    ensures output == output' || (!(small && small') && s.ending == RunsPast)
  {
  }

  lemma FlatNext(pieces: seq<seq<byte>>, k: nat)
    requires k < |pieces|
    ensures BytesBits(Flat(pieces[k..])) == BytesBits(pieces[k]) + BytesBits(Flat(pieces[k + 1..]))
  {
    assert pieces[k..][1..] == pieces[k + 1..];
    BytesJoin(pieces[k], Flat(pieces[k + 1..]));
  }

  /** Call k provides piece k of the input and room for rooms[k] bytes, until there is a reply other than BZ_OK. */
  method DecompressPieces(small: bool, pieces: seq<seq<byte>>, rooms: seq<nat>) returns (ret: D.Ret, output: seq<byte>, roomLeft: bool)
    requires |rooms| == |pieces|
    ensures Outcome(small, ret, ReadStream(BytesBits(Flat(pieces))), output, roomLeft)
  {
    hide *;
    var d := new D.Decompressor(small);
    ghost var s := ReadStream(BytesBits(Flat(pieces)));
    assert pieces[0..] == pieces;
    NothingBefore(s);
    d.LiveIs();
    d.r.AheadMore([], BytesBits(Flat(pieces)));
    BeginsWith(BytesBits(Flat(pieces)), d.r.Unread());
    ret, roomLeft := D.BzOk, false;
    var k := 0;
    while k < |pieces|
      invariant 0 <= k <= |pieces| && ret == D.BzOk && d.Valid() && d.Live() && d.r.Valid() && fresh(d.Repr) && d.small == small
      invariant s == Behind(d.output, d.Rest(d.r.Ahead(BytesBits(Flat(pieces[k..])))))
      invariant roomLeft ==> d.Rest(d.r.Unread()) == Stream([], Starving)
    {
      ghost var more, out := BytesBits(Flat(pieces[k + 1..])), d.output;
      FlatNext(pieces, k);
      d.LiveIs();
      d.Provide(pieces[k], rooms[k], more);
      d.LiveIs();
      ghost var was := d.Rest(d.r.Ahead(more));
      ret := d.BzDecompress(more);
      ghost var part := d.output[|out|..];
      WholeOf(out, d.output);
      roomLeft := d.availOut > 0;
      if ret != D.BzOk {
        EndOfRun(d, ret, was, out, part, more);
        return ret, d.output, roomLeft;
      }
      StillRunning(d, was, part, more);
      BehindBehind(out, part, d.Rest(d.r.Ahead(more)));
      k := k + 1;
    }
    output := d.output;
    AllGiven(pieces);
    d.r.AheadMore([], []);
    NoMore(d.r.Unread());
    EndsWaiting(small, s, output, d.Rest(d.r.Unread()), roomLeft);
  }

  /** A call replied with the end of the stream or an error. */
  lemma EndOfRun(d: D.Decompressor, ret: D.Ret, was: Stream, before: seq<byte>, out: seq<byte>, more: seq<bool>)
    requires d.Valid() && d.Replied(ret, was, out, more) && ret != D.BzOk
    ensures forall left: bool :: Outcome(d.small, ret, Behind(before, was), before + out, left)
  {
  }

  /** A call replied with BZ_OK. */
  lemma StillRunning(d: D.Decompressor, was: Stream, out: seq<byte>, more: seq<bool>)
    requires d.Valid() && d.Replied(D.BzOk, was, out, more)
    ensures d.Live() && d.r.Valid() && was == Behind(out, d.Rest(d.r.Ahead(more)))
    ensures d.availOut > 0 ==> d.r.input == [] && d.Rest(d.r.Unread()) == Stream([], Starving)
  {
  }

  lemma NothingBefore(s: Stream)
    ensures Behind([], s) == s
  {
    BehindBehind([], [], s);
  }

  lemma BeginsWith(bits: seq<bool>, unread: seq<bool>)
    requires unread == []
    ensures unread + bits == bits
  {
  }

  lemma WholeOf(out: seq<byte>, output: seq<byte>)
    requires out <= output
    ensures out + output[|out|..] == output
  {
  }

  lemma AllGiven(pieces: seq<seq<byte>>)
    ensures BytesBits(Flat(pieces[|pieces|..])) == []
  {
  }

  lemma NoMore(bits: seq<bool>)
    ensures bits + [] == bits
  {
  }

  lemma EndsWaiting(small: bool, s: Stream, output: seq<byte>, rest: Stream, roomLeft: bool)
    requires s == Behind(output, rest) && (roomLeft ==> rest == Stream([], Starving))
    ensures Outcome(small, D.BzOk, s, output, roomLeft)
  {
    assert output + [] == output;
  }

  /** The whole input at once, fetched with room for a few bytes at a time: the run comes to its end. */
  method DecompressAll(small: bool, bytes: seq<byte>, room: nat) returns (ret: D.Ret, output: seq<byte>)
    requires room > 0
    ensures Outcome(small, ret, ReadStream(BytesBits(bytes)), output, true)
  {
    hide *;
    var d := new D.Decompressor(small);
    ghost var s := ReadStream(BytesBits(bytes));
    NothingBefore(s);
    d.LiveIs();
    d.r.AheadMore(BytesBits(bytes), []);
    BeginsWith(BytesBits(bytes), d.r.Unread());
    NoMore(BytesBits(bytes));
    d.Provide(bytes, room, []);
    d.LiveIs();
    while true
      invariant d.Valid() && d.Live() && d.r.Valid() && fresh(d.Repr) && d.small == small && d.availOut == room
      invariant s == Behind(d.output, d.Rest(d.r.Ahead([])))
      decreases |s.data| - |d.output|
    {
      d.LiveIs();
      ghost var was, out := d.Rest(d.r.Ahead([])), d.output;
      ret := d.BzDecompress([]);
      ghost var part := d.output[|out|..];
      WholeOf(out, d.output);
      if ret != D.BzOk {
        EndOfRun(d, ret, was, out, part, []);
        return ret, d.output;
      }
      StillRunning(d, was, part, []);
      BehindBehind(out, part, d.Rest(d.r.Ahead([])));
      output := d.output;
      if d.availOut > 0 {
        d.r.AheadMore([], []);
        NoMore(d.r.Unread());
        EndsWaiting(small, s, output, d.Rest(d.r.Unread()), true);
        return;
      }
      AtMost(s, output, d.Rest(d.r.Ahead([])));
      NoInput();
      d.Provide([], room, []);
      d.LiveIs();
    }
  }

  lemma AtMost(s: Stream, output: seq<byte>, rest: Stream)
    requires s == Behind(output, rest)
    ensures |output| <= |s.data|
  {
  }

  lemma NoInput()
    ensures BytesBits([]) + [] == []
  {
  }

  /** Whatever the calls were that a compressor was given, once it has ended its stream its output decompresses to the bytes it consumed. */
  method Restore(c: C.Compressor, small: bool, room: nat) returns (output: seq<byte>)
    requires c.Valid() && c.mode.Idle? && room > 0
    ensures output == c.consumed
  {
    hide *;
    c.Complete();
    var ret;
    ret, output := DecompressAll(small, c.output, room);
    WholeOutcome(small, ret, c.consumed, c.pad, output);
  }

  lemma WholeOutcome(small: bool, ret: D.Ret, data: seq<byte>, pad: seq<bool>, output: seq<byte>)
    requires Outcome(small, ret, Stream(data, Whole(pad)), output, true)
    ensures ret == D.BzStreamEnd && output == data
  {
  }

  lemma FlatPieces(before: seq<byte>, pieces: seq<seq<byte>>, k: nat)
    requires k < |pieces|
    ensures before + Flat(pieces[k..]) == before + pieces[k] + Flat(pieces[k + 1..])
  {
    assert pieces[k..][1..] == pieces[k + 1..];
  }

  /** One piece is taken, in as many calls as the rooms for output make of it; call k has room for room(k) bytes. */
  method CompressPiece(c: C.Compressor, piece: seq<byte>, room: nat -> nat, from: nat) returns (k: nat)
    requires c.Valid() && c.mode.Running? && c.input == [] && forall i :: room(i) > 0
    modifies c, c.packer, c.packer.block, c.packer.inUse, c.w, c.w.zbits
    ensures c.Valid() && c.mode.Running? && c.input == [] && c.consumed == old(c.consumed) + piece
  {
    hide *;
    k := from;
    c.Provide(piece, 0);
    JustThePiece(old(c.consumed), piece);
    while c.input != []
      invariant c.Valid() && c.mode.Running? && c.consumed + c.input == old(c.consumed) + piece
      decreases |c.input|, c.w.numZ - c.stateOutPos
    {
      ghost var size, pending := |c.input|, c.w.numZ - c.stateOutPos;
      RunOnce(c, room(k));
      c.NearerIs(size, false, pending);
      k := k + 1;
    }
    JustThePiece(c.consumed, []);
  }

  /** One call with the action BZ_RUN, with input left and room for output. */
  method RunOnce(c: C.Compressor, room: nat)
    requires c.Valid() && c.mode.Running? && c.input != [] && room > 0
    modifies c, c.packer, c.packer.block, c.packer.inUse, c.w, c.w.zbits
    ensures c.Valid() && c.mode.Running? && c.consumed + c.input == old(c.consumed + c.input)
    ensures 0 <= c.stateOutPos <= c.w.numZ && |c.input| <= |old(c.input)|
    ensures c.Nearer(|old(c.input)|, false, old(c.w.numZ - c.stateOutPos)) && !c.closed
  {
    hide *;
    ghost var was, consumed := c.input, c.consumed;
    c.NotIdle();
    c.Provide([], room);
    NothingMore(was);
    var ret := c.BzCompress(C.Run);
    TakenAll(consumed, was, c.input);
    c.NotIdle();
    c.OutputParts();
  }

  lemma JustThePiece(before: seq<byte>, piece: seq<byte>)
    ensures [] + piece == piece && before + [] == before
  {
  }

  lemma NothingMore(input: seq<byte>)
    ensures input + [] == input
  {
  }

  lemma TakenAll(before: seq<byte>, was: seq<byte>, now: seq<byte>)
    requires |now| <= |was| && was == was[..|was| - |now|] + now
    ensures before + was[..|was| - |now|] + now == before + was
  {
  }

  /** What has been taken is flushed, in as many calls as the rooms for output make of it. */
  method FlushStream(c: C.Compressor, room: nat -> nat, from: nat) returns (k: nat)
    requires c.Valid() && c.mode.Running? && c.input == [] && forall i :: room(i) > 0
    modifies c, c.packer, c.packer.block, c.packer.inUse, c.w, c.w.zbits
    ensures c.Valid() && c.mode.Running? && c.input == [] && c.consumed == old(c.consumed) == AllData(c.pieces)
  {
    hide *;
    var ret := C.FlushOk;
    k := from;
    while ret == C.FlushOk
      invariant c.Valid() && (if ret == C.FlushOk then c.mode.Running? || (c.mode.Flushing? && c.availInExpect == |c.input|)
                              else c.mode.Running? && c.consumed == AllData(c.pieces))
      invariant c.input == [] && c.consumed == old(c.consumed)
      decreases ret == C.FlushOk, c.packer.state_in_ch < 256, c.state.Input?, c.w.numZ - c.stateOutPos
    {
      c.OutputParts();
      ghost var run, filling, pending, consumed := c.packer.state_in_ch < 256, c.state.Input?, c.w.numZ - c.stateOutPos, c.consumed;
      c.Provide([], room(k));
      k := k + 1;
      NothingMore([]);
      ret := c.BzCompress(C.Flush);
      c.FlushNearerIs(0, run, filling, pending);
      TakenAll(consumed, [], c.input);
    }
  }

  /**
   A whole run of the compressor: every piece is given to it, some of them followed by a flush, and then the stream is finished, with room
   for room(k) bytes of output in call k. However the rooms are chosen, as long as there is some in every call, the run ends.
   */
  method CompressAll(level: nat, workFactor: int, pieces: seq<seq<byte>>, flush: nat -> bool, room: nat -> nat) returns (c: C.Compressor)
    requires 1 <= level <= 9 && forall i :: room(i) > 0
    ensures c.Valid() && c.mode.Idle? && c.consumed == Flat(pieces) && c.level == level
  {
    hide *;
    c := new C.Compressor(level, workFactor);
    NonePassed(pieces);
    var k, j: nat := 0, 0;
    while j < |pieces|
      invariant j <= |pieces| && c.Valid() && c.mode.Running? && c.input == [] && Flat(pieces) == c.consumed + Flat(pieces[j..])
      invariant fresh(c) && fresh(c.packer) && fresh(c.packer.block) && fresh(c.packer.inUse) && fresh(c.w) && fresh(c.w.zbits)
    {
      FlatPieces(c.consumed, pieces, j);
      k := CompressPiece(c, pieces[j], room, k);
      if flush(j) { k := FlushStream(c, room, k); }
      j := j + 1;
    }
    AllPieces(c.consumed, pieces);
    FinishStream(c, room, k);
  }

  lemma NonePassed(pieces: seq<seq<byte>>)
    ensures [] + Flat(pieces[0..]) == Flat(pieces)
  {
    assert pieces[0..] == pieces;
  }

  lemma AllPieces(before: seq<byte>, pieces: seq<seq<byte>>)
    ensures before + Flat(pieces[|pieces|..]) == before
  {
  }

  /** The stream is finished, in as many calls as the rooms for output make of it. */
  method FinishStream(c: C.Compressor, room: nat -> nat, from: nat)
    requires c.Valid() && c.mode.Running? && c.input == [] && forall i :: room(i) > 0
    modifies c, c.packer, c.packer.block, c.packer.inUse, c.w, c.w.zbits
    ensures c.Valid() && c.mode.Idle? && c.consumed == old(c.consumed)
  {
    hide *;
    var k, ret := from, C.FinishOk;
    while ret == C.FinishOk
      invariant c.Valid() && (if ret == C.FinishOk then c.mode.Running? || c.Goes() else ret == C.StreamEnd && c.mode.Idle?)
      invariant c.input == [] && c.consumed == old(c.consumed)
      decreases ret == C.FinishOk, !c.closed, c.w.numZ - c.stateOutPos
    {
      c.OutputParts();
      ghost var closed, pending, consumed := c.closed, c.w.numZ - c.stateOutPos, c.consumed;
      c.Provide([], room(k));
      k := k + 1;
      NothingMore([]);
      ret := c.BzCompress(C.Finish);
      c.NearerIs(0, closed, pending);
      TakenAll(consumed, [], c.input);
    }
  }

  /** Any data, compressed in pieces, with flushes anywhere and rooms of any sizes, come back from either form of the decompressor. */
  method ThereAndBack(level: nat, workFactor: int, pieces: seq<seq<byte>>, flush: nat -> bool, room: nat -> nat, small: bool, roomBack: nat)
      returns (output: seq<byte>)
    requires 1 <= level <= 9 && roomBack > 0 && forall i :: room(i) > 0
    ensures output == Flat(pieces)
  {
    var c := CompressAll(level, workFactor, pieces, flush, room);
    output := Restore(c, small, roomBack);
  }
}
