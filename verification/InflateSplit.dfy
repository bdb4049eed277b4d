/** inflate within a block, for every division of the input and of the room among calls, every window and every history. */
module InflateSplit {
  import opened Bits
  import opened InflateSpec
  import opened InflateInput
  import opened InflateLookUp
  import opened InflateState
  import opened InflateFast
  import opened InflateBlock

  /**
   From p to q through any calls: what calls for every single byte would do has not been done too little of, and what one call for all
   would do has not been done too much of.
   */
  ghost predicate Along(cs: Codes, p: Point, q: Point) {
    Onward(p, q) && PastStop(cs, Each, p, q) && BeforeEnd(cs, From(|p.hist|), p, q)
  }

  lemma AlongOn(cs: Codes, l: Limits, p: Point, q: Point, r: Point)
    requires Along(cs, p, q) && Reaches(cs, l, q, r) && l.start == |q.hist|
    ensures Along(cs, p, r)
  {
    hide PastStop, BeforeEnd;
    ReachesIs(cs, l, q, r);
    OnwardOn(p, q, r);
    PastOn(cs, Each, p, q, r);
    BeforeOn(cs, From(|p.hist|), p, q, r);
  }

  lemma AlongItself(cs: Codes, p: Point)
    ensures Along(cs, p, p)
  {
    hide Whole;
  }

  lemma ReachesMore(cs: Codes, l: Limits, p: Point, q: Point, x: seq<bool>)
    requires Reaches(cs, l, p, q)
    ensures Reaches(cs, l, p.(unread := p.unread + x), q.(unread := q.unread + x))
  {
    hide *;
    var p', q' := p.(unread := p.unread + x), q.(unread := q.unread + x);
    ReachesIs(cs, l, p, q);
    OnwardMore(p, q, x);
    PastMore(cs, Each, p, q, x);
    PastMore(cs, OfCall(l), p, q, x);
    BeforeMore(cs, OfCall(l), p, q, x);
    forall n: nat | n <= l.start
      ensures BeforeEnd(cs, From(n), p', q')
    {
      BeforeMore(cs, From(n), p, q, x);
    }
    ReachesIs(cs, l, p', q');
  }

  lemma OnwardMore(p: Point, q: Point, x: seq<bool>)
    requires Onward(p, q)
    ensures Onward(p.(unread := p.unread + x), q.(unread := q.unread + x))
  {
  }

  lemma WholeMore(cs: Codes, reach: Reach, p: Point, x: seq<bool>, more: seq<bool>)
    ensures Whole(cs, reach, p.(unread := p.unread + x), more) == Whole(cs, reach, p, x + more)
  {
    Associate(p.unread, x, more);
  }

  lemma PastMore(cs: Codes, reach: Reach, p: Point, q: Point, x: seq<bool>)
    requires PastStop(cs, reach, p, q)
    ensures PastStop(cs, reach, p.(unread := p.unread + x), q.(unread := q.unread + x))
  {
    hide Whole;
    var p', q' := p.(unread := p.unread + x), q.(unread := q.unread + x);
    forall more
      ensures || Whole(cs, reach, q', more) == Whole(cs, reach, p', more)
              || (Whole(cs, reach, p', more).ending.Beyond? && Whole(cs, reach, p', more).out <= q'.hist)
    {
      WholeMore(cs, reach, p, x, more);
      WholeMore(cs, reach, q, x, more);
      assert Whole(cs, reach, q, x + more) == Whole(cs, reach, p, x + more)
             || (Whole(cs, reach, p, x + more).ending.Beyond? && Whole(cs, reach, p, x + more).out <= q.hist);
    }
  }

  lemma BeforeMore(cs: Codes, reach: Reach, p: Point, q: Point, x: seq<bool>)
    requires BeforeEnd(cs, reach, p, q)
    ensures BeforeEnd(cs, reach, p.(unread := p.unread + x), q.(unread := q.unread + x))
  {
    hide Whole;
    var p', q' := p.(unread := p.unread + x), q.(unread := q.unread + x);
    forall more
      ensures || Whole(cs, reach, q', more) == Whole(cs, reach, p', more)
              || (q'.mode == Bad && q'.hist <= Whole(cs, reach, p', more).out)
    {
      WholeMore(cs, reach, p, x, more);
      WholeMore(cs, reach, q, x, more);
      assert Whole(cs, reach, q, x + more) == Whole(cs, reach, p, x + more)
             || (q.mode == Bad && q.hist <= Whole(cs, reach, p, x + more).out);
    }
  }

  /** Where decoding stands between two calls, with all the bits that are still to come. */
  ghost function Rest(s: State, data: seq<byte>, c: nat): Point
    requires s.input.Valid() && c <= |data|
    reads s, s.input
  {
    Point(s.mode, s.input.Held() + ByteBits(data[c..]), s.hist)
  }

  lemma RestIs(s: State, data: seq<byte>, c: nat)
    requires s.input.Valid() && c <= |data|
    ensures Rest(s, data, c) == Point(s.mode, s.input.Held() + ByteBits(data[c..]), s.hist)
  {
  }

  /** Between two calls, when the first c bytes of the data have been taken. */
  ghost predicate Between(s: State, data: seq<byte>, c: nat)
    reads s, s.input, s.win, s.win.window
  {
    s.Valid() && s.input.Valid() && s.Keen() && s.put == 0 && c <= |data|
  }

  lemma BetweenIs(s: State, data: seq<byte>, c: nat)
    ensures Between(s, data, c) <==> s.Valid() && s.input.Valid() && s.Keen() && s.put == 0 && c <= |data|
  {
    hide CodesOk, ModeOk, IsKeen;
  }

  /** Decoding has come to its end. */
  ghost predicate Finished(cs: Codes, q: Point) {
    q.mode == Type || q.mode == Bad || Starving(cs, q)
  }

  /** One call, with as many of the bytes that are left as take says, and with room for so many more. */
  method Call(s: State, data: seq<byte>, c: nat, take: nat, room: nat) returns (c': nat, part: seq<byte>)
    requires Between(s, data, c)
    modifies s, s.input, s.win, s.win.window
    ensures Between(s, data, c') && c <= c' <= |data| && s.hist == old(s.hist) + part && |part| <= room
    ensures Reaches(s.codes, Limits(room <= 1, |old(s.hist)|), old(Rest(s, data, c)), Rest(s, data, c'))
    ensures Finished(s.codes, Rest(s, data, c')) || |part| == room || (take < |data| - c && c' == c + take)
  {
    hide *;
    BetweenIs(s, data, c);
    RestIs(s, data, c);
    var end := if take < |data| - c then c + take else |data|;
    ghost var hist, x := s.hist, ByteBits(data[end..]);
    ghost var q := Point(s.mode, s.input.Held() + ByteBits(data[c..end]), s.hist);
    ByteBitsAppend(data[c..end], data[end..]);
    assert data[c..] == data[c..end] + data[end..];
    Associate(s.input.Held(), ByteBits(data[c..end]), x);
    var buffer := new byte[room];
    s.ValidIs();
    var n, reply := Inflate(s, data[c..end], buffer);
    c' := c + s.input.next;
    part := buffer[..n];
    s.ValidIs();
    ghost var r := Point(s.mode, s.input.Unread(), s.hist);
    ReachesMore(s.codes, Limits(room <= 1, |hist|), q, r, x);
    LeftOver(s.input, data, c, end);
    BetweenIs(s, data, c');
    LeftIs(s.codes, r, n == room, s.input.next == end - c);
    RestIs(s, data, c');
    Counted(s.input);
    FinishedIs(s.codes, Rest(s, data, c'));
    if c' == |data| {
      AllTaken(s, data, c');
    }
  }

  lemma FinishedIs(cs: Codes, q: Point)
    ensures Finished(cs, q) <==> q.mode == Type || q.mode == Bad || Starving(cs, q)
  {
    hide Starving;
  }

  lemma AllTaken(s: State, data: seq<byte>, c: nat)
    requires s.input.Valid() && c == |data| && s.input.next == |s.input.input|
    ensures Rest(s, data, c) == Point(s.mode, s.input.Unread(), s.hist)
  {
    s.input.HeldValue();
    assert data[c..] == [] && ByteBits([]) == [];
    assert s.input.Held() + [] == s.input.Held() == s.input.Unread();
  }

  /** What is not taken of one piece comes before the next. */
  lemma LeftOver(i: BitIn, data: seq<byte>, c: nat, end: nat)
    requires i.Valid() && c <= end <= |data| && i.input == data[c..end]
    ensures c + i.next <= end
    ensures i.Unread() + ByteBits(data[end..]) == i.Held() + ByteBits(data[c + i.next..])
  {
    UnreadIs(i);
    hide *;
    assert i.input[i.next..] == data[c + i.next..end];
    ByteBitsAppend(data[c + i.next..end], data[end..]);
    assert data[c + i.next..] == data[c + i.next..end] + data[end..];
    Associate(i.Held(), ByteBits(data[c + i.next..end]), ByteBits(data[end..]));
  }

  // The outcomes.

  /** What the bits mean when every byte is put out by a call of its own, so that only the window is kept. */
  function Narrow(cs: Codes, p: Point): Result {
    Run(cs, Each, p.mode, p.unread, p.hist)
  }

  /** What the bits mean when everything is put out by one call. */
  function Wide(cs: Codes, p: Point): Result {
    Run(cs, From(|p.hist|), p.mode, p.unread, p.hist)
  }

  /**
   The two meanings are the same, or a distance that goes back further than the window ends the narrow one first. With a history that the
   window holds, they are the same exactly when no distance does.
   */
  lemma Meanings(cs: Codes, p: Point)
    ensures Narrow(cs, p) == Wide(cs, p) || (Narrow(cs, p).ending.Beyond? && Narrow(cs, p).out < Wide(cs, p).out)
    ensures |p.hist| <= cs.window ==> (Narrow(cs, p) == Wide(cs, p) <==> !Narrow(cs, p).ending.Beyond?)
    ensures CodesOk(cs) && ModeOk(p.mode) && cs.window >= 32768 ==> Narrow(cs, p) == Wide(cs, p) && !Wide(cs, p).ending.Beyond?
  {
    LessStops(cs, From(|p.hist|), Each, p.mode, p.unread, p.hist);
    if |p.hist| <= cs.window {
      NothingLost(cs, |p.hist|, p.mode, p.unread, p.hist);
    }
    if CodesOk(cs) && ModeOk(p.mode) && cs.window >= 32768 {
      NeverBeyond(cs, Each, p.mode, p.unread, p.hist);
      NeverBeyond(cs, From(|p.hist|), p.mode, p.unread, p.hist);
    }
  }

  lemma WholeNow(cs: Codes, reach: Reach, p: Point)
    ensures Whole(cs, reach, p, []) == Behind(p.hist, Run(cs, reach, p.mode, p.unread, p.hist))
  {
    assert p.unread + [] == p.unread;
  }

  lemma FinishedRun(cs: Codes, reach: Reach, q: Point)
    requires Finished(cs, q)
    ensures Run(cs, reach, q.mode, q.unread, q.hist).out == []
    ensures q.mode == Type ==> Run(cs, reach, q.mode, q.unread, q.hist).ending == EndOfBlock(q.unread)
    ensures q.mode == Bad ==> Run(cs, reach, q.mode, q.unread, q.hist).ending == Invalid(q.unread)
    ensures q.mode != Type && q.mode != Bad ==> Run(cs, reach, q.mode, q.unread, q.hist).ending == Starved
  {
    hide Starving;
    if q.mode != Type && q.mode != Bad { StarvingRun(cs, reach, q); }
  }

  /** Whatever does not stop for a distance is followed to the point q. */
  lemma PastNow(cs: Codes, reach: Reach, p: Point, q: Point, out: seq<byte>)
    requires PastStop(cs, reach, p, q) && q.hist == p.hist + out
    ensures var r := Run(cs, reach, p.mode, p.unread, p.hist);
            || r == Behind(out, Run(cs, reach, q.mode, q.unread, q.hist))
            || (r.ending.Beyond? && r.out <= out)
  {
    hide Run;
    WholeNow(cs, reach, p);
    WholeNow(cs, reach, q);
    var r, r' := Run(cs, reach, p.mode, p.unread, p.hist), Run(cs, reach, q.mode, q.unread, q.hist);
    assert || Whole(cs, reach, q, []) == Whole(cs, reach, p, [])
           || (Whole(cs, reach, p, []).ending.Beyond? && Whole(cs, reach, p, []).out <= q.hist);
    Cut(p.hist, out, r, r');
  }

  lemma BeforeNow(cs: Codes, reach: Reach, p: Point, q: Point, out: seq<byte>)
    requires BeforeEnd(cs, reach, p, q) && q.hist == p.hist + out
    ensures var r := Run(cs, reach, p.mode, p.unread, p.hist);
            || r == Behind(out, Run(cs, reach, q.mode, q.unread, q.hist))
            || (q.mode == Bad && out <= r.out)
  {
    hide Run;
    WholeNow(cs, reach, p);
    WholeNow(cs, reach, q);
    var r, r' := Run(cs, reach, p.mode, p.unread, p.hist), Run(cs, reach, q.mode, q.unread, q.hist);
    assert Whole(cs, reach, q, []) == Whole(cs, reach, p, []) || (q.mode == Bad && q.hist <= Whole(cs, reach, p, []).out);
    Cut(p.hist, out, r, r');
  }

  lemma Cut(h: seq<byte>, out: seq<byte>, r: Result, r': Result)
    ensures Behind(h + out, r') == Behind(h, r) ==> r == Behind(out, r')
    ensures h + r.out <= h + out ==> r.out <= out
    ensures h + out <= h + r.out ==> out <= r.out
  {
    if Behind(h + out, r') == Behind(h, r) {
      assert (h + out + r'.out)[|h|..] == out + r'.out && (h + r.out)[|h|..] == r.out;
    }
    if h + r.out <= h + out {
      assert r.out == (h + r.out)[|h|..] == (h + out)[|h|..|h| + |r.out|] == out[..|r.out|];
    }
    if h + out <= h + r.out {
      assert out == (h + out)[|h|..] == (h + r.out)[|h|..|h| + |out|] == r.out[..|out|];
    }
  }

  /**
   Any calls at all: what they put out is the beginning of the wide meaning. When they have come to their end, it is at least the narrow
   meaning; without an error it is the wide meaning, and with one it is the narrow meaning unless a distance goes beyond the window.
   */
  lemma Outcome(cs: Codes, p: Point, q: Point, out: seq<byte>)
    requires Along(cs, p, q) && q.hist == p.hist + out
    ensures out <= Wide(cs, p).out
    ensures Finished(cs, q) ==> Narrow(cs, p).out <= out
    ensures q.mode == Type ==> Wide(cs, p) == Result(out, EndOfBlock(q.unread))
    ensures q.mode == Bad ==> Narrow(cs, p) == Result(out, Invalid(q.unread)) || Narrow(cs, p).ending.Beyond?
    ensures Starving(cs, q) && q.mode != Type && q.mode != Bad ==> Wide(cs, p) == Result(out, Starved)
    ensures Narrow(cs, p) == Wide(cs, p) && Finished(cs, q) ==> out == Wide(cs, p).out
  {
    hide Run, PastStop, BeforeEnd, Starving;
    PastNow(cs, Each, p, q, out);
    BeforeNow(cs, From(|p.hist|), p, q, out);
    Meanings(cs, p);
    if Finished(cs, q) {
      FinishedRun(cs, Each, q);
      FinishedRun(cs, From(|p.hist|), q);
      assert out + [] == out;
    }
  }

  /** Through calls that all go by one way of keeping the history, the end is exactly what this way gives. */
  lemma OutcomeExact(cs: Codes, reach: Reach, p: Point, q: Point, out: seq<byte>)
    requires PastStop(cs, reach, p, q) && BeforeEnd(cs, reach, p, q) && q.hist == p.hist + out && Finished(cs, q)
    ensures var r := Run(cs, reach, p.mode, p.unread, p.hist);
            && r.out == out
            && (q.mode == Type <==> r.ending.EndOfBlock?) && (q.mode == Bad <==> r.ending.Invalid? || r.ending.Beyond?)
            && (q.mode == Type ==> r.ending == EndOfBlock(q.unread))
  {
    hide Run, PastStop, BeforeEnd, Starving;
    PastNow(cs, reach, p, q, out);
    BeforeNow(cs, reach, p, q, out);
    FinishedRun(cs, reach, q);
    assert out + [] == out;
  }

  /** A block can begin behind any history, with any bits held of the byte before. */
  method Begin(cs: Codes, wbits: nat, h: seq<byte>, b: byte, k: nat, ghost data: seq<byte>) returns (s: State)
    requires CodesOk(cs) && cs.window == Pow2(wbits) && k < 8
    ensures fresh(s) && fresh(s.input) && fresh(s.win) && fresh(s.win.window) && s.codes == cs
    ensures Between(s, data, 0) && Rest(s, data, 0) == Point(Len, ByteBits([b])[8 - k..] + ByteBits(data), h)
  {
    hide *;
    s := new State(cs, wbits);
    s.ValidIs();
    NowIs(s);
    var buffer := new byte[|h|](i requires 0 <= i < |h| => h[i]);
    assert buffer[..|h|] == h && [] + h == h;
    s.win.Update(buffer, |h|, []);
    s.hist := h;
    s.input.Provide([b]);
    Counted(s.input);
    s.input.PullByte();
    s.input.DropBits(8 - k);
    s.ValidIs();
    KeenMeans(s);
    FewKeen(s.codes, s.mode, s.input.bits, s.input.Held());
    BetweenIs(s, data, 0);
    RestIs(s, data, 0);
    OneHeld(s.input, b, k);
    assert data[0..] == data;
  }

  lemma FewKeen(cs: Codes, m: Mode, bits: nat, held: seq<bool>)
    requires bits < 8
    ensures IsKeen(cs, m, bits, held)
  {
  }

  lemma OneHeld(i: BitIn, b: byte, k: nat)
    requires i.Valid() && k < 8 && i.bits == k && |i.input| == i.next && i.Unread() == ([] + ByteBits([b]))[8 - k..]
    ensures i.Held() == ByteBits([b])[8 - k..]
  {
    i.HeldValue();
    assert [] + ByteBits([b]) == ByteBits([b]);
  }

  /** How much of the input a call is given, and how much room. */
  datatype Share = Share(take: nat, room: nat)

  /** Any calls at all, from within any block. */
  method InflateShares(s: State, data: seq<byte>, shares: seq<Share>) returns (output: seq<byte>, c: nat)
    requires Between(s, data, 0)
    modifies s, s.input, s.win, s.win.window
    ensures Between(s, data, c) && s.hist == old(s.hist) + output && Along(s.codes, old(Rest(s, data, 0)), Rest(s, data, c))
    ensures var p, q := old(Rest(s, data, 0)), Rest(s, data, c);
            && output <= Wide(s.codes, p).out
            && (Finished(s.codes, q) ==> Narrow(s.codes, p).out <= output)
            && (s.mode == Type ==> Wide(s.codes, p) == Result(output, EndOfBlock(q.unread)))
            && (s.mode == Bad ==> Narrow(s.codes, p) == Result(output, Invalid(q.unread)) || Narrow(s.codes, p).ending.Beyond?)
            && (Narrow(s.codes, p) == Wide(s.codes, p) && Finished(s.codes, q) ==> output == Wide(s.codes, p).out)
  {
    hide *;
    BetweenIs(s, data, 0);
    RestIs(s, data, 0);
    ghost var p, hist := Rest(s, data, 0), s.hist;
    AlongItself(s.codes, p);
    c, output := 0, [];
    assert s.hist == hist + output;
    var i := 0;
    while i < |shares|
      invariant Between(s, data, c) && s.input.Valid() && c <= |data| && s.hist == hist + output
      invariant Along(s.codes, p, Rest(s, data, c))
    {
      ghost var q, was := Rest(s, data, c), s.hist;
      RestIs(s, data, c);
      var part;
      c, part := Call(s, data, c, shares[i].take, shares[i].room);
      BetweenIs(s, data, c);
      AlongOn(s.codes, Limits(shares[i].room <= 1, |was|), p, q, Rest(s, data, c));
      Associate(hist, output, part);
      output := output + part;
      i := i + 1;
    }
    RestIs(s, data, c);
    Outcome(s.codes, p, Rest(s, data, c), output);
  }

  /**
   Calls until the block ends, is invalid, or runs out of bits, each with take bytes of input and the same room. They come to an end; what
   they put out lies between the narrow meaning and the wide one, and with room for one byte it is exactly the narrow one.
   */
  method InflateAll(s: State, data: seq<byte>, take: nat, room: nat) returns (output: seq<byte>, c: nat)
    requires Between(s, data, 0) && take > 0 && room > 0
    modifies s, s.input, s.win, s.win.window
    ensures Between(s, data, c) && s.hist == old(s.hist) + output && Finished(s.codes, Rest(s, data, c))
    ensures var p, q := old(Rest(s, data, 0)), Rest(s, data, c);
            && Narrow(s.codes, p).out <= output <= Wide(s.codes, p).out
            && (s.mode == Type ==> Wide(s.codes, p) == Result(output, EndOfBlock(q.unread)))
            && (s.mode == Bad ==> Narrow(s.codes, p) == Result(output, Invalid(q.unread)) || Narrow(s.codes, p).ending.Beyond?)
            && (Narrow(s.codes, p) == Wide(s.codes, p) ==> Exactly(s.mode, output, Wide(s.codes, p)))
            && (room == 1 ==> Exactly(s.mode, output, Narrow(s.codes, p)))
  {
    hide *;
    BetweenIs(s, data, 0);
    RestIs(s, data, 0);
    ghost var p, hist := Rest(s, data, 0), s.hist;
    AlongItself(s.codes, p);
    EachItself(s.codes, p);
    c, output := 0, [];
    assert s.hist == hist + output;
    Outcome(s.codes, p, p, output);
    var done := false;
    while !done
      invariant Between(s, data, c) && s.input.Valid() && c <= |data| && s.hist == hist + output
      invariant Along(s.codes, p, Rest(s, data, c)) && (room == 1 ==> ByEach(s.codes, p, Rest(s, data, c)))
      invariant done ==> Finished(s.codes, Rest(s, data, c))
      invariant output <= Wide(s.codes, p).out
      decreases !done, |data| - c + |Wide(s.codes, p).out| - |output|
    {
      ghost var q, was := Rest(s, data, c), s.hist;
      RestIs(s, data, c);
      var c0 := c;
      var part;
      c, part := Call(s, data, c, take, room);
      BetweenIs(s, data, c);
      RestIs(s, data, c);
      AlongOn(s.codes, Limits(room <= 1, |was|), p, q, Rest(s, data, c));
      if room == 1 { EachOn(s.codes, |was|, p, q, Rest(s, data, c)); }
      Associate(hist, output, part);
      output := output + part;
      Outcome(s.codes, p, Rest(s, data, c), output);
      done := |part| < room && !(take < |data| - c0 && c == c0 + take);
    }
    RestIs(s, data, c);
    Outcome(s.codes, p, Rest(s, data, c), output);
    Ends(s.codes, p, Rest(s, data, c), output, room == 1);
  }

  /** An outcome as it can be seen: the bytes, and whether it is the end of the block, an error, or a lack of bits. */
  ghost predicate Exactly(mode: Mode, output: seq<byte>, r: Result) {
    && output == r.out
    && (mode == Type <==> r.ending.EndOfBlock?) && (mode == Bad <==> r.ending.Invalid? || r.ending.Beyond?)
  }

  /** From p to q as if every byte had a call of its own. */
  ghost predicate ByEach(cs: Codes, p: Point, q: Point) {
    PastStop(cs, Each, p, q) && BeforeEnd(cs, Each, p, q)
  }

  lemma EachItself(cs: Codes, p: Point)
    ensures ByEach(cs, p, p)
  {
    hide Whole;
  }

  lemma EachOn(cs: Codes, start: nat, p: Point, q: Point, r: Point)
    requires ByEach(cs, p, q) && Reaches(cs, Limits(true, start), q, r)
    ensures ByEach(cs, p, r)
  {
    hide PastStop, BeforeEnd, Onward;
    ReachesIs(cs, Limits(true, start), q, r);
    PastOn(cs, Each, p, q, r);
    BeforeOn(cs, Each, p, q, r);
  }

  lemma Ends(cs: Codes, p: Point, q: Point, out: seq<byte>, each: bool)
    requires Along(cs, p, q) && q.hist == p.hist + out && Finished(cs, q) && (each ==> ByEach(cs, p, q))
    ensures Narrow(cs, p) == Wide(cs, p) ==> Exactly(q.mode, out, Wide(cs, p))
    ensures each ==> Exactly(q.mode, out, Narrow(cs, p))
  {
    hide Run, PastStop, BeforeEnd, Starving;
    Meanings(cs, p);
    PastNow(cs, Each, p, q, out);
    BeforeNow(cs, From(|p.hist|), p, q, out);
    FinishedRun(cs, Each, q);
    FinishedRun(cs, From(|p.hist|), q);
    assert out + [] == out;
    if each { OutcomeExact(cs, Each, p, q, out); }
  }

  /** One call with all the input, and with more room than it takes: exactly the wide meaning. */
  method InflateOnce(s: State, data: seq<byte>, room: nat) returns (output: seq<byte>, c: nat)
    requires Between(s, data, 0) && room >= 2
    modifies s, s.input, s.win, s.win.window
    ensures Between(s, data, c) && s.hist == old(s.hist) + output
    ensures var r := Wide(s.codes, old(Rest(s, data, 0)));
            |r.out| < room ==> Finished(s.codes, Rest(s, data, c)) && Exactly(s.mode, output, r)
  {
    hide *;
    BetweenIs(s, data, 0);
    RestIs(s, data, 0);
    ghost var p, hist := Rest(s, data, 0), s.hist;
    c, output := Call(s, data, 0, |data|, room);
    BetweenIs(s, data, c);
    RestIs(s, data, c);
    ghost var q := Rest(s, data, c);
    ReachesIs(s.codes, Limits(false, |hist|), p, q);
    OnceIs(s.codes, p, q, output, |hist|, room);
  }

  lemma OnceIs(cs: Codes, p: Point, q: Point, out: seq<byte>, start: nat, room: nat)
    requires start == |p.hist| && q.hist == p.hist + out && (Finished(cs, q) || |out| == room)
    requires PastStop(cs, OfCall(Limits(false, start)), p, q) && BeforeEnd(cs, OfCall(Limits(false, start)), p, q)
    ensures |Wide(cs, p).out| < room ==> Finished(cs, q) && Exactly(q.mode, out, Wide(cs, p))
  {
    hide Run, PastStop, BeforeEnd, Finished;
    BeforeNow(cs, From(start), p, q, out);
    if |Wide(cs, p).out| < room {
      OutcomeExact(cs, From(start), p, q, out);
    }
  }

  lemma MeaningsAre(cs: Codes, p: Point)
    ensures Narrow(cs, p) == Run(cs, Each, p.mode, p.unread, p.hist)
    ensures Wide(cs, p) == Run(cs, From(|p.hist|), p.mode, p.unread, p.hist)
  {
  }

  lemma ExactlyIs(mode: Mode, output: seq<byte>, r: Result)
    requires Exactly(mode, output, r)
    ensures output == r.out && (mode == Type <==> r.ending.EndOfBlock?) && (mode == Bad <==> r.ending.Invalid? || r.ending.Beyond?)
  {
  }
}
