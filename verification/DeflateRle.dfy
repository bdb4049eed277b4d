/** deflate_rle and deflate_huff (dep/zlib/deflate.c:1859-1965): matches of distance one only, or none. */
module DeflateRle {
  import opened Bits
  import opened Lz77
  import opened DeflateState
  import opened DeflateFill
  import opened DeflateMatch
  import opened DeflateTally
  import opened DeflateFast
  import opened DeflateTurns
  import opened DeflateOutput

  /** On by n bytes. */
  method Advance(s: Deflate, n: nat)
    requires Steady(s) && n <= s.lookahead
    modifies s`strstart, s`lookahead
    ensures Steady(s) && s.strstart == old(s.strstart) + n && s.lookahead == old(s.lookahead) - n && s.Seen() == old(s.Seen())
  {
    hide *;
    SteadyIs(s);
    s.ValidIs();
    s.SeenIs();
    s.strstart, s.lookahead := s.strstart + n, s.lookahead - n;
    s.SeenIs();
    s.ValidIs();
    SteadyIs(s);
  }

  /** How often the byte before strstart is repeated (dep/zlib/deflate.c:1882-1898). */
  method RunLength(s: Deflate) returns (length: nat)
    requires Steady(s) && s.lookahead >= 3 && 0 < s.strstart && s.strstart + 259 <= s.window.Length
    ensures length >= 3 ==> length <= 258 && length <= s.lookahead && Found(s.Seen(), s.strstart - 1, s.strstart, length)
    ensures LongestRun(s.window[..], s.strstart, s.lookahead, length)
  {
    hide *;
    SteadyIs(s);
    s.ValidIs();
    s.ShapeIs();
    s.SeenIs();
    ghost var w := s.window[..];
    var i := s.strstart;
    var prev := s.window[i - 1];
    length := 0;
    if prev == s.window[i] && prev == s.window[i + 1] && prev == s.window[i + 2] {
      length := 3;
      while prev == s.window[i + length] && length < 258
        invariant 3 <= length <= 258 && forall k :: i - 1 <= k < i + length ==> w[k] == prev
      {
        length := length + 1;
      }
      if length > s.lookahead { length := s.lookahead; }
      RunSame(w, i, length, prev);
      FoundIs(s.Seen(), i - 1, i, length);
    }
    RunIs(w, i, s.lookahead, length);
  }

  lemma RunSame(w: seq<byte>, i: nat, n: nat, b: byte)
    requires 0 < i && i + n <= |w| && forall k :: i - 1 <= k < i + n ==> w[k] == b
    ensures Same(w, i - 1, i, n)
  {
  }

  /** One turn of deflate_rle: the run at strstart is emitted as a match at distance one, or a literal. */
  method RleTurn(s: Deflate) returns (full: bool, ghost n: nat)
    requires Steady(s) && Emitted(s, 0) && s.lookahead > 0 && s.strstart + 259 <= s.window.Length
    modifies s`matchLength, s`lookahead, s`strstart, s`block
    ensures Steady(s) && Turned(s, full) && s.lookahead < old(s.lookahead)
    ensures if old(s.lookahead) >= 3 && old(s.strstart) > 0 then LongestRun(s.window[..], old(s.strstart), old(s.lookahead), n) else n == 0
    ensures s.block == old(s.block) + [if n > 0 then Pair(n, 1) else Literal(s.window[old(s.strstart)])]
    ensures var m := if n > 0 then n else 1; s.strstart == old(s.strstart) + m && s.lookahead == old(s.lookahead) - m
    ensures s.Seen() == old(s.Seen())
  {
    hide *;
    EmittedIs(s, 0);
    SteadyIs(s);
    s.ValidIs();
    s.SeenIs();
    s.matchLength := 0;
    s.SeenIs();
    s.ValidIs();
    SteadyIs(s);
    n := 0;
    if s.lookahead >= 3 && s.strstart > 0 {
      var length := RunLength(s);
      RunIs(s.window[..], s.strstart, s.lookahead, length);
      s.matchLength := length;
      n := length;
      s.SeenIs();
      s.ValidIs();
      SteadyIs(s);
    }
    if s.matchLength >= 3 {
      EmittedIs(s, 0);
      full := PutRun(s);
    } else {
      EmittedIs(s, 0);
      full := PutByte(s);
    }
  }

  method PutRun(s: Deflate) returns (full: bool)
    requires Steady(s) && Emitted(s, 0) && 3 <= s.matchLength <= 258 && s.matchLength <= s.lookahead && s.strstart > 0
    requires Found(s.Seen(), s.strstart - 1, s.strstart, s.matchLength)
    modifies s`matchLength, s`lookahead, s`strstart, s`block
    ensures Steady(s) && Turned(s, full) && s.lookahead < old(s.lookahead)
    ensures s.block == old(s.block) + [Pair(old(s.matchLength), 1)] && s.matchLength == 0 && s.Seen() == old(s.Seen())
    ensures s.strstart == old(s.strstart + s.matchLength) && s.lookahead == old(s.lookahead - s.matchLength)
  {
    hide *;
    SteadyIs(s);
    s.ValidIs();
    s.ShapeIs();
    s.SeenIs();
    EmittedIs(s, 0);
    FoundReal(s.Seen(), s.hist, s.strstart - 1, s.strstart, s.matchLength);
    ghost var q, p := |s.hist| - s.end + s.blockStart, |s.hist| - s.end + s.strstart;
    ToldIs(s.wsize, s.sent, s.block, s.hist, q, p);
    ToldPair(s.wsize, s.sent, s.block, s.hist, q, p, 1, s.matchLength);
    full := TallyDist(s, 1, s.matchLength - 3);
    s.SeenIs();
    s.ValidIs();
    SteadyIs(s);
    Advance(s, s.matchLength);
    SteadyIs(s);
    s.ValidIs();
    s.SeenIs();
    s.matchLength := 0;
    s.SeenIs();
    s.ValidIs();
    SteadyIs(s);
    TurnedIs(s, full);
  }

  method PutByte(s: Deflate) returns (full: bool)
    requires Steady(s) && Emitted(s, 0) && s.lookahead > 0
    modifies s`lookahead, s`strstart, s`block
    ensures Steady(s) && Turned(s, full) && s.lookahead == old(s.lookahead) - 1
    ensures s.strstart == old(s.strstart) + 1 && s.Seen() == old(s.Seen()) && old(s.strstart) < s.window.Length
    ensures s.block == old(s.block) + [Literal(s.window[old(s.strstart)])]
  {
    hide *;
    SteadyIs(s);
    s.ValidIs();
    s.ShapeIs();
    s.SeenIs();
    EmittedIs(s, 0);
    ghost var q, p := |s.hist| - s.end + s.blockStart, |s.hist| - s.end + s.strstart;
    ToldIs(s.wsize, s.sent, s.block, s.hist, q, p);
    SuffixOne(s.window[..], s.end, s.hist, s.strstart);
    ToldLiteral(s.wsize, s.sent, s.block, s.hist, q, p, s.window[s.strstart]);
    full := TallyLit(s, s.window[s.strstart]);
    s.SeenIs();
    s.ValidIs();
    SteadyIs(s);
    Advance(s, 1);
    TurnedIs(s, full);
  }

  /** Matches only with runs, and then only at distance one. */
  ghost predicate OnlyRuns(ts: seq<Token>, runs: bool) {
    forall t :: t in ts && t.Pair? ==> runs && t.distance == 1
  }

  lemma OnlyRunsMore(ts: seq<Token>, block: seq<Token>, t: Token, runs: bool)
    requires t.Pair? ==> runs && t.distance == 1
    ensures OnlyRuns(ts + block, runs) ==> OnlyRuns(ts + (block + [t]), runs)
  {
    Associate(ts, block, [t]);
  }

  /** One turn of either. */
  method RunOrByte(s: Deflate, runs: bool) returns (full: bool)
    requires Steady(s) && Emitted(s, 0) && s.lookahead > 0 && (runs ==> s.strstart + 259 <= s.window.Length)
    modifies s`matchLength, s`lookahead, s`strstart, s`block
    ensures Steady(s) && Turned(s, full) && s.lookahead < old(s.lookahead)
    ensures Turn(RunRule(runs), old(SnapOf(s)), SnapOf(s))
    ensures old(OnlyRuns(s.sent + s.block, runs)) ==> OnlyRuns(s.sent + s.block, runs)
  {
    hide *;
    SteadyIs(s);
    s.ValidIs();
    s.ShapeIs();
    s.SeenIs();
    SnapIs(s);
    ghost var snap, block, n := SnapOf(s), s.block, 0;
    if runs {
      full, n := RleTurn(s);
      if n > 0 { RunIs(snap.v.w, snap.i, snap.lookahead, n); }
    } else {
      full := HuffTurn(s);
    }
    OnlyRunsMore(s.sent, block, s.block[|block|], runs);
    Associate(s.sent, block, [s.block[|block|]]);
    SnapIs(s);
    RunTurnFrom(snap, SnapOf(s), runs, n);
  }

  /** One turn of either loop: it stops for want of input or of room, or the input is over. */
  method RunStep(s: Deflate, o: Output, flush: Flush, runs: bool) returns (stop: bool, over: bool, ghost path: seq<Snap>)
    requires Steady(s) && Emitted(s, 0) && o.Clear()
    modifies s`matchLength, s`matchStart, s`lookahead, s`strstart, s`insH, s`ins, s`top, s`far, s`block, s`sent, s`blockStart
    modifies s`next, s`hist, s`insert, s`end, s.window, s.prev, s.head, o
    ensures Steady(s) && Emitted(s, 0)
    ensures old(s.next) <= s.next <= |s.input| && s.hist == old(s.hist) + s.input[old(s.next)..s.next]
    ensures Stepped(s, o, flush, old(Left(s)), stop, over) && o.lastRank == old(o.lastRank)
    ensures !stop && !over ==> Left(s) < old(Left(s))
    ensures old(OnlyRuns(s.sent + s.block, runs)) ==> OnlyRuns(s.sent + s.block, runs)
    ensures Leads(RunRule(runs), old(SnapOf(s)), path, SnapOf(s)) && (!stop && !over ==> |path| == 2)
  {
    hide *;
    LeftIs(s);
    ghost var left, snap := Left(s), SnapOf(s);
    stop := LookAhead(s, flush, if runs then 259 else 1, 0);
    over := !stop && s.lookahead == 0;
    LeftIs(s);
    path := [SnapOf(s)];
    LeadsFirst(RunRule(runs), snap, SnapOf(s));
    if !stop && !over {
      var full := RunOrByte(s, runs);
      LeadsOn(RunRule(runs), snap, path, path[0], SnapOf(s));
      path := path + [SnapOf(s)];
      stop := FlushIfFull(s, o, full);
      LeftIs(s);
    }
    SteppedIs(s, o, flush, left, stop, over);
    AnsweredIs(s, o, NeedMore, flush, left);
  }

  /** The loop: it ends when it has to stop, or at the end of the input. */
  method RunSteps(s: Deflate, o: Output, flush: Flush, runs: bool) returns (stop: bool, ghost path: seq<Snap>)
    requires Steady(s) && Emitted(s, 0) && o.Clear()
    modifies s`matchLength, s`matchStart, s`lookahead, s`strstart, s`insH, s`ins, s`top, s`far, s`block, s`sent, s`blockStart
    modifies s`next, s`hist, s`insert, s`end, s.window, s.prev, s.head, o
    ensures Steady(s) && Emitted(s, 0)
    ensures old(s.next) <= s.next <= |s.input| && s.hist == old(s.hist) + s.input[old(s.next)..s.next]
    ensures Stepped(s, o, flush, old(Left(s)), stop, !stop) && o.lastRank == old(o.lastRank)
    ensures old(OnlyRuns(s.sent + s.block, runs)) ==> OnlyRuns(s.sent + s.block, runs)
    ensures path != [] && Path(RunRule(runs), path) && path[0] == old(SnapOf(s)) && path[|path| - 1] == SnapOf(s)
  {
    hide *;
    ghost var hist, next, left := s.hist, s.next, Left(s);
    SteadyIs(s);
    s.ValidIs();
    assert hist == hist + s.input[next..next];
    var over := false;
    stop := false;
    SteppedIs(s, o, flush, left, stop, over);
    path := [SnapOf(s)];
    PathFrom(RunRule(runs), SnapOf(s));
    while !stop && !over
      invariant Steady(s) && Emitted(s, 0)
      invariant next <= s.next <= |s.input| && s.hist == hist + s.input[next..s.next]
      invariant Stepped(s, o, flush, left, stop, over) && o.lastRank == old(o.lastRank)
      invariant old(OnlyRuns(s.sent + s.block, runs)) ==> OnlyRuns(s.sent + s.block, runs)
      invariant path != [] && Path(RunRule(runs), path) && path[0] == old(SnapOf(s)) && path[|path| - 1] == SnapOf(s)
      decreases !stop && !over, Left(s)
    {
      ghost var n, was, more := s.next, Left(s), [];
      SteppedIs(s, o, flush, left, stop, over);
      stop, over, more := RunStep(s, o, flush, runs);
      PathJoin(RunRule(runs), path, more, SnapOf(s));
      path := path + more;
      Pieces(hist, s.input, next, n, s.next);
      LeftIs(s);
      SteppedFrom(s, o, flush, left, was, stop, over);
    }
    SteppedIs(s, o, flush, left, stop, over);
    SteppedIs(s, o, flush, left, stop, !stop);
  }

  /** deflate_rle, or deflate_huff when there are to be no matches. The tokens are those of a path of turns from the state before. */
  method EncodeRuns(s: Deflate, o: Output, flush: Flush, runs: bool) returns (state: BlockState, ghost path: seq<Snap>)
    requires Steady(s) && Emitted(s, 0) && o.Clear()
    modifies s, s.window, s.prev, s.head, o
    ensures Steady(s) && Emitted(s, 0)
    ensures s.input == old(s.input) && old(s.next) <= s.next <= |s.input| && s.hist == old(s.hist) + s.input[old(s.next)..s.next]
    ensures state == NeedMore || (s.next == |s.input| && s.lookahead == 0 && s.block == [])
    ensures s.matchAvailable == old(s.matchAvailable) && s.finished == old(s.finished)
    ensures flush == Finish ==> state != BlockDone
    ensures flush != Finish ==> state != FinishDone && state != FinishStarted
    ensures o.lastRank == old(o.lastRank) && Answered(s, o, state, flush, old(Left(s)))
    ensures old(OnlyRuns(s.sent + s.block, runs)) ==> OnlyRuns(s.sent + s.block, runs)
    ensures path != [] && Path(RunRule(runs), path) && path[0] == old(SnapOf(s)) && s.sent + s.block == path[|path| - 1].tokens
  {
    hide *;
    ghost var left := Left(s);
    var stop;
    stop, path := RunSteps(s, o, flush, runs);
    SteppedIs(s, o, flush, left, stop, !stop);
    SnapIs(s);
    if stop { return NeedMore, path; }
    EmittedIs(s, 0);
    state := EndBlock(s, o, flush, 0);
    AnsweredIs(s, o, state, flush, left);
  }

  /** One turn of deflate_huff: a literal. */
  method HuffTurn(s: Deflate) returns (full: bool)
    requires Steady(s) && Emitted(s, 0) && s.lookahead > 0
    modifies s`matchLength, s`lookahead, s`strstart, s`block
    ensures Steady(s) && Turned(s, full) && s.lookahead < old(s.lookahead)
    ensures s.strstart == old(s.strstart) + 1 && s.lookahead == old(s.lookahead) - 1 && s.Seen() == old(s.Seen())
    ensures old(s.strstart) < s.window.Length && s.block == old(s.block) + [Literal(s.window[old(s.strstart)])]
  {
    hide *;
    EmittedIs(s, 0);
    SteadyIs(s);
    s.ValidIs();
    s.SeenIs();
    s.matchLength := 0;
    s.SeenIs();
    s.ValidIs();
    SteadyIs(s);
    EmittedIs(s, 0);
    full := PutByte(s);
  }
}
