/** deflate (dep/zlib/deflate.c:663-948) without header, trailer and the making of bits: any sequence of calls. */
module DeflateCalls {
  import opened Bits
  import opened Lz77
  import opened DeflateChains
  import opened DeflateState
  import opened DeflateFill
  import opened DeflateTally
  import opened DeflateFast
  import opened DeflateSlow
  import opened DeflateRle
  import opened DeflateOutput
  import opened DeflateTurns

  datatype Strategy = Default | Filtered | HuffmanOnly | Rle | Fixed

  datatype Reply = Ok | StreamEnd | BufError | StreamError

  /** Which of the three functions does the work: the strategy decides, and then the level. */
  datatype Way = Runs | Greedy | Lazy

  function WayOf(level: nat, strategy: Strategy): (way: Way)
    ensures strategy.HuffmanOnly? || strategy.Rle? ==> way == Runs
    ensures strategy.Default? || strategy.Filtered? || strategy.Fixed? ==> (way == Greedy <==> level <= 3) && (way == Lazy <==> level >= 4)
  {
    if strategy == HuffmanOnly || strategy == Rle then Runs else if level <= 3 then Greedy else Lazy
  }

  /** What each function needs between two calls. */
  ghost predicate Fit(s: Deflate, way: Way)
    reads s, s.window, s.prev, s.head
  {
    && Steady(s)
    && match way
       case Runs => Emitted(s, 0) && !s.matchAvailable
       case Greedy => Hashed(s) && Emitted(s, 0) && s.prevLength == 2 && s.matchLength < 3 && !s.matchAvailable
       case Lazy => Hashed(s) && Pending(s) && Emitted(s, Lag(s))
  }

  lemma FitIs(s: Deflate, way: Way)
    ensures Fit(s, way) <==>
            && Steady(s)
            && (way == Runs ==> Emitted(s, 0) && !s.matchAvailable)
            && (way == Greedy ==> Hashed(s) && Emitted(s, 0) && s.prevLength == 2 && s.matchLength < 3 && !s.matchAvailable)
            && (way == Lazy ==> Hashed(s) && Pending(s) && Emitted(s, Lag(s)))
  {
    hide Steady, Emitted, Hashed, Pending, Lag;
  }

  /** What the strategy rules out among the matches is not among the tokens, nor waiting to be one. */
  ghost predicate Kept(s: Deflate, way: Way, strategy: Strategy)
    reads s`sent, s`block, s`matchLength, s`matchStart, s`strstart
  {
    && (way == Runs ==> OnlyRuns(s.sent + s.block, strategy == Rle))
    && (way == Lazy ==> Picky(s, strategy == Filtered))
  }

  lemma KeptIs(s: Deflate, way: Way, strategy: Strategy)
    ensures Kept(s, way, strategy) <==>
            && (way == Runs ==> OnlyRuns(s.sent + s.block, strategy == Rle))
            && (way == Lazy ==> Picky(s, strategy == Filtered))
  {
    hide OnlyRuns, Picky;
  }

  /**
   What the strategies promise: with Z_HUFFMAN_ONLY there are no matches, with Z_RLE only those at distance one; from level 4 on a match of
   three bytes is at most 4096 back, and with Z_FILTERED no match has fewer than six bytes.
   */
  lemma KeptMeans(s: Deflate, level: nat, strategy: Strategy, t: Token)
    requires Kept(s, WayOf(level, strategy), strategy) && t in s.sent + s.block && t.Pair? && t.length >= 3
    ensures strategy != HuffmanOnly && (strategy == Rle ==> t.distance == 1)
    ensures level >= 4 && strategy != Rle ==> (t.length == 3 ==> t.distance <= 4096) && (strategy == Filtered ==> t.length >= 6)
  {
  }

  /** All that the caller has provided so far. */
  ghost function Provided(s: Deflate): seq<byte>
    requires s.next <= |s.input|
    reads s
  {
    s.hist + s.input[s.next..]
  }

  /** Between two calls. */
  ghost predicate Going(s: Deflate, way: Way)
    reads s, s.window, s.prev, s.head
  {
    && s.next <= |s.input| && Fit(s, way)
    && (s.finished ==> s.lookahead == 0 && s.block == [] && !s.matchAvailable)
  }

  lemma GoingIs(s: Deflate, way: Way)
    ensures Going(s, way) <==>
            && s.next <= |s.input| && Fit(s, way)
            && (s.finished ==> s.lookahead == 0 && s.block == [] && !s.matchAvailable)
  {
    hide Fit;
  }

  /** The tokens expand to all that has been read but for the lookahead and one byte that may be waiting for a better match. */
  lemma TokensExpand(s: Deflate, way: Way)
    requires Going(s, way)
    ensures var p := |s.hist| - s.lookahead - Lag(s);
            && 0 <= p <= |s.hist| && Expand(s.sent + s.block, []) == Some(s.hist[..p])
            && (forall t :: t in s.sent + s.block ==> Fits(t, s.wsize))
    ensures s.lookahead == 0 && s.block == [] && !s.matchAvailable ==> Expand(s.sent, []) == Some(s.hist)
  {
    hide *;
    GoingIs(s, way);
    FitIs(s, way);
    SteadyIs(s);
    LagIs(s);
    EmittedIs(s, Lag(s));
    var q, p := |s.hist| - s.end + s.blockStart, |s.hist| - s.end + s.strstart - Lag(s);
    ToldIs(s.wsize, s.sent, s.block, s.hist, q, p);
    if s.lookahead == 0 && s.block == [] && !s.matchAvailable {
      assert s.sent + s.block == s.sent && s.hist[..|s.hist|] == s.hist;
    }
  }

  lemma LagIs(s: Deflate)
    ensures Lag(s) == if s.matchAvailable then 1 else 0
  {
  }

  /** CLEAR_HASH. */
  method ClearHash(s: Deflate)
    requires Steady(s) && s.lookahead == 0
    modifies s`ins, s.head
    ensures Steady(s) && s.ins == {} && forall k :: 0 <= k < s.head.Length ==> s.head[..][k] == 0
  {
    hide *;
    SteadyIs(s);
    s.ValidIs();
    s.ShapeIs();
    s.SeenIs();
    Zero(s.head);
    s.ins := {};
    Cleared(s.c, s.window[..], s.end, s.prev[..], s.head[..], s.top, s.far);
    s.SeenIs();
    s.ValidIs();
    SteadyIs(s);
  }

  /** zmemzero. */
  method Zero(a: array<nat>)
    modifies a
    ensures forall k :: 0 <= k < a.Length ==> a[..][k] == 0
  {
    forall k | 0 <= k < a.Length { a[k] := 0; }
  }

  /** After Z_FULL_FLUSH the history is forgotten (dep/zlib/deflate.c:929-936). */
  method Forget(s: Deflate, way: Way)
    requires Fit(s, way) && s.lookahead == 0 && s.block == [] && !s.matchAvailable
    modifies s`ins, s`top, s`far, s`end, s`strstart, s`blockStart, s`insert, s.head
    ensures Fit(s, way) && s.ins == {} && s.end == 0
    ensures forall strategy :: old(Kept(s, way, strategy)) ==> Kept(s, way, strategy)
  {
    hide *;
    FitIs(s, way);
    SteadyIs(s);
    LagIs(s);
    EmittedIs(s, 0);
    AllKept(s, way);
    ghost var q, p := |s.hist| - s.end + s.blockStart, |s.hist| - s.end + s.strstart;
    NoneInBlock(s.wsize, s.sent, s.hist, q, p);
    if way == Lazy {
      PendingIs(s);
      RealFits(s.hist, p - 1, Minus32(s.strstart - 1, s.matchStart), s.matchLength, s.wsize);
    }
    ClearHash(s);
    Restart(s);
    SteadyIs(s);
    HashedIs(s);
    EmittedIs(s, 0);
    LagIs(s);
    if way == Lazy {
      RealIs(s.hist, |s.hist| - 1, Minus32(-1, s.matchStart), 2, s.wsize);
      PendingIs(s);
    }
    FitIs(s, way);
    AllKept(s, way);
  }

  /** With no match waiting, what is kept depends on the tokens only. */
  lemma AllKept(s: Deflate, way: Way)
    ensures way != Lazy || s.matchLength < 3 ==>
              forall strategy :: Kept(s, way, strategy) <==>
                && (way == Runs ==> OnlyRuns(s.sent + s.block, strategy == Rle)) && (way == Lazy ==> Choosy(s.sent + s.block, strategy == Filtered))
  {
    hide OnlyRuns, Choosy;
  }

  /** Back to the beginning of the window. */
  method Restart(s: Deflate)
    requires Steady(s) && s.ins == {} && forall k :: 0 <= k < s.head.Length ==> s.head[..][k] == 0
    requires s.lookahead == 0
    modifies s`top, s`far, s`end, s`strstart, s`blockStart, s`insert
    ensures Steady(s) && s.strstart == s.blockStart == s.insert == s.end == 0 && s.ins == {}
  {
    hide *;
    SteadyIs(s);
    s.ValidIs();
    s.ShapeIs();
    s.strstart, s.blockStart, s.insert := 0, 0, 0;
    s.end, s.top, s.far := 0, 0, 0;
    Cleared(s.c, s.window[..], 0, s.prev[..], s.head[..], 0, 0);
    NoneOf(s.window[..], s.hist);
    s.SeenIs();
    s.ValidIs();
    SteadyIs(s);
  }

  lemma NoneInBlock(wsize: nat, sent: seq<Token>, hist: seq<byte>, q: int, p: int)
    requires Told(wsize, sent, [], hist, q, p)
    ensures q == p
  {
    assert sent + [] == sent;
    assert |hist[..p]| == p && |hist[..q]| == q;
  }

  lemma NoneOf(w: seq<byte>, hist: seq<byte>)
    ensures Suffix(w, 0, hist)
  {
    assert w[..0] == hist[|hist|..];
  }

  /** The turns of each way. */
  function RuleOf(way: Way, strategy: Strategy): Rule {
    match way
    case Runs => RunRule(strategy == Rle)
    case Greedy => GreedyRule
    case Lazy => LazyRule(strategy == Filtered)
  }

  lemma RuleIs(way: Way, strategy: Strategy)
    ensures way == Runs ==> RuleOf(way, strategy) == RunRule(strategy == Rle)
    ensures way == Greedy ==> RuleOf(way, strategy) == GreedyRule
    ensures way == Lazy ==> RuleOf(way, strategy) == LazyRule(strategy == Filtered)
  {
  }

  /**
   The function that the strategy and the level choose (dep/zlib/deflate.c:901-903). The tokens are those of a path of its turns from the
   state before, and with lazy matching the byte that waits at the end of the input.
   */
  method Work(s: Deflate, o: Output, way: Way, strategy: Strategy, flush: Flush) returns (state: BlockState, ghost path: seq<Snap>)
    requires Fit(s, way) && !s.finished && o.Clear()
    modifies s, s.window, s.prev, s.head, o
    ensures Fit(s, way) && !s.finished
    ensures s.input == old(s.input) && old(s.next) <= s.next <= |s.input| && s.hist == old(s.hist) + s.input[old(s.next)..s.next]
    ensures state == NeedMore || (s.next == |s.input| && s.lookahead == 0 && s.block == [] && !s.matchAvailable)
    ensures flush == Finish ==> state != BlockDone
    ensures flush != Finish ==> state != FinishDone && state != FinishStarted
    ensures o.lastRank == old(o.lastRank) && Answered(s, o, state, flush, old(Left(s)))
    ensures old(Kept(s, way, strategy)) ==> Kept(s, way, strategy)
    ensures path != [] && Path(RuleOf(way, strategy), path) && path[0] == old(SnapOf(s))
    ensures var last := path[|path| - 1];
            s.sent + s.block == last.tokens
            || (way == Lazy && last.lookahead == 0 && last.waits && 0 < last.i <= |last.v.w|
                && s.sent + s.block == last.tokens + [Literal(last.v.w[last.i - 1])])
  {
    hide *;
    FitIs(s, way);
    RuleIs(way, strategy);
    KeptIs(s, way, strategy);
    match way
    case Runs =>
      state, path := EncodeRuns(s, o, flush, strategy == Rle);
      FitIs(s, way);
      KeptIs(s, way, strategy);
    case Greedy =>
      state, path := EncodeFast(s, o, flush);
      FitIs(s, way);
      KeptIs(s, way, strategy);
    case Lazy =>
      state, path := EncodeSlow(s, o, flush, strategy == Filtered);
      FitIs(s, way);
      KeptIs(s, way, strategy);
  }

  /** All that has been read is in blocks that are sent. */
  ghost predicate AllSent(s: Deflate)
    reads s`next, s`input, s`lookahead, s`block, s`matchAvailable
  {
    s.next == |s.input| && s.lookahead == 0 && s.block == [] && !s.matchAvailable
  }

  lemma AllSentIs(s: Deflate)
    ensures AllSent(s) <==> s.next == |s.input| && s.lookahead == 0 && s.block == [] && !s.matchAvailable
  {
  }

  /** Nearer to the end: finished, or less input left, or less that has not been put out. */
  ghost predicate Nearer(s: Deflate, o: Output, finished: bool, left: int, waiting: int)
    reads s`input, s`next, s`lookahead, s`finished, o
  {
    || (s.finished && !finished)
    || (s.finished == finished && (Left(s) < left || (Left(s) == left && o.Waiting() < waiting)))
  }

  lemma NearerIs(s: Deflate, o: Output, finished: bool, left: int, waiting: int)
    ensures Nearer(s, o, finished, left, waiting) <==>
            || (s.finished && !finished)
            || (s.finished == finished && (Left(s) < left || (Left(s) == left && o.Waiting() < waiting)))
  {
  }

  /** When a call is refused with BufError: there is no room, or a flush is repeated for nothing, or input comes after the end. */
  predicate Refused(finished: bool, noInput: bool, pending: nat, waiting: nat, lastRank: int, room: nat, flush: Flush) {
    && (finished ==> flush == Finish)
    && (|| room == 0
        || (pending == 0 && noInput && flush != Finish && Rank(flush) <= lastRank)
        || (finished && !noInput && (pending == 0 || waiting < room)))
  }

  /**
   deflate. The input is what was left of the last call, with more behind it. When it answers StreamEnd, all tokens expand to all that was
   ever provided and nothing waits to be put out. A call that leaves room has taken all input: to finish, it has ended the stream; to flush,
   it has sent all blocks, and after a full flush no string of before is left to be found. BufError is for a call without room, for a
   repeated flush, and for input after the end. A finish with room that does not end the stream brings its end nearer.
   */
  method Call(s: Deflate, o: Output, way: Way, strategy: Strategy, more: seq<byte>, room: nat, flush: Flush) returns (reply: Reply)
    requires Going(s, way)
    modifies s, s.window, s.prev, s.head, o
    ensures Going(s, way) && s.next <= |s.input| && Provided(s) == old(Provided(s)) + more
    ensures reply == StreamError <==> old(s.finished) && flush != Finish
    ensures reply == StreamEnd ==> flush == Finish && s.finished && AllSent(s) && o.pending == 0
    ensures reply == Ok && o.availOut > 0 ==>
              flush != Finish && s.next == |s.input| && o.pending == 0 && (flush != NoFlush ==> AllSent(s))
    ensures reply == BufError <==>
              Refused(old(s.finished), old(s.next) == |old(s.input)| && more == [], old(o.pending), old(o.Waiting()), old(o.lastRank), room, flush)
    ensures reply == Ok && flush == Finish ==> Nearer(s, o, old(s.finished), old(Left(s)) + |more|, old(o.Waiting()))
    ensures flush != Finish ==> s.finished == old(s.finished)
    ensures s.finished && (old(s.finished) ==> old(s.next) == |old(s.input)| && more == []) ==> AllSent(s)
    ensures reply == Ok && o.availOut > 0 && flush == FullFlush ==> s.ins == {} && s.end == 0
    ensures old(Kept(s, way, strategy)) ==> Kept(s, way, strategy)
  {
    hide *;
    GoingIs(s, way);
    ProvidedIs(s);
    LeftIs(s);
    ghost var left, waiting := Left(s) + |more|, o.Waiting();
    Offer(s, way, more);
    LeftIs(s);
    AllSentIs(s);
    GoingIs(s, way);
    ProvidedIs(s);
    var go;
    go, reply := Admit(o, s.finished, s.next == |s.input|, room, flush);
    ghost var finished := s.finished;
    if go { reply := Proceed(s, o, way, strategy, flush); }
    NearerIs(s, o, finished, left, waiting);
  }

  /** Whether a call gets to work (dep/zlib/deflate.c:676-685, 867-893): what waits is put out first. */
  method Admit(o: Output, finished: bool, noInput: bool, room: nat, flush: Flush) returns (go: bool, reply: Reply)
    modifies o
    ensures go ==> o.Clear() && (finished ==> flush == Finish && noInput)
    ensures go || reply == StreamError || reply == BufError || reply == Ok
    ensures !go && reply == StreamError <==> finished && flush != Finish
    ensures !go && reply == BufError <==> Refused(finished, noInput, old(o.pending), old(o.Waiting()), old(o.lastRank), room, flush)
    ensures !go && reply == Ok ==> o.availOut == 0 && o.Waiting() < old(o.Waiting())
  {
    reply := Ok;
    o.availOut := room;
    if finished && flush != Finish { return false, StreamError; }
    if o.availOut == 0 { return false, BufError; }
    var oldRank := o.lastRank;
    o.lastRank := Rank(flush);
    if o.pending != 0 {
      o.FlushPending();
      if o.availOut == 0 {
        o.lastRank := NoRank;
        return false, Ok;
      }
    } else if noInput && Rank(flush) <= oldRank && flush != Finish {
      return false, BufError;
    }
    if finished && !noInput { return false, BufError; }
    go := true;
  }

  lemma WaitingIs(o: Output)
    ensures o.Waiting() == o.pending + o.bits / 8 >= o.pending
  {
  }

  lemma ClearIs(o: Output)
    ensures o.Clear() <==> o.availOut > 0 && o.pending == 0
  {
  }

  /** The work of a call that has room (dep/zlib/deflate.c:895-948). */
  method Proceed(s: Deflate, o: Output, way: Way, strategy: Strategy, flush: Flush) returns (reply: Reply)
    requires Going(s, way) && o.Clear() && (s.finished ==> flush == Finish && s.next == |s.input|)
    modifies s, s.window, s.prev, s.head, o
    ensures Going(s, way) && s.next <= |s.input| && Provided(s) == old(Provided(s))
    ensures reply == Ok || reply == StreamEnd
    ensures reply == StreamEnd ==> flush == Finish && s.finished && AllSent(s) && o.pending == 0
    ensures reply == Ok && o.availOut > 0 ==>
              flush != Finish && s.next == |s.input| && o.pending == 0 && (flush != NoFlush ==> AllSent(s))
    ensures reply == Ok && flush == Finish ==> (s.finished && !old(s.finished)) || (s.finished == old(s.finished) && Left(s) < old(Left(s)))
    ensures flush != Finish ==> s.finished == old(s.finished)
    ensures s.finished ==> AllSent(s)
    ensures reply == Ok && o.availOut > 0 && flush == FullFlush ==> s.ins == {} && s.end == 0
    ensures old(Kept(s, way, strategy)) ==> Kept(s, way, strategy)
  {
    hide *;
    GoingIs(s, way);
    ProvidedIs(s);
    ClearIs(o);
    AllSentIs(s);
    if s.next < |s.input| || s.lookahead != 0 || (flush != NoFlush && !s.finished) {
      ghost var left := Left(s);
      var state := WorkOn(s, o, way, strategy, flush);
      AnsweredIs(s, o, state, flush, left);
      ProvidedIs(s);
      AllSentIs(s);
      ClearIs(o);
      if state == NeedMore || state == FinishStarted {
        if o.availOut == 0 { o.lastRank := NoRank; }
        return Ok;
      }
      if state == BlockDone {
        if flush != BlockFlush { o.Send(); }
        o.FlushPending();
        ClearIs(o);
        if o.availOut == 0 {
          o.lastRank := NoRank;
          return Ok;
        }
      }
    }
    reply := if flush != Finish then Ok else StreamEnd;
  }

  /** One of the three functions, and what follows from its answer (dep/zlib/deflate.c:901-943). */
  method WorkOn(s: Deflate, o: Output, way: Way, strategy: Strategy, flush: Flush) returns (state: BlockState)
    requires Going(s, way) && !s.finished && o.Clear()
    modifies s, s.window, s.prev, s.head, o
    ensures Going(s, way) && s.next <= |s.input| && s.hist + s.input[s.next..] == old(s.hist + s.input[s.next..])
    ensures state == NeedMore || AllSent(s)
    ensures flush == Finish && state != NeedMore ==> s.finished
    ensures flush == Finish ==> state != BlockDone
    ensures flush != Finish ==> !s.finished && state != FinishDone && state != FinishStarted
    ensures state == NeedMore ==> !s.finished
    ensures state == BlockDone && flush == FullFlush ==> s.ins == {} && s.end == 0
    ensures old(Kept(s, way, strategy)) ==> Kept(s, way, strategy)
    ensures o.lastRank == old(o.lastRank) && Answered(s, o, state, flush, old(Left(s)))
  {
    hide *;
    GoingIs(s, way);
    ghost var hist, next := s.hist, s.next;
    ghost var path;
    state, path := Work(s, o, way, strategy, flush);
    FitIs(s, way);
    SteadyIs(s);
    s.ValidIs();
    AllSentIs(s);
    assert s.hist + s.input[s.next..] == hist + s.input[next..] by {
      Pieces(hist, s.input, next, s.next, |s.input|);
    }
    if state == FinishStarted || state == FinishDone {
      SetFinished(s, way);
    } else if state == BlockDone && flush == FullFlush {
      Forget(s, way);
    }
    GoingIs(s, way);
  }

  /** status = FINISH_STATE. */
  method SetFinished(s: Deflate, way: Way)
    requires Fit(s, way)
    modifies s`finished
    ensures Fit(s, way) && s.finished
  {
    hide *;
    FitIs(s, way);
    SteadyIs(s);
    s.ValidIs();
    s.SeenIs();
    LagIs(s);
    HashedIs(s);
    PendingIs(s);
    EmittedIs(s, 0);
    EmittedIs(s, Lag(s));
    s.finished := true;
    s.SeenIs();
    s.ValidIs();
    SteadyIs(s);
    HashedIs(s);
    LagIs(s);
    PendingIs(s);
    EmittedIs(s, 0);
    EmittedIs(s, Lag(s));
    FitIs(s, way);
  }

  lemma ProvidedIs(s: Deflate)
    requires s.next <= |s.input|
    ensures Provided(s) == s.hist + s.input[s.next..]
  {
  }

  /** More input is added to what was left. */
  method Offer(s: Deflate, way: Way, more: seq<byte>)
    requires Going(s, way)
    modifies s`input, s`next
    ensures Going(s, way) && s.next <= |s.input| && Provided(s) == old(s.hist + s.input[s.next..]) + more
  {
    hide *;
    GoingIs(s, way);
    FitIs(s, way);
    SteadyIs(s);
    s.ValidIs();
    s.SeenIs();
    LagIs(s);
    HashedIs(s);
    PendingIs(s);
    EmittedIs(s, 0);
    EmittedIs(s, Lag(s));
    Associate(s.hist, s.input[s.next..], more);
    s.input := s.input[s.next..] + more;
    s.next := 0;
    assert s.input[0..] == s.input;
    ProvidedIs(s);
    s.SeenIs();
    s.ValidIs();
    SteadyIs(s);
    HashedIs(s);
    LagIs(s);
    PendingIs(s);
    EmittedIs(s, 0);
    EmittedIs(s, Lag(s));
    FitIs(s, way);
    GoingIs(s, way);
  }

  /** A call: the bytes that are provided, the room for output, and how to flush. */
  datatype Demand = Demand(more: seq<byte>, room: nat, flush: Flush)

  function Joined(calls: seq<Demand>): seq<byte> {
    if calls == [] then [] else Joined(calls[..|calls| - 1]) + calls[|calls| - 1].more
  }

  /**
   Any sequence of calls at any level and with any strategy: the tokens always expand to the beginning of what was provided, with
   matches that are real and no further back than MAX_DIST, and to all of it when the last call answers StreamEnd.
   */
  method Compress(level: nat, windowBits: nat, memLevel: nat, strategy: Strategy, calls: seq<Demand>)
    returns (s: Deflate, o: Output, reply: Reply)
    requires 1 <= level <= 9 && 9 <= windowBits <= 15 && 1 <= memLevel <= 9
    ensures fresh(s) && fresh(s.window) && fresh(s.prev) && fresh(s.head) && fresh(o)
    ensures Going(s, WayOf(level, strategy)) && s.wsize == Pow2(windowBits)
    ensures s.next <= |s.input| && Provided(s) == Joined(calls)
    ensures s.hist <= Joined(calls)
    ensures reply == StreamEnd ==> Expand(s.sent, []) == Some(Joined(calls))
    ensures forall t :: t in s.sent + s.block ==> Fits(t, s.wsize)
    ensures (forall i :: 0 <= i < |calls| ==> calls[i].flush != Finish) ==> !s.finished
    ensures Kept(s, WayOf(level, strategy), strategy)
  {
    hide *;
    var way := WayOf(level, strategy);
    s := Begin(level, windowBits, memLevel, way);
    o := new Output();
    reply := Ok;
    var i := 0;
    NoCalls(calls);
    while i < |calls|
      invariant i <= |calls| && fresh(s) && fresh(s.window) && fresh(s.prev) && fresh(s.head) && fresh(o) && s.wsize == Pow2(windowBits)
      invariant Going(s, way) && s.next <= |s.input| && s.hist + s.input[s.next..] == Joined(calls[..i])
      invariant reply == StreamEnd ==> AllSent(s)
      invariant (forall k :: 0 <= k < i ==> calls[k].flush != Finish) ==> !s.finished
      invariant Kept(s, way, strategy)
    {
      ProvidedIs(s);
      reply := Call(s, o, way, strategy, calls[i].more, calls[i].room, calls[i].flush);
      ProvidedIs(s);
      AllSentIs(s);
      OneCall(calls, i);
      i := i + 1;
    }
    assert calls[..|calls|] == calls;
    ProvidedIs(s);
    AllSentIs(s);
    TokensExpand(s, way);
    if reply == StreamEnd {
      assert s.hist + s.input[s.next..] == s.hist;
    }
  }

  /** A stream that has not been finished with input left is finished by calls with any room, as long as there is some in every call. */
  method FinishAll(s: Deflate, o: Output, way: Way, strategy: Strategy, room: nat -> nat)
    requires Going(s, way) && (s.finished ==> s.next == |s.input|) && forall k :: room(k) > 0
    modifies s, s.window, s.prev, s.head, o
    ensures Going(s, way) && s.finished && s.next <= |s.input| && AllSent(s) && o.pending == 0
    ensures Provided(s) == old(Provided(s))
    ensures old(Kept(s, way, strategy)) ==> Kept(s, way, strategy)
  {
    hide *;
    GoingIs(s, way);
    AllSentIs(s);
    var reply, k: nat := Ok, 0;
    ghost var all := Provided(s);
    while reply != StreamEnd
      invariant Going(s, way) && (s.finished ==> s.next == |s.input|) && s.next <= |s.input| && Provided(s) == all
      invariant reply == StreamEnd ==> s.finished && AllSent(s) && o.pending == 0
      invariant old(Kept(s, way, strategy)) ==> Kept(s, way, strategy)
      decreases reply != StreamEnd, !s.finished, Left(s), o.Waiting()
    {
      LeftIs(s);
      WaitingIs(o);
      ghost var finished, left, waiting := s.finished, Left(s), o.Waiting();
      Associate(all, [], []);
      FinishTaken(s.finished, s.next == |s.input|, o.pending, waiting, o.lastRank, room(k));
      reply := Call(s, o, way, strategy, [], room(k), Finish);
      NearerIs(s, o, finished, left, waiting);
      AllSentIs(s);
      k := k + 1;
    }
  }

  lemma FinishTaken(finished: bool, noInput: bool, pending: nat, waiting: nat, lastRank: int, room: nat)
    requires room > 0 && (finished ==> noInput)
    ensures !Refused(finished, noInput, pending, waiting, lastRank, room, Finish)
  {
  }

  /** Whatever the calls were, finishing with room in every call sends tokens that expand to all that was provided. */
  method CompressAll(level: nat, windowBits: nat, memLevel: nat, strategy: Strategy, calls: seq<Demand>, room: nat -> nat)
    returns (s: Deflate)
    requires 1 <= level <= 9 && 9 <= windowBits <= 15 && 1 <= memLevel <= 9
    requires (forall i :: 0 <= i < |calls| ==> calls[i].flush != Finish) && forall k :: room(k) > 0
    ensures Expand(s.sent, []) == Some(Joined(calls)) && forall t :: t in s.sent ==> Fits(t, s.wsize)
    ensures Kept(s, WayOf(level, strategy), strategy)
  {
    hide *;
    var o, reply;
    s, o, reply := Compress(level, windowBits, memLevel, strategy, calls);
    FinishAll(s, o, WayOf(level, strategy), strategy, room);
    AllSentIs(s);
    ProvidedIs(s);
    TokensExpand(s, WayOf(level, strategy));
    assert s.hist + s.input[s.next..] == s.hist;
    assert s.block == [] && s.sent + s.block == s.sent;
  }

  lemma NoCalls(calls: seq<Demand>)
    ensures Joined(calls[..0]) == []
  {
  }

  lemma OneCall(calls: seq<Demand>, i: nat)
    requires i < |calls|
    ensures Joined(calls[..i + 1]) == Joined(calls[..i]) + calls[i].more
  {
    assert calls[..i + 1][..i] == calls[..i];
  }

  method Begin(level: nat, windowBits: nat, memLevel: nat, way: Way) returns (s: Deflate)
    requires 1 <= level <= 9 && 9 <= windowBits <= 15 && 1 <= memLevel <= 9
    ensures fresh(s) && fresh(s.window) && fresh(s.prev) && fresh(s.head) && s.wsize == Pow2(windowBits)
    ensures Going(s, way) && s.hist == [] && s.input == [] && s.next == 0 && !s.finished
    ensures forall strategy :: Kept(s, way, strategy)
  {
    hide *;
    s := new Deflate(level, windowBits, memLevel);
    s.ValidIs();
    s.ShapeIs();
    SteadyIs(s);
    HashedIs(s);
    LagIs(s);
    ToldNothing(s.wsize);
    EmittedIs(s, 0);
    RealIs([], -1, Minus32(-1, s.matchStart), 2, s.wsize);
    PendingIs(s);
    FitIs(s, way);
    GoingIs(s, way);
    AllKept(s, way);
    NoTokens(s.sent + s.block);
  }

  lemma NoTokens(ts: seq<Token>)
    requires ts == []
    ensures forall runs :: OnlyRuns(ts, runs)
    ensures forall filtered :: Choosy(ts, filtered)
  {
  }

  lemma ToldNothing(wsize: nat)
    ensures Told(wsize, [], [], [], 0, 0)
  {
    var none: seq<Token>, bytes: seq<byte> := [], [];
    assert none + none == none && bytes[..0] == bytes;
  }
}
