/** deflate_fast (dep/zlib/deflate.c:1626-1720): greedy matching. */
module DeflateFast {
  import opened Bits
  import opened Lz77
  import opened DeflateHash
  import opened DeflateChains
  import opened DeflateState
  import opened DeflateFill
  import opened DeflateMatch
  import opened DeflateTally
  import opened DeflateOutput
  import opened DeflateTurns

  datatype BlockState = NeedMore | BlockDone | FinishStarted | FinishDone

  /**
   The string at strstart is inserted when there are three bytes of it; what was at the head of its chain is a candidate for a match
   when it is near enough (dep/zlib/deflate.c:1650-1658).
   */
  method FindHead(s: Deflate) returns (hashHead: nat)
    requires Steady(s) && Hashed(s) && s.lookahead > 0
    modifies s`insH, s`ins, s`top, s`far, s.prev, s.head
    ensures s.Valid() && s.top + s.insert <= s.strstart + 1 && s.far <= s.strstart + 1
    ensures hashHead != 0 ==> hashHead < s.strstart && s.lookahead >= 3
    ensures hashHead != 0 && s.strstart - hashHead <= s.MaxDist() ==> Candidate(s.Seen(), s.strstart, hashHead)
    ensures s.lookahead >= 3 ==>
              s.insert == 0 && s.top == s.strstart + 1 && s.strstart + 2 < s.window.Length
              && Ready(s.c, s.insH, s.window[s.strstart + 1], s.window[s.strstart + 2])
    ensures s.lookahead < 3 ==> s.top + s.insert <= s.strstart
    ensures hashHead == Head(old(s.Seen()), old(s.head[..]), s.strstart, s.lookahead)
    ensures s.lookahead < 3 ==> s.Seen() == old(s.Seen()) && s.prev[..] == old(s.prev[..])
    ensures s.lookahead >= 3 ==>
              && s.Seen() == Inserted(old(s.Seen()), s.strstart)
              && s.prev.Length > 0 && s.prev[..] == old(s.prev[..])[s.strstart % s.prev.Length := hashHead]
  {
    hide *;
    SteadyIs(s);
    s.ValidIs();
    s.ShapeIs();
    s.SeenIs();
    HashedIs(s);
    hashHead := 0;
    HeadIs(s.Seen(), s.head[..], s.strstart, s.lookahead);
    if s.lookahead >= 3 {
      hashHead := s.InsertString(s.strstart);
      s.SeenIs();
      s.ValidIs();
      LinkIs(s.Seen(), hashHead, s.strstart, HashAt(s.c, s.window[..], s.strstart));
      CandidateIs(s.Seen(), s.strstart, hashHead);
      Distance(s);
    }
  }

  lemma Distance(s: Deflate)
    ensures s.MaxDist() == s.wsize - 262
  {
  }

  /** The strings inside a match are inserted (dep/zlib/deflate.c:1680-1688). */
  method InsertMatch(s: Deflate)
    requires s.Valid() && s.top == s.strstart + 1 && s.far <= s.strstart + 1 && s.insert == 0 && 2 <= s.matchLength
    requires s.strstart + s.matchLength + 3 <= s.end && s.end <= s.window.Length
    requires Ready(s.c, s.insH, s.window[s.strstart + 1], s.window[s.strstart + 2])
    modifies s`matchLength, s`strstart, s`insH, s`ins, s`top, s`far, s.prev, s.head
    ensures s.Valid() && s.strstart == old(s.strstart + s.matchLength) && s.matchLength == 0
    ensures s.top <= s.strstart && s.far <= s.strstart && s.strstart + 1 < s.window.Length
    ensures Ready(s.c, s.insH, s.window[s.strstart], s.window[s.strstart + 1])
    ensures s.Seen() == InsertRange(old(s.Seen()), old(s.strstart) + 1, s.strstart)
  {
    hide *;
    s.ValidIs();
    s.SeenIs();
    s.ShapeIs();
    ghost var v, first := s.Seen(), s.strstart + 1;
    InsertRangeNext(v, first, first);
    s.matchLength := s.matchLength - 1;
    s.SeenIs();
    s.ValidIs();
    ghost var last := s.strstart + s.matchLength;
    while s.matchLength > 0
      invariant s.Valid() && s.top <= s.strstart + 1 && s.far <= s.strstart + 1 && s.strstart + s.matchLength == last
      invariant s.matchLength >= 0 && s.strstart + 2 < s.window.Length && first <= s.strstart + 1
      invariant s.Seen() == InsertRange(v, first, s.strstart + 1)
      invariant Ready(s.c, s.insH, s.window[s.strstart + 1], s.window[s.strstart + 2])
      decreases s.matchLength
    {
      s.ValidIs();
      s.SeenIs();
      s.strstart := s.strstart + 1;
      s.SeenIs();
      s.ValidIs();
      InsertRangeNext(v, first, s.strstart);
      var hashHead := s.InsertString(s.strstart);
      s.ValidIs();
      s.SeenIs();
      s.matchLength := s.matchLength - 1;
      s.SeenIs();
      s.ValidIs();
    }
    s.ValidIs();
    s.SeenIs();
    s.strstart := s.strstart + 1;
    s.SeenIs();
    s.ValidIs();
  }

  /** The strings inside a match are passed over (dep/zlib/deflate.c:1692-1695). */
  method PassMatch(s: Deflate)
    requires s.Valid() && s.top + s.insert <= s.strstart + 1 && s.far <= s.strstart + 1 && 1 <= s.matchLength
    requires s.strstart + s.matchLength <= s.end && s.strstart + s.matchLength + 1 < s.window.Length
    modifies s`matchLength, s`strstart, s`insH
    ensures s.Valid() && s.strstart == old(s.strstart + s.matchLength) && s.matchLength == 0
    ensures s.top + s.insert <= s.strstart && s.far <= s.strstart
    ensures s.strstart + 1 < s.window.Length && Ready(s.c, s.insH, s.window[s.strstart], s.window[s.strstart + 1])
    ensures s.Seen() == old(s.Seen())
  {
    hide *;
    s.ValidIs();
    s.SeenIs();
    s.ShapeIs();
    s.strstart := s.strstart + s.matchLength;
    s.matchLength := 0;
    s.insH := s.window[s.strstart];
    s.insH := Update(s.c, s.insH, s.window[s.strstart + 1]);
    StartHash(s.c, s.window[s.strstart], s.window[s.strstart + 1]);
    s.SeenIs();
    s.ValidIs();
  }

  /** A literal: the byte at strstart. */
  method PutLiteral(s: Deflate) returns (full: bool)
    requires s.Valid() && s.top + s.insert <= s.strstart + 1 && s.far <= s.strstart + 1 && s.strstart + s.lookahead == s.end
    requires s.lookahead > 0 && s.strstart < s.window.Length && Emitted(s, 0)
    requires s.lookahead < 3 ==> s.top + s.insert <= s.strstart
    requires s.lookahead >= 3 ==>
               s.insert == 0 && s.strstart + 2 < s.window.Length && Ready(s.c, s.insH, s.window[s.strstart + 1], s.window[s.strstart + 2])
    modifies s`block, s`lookahead, s`strstart
    ensures Steady(s) && Hashed(s) && s.lookahead == old(s.lookahead) - 1
    ensures Turned(s, full)
    ensures s.block == old(s.block) + [Literal(old(s.window[s.strstart]))] && s.strstart == old(s.strstart) + 1 && s.Seen() == old(s.Seen())
  {
    hide *;
    s.ValidIs();
    s.ShapeIs();
    EmittedIs(s, 0);
    s.SeenIs();
    ghost var q, p, block := |s.hist| - s.end + s.blockStart, |s.hist| - s.end + s.strstart, s.block;
    ToldIs(s.wsize, s.sent, s.block, s.hist, q, p);
    SuffixOne(s.window[..], s.end, s.hist, s.strstart);
    ToldLiteral(s.wsize, s.sent, s.block, s.hist, q, p, s.window[s.strstart]);
    full := TallyLit(s, s.window[s.strstart]);
    s.lookahead := s.lookahead - 1;
    s.strstart := s.strstart + 1;
    s.SeenIs();
    s.ValidIs();
    SteadyIs(s);
    HashedIs(s);
    TurnedIs(s, full);
  }

  lemma SuffixOne(w: seq<byte>, end: nat, hist: seq<byte>, i: nat)
    requires Suffix(w, end, hist) && i < end
    ensures end <= |w| && end <= |hist| && w[i] == hist[|hist| - end + i]
  {
    assert w[..end][i] == hist[|hist| - end..][i];
  }

  /** The tokens expand to what comes before strstart; when the buffer is full, the block has to be flushed. */
  ghost predicate Turned(s: Deflate, full: bool)
    reads s
  {
    && |s.block| < s.litBufsize && full == (|s.block| == s.litBufsize - 1)
    && Told(s.wsize, s.sent, s.block, s.hist, |s.hist| - s.end + s.blockStart, |s.hist| - s.end + s.strstart)
  }

  lemma TurnedIs(s: Deflate, full: bool)
    ensures Turned(s, full) <==>
            && |s.block| < s.litBufsize && full == (|s.block| == s.litBufsize - 1)
            && Told(s.wsize, s.sent, s.block, s.hist, |s.hist| - s.end + s.blockStart, |s.hist| - s.end + s.strstart)
  {
    hide Told;
  }

  /** After the search: a match at matchStart, or none. */
  ghost predicate Searched(s: Deflate)
    reads s, s.window
  {
    && s.top + s.insert <= s.strstart + 1 && s.far <= s.strstart + 1 && s.strstart + s.lookahead == s.end
    && (s.lookahead < 3 ==> s.top + s.insert <= s.strstart && s.matchLength < 3)
    && (s.lookahead >= 3 ==>
         && s.insert == 0 && s.top == s.strstart + 1 && s.strstart + 2 < s.window.Length
         && Ready(s.c, s.insH, s.window[s.strstart + 1], s.window[s.strstart + 2]))
    && (s.matchLength >= 3 ==> s.matchLength <= 258 && s.matchLength <= s.lookahead && Found(s.Seen(), s.matchStart, s.strstart, s.matchLength))
  }

  lemma SearchedIs(s: Deflate)
    ensures Searched(s) <==>
            && s.top + s.insert <= s.strstart + 1 && s.far <= s.strstart + 1 && s.strstart + s.lookahead == s.end
            && (s.lookahead < 3 ==> s.top + s.insert <= s.strstart && s.matchLength < 3)
            && (s.lookahead >= 3 ==>
                 && s.insert == 0 && s.top == s.strstart + 1 && s.strstart + 2 < s.window.Length
                 && Ready(s.c, s.insH, s.window[s.strstart + 1], s.window[s.strstart + 2]))
            && (s.matchLength >= 3 ==>
                 s.matchLength <= 258 && s.matchLength <= s.lookahead && Found(s.Seen(), s.matchStart, s.strstart, s.matchLength))
  {
    hide Ready, Found;
  }

  /** Looking for a match at strstart (dep/zlib/deflate.c:1650-1665). */
  method FindMatch(s: Deflate)
    requires Steady(s) && Hashed(s) && s.lookahead > 0 && s.strstart + 262 <= s.window.Length && s.prevLength == 2 && s.matchLength < 3
    modifies s`matchLength, s`matchStart, s`insH, s`ins, s`top, s`far, s.prev, s.head
    ensures s.Valid() && Searched(s)
    ensures Looks(old(s.Seen()), old(s.prev[..]), old(s.head[..]), s.config, s.strstart, s.lookahead, 2, true,
                  old(s.matchLength), old(s.matchStart), s.matchLength, s.matchStart)
    ensures s.Seen() == if s.lookahead >= 3 then Inserted(old(s.Seen()), s.strstart) else old(s.Seen())
  {
    hide *;
    SteadyIs(s);
    ghost var v, p, h, none, start := s.Seen(), s.prev[..], s.head[..], s.matchLength, s.matchStart;
    s.SeenIs();
    var hashHead := FindHead(s);
    InsertedIs(v, s.strstart);
    Distance(s);
    s.ValidIs();
    s.SeenIs();
    LooksNothing(v, p, h, s.config, s.strstart, s.lookahead, 2, true, none, start);
    if hashHead != 0 && s.strstart - hashHead <= s.MaxDist() {
      HeadIs(v, h, s.strstart, s.lookahead);
      var length; ghost var best;
      length, best := LongestMatch(s, hashHead);
      s.ValidIs();
      s.SeenIs();
      LooksFound(v, p, h, s.config, s.strstart, s.lookahead, 2, none, start, best, s.matchStart, hashHead);
      s.matchLength := length;
      s.SeenIs();
      s.ValidIs();
    }
    SearchedIs(s);
  }

  /** Emitting the match that was found (dep/zlib/deflate.c:1666-1702). */
  method PutMatch(s: Deflate) returns (full: bool)
    requires s.Valid() && Searched(s) && s.matchLength >= 3 && Emitted(s, 0) && s.strstart + 262 <= s.window.Length
    modifies s`matchLength, s`lookahead, s`strstart, s`insH, s`ins, s`top, s`far, s`block, s.prev, s.head
    ensures Steady(s) && Hashed(s) && Turned(s, full) && s.matchLength < 3 && s.lookahead < old(s.lookahead)
    ensures 0 <= old(s.strstart) - s.matchStart && s.block == old(s.block) + [Pair(old(s.matchLength), old(s.strstart) - s.matchStart)]
    ensures s.strstart == old(s.strstart + s.matchLength) && s.lookahead == old(s.lookahead - s.matchLength)
    ensures s.Seen() == if old(s.matchLength) <= s.config.lazy && s.lookahead >= 3
                        then InsertRange(old(s.Seen()), old(s.strstart) + 1, s.strstart) else old(s.Seen())
  {
    hide *;
    s.ValidIs();
    s.ShapeIs();
    s.SeenIs();
    SearchedIs(s);
    EmittedIs(s, 0);
    FoundIs(s.Seen(), s.matchStart, s.strstart, s.matchLength);
    FoundReal(s.Seen(), s.hist, s.matchStart, s.strstart, s.matchLength);
    ghost var q, p := |s.hist| - s.end + s.blockStart, |s.hist| - s.end + s.strstart;
    ToldIs(s.wsize, s.sent, s.block, s.hist, q, p);
    ToldPair(s.wsize, s.sent, s.block, s.hist, q, p, s.strstart - s.matchStart, s.matchLength);
    full := TallyDist(s, s.strstart - s.matchStart, s.matchLength - 3);
    s.lookahead := s.lookahead - s.matchLength;
    s.SeenIs();
    s.ValidIs();
    if s.matchLength <= s.config.lazy && s.lookahead >= 3 {
      InsertMatch(s);
    } else {
      PassMatch(s);
    }
    SteadyIs(s);
    HashedIs(s);
    TurnedIs(s, full);
  }

  /**
   One turn of the loop: the match that is found at strstart is emitted, or a literal (dep/zlib/deflate.c:1650-1709). The strings inside a
   match are inserted when it is no longer than max_insert_length.
   */
  method FastTurn(s: Deflate) returns (full: bool, ghost n: nat, ghost start: nat)
    requires Steady(s) && Hashed(s) && Emitted(s, 0) && s.lookahead > 0 && s.strstart + 262 <= s.window.Length
    requires s.prevLength == 2 && s.matchLength < 3
    modifies s`matchLength, s`matchStart, s`lookahead, s`strstart, s`insH, s`ins, s`top, s`far, s`block, s.prev, s.head
    ensures Steady(s) && Hashed(s) && Turned(s, full) && s.matchLength < 3 && s.lookahead < old(s.lookahead)
    ensures GreedyTurn(old(SnapOf(s)), SnapOf(s), n, start) && Turn(GreedyRule, old(SnapOf(s)), SnapOf(s))
  {
    hide *;
    SteadyIs(s);
    s.ValidIs();
    s.SeenIs();
    SnapIs(s);
    EmittedIs(s, 0);
    ghost var snap := SnapOf(s);
    FindMatch(s);
    n, start := s.matchLength, s.matchStart;
    if s.matchLength < 3 { Associate(s.sent, s.block, [Literal(s.window[s.strstart])]); }
    else {
      SearchedIs(s);
      FoundIs(s.Seen(), s.matchStart, s.strstart, s.matchLength);
      Associate(s.sent, s.block, [Pair(s.matchLength, s.strstart - s.matchStart)]);
    }
    EmittedIs(s, 0);
    if s.matchLength >= 3 {
      full := PutMatch(s);
    } else {
      SearchedIs(s);
      full := PutLiteral(s);
    }
    SnapIs(s);
    GreedyTurnFrom(snap, SnapOf(s), n, start);
  }

  /** Filling the window changes nothing about what the tokens expand to. */
  method Refill(s: Deflate, ghost lag: nat)
    requires Steady(s) && s.lookahead < 262 && Emitted(s, lag)
    modifies s`next, s`lookahead, s`hist, s`insH, s`insert, s`strstart, s`matchStart, s`blockStart, s`end, s`ins, s`top, s`far
    modifies s.window, s.prev, s.head
    ensures Steady(s) && s.strstart + 262 <= s.window.Length && Emitted(s, lag)
    ensures old(s.next) <= s.next <= |s.input| && s.hist == old(s.hist) + s.input[old(s.next)..s.next]
    ensures s.lookahead == old(s.lookahead) + (s.next - old(s.next)) && (s.lookahead >= 262 || s.next == |s.input|)
    ensures Minus32(s.strstart, s.matchStart) == Minus32(old(s.strstart), old(s.matchStart))
    ensures old(Hashed(s)) ==> Hashed(s)
    ensures old(s.strstart) > 0 ==> s.strstart > 0
    ensures |s.hist| - s.end + s.strstart == old(|s.hist| - s.end + s.strstart)
    ensures Filled(old(SnapOf(s)), SnapOf(s))
  {
    hide *;
    SnapIs(s);
    s.SeenIs();
    ghost var snap := SnapOf(s);
    SteadyIs(s);
    EmittedIs(s, lag);
    ghost var q, p, hist, next := |s.hist| - s.end + s.blockStart, |s.hist| - s.end + s.strstart - lag, s.hist, s.next;
    FillWindow(s);
    SteadyIs(s);
    s.ValidIs();
    s.ShapeIs();
    ToldMore(s.wsize, s.sent, s.block, hist, q, p, s.input[next..s.next]);
    EmittedIs(s, lag);
    s.SeenIs();
    SnapIs(s);
    NearestIs(s);
    SearchBounds(s.config, 0, 0, s.strstart, s.wsize);
    FilledIs(snap, SnapOf(s));
  }

  /**
   The beginning of every turn: there is always enough to look ahead, except at the end of the input (dep/zlib/deflate.c:1639-1645).
   Either it stops for want of input, or all input is over, or there is a byte to encode.
   */
  method LookAhead(s: Deflate, flush: Flush, enough: nat, ghost lag: nat) returns (stop: bool)
    requires Steady(s) && Emitted(s, lag) && 1 <= enough <= 262
    modifies s`next, s`lookahead, s`hist, s`insH, s`insert, s`strstart, s`matchStart, s`blockStart, s`end, s`ins, s`top, s`far
    modifies s.window, s.prev, s.head
    ensures Steady(s) && Emitted(s, lag) && s.strstart + enough <= s.window.Length
    ensures old(s.next) <= s.next <= |s.input| && s.hist == old(s.hist) + s.input[old(s.next)..s.next]
    ensures s.lookahead == old(s.lookahead) + (s.next - old(s.next))
    ensures stop ==> flush == NoFlush && s.next == |s.input|
    ensures !stop && s.lookahead == 0 ==> s.next == |s.input| && flush != NoFlush
    ensures Minus32(s.strstart, s.matchStart) == Minus32(old(s.strstart), old(s.matchStart))
    ensures old(Hashed(s)) ==> Hashed(s)
    ensures old(s.strstart) > 0 ==> s.strstart > 0
    ensures |s.hist| - s.end + s.strstart == old(|s.hist| - s.end + s.strstart)
    ensures Filled(old(SnapOf(s)), SnapOf(s))
  {
    hide *;
    SteadyIs(s);
    s.ValidIs();
    s.ShapeIs();
    NothingFilled(s);
    assert s.hist == s.hist + s.input[s.next..s.next];
    stop := false;
    if s.lookahead < enough {
      Refill(s, lag);
      stop := s.lookahead < enough && flush == NoFlush;
    }
  }

  lemma NothingFilled(s: Deflate)
    requires s.Valid()
    ensures Filled(SnapOf(s), SnapOf(s))
  {
    hide *;
    s.ValidIs();
    s.SeenIs();
    SnapIs(s);
    StaysHere(s.ins, Limit(s.strstart, s.wsize));
    FilledIs(SnapOf(s), SnapOf(s));
  }

  /** The input that has not become tokens. */
  ghost function Left(s: Deflate): int
    reads s`input, s`next, s`lookahead
  {
    |s.input| - s.next + s.lookahead
  }

  lemma LeftIs(s: Deflate)
    ensures Left(s) == |s.input| - s.next + s.lookahead
  {
  }

  /**
   What an answer says of room and input. More is asked for when there is no room, having done something unless it was a flush, or, without
   a flush, when there is no input.
   */
  ghost predicate Answered(s: Deflate, o: Output, state: BlockState, flush: Flush, left: int)
    reads s`input, s`next, s`lookahead, o
  {
    match state
    case NeedMore => (o.availOut == 0 && (flush == Finish ==> Left(s) < left)) || (o.Clear() && flush == NoFlush && s.next == |s.input|)
    case FinishStarted => o.availOut == 0
    case _ => o.Clear()
  }

  lemma AnsweredIs(s: Deflate, o: Output, state: BlockState, flush: Flush, left: int)
    ensures Answered(s, o, state, flush, left) <==>
            && (state == NeedMore ==>
                  (o.availOut == 0 && (flush == Finish ==> Left(s) < left)) || (o.Clear() && flush == NoFlush && s.next == |s.input|))
            && (state == FinishStarted ==> o.availOut == 0)
            && (state == BlockDone || state == FinishDone ==> o.Clear())
  {
  }

  /** What the turns of an encoder come to: it stops, or the input is over, or there is something left for the next turn. */
  ghost predicate Stepped(s: Deflate, o: Output, flush: Flush, left: int, stop: bool, over: bool)
    reads s`input, s`next, s`lookahead, o
  {
    && (stop ==> Answered(s, o, NeedMore, flush, left))
    && (!stop ==> o.Clear() && if over then s.next == |s.input| && s.lookahead == 0 else Left(s) <= left)
  }

  lemma SteppedIs(s: Deflate, o: Output, flush: Flush, left: int, stop: bool, over: bool)
    ensures Stepped(s, o, flush, left, stop, over) <==>
            && (stop ==> Answered(s, o, NeedMore, flush, left))
            && (!stop ==> o.Clear() && if over then s.next == |s.input| && s.lookahead == 0 else Left(s) <= left)
  {
  }

  lemma SteppedFrom(s: Deflate, o: Output, flush: Flush, left: int, was: int, stop: bool, over: bool)
    requires Stepped(s, o, flush, was, stop, over) && was <= left
    ensures Stepped(s, o, flush, left, stop, over)
  {
  }

  /** What is left to do when all input has been turned into tokens (dep/zlib/deflate.c:1712-1719). */
  method EndBlock(s: Deflate, o: Output, flush: Flush, insert: nat) returns (state: BlockState)
    requires Steady(s) && s.lookahead == 0 && insert <= 2 && insert <= s.strstart && |s.block| < s.litBufsize
    requires Told(s.wsize, s.sent, s.block, s.hist, |s.hist| - s.end + s.blockStart, |s.hist| - s.end + s.strstart)
    requires o.Clear()
    modifies s`insert, s`top, s`block, s`sent, s`blockStart, o
    ensures Steady(s) && Hashed(s) && Emitted(s, 0)
    ensures state == NeedMore || s.block == []
    ensures o.lastRank == old(o.lastRank) && if state == NeedMore || state == FinishStarted then o.availOut == 0 else o.Clear()
    ensures flush == Finish <==> state == FinishDone || state == FinishStarted
    ensures s.sent + s.block == old(s.sent + s.block)
  {
    hide *;
    SteadyIs(s);
    s.ValidIs();
    s.ShapeIs();
    s.SeenIs();
    Bounded(s.Seen(), s.prev[..], s.head[..], s.strstart - insert);
    s.insert := insert;
    s.top := s.strstart - insert;
    s.SeenIs();
    s.ValidIs();
    SteadyIs(s);
    HashedIs(s);
    if flush == Finish {
      FlushBlock(s, o);
      state := if o.availOut == 0 then FinishStarted else FinishDone;
    } else if s.block != [] {
      FlushBlock(s, o);
      state := if o.availOut == 0 then NeedMore else BlockDone;
    } else {
      EmittedIs(s, 0);
      state := BlockDone;
    }
  }

  /** FLUSH_BLOCK_ONLY when the tokens go up to strstart. */
  method FlushBlock(s: Deflate, o: Output)
    requires s.Valid() && |s.block| < s.litBufsize
    requires Told(s.wsize, s.sent, s.block, s.hist, |s.hist| - s.end + s.blockStart, |s.hist| - s.end + s.strstart)
    modifies s`block, s`sent, s`blockStart, o
    ensures o.lastRank == old(o.lastRank) && (o.Clear() || o.availOut == 0)
    ensures s.Valid() && Emitted(s, 0) && s.block == [] && s.Seen() == old(s.Seen()) && (Hashed(s) <==> old(Hashed(s)))
    ensures old(Steady(s)) ==> Steady(s)
    ensures s.sent + s.block == old(s.sent + s.block)
  {
    hide *;
    SteadyIs(s);
    s.ValidIs();
    s.ShapeIs();
    ghost var q, p := |s.hist| - s.end + s.blockStart, |s.hist| - s.end + s.strstart;
    ToldFlushed(s.wsize, s.sent, s.block, s.hist, q, p);
    FlushBlockOnly(s, o);
    EmittedIs(s, 0);
    SteadyIs(s);
  }

  /** if (bflush) FLUSH_BLOCK(s, 0): whether it has to stop for want of room. */
  method FlushIfFull(s: Deflate, o: Output, full: bool) returns (stop: bool)
    requires Steady(s) && Turned(s, full) && o.Clear()
    modifies s`block, s`sent, s`blockStart, o
    ensures o.lastRank == old(o.lastRank) && if stop then o.availOut == 0 else o.Clear()
    ensures Steady(s) && Emitted(s, 0) && (Hashed(s) <==> old(Hashed(s)))
    ensures s.sent + s.block == old(s.sent + s.block) && s.Seen() == old(s.Seen()) && SnapOf(s) == old(SnapOf(s))
  {
    hide *;
    SteadyIs(s);
    s.SeenIs();
    SnapIs(s);
    TurnedIs(s, full);
    stop := false;
    if full {
      FlushBlock(s, o);
      stop := o.availOut == 0;
    } else {
      EmittedIs(s, 0);
    }
    SnapIs(s);
  }

  /** One turn of the loop (dep/zlib/deflate.c:1637-1711): it stops for want of input or of room, or the input is over. */
  method FastStep(s: Deflate, o: Output, flush: Flush) returns (stop: bool, over: bool, ghost path: seq<Snap>)
    requires Steady(s) && Hashed(s) && Emitted(s, 0) && s.prevLength == 2 && s.matchLength < 3 && o.Clear()
    modifies s`matchLength, s`matchStart, s`lookahead, s`strstart, s`insH, s`ins, s`top, s`far, s`block, s`sent, s`blockStart
    modifies s`next, s`hist, s`insert, s`end, s.window, s.prev, s.head, o
    ensures Steady(s) && Hashed(s) && Emitted(s, 0) && s.matchLength < 3
    ensures old(s.next) <= s.next <= |s.input| && s.hist == old(s.hist) + s.input[old(s.next)..s.next]
    ensures Stepped(s, o, flush, old(Left(s)), stop, over) && o.lastRank == old(o.lastRank)
    ensures !stop && !over ==> Left(s) < old(Left(s))
    ensures Leads(GreedyRule, old(SnapOf(s)), path, SnapOf(s)) && (!stop && !over ==> |path| == 2)
  {
    hide *;
    LeftIs(s);
    ghost var left, snap := Left(s), SnapOf(s);
    stop := LookAhead(s, flush, 262, 0);
    over := !stop && s.lookahead == 0;
    LeftIs(s);
    path := [SnapOf(s)];
    LeadsFirst(GreedyRule, snap, SnapOf(s));
    if !stop && !over {
      SteadyIs(s);
      s.ValidIs();
      s.ShapeIs();
      var full;
      ghost var n, start;
      full, n, start := FastTurn(s);
      LeadsOn(GreedyRule, snap, path, path[0], SnapOf(s));
      path := path + [SnapOf(s)];
      stop := FlushIfFull(s, o, full);
      LeftIs(s);
    }
    SteppedIs(s, o, flush, left, stop, over);
    AnsweredIs(s, o, NeedMore, flush, left);
  }

  /** The loop: it ends when it has to stop, or at the end of the input. */
  method FastSteps(s: Deflate, o: Output, flush: Flush) returns (stop: bool, ghost path: seq<Snap>)
    requires Steady(s) && Hashed(s) && Emitted(s, 0) && s.prevLength == 2 && s.matchLength < 3 && o.Clear()
    modifies s`matchLength, s`matchStart, s`lookahead, s`strstart, s`insH, s`ins, s`top, s`far, s`block, s`sent, s`blockStart
    modifies s`next, s`hist, s`insert, s`end, s.window, s.prev, s.head, o
    ensures Steady(s) && Hashed(s) && Emitted(s, 0) && s.matchLength < 3
    ensures old(s.next) <= s.next <= |s.input| && s.hist == old(s.hist) + s.input[old(s.next)..s.next]
    ensures Stepped(s, o, flush, old(Left(s)), stop, !stop) && o.lastRank == old(o.lastRank)
    ensures path != [] && Path(GreedyRule, path) && path[0] == old(SnapOf(s)) && path[|path| - 1] == SnapOf(s)
  {
    hide *;
    ghost var hist, next, left := s.hist, s.next, Left(s);
    SteadyIs(s);
    s.ValidIs();
    assert hist == hist + s.input[next..next];
    var over := false;
    stop := false;
    SteppedIs(s, o, flush, left, stop, over);
    path := [SnapOf(s)];
    PathFrom(GreedyRule, SnapOf(s));
    while !stop && !over
      invariant Steady(s) && Hashed(s) && Emitted(s, 0) && s.prevLength == 2 && s.matchLength < 3
      invariant next <= s.next <= |s.input| && s.hist == hist + s.input[next..s.next]
      invariant Stepped(s, o, flush, left, stop, over) && o.lastRank == old(o.lastRank)
      invariant path != [] && Path(GreedyRule, path) && path[0] == old(SnapOf(s)) && path[|path| - 1] == SnapOf(s)
      decreases !stop && !over, Left(s)
    {
      ghost var n, was, more := s.next, Left(s), [];
      SteppedIs(s, o, flush, left, stop, over);
      stop, over, more := FastStep(s, o, flush);
      PathJoin(GreedyRule, path, more, SnapOf(s));
      path := path + more;
      Pieces(hist, s.input, next, n, s.next);
      LeftIs(s);
      SteppedFrom(s, o, flush, left, was, stop, over);
    }
    SteppedIs(s, o, flush, left, stop, over);
    SteppedIs(s, o, flush, left, stop, !stop);
  }

  /**
   deflate_fast. When it does not ask for more, all the input has become tokens, and they have been handed on. The tokens are those of a path
   of turns from the state before.
   */
  method EncodeFast(s: Deflate, o: Output, flush: Flush) returns (state: BlockState, ghost path: seq<Snap>)
    requires Steady(s) && Hashed(s) && Emitted(s, 0) && s.prevLength == 2 && s.matchLength < 3
    requires o.Clear()
    modifies s, s.window, s.prev, s.head, o
    ensures Steady(s) && Hashed(s) && Emitted(s, 0) && s.prevLength == 2 && s.matchLength < 3
    ensures s.input == old(s.input) && old(s.next) <= s.next <= |s.input| && s.hist == old(s.hist) + s.input[old(s.next)..s.next]
    ensures state == NeedMore || (s.next == |s.input| && s.lookahead == 0 && s.block == [])
    ensures s.matchAvailable == old(s.matchAvailable) && s.finished == old(s.finished)
    ensures flush == Finish ==> state != BlockDone
    ensures flush != Finish ==> state != FinishDone && state != FinishStarted
    ensures o.lastRank == old(o.lastRank) && Answered(s, o, state, flush, old(Left(s)))
    ensures path != [] && Path(GreedyRule, path) && path[0] == old(SnapOf(s)) && s.sent + s.block == path[|path| - 1].tokens
  {
    hide *;
    ghost var left := Left(s);
    var stop;
    stop, path := FastSteps(s, o, flush);
    SteppedIs(s, o, flush, left, stop, !stop);
    SnapIs(s);
    if stop { return NeedMore, path; }
    SteadyIs(s);
    EmittedIs(s, 0);
    state := EndBlock(s, o, flush, if s.strstart < 2 then s.strstart else 2);
    AnsweredIs(s, o, state, flush, left);
  }
}
