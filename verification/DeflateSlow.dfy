/** deflate_slow (dep/zlib/deflate.c:1728-1851): a match is only adopted when the next position has no better one. */
module DeflateSlow {
  import opened Bits
  import opened Lz77
  import opened DeflateHash
  import opened DeflateChains
  import opened DeflateState
  import opened DeflateFill
  import opened DeflateMatch
  import opened DeflateTally
  import opened DeflateFast
  import opened DeflateTurns
  import opened DeflateOutput

  /**
   n bytes at p that are a match, or no match. The position of the match is only known as a 32-bit distance: after the window has
   slid, match_start may lie before the window and wrap around.
   */
  ghost predicate Real(hist: seq<byte>, p: int, d: nat, n: nat, wsize: nat) {
    3 <= n ==> n <= 258 && 0 <= p && d + 262 <= wsize && RealMatch(hist, p, d, n)
  }

  lemma RealIs(hist: seq<byte>, p: int, d: nat, n: nat, wsize: nat)
    ensures Real(hist, p, d, n, wsize) <==> (3 <= n ==> n <= 258 && 0 <= p && d + 262 <= wsize && RealMatch(hist, p, d, n))
  {
    hide RealMatch;
  }

  /** How many bytes before strstart have not been emitted. */
  function Lag(s: Deflate): nat
    reads s
  {
    if s.matchAvailable then 1 else 0
  }

  /** The match of the previous position, between two turns. */
  ghost predicate Pending(s: Deflate)
    reads s
  {
    && s.matchLength >= 2 && (s.matchLength >= 3 ==> s.matchAvailable) && (s.matchAvailable ==> s.strstart > 0)
    && Real(s.hist, |s.hist| - s.end + s.strstart - 1, Minus32(s.strstart - 1, s.matchStart), s.matchLength, s.wsize)
  }

  lemma PendingIs(s: Deflate)
    ensures Pending(s) <==>
            && s.matchLength >= 2 && (s.matchLength >= 3 ==> s.matchAvailable) && (s.matchAvailable ==> s.strstart > 0)
            && Real(s.hist, |s.hist| - s.end + s.strstart - 1, Minus32(s.strstart - 1, s.matchStart), s.matchLength, s.wsize)
    ensures Lag(s) == if s.matchAvailable then 1 else 0
  {
    hide Real;
  }

  lemma RealMore(hist: seq<byte>, p: int, d: nat, n: nat, wsize: nat, more: seq<byte>)
    requires Real(hist, p, d, n, wsize)
    ensures Real(hist + more, p, d, n, wsize)
  {
    if n >= 3 {
      forall k | p <= k < p + n
        ensures (hist + more)[k] == (hist + more)[k - d]
      {
        assert hist[k] == hist[k - d];
      }
    }
  }

  /** A 32-bit difference of the positions before two words. */
  lemma MinusOne(a: int, b: int, a': int, b': int)
    requires Minus32(a, b) == Minus32(a', b')
    ensures Minus32(a - 1, b) == Minus32(a' - 1, b')
  {
    var m := 0x1_0000_0000;
    var q := (a - b) / m - (a' - b') / m;
    assert a - b == a' - b' + q * m;
    ModAdd(a' - 1 - b', q);
  }

  lemma MinusSmall(a: nat, b: nat)
    requires b <= a < 0x1_0000_0000
    ensures Minus32(a, b) == a - b
  {
  }

  /** The search, with what was found at the previous position to beat (dep/zlib/deflate.c:1753-1784). */
  method FindBetter(s: Deflate, filtered: bool) returns (ghost n: nat)
    requires Steady(s) && Hashed(s) && s.lookahead > 0 && s.strstart + 262 <= s.window.Length && 2 <= s.matchLength
    modifies s`matchLength, s`matchStart, s`prevLength, s`prevMatch, s`insH, s`ins, s`top, s`far, s.prev, s.head
    ensures s.Valid() && Inserting(s) && s.prevLength == old(s.matchLength) && s.prevMatch == old(s.matchStart) && s.matchLength >= 2
    ensures s.matchLength >= 3 && s.matchLength > s.prevLength ==>
              s.matchLength <= 258 && s.matchLength <= s.lookahead && Found(s.Seen(), s.matchStart, s.strstart, s.matchLength)
    ensures Looks(old(s.Seen()), old(s.prev[..]), old(s.head[..]), s.config, s.strstart, s.lookahead, old(s.matchLength),
                  old(s.matchLength) < s.config.lazy, 2, old(s.matchStart), n, s.matchStart)
    ensures s.matchLength == Accepted(n, filtered, Minus32(s.strstart, s.matchStart))
    ensures s.Seen() == if s.lookahead >= 3 then Inserted(old(s.Seen()), s.strstart) else old(s.Seen())
  {
    hide *;
    SteadyIs(s);
    s.ValidIs();
    s.ShapeIs();
    ConfigIs(s.config);
    ghost var v, p, h, least, start := s.Seen(), s.prev[..], s.head[..], s.matchLength, s.matchStart;
    var hashHead := FindHead(s);
    InsertedIs(v, s.strstart);
    HeadIs(v, h, s.strstart, s.lookahead);
    Distance(s);
    LooksNothing(v, p, h, s.config, s.strstart, s.lookahead, least, least < s.config.lazy, 2, start);
    n := 2;
    AcceptedIs(n, filtered, Minus32(s.strstart, s.matchStart));
    s.ValidIs();
    s.SeenIs();
    s.prevLength, s.prevMatch := s.matchLength, s.matchStart;
    s.matchLength := 2;
    s.SeenIs();
    s.ValidIs();
    if hashHead != 0 && s.prevLength < s.config.lazy && s.strstart - hashHead <= s.MaxDist() {
      ghost var best;
      n, best := Search(s, hashHead, filtered);
      LooksFound(v, p, h, s.config, s.strstart, s.lookahead, least, 2, start, best, s.matchStart, hashHead);
    }
    InsertingIs(s);
  }

  /** longest_match, and whether its result is worth it (dep/zlib/deflate.c:1769-1783). */
  method Search(s: Deflate, hashHead: nat, filtered: bool) returns (ghost n: nat, ghost best: nat)
    requires s.Valid() && Candidate(s.Seen(), s.strstart, hashHead) && s.far <= s.strstart + 262 && s.lookahead >= 3
    requires 2 <= s.prevLength < 258 && s.strstart + 262 <= s.window.Length
    modifies s`matchLength, s`matchStart
    ensures s.Valid() && s.Seen() == old(s.Seen()) && s.matchLength >= 2
    ensures n == (if best <= s.lookahead then best else s.lookahead)
    ensures s.prev.Length > 0 &&
            BestOf(s.window[..], ChainFrom(s.prev[..], hashHead, Limit(s.strstart, s.wsize), Patience(s.config, s.prevLength)),
                   s.strstart, s.prevLength, Enough(s.config, s.lookahead), best, s.matchStart)
    ensures best == s.prevLength ==> s.matchStart == old(s.matchStart)
    ensures s.matchLength == Accepted(n, filtered, Minus32(s.strstart, s.matchStart))
    ensures s.matchLength >= 3 && s.matchLength > s.prevLength ==>
              s.matchLength <= 258 && s.matchLength <= s.lookahead && Found(s.Seen(), s.matchStart, s.strstart, s.matchLength)
  {
    hide *;
    var length;
    length, best := LongestMatch(s, hashHead);
    AtLeast(s.window[..], ChainFrom(s.prev[..], hashHead, Limit(s.strstart, s.wsize), Patience(s.config, s.prevLength)), s.strstart,
            s.prevLength, Enough(s.config, s.lookahead), best, s.matchStart);
    n := length;
    AcceptedIs(n, filtered, Minus32(s.strstart, s.matchStart));
    s.ValidIs();
    s.SeenIs();
    s.matchLength := if length <= 5 && (filtered || (length == 3 && Minus32(s.strstart, s.matchStart) > 4096)) then 2 else length;
    s.SeenIs();
    s.ValidIs();
  }

  lemma AtLeast(w: seq<byte>, chain: seq<nat>, i: nat, least: nat, nice: nat, n: nat, start: nat)
    requires BestOf(w, chain, i, least, nice, n, start)
    ensures least <= n <= 258
  {
  }

  /** The string at strstart has been inserted, if there is enough of it. */
  ghost predicate Inserting(s: Deflate)
    reads s, s.window
  {
    && s.top + s.insert <= s.strstart + 1 && s.far <= s.strstart + 1 && s.strstart + s.lookahead == s.end
    && (s.lookahead < 3 ==> s.top + s.insert <= s.strstart)
    && (s.lookahead >= 3 ==>
         && s.insert == 0 && s.strstart + 2 < s.window.Length
         && Ready(s.c, s.insH, s.window[s.strstart + 1], s.window[s.strstart + 2]))
  }

  lemma InsertingIs(s: Deflate)
    ensures Inserting(s) <==>
            && s.top + s.insert <= s.strstart + 1 && s.far <= s.strstart + 1 && s.strstart + s.lookahead == s.end
            && (s.lookahead < 3 ==> s.top + s.insert <= s.strstart)
            && (s.lookahead >= 3 ==>
                 && s.insert == 0 && s.strstart + 2 < s.window.Length
                 && Ready(s.c, s.insH, s.window[s.strstart + 1], s.window[s.strstart + 2]))
  {
    hide Ready;
  }

  lemma RangeNone(v: View, first: nat, end: nat)
    ensures InsertRange(v, first, Upto(first, end)) == v
  {
  }

  lemma RangeOn(v: View, first: nat, i: nat, end: nat)
    requires first <= i
    ensures InsertRange(v, first, Upto(i + 1, end))
         == if i + 3 <= end then Inserted(InsertRange(v, first, Upto(i, end)), i) else InsertRange(v, first, Upto(i, end))
  {
    hide Inserted, InsertRange;
    InsertRangeNext(v, first, i);
  }

  /** if (++strstart <= max_insert) INSERT_STRING, and prev_length is counted down. */
  method InsertNext(s: Deflate, maxInsert: int)
    requires s.Valid() && s.prevLength > 0 && s.strstart < s.end < 0x1_0000_0000 && maxInsert + 3 == s.end
    requires s.top + s.insert <= s.strstart + 1 && s.far <= s.strstart + 1
    requires s.strstart + 4 <= s.end ==>
               s.insert == 0 && s.strstart + 2 < s.window.Length && Ready(s.c, s.insH, s.window[s.strstart + 1], s.window[s.strstart + 2])
    modifies s`prevLength, s`strstart, s`insH, s`ins, s`top, s`far, s.prev, s.head
    ensures s.Valid() && s.prevLength == old(s.prevLength) - 1 && s.strstart == old(s.strstart) + 1
    ensures s.far <= s.strstart + 1
    ensures if s.strstart + 3 <= s.end then s.top <= s.strstart + 1 else s.top == old(s.top)
    ensures s.strstart + 4 <= s.end ==>
              s.strstart + 2 < s.window.Length && Ready(s.c, s.insH, s.window[s.strstart + 1], s.window[s.strstart + 2])
    ensures s.Seen() == if s.strstart <= maxInsert then Inserted(old(s.Seen()), s.strstart) else old(s.Seen())
  {
    hide *;
    s.ValidIs();
    s.ShapeIs();
    s.SeenIs();
    s.strstart := s.strstart + 1;
    s.SeenIs();
    s.ValidIs();
    if s.strstart <= maxInsert {
      var hashHead := s.InsertString(s.strstart);
    }
    s.ValidIs();
    s.SeenIs();
    s.prevLength := s.prevLength - 1;
    s.SeenIs();
    s.ValidIs();
  }

  /**
   The strings inside the match at strstart - 1 are inserted, as far as there are three bytes of them
   (dep/zlib/deflate.c:1802-1811). prevLength is the length of the match.
   */
  method InsertPrevious(s: Deflate)
    requires s.Valid() && Inserting(s) && 3 <= s.prevLength <= s.lookahead + 1 && s.end + 1 < 0x1_0000_0000
    modifies s`prevLength, s`lookahead, s`strstart, s`insH, s`ins, s`top, s`far, s.prev, s.head
    ensures Steady(s) && Hashed(s) && s.strstart == old(s.strstart + s.prevLength) - 1
    ensures s.lookahead == old(s.lookahead - s.prevLength) + 1
    ensures s.Seen() == InsertRange(old(s.Seen()), old(s.strstart) + 1, Upto(s.strstart, old(s.strstart + s.lookahead)))
  {
    hide *;
    s.ValidIs();
    s.ShapeIs();
    InsertingIs(s);
    s.SeenIs();
    var maxInsert := s.strstart + s.lookahead - 3;
    s.SeenIs();
    s.lookahead := s.lookahead - (s.prevLength - 1);
    s.prevLength := s.prevLength - 2;
    s.SeenIs();
    s.ValidIs();
    InsertInside(s, maxInsert);
    s.ValidIs();
    s.ShapeIs();
    s.SeenIs();
    s.strstart := s.strstart + 1;
    s.SeenIs();
    s.ValidIs();
    SteadyIs(s);
    HashedIs(s);
  }

  /** The do loop over the strings inside the match; prevLength counts them. */
  method InsertInside(s: Deflate, maxInsert: int)
    requires s.Valid() && s.prevLength > 0 && s.strstart + s.prevLength < s.end < 0x1_0000_0000 && maxInsert + 3 == s.end
    requires s.top + s.insert <= s.strstart + 1 && s.far <= s.strstart + 1
    requires s.strstart + 3 <= s.end ==>
               s.insert == 0 && s.strstart + 2 < s.window.Length && Ready(s.c, s.insH, s.window[s.strstart + 1], s.window[s.strstart + 2])
    requires s.strstart + 3 > s.end ==> s.top + s.insert <= s.strstart
    modifies s`prevLength, s`strstart, s`insH, s`ins, s`top, s`far, s.prev, s.head
    ensures s.Valid() && s.prevLength == 0 && s.strstart == old(s.strstart + s.prevLength)
    ensures s.top + s.insert <= s.strstart + 1 && s.far <= s.strstart + 1
    ensures old(s.strstart) + 3 <= s.end ==> s.insert == 0
    ensures old(s.strstart) + 3 > s.end ==> s.top + s.insert <= s.strstart && s.strstart + 4 > s.end
    ensures s.strstart + 4 <= s.end ==>
              s.strstart + 2 < s.window.Length && Ready(s.c, s.insH, s.window[s.strstart + 1], s.window[s.strstart + 2])
    ensures s.Seen() == InsertRange(old(s.Seen()), old(s.strstart) + 1, Upto(s.strstart + 1, s.end))
  {
    hide *;
    ghost var v, first, last, insert := s.Seen(), s.strstart + 1, s.strstart + s.prevLength, s.strstart + 3 <= s.end;
    RangeNone(v, first, s.end);
    while s.prevLength > 0
      invariant s.Valid() && s.prevLength >= 0 && s.strstart + s.prevLength == last
      invariant s.top + s.insert <= s.strstart + 1 && s.far <= s.strstart + 1
      invariant insert ==> s.insert == 0
      invariant !insert ==> s.top + s.insert <= s.strstart && s.strstart + 3 > s.end && (s.strstart >= first ==> s.strstart + 4 > s.end)
      invariant s.strstart + 4 <= s.end ==>
                  s.strstart + 2 < s.window.Length && Ready(s.c, s.insH, s.window[s.strstart + 1], s.window[s.strstart + 2])
      invariant first <= s.strstart + 1 && s.Seen() == InsertRange(v, first, Upto(s.strstart + 1, s.end))
      decreases s.prevLength
    {
      RangeOn(v, first, s.strstart + 1, s.end);
      InsertNext(s, maxInsert);
    }
  }

  /** The match of the previous position is emitted (dep/zlib/deflate.c:1788-1813). */
  method PutPrevious(s: Deflate) returns (full: bool)
    requires s.Valid() && Inserting(s) && s.prevLength >= 3 && s.matchAvailable && s.strstart > 0 && Emitted(s, 1)
    requires Real(s.hist, |s.hist| - s.end + s.strstart - 1, Minus32(s.strstart - 1, s.prevMatch), s.prevLength, s.wsize)
    modifies s`matchLength, s`matchAvailable, s`prevLength, s`lookahead, s`strstart, s`insH, s`ins, s`top, s`far, s`block, s.prev, s.head
    ensures Steady(s) && Hashed(s) && Turned(s, full) && Pending(s) && !s.matchAvailable && s.lookahead < old(s.lookahead)
    ensures s.block == old(s.block) + [Pair(old(s.prevLength), Minus32(old(s.strstart) - 1, s.prevMatch))] && s.matchLength == 2
    ensures s.strstart == old(s.strstart + s.prevLength) - 1 && s.lookahead == old(s.lookahead - s.prevLength) + 1
    ensures s.Seen() == InsertRange(old(s.Seen()), old(s.strstart) + 1, Upto(s.strstart, old(s.strstart + s.lookahead)))
  {
    hide *;
    s.ValidIs();
    s.ShapeIs();
    s.SeenIs();
    InsertingIs(s);
    EmittedIs(s, 1);
    ghost var q, p := |s.hist| - s.end + s.blockStart, |s.hist| - s.end + s.strstart - 1;
    RealIs(s.hist, p, Minus32(s.strstart - 1, s.prevMatch), s.prevLength, s.wsize);
    ToldPair(s.wsize, s.sent, s.block, s.hist, q, p, Minus32(s.strstart - 1, s.prevMatch), s.prevLength);
    full := TallyDist(s, Minus32(s.strstart - 1, s.prevMatch), s.prevLength - 3);
    s.SeenIs();
    s.ValidIs();
    InsertingIs(s);
    InsertPrevious(s);
    SteadyIs(s);
    s.ValidIs();
    TurnedIs(s, full);
    NoMatch(s, full);
  }

  /** No match is pending. */
  method NoMatch(s: Deflate, ghost full: bool)
    requires Steady(s) && Hashed(s) && Turned(s, full)
    modifies s`matchAvailable, s`matchLength
    ensures Steady(s) && Hashed(s) && Turned(s, full) && Pending(s) && !s.matchAvailable && s.matchLength == 2
    ensures s.Seen() == old(s.Seen())
  {
    hide *;
    SteadyIs(s);
    s.ValidIs();
    s.SeenIs();
    HashedIs(s);
    TurnedIs(s, full);
    s.matchAvailable := false;
    s.matchLength := 2;
    s.SeenIs();
    s.ValidIs();
    SteadyIs(s);
    HashedIs(s);
    TurnedIs(s, full);
    RealIs(s.hist, |s.hist| - s.end + s.strstart - 1, Minus32(s.strstart - 1, s.matchStart), 2, s.wsize);
    PendingIs(s);
  }

  /** A literal for the byte before strstart (dep/zlib/deflate.c:1820-1821). */
  method PutByteBefore(s: Deflate) returns (full: bool)
    requires s.Valid() && Emitted(s, 1) && 0 < s.strstart
    modifies s`block
    ensures s.Valid() && s.Seen() == old(s.Seen()) && Turned(s, full) && s.block == old(s.block) + [Literal(s.window[s.strstart - 1])]
  {
    hide *;
    s.ValidIs();
    s.ShapeIs();
    s.SeenIs();
    EmittedIs(s, 1);
    ghost var q, p := |s.hist| - s.end + s.blockStart, |s.hist| - s.end + s.strstart - 1;
    ToldIs(s.wsize, s.sent, s.block, s.hist, q, p);
    SuffixOne(s.window[..], s.end, s.hist, s.strstart - 1);
    ToldLiteral(s.wsize, s.sent, s.block, s.hist, q, p, s.window[s.strstart - 1]);
    full := TallyLit(s, s.window[s.strstart - 1]);
    s.SeenIs();
    s.ValidIs();
    TurnedIs(s, full);
  }

  /** On to the next byte, with the match at this one pending. */
  method StepOn(s: Deflate)
    requires s.Valid() && Inserting(s) && s.lookahead > 0 && Emitted(s, 0)
    requires s.matchLength >= 2 && (s.matchLength >= 3 ==>
               s.matchLength <= 258 && s.matchLength <= s.lookahead && Found(s.Seen(), s.matchStart, s.strstart, s.matchLength))
    modifies s`matchAvailable, s`strstart, s`lookahead
    ensures Steady(s) && Hashed(s) && Emitted(s, 1) && Pending(s) && s.matchAvailable && s.lookahead == old(s.lookahead) - 1
    ensures s.strstart == old(s.strstart) + 1 && s.Seen() == old(s.Seen())
  {
    hide *;
    s.ValidIs();
    s.ShapeIs();
    s.SeenIs();
    InsertingIs(s);
    EmittedIs(s, 0);
    if s.matchLength >= 3 {
      FoundIs(s.Seen(), s.matchStart, s.strstart, s.matchLength);
      FoundReal(s.Seen(), s.hist, s.matchStart, s.strstart, s.matchLength);
      MinusSmall(s.strstart, s.matchStart);
    }
    ghost var q, p := |s.hist| - s.end + s.blockStart, |s.hist| - s.end + s.strstart;
    ToldIs(s.wsize, s.sent, s.block, s.hist, q, p);
    RealIs(s.hist, p, Minus32(s.strstart, s.matchStart), s.matchLength, s.wsize);
    s.matchAvailable := true;
    s.strstart := s.strstart + 1;
    s.lookahead := s.lookahead - 1;
    s.SeenIs();
    s.ValidIs();
    SteadyIs(s);
    HashedIs(s);
    EmittedIs(s, 1);
    PendingIs(s);
  }

  /**
   One turn of the loop (dep/zlib/deflate.c:1750-1835): whether it has to stop for want of room. The match of the previous position is
   emitted when the one at strstart is not longer; otherwise the byte before strstart is, if it is waiting, and the match at strstart waits.
   */
  method SlowTurn(s: Deflate, o: Output, filtered: bool) returns (stop: bool, ghost n: nat, ghost start: nat)
    requires Steady(s) && Hashed(s) && Pending(s) && Emitted(s, Lag(s)) && s.lookahead > 0 && s.strstart + 262 <= s.window.Length
    requires o.Clear()
    modifies s`matchLength, s`matchStart, s`prevLength, s`prevMatch, s`matchAvailable, s`lookahead, s`strstart, s`insH, s`ins, s`top, s`far
    modifies s`block, s`sent, s`blockStart, s.prev, s.head, o
    ensures Steady(s) && Hashed(s) && Pending(s) && Emitted(s, Lag(s)) && s.lookahead < old(s.lookahead)
    ensures o.lastRank == old(o.lastRank) && if stop then o.availOut == 0 else o.Clear()
    ensures LazyTurn(old(SnapOf(s)), SnapOf(s), filtered, n, start) && Turn(LazyRule(filtered), old(SnapOf(s)), SnapOf(s))
  {
    hide *;
    SteadyIs(s);
    s.ValidIs();
    s.ShapeIs();
    s.SeenIs();
    PendingIs(s);
    EmittedIs(s, Lag(s));
    SnapIs(s);
    ghost var snap := SnapOf(s);
    n := FindBetter(s, filtered);
    start := s.matchStart;
    EmittedIs(s, if s.matchAvailable then 1 else 0);
    stop := false;
    if s.prevLength >= 3 && s.matchLength <= s.prevLength {
      Associate(s.sent, s.block, [Pair(s.prevLength, Minus32(s.strstart - 1, s.prevMatch))]);
      var full := PutPrevious(s);
      PendingIs(s);
      stop := FlushIfFull(s, o, full);
    } else if s.matchAvailable {
      ByteAndOn(s, o);
      stop := o.availOut == 0;
    } else {
      StepOn(s);
    }
    PendingIs(s);
    SnapIs(s);
    LazyTurnIs(snap, SnapOf(s), filtered, n, start);
    LazyTurnOf(snap, SnapOf(s), filtered, n, start);
  }

  /** The byte before strstart has no match, or one that is worse than the one at strstart (dep/zlib/deflate.c:1815-1827). */
  method ByteAndOn(s: Deflate, o: Output)
    requires s.Valid() && Inserting(s) && s.lookahead > 0 && Emitted(s, 1) && s.strstart > 0
    requires s.matchLength >= 2 && (s.matchLength >= 3 ==>
               s.matchLength <= 258 && s.matchLength <= s.lookahead && Found(s.Seen(), s.matchStart, s.strstart, s.matchLength))
    requires o.Clear()
    modifies s`matchAvailable, s`strstart, s`lookahead, s`block, s`sent, s`blockStart, o
    ensures o.lastRank == old(o.lastRank) && (o.Clear() || o.availOut == 0)
    ensures Steady(s) && Hashed(s) && Emitted(s, 1) && Pending(s) && s.matchAvailable && s.lookahead == old(s.lookahead) - 1
    ensures s.sent + s.block == old(s.sent + s.block) + [Literal(old(s.window[s.strstart - 1]))]
    ensures s.strstart == old(s.strstart) + 1 && s.Seen() == old(s.Seen())
  {
    hide *;
    s.ValidIs();
    s.ShapeIs();
    Associate(s.sent, s.block, [Literal(s.window[s.strstart - 1])]);
    InsertingIs(s);
    var full := PutByteBefore(s);
    InsertingIs(s);
    TurnedIs(s, full);
    if full {
      FlushBlock(s, o);
      InsertingIs(s);
    } else {
      EmittedIs(s, 0);
    }
    StepOn(s);
  }

  /** A match that is worth it. */
  ghost predicate Worth(n: nat, d: nat, filtered: bool) {
    n >= 3 ==> (filtered ==> n >= 6) && (n == 3 ==> d <= 4096)
  }

  ghost predicate Choosy(ts: seq<Token>, filtered: bool) {
    forall t :: t in ts && t.Pair? ==> Worth(t.length, t.distance, filtered)
  }

  /** All matches have been worth it, and so is the one that waits. */
  ghost predicate Picky(s: Deflate, filtered: bool)
    reads s`sent, s`block, s`matchLength, s`matchStart, s`strstart
  {
    Choosy(s.sent + s.block, filtered) && Worth(s.matchLength, Minus32(s.strstart - 1, s.matchStart), filtered)
  }

  lemma PickyIs(s: Deflate, filtered: bool)
    ensures Picky(s, filtered) <==>
              Choosy(s.sent + s.block, filtered) && Worth(s.matchLength, Minus32(s.strstart - 1, s.matchStart), filtered)
  {
    hide Choosy, Worth;
  }

  lemma ChoosyMore(ts: seq<Token>, t: Token, filtered: bool)
    requires t.Pair? ==> Worth(t.length, t.distance, filtered)
    ensures Choosy(ts, filtered) ==> Choosy(ts + [t], filtered)
  {
    hide Worth;
  }

  lemma AcceptedWorth(n: nat, filtered: bool, d: nat)
    ensures Worth(Accepted(n, filtered, d), d, filtered) && Worth(2, d, filtered)
  {
  }

  lemma ShortWorth(n: nat, d: nat, filtered: bool)
    requires n < 3
    ensures Worth(n, d, filtered)
  {
  }

  /** One turn, with the look ahead: it stops for want of input or of room, or the input is over. */
  method SlowStep(s: Deflate, o: Output, flush: Flush, filtered: bool) returns (stop: bool, over: bool, ghost path: seq<Snap>)
    requires Steady(s) && Hashed(s) && Pending(s) && Emitted(s, Lag(s)) && o.Clear()
    modifies s`matchLength, s`matchStart, s`prevLength, s`prevMatch, s`matchAvailable, s`lookahead, s`strstart, s`insH, s`ins, s`top, s`far
    modifies s`block, s`sent, s`blockStart, s`next, s`hist, s`insert, s`end, s.window, s.prev, s.head, o
    ensures Steady(s) && Hashed(s) && Pending(s) && Emitted(s, Lag(s))
    ensures old(s.next) <= s.next <= |s.input| && s.hist == old(s.hist) + s.input[old(s.next)..s.next]
    ensures Stepped(s, o, flush, old(Left(s)), stop, over) && o.lastRank == old(o.lastRank)
    ensures !stop && !over ==> Left(s) < old(Left(s))
    ensures old(Picky(s, filtered)) ==> Picky(s, filtered)
    ensures Leads(LazyRule(filtered), old(SnapOf(s)), path, SnapOf(s)) && (!stop && !over ==> |path| == 2)
  {
    hide *;
    LeftIs(s);
    PickyIs(s, filtered);
    ghost var left, snap := Left(s), SnapOf(s);
    stop := AheadPending(s, flush);
    over := !stop && s.lookahead == 0;
    LeftIs(s);
    PickyIs(s, filtered);
    path := [SnapOf(s)];
    LeadsFirst(LazyRule(filtered), snap, SnapOf(s));
    if !stop && !over {
      stop := PickyTurn(s, o, filtered);
      LeadsOn(LazyRule(filtered), snap, path, path[0], SnapOf(s));
      path := path + [SnapOf(s)];
      LeftIs(s);
    }
    SteppedIs(s, o, flush, left, stop, over);
    AnsweredIs(s, o, NeedMore, flush, left);
  }

  /** A turn emits nothing that is not worth it. */
  method PickyTurn(s: Deflate, o: Output, filtered: bool) returns (stop: bool)
    requires Steady(s) && Hashed(s) && Pending(s) && Emitted(s, Lag(s)) && s.lookahead > 0 && s.strstart + 262 <= s.window.Length
    requires o.Clear()
    modifies s`matchLength, s`matchStart, s`prevLength, s`prevMatch, s`matchAvailable, s`lookahead, s`strstart, s`insH, s`ins, s`top, s`far
    modifies s`block, s`sent, s`blockStart, s.prev, s.head, o
    ensures Steady(s) && Hashed(s) && Pending(s) && Emitted(s, Lag(s)) && s.lookahead < old(s.lookahead)
    ensures o.lastRank == old(o.lastRank) && if stop then o.availOut == 0 else o.Clear()
    ensures old(Picky(s, filtered)) ==> Picky(s, filtered)
    ensures Turn(LazyRule(filtered), old(SnapOf(s)), SnapOf(s))
  {
    hide *;
    PickyIs(s, filtered);
    SnapIs(s);
    s.SeenIs();
    ghost var snap := SnapOf(s);
    SteadyIs(s);
    s.ValidIs();
    s.ShapeIs();
    ghost var n, start, ts, length, distance, i, w := 0, 0, s.sent + s.block, s.matchLength, Minus32(s.strstart - 1, s.matchStart), s.strstart, s.window[..];
    if Picky(s, filtered) && length >= 3 { ChoosyMore(ts, Pair(length, distance), filtered); }
    if 0 < i { ChoosyMore(ts, Literal(w[i - 1]), filtered); }
    stop, n, start := SlowTurn(s, o, filtered);
    AcceptedWorth(n, filtered, Minus32(i, start));
    AcceptedWorth(n, filtered, Minus32(s.strstart - 1, s.matchStart));
    SnapIs(s);
    LazyTurnIs(snap, SnapOf(s), filtered, n, start);
    PickyIs(s, filtered);
  }

  /** The loop: it ends when it has to stop, or at the end of the input. */
  method SlowSteps(s: Deflate, o: Output, flush: Flush, filtered: bool) returns (stop: bool, ghost path: seq<Snap>)
    requires Steady(s) && Hashed(s) && Pending(s) && Emitted(s, Lag(s)) && o.Clear()
    modifies s`matchLength, s`matchStart, s`prevLength, s`prevMatch, s`matchAvailable, s`lookahead, s`strstart, s`insH, s`ins, s`top, s`far
    modifies s`block, s`sent, s`blockStart, s`next, s`hist, s`insert, s`end, s.window, s.prev, s.head, o
    ensures Steady(s) && Hashed(s) && Pending(s) && Emitted(s, Lag(s))
    ensures old(s.next) <= s.next <= |s.input| && s.hist == old(s.hist) + s.input[old(s.next)..s.next]
    ensures Stepped(s, o, flush, old(Left(s)), stop, !stop) && o.lastRank == old(o.lastRank)
    ensures old(Picky(s, filtered)) ==> Picky(s, filtered)
    ensures path != [] && Path(LazyRule(filtered), path) && path[0] == old(SnapOf(s)) && path[|path| - 1] == SnapOf(s)
  {
    hide *;
    ghost var hist, next, left := s.hist, s.next, Left(s);
    SteadyIs(s);
    s.ValidIs();
    assert hist == hist + s.input[next..next];
    var over := false;
    stop := false;
    SteppedIs(s, o, flush, left, stop, over);
    path := [SnapOf(s)];
    PathFrom(LazyRule(filtered), SnapOf(s));
    while !stop && !over
      invariant Steady(s) && Hashed(s) && Pending(s) && Emitted(s, Lag(s))
      invariant next <= s.next <= |s.input| && s.hist == hist + s.input[next..s.next]
      invariant Stepped(s, o, flush, left, stop, over) && o.lastRank == old(o.lastRank)
      invariant old(Picky(s, filtered)) ==> Picky(s, filtered)
      invariant path != [] && Path(LazyRule(filtered), path) && path[0] == old(SnapOf(s)) && path[|path| - 1] == SnapOf(s)
      decreases !stop && !over, Left(s)
    {
      ghost var n, was, more := s.next, Left(s), [];
      SteppedIs(s, o, flush, left, stop, over);
      stop, over, more := SlowStep(s, o, flush, filtered);
      PathJoin(LazyRule(filtered), path, more, SnapOf(s));
      path := path + more;
      Pieces(hist, s.input, next, n, s.next);
      LeftIs(s);
      SteppedFrom(s, o, flush, left, was, stop, over);
    }
    SteppedIs(s, o, flush, left, stop, over);
    SteppedIs(s, o, flush, left, stop, !stop);
  }

  /**
   deflate_slow. When it does not ask for more, all the input has become tokens, and they have been handed on. The tokens are those of a path
   of turns from the state before, and at the end of the input the byte that waits.
   */
  method EncodeSlow(s: Deflate, o: Output, flush: Flush, filtered: bool) returns (state: BlockState, ghost path: seq<Snap>)
    requires Steady(s) && Hashed(s) && Pending(s) && Emitted(s, Lag(s)) && o.Clear()
    modifies s, s.window, s.prev, s.head, o
    ensures Steady(s) && Hashed(s) && Pending(s) && Emitted(s, Lag(s))
    ensures s.input == old(s.input) && old(s.next) <= s.next <= |s.input| && s.hist == old(s.hist) + s.input[old(s.next)..s.next]
    ensures state == NeedMore || (s.next == |s.input| && s.lookahead == 0 && s.block == [] && !s.matchAvailable)
    ensures s.finished == old(s.finished)
    ensures flush == Finish ==> state != BlockDone
    ensures flush != Finish ==> state != FinishDone && state != FinishStarted
    ensures o.lastRank == old(o.lastRank) && Answered(s, o, state, flush, old(Left(s)))
    ensures old(Picky(s, filtered)) ==> Picky(s, filtered)
    ensures state != NeedMore ==> s.matchLength < 3
    ensures path != [] && Path(LazyRule(filtered), path) && path[0] == old(SnapOf(s))
    ensures var last := path[|path| - 1];
            && last.i <= |last.v.w| && (last.waits ==> 0 < last.i)
            && (s.sent + s.block == last.tokens
                || (last.lookahead == 0 && last.waits && s.sent + s.block == last.tokens + [Literal(last.v.w[last.i - 1])]))
  {
    hide *;
    ghost var left := Left(s);
    var stop;
    stop, path := SlowSteps(s, o, flush, filtered);
    SteppedIs(s, o, flush, left, stop, !stop);
    PickyIs(s, filtered);
    SnapIs(s);
    SteadyIs(s);
    s.ValidIs();
    s.ShapeIs();
    s.SeenIs();
    PendingIs(s);
    if stop { return NeedMore, path; }
    if 0 < s.strstart { ChoosyMore(s.sent + s.block, Literal(s.window[s.strstart - 1]), filtered); }
    state := EndSlow(s, o, flush);
    ShortWorth(s.matchLength, Minus32(s.strstart - 1, s.matchStart), filtered);
    PickyIs(s, filtered);
    AnsweredIs(s, o, state, flush, left);
  }

  /** Looking ahead keeps the pending match, though its position may leave the window. */
  method AheadPending(s: Deflate, flush: Flush) returns (stop: bool)
    requires Steady(s) && Hashed(s) && Pending(s) && Emitted(s, Lag(s))
    modifies s`next, s`lookahead, s`hist, s`insH, s`insert, s`strstart, s`matchStart, s`blockStart, s`end, s`ins, s`top, s`far
    modifies s.window, s.prev, s.head
    ensures Steady(s) && Hashed(s) && Pending(s) && Emitted(s, Lag(s)) && s.strstart + 262 <= s.window.Length
    ensures old(s.next) <= s.next <= |s.input| && s.hist == old(s.hist) + s.input[old(s.next)..s.next]
    ensures s.lookahead == old(s.lookahead) + (s.next - old(s.next))
    ensures stop ==> flush == NoFlush && s.next == |s.input|
    ensures !stop && s.lookahead == 0 ==> s.next == |s.input|
    ensures Minus32(s.strstart - 1, s.matchStart) == old(Minus32(s.strstart - 1, s.matchStart))
    ensures Filled(old(SnapOf(s)), SnapOf(s))
  {
    hide *;
    PendingIs(s);
    ghost var hist, next, i: int, start := s.hist, s.next, s.strstart, s.matchStart;
    ghost var p := |s.hist| - s.end + s.strstart - 1;
    stop := LookAhead(s, flush, 262, if s.matchAvailable then 1 else 0);
    RealMore(hist, p, Minus32(i - 1, start), s.matchLength, s.wsize, s.input[next..s.next]);
    MinusOne(i, start, s.strstart, s.matchStart);
    PendingIs(s);
  }

  /** The last byte, and the end of the block (dep/zlib/deflate.c:1837-1850). */
  method EndSlow(s: Deflate, o: Output, flush: Flush) returns (state: BlockState)
    requires Steady(s) && Hashed(s) && Pending(s) && Emitted(s, Lag(s)) && s.lookahead == 0
    requires o.Clear()
    modifies s`matchAvailable, s`matchLength, s`insert, s`top, s`block, s`sent, s`blockStart, o
    ensures o.lastRank == old(o.lastRank) && if state == NeedMore || state == FinishStarted then o.availOut == 0 else o.Clear()
    ensures Steady(s) && Hashed(s) && Emitted(s, Lag(s)) && Pending(s) && !s.matchAvailable
    ensures state == NeedMore || s.block == []
    ensures flush == Finish <==> state == FinishDone || state == FinishStarted
    ensures old(s.matchAvailable) ==> 0 < s.strstart && s.sent + s.block == old(s.sent + s.block) + [Literal(old(s.window[s.strstart - 1]))]
    ensures !old(s.matchAvailable) ==> s.sent + s.block == old(s.sent + s.block)
    ensures s.matchLength < 3
  {
    hide *;
    SteadyIs(s);
    s.ValidIs();
    PendingIs(s);
    ghost var p, d := |s.hist| - s.end + s.strstart - 1, Minus32(s.strstart - 1, s.matchStart);
    RealFits(s.hist, p, d, s.matchLength, s.wsize);
    var full := false;
    if s.matchAvailable {
      EmittedIs(s, 1);
      s.ShapeIs();
      Associate(s.sent, s.block, [Literal(s.window[s.strstart - 1])]);
      full := PutByteBefore(s);
    } else {
      EmittedIs(s, 0);
      TurnedIs(s, false);
    }
    s.SeenIs();
    TurnedIs(s, full);
    s.matchAvailable := false;
    s.SeenIs();
    s.ValidIs();
    SteadyIs(s);
    state := EndBlock(s, o, flush, if s.strstart < 2 then s.strstart else 2);
    EmittedIs(s, 0);
    RealIs(s.hist, p, d, 2, s.wsize);
    PendingIs(s);
  }

  lemma RealFits(hist: seq<byte>, p: int, d: nat, n: nat, wsize: nat)
    requires Real(hist, p, d, n, wsize) && p + 3 > |hist|
    ensures n < 3
  {
  }
}
