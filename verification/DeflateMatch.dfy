/** longest_match (dep/zlib/deflate.c:1146-1287): following a hash chain for the longest match. */
module DeflateMatch {
  import opened Bits
  import opened DeflateHash
  import opened DeflateChains
  import opened DeflateState

  /** The n bytes at j and at i are the same. */
  ghost predicate Same(w: seq<byte>, j: nat, i: nat, n: nat) {
    j + n <= |w| && i + n <= |w| && w[j..j + n] == w[i..i + n]
  }

  lemma SameOne(w: seq<byte>, j: nat, i: nat, n: nat)
    requires j + n < |w| && i + n < |w| && Same(w, j, i, n) && w[j + n] == w[i + n]
    ensures Same(w, j, i, n + 1)
  {
    assert w[j..j + n + 1] == w[j..j + n] + [w[j + n]] && w[i..i + n + 1] == w[i..i + n] + [w[i + n]];
  }

  lemma SameLess(w: seq<byte>, j: nat, i: nat, m: nat, n: nat)
    requires Same(w, j, i, n) && m <= n
    ensures Same(w, j, i, m)
  {
    assert w[j..j + m] == w[j..j + n][..m];
    assert w[i..i + m] == w[i..i + n][..m];
  }

  /** More bytes would have to agree. */
  lemma SameMore(w: seq<byte>, j: nat, i: nat, n: nat, m: nat)
    requires Same(w, j, i, m) && n < m
    ensures w[j + n] == w[i + n]
  {
    assert w[j..j + m][n] == w[i..i + m][n];
  }

  /** The third byte is not compared: it is the same because the hash is. */
  lemma FirstThree(c: Hashing, w: seq<byte>, j: nat, i: nat)
    requires HashOk(c) && j + 2 < |w| && i + 2 < |w| && w[j] == w[i] && w[j + 1] == w[i + 1] && HashAt(c, w, j) == HashAt(c, w, i)
    ensures Same(w, j, i, 3)
  {
    ThirdByte(c, w[j], w[j + 1], w[j + 2], w[i + 2]);
    assert w[j..j + 3] == [w[j], w[j + 1], w[j + 2]] && w[i..i + 3] == [w[i], w[i + 1], w[i + 2]];
  }

  /** A string on the chain of the string at i, not too far back. */
  ghost predicate Candidate(v: View, i: nat, j: nat) {
    && j in v.ins && j < i <= j + v.wsize - 262 && i + 2 < |v.w|
    && HashAt(v.c, v.w, j) == HashAt(v.c, v.w, i)
  }

  lemma CandidateIs(v: View, i: nat, j: nat)
    ensures Candidate(v, i, j) <==>
            j in v.ins && j < i <= j + v.wsize - 262 && i + 2 < |v.w| && HashAt(v.c, v.w, j) == HashAt(v.c, v.w, i)
  {
    hide HashAt;
  }

  /** How far the strings at cur and at strstart agree, or 0 when that cannot be more than best (dep/zlib/deflate.c:1240-1267). */
  method MatchLength(s: Deflate, cur: nat, best: nat) returns (len: nat)
    requires s.Shape() && Candidate(s.Seen(), s.strstart, cur) && 1 <= best < 258 && s.strstart + 262 <= s.window.Length
    ensures len <= 258 && Same(s.window[..], cur, s.strstart, len)
    ensures len == 0 ==> !Same(s.window[..], cur, s.strstart, best + 1)
    ensures len > 0 ==> 3 <= len && (len == 258 || !Same(s.window[..], cur, s.strstart, len + 1))
  {
    hide *;
    s.ShapeIs();
    s.SeenIs();
    CandidateIs(s.Seen(), s.strstart, cur);
    ghost var w := s.window[..];
    var scan := s.strstart;
    if s.window[cur + best] != s.window[scan + best] || s.window[cur + best - 1] != s.window[scan + best - 1]
       || s.window[cur] != s.window[scan] || s.window[cur + 1] != s.window[scan + 1]
    {
      SameNone(w, cur, scan);
      Differ(w, cur, scan, best);
      return 0;
    }
    FirstThree(s.c, w, cur, scan);
    len := 3;
    while s.window[scan + len] == s.window[cur + len] && len < 258
      invariant 3 <= len <= 258 && Same(w, cur, scan, len)
    {
      SameOne(w, cur, scan, len);
      len := len + 1;
    }
    if len < 258 && Same(w, cur, scan, len + 1) { SameMore(w, cur, scan, len, len + 1); }
  }

  lemma Differ(w: seq<byte>, j: nat, i: nat, best: nat)
    requires 1 <= best && j + best < |w| && i + best < |w|
    requires w[j + best] != w[i + best] || w[j + best - 1] != w[i + best - 1] || w[j] != w[i] || w[j + 1] != w[i + 1]
    ensures !Same(w, j, i, best + 1)
  {
    if Same(w, j, i, best + 1) {
      SameMore(w, j, i, best, best + 1);
      SameMore(w, j, i, best - 1, best + 1);
      SameMore(w, j, i, 0, best + 1);
      SameMore(w, j, i, 1, best + 1);
    }
  }

  lemma SameNone(w: seq<byte>, j: nat, i: nat)
    requires j <= |w| && i <= |w|
    ensures Same(w, j, i, 0)
  {
  }

  /** The next string on the chain, if it is near enough. */
  lemma NextCandidate(v: View, prev: seq<nat>, head: seq<nat>, i: nat, cur: nat, limit: nat)
    requires Chains(v, prev, head) && Candidate(v, i, cur) && v.far <= i + 262
    requires limit == if i > v.wsize - 262 then i - (v.wsize - 262) else 0
    ensures v.wsize == |prev| && cur % v.wsize < |prev|
    ensures prev[cur % v.wsize] > limit ==> Candidate(v, i, prev[cur % v.wsize])
  {
    hide *;
    CandidateIs(v, i, cur);
    ChainsIs(v, prev, head);
    Follow(v, prev, cur);
    CandidateIs(v, i, prev[cur % v.wsize]);
  }

  /** There is a match at j for the n bytes at i. */
  ghost predicate Found(v: View, j: nat, i: nat, n: nat) {
    j < i <= j + v.wsize - 262 && Same(v.w, j, i, n)
  }

  lemma FoundIs(v: View, j: nat, i: nat, n: nat)
    ensures Found(v, j, i, n) <==> j < i <= j + v.wsize - 262 && Same(v.w, j, i, n)
  {
    hide Same;
  }

  // The search.

  /** The strings that are looked at: from cur along the links, as long as they lie behind limit, and no more than n. */
  ghost function ChainFrom(prev: seq<nat>, cur: nat, limit: nat, n: nat): (chain: seq<nat>)
    requires |prev| > 0
    ensures |chain| <= n && (n > 0 ==> chain != [] && chain[0] == cur)
    decreases n
  {
    if n == 0 then []
    else [cur] + if prev[cur % |prev|] > limit then ChainFrom(prev, prev[cur % |prev|], limit, n - 1) else []
  }

  lemma ChainIs(prev: seq<nat>, cur: nat, limit: nat, n: nat)
    requires |prev| > 0 && n > 0
    ensures ChainFrom(prev, cur, limit, n)
         == [cur] + if prev[cur % |prev|] > limit then ChainFrom(prev, prev[cur % |prev|], limit, n - 1) else []
    ensures ChainFrom(prev, cur, limit, 0) == []
  {
  }

  /** The strings at chain agree with the one at i on at most n bytes. */
  ghost predicate AtMost(w: seq<byte>, chain: seq<nat>, i: nat, n: nat) {
    forall k: nat, m: nat :: k < |chain| && m <= 258 && Same(w, chain[k], i, m) ==> m <= n
  }

  /** The string at place k is the first that agrees on n bytes, and on no more; those before agree on fewer than nice, or no more than least. */
  ghost predicate FirstBest(w: seq<byte>, chain: seq<nat>, i: nat, least: nat, nice: nat, n: nat, k: nat) {
    && k < |chain| && least < n && Same(w, chain[k], i, n) && AtMost(w, chain[k..k + 1], i, n)
    && exists m: nat :: m < n && (m < nice || m <= least) && AtMost(w, chain[..k], i, m)
  }

  /**
   What the search gives: least if no string agrees on more; otherwise the length n of the agreement, up to 258, of the first string
   that agrees on more than least and at least nice bytes, or, if there is none, of the first of those that agree on most.
   */
  ghost predicate BestOf(w: seq<byte>, chain: seq<nat>, i: nat, least: nat, nice: nat, n: nat, start: nat) {
    && least <= n <= 258
    && (n == least ==> AtMost(w, chain, i, least))
    && (n > least ==> (n >= nice || AtMost(w, chain, i, n)) && exists k: nat :: k < |chain| && FirstBest(w, chain, i, least, nice, n, k) && chain[k] == start)
  }

  lemma AtMostMore(w: seq<byte>, chain: seq<nat>, i: nat, n: nat, n': nat, cur: nat)
    requires AtMost(w, chain, i, n) && n <= n' && AtMost(w, [cur], i, n')
    ensures AtMost(w, chain + [cur], i, n')
  {
    hide Same;
    forall k: nat, m: nat | k < |chain| + 1 && m <= 258 && Same(w, (chain + [cur])[k], i, m)
      ensures m <= n'
    {
      if k == |chain| { assert Same(w, [cur][0], i, m); }
    }
  }

  /** What a comparison says of its string. */
  lemma OneAtMost(w: seq<byte>, cur: nat, i: nat, len: nat, best: nat)
    requires len == 0 ==> !Same(w, cur, i, best + 1)
    requires len > 0 ==> len >= 258 || !Same(w, cur, i, len + 1)
    ensures AtMost(w, [cur], i, if len > best then len else best)
    ensures len > 0 ==> AtMost(w, [cur], i, len)
  {
    forall k: nat, m: nat | k < 1 && m <= 258 && Same(w, [cur][k], i, m)
      ensures m <= if len > best then len else best
      ensures len > 0 ==> m <= len
    {
      if len == 0 && m > best { SameLess(w, cur, i, best + 1, m); }
      if len > 0 && m > len { SameLess(w, cur, i, len + 1, m); }
    }
  }

  /** The first string that agrees on more than those before. */
  lemma NewBest(w: seq<byte>, done: seq<nat>, cur: nat, i: nat, least: nat, nice: nat, best: nat, n: nat)
    requires AtMost(w, done, i, best) && least <= best < n && (best < nice || best <= least)
    requires Same(w, cur, i, n) && AtMost(w, [cur], i, n)
    ensures FirstBest(w, done + [cur], i, least, nice, n, |done|)
  {
    hide Same, AtMost;
    var chain := done + [cur];
    assert chain[..|done|] == done && chain[|done|..|done| + 1] == [cur];
  }

  lemma BestKept(w: seq<byte>, done: seq<nat>, more: seq<nat>, i: nat, least: nat, nice: nat, n: nat, k: nat)
    requires FirstBest(w, done, i, least, nice, n, k)
    ensures FirstBest(w, done + more, i, least, nice, n, k) && (done + more)[k] == done[k]
  {
    hide Same, AtMost;
    assert (done + more)[..k] == done[..k] && (done + more)[k..k + 1] == done[k..k + 1];
  }

  /** Between two comparisons: the best of the strings that have been looked at. */
  ghost predicate SoFar(w: seq<byte>, done: seq<nat>, i: nat, least: nat, nice: nat, n: nat, start: nat) {
    && least <= n <= 258 && AtMost(w, done, i, n)
    && (n > least ==> exists k: nat :: k < |done| && FirstBest(w, done, i, least, nice, n, k) && done[k] == start)
  }

  /** One more string has been compared. */
  lemma SoFarNext(w: seq<byte>, done: seq<nat>, cur: nat, i: nat, least: nat, nice: nat, n: nat, start: nat, len: nat)
    requires SoFar(w, done, i, least, nice, n, start) && (n < nice || n == least)
    requires len <= 258 && Same(w, cur, i, len)
    requires len == 0 ==> !Same(w, cur, i, n + 1)
    requires len > 0 ==> len == 258 || !Same(w, cur, i, len + 1)
    ensures SoFar(w, done + [cur], i, least, nice, if len > n then len else n, if len > n then cur else start)
  {
    hide Same, AtMost, FirstBest;
    OneAtMost(w, cur, i, len, n);
    AtMostMore(w, done, i, n, if len > n then len else n, cur);
    if len > n {
      NewBest(w, done, cur, i, least, nice, n, len);
    } else if n > least {
      var k: nat :| k < |done| && FirstBest(w, done, i, least, nice, n, k) && done[k] == start;
      BestKept(w, done, [cur], i, least, nice, n, k);
    }
  }

  /** The search ends: the chain is at its end, or the match is nice. */
  lemma SoFarIsBest(w: seq<byte>, done: seq<nat>, more: seq<nat>, i: nat, least: nat, nice: nat, n: nat, start: nat)
    requires SoFar(w, done, i, least, nice, n, start) && (more == [] || (n >= nice && n > least))
    ensures BestOf(w, done + more, i, least, nice, n, start)
  {
    hide AtMost, FirstBest;
    if more == [] { assert done + more == done; }
    if n > least {
      var k: nat :| k < |done| && FirstBest(w, done, i, least, nice, n, k) && done[k] == start;
      BestKept(w, done, more, i, least, nice, n, k);
    }
  }

  lemma SoFarNone(w: seq<byte>, i: nat, least: nat, nice: nat, start: nat)
    requires least <= 258
    ensures SoFar(w, [], i, least, nice, least, start)
  {
  }

  /** How many strings are looked at, and what is enough. */
  function Patience(c: Config, least: nat): nat {
    if least >= c.good then c.chain / 4 else c.chain
  }

  function Enough(c: Config, lookahead: nat): nat {
    if c.nice > lookahead then lookahead else c.nice
  }

  function Limit(i: nat, wsize: nat): nat {
    if i > wsize - 262 then i - (wsize - 262) else 0
  }

  /**
   longest_match: the best of the strings on the chain from hashHead, as BestOf says, cut to the lookahead. A result above prevLength is
   the length of a match at matchStart. Every comparison stays inside the window.
   */
  method LongestMatch(s: Deflate, hashHead: nat) returns (length: nat, ghost best: nat)
    requires s.Valid() && Candidate(s.Seen(), s.strstart, hashHead) && s.far <= s.strstart + 262
    requires 1 <= s.prevLength < 258 && s.strstart + 262 <= s.window.Length
    modifies s`matchStart
    ensures s.Valid() && length == (if best <= s.lookahead then best else s.lookahead) && length <= 258
    ensures s.prev.Length > 0 &&
            BestOf(s.window[..], ChainFrom(s.prev[..], hashHead, Limit(s.strstart, s.wsize), Patience(s.config, s.prevLength)),
                   s.strstart, s.prevLength, Enough(s.config, s.lookahead), best, s.matchStart)
    ensures best == s.prevLength ==> s.matchStart == old(s.matchStart)
    ensures length > s.prevLength ==> Found(s.Seen(), s.matchStart, s.strstart, length)
    ensures s.Seen() == old(s.Seen())
  {
    hide *;
    s.ValidIs();
    s.ShapeIs();
    s.SeenIs();
    ConfigIs(s.config);
    ghost var v, p, h, i := s.Seen(), s.prev[..], s.head[..], s.strstart;
    SearchBounds(s.config, s.prevLength, s.lookahead, i, s.wsize);
    var cur: nat := hashHead;
    var chainLength, bestLen, niceMatch := s.config.chain, s.prevLength, s.config.nice;
    var limit := if s.strstart > s.wsize - 262 then s.strstart - (s.wsize - 262) else 0;
    if s.prevLength >= s.config.good { chainLength := chainLength / 4; }
    if niceMatch > s.lookahead { niceMatch := s.lookahead; }
    ghost var chain, done, left := ChainFrom(p, cur, limit, chainLength), [], ChainFrom(p, cur, limit, chainLength);
    assert done + left == chain;
    SoFarNone(v.w, i, s.prevLength, niceMatch, s.matchStart);
    var more := true;
    while more
      invariant s.matchStart < 0x1_0000_0000
      invariant more ==> Candidate(v, i, cur) && chainLength > 0 && 1 <= bestLen < 258
      invariant s.prevLength <= bestLen <= 258
      invariant bestLen > s.prevLength ==> Found(v, s.matchStart, i, bestLen)
      invariant bestLen == s.prevLength ==> s.matchStart == old(s.matchStart)
      invariant SoFar(v.w, done, i, s.prevLength, niceMatch, bestLen, s.matchStart) && done + left == chain
      invariant more ==> left == ChainFrom(p, cur, limit, chainLength) && (bestLen < niceMatch || bestLen == s.prevLength)
      invariant !more ==> left == [] || (bestLen >= niceMatch && bestLen > s.prevLength)
      decreases more, chainLength
    {
      s.SeenIs();
      var len := MatchLength(s, cur, bestLen);
      SoFarNext(v.w, done, cur, i, s.prevLength, niceMatch, bestLen, s.matchStart, len);
      ChainIs(p, cur, limit, chainLength);
      Passed(done, cur, left);
      done, left := done + [cur], left[1..];
      if len > bestLen {
        CandidateIs(v, i, cur);
        FoundIs(v, cur, i, len);
        s.matchStart := cur;
        bestLen := len;
        if len >= niceMatch { more := false; }
      }
      if more {
        NextCandidate(v, p, h, i, cur, limit);
        ChainIs(p, s.prev[cur % s.wsize], limit, if chainLength > 1 then chainLength - 1 else 1);
        cur := s.prev[cur % s.wsize];
        chainLength := chainLength - 1;
        more := cur > limit && chainLength != 0;
      }
    }
    SoFarIsBest(v.w, done, left, i, s.prevLength, niceMatch, bestLen, s.matchStart);
    s.SeenIs();
    s.ValidIs();
    best := bestLen;
    length := if bestLen <= s.lookahead then bestLen else s.lookahead;
    if length > s.prevLength {
      FoundIs(v, s.matchStart, i, bestLen);
      SameLess(v.w, s.matchStart, i, length, bestLen);
      FoundIs(v, s.matchStart, i, length);
    }
  }

  lemma Passed(done: seq<nat>, cur: nat, left: seq<nat>)
    requires left != [] && left[0] == cur
    ensures done + left == done + [cur] + left[1..]
  {
  }

  lemma SearchBounds(c: Config, least: nat, lookahead: nat, i: nat, wsize: nat)
    ensures Patience(c, least) == (if least >= c.good then c.chain / 4 else c.chain)
    ensures Enough(c, lookahead) == (if c.nice > lookahead then lookahead else c.nice)
    ensures Limit(i, wsize) == (if i > wsize - 262 then i - (wsize - 262) else 0)
  {
  }

  /** No string on the chain agrees on more bytes within the lookahead, unless the search has stopped for a match that is nice enough. */
  lemma NoneLonger(w: seq<byte>, chain: seq<nat>, i: nat, least: nat, nice: nat, lookahead: nat, best: nat, start: nat, j: nat, n: nat)
    requires BestOf(w, chain, i, least, nice, best, start) && nice <= lookahead
    requires j in chain && Same(w, j, i, n) && n <= 258 && n <= lookahead
    ensures var length := if best <= lookahead then best else lookahead; n <= length || nice <= length
  {
    hide Same, FirstBest;
    var k: nat :| k < |chain| && chain[k] == j;
    assert Same(w, chain[k], i, n);
  }

  lemma SameHashes(c: Hashing, w: seq<byte>, j: nat, i: nat, n: nat)
    requires Same(w, j, i, n) && 3 <= n
    ensures j + 2 < |w| && i + 2 < |w| && HashAt(c, w, j) == HashAt(c, w, i)
  {
    SameMore(w, j, i, 0, n);
    SameMore(w, j, i, 1, n);
    SameMore(w, j, i, 2, n);
  }

  /** The chain passes over no string with the same hash: it holds every one behind the limit, or it is cut after n strings. */
  lemma {:induction false} OnChain(v: View, prev: seq<nat>, head: seq<nat>, i: nat, cur: nat, limit: nat, n: nat, j: nat)
    requires Chains(v, prev, head) && Candidate(v, i, cur) && v.far <= i + 262 && n > 0
    requires limit == if i > v.wsize - 262 then i - (v.wsize - 262) else 0
    requires j in v.ins && limit < j <= cur && j + 2 < |v.w| && HashAt(v.c, v.w, j) == HashAt(v.c, v.w, i)
    ensures |prev| > 0 && (j in ChainFrom(prev, cur, limit, n) || |ChainFrom(prev, cur, limit, n)| == n)
    decreases n
  {
    hide *;
    ChainsIs(v, prev, head);
    ChainIs(prev, cur, limit, n);
    if j < cur {
      CandidateIs(v, i, cur);
      LatestLinkIs(v, prev, cur);
      LatestAt(v, prev[cur % v.wsize], cur, HashAt(v.c, v.w, cur), j);
      NextCandidate(v, prev, head, i, cur, limit);
      if n > 1 { OnChain(v, prev, head, i, prev[cur % v.wsize], limit, n - 1, j); } else { ChainIs(prev, prev[cur % v.wsize], limit, 1); }
    }
  }

  /**
   longest_match over all strings: of the strings that have been inserted before strstart and are near enough, none agrees on more
   bytes within the lookahead, unless the match that was found is nice, or the search has given up after Patience strings.
   */
  lemma LongestOfAll(v: View, prev: seq<nat>, head: seq<nat>, c: Config, i: nat, hashHead: nat, least: nat, lookahead: nat, best: nat, start: nat,
                     j: nat, n: nat)
    requires Chains(v, prev, head) && Candidate(v, i, hashHead) && v.far <= i + 262 && Patience(c, least) > 0
    requires i in v.ins && hashHead == prev[i % v.wsize]
    requires BestOf(v.w, ChainFrom(prev, hashHead, Limit(i, v.wsize), Patience(c, least)), i, least, Enough(c, lookahead), best, start)
    requires j in v.ins && Limit(i, v.wsize) < j < i && Same(v.w, j, i, n) && 3 <= n <= 258 && n <= lookahead
    ensures var length := if best <= lookahead then best else lookahead;
            n <= length || Enough(c, lookahead) <= length
            || |ChainFrom(prev, hashHead, Limit(i, v.wsize), Patience(c, least))| == Patience(c, least)
  {
    hide *;
    SearchBounds(c, least, lookahead, i, v.wsize);
    ChainsIs(v, prev, head);
    SameHashes(v.c, v.w, j, i, n);
    LatestLinkIs(v, prev, i);
    LatestAt(v, hashHead, i, HashAt(v.c, v.w, i), j);
    OnChain(v, prev, head, i, hashHead, Limit(i, v.wsize), Patience(c, least), j);
    var chain := ChainFrom(prev, hashHead, Limit(i, v.wsize), Patience(c, least));
    if j in chain {
      NoneLonger(v.w, chain, i, least, Enough(c, lookahead), lookahead, best, start, j, n);
    }
  }

  /** The string that a search at i begins with, when there are three bytes of the string at i. */
  ghost function Head(v: View, head: seq<nat>, i: nat, lookahead: nat): nat {
    if lookahead >= 3 && i + 2 < |v.w| && HashAt(v.c, v.w, i) < |head| then head[HashAt(v.c, v.w, i)] else 0
  }

  /** The best of the chain, cut to the lookahead. */
  ghost predicate CutBest(w: seq<byte>, chain: seq<nat>, i: nat, least: nat, nice: nat, lookahead: nat, start0: nat, n: nat, start: nat) {
    exists best: nat ::
      && BestOf(w, chain, i, least, nice, best, start)
      && n == (if best <= lookahead then best else lookahead) && (best == least ==> start == start0)
  }

  /**
   What looking for a match at i comes to, from the window and the chains before: the best of the chain, cut to the lookahead, or, if there
   is no string near enough or no search, nothing new.
   */
  ghost predicate Looks(v: View, prev: seq<nat>, head: seq<nat>, c: Config, i: nat, lookahead: nat, least: nat, search: bool,
                        none: nat, start0: nat, n: nat, start: nat) {
    var h := Head(v, head, i, lookahead);
    if h != 0 && search && i - h <= v.wsize - 262 && |prev| > 0 then
      CutBest(v.w, ChainFrom(prev[i % |prev| := h], h, Limit(i, v.wsize), Patience(c, least)), i, least, Enough(c, lookahead), lookahead,
              start0, n, start)
    else n == none && start == start0
  }

  lemma LooksFound(v: View, prev: seq<nat>, head: seq<nat>, c: Config, i: nat, lookahead: nat, least: nat, none: nat, start0: nat,
                   best: nat, start: nat, h: nat)
    requires h == Head(v, head, i, lookahead) && h != 0 && i - h <= v.wsize - 262 && |prev| > 0
    requires BestOf(v.w, ChainFrom(prev[i % |prev| := h], h, Limit(i, v.wsize), Patience(c, least)), i, least, Enough(c, lookahead), best, start)
    requires best == least ==> start == start0
    ensures Looks(v, prev, head, c, i, lookahead, least, true, none, start0, if best <= lookahead then best else lookahead, start)
  {
    hide BestOf, ChainFrom, Limit, Patience, Enough, Head;
  }

  lemma LooksNothing(v: View, prev: seq<nat>, head: seq<nat>, c: Config, i: nat, lookahead: nat, least: nat, search: bool, none: nat, start0: nat)
    ensures var h := Head(v, head, i, lookahead);
            h == 0 || !search || i - h > v.wsize - 262 ==> Looks(v, prev, head, c, i, lookahead, least, search, none, start0, none, start0)
  {
    hide Head;
  }

  lemma HeadIs(v: View, head: seq<nat>, i: nat, lookahead: nat)
    ensures lookahead < 3 ==> Head(v, head, i, lookahead) == 0
    ensures lookahead >= 3 && i + 2 < |v.w| && HashAt(v.c, v.w, i) < |head| ==> Head(v, head, i, lookahead) == head[HashAt(v.c, v.w, i)]
  {
    hide HashAt;
  }

  lemma ConfigIs(c: Config)
    ensures ConfigOk(c) <==> 4 <= c.chain && c.lazy <= 258 && c.nice <= 258
  {
  }
}
