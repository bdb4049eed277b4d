/**
 The tokens of a block: _tr_tally_lit, _tr_tally_dist (dep/zlib/deflate.h:323-339) and FLUSH_BLOCK (dep/zlib/deflate.c:1536-1551). What is
 done with a finished block is left to trees.c.
 */
module DeflateTally {
  import opened Bits
  import opened Lz77
  import opened DeflateChains
  import opened DeflateState
  import opened DeflateFill
  import opened DeflateMatch
  import opened DeflateOutput

  /** The tokens expand to the first p bytes of what has been read, and are within the bounds; those of the blocks before expand to the first q. */
  ghost predicate Told(wsize: nat, sent: seq<Token>, block: seq<Token>, hist: seq<byte>, q: int, p: int) {
    && 0 <= q <= p <= |hist|
    && Expand(sent + block, []) == Some(hist[..p]) && Expand(sent, []) == Some(hist[..q])
    && forall t :: t in sent + block ==> Fits(t, wsize)
  }

  /** A match has 3 to 258 bytes, and is at most MAX_DIST back. */
  predicate Fits(t: Token, wsize: nat) {
    t.Pair? ==> 3 <= t.length <= 258 && 1 <= t.distance && t.distance + 262 <= wsize
  }

  lemma ToldIs(wsize: nat, sent: seq<Token>, block: seq<Token>, hist: seq<byte>, q: int, p: int)
    requires Told(wsize, sent, block, hist, q, p)
    ensures 0 <= q <= p <= |hist| && Expand(sent + block, []) == Some(hist[..p]) && Expand(sent, []) == Some(hist[..q])
    ensures forall t :: t in sent + block ==> Fits(t, wsize)
  {
  }

  lemma ToldLiteral(wsize: nat, sent: seq<Token>, block: seq<Token>, hist: seq<byte>, q: int, p: int, v: byte)
    requires Told(wsize, sent, block, hist, q, p) && p < |hist| && v == hist[p]
    ensures Told(wsize, sent, block + [Literal(v)], hist, q, p + 1)
  {
    hide Expand;
    ExpandLiteral(sent + block, hist, p);
    Associate(sent, block, [Literal(v)]);
  }

  lemma ToldPair(wsize: nat, sent: seq<Token>, block: seq<Token>, hist: seq<byte>, q: int, p: int, d: nat, n: nat)
    requires Told(wsize, sent, block, hist, q, p) && RealMatch(hist, p, d, n) && 3 <= n <= 258 && d + 262 <= wsize
    ensures p + n <= |hist| && Told(wsize, sent, block + [Pair(n, d)], hist, q, p + n)
  {
    hide Expand;
    ExpandMatch(sent + block, hist, p, d, n);
    Associate(sent, block, [Pair(n, d)]);
  }

  lemma ToldMore(wsize: nat, sent: seq<Token>, block: seq<Token>, hist: seq<byte>, q: int, p: int, more: seq<byte>)
    requires Told(wsize, sent, block, hist, q, p)
    ensures Told(wsize, sent, block, hist + more, q, p)
  {
    hide Expand;
    assert (hist + more)[..p] == hist[..p] && (hist + more)[..q] == hist[..q];
  }

  lemma ToldFlushed(wsize: nat, sent: seq<Token>, block: seq<Token>, hist: seq<byte>, q: int, p: int)
    requires Told(wsize, sent, block, hist, q, p)
    ensures Told(wsize, sent + block, [], hist, p, p)
  {
    hide Expand;
    assert sent + block + [] == sent + block;
  }

  /** All tokens of this compressor expand to what has been read, up to lag bytes before strstart; those of the block start at blockStart. */
  ghost predicate Emitted(s: Deflate, lag: nat)
    reads s
  {
    && |s.block| + 2 <= s.litBufsize
    && Told(s.wsize, s.sent, s.block, s.hist, s.At() - s.strstart + s.blockStart, s.At() - lag)
  }

  lemma EmittedIs(s: Deflate, lag: nat)
    ensures Emitted(s, lag) <==>
              |s.block| + 2 <= s.litBufsize && Told(s.wsize, s.sent, s.block, s.hist, |s.hist| - s.end + s.blockStart, |s.hist| - s.end + s.strstart - lag)
    ensures s.At() == |s.hist| - s.end + s.strstart
  {
    hide Told;
  }

  /** _tr_tally_lit: whether the buffer is full. */
  method TallyLit(s: Deflate, v: byte) returns (full: bool)
    requires |s.block| + 2 <= s.litBufsize
    modifies s`block
    ensures s.block == old(s.block) + [Literal(v)] && full == (|s.block| == s.litBufsize - 1)
  {
    s.block := s.block + [Literal(v)];
    full := |s.block| == s.litBufsize - 1;
  }

  /** _tr_tally_dist: the length is stored without MIN_MATCH, in a byte, and the distance in 16 bits. */
  method TallyDist(s: Deflate, distance: nat, length: nat) returns (full: bool)
    requires |s.block| + 2 <= s.litBufsize && length <= 255 && distance <= 0xffff
    modifies s`block
    ensures s.block == old(s.block) + [Pair(length + 3, distance)] && full == (|s.block| == s.litBufsize - 1)
  {
    s.block := s.block + [Pair(length + 3, distance)];
    full := |s.block| == s.litBufsize - 1;
  }

  /** FLUSH_BLOCK_ONLY. */
  method FlushBlockOnly(s: Deflate, o: Output)
    requires s.Valid()
    modifies s`block, s`sent, s`blockStart, o
    ensures o.lastRank == old(o.lastRank) && (o.Clear() || o.availOut == 0)
    ensures s.Valid() && s.sent == old(s.sent + s.block) && s.block == [] && s.blockStart == s.strstart
    ensures s.Seen() == old(s.Seen()) && (Hashed(s) <==> old(Hashed(s)))
  {
    hide *;
    s.ValidIs();
    s.SeenIs();
    HashedIs(s);
    s.sent := s.sent + s.block;
    s.block := [];
    o.Send();
    s.blockStart := s.strstart;
    o.FlushPending();
    s.SeenIs();
    s.ValidIs();
    HashedIs(s);
  }

  /** A block that can still be stored: its bytes are in the window. */
  lemma StoredBytes(s: Deflate)
    requires Steady(s) && Emitted(s, 0) && s.blockStart >= 0
    ensures var q, p := s.At() - s.strstart + s.blockStart, s.At();
            && 0 <= q <= p <= |s.hist| && s.blockStart <= s.strstart <= s.window.Length
            && s.window[s.blockStart..s.strstart] == s.hist[q..p]
            && Expand(s.sent, []) == Some(s.hist[..q]) && Expand(s.sent + s.block, []) == Some(s.hist[..p])
  {
    hide *;
    SteadyIs(s);
    s.ValidIs();
    s.ShapeIs();
    EmittedIs(s, 0);
    var q, p := |s.hist| - s.end + s.blockStart, |s.hist| - s.end + s.strstart;
    ToldIs(s.wsize, s.sent, s.block, s.hist, q, p);
    SuffixPart(s.window[..], s.end, s.hist, s.blockStart, s.strstart);
  }

  lemma SuffixPart(w: seq<byte>, end: nat, hist: seq<byte>, a: nat, b: nat)
    requires Suffix(w, end, hist) && a <= b <= end
    ensures b <= |w| && |hist| >= end && w[a..b] == hist[|hist| - end + a..|hist| - end + b]
  {
    assert w[a..b] == w[..end][a..b];
  }

  /** What the same bytes in the window mean for what has been read. */
  lemma FoundReal(v: View, hist: seq<byte>, j: nat, i: nat, n: nat)
    requires Suffix(v.w, v.end, hist) && Found(v, j, i, n) && i + n <= v.end
    ensures v.end <= |hist| && RealMatch(hist, |hist| - v.end + i, i - j, n)
  {
    SuffixPart(v.w, v.end, hist, j, j + n);
    SuffixPart(v.w, v.end, hist, i, i + n);
    var b := |hist| - v.end;
    forall k | b + i <= k < b + i + n
      ensures hist[k] == hist[k - (i - j)]
    {
      assert hist[b + i..b + i + n][k - b - i] == hist[b + j..b + j + n][k - b - i];
    }
  }
}
