/** fill_window and read_buf (dep/zlib/deflate.c:1074-1099, 1388-1530): reading more input, and sliding the window when it is almost full. */
module DeflateFill {
  import opened Bits
  import opened DeflateHash
  import opened DeflateChains
  import opened DeflateState

  /** The string at strstart can be inserted as soon as there are three bytes of it. */
  ghost predicate Hashed(s: Deflate)
    reads s, s.window
  {
    s.lookahead >= 3 ==>
      s.insert == 0 && s.strstart + 1 < s.window.Length && Ready(s.c, s.insH, s.window[s.strstart], s.window[s.strstart + 1])
  }

  lemma HashedIs(s: Deflate)
    ensures Hashed(s) <==>
              (s.lookahead >= 3 ==>
                s.insert == 0 && s.strstart + 1 < s.window.Length && Ready(s.c, s.insH, s.window[s.strstart], s.window[s.strstart + 1]))
  {
    hide Ready;
  }

  /** Valid, with all inserted strings before strstart and the lookahead up to the end of what is valid. */
  ghost predicate Steady(s: Deflate)
    reads s, s.window, s.prev, s.head
  {
    s.Valid() && s.top + s.insert <= s.strstart && s.far <= s.strstart && s.strstart + s.lookahead == s.end
  }

  lemma SteadyIs(s: Deflate)
    ensures Steady(s) <==> s.Valid() && s.top + s.insert <= s.strstart && s.far <= s.strstart && s.strstart + s.lookahead == s.end
  {
  }

  /** The positions in head or prev, after the window has slid. */
  method SlideTable(a: array<nat>, wsize: nat)
    modifies a
    ensures forall k :: 0 <= k < a.Length ==> a[k] == Slid(old(a[k]), wsize)
  {
    var n: nat := a.Length;
    while n > 0
      invariant n <= a.Length
      invariant forall k :: 0 <= k < n ==> a[k] == old(a[k])
      invariant forall k :: n <= k < a.Length ==> a[k] == Slid(old(a[k]), wsize)
    {
      n := n - 1;
      var m := a[n];
      a[n] := if m >= wsize then m - wsize else 0;
    }
  }

  lemma SuffixSlid(w: seq<byte>, w': seq<byte>, wsize: nat, end: nat, hist: seq<byte>)
    requires Suffix(w, end, hist) && |w| == 2 * wsize == |w'| && w'[..wsize] == w[wsize..] && wsize <= end
    ensures Suffix(w', end - wsize, hist)
  {
    assert w'[..end - wsize] == w'[..wsize][..end - wsize] == w[wsize..][..end - wsize] == w[..end][wsize..];
  }

  /** The chains and the window after all positions have moved. */
  lemma AllSlid(v: View, p: seq<nat>, h: seq<nat>, w: seq<byte>, p': seq<nat>, h': seq<nat>, top: nat, hist: seq<byte>)
    requires Chains(v, p, h) && Suffix(v.w, v.end, hist) && |v.w| == 2 * v.wsize == |w| && w[..v.wsize] == v.w[v.wsize..]
    requires |p'| == |p| && forall k :: 0 <= k < |p| ==> p'[k] == Slid(p[k], v.wsize)
    requires |h'| == |h| && forall k :: 0 <= k < |h| ==> h'[k] == Slid(h[k], v.wsize)
    requires v.top <= top && v.wsize <= top && v.wsize <= v.end
    ensures var v' := SlidView(v.(top := top), w);
            && Chains(v', p', h') && v' == v.(w := w, end := v.end - v.wsize, ins := v'.ins, top := top - v.wsize, far := v'.far)
            && v'.far == (if v.far >= v.wsize then v.far - v.wsize else 0)
            && Suffix(w, v.end - v.wsize, hist)
  {
    hide *;
    Bounded(v, p, h, top);
    var v1 := v.(top := top);
    MovedDownIs(v1, w);
    Slide(v1, p, h, w, p', h');
    SlidIs(v1, w);
    SuffixSlid(v.w, w, v.wsize, v.end, hist);
  }

  /** The upper half of the window moves down, and all positions with it (dep/zlib/deflate.c:1417-1449). */
  method SlideWindow(s: Deflate)
    requires Steady(s) && s.strstart >= 2 * s.wsize - 262
    modifies s`strstart, s`matchStart, s`blockStart, s`end, s`ins, s`top, s`far, s.window, s.prev, s.head
    ensures Steady(s) && s.strstart == old(s.strstart) - s.wsize && s.blockStart == old(s.blockStart) - s.wsize
    ensures s.end == old(s.end) - s.wsize
    ensures s.ins == SlidSet(old(s.ins), s.wsize)
    ensures Minus32(s.strstart, s.matchStart) == Minus32(old(s.strstart), old(s.matchStart))
    ensures old(Hashed(s)) ==> Hashed(s)
    ensures old(s.strstart) > 0 ==> s.strstart > 0
  {
    hide *;
    SteadyIs(s);
    s.ValidIs();
    s.ShapeIs();
    HashedIs(s);
    ghost var w, i := s.window[..], s.strstart;
    SlideAll(s);
    if s.lookahead >= 3 {
      SteadyIs(s);
      s.ValidIs();
      OneMoved(w, s.window[..], s.wsize, i);
      OneMoved(w, s.window[..], s.wsize, i + 1);
    }
    HashedIs(s);
  }

  /** The window, head and prev, and the positions into the window. */
  method SlideAll(s: Deflate)
    requires Steady(s) && s.strstart >= 2 * s.wsize - 262
    modifies s`strstart, s`matchStart, s`blockStart, s`end, s`ins, s`top, s`far, s.window, s.prev, s.head
    ensures Steady(s) && s.strstart == old(s.strstart) - s.wsize && s.blockStart == old(s.blockStart) - s.wsize
    ensures s.end == old(s.end) - s.wsize && s.strstart > 0
    ensures s.ins == SlidSet(old(s.ins), s.wsize)
    ensures Minus32(s.strstart, s.matchStart) == Minus32(old(s.strstart), old(s.matchStart))
    ensures |old(s.window[..])| == 2 * s.wsize == s.window.Length && s.window[..][..s.wsize] == old(s.window[..])[s.wsize..]
  {
    hide *;
    SteadyIs(s);
    s.ValidIs();
    s.ShapeIs();
    s.SeenIs();
    ghost var v, p, h := s.Seen(), s.prev[..], s.head[..];
    ghost var top := s.strstart - s.insert;
    SlideArrays(s);
    AllSlid(v, p, h, s.window[..], s.prev[..], s.head[..], top, s.hist);
    ghost var v' := SlidView(v.(top := top), s.window[..]);
    SlidStrings(v.(top := top), s.window[..]);
    MovedDownIs(v, s.window[..]);
    s.end, s.ins, s.top, s.far := v'.end, v'.ins, v'.top, v'.far;
    s.SeenIs();
    s.ValidIs();
    SteadyIs(s);
  }

  lemma OneMoved(w: seq<byte>, w': seq<byte>, wsize: nat, i: nat)
    requires |w| == 2 * wsize == |w'| && w'[..wsize] == w[wsize..] && wsize <= i < |w|
    ensures w'[i - wsize] == w[i]
  {
    assert w'[..wsize][i - wsize] == w[wsize..][i - wsize];
  }

  method SlideArrays(s: Deflate)
    requires s.Shape() && s.strstart >= s.wsize
    modifies s`strstart, s`matchStart, s`blockStart, s.window, s.prev, s.head
    ensures s.strstart == old(s.strstart) - s.wsize && s.blockStart == old(s.blockStart) - s.wsize && s.matchStart < 0x1_0000_0000
    ensures Minus32(s.strstart, s.matchStart) == Minus32(old(s.strstart), old(s.matchStart))
    ensures s.window[..][..s.wsize] == old(s.window[..])[s.wsize..]
    ensures forall k :: 0 <= k < s.prev.Length ==> s.prev[..][k] == Slid(old(s.prev[..])[k], s.wsize)
    ensures forall k :: 0 <= k < s.head.Length ==> s.head[..][k] == Slid(old(s.head[..])[k], s.wsize)
  {
    hide *;
    s.ShapeIs();
    MoveDown(s.window, s.wsize);
    s.matchStart := Minus32(s.matchStart, s.wsize);
    MinusBoth(s.strstart, old(s.matchStart), s.wsize);
    s.strstart := s.strstart - s.wsize;
    s.blockStart := s.blockStart - s.wsize;
    SlideTable(s.head, s.wsize);
    SlideTable(s.prev, s.wsize);
  }

  /** zmemcpy of the upper half to the lower half. */
  method MoveDown(window: array<byte>, wsize: nat)
    requires window.Length == 2 * wsize
    modifies window
    ensures window[..][..wsize] == old(window[..])[wsize..]
  {
    forall i | 0 <= i < wsize { window[i] := window[wsize + i]; }
    assert window[..][..wsize] == old(window[..])[wsize..];
  }

  /** 32-bit differences do not see that both words have moved, even past 0. */
  lemma MinusBoth(a: int, b: int, n: int)
    ensures Minus32(a - n, Minus32(b, n)) == Minus32(a, b)
  {
    var m := 0x1_0000_0000;
    var q := (b - n) / m;
    assert Minus32(b, n) == b - n - q * m;
    assert (a - n) - (b - n - q * m) == a - b + q * m;
    ModAdd(a - b, q);
  }

  lemma ModAdd(x: int, q: int)
    ensures (x + q * 0x1_0000_0000) % 0x1_0000_0000 == x % 0x1_0000_0000
  {
  }

  lemma SuffixGrows(w: seq<byte>, w': seq<byte>, end: nat, hist: seq<byte>, piece: seq<byte>)
    requires Suffix(w, end, hist) && end + |piece| <= |w| && w' == w[..end] + piece + w[end + |piece|..]
    ensures Suffix(w', end + |piece|, hist + piece) && |w'| == |w| && w'[..end] == w[..end]
  {
    var h := hist + piece;
    assert w'[..end + |piece|] == w[..end] + piece;
    assert h[|h| - end - |piece|..] == hist[|hist| - end..] + piece;
  }

  /** read_buf, into the free end of the window. */
  method ReadBuf(s: Deflate, more: nat) returns (n: nat)
    requires Steady(s) && more == 2 * s.wsize - s.end
    modifies s`next, s`lookahead, s`end, s`hist, s.window
    ensures Steady(s) && n == (if |s.input| - old(s.next) > more then more else |s.input| - old(s.next))
    ensures s.next == old(s.next) + n && s.lookahead == old(s.lookahead) + n && s.end == old(s.end) + n
    ensures s.hist == old(s.hist) + s.input[old(s.next)..s.next]
  {
    hide *;
    SteadyIs(s);
    s.ValidIs();
    s.ShapeIs();
    s.SeenIs();
    n := |s.input| - s.next;
    if n > more { n := more; }
    if n == 0 {
      assert s.hist + s.input[s.next..s.next + n] == s.hist;
      return;
    }
    CopyIn(s, n);
  }

  /** n bytes of the input are copied behind the valid ones. */
  method CopyIn(s: Deflate, n: nat)
    requires Steady(s) && s.end + n <= 2 * s.wsize && s.next + n <= |s.input|
    modifies s`next, s`lookahead, s`end, s`hist, s.window
    ensures Steady(s) && s.next == old(s.next) + n && s.lookahead == old(s.lookahead) + n && s.end == old(s.end) + n
    ensures s.hist == old(s.hist) + s.input[old(s.next)..s.next]
  {
    hide *;
    SteadyIs(s);
    s.ValidIs();
    s.ShapeIs();
    s.SeenIs();
    ghost var v, w := s.Seen(), s.window[..];
    ghost var piece := s.input[s.next..s.next + n];
    Fill(s.window, s.strstart + s.lookahead, s.input, s.next, n);
    SuffixGrows(w, s.window[..], s.end, s.hist, piece);
    Append(v, s.prev[..], s.head[..], s.window[..], s.end + n);
    s.next, s.lookahead := s.next + n, s.lookahead + n;
    s.hist, s.end := s.hist + piece, s.end + n;
    s.SeenIs();
    s.ValidIs();
    SteadyIs(s);
  }

  /** zmemcpy from the input. */
  method Fill(window: array<byte>, at: nat, input: seq<byte>, next: nat, n: nat)
    requires at + n <= window.Length && next + n <= |input|
    modifies window
    ensures window[..] == old(window[..at]) + input[next..next + n] + old(window[at + n..])
  {
    forall i | 0 <= i < n { window[at + i] := input[next + i]; }
  }

  /** The first position that is near enough to strstart for a match. */
  ghost function Nearest(s: Deflate): (low: nat)
    reads s`strstart
  {
    if s.strstart > s.wsize - 262 then (if s.wsize >= 262 then s.strstart - (s.wsize - 262) else s.strstart) else 0
  }

  lemma NearestIs(s: Deflate)
    requires s.wsize >= 262
    ensures Nearest(s) == if s.strstart > s.wsize - 262 then s.strstart - (s.wsize - 262) else 0
  {
  }

  /**
   The hash is begun anew, and the strings that could not be inserted before, for want of the bytes behind them, are inserted as far as there are
   (dep/zlib/deflate.c:1468-1487).
   */
  method InsertPending(s: Deflate)
    requires Steady(s) && s.lookahead + s.insert >= 3
    modifies s`insH, s`insert, s`ins, s`top, s`far, s.prev, s.head
    ensures Steady(s) && Hashed(s)
    ensures 0 <= s.insert <= old(s.insert) <= s.strstart && (s.insert == 0 || s.lookahead + s.insert < 3)
    ensures s.Seen() == InsertRange(old(s.Seen()), s.strstart - old(s.insert), s.strstart - s.insert)
  {
    hide *;
    SteadyIs(s);
    s.ValidIs();
    s.ShapeIs();
    var str := s.strstart - s.insert;
    ghost var v, first, pending := s.Seen(), str, s.insert;
    InsertRangeNext(v, first, first);
    StartHash(s.c, s.window[str], s.window[str + 1]);
    s.SeenIs();
    s.insH := s.window[str];
    s.insH := Update(s.c, s.insH, s.window[str + 1]);
    s.SeenIs();
    s.ValidIs();
    SteadyIs(s);
    var more := s.insert > 0;
    while more
      invariant Steady(s) && str == s.strstart - s.insert && s.insert <= 2 && 0 <= s.insert
      invariant str + 1 < s.window.Length && Ready(s.c, s.insH, s.window[str], s.window[str + 1])
      invariant more ==> s.insert > 0 && s.lookahead + s.insert >= 3
      invariant !more ==> s.insert == 0 || s.lookahead + s.insert < 3
      invariant first <= str && s.insert <= pending && s.Seen() == InsertRange(v, first, str)
      decreases more, s.insert
    {
      InsertRangeNext(v, first, str);
      SteadyIs(s);
      s.ValidIs();
      s.ShapeIs();
      var hashHead := s.InsertString(str);
      s.ValidIs();
      s.SeenIs();
      str := str + 1;
      s.insert := s.insert - 1;
      s.SeenIs();
      s.ValidIs();
      SteadyIs(s);
      more := s.insert > 0 && s.lookahead + s.insert >= 3;
    }
    HashedIs(s);
  }

  lemma StartHash(c: Hashing, b0: byte, b1: byte)
    ensures HashOk(c) ==> Ready(c, Update(c, b0, b1), b0, b1)
  {
    hide HashOk;
    ReadyFirst(c, b0, b1);
  }

  /** The strings left over are inserted, and those that are near stay. */
  method InsertPendingOn(s: Deflate)
    requires Steady(s) && s.lookahead + s.insert >= 3
    modifies s`insH, s`insert, s`ins, s`top, s`far, s.prev, s.head
    ensures Steady(s) && Hashed(s) && Stays(old(s.ins), 0, s.ins, Nearest(s))
  {
    hide *;
    SteadyIs(s);
    s.ValidIs();
    s.ShapeIs();
    s.SeenIs();
    NearestIs(s);
    ghost var v, pending := s.Seen(), s.insert;
    InsertPending(s);
    s.SeenIs();
    RangeStays(v, s.strstart - pending, s.strstart - s.insert, Nearest(s));
  }

  /** When strstart is too near to the end of the window (dep/zlib/deflate.c:1417-1449). */
  method SlideIfFull(s: Deflate)
    requires Steady(s)
    modifies s`strstart, s`matchStart, s`blockStart, s`end, s`ins, s`top, s`far, s.window, s.prev, s.head
    ensures Steady(s) && s.strstart <= old(s.strstart) && s.strstart + 262 <= 2 * s.wsize
    ensures s.strstart - s.blockStart == old(s.strstart - s.blockStart) && old(s.end) - s.end == old(s.strstart) - s.strstart
    ensures Stays(old(s.ins), old(s.strstart) - s.strstart, s.ins, Nearest(s))
    ensures Minus32(s.strstart, s.matchStart) == Minus32(old(s.strstart), old(s.matchStart))
    ensures old(Hashed(s)) ==> Hashed(s)
    ensures old(s.strstart) > 0 ==> s.strstart > 0
  {
    hide *;
    SteadyIs(s);
    s.ValidIs();
    s.ShapeIs();
    ghost var ins := s.ins;
    StaysHere(ins, Nearest(s));
    if s.strstart >= 2 * s.wsize - 262 {
      SlideWindow(s);
      SteadyIs(s);
      s.ValidIs();
      SlidStays(ins, s.wsize, Nearest(s));
    }
  }

  /** One turn of the loop in fill_window. */
  method FillOnce(s: Deflate) returns (again: bool)
    requires Steady(s) && s.lookahead < 262
    modifies s`next, s`lookahead, s`hist, s`insH, s`insert, s`strstart, s`matchStart, s`blockStart, s`end, s`ins, s`top, s`far
    modifies s.window, s.prev, s.head
    ensures Steady(s) && s.strstart <= old(s.strstart)
    ensures Stays(old(s.ins), old(s.strstart) - s.strstart, s.ins, Nearest(s))
    ensures old(s.next) <= s.next <= |s.input| && s.hist == old(s.hist) + s.input[old(s.next)..s.next]
    ensures s.lookahead == old(s.lookahead) + (s.next - old(s.next))
    ensures again ==> s.lookahead < 262 && s.next > old(s.next)
    ensures !again ==> (s.lookahead >= 262 || s.next == |s.input|) && s.strstart + 262 <= 2 * s.wsize
    ensures s.strstart - s.blockStart == old(s.strstart - s.blockStart)
    ensures Minus32(s.strstart, s.matchStart) == Minus32(old(s.strstart), old(s.matchStart))
    ensures old(Hashed(s)) ==> Hashed(s)
    ensures old(s.strstart) > 0 ==> s.strstart > 0
  {
    hide *;
    SteadyIs(s);
    s.ValidIs();
    s.ShapeIs();
    ghost var ins, start := s.ins, s.strstart;
    SlideIfFull(s);
    ghost var slid := s.ins;
    SteadyIs(s);
    s.ValidIs();
    if s.next == |s.input| {
      assert s.hist == s.hist + s.input[s.next..s.next];
      return false;
    }
    HashedIs(s);
    var n := ReadBuf(s, 2 * s.wsize - s.lookahead - s.strstart);
    SteadyIs(s);
    s.ValidIs();
    HashedIs(s);
    if s.lookahead + s.insert >= 3 {
      InsertPendingOn(s);
      StaysThen(ins, start - s.strstart, slid, Nearest(s), 0, s.ins, Nearest(s));
      SteadyIs(s);
      s.ValidIs();
    }
    again := s.lookahead < 262 && s.next < |s.input|;
  }

  /**
   fill_window: reads until there is enough to look ahead or there is no input, and slides the window first when it is almost full. The
   place of strstart in what has been read stays the same. The zeros that are written behind the input are not modelled.
   */
  method FillWindow(s: Deflate)
    requires Steady(s) && s.lookahead < 262
    modifies s`next, s`lookahead, s`hist, s`insH, s`insert, s`strstart, s`matchStart, s`blockStart, s`end, s`ins, s`top, s`far
    modifies s.window, s.prev, s.head
    ensures Steady(s) && s.strstart + 262 <= 2 * s.wsize && s.strstart <= old(s.strstart)
    ensures Stays(old(s.ins), old(s.strstart) - s.strstart, s.ins, Nearest(s))
    ensures old(s.next) <= s.next <= |s.input| && s.hist == old(s.hist) + s.input[old(s.next)..s.next]
    ensures s.lookahead == old(s.lookahead) + (s.next - old(s.next)) && (s.lookahead >= 262 || s.next == |s.input|)
    ensures s.strstart - s.blockStart == old(s.strstart - s.blockStart)
    ensures Minus32(s.strstart, s.matchStart) == Minus32(old(s.strstart), old(s.matchStart))
    ensures old(Hashed(s)) ==> Hashed(s)
    ensures old(s.strstart) > 0 ==> s.strstart > 0
  {
    hide *;
    SteadyIs(s);
    s.ValidIs();
    ghost var hist, next := s.hist, s.next;
    assert hist == hist + s.input[next..next];
    var again := true;
    StaysHere(s.ins, Nearest(s));
    s.ShapeIs();
    while again
      invariant s.strstart <= old(s.strstart) && Stays(old(s.ins), old(s.strstart) - s.strstart, s.ins, Nearest(s))
      invariant Steady(s) && next <= s.next <= |s.input| && s.hist == hist + s.input[next..s.next]
      invariant s.lookahead == old(s.lookahead) + (s.next - next)
      invariant again ==> s.lookahead < 262
      invariant !again ==> (s.lookahead >= 262 || s.next == |s.input|) && s.strstart + 262 <= 2 * s.wsize
      invariant s.strstart - s.blockStart == old(s.strstart - s.blockStart)
      invariant Minus32(s.strstart, s.matchStart) == Minus32(old(s.strstart), old(s.matchStart))
      invariant old(Hashed(s)) ==> Hashed(s)
      invariant old(s.strstart) > 0 ==> s.strstart > 0
      decreases again, |s.input| - s.next
    {
      ghost var n, ins, start, low := s.next, s.ins, s.strstart, Nearest(s);
      NearestIs(s);
      again := FillOnce(s);
      NearestIs(s);
      StaysThen(old(s.ins), old(s.strstart) - start, ins, low, start - s.strstart, s.ins, Nearest(s));
      Pieces(hist, s.input, next, n, s.next);
    }
  }

  lemma Pieces(h: seq<byte>, input: seq<byte>, a: nat, b: nat, c: nat)
    requires a <= b <= c <= |input|
    ensures h + input[a..b] + input[b..c] == h + input[a..c]
  {
    assert input[a..c] == input[a..b] + input[b..c];
  }
}
