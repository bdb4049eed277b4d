/** The sliding window of inflate: updatewindow (dep/zlib/inflate.c:378-426). */
module InflateWindow {
  import opened Bits

  /** The place in a circular buffer of the byte that was written k bytes ago. */
  function Place(wsize: nat, wnext: nat, k: nat): (i: nat)
    requires k <= wsize && wnext < wsize
    ensures 1 <= k ==> i < wsize
  {
    if k <= wnext then wnext - k else wsize + wnext - k
  }

  /** The window w holds the last bytes of the history h, the next of which goes to wnext. */
  ghost predicate Circular(w: seq<byte>, whave: nat, wnext: nat, h: seq<byte>) {
    && wnext < |w| && whave <= |w| && whave == (if |h| < |w| then |h| else |w|) && (whave < |w| ==> wnext == whave)
    && forall k :: 1 <= k <= whave ==> w[Place(|w|, wnext, k)] == h[|h| - k]
  }

  /** The sequence t with a part replaced. */
  function Replaced(t: seq<byte>, at: nat, s: seq<byte>): (r: seq<byte>)
    requires at + |s| <= |t|
    ensures |r| == |t|
  {
    t[..at] + s + t[at + |s|..]
  }

  /** As many new bytes as the window holds. */
  lemma AllNew(w: seq<byte>, w': seq<byte>, h: seq<byte>, piece: seq<byte>)
    requires 1 <= |w| <= |piece| && w' == Replaced(w, 0, piece[|piece| - |w|..|piece|])
    ensures Circular(w', |w|, 0, h + piece)
  {
  }

  /** New bytes in one piece. */
  lemma OnePiece(w: seq<byte>, w': seq<byte>, whave: nat, wnext: nat, h: seq<byte>, piece: seq<byte>)
    requires Circular(w, whave, wnext, h) && |piece| < |w| && wnext + |piece| <= |w|
    requires w' == Replaced(w, wnext, piece[..|piece|])
    ensures Circular(w', if whave < |w| then whave + |piece| else whave, if wnext + |piece| == |w| then 0 else wnext + |piece|, h + piece)
  {
    var h' := h + piece;
    var next := if wnext + |piece| == |w| then 0 else wnext + |piece|;
    var have := if whave < |w| then whave + |piece| else whave;
    forall k | 1 <= k <= have
      ensures w'[Place(|w|, next, k)] == h'[|h'| - k]
    {
      PlaceMoves(|w|, wnext, |piece|, k);
      if k > |piece| {
        assert w[Place(|w|, wnext, k - |piece|)] == h[|h| - (k - |piece|)];
      }
    }
  }

  /** Where a byte lies after put more have been written in one piece. */
  lemma PlaceMoves(wsize: nat, wnext: nat, put: nat, k: nat)
    requires wnext + put <= wsize && 1 <= k <= wsize && wnext < wsize
    ensures var next := if wnext + put == wsize then 0 else wnext + put;
            var i := Place(wsize, next, k);
            if k <= put then i == wnext + put - k
            else i == Place(wsize, wnext, k - put) && !(wnext <= i < wnext + put)
  {
  }

  /** New bytes that run over the end. */
  lemma TwoPieces(w: seq<byte>, w': seq<byte>, whave: nat, wnext: nat, h: seq<byte>, piece: seq<byte>)
    requires Circular(w, whave, wnext, h) && |piece| < |w| && |w| < wnext + |piece|
    requires var d := |w| - wnext; w' == piece[d..] + w[|piece| - d..wnext] + piece[..d]
    ensures Circular(w', |w|, |piece| - (|w| - wnext), h + piece)
  {
    var d := |w| - wnext;
    var next := |piece| - d;
    var h' := h + piece;
    assert |h| >= wnext;
    forall k | 1 <= k <= |w|
      ensures w'[Place(|w|, next, k)] == h'[|h'| - k]
    {
      if k > |piece| {
        assert Place(|w|, next, k) == Place(|w|, wnext, k - |piece|);
        assert w[Place(|w|, wnext, k - |piece|)] == h[|h| - (k - |piece|)];
      }
    }
  }

  /** zmemcpy of n bytes that end k bytes before the end of what has been put out. */
  method MemCopy(to: array<byte>, at: nat, from: array<byte>, put: nat, k: nat, n: nat)
    requires to != from && at + n <= to.Length && n <= k <= put <= from.Length
    modifies to
    ensures to[..] == Replaced(old(to[..]), at, from[..put][put - k..put - k + n])
  {
    forall j | 0 <= j < n { to[at + j] := from[put - k + j]; }
  }

  lemma Overwritten(w: seq<byte>, w1: seq<byte>, w2: seq<byte>, wnext: nat, piece: seq<byte>, dist: nat)
    requires dist <= |piece| < |w| && wnext + dist == |w| && |w1| == |w|
    requires w1 == Replaced(w, wnext, piece[..dist]) && w2 == Replaced(w1, 0, piece[dist..|piece|])
    ensures |piece| - dist <= wnext && w2 == piece[dist..] + w[|piece| - dist..wnext] + piece[..dist]
  {
    assert w1[|piece| - dist..] == w[|piece| - dist..wnext] + piece[..dist];
  }

  class Window {
    const window: array<byte>
    /** The size of the window, or 0 while it is not in use. */
    var wsize: nat
    var whave: nat
    var wnext: nat

    /** The window holds the last bytes of the history h, or is not in use and there is none. */
    ghost predicate Holds(h: seq<byte>)
      reads this, window
    {
      && 1 <= window.Length
      && (wsize == 0 ==> whave == 0 && h == [])
      && (wsize > 0 ==> wsize == window.Length && Circular(window[..], whave, wnext, h))
    }

    /** The size is a power of 2; the window is allocated here rather than when it is used first. */
    constructor (wbits: nat)
      ensures fresh(window) && window.Length == Pow2(wbits) && wsize == 0 && Holds([])
    {
      window := new byte[Pow2(wbits)](_ => 0);
      wsize, whave, wnext := 0, 0, 0;
    }

    /** A byte of the history, from the window. */
    lemma At(h: seq<byte>, k: nat)
      requires Holds(h) && 1 <= k <= whave
      ensures wnext < wsize == window.Length && k <= |h| && k <= wsize && window[Place(wsize, wnext, k)] == h[|h| - k]
    {
      assert window[..][Place(wsize, wnext, k)] == h[|h| - k];
    }

    /** How much of the history can be referred to. */
    lemma Reach(h: seq<byte>)
      requires Holds(h)
      ensures wsize == 0 || wsize == window.Length
      ensures whave == if |h| < window.Length then |h| else window.Length
      ensures wsize > 0 ==> wnext < wsize && (whave < wsize ==> wnext == whave)
      ensures whave > 0 ==> wsize > 0
    {
    }

    /** updatewindow: out[..put] is what has been put out since the last update. */
    method Update(out: array<byte>, put: nat, ghost h: seq<byte>)
      requires Holds(h) && put <= out.Length && out != window
      modifies this, window
      ensures Holds(h + out[..put]) && wsize == window.Length
    {
      if wsize == 0 {
        wsize, wnext, whave := window.Length, 0, 0;
      }
      ghost var w, piece: seq<byte>, whave0, wnext0 := window[..], out[..put], whave, wnext;
      assert Circular(w, whave0, wnext0, h);
      hide Circular;
      CircularShape(w, whave0, wnext0, h);
      if put >= wsize {
        MemCopy(window, 0, out, put, wsize, wsize);
        wnext, whave := 0, wsize;
        AllNew(w, window[..], h, piece);
      } else {
        Append(out, put, h);
      }
    }

    /** The part of updatewindow for fewer bytes than the window holds. */
    method Append(out: array<byte>, put: nat, ghost h: seq<byte>)
      requires put <= out.Length && out != window && put < wsize == window.Length && Circular(window[..], whave, wnext, h)
      modifies this, window
      ensures Circular(window[..], whave, wnext, h + out[..put]) && wsize == window.Length
    {
      hide *;
      ghost var w, piece: seq<byte>, whave0, wnext0 := window[..], out[..put], whave, wnext;
      CircularShape(w, whave0, wnext0, h);
      var copy := put;
      var dist := if wsize - wnext > copy then copy else wsize - wnext;
      MemCopy(window, wnext, out, put, copy, dist);
      ghost var w1 := window[..];
      copy := copy - dist;
      if copy > 0 {
        MemCopy(window, 0, out, put, copy, copy);
        Overwritten(w, w1, window[..], wnext, piece, dist);
        wnext, whave := copy, wsize;
        TwoPieces(w, window[..], whave0, wnext0, h, piece);
      } else {
        wnext := wnext + dist;
        if wnext == wsize { wnext := 0; }
        if whave < wsize { whave := whave + dist; }
        OnePiece(w, window[..], whave0, wnext0, h, piece);
      }
    }
  }

  lemma CircularShape(w: seq<byte>, whave: nat, wnext: nat, h: seq<byte>)
    requires Circular(w, whave, wnext, h)
    ensures wnext < |w| && whave <= |w| && whave == (if |h| < |w| then |h| else |w|) && (whave < |w| ==> wnext == whave)
  {
  }
}
