/** The state of inflate while it decodes a block, and copying a match (dep/zlib/inflate.h, MATCH in dep/zlib/inflate.c). */
module InflateState {
  import opened Bits
  import opened Lz77
  import opened InflateSpec
  import opened InflateInput
  import opened InflateWindow

  ghost predicate SameAt(w: seq<byte>, a: nat, h: seq<byte>, b: nat, j: nat) {
    a + j < |w| && b + j < |h| && w[a + j] == h[b + j]
  }

  lemma SameSlices(w: seq<byte>, a: nat, h: seq<byte>, b: nat, n: nat)
    requires a + n <= |w| && b + n <= |h| && forall j :: 0 <= j < n ==> SameAt(w, a, h, b, j)
    ensures w[a..a + n] == h[b..b + n]
  {
    var u, v := w[a..a + n], h[b..b + n];
    forall j | 0 <= j < n
      ensures u[j] == v[j]
    {
      assert SameAt(w, a, h, b, j);
    }
  }

  /** Fewer than eight bits are held, or not enough for what comes next. */
  ghost predicate IsKeen(cs: Codes, m: Mode, bits: nat, held: seq<bool>) {
    || bits < 8
    || (m == Len && NextEntry(cs.lens, held).Short?)
    || (m.Dist? && NextEntry(cs.dists, held).Short?)
    || (m.LenExt? && bits < m.extra)
    || (m.DistExt? && bits < m.extra)
  }

  class State {
    const codes: Codes
    const input: BitIn
    const win: Window
    var mode: Mode
    /** The room that the caller provides, and how much of it is used. */
    var out: array<byte>
    var put: nat
    /** The bytes that earlier calls have put out. */
    ghost var hist: seq<byte>

    ghost predicate Valid()
      reads this, input, win, win.window
    {
      && put <= out.Length && out != win.window
      && CodesOk(codes) && codes.window == win.window.Length
      && ModeOk(mode) && input.Valid() && (win.Holds(hist) || (mode == Bad && win.wsize == 0))
    }

    /** All that has been put out. */
    ghost function Full(): seq<byte>
      requires put <= out.Length
      reads this, out
    {
      hist + out[..put]
    }

    ghost function Now(): Point
      requires put <= out.Length && input.Valid()
      reads this, input, out
    {
      Point(mode, input.Unread(), Full())
    }

    ghost predicate Keen()
      requires input.Valid()
      reads this, input
    {
      IsKeen(codes, mode, input.bits, input.Held())
    }

    /** Before the first code of a block, with nothing behind and no bits held. */
    constructor (cs: Codes, wbits: nat)
      requires CodesOk(cs) && cs.window == Pow2(wbits)
      ensures Valid() && Keen() && Now() == Point(Len, [], []) && codes == cs && hist == [] && put == 0
      ensures fresh(input) && fresh(win) && fresh(win.window) && input.Held() == [] && input.bits == 0
      ensures win.Holds([]) && win.window.Length == Pow2(wbits)
    {
      hide CodesOk, NextEntry;
      codes, mode, put, hist := cs, Len, 0, [];
      input := new BitIn();
      win := new Window(wbits);
      out := new byte[0];
    }

    lemma ValidIs()
      ensures Valid() <==>
              && put <= out.Length && out != win.window && input.Valid() && (win.Holds(hist) || (mode == Bad && win.wsize == 0))
              && codes.window == win.window.Length && CodesOk(codes) && ModeOk(mode)
      ensures ModeOk(Bad) && ModeOk(Len) && ModeOk(Type)
    {
      hide CodesOk;
    }

    /** Copying from what this call has put out. */
    method CopyFromOutput(offset: nat, n: nat, ghost was: seq<byte>)
      requires put <= out.Length && 1 <= offset <= put && put + n <= out.Length && was == Full()
      modifies this`put, out
      ensures put == old(put) + n && offset <= |was| && Full() == Copied(was, offset, n)
    {
      var from, k := put - offset, 0;
      while k < n
        invariant k <= n && put == old(put) + k && from == put - offset
        invariant Full() == Copied(was, offset, k)
        modifies this`put, out
      {
        ghost var full := Full();
        out[put] := out[from];
        put, from, k := put + 1, from + 1, k + 1;
        assert full[|full| - offset] == out[put - 1];
        assert Full() == full + [out[put - 1]];
      }
    }

    /** Copying from the window, where the bytes lie one behind the other. */
    method CopyFromWindow(start: nat, offset: nat, n: nat, ghost was: seq<byte>)
      requires put <= out.Length && out != win.window && was == Full() && 1 <= offset <= |was| && n <= offset && put + n <= out.Length
      requires start + n <= win.window.Length
      requires win.window[start..start + n] == was[|was| - offset..|was| - offset + n]
      modifies this`put, out
      ensures put == old(put) + n && Full() == Copied(was, offset, n)
    {
      var from, k := start, 0;
      while k < n
        invariant k <= n && put == old(put) + k && from == start + k
        invariant Full() == Copied(was, offset, k) && win.window[start..start + n] == was[|was| - offset..|was| - offset + n]
        modifies this`put, out
      {
        ghost var full := Full();
        CopiedKeeps(was, offset, k);
        assert full[|full| - offset] == full[..|was|][|was| - offset + k] == was[|was| - offset..|was| - offset + n][k];
        assert win.window[start..start + n][k] == win.window[from];
        out[put] := win.window[from];
        put, from, k := put + 1, from + 1, k + 1;
        assert Full() == full + [out[put - 1]];
      }
    }

    /** Bytes of the history that lie in the window one behind the other: from distance d back on. */
    lemma Piece(d: nat, n: nat, was: seq<byte>, offset: nat)
      requires Valid() && !mode.Bad? && was == Full() && offset == d + put && 1 <= d <= win.whave && n <= (if d > win.wnext then d - win.wnext else d)
      ensures win.wsize == win.window.Length && offset <= |was| && Place(win.wsize, win.wnext, d) + n <= win.window.Length
      ensures var a := Place(win.wsize, win.wnext, d); win.window[a..a + n] == was[|was| - offset..|was| - offset + n]
    {
      hide CodesOk, NextEntry;
      win.Reach(hist);
      win.At(hist, d);
      var a, w, b: nat := Place(win.wsize, win.wnext, d), win.window[..], |was| - offset;
      forall j | 0 <= j < n
        ensures SameAt(w, a, was, b, j)
      {
        win.At(hist, d - j);
        assert Place(win.wsize, win.wnext, d - j) == a + j;
      }
      SameSlices(w, a, was, b, n);
    }
  }

  /** What the call is limited to: the room it has, and where it begins. */
  ghost function Bound(s: State): Limits
    reads s`out, s`hist
  {
    Limits(s.out.Length <= 1, |s.hist|)
  }

  lemma BoundIs(s: State)
    ensures Bound(s) == Limits(s.out.Length <= 1, |s.hist|)
  {
  }

  /** The test of the code is that a distance is kept. */
  lemma NearIs(cs: Codes, room: nat, n: nat, put: nat, whave: nat, offset: nat)
    requires whave == (if n < cs.window then n else cs.window) && put < room
    ensures Near(cs, OfCall(Limits(room <= 1, n)), n + put, offset) <==> 1 <= offset <= put + whave
  {
  }
}
