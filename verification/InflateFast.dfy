/** inflate_fast (dep/zlib/inffast.c): decoding without asking for input or room at every step. */
module InflateFast {
  import opened Bits
  import opened LowBits
  import opened Lz77
  import opened InflateEntries
  import opened InflateSpec
  import opened InflateInput
  import opened InflateLookUp
  import opened InflateWindow
  import opened InflateState

  /** From the window first, and the rest from what has just been put out (dep/zlib/inffast.c:217-226, 246-255). */
  method CopyBoth(s: State, start: nat, d: nat, dist: nat, len: nat, ghost was: seq<byte>)
    requires s.put <= s.out.Length && s.out != s.win.window && was == s.Full() && 1 <= dist <= |was| && s.put + len <= s.out.Length
    requires dist == d + s.put && 1 <= d && start + d <= s.win.window.Length
    requires s.win.window[start..start + d] == was[|was| - dist..|was| - dist + d]
    modifies s`put, s.out
    ensures s.put == old(s.put) + len && s.Full() == Copied(was, dist, len)
  {
    hide *;
    if d < len {
      s.CopyFromWindow(start, dist, d, was);
      ghost var full := s.Full();
      s.CopyFromOutput(dist, len - d, full);
      CopiedOn(was, dist, d, len - d);
    } else {
      CopyLess(s, start, d, dist, len, was);
    }
  }

  /** From the window, less than there is in one piece. */
  method CopyLess(s: State, start: nat, n: nat, dist: nat, len: nat, ghost was: seq<byte>)
    requires s.put <= s.out.Length && s.out != s.win.window && was == s.Full() && 1 <= dist <= |was| && s.put + len <= s.out.Length
    requires len <= n <= dist && start + n <= s.win.window.Length
    requires s.win.window[start..start + n] == was[|was| - dist..|was| - dist + n]
    modifies s`put, s.out
    ensures s.put == old(s.put) + len && s.Full() == Copied(was, dist, len)
  {
    hide *;
    ShorterPiece(s.win.window[..], start, was, |was| - dist, len, n);
    s.CopyFromWindow(start, dist, len, was);
  }

  lemma ShorterPiece(w: seq<byte>, a: nat, h: seq<byte>, b: nat, m: nat, n: nat)
    requires m <= n && a + n <= |w| && b + n <= |h| && w[a..a + n] == h[b..b + n]
    ensures w[a..a + m] == h[b..b + m]
  {
    assert w[a..a + m] == w[a..a + n][..m] && h[b..b + m] == h[b..b + n][..m];
  }

  /** What the copy cases need to know of the state. */
  lemma Facts(s: State)
    requires s.Valid() && s.mode != Bad
    ensures s.put <= s.out.Length && s.out != s.win.window && s.win.Holds(s.hist) && s.input.Valid() && |s.Full()| == |s.hist| + s.put
    ensures s.win.whave == (if |s.hist| < s.win.window.Length then |s.hist| else s.win.window.Length)
    ensures s.win.wsize == 0 || s.win.wsize == s.win.window.Length
    ensures s.win.wsize > 0 ==> s.win.wnext < s.win.wsize && (s.win.whave < s.win.wsize ==> s.win.wnext == s.win.whave)
    ensures s.win.whave > 0 ==> s.win.wsize > 0
    ensures s.codes.window == s.win.window.Length && CodesOk(s.codes) && ModeOk(s.mode)
  {
    hide CodesOk, ModeOk;
    s.win.Reach(s.hist);
  }

  lemma PlaceIs(wsize: nat, wnext: nat, d: nat)
    requires d <= wsize && wnext < wsize
    ensures Place(wsize, wnext, d) == if d <= wnext then wnext - d else wsize + wnext - d
  {
  }

  /** The copy cases when a match begins before the output of this call (dep/zlib/inffast.c:188-267). */
  method CopyFromBefore(s: State, dist: nat, len: nat, ghost was: seq<byte>)
    requires s.Valid() && s.mode != Bad && was == s.Full() && s.put < dist <= s.put + s.win.whave && 1 <= len
    requires s.put + len <= s.out.Length
    modifies s`put, s.out
    ensures s.put == old(s.put) + len && dist <= |was| && s.Full() == Copied(was, dist, len)
  {
    hide *;
    Facts(s);
    var wnext, wsize := s.win.wnext, s.win.wsize;
    var op := dist - s.put;
    PlaceIs(wsize, wnext, op);
    if wnext == 0 {
      s.Piece(op, op, was, dist);
      CopyBoth(s, wsize - op, op, dist, len, was);
    } else if wnext < op {
      CopyWrapped(s, dist, len, was);
    } else {
      s.Piece(op, op, was, dist);
      CopyBoth(s, wnext - op, op, dist, len, was);
    }
  }

  /** The case in which the match begins at the end of the window and goes on at its start (dep/zlib/inffast.c:227-245). */
  method CopyWrapped(s: State, dist: nat, len: nat, ghost was: seq<byte>)
    requires s.Valid() && s.mode != Bad && was == s.Full() && s.put + s.win.wnext < dist <= s.put + s.win.whave && 1 <= len
    requires s.win.wnext > 0 && s.put + len <= s.out.Length
    modifies s`put, s.out
    ensures s.put == old(s.put) + len && dist <= |was| && s.Full() == Copied(was, dist, len)
  {
    hide *;
    Facts(s);
    var wnext, d := s.win.wnext, dist - s.put;
    PlaceIs(s.win.wsize, wnext, d);
    s.Piece(d, d - wnext, was, dist);
    var from, op := s.win.wsize + wnext - d, d - wnext;
    if op < len {
      WindowStart(s, wnext, was, dist);
      CopyOver(s, from, op, wnext, dist, len, was);
    } else {
      CopyLess(s, from, op, dist, len, was);
    }
  }

  /** From the end of the window, from its start, and the rest from what has just been put out. */
  method CopyOver(s: State, from: nat, op: nat, wnext: nat, dist: nat, len: nat, ghost was: seq<byte>)
    requires s.put <= s.out.Length && s.out != s.win.window && was == s.Full() && 1 <= dist <= |was| && s.put + len <= s.out.Length
    requires dist == op + wnext + s.put && 1 <= wnext && 1 <= op < len && from + op <= s.win.window.Length && wnext <= s.win.window.Length
    requires s.win.window[from..from + op] == was[|was| - dist..|was| - dist + op]
    requires s.win.window[0..wnext] == was[|was| - s.put - wnext..|was| - s.put]
    modifies s`put, s.out
    ensures s.put == old(s.put) + len && s.Full() == Copied(was, dist, len)
  {
    hide *;
    ghost var before := s.put;
    s.CopyFromWindow(from, dist, op, was);
    ghost var full := s.Full();
    CopiedKeeps(was, dist, op);
    SameLater(was, full, |was| - before - wnext, wnext);
    CopyBoth(s, 0, wnext, dist, len - op, full);
    CopiedOn(was, dist, op, len - op);
  }

  /** The start of the window continues its end. */
  lemma WindowStart(s: State, wnext: nat, was: seq<byte>, dist: nat)
    requires s.Valid() && s.mode != Bad && was == s.Full() && wnext == s.win.wnext && 1 <= wnext < dist - s.put <= s.win.whave
    ensures wnext <= s.win.window.Length && s.put + wnext <= |was|
    ensures s.win.window[0..wnext] == was[|was| - s.put - wnext..|was| - s.put]
  {
    hide *;
    Facts(s);
    PlaceIs(s.win.wsize, wnext, wnext);
    s.Piece(wnext, wnext, was, s.put + wnext);
  }

  lemma SameLater(was: seq<byte>, full: seq<byte>, a: nat, n: nat)
    requires |was| <= |full| && full[..|was|] == was && a + n <= |was|
    ensures full[a..a + n] == was[a..a + n]
  {
    var u, v := full[a..a + n], was[a..a + n];
    forall j | 0 <= j < n
      ensures u[j] == v[j]
    {
      assert full[..|was|][a + j] == full[a + j];
    }
  }

  /** Copying a match: from the window or from what this call has put out (dep/zlib/inffast.c:186-281). */
  method MatchFast(s: State, dist: nat, len: nat, ghost was: seq<byte>)
    requires s.Valid() && s.mode == Len && was == s.Full() && 1 <= dist && 1 <= len && s.put + len <= s.out.Length
    modifies s`mode, s`put, s.out
    ensures s.Valid() && s.mode == if dist > old(s.put) + s.win.whave then Bad else Len
    ensures s.mode == Len ==> dist <= |was| && s.put == old(s.put) + len && Near(s.codes, OfCall(Bound(s)), |was|, dist) && s.Full() == Copied(was, dist, len)
    ensures s.mode == Bad ==> s.Full() == was && !Near(s.codes, OfCall(Bound(s)), |was|, dist)
  {
    hide *;
    Facts(s);
    FullSize(s);
    ghost var put := s.put;
    BoundIs(s);
    NearIs(s.codes, s.out.Length, |s.hist|, s.put, s.win.whave, dist);
    if dist > s.put {
      var op := dist - s.put;
      if op > s.win.whave {
        s.mode := Bad;
        s.ValidIs();
        SameFull(s, was);
        return;
      }
      CopyFromBefore(s, dist, len, was);
    } else {
      s.CopyFromOutput(dist, len, was);
    }
    s.ValidIs();
  }

  lemma FullSize(s: State)
    requires s.put <= s.out.Length
    ensures s.Full() == s.hist + s.out[..s.put] && |s.Full()| == |s.hist| + s.put
  {
  }

  lemma SameFull(s: State, was: seq<byte>)
    requires s.put <= s.out.Length && was == s.hist + s.out[..s.put]
    ensures s.Full() == was
  {
  }

  lemma NoBits(u: seq<bool>)
    ensures u[0..] == u && LowValue(u[..0]) == 0
  {
  }

  /** From the base of a length to the end of the match (dep/zlib/inffast.c:139-282). */
  method LengthFast(s: State, base: nat, extra: nat)
    requires s.Valid() && s.mode == Len && ModeOk(LenExt(base, extra)) && |s.input.Unread()| >= 33 && s.put + 258 <= s.out.Length
    modifies s`mode, s`put, s.out, s.input
    ensures s.Valid() && s.mode in {Len, Bad} && s.input.input == old(s.input.input) && s.input.before == old(s.input.before)
    ensures Reaches(s.codes, Bound(s), Point(LenExt(base, extra), old(s.input.Unread()), old(s.Full())), s.Now())
    ensures |s.input.Unread()| <= old(|s.input.Unread()|)
  {
    hide *;
    s.ValidIs();
    CodesOkIs(s.codes);
    ModeIs(LenExt(base, extra));
    ghost var u, full := s.input.Unread(), s.Full();
    NoBits(u);
    var len := base;
    if extra > 0 {
      var v := BitsFast(s.input, extra);
      len := base + v;
    }
    ghost var p, u1 := Point(LenExt(base, extra), u, full), s.input.Unread();
    LenExtReaches(s.codes, Bound(s), p);
    s.ValidIs();
    DistanceFast(s, len);
    s.ValidIs();
    ReachesOn(s.codes, Bound(s), p, Point(Dist(len), u1, full), s.Now());
  }

  lemma ModeIs(m: Mode)
    ensures m.LenExt? ==> (ModeOk(m) <==> 3 <= m.length && m.extra <= 5 && m.length + Pow2(m.extra) <= 259)
    ensures m.Dist? ==> (ModeOk(m) <==> 3 <= m.length <= 258)
    ensures m.DistExt? ==> (ModeOk(m) <==> 3 <= m.length <= 258 && 1 <= m.offset && m.extra <= 13 && m.offset + Pow2(m.extra) <= 32769)
    ensures m.Match? ==> (ModeOk(m) <==> 1 <= m.length <= 258 && 1 <= m.offset <= 32768)
  {
  }

  /** From the code of a distance to the end of the match (dep/zlib/inffast.c:152-291). */
  method DistanceFast(s: State, len: nat)
    requires s.Valid() && s.mode == Len && ModeOk(Dist(len)) && |s.input.Unread()| >= 28 && s.put + 258 <= s.out.Length
    modifies s`mode, s`put, s.out, s.input
    ensures s.Valid() && s.mode in {Len, Bad} && s.input.input == old(s.input.input) && s.input.before == old(s.input.before)
    ensures Reaches(s.codes, Bound(s), Point(Dist(len), old(s.input.Unread()), old(s.Full())), s.Now())
    ensures |s.input.Unread()| <= old(|s.input.Unread()|)
  {
    hide *;
    s.ValidIs();
    CodesOkIs(s.codes);
    ModeIs(Dist(len));
    ghost var p := Point(Dist(len), s.input.Unread(), s.Full());
    var here := NextFast(s.input, s.codes.dists, DISTS);
    ghost var e, u1, full := here.(bits := 0), s.input.Unread(), s.Full();
    DistReaches(s.codes, Bound(s), p, e, u1);
    DistModeOk(len, e);
    s.ValidIs();
    if here.op / 16 % 2 == 1 {
      var extra := here.op % 16;
      ModeIs(DistExt(len, here.val, extra));
      var v := BitsFast(s.input, extra);
      var dist := here.val + v;
      ghost var q, u2 := Point(DistExt(len, here.val, extra), u1, full), s.input.Unread();
      DistExtReaches(s.codes, Bound(s), q);
      ModeIs(Match(len, dist));
      ReachesOn(s.codes, Bound(s), p, q, Point(Match(len, dist), u2, full));
      s.ValidIs();
      FullSize(s);
      MatchFast(s, dist, len, full);
      MatchReachesTo(s, len, dist, full);
      s.ValidIs();
      ReachesOn(s.codes, Bound(s), p, Point(Match(len, dist), u2, full), s.Now());
    } else {
      FullSize(s);
      s.mode := Bad;
      s.ValidIs();
      SameFull(s, full);
      NowIs(s);
    }
  }

  /** A match that has been copied or rejected. */
  lemma MatchReachesTo(s: State, len: nat, dist: nat, was: seq<byte>)
    requires s.Valid() && 1 <= len && 1 <= dist && |s.hist| <= |was|
    requires s.mode == Len ==> dist <= |was| && Near(s.codes, OfCall(Bound(s)), |was|, dist) && s.Full() == Copied(was, dist, len)
    requires s.mode == Bad ==> s.Full() == was && !Near(s.codes, OfCall(Bound(s)), |was|, dist)
    requires s.mode in {Len, Bad}
    ensures Reaches(s.codes, Bound(s), Point(Match(len, dist), s.input.Unread(), was), s.Now())
  {
    hide *;
    s.ValidIs();
    NowIs(s);
    BoundIs(s);
    var p, u := Point(Match(len, dist), s.input.Unread(), was), s.input.Unread();
    if s.mode == Len {
      var q := Point(Match(0, dist), u, s.Full());
      MatchReaches(s.codes, Bound(s), p, len);
      MatchDone(s.codes, Bound(s), q, s.Now());
      ReachesOn(s.codes, Bound(s), p, q, s.Now());
    } else {
      FarReaches(s.codes, Bound(s), p);
    }
  }

  lemma NowIs(s: State)
    requires s.put <= s.out.Length && s.input.Valid()
    ensures s.Now() == Point(s.mode, s.input.Unread(), s.Full())
  {
  }

  /** One turn of the loop: a literal, a match, the end of the block or an error (dep/zlib/inffast.c:120-307). */
  method OneTurn(s: State)
    requires s.Valid() && s.mode == Len && |s.input.Unread()| >= 48 && s.put + 258 <= s.out.Length
    modifies s`mode, s`put, s.out, s.input
    ensures s.Valid() && s.mode in {Len, Type, Bad} && s.input.input == old(s.input.input) && s.input.before == old(s.input.before)
    ensures Reaches(s.codes, Bound(s), old(s.Now()), s.Now())
    ensures var next := NextEntry(s.codes.lens, old(s.input.Unread()));
            next.Found? && |s.input.Unread()| <= |next.rest| < old(|s.input.Unread()|)
  {
    hide *;
    s.ValidIs();
    CodesOkIs(s.codes);
    NowIs(s);
    FullSize(s);
    ghost var p := s.Now();
    var here := NextFast(s.input, s.codes.lens, LENS);
    ghost var e, u, full := here.(bits := 0), s.input.Unread(), s.Full();
    SameFull(s, p.hist);
    LenReaches(s.codes, Bound(s), p, e, u);
    LenModeOk(e);
    s.ValidIs();
    if here.op == 0 {
      s.out[s.put] := here.val;
      s.put := s.put + 1;
      s.ValidIs();
      OneMore(s, full, here.val);
      LitStep(s, p, here.val, u, full);
    } else if here.op / 16 % 2 == 1 {
      LengthFast(s, here.val, here.op % 16);
      s.ValidIs();
      ReachesOn(s.codes, Bound(s), p, Point(LenExt(here.val, here.op % 16), u, full), s.Now());
    } else {
      s.mode := if here.op / 32 % 2 == 1 then Type else Bad;
      EndMode(e);
      s.ValidIs();
      SameFull(s, full);
      NowIs(s);
    }
  }

  lemma OneMore(s: State, full: seq<byte>, b: byte)
    requires 1 <= s.put <= s.out.Length && full == s.hist + s.out[..s.put - 1] && s.out[s.put - 1] == b
    ensures s.Full() == full + [b]
  {
  }

  lemma LitStep(s: State, p: Point, v: byte, u: seq<bool>, full: seq<byte>)
    requires s.put <= s.out.Length && s.input.Valid() && s.mode == Len && s.input.Unread() == u && s.Full() == full + [v]
    requires Reaches(s.codes, Bound(s), p, Point(Lit(v), u, full))
    ensures Reaches(s.codes, Bound(s), p, s.Now())
  {
    hide *;
    NowIs(s);
    LitReaches(s.codes, Bound(s), Point(Lit(v), u, full));
    ReachesOn(s.codes, Bound(s), p, Point(Lit(v), u, full), s.Now());
  }

  lemma EndMode(e: Entry)
    requires e.op in {64, 68, 78, 96}
    ensures LenMode(e) == if e.op / 32 % 2 == 1 then Type else Bad
  {
  }

  /** inflate_fast. */
  method DecodeFast(s: State)
    requires s.Valid() && s.Keen() && s.mode == Len && |s.input.input| - s.input.next >= 6 && s.out.Length - s.put >= 258
    modifies s`mode, s`put, s.out, s.input
    ensures s.Valid() && s.mode in {Len, Type, Bad} && s.input.input == old(s.input.input) && s.input.before == old(s.input.before)
    ensures s.input.bits < 8
    ensures Reaches(s.codes, Bound(s), old(s.Now()), s.Now()) && |s.input.Unread()| < old(|s.input.Unread()|)
  {
    hide *;
    s.ValidIs();
    Counted(s.input);
    ghost var p, size := s.Now(), |s.input.Unread()|;
    FirstCode(s);
    OneTurn(s);
    s.ValidIs();
    Counted(s.input);
    while s.mode == Len && |s.input.input| - s.input.next >= 6 && s.out.Length - s.put >= 258
      invariant s.Valid() && s.mode in {Len, Type, Bad} && s.input.input == old(s.input.input) && s.input.before == old(s.input.before)
      invariant s.put <= s.out.Length && s.input.Valid() && Reaches(s.codes, Bound(s), p, s.Now())
      invariant |s.input.Unread()| < size && |s.input.Unread()| < 8 * |s.input.input| + 8
      decreases |s.input.Unread()|
    {
      Counted(s.input);
      ghost var q := s.Now();
      OneTurn(s);
      s.ValidIs();
      ReachesOn(s.codes, Bound(s), p, q, s.Now());
    }
    ghost var q, u := s.Now(), s.input.Unread();
    FullSize(s);
    NowIs(s);
    Reckoned(s.input);
    s.input.ReturnUnused();
    s.ValidIs();
    SameFull(s, q.hist);
    NowIs(s);
  }

  /** The bits that are unread, by position. */
  lemma Reckoned(i: BitIn)
    requires i.Valid()
    ensures i.Pos() + |i.Unread()| == 8 * (|i.before| + |i.input|)
  {
  }

  /** After the first code no more than the bytes of this call are to be returned. */
  lemma FirstCode(s: State)
    requires s.Valid() && s.Keen() && s.mode == Len
    ensures var next := NextEntry(s.codes.lens, s.input.Unread());
            next.Found? ==> |next.rest| < 8 * |s.input.input| + 8
  {
    hide *;
    s.ValidIs();
    CodesOkIs(s.codes);
    KeenIs(s);
    var i := s.input;
    InIs(i, s.codes.lens, i.Unread());
    var u := i.Unread();
    if i.bits >= 8 && NextEntry(s.codes.lens, u).Found? {
      assert u[..i.bits] + u[i.bits..] == u;
      ShortTakesMore(s.codes.lens, LENS, u[..i.bits], u[i.bits..]);
    } else if NextEntry(s.codes.lens, u).Found? {
      NextTakes(s.codes.lens, u);
    }
  }

  lemma NextTakes(c: Code, s: seq<bool>)
    requires NextEntry(c, s).Found?
    ensures |NextEntry(c, s).rest| < |s|
  {
  }

  lemma KeenIs(s: State)
    requires s.input.Valid() && s.mode == Len
    ensures s.Keen() <==> Tight(s.input, s.codes.lens)
  {
    hide NextEntry;
  }
}
