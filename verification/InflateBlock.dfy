/** inflate from the code of a length or literal to the end of a block (dep/zlib/inflate.c:1020-1172, 1229-1250), call by call. */
module InflateBlock {
  import opened Bits
  import opened LowBits
  import opened Lz77
  import opened InflateEntries
  import opened InflateSpec
  import opened InflateInput
  import opened InflateLookUp
  import opened InflateState
  import opened InflateFast

  /** The bits do not suffice for the next step. */
  ghost predicate Starving(cs: Codes, p: Point) {
    match p.mode
    case Len => NextEntry(cs.lens, p.unread).Short?
    case Dist(_) => NextEntry(cs.dists, p.unread).Short?
    case LenExt(_, extra) => |p.unread| < extra
    case DistExt(_, _, extra) => |p.unread| < extra
    case _ => false
  }

  lemma StarvingRun(cs: Codes, reach: Reach, p: Point)
    requires Starving(cs, p)
    ensures Run(cs, reach, p.mode, p.unread, p.hist) == Result([], Starved)
  {
    hide NextEntry;
  }

  /** How far decoding is from running out of bits. */
  ghost predicate Nearer(u: seq<bool>, m: Mode, u0: seq<bool>, m0: Mode) {
    |u| < |u0| || (|u| == |u0| && (Phase(m) < Phase(m0) || (Phase(m) == Phase(m0) && ToCopy(m) < ToCopy(m0))))
  }

  /** The next code is cut off by the end of the input. */
  ghost predicate CutOff(cs: Codes, p: Point) {
    p.mode == Len && NextEntry(cs.lens, p.unread).Short?
  }

  lemma CutOffIs(cs: Codes, p: Point)
    ensures CutOff(cs, p) <==> p.mode == Len && NextEntry(cs.lens, p.unread).Short?
    ensures CodesOk(cs) && CutOff(cs, p) ==> |p.unread| < 15
  {
    hide NextEntry, CodesOk;
    if CodesOk(cs) && CutOff(cs, p) {
      CodesOkIs(cs);
      SoundIs(cs.lens, LENS, Pad(p.unread));
      NextIs(cs.lens, p.unread);
    }
  }

  /** What every state of the switch does: it moves on, or leaves for want of input or room. */
  ghost predicate Moved(s: State, p: Point, go: bool)
    requires s.put <= s.out.Length && s.input.Valid()
    reads s, s.input, s.out
  {
    && Reaches(s.codes, Bound(s), p, s.Now())
    && (go ==> Nearer(s.input.Unread(), s.mode, p.unread, p.mode))
    && (!go ==> s.Now() == p && ((Starving(s.codes, p) && s.input.next == |s.input.input|)
                                 || (s.put == s.out.Length && (s.mode.Match? || s.mode.Lit?))))
  }

  lemma MovedIs(s: State, p: Point, go: bool)
    requires s.put <= s.out.Length && s.input.Valid()
    ensures Moved(s, p, go) <==>
            && Reaches(s.codes, Bound(s), p, s.Now())
            && (go ==> Nearer(s.input.Unread(), s.mode, p.unread, p.mode))
            && (!go ==> s.Now() == p && ((Starving(s.codes, p) && s.input.next == |s.input.input|)
                                         || (s.put == s.out.Length && (s.mode.Match? || s.mode.Lit?))))
  {
    hide Reaches, Nearer, Starving;
  }

  lemma NearerIs(u: seq<bool>, m: Mode, u0: seq<bool>, m0: Mode)
    ensures Nearer(u, m, u0, m0) <==>
              |u| < |u0| || (|u| == |u0| && (Phase(m) < Phase(m0) || (Phase(m) == Phase(m0) && ToCopy(m) < ToCopy(m0))))
  {
  }

  lemma StarvingIs(cs: Codes, p: Point)
    ensures p.mode == Len && NextEntry(cs.lens, p.unread).Short? ==> Starving(cs, p)
    ensures p.mode.Dist? && NextEntry(cs.dists, p.unread).Short? ==> Starving(cs, p)
    ensures p.mode.LenExt? && |p.unread| < p.mode.extra ==> Starving(cs, p)
    ensures p.mode.DistExt? && |p.unread| < p.mode.extra ==> Starving(cs, p)
  {
    hide NextEntry;
  }

  /** Few bits are held, or all of them and they are not enough. */
  lemma StillKeen(s: State)
    requires s.input.Valid()
    requires || s.input.bits < 8
             || (s.mode == Len && NextEntry(s.codes.lens, s.input.Held()).Short?)
             || (s.mode.Dist? && NextEntry(s.codes.dists, s.input.Held()).Short?)
             || (s.mode.LenExt? && s.input.bits < s.mode.extra)
             || (s.mode.DistExt? && s.input.bits < s.mode.extra)
    ensures s.Keen()
  {
    hide NextEntry;
  }

  lemma KeenParts(s: State)
    requires s.input.Valid() && s.Keen()
    ensures s.mode == Len ==> Tight(s.input, s.codes.lens)
    ensures s.mode.Dist? ==> Tight(s.input, s.codes.dists)
    ensures s.mode.LenExt? || s.mode.DistExt? ==> s.input.bits < 8 || s.input.bits < s.mode.extra
    ensures s.mode.Match? || s.mode.Lit? || s.mode.Type? || s.mode.Bad? ==> s.input.bits < 8
  {
    hide NextEntry;
  }

  /** LEN, when there is not enough input or room for inflate_fast (dep/zlib/inflate.c:1029-1068). */
  method LenSlow(s: State) returns (go: bool)
    requires s.Valid() && s.Keen() && s.mode == Len
    modifies s`mode, s.input
    ensures s.Valid() && s.Keen() && s.input.input == old(s.input.input) && s.input.before == old(s.input.before)
    ensures Moved(s, old(s.Now()), go) && go == !CutOff(s.codes, old(s.Now()))
  {
    hide *;
    s.ValidIs();
    CodesOkIs(s.codes);
    KeenParts(s);
    NowIs(s);
    FullSize(s);
    ghost var p := s.Now();
    CutOffIs(s.codes, p);
    var here;
    go, here := NextSlow(s.input, s.codes.lens, LENS);
    SameFull(s, p.hist);
    NowIs(s);
    s.ValidIs();
    if !go {
      StarvingIs(s.codes, p);
      ReachesItself(s.codes, Bound(s), p);
      StillKeen(s);
      MovedIs(s, p, go);
      return;
    }
    LenReaches(s.codes, Bound(s), p, here, s.input.Unread());
    LenModeOk(here);
    if here.op == 0 {
      s.mode := Lit(here.val);
    } else if here.op / 32 % 2 == 1 {
      s.mode := Type;
    } else if here.op / 64 % 2 == 1 {
      s.mode := Bad;
    } else {
      s.mode := LenExt(here.val, here.op % 16);
    }
    LenModeIs(here);
    SameFull(s, p.hist);
    NowIs(s);
    s.ValidIs();
    StillKeen(s);
    NextTakes(s.codes.lens, p.unread);
    NearerIs(s.input.Unread(), s.mode, p.unread, p.mode);
    MovedIs(s, p, go);
  }

  lemma LenModeIs(e: Entry)
    requires IsAction(LENS, e)
    ensures LenMode(e) == if e.op == 0 then Lit(e.val) else if e.op / 32 % 2 == 1 then Type
                          else if e.op / 64 % 2 == 1 then Bad else LenExt(e.val, e.op % 16)
  {
  }

  /** The extra bits of a length or a distance: NEEDBITS, BITS and DROPBITS. */
  method ExtraSlow(s: State, extra: nat) returns (go: bool, v: nat)
    requires s.Valid() && s.Keen() && extra <= 13
    requires (s.mode.LenExt? || s.mode.DistExt?) && s.mode.extra == extra
    modifies s.input
    ensures s.Valid() && s.input.input == old(s.input.input) && s.input.before == old(s.input.before)
    ensures go ==> s.input.bits < 8 && extra <= old(|s.input.Unread()|) && v == LowValue(old(s.input.Unread())[..extra])
                   && s.input.Unread() == old(s.input.Unread())[extra..]
    ensures !go ==> s.input.Unread() == old(s.input.Unread()) && |s.input.Unread()| < extra && s.input.next == |s.input.input| && s.Keen()
  {
    hide *;
    s.ValidIs();
    KeenParts(s);
    ghost var u := s.input.Unread();
    NoBits(u);
    go, v := true, 0;
    if extra > 0 {
      go := s.input.NeedBits(extra);
      Counted(s.input);
      if go {
        v := s.input.Bits(extra);
        s.input.DropBits(extra);
      } else {
        StillKeen(s);
      }
    }
    s.ValidIs();
  }

  /** LENEXT (dep/zlib/inflate.c:1069-1078). */
  method LenExtSlow(s: State) returns (go: bool)
    requires s.Valid() && s.Keen() && s.mode.LenExt?
    modifies s`mode, s.input
    ensures s.Valid() && s.Keen() && s.input.input == old(s.input.input) && s.input.before == old(s.input.before)
    ensures Moved(s, old(s.Now()), go)
  {
    hide *;
    s.ValidIs();
    ModeIs(s.mode);
    NowIs(s);
    FullSize(s);
    ghost var p := s.Now();
    var v;
    go, v := ExtraSlow(s, s.mode.extra);
    s.ValidIs();
    SameFull(s, p.hist);
    NowIs(s);
    if !go {
      StarvingIs(s.codes, p);
      ReachesItself(s.codes, Bound(s), p);
      MovedIs(s, p, go);
      return;
    }
    LenExtReaches(s.codes, Bound(s), p);
    s.mode := Dist(s.mode.length + v);
    SameFull(s, p.hist);
    NowIs(s);
    s.ValidIs();
    StillKeen(s);
    Order(p.mode, s.mode);
    NearerIs(s.input.Unread(), s.mode, p.unread, p.mode);
    MovedIs(s, p, go);
  }

  /** The order of the modes. */
  lemma Order(m0: Mode, m: Mode)
    ensures m0.LenExt? && m.Dist? ==> Phase(m) < Phase(m0)
    ensures m0.DistExt? && m.Match? ==> Phase(m) < Phase(m0)
    ensures m0.Match? && m.Match? && m.length < m0.length ==> Phase(m) == Phase(m0) && ToCopy(m) < ToCopy(m0)
    ensures (m0.Match? || m0.Lit?) && (m == Len || m == Bad) ==> Phase(m) < Phase(m0)
  {
  }

  /** DIST (dep/zlib/inflate.c:1079-1105). */
  method DistSlow(s: State) returns (go: bool)
    requires s.Valid() && s.Keen() && s.mode.Dist?
    modifies s`mode, s.input
    ensures s.Valid() && s.Keen() && s.input.input == old(s.input.input) && s.input.before == old(s.input.before)
    ensures Moved(s, old(s.Now()), go)
  {
    hide *;
    s.ValidIs();
    ModeIs(s.mode);
    CodesOkIs(s.codes);
    KeenParts(s);
    NowIs(s);
    FullSize(s);
    ghost var p := s.Now();
    var here;
    go, here := NextSlow(s.input, s.codes.dists, DISTS);
    SameFull(s, p.hist);
    NowIs(s);
    s.ValidIs();
    if !go {
      StarvingIs(s.codes, p);
      ReachesItself(s.codes, Bound(s), p);
      StillKeen(s);
      MovedIs(s, p, go);
      return;
    }
    DistReaches(s.codes, Bound(s), p, here, s.input.Unread());
    DistModeOk(s.mode.length, here);
    if here.op / 64 % 2 == 1 {
      s.mode := Bad;
    } else {
      s.mode := DistExt(s.mode.length, here.val, here.op % 16);
    }
    DistModeIs(p.mode.length, here);
    SameFull(s, p.hist);
    NowIs(s);
    s.ValidIs();
    StillKeen(s);
    NextTakes(s.codes.dists, p.unread);
    NearerIs(s.input.Unread(), s.mode, p.unread, p.mode);
    MovedIs(s, p, go);
  }

  lemma DistModeIs(length: nat, e: Entry)
    ensures DistMode(length, e) == if e.op / 64 % 2 == 1 then Bad else DistExt(length, e.val, e.op % 16)
  {
  }

  /** DISTEXT (dep/zlib/inflate.c:1106-1121). */
  method DistExtSlow(s: State) returns (go: bool)
    requires s.Valid() && s.Keen() && s.mode.DistExt?
    modifies s`mode, s.input
    ensures s.Valid() && s.Keen() && s.input.input == old(s.input.input) && s.input.before == old(s.input.before)
    ensures Moved(s, old(s.Now()), go)
  {
    hide *;
    s.ValidIs();
    ModeIs(s.mode);
    NowIs(s);
    FullSize(s);
    ghost var p := s.Now();
    var v;
    go, v := ExtraSlow(s, s.mode.extra);
    s.ValidIs();
    SameFull(s, p.hist);
    NowIs(s);
    if !go {
      StarvingIs(s.codes, p);
      ReachesItself(s.codes, Bound(s), p);
      MovedIs(s, p, go);
      return;
    }
    DistExtReaches(s.codes, Bound(s), p);
    s.mode := Match(s.mode.length, s.mode.offset + v);
    SameFull(s, p.hist);
    NowIs(s);
    s.ValidIs();
    StillKeen(s);
    Order(p.mode, s.mode);
    NearerIs(s.input.Unread(), s.mode, p.unread, p.mode);
    MovedIs(s, p, go);
  }

  /** LIT (dep/zlib/inflate.c:1167-1172). */
  method LitSlow(s: State) returns (go: bool)
    requires s.Valid() && s.Keen() && s.mode.Lit?
    modifies s`mode, s`put, s.out
    ensures s.Valid() && s.Keen() && Moved(s, old(s.Now()), go)
  {
    hide *;
    s.ValidIs();
    KeenParts(s);
    NowIs(s);
    FullSize(s);
    ghost var p := s.Now();
    if s.put == s.out.Length {
      ReachesItself(s.codes, Bound(s), p);
      MovedIs(s, p, false);
      return false;
    }
    LitReaches(s.codes, Bound(s), p);
    s.out[s.put] := s.mode.value;
    s.put := s.put + 1;
    s.mode := Len;
    OneMore(s, p.hist, p.mode.value);
    NowIs(s);
    s.ValidIs();
    StillKeen(s);
    Order(p.mode, s.mode);
    NearerIs(s.input.Unread(), s.mode, p.unread, p.mode);
    go := true;
    MovedIs(s, p, go);
  }

  /** MATCH, up to the end of the room or of one piece of the window (dep/zlib/inflate.c:1122-1166). */
  method MatchSlow(s: State) returns (go: bool)
    requires s.Valid() && s.Keen() && s.mode.Match?
    modifies s`mode, s`put, s.out
    ensures s.Valid() && s.Keen() && Moved(s, old(s.Now()), go)
    ensures s.mode == Bad <==> old(s.put) < s.out.Length && old(s.mode).offset > old(s.put) + s.win.whave
  {
    hide *;
    s.ValidIs();
    KeenParts(s);
    ModeIs(s.mode);
    NowIs(s);
    FullSize(s);
    ghost var p := s.Now();
    if s.put == s.out.Length {
      ReachesItself(s.codes, Bound(s), p);
      MovedIs(s, p, false);
      return false;
    }
    go := true;
    Facts(s);
    BoundIs(s);
    NearIs(s.codes, s.out.Length, |s.hist|, s.put, s.win.whave, s.mode.offset);
    if s.mode.offset > s.put && s.mode.offset - s.put > s.win.whave {
      FarReaches(s.codes, Bound(s), p);
      s.mode := Bad;
      SameFull(s, p.hist);
    } else {
      CopyMatch(s);
    }
    ModeIs(s.mode);
    s.ValidIs();
    NowIs(s);
    StillKeen(s);
    Order(p.mode, s.mode);
    NearerIs(s.input.Unread(), s.mode, p.unread, p.mode);
    MovedIs(s, p, go);
  }

  /** The part of MATCH that copies (dep/zlib/inflate.c:1147-1166). */
  method CopyMatch(s: State)
    requires s.Valid() && s.mode.Match? && s.put < s.out.Length && s.mode.offset <= s.put + s.win.whave
    requires Near(s.codes, OfCall(Bound(s)), |s.hist| + s.put, s.mode.offset)
    modifies s`mode, s`put, s.out
    ensures s.Valid() && Reaches(s.codes, Bound(s), old(s.Now()), s.Now())
    ensures s.mode == Len || (s.mode.Match? && s.mode.length < old(s.mode).length)
  {
    hide *;
    s.ValidIs();
    ModeIs(s.mode);
    NowIs(s);
    FullSize(s);
    BoundIs(s);
    ghost var p := s.Now();
    var length, offset := s.mode.length, s.mode.offset;
    var left := s.out.Length - s.put;
    var copy := if length > left then left else length;
    if offset > s.put {
      copy := CopyPiece(s, offset - s.put, length, left, offset, p.hist);
    } else {
      s.CopyFromOutput(offset, copy, p.hist);
    }
    MatchReaches(s.codes, Bound(s), p, copy);
    ghost var q, full := Point(Match(length - copy, offset), p.unread, s.Full()), s.Full();
    FullSize(s);
    s.mode := if length - copy == 0 then Len else Match(length - copy, offset);
    SameFull(s, full);
    NowIs(s);
    if length == copy {
      MatchDone(s.codes, Bound(s), q, s.Now());
      ReachesOn(s.codes, Bound(s), p, q, s.Now());
    }
    ModeIs(s.mode);
    s.ValidIs();
  }

  /** Copying from the window, as far as the bytes lie one behind the other. */
  method CopyPiece(s: State, d: nat, length: nat, left: nat, offset: nat, ghost was: seq<byte>) returns (copy: nat)
    requires s.Valid() && s.mode != Bad && was == s.Full() && offset == s.put + d && 1 <= d <= s.win.whave && 1 <= length
    requires s.put < s.out.Length && left == s.out.Length - s.put
    modifies s`put, s.out
    ensures 1 <= copy <= length && s.put == old(s.put) + copy <= s.out.Length && offset <= |was| && s.Full() == Copied(was, offset, copy)
  {
    hide *;
    Facts(s);
    copy := d;
    var from;
    if copy > s.win.wnext {
      copy := copy - s.win.wnext;
      from := s.win.wsize - copy;
    } else {
      from := s.win.wnext - copy;
    }
    PlaceIs(s.win.wsize, s.win.wnext, d);
    if copy > length { copy := length; }
    if copy > left { copy := left; }
    s.Piece(d, copy, was, offset);
    s.CopyFromWindow(from, offset, copy, was);
  }

  /** LEN: inflate_fast when there is enough input and room (dep/zlib/inflate.c:1021-1028). */
  method LenStep(s: State) returns (go: bool)
    requires s.Valid() && s.Keen() && s.mode == Len
    modifies s`mode, s`put, s.out, s.input
    ensures s.Valid() && s.Keen() && s.input.input == old(s.input.input) && s.input.before == old(s.input.before)
    ensures Moved(s, old(s.Now()), go) && go == !CutOff(s.codes, old(s.Now()))
  {
    hide *;
    s.ValidIs();
    CutOffIs(s.codes, s.Now());
    NowIs(s);
    Counted(s.input);
    if |s.input.input| - s.input.next >= 6 && s.out.Length - s.put >= 258 {
      NowIs(s);
      ghost var p := s.Now();
      DecodeFast(s);
      s.ValidIs();
      StillKeen(s);
      go := true;
      NearerIs(s.input.Unread(), s.mode, p.unread, p.mode);
      MovedIs(s, p, go);
    } else {
      go := LenSlow(s);
    }
  }

  /** One turn of the switch. */
  method Step(s: State) returns (go: bool)
    requires s.Valid() && s.Keen() && s.mode != Type && s.mode != Bad
    modifies s`mode, s`put, s.out, s.input
    ensures s.Valid() && s.Keen() && s.input.input == old(s.input.input) && s.input.before == old(s.input.before)
    ensures Moved(s, old(s.Now()), go) && (CutOff(s.codes, old(s.Now())) ==> !go)
  {
    hide *;
    s.ValidIs();
    NowIs(s);
    CutOffIs(s.codes, s.Now());
    match s.mode
    case Len => go := LenStep(s);
    case LenExt(_, _) => go := LenExtSlow(s);
    case Dist(_) => go := DistSlow(s);
    case DistExt(_, _, _) => go := DistExtSlow(s);
    case Match(_, _) => go := MatchSlow(s);
    case Lit(_) => go := LitSlow(s);
    case _ =>
  }

  /** Why a call leaves: the block has ended or is invalid, or there is nothing more to do with this input and this room. */
  ghost predicate Left(cs: Codes, p: Point, full: bool, used: bool) {
    p.mode == Type || p.mode == Bad || (full && (p.mode.Match? || p.mode.Lit?)) || (used && Starving(cs, p))
  }

  lemma LeftIs(cs: Codes, p: Point, full: bool, used: bool)
    ensures Left(cs, p, full, used) <==>
            p.mode == Type || p.mode == Bad || (full && (p.mode.Match? || p.mode.Lit?)) || (used && Starving(cs, p))
  {
    hide Starving;
  }

  /** The loop over the switch. */
  method Decode(s: State)
    requires s.Valid() && s.Keen()
    modifies s`mode, s`put, s.out, s.input
    ensures s.Valid() && s.Keen() && s.input.input == old(s.input.input) && s.input.before == old(s.input.before)
    ensures Reaches(s.codes, Bound(s), old(s.Now()), s.Now())
    ensures Left(s.codes, s.Now(), s.put == s.out.Length, s.input.next == |s.input.input|)
    ensures CutOff(s.codes, old(s.Now())) ==> s.Now() == old(s.Now()) && s.input.next == |s.input.input|
  {
    hide *;
    s.ValidIs();
    ghost var p := s.Now();
    CutOffIs(s.codes, p);
    NowIs(s);
    ReachesItself(s.codes, Bound(s), p);
    var go := true;
    while go && s.mode != Type && s.mode != Bad
      invariant s.put <= s.out.Length && s.input.Valid()
      invariant s.Valid() && s.Keen() && s.input.input == old(s.input.input) && s.input.before == old(s.input.before)
      invariant Reaches(s.codes, Bound(s), p, s.Now())
      invariant !go ==> Left(s.codes, s.Now(), s.put == s.out.Length, s.input.next == |s.input.input|)
      invariant CutOff(s.codes, p) ==> s.Now() == p && (!go ==> s.input.next == |s.input.input|)
      decreases go, |s.input.Unread()|, Phase(s.mode), ToCopy(s.mode)
    {
      ghost var q := s.Now();
      NowIs(s);
      go := Step(s);
      s.ValidIs();
      NowIs(s);
      MovedIs(s, q, go);
      NearerIs(s.input.Unread(), s.mode, q.unread, q.mode);
      ReachesOn(s.codes, Bound(s), p, q, s.Now());
      LeftIs(s.codes, s.Now(), s.put == s.out.Length, s.input.next == |s.input.input|);
    }
    NowIs(s);
    LeftIs(s.codes, s.Now(), s.put == s.out.Length, s.input.next == |s.input.input|);
  }

  datatype Reply = Ok | BufError | DataError

  /**
   A call of inflate with Z_BLOCK, from within a block: the bytes of piece are provided, and room for them. The window is updated on leaving,
   unless it is not in use and is not going to be.
   */
  method Inflate(s: State, piece: seq<byte>, room: array<byte>) returns (n: nat, reply: Reply)
    requires s.Valid() && s.Keen() && room != s.win.window && s.put == 0
    modifies s`mode, s`put, s`out, s`hist, room, s.input, s.win, s.win.window
    ensures s.Valid() && s.Keen() && s.put == 0
    ensures s.input.input == piece && s.input.before == old(s.input.before + s.input.input[..s.input.next])
    ensures n <= room.Length && s.hist == old(s.hist) + room[..n]
    ensures Reaches(s.codes, Limits(room.Length <= 1, |old(s.hist)|), Point(old(s.mode), old(s.input.Held()) + ByteBits(piece), old(s.hist)),
                    Point(s.mode, s.input.Unread(), s.hist))
    ensures Left(s.codes, Point(s.mode, s.input.Unread(), s.hist), n == room.Length, s.input.next == |piece|)
    ensures reply == if s.mode == Bad then DataError else if s.input.next == 0 && n == 0 then BufError else Ok
    ensures CutOff(s.codes, Point(old(s.mode), old(s.input.Held()) + ByteBits(piece), old(s.hist))) ==>
              s.input.next == |piece| && Point(s.mode, s.input.Unread(), s.hist) == Point(old(s.mode), old(s.input.Held()) + ByteBits(piece), old(s.hist))
  {
    hide *;
    s.ValidIs();
    KeenMeans(s);
    ghost var held, p := s.input.Held(), Point(s.mode, s.input.Held() + ByteBits(piece), s.hist);
    s.input.HeldValue();
    s.out := room;
    s.input.Provide(piece);
    HeldKept(s.input, held, piece);
    s.ValidIs();
    KeenMeans(s);
    NothingPut(s);
    NowIs(s);
    BoundIs(s);
    Decode(s);
    s.ValidIs();
    NowIs(s);
    FullSize(s);
    KeenMeans(s);
    n := s.put;
    ghost var h := s.hist + s.out[..n];
    if s.win.wsize > 0 || (n > 0 && s.mode != Bad) {
      s.win.Update(s.out, n, s.hist);
    } else if n == 0 {
      assert h == s.hist;
    }
    s.hist := h;
    s.put := 0;
    s.ValidIs();
    KeenMeans(s);
    reply := if s.mode == Bad then DataError else if s.input.next == 0 && n == 0 then BufError else Ok;
  }

  lemma KeenMeans(s: State)
    requires s.input.Valid()
    ensures s.Keen() <==> IsKeen(s.codes, s.mode, s.input.bits, s.input.Held())
  {
  }

  lemma HeldKept(i: BitIn, held: seq<bool>, piece: seq<byte>)
    requires i.Valid() && i.Unread() == held + ByteBits(piece) && |held| == i.bits
    ensures i.Held() == held
  {
  }

  lemma NothingPut(s: State)
    requires s.put == 0
    ensures s.Full() == s.hist
  {
  }
}
