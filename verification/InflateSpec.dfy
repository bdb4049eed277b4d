/**
 What the codes of a deflate block mean (sections 3.2.3 and 3.2.5 of RFC 1951): literals, and matches that copy from the history
 byte by byte. Reading is described from every point at which inflate (dep/zlib/inflate.c) can stop for want of input or room.
 */
module InflateSpec {
  import opened Bits
  import opened LowBits
  import opened Lz77
  import opened InflateEntries
  import opened InflateTable

  type Root = n: nat | n <= 15

  /** A decoding table with its number of root bits. */
  datatype Code = Code(t: seq<Entry>, root: Root)

  /** The two codes of a block, and the size of the window. */
  datatype Codes = Codes(lens: Code, dists: Code, window: nat)

  datatype Next = Found(e: Entry, rest: seq<bool>) | Short

  /** The next 15 bits; behind the end there are zeros. */
  function Pad(s: seq<bool>): (x: seq<bool>)
    ensures |x| == 15
  {
    (s + Zeros(15))[..15]
  }

  /** What is looked up, without the length of the part of the code that belongs to the last table, and the length of the code. */
  function LookAt(c: Code, x: seq<bool>): (Entry, nat)
    requires |x| == 15
  {
    var (e, n) := LookUpIn(c.t, c.root, x);
    (e.(bits := 0), n)
  }

  /** The next symbol of a code, by the table. */
  function NextEntry(c: Code, s: seq<bool>): (next: Next)
    ensures next.Found? ==> |next.rest| < |s|
  {
    var (e, n) := LookAt(c, Pad(s));
    if 1 <= n <= |s| then Found(e, s[n..]) else Short
  }

  /** A literal, the base and the extra bits of a length or a distance, the end of the block, or an invalid code. */
  predicate IsAction(kind: Kind, e: Entry) {
    && e.bits == 0
    && match kind
       case CODES => false
       case LENS =>
         || (e.op == 0 && e.val < 256) || (16 <= e.op <= 21 && 3 <= e.val && e.val + Pow2(e.op - 16) <= 259) || e.op == 96 || e.op == 64
         || e.op == 68 || e.op == 78
       case DISTS => (16 <= e.op <= 29 && 1 <= e.val && e.val + Pow2(e.op - 16) <= 32769) || e.op == 64
  }

  /** What is looked up for x is an action, found through at most one link, and is decided by the bits that it takes. */
  ghost predicate Sound(c: Code, kind: Kind, x: seq<bool>)
    requires |x| == 15
  {
    && Through(c.t, c.root, x)
    && var (e, n) := LookAt(c, x);
       && 1 <= n <= 15 && IsAction(kind, e)
       && forall y: seq<bool> :: |y| == 15 && y[..n] == x[..n] ==> LookAt(c, y) == (e, n)
  }

  ghost predicate CodeOk(c: Code, kind: Kind) {
    c.root >= 1 && forall x: seq<bool> :: |x| == 15 ==> Sound(c, kind, x)
  }

  ghost predicate CodesOk(cs: Codes) {
    CodeOk(cs.lens, LENS) && CodeOk(cs.dists, DISTS)
  }

  // Running.

  /** Where decoding stands, with the fields of the state that matter there: the modes LEN to MATCH, LIT, TYPE and BAD. */
  datatype Mode =
    | Len
    | LenExt(length: nat, extra: nat)
    | Dist(length: nat)
    | DistExt(length: nat, offset: nat, extra: nat)
    | Match(length: nat, offset: nat)
    | Lit(value: byte)
    | Type
    | Bad

  /** What the fields hold in each mode. */
  predicate ModeOk(m: Mode) {
    match m
    case LenExt(length, extra) => 3 <= length && extra <= 5 && length + Pow2(extra) <= 259
    case Dist(length) => 3 <= length <= 258
    case DistExt(length, offset, extra) => 3 <= length <= 258 && 1 <= offset && extra <= 13 && offset + Pow2(extra) <= 32769
    case Match(length, offset) => 1 <= length <= 258 && 1 <= offset <= 32768
    case _ => true
  }

  /**
   How it ends: with the end-of-block code, with an invalid code or a distance that goes back before the beginning, with a distance that
   goes back further than is kept of the history, or because the bits run out.
   */
  datatype Ending = EndOfBlock(rest: seq<bool>) | Invalid(rest: seq<bool>) | Beyond(rest: seq<bool>) | Starved

  /**
   How far back a distance can go. A call can refer to its own output and to the window of bytes before it: From(n) is a call that begins
   behind n bytes, Each a call for every byte.
   */
  datatype Reach = From(start: nat) | Each

  /** The first place of the history that can be referred to, when n bytes have been put out. */
  function Lowest(cs: Codes, reach: Reach, n: nat): nat {
    var start := if reach.From? then reach.start else n;
    if start > cs.window then start - cs.window else 0
  }

  /** The bytes that are put out, and the end. */
  datatype Result = Result(out: seq<byte>, ending: Ending)

  function Behind(out: seq<byte>, r: Result): Result {
    Result(out + r.out, r.ending)
  }

  function LenMode(e: Entry): Mode {
    if e.op == 0 then (if e.val < 256 then Lit(e.val) else Bad)
    else if e.op / 32 % 2 == 1 then Type
    else if e.op / 64 % 2 == 1 then Bad
    else LenExt(e.val, e.op % 16)
  }

  function DistMode(length: nat, e: Entry): Mode {
    if e.op / 64 % 2 == 1 then Bad else DistExt(length, e.val, e.op % 16)
  }

  /** The order of the modes between two bits. */
  function Phase(m: Mode): nat {
    match m
    case DistExt(_, _, _) => 2
    case LenExt(_, _) => 1
    case Match(_, _) => 1
    case Lit(_) => 1
    case _ => 0
  }

  function ToCopy(m: Mode): nat {
    if m.Match? then m.length else 0
  }

  /** Decoding from mode m on, with the bits s still to come and the history h behind. */
  function Run(cs: Codes, reach: Reach, m: Mode, s: seq<bool>, h: seq<byte>): Result
    decreases |s|, Phase(m), ToCopy(m)
  {
    match m
    case Len =>
      (match NextEntry(cs.lens, s)
       case Short => Result([], Starved)
       case Found(e, rest) => Run(cs, reach, LenMode(e), rest, h))
    case LenExt(length, extra) =>
      if |s| < extra then Result([], Starved) else Run(cs, reach, Dist(length + LowValue(s[..extra])), s[extra..], h)
    case Dist(length) =>
      (match NextEntry(cs.dists, s)
       case Short => Result([], Starved)
       case Found(e, rest) => Run(cs, reach, DistMode(length, e), rest, h))
    case DistExt(length, offset, extra) =>
      if |s| < extra then Result([], Starved) else Run(cs, reach, Match(length, offset + LowValue(s[..extra])), s[extra..], h)
    case Match(length, offset) =>
      if length == 0 then Run(cs, reach, Len, s, h)
      else if offset == 0 || offset > |h| then Result([], Invalid(s))
      else if |h| - offset < Lowest(cs, reach, |h|) then Result([], Beyond(s))
      else Behind([h[|h| - offset]], Run(cs, reach, Match(length - 1, offset), s, h + [h[|h| - offset]]))
    case Lit(v) => Behind([v], Run(cs, reach, Len, s, h + [v]))
    case Type => Result([], EndOfBlock(s))
    case Bad => Result([], Invalid(s))
  }

  /** Where there is nothing more to do. */
  lemma RunStep(cs: Codes, reach: Reach, m: Mode, s: seq<bool>, h: seq<byte>)
    ensures m == Type ==> Run(cs, reach, m, s, h) == Result([], EndOfBlock(s))
    ensures m == Bad ==> Run(cs, reach, m, s, h) == Result([], Invalid(s))
  {
  }

  lemma BehindBehind(a: seq<byte>, b: seq<byte>, r: Result)
    ensures Behind(a, Behind(b, r)) == Behind(a + b, r) && Behind([], r) == r
  {
    assert a + (b + r.out) == a + b + r.out && [] + r.out == r.out;
  }

  /** Distances reach back 32768 bytes at most, so that a window of this size always keeps enough, for every division into calls. */
  lemma {:induction false} NeverBeyond(cs: Codes, reach: Reach, m: Mode, s: seq<bool>, h: seq<byte>)
    requires CodesOk(cs) && cs.window >= 32768 && (ModeOk(m) || (m.Match? && m.length == 0))
    requires reach.From? ==> reach.start <= |h|
    ensures !Run(cs, reach, m, s, h).ending.Beyond?
    decreases |s|, Phase(m), ToCopy(m)
  {
    hide CodesOk, NextEntry, LenMode, DistMode, IsAction, LowValue, Pow2;
    CodesOkIs(cs);
    match m
    case Len =>
      var next := NextEntry(cs.lens, s);
      if next.Found? {
        EntryStays(cs.lens, LENS, s, []);
        LenModeOk(next.e);
        NeverBeyond(cs, reach, LenMode(next.e), next.rest, h);
      }
    case LenExt(length, extra) =>
      if |s| >= extra { NeverBeyond(cs, reach, Dist(length + LowValue(s[..extra])), s[extra..], h); }
    case Dist(length) =>
      var next := NextEntry(cs.dists, s);
      if next.Found? {
        EntryStays(cs.dists, DISTS, s, []);
        DistModeOk(length, next.e);
        NeverBeyond(cs, reach, DistMode(length, next.e), next.rest, h);
      }
    case DistExt(length, offset, extra) =>
      if |s| >= extra { NeverBeyond(cs, reach, Match(length, offset + LowValue(s[..extra])), s[extra..], h); }
    case Match(length, offset) =>
      if length == 0 { NeverBeyond(cs, reach, Len, s, h); }
      else if offset <= |h| { NeverBeyond(cs, reach, Match(length - 1, offset), s, h + [h[|h| - offset]]); }
    case Lit(v) => NeverBeyond(cs, reach, Len, s, h + [v]);
    case Type =>
    case Bad =>
  }

  /** In one call nothing is lost that the window held before it. */
  lemma {:induction false} NothingLost(cs: Codes, start: nat, m: Mode, s: seq<bool>, h: seq<byte>)
    requires start <= cs.window
    ensures !Run(cs, From(start), m, s, h).ending.Beyond?
    decreases |s|, Phase(m), ToCopy(m)
  {
    hide NextEntry, LenMode, DistMode, LowValue;
    match m
    case Len =>
      var next := NextEntry(cs.lens, s);
      NextShrinks(cs.lens, s);
      if next.Found? { NothingLost(cs, start, LenMode(next.e), next.rest, h); }
    case LenExt(length, extra) =>
      if |s| >= extra { NothingLost(cs, start, Dist(length + LowValue(s[..extra])), s[extra..], h); }
    case Dist(length) =>
      var next := NextEntry(cs.dists, s);
      NextShrinks(cs.dists, s);
      if next.Found? { NothingLost(cs, start, DistMode(length, next.e), next.rest, h); }
    case DistExt(length, offset, extra) =>
      if |s| >= extra { NothingLost(cs, start, Match(length, offset + LowValue(s[..extra])), s[extra..], h); }
    case Match(length, offset) =>
      if length == 0 { NothingLost(cs, start, Len, s, h); }
      else if 1 <= offset <= |h| { NothingLost(cs, start, Match(length - 1, offset), s, h + [h[|h| - offset]]); }
    case Lit(v) => NothingLost(cs, start, Len, s, h + [v]);
    case Type =>
    case Bad =>
  }

  lemma NextShrinks(c: Code, s: seq<bool>)
    ensures NextEntry(c, s).Found? ==> |NextEntry(c, s).rest| < |s|
  {
  }

  /** r does what q does, or a distance stops it before. */
  ghost predicate Stops(q: Result, r: Result) {
    r == q || (r.ending.Beyond? && r.out < q.out)
  }

  lemma StopsBehind(a: seq<byte>, q: Result, r: Result)
    requires Stops(q, r)
    ensures Stops(Behind(a, q), Behind(a, r))
  {
  }

  lemma StopsIs(q: Result, r: Result)
    ensures r == q ==> Stops(q, r)
    ensures r.ending.Beyond? && r.out == [] && q.out != [] ==> Stops(q, r)
  {
  }

  /** Where a call begins earlier, more is kept. */
  lemma LowestLess(cs: Codes, q: Reach, r: Reach, n: nat)
    requires q.From? && q.start <= n && (r.From? ==> q.start <= r.start)
    ensures Lowest(cs, q, n) <= Lowest(cs, r, n)
  {
  }

  /** Where less of the history is kept, decoding is the same, or a distance stops it before. */
  lemma {:induction false} LessStops(cs: Codes, q: Reach, r: Reach, m: Mode, s: seq<bool>, h: seq<byte>)
    requires q.From? && q.start <= |h| && (r.From? ==> q.start <= r.start)
    ensures Stops(Run(cs, q, m, s, h), Run(cs, r, m, s, h))
    decreases |s|, Phase(m), ToCopy(m)
  {
    hide NextEntry, LenMode, DistMode, LowValue, Stops, Lowest;
    StopsIs(Run(cs, q, m, s, h), Run(cs, r, m, s, h));
    match m
    case Len =>
      var next := NextEntry(cs.lens, s);
      NextShrinks(cs.lens, s);
      if next.Found? { LessStops(cs, q, r, LenMode(next.e), next.rest, h); }
    case LenExt(length, extra) =>
      if |s| >= extra { LessStops(cs, q, r, Dist(length + LowValue(s[..extra])), s[extra..], h); }
    case Dist(length) =>
      var next := NextEntry(cs.dists, s);
      NextShrinks(cs.dists, s);
      if next.Found? { LessStops(cs, q, r, DistMode(length, next.e), next.rest, h); }
    case DistExt(length, offset, extra) =>
      if |s| >= extra { LessStops(cs, q, r, Match(length, offset + LowValue(s[..extra])), s[extra..], h); }
    case Match(length, offset) =>
      LowestLess(cs, q, r, |h|);
      if length == 0 { LessStops(cs, q, r, Len, s, h); }
      else if 1 <= offset <= |h| {
        var b := h[|h| - offset];
        LessStops(cs, q, r, Match(length - 1, offset), s, h + [b]);
        StopsBehind([b], Run(cs, q, Match(length - 1, offset), s, h + [b]), Run(cs, r, Match(length - 1, offset), s, h + [b]));
      }
    case Lit(v) =>
      LessStops(cs, q, r, Len, s, h + [v]);
      StopsBehind([v], Run(cs, q, Len, s, h + [v]), Run(cs, r, Len, s, h + [v]));
    case Type =>
    case Bad =>
  }

  lemma LenModeOk(e: Entry)
    requires IsAction(LENS, e)
    ensures ModeOk(LenMode(e)) && !LenMode(e).Match?
    ensures e.op == 0 ==> LenMode(e) == Lit(e.val)
    ensures 16 <= e.op <= 21 ==> LenMode(e) == LenExt(e.val, e.op - 16)
    ensures e.op == 0 || 16 <= e.op <= 21 || e.op in {64, 68, 78, 96}
  {
    hide Pow2;
    if 16 <= e.op <= 21 {
      assert e.op / 32 == 0 && e.op / 64 == 0 && e.op % 16 == e.op - 16;
    }
  }

  lemma DistModeOk(length: nat, e: Entry)
    requires IsAction(DISTS, e) && 3 <= length <= 258
    ensures ModeOk(DistMode(length, e))
    ensures 16 <= e.op <= 29 ==> DistMode(length, e) == DistExt(length, e.val, e.op - 16)
    ensures 16 <= e.op <= 29 || (e.op == 64 && DistMode(length, e) == Bad)
  {
    hide Pow2;
    if e.op <= 29 {
      assert e.op / 64 == 0 && e.op % 16 == e.op - 16;
    }
  }

  // From one point to another.

  /** Where decoding stands, with the bits that are not used yet and all the bytes put out so far. */
  datatype Point = Point(mode: Mode, unread: seq<bool>, hist: seq<byte>)

  /** All the bytes, and the end, when more bits follow. */
  function Whole(cs: Codes, reach: Reach, p: Point, more: seq<bool>): Result {
    Behind(p.hist, Run(cs, reach, p.mode, p.unread + more, p.hist))
  }

  /** Going on from q gives what going on from p gives. */
  ghost predicate Same(cs: Codes, reach: Reach, p: Point, q: Point) {
    forall more :: Whole(cs, reach, q, more) == Whole(cs, reach, p, more)
  }

  /** The same, unless a distance that is not kept would have stopped it before q. */
  ghost predicate PastStop(cs: Codes, reach: Reach, p: Point, q: Point) {
    forall more ::
      || Whole(cs, reach, q, more) == Whole(cs, reach, p, more)
      || (Whole(cs, reach, p, more).ending.Beyond? && Whole(cs, reach, p, more).out <= q.hist)
  }

  /** The same, unless q is an error that comes before the end. */
  ghost predicate BeforeEnd(cs: Codes, reach: Reach, p: Point, q: Point) {
    forall more ::
      || Whole(cs, reach, q, more) == Whole(cs, reach, p, more)
      || (q.mode == Bad && q.hist <= Whole(cs, reach, p, more).out)
  }

  /** The calls that begin behind start bytes, and that have room for one byte only or for more. */
  datatype Limits = Limits(one: bool, start: nat)

  /** What a call keeps of the history. With room for one byte, every byte is a call of its own. */
  function OfCall(l: Limits): Reach {
    if l.one then Each else From(l.start)
  }

  /** The output goes on, and an error is the end. */
  predicate Onward(p: Point, q: Point) {
    p.hist <= q.hist && (p.mode == Bad ==> q.mode == Bad && q.hist == p.hist)
  }

  /**
   A call goes from p to q as is specified for what it keeps of the history: whatever bits follow, going on from q gives what going on
   from p gives, or p leads to a distance that is not kept and q is the error. Beside what would be kept for other divisions, q may
   have gone too far for calls that begin later, and may have stopped too early for calls that begin before.
   */
  ghost predicate Reaches(cs: Codes, l: Limits, p: Point, q: Point) {
    && Onward(p, q)
    && PastStop(cs, Each, p, q) && PastStop(cs, OfCall(l), p, q) && BeforeEnd(cs, OfCall(l), p, q)
    && forall n: nat :: n <= l.start ==> BeforeEnd(cs, From(n), p, q)
  }

  lemma ReachesIs(cs: Codes, l: Limits, p: Point, q: Point)
    ensures Reaches(cs, l, p, q) <==>
            && Onward(p, q)
            && PastStop(cs, Each, p, q) && PastStop(cs, OfCall(l), p, q) && BeforeEnd(cs, OfCall(l), p, q)
            && forall n: nat :: n <= l.start ==> BeforeEnd(cs, From(n), p, q)
  {
    hide Onward, PastStop, BeforeEnd, OfCall;
  }

  lemma PastOn(cs: Codes, reach: Reach, p: Point, q: Point, r: Point)
    requires PastStop(cs, reach, p, q) && PastStop(cs, reach, q, r) && Onward(q, r)
    ensures PastStop(cs, reach, p, r)
  {
    hide Whole;
    forall more
      ensures || Whole(cs, reach, r, more) == Whole(cs, reach, p, more)
              || (Whole(cs, reach, p, more).ending.Beyond? && Whole(cs, reach, p, more).out <= r.hist)
    {
      assert Whole(cs, reach, q, more) == Whole(cs, reach, p, more)
             || (Whole(cs, reach, p, more).ending.Beyond? && Whole(cs, reach, p, more).out <= q.hist);
    }
  }

  lemma BeforeOn(cs: Codes, reach: Reach, p: Point, q: Point, r: Point)
    requires BeforeEnd(cs, reach, p, q) && BeforeEnd(cs, reach, q, r) && Onward(q, r)
    ensures BeforeEnd(cs, reach, p, r)
  {
    hide Whole;
    forall more
      ensures || Whole(cs, reach, r, more) == Whole(cs, reach, p, more)
              || (r.mode == Bad && r.hist <= Whole(cs, reach, p, more).out)
    {
      assert Whole(cs, reach, q, more) == Whole(cs, reach, p, more) || (q.mode == Bad && q.hist <= Whole(cs, reach, p, more).out);
    }
  }

  lemma OnwardOn(p: Point, q: Point, r: Point)
    requires Onward(p, q) && Onward(q, r)
    ensures Onward(p, r)
  {
  }

  lemma ReachesOn(cs: Codes, l: Limits, p: Point, q: Point, r: Point)
    requires Reaches(cs, l, p, q) && Reaches(cs, l, q, r)
    ensures Reaches(cs, l, p, r)
  {
    hide *;
    ReachesIs(cs, l, p, q);
    ReachesIs(cs, l, q, r);
    OnwardOn(p, q, r);
    PastOn(cs, Each, p, q, r);
    PastOn(cs, OfCall(l), p, q, r);
    BeforeOn(cs, OfCall(l), p, q, r);
    forall n: nat | n <= l.start
      ensures BeforeEnd(cs, From(n), p, r)
    {
      BeforeOn(cs, From(n), p, q, r);
    }
    ReachesIs(cs, l, p, r);
  }

  lemma SameBoth(cs: Codes, reach: Reach, p: Point, q: Point)
    requires Same(cs, reach, p, q)
    ensures PastStop(cs, reach, p, q) && BeforeEnd(cs, reach, p, q)
  {
    hide Whole;
  }

  /** What does not depend on what is kept. */
  lemma SameReaches(cs: Codes, l: Limits, p: Point, q: Point)
    requires Onward(p, q) && forall reach :: Same(cs, reach, p, q)
    ensures Reaches(cs, l, p, q)
  {
    hide *;
    SameBoth(cs, Each, p, q);
    SameBoth(cs, OfCall(l), p, q);
    forall n: nat | n <= l.start
      ensures BeforeEnd(cs, From(n), p, q)
    {
      SameBoth(cs, From(n), p, q);
    }
    ReachesIs(cs, l, p, q);
  }

  lemma ReachesItself(cs: Codes, l: Limits, p: Point)
    ensures Reaches(cs, l, p, p)
  {
    hide Whole;
    forall reach
      ensures Same(cs, reach, p, p)
    {
    }
    SameReaches(cs, l, p, p);
  }

  /** The next symbol of the literal/length code. */
  lemma LenSame(cs: Codes, reach: Reach, p: Point, e: Entry, rest: seq<bool>)
    requires CodesOk(cs) && p.mode == Len && NextEntry(cs.lens, p.unread) == Found(e, rest)
    ensures Same(cs, reach, p, Point(LenMode(e), rest, p.hist)) && IsAction(LENS, e)
  {
    CodesOkIs(cs);
    hide CodesOk, NextEntry, LenMode, IsAction;
    EntryStays(cs.lens, LENS, p.unread, []);
    forall more
      ensures Whole(cs, reach, Point(LenMode(e), rest, p.hist), more) == Whole(cs, reach, p, more)
    {
      EntryStays(cs.lens, LENS, p.unread, more);
    }
  }

  lemma LenReaches(cs: Codes, l: Limits, p: Point, e: Entry, rest: seq<bool>)
    requires CodesOk(cs) && p.mode == Len && NextEntry(cs.lens, p.unread) == Found(e, rest)
    ensures Reaches(cs, l, p, Point(LenMode(e), rest, p.hist)) && IsAction(LENS, e)
  {
    hide *;
    var q := Point(LenMode(e), rest, p.hist);
    LenSame(cs, Each, p, e, rest);
    forall reach
      ensures Same(cs, reach, p, q)
    {
      LenSame(cs, reach, p, e, rest);
    }
    OnwardFrom(p, q);
    SameReaches(cs, l, p, q);
  }

  lemma LenExtSame(cs: Codes, reach: Reach, p: Point)
    requires p.mode.LenExt? && p.mode.extra <= |p.unread|
    ensures Same(cs, reach, p, Point(Dist(p.mode.length + LowValue(p.unread[..p.mode.extra])), p.unread[p.mode.extra..], p.hist))
    ensures ModeOk(p.mode) ==> ModeOk(Dist(p.mode.length + LowValue(p.unread[..p.mode.extra])))
  {
    hide LowValue;
    var q := Point(Dist(p.mode.length + LowValue(p.unread[..p.mode.extra])), p.unread[p.mode.extra..], p.hist);
    forall more
      ensures Whole(cs, reach, q, more) == Whole(cs, reach, p, more)
    {
      BitsStay(p.unread, more, p.mode.extra);
    }
  }

  lemma LenExtReaches(cs: Codes, l: Limits, p: Point)
    requires p.mode.LenExt? && p.mode.extra <= |p.unread|
    ensures Reaches(cs, l, p, Point(Dist(p.mode.length + LowValue(p.unread[..p.mode.extra])), p.unread[p.mode.extra..], p.hist))
    ensures ModeOk(p.mode) ==> ModeOk(Dist(p.mode.length + LowValue(p.unread[..p.mode.extra])))
  {
    hide *;
    var q := Point(Dist(p.mode.length + LowValue(p.unread[..p.mode.extra])), p.unread[p.mode.extra..], p.hist);
    LenExtSame(cs, Each, p);
    forall reach
      ensures Same(cs, reach, p, q)
    {
      LenExtSame(cs, reach, p);
    }
    OnwardFrom(p, q);
    SameReaches(cs, l, p, q);
  }

  lemma DistSame(cs: Codes, reach: Reach, p: Point, e: Entry, rest: seq<bool>)
    requires CodesOk(cs) && p.mode.Dist? && NextEntry(cs.dists, p.unread) == Found(e, rest)
    ensures Same(cs, reach, p, Point(DistMode(p.mode.length, e), rest, p.hist)) && IsAction(DISTS, e)
  {
    CodesOkIs(cs);
    hide CodesOk, NextEntry, DistMode, IsAction;
    EntryStays(cs.dists, DISTS, p.unread, []);
    forall more
      ensures Whole(cs, reach, Point(DistMode(p.mode.length, e), rest, p.hist), more) == Whole(cs, reach, p, more)
    {
      EntryStays(cs.dists, DISTS, p.unread, more);
    }
  }

  lemma DistReaches(cs: Codes, l: Limits, p: Point, e: Entry, rest: seq<bool>)
    requires CodesOk(cs) && p.mode.Dist? && NextEntry(cs.dists, p.unread) == Found(e, rest)
    ensures Reaches(cs, l, p, Point(DistMode(p.mode.length, e), rest, p.hist)) && IsAction(DISTS, e)
  {
    hide *;
    var q := Point(DistMode(p.mode.length, e), rest, p.hist);
    DistSame(cs, Each, p, e, rest);
    forall reach
      ensures Same(cs, reach, p, q)
    {
      DistSame(cs, reach, p, e, rest);
    }
    OnwardFrom(p, q);
    SameReaches(cs, l, p, q);
  }

  lemma DistExtSame(cs: Codes, reach: Reach, p: Point)
    requires p.mode.DistExt? && p.mode.extra <= |p.unread|
    ensures Same(cs, reach, p, Point(Match(p.mode.length, p.mode.offset + LowValue(p.unread[..p.mode.extra])), p.unread[p.mode.extra..], p.hist))
    ensures ModeOk(p.mode) ==> ModeOk(Match(p.mode.length, p.mode.offset + LowValue(p.unread[..p.mode.extra])))
  {
    hide LowValue;
    var q := Point(Match(p.mode.length, p.mode.offset + LowValue(p.unread[..p.mode.extra])), p.unread[p.mode.extra..], p.hist);
    forall more
      ensures Whole(cs, reach, q, more) == Whole(cs, reach, p, more)
    {
      BitsStay(p.unread, more, p.mode.extra);
    }
  }

  lemma DistExtReaches(cs: Codes, l: Limits, p: Point)
    requires p.mode.DistExt? && p.mode.extra <= |p.unread|
    ensures Reaches(cs, l, p, Point(Match(p.mode.length, p.mode.offset + LowValue(p.unread[..p.mode.extra])), p.unread[p.mode.extra..], p.hist))
    ensures ModeOk(p.mode) ==> ModeOk(Match(p.mode.length, p.mode.offset + LowValue(p.unread[..p.mode.extra])))
  {
    hide *;
    var q := Point(Match(p.mode.length, p.mode.offset + LowValue(p.unread[..p.mode.extra])), p.unread[p.mode.extra..], p.hist);
    DistExtSame(cs, Each, p);
    forall reach
      ensures Same(cs, reach, p, q)
    {
      DistExtSame(cs, reach, p);
    }
    OnwardFrom(p, q);
    SameReaches(cs, l, p, q);
  }

  lemma BitsStay(s: seq<bool>, more: seq<bool>, n: nat)
    requires n <= |s|
    ensures (s + more)[..n] == s[..n] && (s + more)[n..] == s[n..] + more
  {
  }

  lemma LitSame(cs: Codes, reach: Reach, p: Point)
    requires p.mode.Lit?
    ensures Same(cs, reach, p, Point(Len, p.unread, p.hist + [p.mode.value]))
  {
    var q := Point(Len, p.unread, p.hist + [p.mode.value]);
    forall more
      ensures Whole(cs, reach, q, more) == Whole(cs, reach, p, more)
    {
      BehindBehind(p.hist, [p.mode.value], Run(cs, reach, Len, p.unread + more, p.hist + [p.mode.value]));
    }
  }

  lemma LitReaches(cs: Codes, l: Limits, p: Point)
    requires p.mode.Lit?
    ensures Reaches(cs, l, p, Point(Len, p.unread, p.hist + [p.mode.value]))
  {
    hide *;
    var q := Point(Len, p.unread, p.hist + [p.mode.value]);
    forall reach
      ensures Same(cs, reach, p, q)
    {
      LitSame(cs, reach, p);
    }
    OnwardFrom(p, q);
    SameReaches(cs, l, p, q);
  }

  lemma OnwardFrom(p: Point, q: Point)
    requires p.hist <= q.hist && p.mode != Bad
    ensures Onward(p, q)
  {
  }

  /** A distance that is kept. */
  predicate Near(cs: Codes, reach: Reach, n: nat, offset: nat) {
    1 <= offset <= n && n - offset >= Lowest(cs, reach, n)
  }

  /** What is kept stays kept while a match is copied. */
  lemma NearOn(cs: Codes, reach: Reach, n: nat, offset: nat, k: nat)
    requires Near(cs, reach, n, offset)
    ensures Near(cs, reach, n + k, offset)
  {
  }

  lemma SameOn(cs: Codes, reach: Reach, p: Point, q: Point, r: Point)
    requires Same(cs, reach, p, q) && Same(cs, reach, q, r)
    ensures Same(cs, reach, p, r)
  {
    hide Whole;
    forall more
      ensures Whole(cs, reach, r, more) == Whole(cs, reach, p, more)
    {
      assert Whole(cs, reach, q, more) == Whole(cs, reach, p, more);
    }
  }

  lemma {:induction false} MatchSame(cs: Codes, reach: Reach, p: Point, n: nat)
    requires p.mode.Match? && n <= p.mode.length && Near(cs, reach, |p.hist|, p.mode.offset)
    ensures Same(cs, reach, p, Point(Match(p.mode.length - n, p.mode.offset), p.unread, Copied(p.hist, p.mode.offset, n)))
  {
    if n > 0 {
      var h := Copied(p.hist, p.mode.offset, n - 1);
      var q := Point(Match(p.mode.length - (n - 1), p.mode.offset), p.unread, h);
      MatchSame(cs, reach, p, n - 1);
      NearOn(cs, reach, |p.hist|, p.mode.offset, n - 1);
      OneSame(cs, reach, q);
      SameOn(cs, reach, p, q, Point(Match(p.mode.length - n, p.mode.offset), p.unread, h + [h[|h| - p.mode.offset]]));
    }
  }

  lemma OneSame(cs: Codes, reach: Reach, p: Point)
    requires p.mode.Match? && p.mode.length > 0 && Near(cs, reach, |p.hist|, p.mode.offset)
    ensures Same(cs, reach, p, Point(Match(p.mode.length - 1, p.mode.offset), p.unread, p.hist + [p.hist[|p.hist| - p.mode.offset]]))
  {
    var b := p.hist[|p.hist| - p.mode.offset];
    var q := Point(Match(p.mode.length - 1, p.mode.offset), p.unread, p.hist + [b]);
    forall more
      ensures Whole(cs, reach, q, more) == Whole(cs, reach, p, more)
    {
      BehindBehind(p.hist, [b], Run(cs, reach, Match(p.mode.length - 1, p.mode.offset), p.unread + more, p.hist + [b]));
    }
  }

  /** A distance that is not kept stops decoding. */
  lemma FarWhole(cs: Codes, reach: Reach, p: Point, more: seq<bool>)
    requires p.mode.Match? && p.mode.length > 0 && 1 <= p.mode.offset <= |p.hist| && !Near(cs, reach, |p.hist|, p.mode.offset)
    ensures Whole(cs, reach, p, more) == Result(p.hist, Beyond(p.unread + more))
  {
    assert p.hist + [] == p.hist;
  }

  /** Beside what a call keeps, more is kept where calls begin before. */
  lemma NearLess(cs: Codes, l: Limits, reach: Reach, n: nat, offset: nat)
    requires l.start <= n
    ensures Near(cs, OfCall(l), n, offset) && reach.From? && reach.start <= l.start ==> Near(cs, reach, n, offset)
    ensures Near(cs, Each, n, offset) ==> Near(cs, OfCall(l), n, offset)
  {
  }

  /** Copying a part of a match, or the whole of it. */
  lemma MatchReaches(cs: Codes, l: Limits, p: Point, n: nat)
    requires p.mode.Match? && 1 <= n <= p.mode.length && Near(cs, OfCall(l), |p.hist|, p.mode.offset) && l.start <= |p.hist|
    ensures 1 <= p.mode.offset <= |p.hist|
    ensures Reaches(cs, l, p, Point(Match(p.mode.length - n, p.mode.offset), p.unread, Copied(p.hist, p.mode.offset, n)))
  {
    hide *;
    NearSize(cs, OfCall(l), |p.hist|, p.mode.offset);
    var q := Point(Match(p.mode.length - n, p.mode.offset), p.unread, Copied(p.hist, p.mode.offset, n));
    CopiedKeeps(p.hist, p.mode.offset, n);
    OnwardFrom(p, q);
    MatchSame(cs, OfCall(l), p, n);
    SameBoth(cs, OfCall(l), p, q);
    forall k: nat | k <= l.start
      ensures BeforeEnd(cs, From(k), p, q)
    {
      NearLess(cs, l, From(k), |p.hist|, p.mode.offset);
      MatchSame(cs, From(k), p, n);
      SameBoth(cs, From(k), p, q);
    }
    if Near(cs, Each, |p.hist|, p.mode.offset) {
      MatchSame(cs, Each, p, n);
      SameBoth(cs, Each, p, q);
    } else {
      FarPast(cs, Each, p, q);
    }
    ReachesIs(cs, l, p, q);
  }

  lemma NearSize(cs: Codes, reach: Reach, n: nat, offset: nat)
    requires Near(cs, reach, n, offset)
    ensures 1 <= offset <= n
  {
  }

  lemma FarPast(cs: Codes, reach: Reach, p: Point, q: Point)
    requires p.mode.Match? && p.mode.length > 0 && 1 <= p.mode.offset <= |p.hist| && !Near(cs, reach, |p.hist|, p.mode.offset)
    requires p.hist <= q.hist
    ensures PastStop(cs, reach, p, q)
  {
    hide Whole, Near;
    forall more
      ensures Whole(cs, reach, p, more).ending.Beyond? && Whole(cs, reach, p, more).out <= q.hist
    {
      FarWhole(cs, reach, p, more);
    }
  }

  lemma MatchDone(cs: Codes, l: Limits, p: Point, q: Point)
    requires p.mode.Match? && p.mode.length == 0 && q == p.(mode := Len)
    ensures Reaches(cs, l, p, q)
  {
    forall reach
      ensures Same(cs, reach, p, q)
    {
    }
    hide *;
    OnwardFrom(p, q);
    SameReaches(cs, l, p, q);
  }

  /** A distance that goes too far back, or further than is kept, is rejected. */
  lemma FarReaches(cs: Codes, l: Limits, p: Point)
    requires p.mode.Match? && p.mode.length > 0 && p.mode.offset > 0 && !Near(cs, OfCall(l), |p.hist|, p.mode.offset)
    requires l.start <= |p.hist|
    ensures Reaches(cs, l, p, p.(mode := Bad))
  {
    hide *;
    var q := p.(mode := Bad);
    OnwardFrom(p, q);
    if p.mode.offset > |p.hist| {
      forall reach
        ensures Same(cs, reach, p, q)
      {
        TooFar(cs, reach, p);
      }
      SameReaches(cs, l, p, q);
    } else {
      NearLess(cs, l, Each, |p.hist|, p.mode.offset);
      FarPast(cs, OfCall(l), p, q);
      FarPast(cs, Each, p, q);
      ErrorBefore(cs, OfCall(l), p, q);
      forall k: nat | k <= l.start
        ensures BeforeEnd(cs, From(k), p, q)
      {
        ErrorBefore(cs, From(k), p, q);
      }
      ReachesIs(cs, l, p, q);
    }
  }

  lemma TooFar(cs: Codes, reach: Reach, p: Point)
    requires p.mode.Match? && p.mode.length > 0 && p.mode.offset > |p.hist|
    ensures Same(cs, reach, p, p.(mode := Bad))
  {
  }

  lemma ErrorBefore(cs: Codes, reach: Reach, p: Point, q: Point)
    requires q == p.(mode := Bad)
    ensures BeforeEnd(cs, reach, p, q)
  {
    hide Run;
  }

  // The tables.

  lemma CodesOkIs(cs: Codes)
    ensures CodesOk(cs) <==> CodeOk(cs.lens, LENS) && CodeOk(cs.dists, DISTS)
  {
  }

  lemma SoundIs(c: Code, kind: Kind, x: seq<bool>)
    requires CodeOk(c, kind) && |x| == 15
    ensures c.root >= 1 && Through(c.t, c.root, x)
    ensures 1 <= LookAt(c, x).1 <= 15 && IsAction(kind, LookAt(c, x).0)
  {
    assert Sound(c, kind, x);
  }

  lemma SamePrefix(c: Code, kind: Kind, x: seq<bool>, y: seq<bool>)
    requires CodeOk(c, kind) && |x| == 15 == |y|
    requires LookAt(c, x).1 <= 15 ==> x[..LookAt(c, x).1] == y[..LookAt(c, x).1]
    ensures LookAt(c, y) == LookAt(c, x)
  {
    assert Sound(c, kind, x);
  }

  lemma PadPrefix(s: seq<bool>, more: seq<bool>, n: nat)
    requires n <= |s| && n <= 15
    ensures Pad(s)[..n] == s[..n] == Pad(s + more)[..n]
  {
  }

  /** Bits that come later change nothing once the code is complete. */
  lemma EntryStays(c: Code, kind: Kind, s: seq<bool>, more: seq<bool>)
    requires CodeOk(c, kind) && NextEntry(c, s).Found?
    ensures NextEntry(c, s + more) == Found(NextEntry(c, s).e, NextEntry(c, s).rest + more)
    ensures IsAction(kind, NextEntry(c, s).e)
  {
    hide LookAt, CodeOk, Pad, IsAction;
    SoundIs(c, kind, Pad(s));
    var n := LookAt(c, Pad(s)).1;
    PadPrefix(s, more, n);
    SamePrefix(c, kind, Pad(s), Pad(s + more));
    assert (s + more)[n..] == s[n..] + more;
  }

  /** While the code is not complete, it takes more bits than are there. */
  lemma ShortTakesMore(c: Code, kind: Kind, s: seq<bool>, more: seq<bool>)
    requires CodeOk(c, kind) && NextEntry(c, s).Short? && NextEntry(c, s + more).Found?
    ensures |NextEntry(c, s + more).rest| < |more|
  {
    hide LookAt, CodeOk, Pad, IsAction;
    SoundIs(c, kind, Pad(s));
    SoundIs(c, kind, Pad(s + more));
    var n := LookAt(c, Pad(s + more)).1;
    if n <= |s| {
      PadPrefix(s, more, n);
      SamePrefix(c, kind, Pad(s + more), Pad(s));
    }
  }
}
