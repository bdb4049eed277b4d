/**
 Bits for which the division into calls matters: 300 zero bytes, and a match of three bytes 300 bytes back, with a window of 256 bytes
 (dep/zlib/inflate.c:1124-1131).
 */
module InflateExample {
  import opened Bits
  import opened CountingOrder
  import opened HuffmanCode
  import opened LowBits
  import opened Lz77
  import opened InflateCode
  import opened InflateEntries
  import opened InflateTable
  import opened InflateSpec
  import opened InflateSymbols
  import opened InflateInput
  import opened InflateState
  import opened InflateSplit
  import opened TokenBits

  // The two codes.

  /** One bit for the byte 0, two bits for the end of the block and for a match of three bytes. */
  function LenOf(i: nat): nat {
    if i == 0 then 1 else if i == 256 || i == 257 then 2 else 0
  }

  /** One bit for the distances from 257 to 384. */
  function DistOf(i: nat): nat {
    if i == 16 then 1 else 0
  }

  lemma {:induction false} CountAppend(a: seq<nat>, b: seq<nat>, n: nat)
    ensures Count(a + b, n) == Count(a, n) + Count(b, n)
    decreases |b|
  {
    if b == [] {
      assert a + b == a;
    } else {
      CountAppend(a, b[..|b| - 1], n);
      assert (a + b)[..|a + b| - 1] == a + b[..|b| - 1];
    }
  }

  lemma {:induction false} CountSame(k: nat, v: nat, n: nat)
    ensures Count(seq(k, _ => v), n) == if v == n then k else 0
  {
    if k > 0 {
      CountSame(k - 1, v, n);
      assert seq(k, _ => v)[..k - 1] == seq(k - 1, _ => v);
    }
  }

  lemma LenCounts(ls: seq<nat>, n: nat)
    requires |ls| == 258 && forall i :: 0 <= i < 258 ==> ls[i] == if LenOf(i) == 0 then 16 else LenOf(i)
    ensures n < 16 ==> Count(ls, n) == if n == 1 then 1 else if n == 2 then 2 else 0
    ensures Rank(ls, 0) == Rank(ls, 256) == 0 && Rank(ls, 257) == 1
  {
    var a, b, c := [1], seq(255, _ => 16), [2];
    assert ls == a + b + c + c && ls[..256] == a + b && ls[..257] == a + b + c && ls[..0] == [];
    forall m: nat
      ensures Count(a, m) == (if m == 1 then 1 else 0) && Count(c, m) == (if m == 2 then 1 else 0)
      ensures Count(a + b, m) == Count(a, m) + Count(b, m) && Count(b, m) == if m == 16 then 255 else 0
      ensures Count(a + b + c, m) == Count(a + b, m) + Count(c, m)
      ensures Count(a + b + c + c, m) == Count(a + b + c, m) + Count(c, m)
    {
      OneKey(1, m);
      OneKey(2, m);
      CountSame(255, 16, m);
      CountAppend(a, b, m);
      CountAppend(a + b, c, m);
      CountAppend(a + b + c, c, m);
    }
    RankIs(ls, 0);
    RankIs(ls, 256);
    RankIs(ls, 257);
  }

  lemma OneKey(v: nat, m: nat)
    ensures Count([v], m) == if m == v then 1 else 0
  {
    assert [v][..0] == [];
  }

  lemma RankIs(ls: seq<nat>, i: nat)
    requires i < |ls|
    ensures Rank(ls, i) == Count(ls[..i], ls[i])
  {
  }

  /** The lengths of the first code. */
  ghost predicate IsLens(ls: seq<nat>) {
    |ls| == 258 && forall i :: 0 <= i < 258 ==> ls[i] == if LenOf(i) == 0 then 16 else LenOf(i)
  }

  ghost predicate IsDists(ls: seq<nat>) {
    |ls| == 17 && forall i :: 0 <= i < 17 ==> ls[i] == if DistOf(i) == 0 then 16 else DistOf(i)
  }

  lemma {:induction false} LenFirst(ls: seq<nat>, n: nat)
    requires IsLens(ls) && n <= 15
    ensures FirstCode(ls, n) == if n <= 1 then 0 else if n == 2 then 2 else Pow2(n)
  {
    if n > 0 {
      LenFirst(ls, n - 1);
      LenCounts(ls, n - 1);
      assert Pow2(3) == 8;
    }
  }

  lemma LensAccepted(ls: seq<nat>)
    requires IsLens(ls)
    ensures !Rejected(ls, LENS) && !LongCode(ls, 9)
  {
    forall n: nat | n <= 15
      ensures FirstCode(ls, n) + Count(ls, n) <= Pow2(n) && (n == 15 ==> FirstCode(ls, n) + Count(ls, n) == Pow2(n))
      ensures n > 9 ==> Count(ls, n) == 0
    {
      LenFirst(ls, n);
      LenCounts(ls, n);
      assert Pow2(0) == 1 && Pow2(1) == 2 && Pow2(2) == 4;
    }
    hide FirstCode, Count, Pow2, IsLens;
  }

  /** The codes are 0 for the byte 0, 10 for the end of the block, and 11 for the match. */
  lemma LenCodes(ls: seq<nat>)
    requires IsLens(ls)
    ensures CodeOf(ls, 0) == 0 && CodeOf(ls, 256) == 2 && CodeOf(ls, 257) == 3
  {
    LenFirst(ls, 1);
    LenFirst(ls, 2);
    LenCounts(ls, 0);
  }

  lemma DistCounts(ls: seq<nat>, n: nat)
    requires IsDists(ls)
    ensures n < 16 ==> Count(ls, n) == if n == 1 then 1 else 0
    ensures Rank(ls, 16) == 0
  {
    var a, b := seq(16, _ => 16), [1];
    assert ls == a + b && ls[..16] == a;
    forall m: nat
      ensures Count(b, m) == (if m == 1 then 1 else 0) && Count(a, m) == (if m == 16 then 16 else 0)
      ensures Count(a + b, m) == Count(a, m) + Count(b, m)
    {
      OneKey(1, m);
      CountSame(16, 16, m);
      CountAppend(a, b, m);
    }
    RankIs(ls, 16);
  }

  lemma {:induction false} DistFirst(ls: seq<nat>, n: nat)
    requires IsDists(ls) && n <= 15
    ensures FirstCode(ls, n) + Count(ls, n) <= Pow2(n) && (n <= 1 ==> FirstCode(ls, n) == 0)
  {
    DistCounts(ls, n);
    if n > 0 {
      DistFirst(ls, n - 1);
      DistCounts(ls, n - 1);
      assert Pow2(0) == 1 && Pow2(1) == 2;
    }
  }

  lemma DistsAccepted(ls: seq<nat>)
    requires IsDists(ls)
    ensures !Rejected(ls, DISTS) && !LongCode(ls, 6) && CodeOf(ls, 16) == 0
  {
    forall n: nat | n <= 15
      ensures FirstCode(ls, n) + Count(ls, n) <= Pow2(n) && (n > 1 ==> Count(ls, n) == 0)
    {
      DistFirst(ls, n);
      DistCounts(ls, n);
    }
    DistFirst(ls, 1);
    DistCounts(ls, 1);
    assert CodeOf(ls, 16) == FirstCode(ls, 1) + Rank(ls, 16);
    hide FirstCode, Count, Pow2, IsDists;
  }

  // The bits.

  /** The match, with seven extra bits of the distance, and the end of the block. */
  const TAIL: seq<bool> := [true, true, false, true, true, false, true, false, true, false, true, false]

  /** Codes made for these lengths. */
  ghost predicate ExampleCodes(cs: Codes) {
    cs.window == 256 && exists l, d :: IsLens(l) && IsDists(d) && Made(cs.lens, LENS, l) && Made(cs.dists, DISTS, d)
  }

  lemma BitValues()
    ensures Value([false]) == 0 && Value([true, false]) == 2 && Value([true, true]) == 3
  {
    assert [false][..0] == [] && [true][..0] == [];
    assert [true, false][..1] == [true] && [true, true][..1] == [true];
  }

  /** What the code words of the two codes give. */
  lemma Words(cs: Codes, rest: seq<bool>)
    requires ExampleCodes(cs)
    ensures NextEntry(cs.lens, [false] + rest) == Found(Entry(0, 0, 0), rest)
    ensures NextEntry(cs.lens, [true, false] + rest) == Found(Entry(96, 0, 0), rest)
    ensures NextEntry(cs.lens, [true, true] + rest) == Found(Entry(16, 0, 3), rest)
    ensures NextEntry(cs.dists, [false] + rest) == Found(Entry(23, 0, 257), rest)
  {
    var l, d :| IsLens(l) && IsDists(d) && Made(cs.lens, LENS, l) && Made(cs.dists, DISTS, d);
    LenCodes(l);
    DistsAccepted(d);
    BitValues();
    hide *;
    Lengths(l, d);
    Leaves();
    var a, b, c := [false] + rest, [true, false] + rest, [true, true] + rest;
    assert a[..1] == [false] && a[1..] == rest && b[..2] == [true, false] && b[2..] == rest && c[..2] == [true, true] && c[2..] == rest;
    StartsIs(l, a, 0);
    NextIsSymbol(cs.lens, LENS, l, a, 0);
    StartsIs(l, b, 256);
    NextIsSymbol(cs.lens, LENS, l, b, 256);
    StartsIs(l, c, 257);
    NextIsSymbol(cs.lens, LENS, l, c, 257);
    StartsIs(d, a, 16);
    NextIsSymbol(cs.dists, DISTS, d, a, 16);
  }

  lemma Lengths(l: seq<nat>, d: seq<nat>)
    requires IsLens(l) && IsDists(d)
    ensures |l| == 258 && l[0] == 1 && l[256] == l[257] == 2 && |d| == 17 && d[16] == 1
  {
  }

  lemma Leaves()
    ensures Leaf(LENS, 0, 0) == Entry(0, 0, 0) && Leaf(LENS, 256, 0) == Entry(96, 0, 0) && Leaf(LENS, 257, 0) == Entry(16, 0, 3)
    ensures Leaf(DISTS, 16, 0) == Entry(23, 0, 257)
  {
  }

  function ZeroBytes(n: nat): (s: seq<byte>)
    ensures |s| == n
  {
    seq(n, _ => 0)
  }

  /** Bytes 0, one bit each. */
  lemma {:induction false} ZerosRun(cs: Codes, reach: Reach, n: nat, s: seq<bool>, h: seq<byte>)
    requires ExampleCodes(cs)
    ensures Run(cs, reach, Len, Zeros(n) + s, h) == Behind(ZeroBytes(n), Run(cs, reach, Len, s, h + ZeroBytes(n)))
    decreases n
  {
    hide *;
    ZerosMore(n, s, h);
    if n == 0 {
      BehindBehind([], [], Run(cs, reach, Len, s, h));
    } else {
      Words(cs, Zeros(n - 1) + s);
      ZeroRun(cs, reach, [false] + (Zeros(n - 1) + s), Zeros(n - 1) + s, h);
      ZerosRun(cs, reach, n - 1, s, h + [0]);
      BehindBehind([0], ZeroBytes(n - 1), Run(cs, reach, Len, s, h + ZeroBytes(n)));
    }
  }

  lemma ZerosMore(n: nat, s: seq<bool>, h: seq<byte>)
    ensures n == 0 ==> Zeros(n) + s == s && ZeroBytes(n) == [] && h + ZeroBytes(n) == h
    ensures n > 0 ==>
              && Zeros(n) + s == [false] + (Zeros(n - 1) + s) && ZeroBytes(n) == [0] + ZeroBytes(n - 1)
              && h + ZeroBytes(n) == h + [0] + ZeroBytes(n - 1)
  {
  }

  lemma ZeroRun(cs: Codes, reach: Reach, t: seq<bool>, s: seq<bool>, h: seq<byte>)
    requires NextEntry(cs.lens, t) == Found(Entry(0, 0, 0), s)
    ensures Run(cs, reach, Len, t, h) == Behind([0], Run(cs, reach, Len, s, h + [0]))
  {
    hide NextEntry;
  }

  /** The code of the match is read as length 3 and distance 300. */
  lemma TailReads(cs: Codes)
    requires ExampleCodes(cs)
    ensures Reads(cs, Pair(3, 300), TAIL, [true, false])
    ensures NextEntry(cs.lens, [true, false]) == Found(Entry(96, 0, 0), [])
  {
    hide *;
    var extra, end := [true, true, false, true, false, true, false], [true, false];
    Words(cs, [false] + (extra + end));
    Words(cs, extra + end);
    Words(cs, []);
    assert end + [] == end;
    ExtraBits();
    NoValue();
    TailIs();
    ReadsFrom(cs, TAIL, [false] + (extra + end), extra, end);
  }

  lemma TailIs()
    ensures TAIL == [true, true] + ([false] + ([true, true, false, true, false, true, false] + [true, false]))
  {
  }

  lemma ReadsFrom(cs: Codes, s: seq<bool>, s1: seq<bool>, extra: seq<bool>, end: seq<bool>)
    requires NextEntry(cs.lens, s) == Found(Entry(16, 0, 3), s1) && NextEntry(cs.dists, s1) == Found(Entry(23, 0, 257), extra + end)
    requires |extra| == 7 && LowValue(extra) == 43 && LowValue([]) == 0
    ensures Reads(cs, Pair(3, 300), s, end)
  {
    hide NextEntry, LowValue;
    assert s1[..0] == [] && s1[0..] == s1;
    assert (extra + end)[..7] == extra && (extra + end)[7..] == end;
  }

  lemma NoValue()
    ensures LowValue([]) == 0
  {
  }

  lemma ExtraBits()
    ensures LowValue([true, true, false, true, false, true, false]) == 43
  {
    var b := [true, true, false, true, false, true, false];
    assert b[1..] == [true, false, true, false, true, false];
    assert b[1..][1..] == [false, true, false, true, false];
    assert [false, true, false, true, false][1..] == [true, false, true, false];
    assert [true, false, true, false][1..] == [false, true, false];
    assert [false, true, false][1..] == [true, false];
    assert [true, false][1..] == [false];
    assert [false][1..] == [];
    assert LowValue([false]) == 0;
    assert LowValue([true, false]) == 1;
    assert LowValue([false, true, false]) == 2;
    assert LowValue([true, false, true, false]) == 5;
    assert LowValue([false, true, false, true, false]) == 10;
    assert LowValue([true, false, true, false, true, false]) == 21;
  }

  /** All bits, up to where the match would be copied. */
  lemma UpToMatch(cs: Codes, reach: Reach)
    requires ExampleCodes(cs)
    ensures Run(cs, reach, Len, Zeros(300) + TAIL, [])
            == Behind(ZeroBytes(300), Run(cs, reach, Match(3, 300), [true, false], ZeroBytes(300)))
  {
    hide *;
    TailReads(cs);
    ZerosRun(cs, reach, 300, TAIL, []);
    PairRun(cs, reach, 3, 300, TAIL, [true, false], ZeroBytes(300));
    assert [] + ZeroBytes(300) == ZeroBytes(300);
  }

  /** In one call the match is copied. */
  lemma WideExample(cs: Codes)
    requires ExampleCodes(cs)
    ensures Run(cs, From(0), Len, Zeros(300) + TAIL, []) == Result(ZeroBytes(303), EndOfBlock([]))
  {
    hide *;
    UpToMatch(cs, From(0));
    TailReads(cs);
    IsNear(cs);
    ThreeMore();
    MatchRun(cs, From(0), 3, 300, [true, false], ZeroBytes(300));
    EndRun(cs, ZeroBytes(303));
    BehindBehind(ZeroBytes(300), ZeroBytes(303)[300..], Result([], EndOfBlock([])));
  }

  lemma IsNear(cs: Codes)
    ensures Near(cs, From(0), 300, 300)
    ensures cs.window == 256 ==> !Near(cs, Each, 300, 300)
  {
  }

  lemma ThreeMore()
    ensures |ZeroBytes(300)| == 300 && Copied(ZeroBytes(300), 300, 3) == ZeroBytes(303)
    ensures ZeroBytes(300) + ZeroBytes(303)[300..] == ZeroBytes(303)
    ensures Behind(ZeroBytes(303), Result([], EndOfBlock([]))) == Result(ZeroBytes(303), EndOfBlock([]))
  {
    var h := ZeroBytes(300);
    assert Copied(h, 300, 0) == h;
    assert Copied(h, 300, 1) == ZeroBytes(301);
    assert Copied(h, 300, 2) == ZeroBytes(302);
  }

  lemma EndRun(cs: Codes, h: seq<byte>)
    requires NextEntry(cs.lens, [true, false]) == Found(Entry(96, 0, 0), [])
    ensures Run(cs, From(0), Len, [true, false], h) == Result([], EndOfBlock([]))
  {
    hide NextEntry;
  }

  /** With a call for every byte it is rejected. */
  lemma NarrowExample(cs: Codes)
    requires ExampleCodes(cs)
    ensures Run(cs, Each, Len, Zeros(300) + TAIL, []) == Result(ZeroBytes(300), Beyond([true, false]))
  {
    hide *;
    UpToMatch(cs, Each);
    WindowIs(cs);
    IsNear(cs);
    FarWhole(cs, Each, Point(Match(3, 300), [true, false], ZeroBytes(300)), []);
    WholeNow(cs, Each, Point(Match(3, 300), [true, false], ZeroBytes(300)));
    assert [true, false] + [] == [true, false];
  }

  lemma WindowIs(cs: Codes)
    requires ExampleCodes(cs)
    ensures cs.window == 256 && |ZeroBytes(300)| == 300
  {
  }

  // The bytes.

  lemma {:induction false} ZeroByteBits(n: nat)
    ensures ByteBits(ZeroBytes(n)) == Zeros(8 * n)
  {
    if n > 0 {
      ZeroByteBits(n - 1);
      ZeroByte();
      assert ZeroBytes(n) == [0] + ZeroBytes(n - 1);
      hide ByteBits;
      ByteBitsAppend([0], ZeroBytes(n - 1));
      assert Zeros(8) + Zeros(8 * (n - 1)) == Zeros(8 * n);
    }
  }

  lemma ZeroByte()
    ensures ByteBits([0]) == Zeros(8)
  {
    OneByte(0);
    FromLow(8, 0, Zeros(8));
    ZerosAreZero(8);
  }

  /** The bits of a number are the only ones that spell it. */
  lemma FromLow(n: nat, v: nat, b: seq<bool>)
    requires |b| == n && v < Pow2(n)
    ensures LowValue(b) == v ==> LowestBits(n, v) == b
  {
    ValueOfLowest(n, v);
    if LowValue(b) == v { LowValueApart(LowestBits(n, v), b); }
  }

  function Data(): seq<byte> {
    ZeroBytes(37) + [176, 85]
  }

  lemma LastBytes()
    ensures ByteBits([176]) == Zeros(4) + TAIL[..4] && ByteBits([85]) == TAIL[4..]
  {
    var a, b := Zeros(4) + TAIL[..4], TAIL[4..];
    TailHalves();
    hide *;
    Eleven();
    EightyFive();
    LowValueConcat(Zeros(4), TAIL[..4]);
    ZerosAreZero(4);
    Sixteen(11);
    WordSize();
    OneByte(176);
    OneByte(85);
    FromLow(8, 176, a);
    FromLow(8, 85, b);
  }

  lemma Sixteen(v: nat)
    ensures Shl(v, 4) == 16 * v
  {
    assert Pow2(4) == 16;
  }

  lemma TailHalves()
    ensures |TAIL| == 12 && TAIL[..4] == [true, true, false, true] && TAIL[4..] == [true, false, true, false, true, false, true, false]
    ensures |Zeros(4)| == 4
  {
  }

  lemma Eleven()
    ensures LowValue([true, true, false, true]) == 11
  {
    assert [true, true, false, true][1..] == [true, false, true] && [true, false, true][1..] == [false, true];
    assert [false, true][1..] == [true] && [true][1..] == [];
    assert LowValue([true]) == 1;
    assert LowValue([false, true]) == 2;
    assert LowValue([true, false, true]) == 5;
  }

  lemma EightyFive()
    ensures LowValue([true, false, true, false, true, false, true, false]) == 85
  {
    assert [false][1..] == [] && LowValue([false]) == 0;
    assert [true, false][1..] == [false] && LowValue([true, false]) == 1;
    assert [false, true, false][1..] == [true, false] && LowValue([false, true, false]) == 2;
    assert [true, false, true, false][1..] == [false, true, false] && LowValue([true, false, true, false]) == 5;
    assert [false, true, false, true, false][1..] == [true, false, true, false];
    assert LowValue([false, true, false, true, false]) == 10;
    assert [true, false, true, false, true, false][1..] == [false, true, false, true, false];
    assert LowValue([true, false, true, false, true, false]) == 21;
    assert [false, true, false, true, false, true, false][1..] == [true, false, true, false, true, false];
    assert LowValue([false, true, false, true, false, true, false]) == 42;
    assert [true, false, true, false, true, false, true, false][1..] == [false, true, false, true, false, true, false];
  }

  lemma DataBits()
    ensures ByteBits(Data()) == Zeros(300) + TAIL
  {
    hide *;
    ZeroByteBits(37);
    LastBytes();
    ByteBitsAppend([176], [85]);
    ByteBitsAppend(ZeroBytes(37), [176] + [85]);
    DataIs();
    BitsTogether(Zeros(296), Zeros(4), TAIL[..4], TAIL[4..]);
  }

  lemma DataIs()
    ensures Data() == ZeroBytes(37) + ([176] + [85]) && |TAIL| == 12 && TAIL[..4] + TAIL[4..] == TAIL && Zeros(296) + Zeros(4) == Zeros(300)
  {
    assert [176] + [85] == [176, 85];
  }

  lemma BitsTogether(a: seq<bool>, b: seq<bool>, c: seq<bool>, d: seq<bool>)
    ensures a + (b + c + d) == a + b + (c + d)
  {
  }

  /** The tables are made for these lengths. */
  method ExampleTables() returns (cs: Codes)
    ensures ExampleCodes(cs) && CodesOk(cs)
  {
    var lens, dists, work := new nat[258](i => LenOf(i)), new nat[17](i => DistOf(i)), new nat[288];
    ghost var l, d := UsedLengths(lens[..]), UsedLengths(dists[..]);
    assert IsLens(l) && IsDists(d);
    assert forall i :: 0 <= i < lens.Length ==> lens[i] <= 15;
    assert forall i :: 0 <= i < dists.Length ==> dists[i] <= 15;
    hide *;
    LensAccepted(l);
    DistsAccepted(d);
    var ok, lused, dused;
    ok, cs, lused, dused := MakeCodes(lens, dists, work, 256);
    AcceptedIs(LENS, l, lused);
    AcceptedIs(DISTS, d, dused);
    HaveCodes(cs, l, d);
  }

  lemma HaveCodes(cs: Codes, l: seq<nat>, d: seq<nat>)
    requires cs.window == 256 && IsLens(l) && IsDists(d) && Made(cs.lens, LENS, l) && Made(cs.dists, DISTS, d)
    ensures ExampleCodes(cs)
  {
  }

  /**
   The same 39 bytes, from the beginning of a block with a window of 256 bytes: with room for everything 303 bytes come out and the block
   ends; with room for one byte per call 300 bytes come out and then an error.
   */
  method SplitMatters() returns (together: seq<byte>, end: Mode, apart: seq<byte>, error: Mode)
    ensures together == ZeroBytes(303) && end == Type
    ensures apart == ZeroBytes(300) && error == Bad
  {
    hide *;
    WordSize();
    DataBits();
    var cs := ExampleTables();
    WindowIs(cs);
    WideExample(cs);
    NarrowExample(cs);
    var s := Fresh(cs);
    var c;
    BetweenIs(s, Data(), 0);
    MeaningsAre(cs, Rest(s, Data(), 0));
    together, c := InflateOnce(s, Data(), 1000);
    end := s.mode;
    ExactlyIs(end, together, Run(cs, From(0), Len, Zeros(300) + TAIL, []));
    s := Fresh(cs);
    BetweenIs(s, Data(), 0);
    MeaningsAre(cs, Rest(s, Data(), 0));
    apart, c := InflateAll(s, Data(), 39, 1);
    error := s.mode;
    ExactlyIs(error, apart, Run(cs, Each, Len, Zeros(300) + TAIL, []));
  }

  /** At the beginning of a block, with nothing behind. */
  method Fresh(cs: Codes) returns (s: State)
    requires CodesOk(cs) && cs.window == 256
    ensures fresh(s) && fresh(s.input) && fresh(s.win) && fresh(s.win.window) && s.codes == cs && Between(s, Data(), 0)
    ensures Rest(s, Data(), 0) == Point(Len, ByteBits(Data()), [])
  {
    hide *;
    WordSize();
    s := new State(cs, 8);
    s.ValidIs();
    InflateFast.NowIs(s);
    BetweenIs(s, Data(), 0);
    RestIs(s, Data(), 0);
    assert Data()[0..] == Data() && [] + ByteBits(Data()) == ByteBits(Data());
  }
}
