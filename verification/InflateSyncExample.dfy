/**
 A call of inflate that stops with nine bits held, the first of them left over from the byte before: a code of ten bits is cut off
 (dep/zlib/inflate.c:1030-1034). inflateSync then begins its search with a byte that is not in the input.
 */
module InflateSyncExample {
  import opened Bits
  import opened CountingOrder
  import opened HuffmanCode
  import opened LowBits
  import opened InflateCode
  import opened InflateEntries
  import opened InflateTable
  import opened InflateSpec
  import opened InflateSymbols
  import opened InflateInput
  import opened InflateBlock
  import opened InflateSplit
  import opened InflateExample
  import opened InflateSync

  /** Codes of 1 to 9 bits for the bytes 0 to 8, and of 10 bits for the byte 9 and the end of the block. */
  function LengthOf(i: nat): nat {
    if i <= 9 then i + 1 else if i == 256 then 10 else 0
  }

  ghost predicate IsLengths(ls: seq<nat>) {
    |ls| == 257 && forall i :: 0 <= i < 257 ==> ls[i] == if LengthOf(i) == 0 then 16 else LengthOf(i)
  }

  function Up(k: nat): (s: seq<nat>)
    ensures |s| == k
  {
    seq(k, i requires 0 <= i < k => i + 1)
  }

  lemma {:induction false} CountUp(k: nat, n: nat)
    ensures Count(Up(k), n) == if 1 <= n <= k then 1 else 0
  {
    if k > 0 {
      CountUp(k - 1, n);
      assert Up(k)[..k - 1] == Up(k - 1);
    }
  }

  lemma LengthCounts(ls: seq<nat>, n: nat)
    requires IsLengths(ls)
    ensures n < 16 ==> Count(ls, n) == if 1 <= n <= 9 then 1 else if n == 10 then 2 else 0
    ensures Rank(ls, 256) == 1
  {
    var a, b, c := Up(10), seq(246, _ => 16), [10];
    assert ls == a + b + c && ls[..256] == a + b;
    forall m: nat
      ensures Count(a, m) == (if 1 <= m <= 10 then 1 else 0) && Count(c, m) == (if m == 10 then 1 else 0)
      ensures Count(b, m) == (if m == 16 then 246 else 0)
      ensures Count(a + b, m) == Count(a, m) + Count(b, m) && Count(a + b + c, m) == Count(a + b, m) + Count(c, m)
    {
      CountUp(10, m);
      OneKey(10, m);
      CountSame(246, 16, m);
      CountAppend(a, b, m);
      CountAppend(a + b, c, m);
    }
    RankIs(ls, 256);
  }

  lemma {:induction false} LengthsFirst(ls: seq<nat>, n: nat)
    requires IsLengths(ls) && n <= 15
    ensures FirstCode(ls, n) == if n == 0 then 0 else if n <= 10 then Pow2(n) - 2 else Pow2(n)
  {
    if n > 0 {
      LengthsFirst(ls, n - 1);
      LengthCounts(ls, n - 1);
      assert Pow2(0) == 1 && Pow2(1) == 2;
    }
  }

  lemma {:induction false} LengthsBelow(ls: seq<nat>, n: nat)
    requires IsLengths(ls) && n <= 16
    ensures CountBelow(ls, n) == if n == 0 then 0 else if n <= 10 then n - 1 else 11
  {
    if n == 0 {
      NoneBelow(ls, 0);
    } else {
      LengthsBelow(ls, n - 1);
      LengthCounts(ls, n - 1);
      CountBelowNext(ls, n - 1);
    }
  }

  /** The lengths are accepted: only two codes are longer than the index of the root table. */
  lemma LengthsAccepted(ls: seq<nat>, used: nat)
    requires IsLengths(ls)
    ensures !Rejected(ls, LENS) && AnyCode(ls)
    ensures Sized(ls, 9, used) ==> Accepted(LENS, ls, used)
  {
    LengthsComplete(ls);
    LengthsBelow(ls, 16);
    hide *;
    LengthsSize(ls, used);
    AnyIs(ls);
    AcceptedIs(LENS, ls, used);
  }

  lemma AnyIs(ls: seq<nat>)
    ensures AnyCode(ls) <==> CountBelow(ls, 16) > 0
  {
  }

  lemma LengthsComplete(ls: seq<nat>)
    requires IsLengths(ls)
    ensures !Rejected(ls, LENS)
  {
    forall n: nat | n <= 15
      ensures FirstCode(ls, n) + Count(ls, n) <= Pow2(n) && (n == 15 ==> FirstCode(ls, n) + Count(ls, n) == Pow2(n))
    {
      LengthsFirst(ls, n);
      LengthCounts(ls, n);
      assert Pow2(0) == 1;
    }
    hide FirstCode, Count, Pow2, IsLengths;
  }

  lemma LengthsSize(ls: seq<nat>, used: nat)
    requires IsLengths(ls)
    ensures Sized(ls, 9, used) ==> !NotEnough(LENS, used)
  {
    if Sized(ls, 9, used) {
      var root :| Size(ls, 9, root, used);
      LengthCounts(ls, 10);
      LengthsBelow(ls, 10);
      LengthsBelow(ls, 11);
      LengthsBelow(ls, 16);
      hide Count, CountBelow, FirstCode, IsLengths;
      assert Longest(ls, 10);
      assert Pow2(1) == 2;
      assert Pow2(3) == 8 && Pow2(6) == 64 && Pow2(9) == 512;
    }
  }

  function Ones(n: nat): (s: seq<bool>)
    ensures |s| == n
  {
    seq(n, _ => true)
  }

  lemma {:induction false} OnesValue(n: nat)
    ensures Value(Ones(n)) == Pow2(n) - 1
  {
    if n > 0 {
      OnesValue(n - 1);
      assert Ones(n)[..n - 1] == Ones(n - 1);
    }
  }

  /** Nine bits 1 are the beginning of the code of the end of the block. */
  lemma NineOnes(cs: Codes, ls: seq<nat>)
    requires IsLengths(ls) && Made(cs.lens, LENS, ls) && CodesOk(cs)
    ensures NextEntry(cs.lens, Ones(9)).Short?
  {
    LengthsFirst(ls, 10);
    LengthCounts(ls, 10);
    assert CodeOf(ls, 256) == Pow2(10) - 1 && ls[256] == 10 && |ls| == 257;
    hide *;
    OnesValue(10);
    assert Ones(10)[..10] == Ones(10);
    StartsIs(ls, Ones(10), 256);
    NextIsSymbol(cs.lens, LENS, ls, Ones(10), 256);
    if NextEntry(cs.lens, Ones(9)).Found? {
      CodesOkIs(cs);
      EntryStays(cs.lens, LENS, Ones(9), [true]);
      OneMore();
    }
  }

  lemma OneMore()
    ensures Ones(9) + [true] == Ones(10) && |Ones(10)| == 10
  {
  }

  /** The tables for these lengths, and for the distances of the other example. */
  method Tables() returns (cs: Codes, ghost ls: seq<nat>)
    ensures IsLengths(ls) && Made(cs.lens, LENS, ls) && CodesOk(cs) && cs.window == 256
  {
    var lens, dists, work := new nat[257](i => LengthOf(i)), new nat[17](i => DistOf(i)), new nat[288];
    ls := UsedLengths(lens[..]);
    ghost var d := UsedLengths(dists[..]);
    assert IsLengths(ls) && IsDists(d);
    assert forall i :: 0 <= i < lens.Length ==> lens[i] <= 15;
    assert forall i :: 0 <= i < dists.Length ==> dists[i] <= 15;
    hide *;
    var ok, lused, dused;
    ok, cs, lused, dused := MakeCodes(lens, dists, work, 256);
    LengthsAccepted(ls, lused);
    DistsAccepted(d);
    AcceptedIs(DISTS, d, dused);
  }

  /**
   Behind a byte of which one bit is left, the input is one byte more, all bits 1. The call stops with nine bits held and all input
   taken, and inflateSync takes the byte 254 out of the bit buffer, where the byte that is held is 255.
   */
  method StopsHolding() returns (mode: Mode, unused: nat, bits: nat, buf: seq<byte>)
    ensures mode == Len && unused == 0 && bits == 9
    ensures |buf| == 1 && ByteBits(buf) != ByteBits([255])
  {
    hide *;
    WordSize();
    var cs; ghost var ls;
    cs, ls := Tables();
    var s := Begin(cs, 8, [], 255, 1, []);
    BetweenIs(s, [], 0);
    RestIs(s, [], 0);
    AllOnes();
    OneLeft(s.input.Held());
    NineOnes(cs, ls);
    ghost var p := Point(Len, s.input.Held() + ByteBits([255]), []);
    CutOffIs(cs, p);
    var room := new byte[100];
    s.ValidIs();
    var n, reply := Inflate(s, [255], room);
    s.ValidIs();
    s.input.HeldValue();
    mode, unused, bits := s.mode, |s.input.input| - s.input.next, s.input.bits;
    AllHeld(s.input);
    buf := HeldBytes(s.input.hold, s.input.bits);
    Shifted(buf);
  }

  lemma {:induction false} OnesLow(n: nat)
    ensures LowValue(Ones(n)) == Pow2(n) - 1
  {
    if n > 0 {
      OnesLow(n - 1);
      assert Ones(n)[1..] == Ones(n - 1);
    }
  }

  lemma AllOnes()
    ensures ByteBits([255]) == Ones(8) && ByteBits([]) == [] && [true] + Ones(8) == Ones(9) && Ones(8)[7..] == [true]
    ensures LowValue(Ones(9)) == 511
  {
    OneByte(255);
    OnesLow(8);
    OnesLow(9);
    WordSize();
    FromLow(8, 255, Ones(8));
    assert Pow2(9) == 2 * Pow2(8);
  }

  lemma OneLeft(held: seq<bool>)
    ensures held + ByteBits([][0..]) == [true] + [] ==> held == [true]
  {
    assert held + ByteBits([][0..]) == held;
    var one := [true];
    assert one + [] == one;
  }

  lemma AllHeld(i: BitIn)
    requires i.Valid() && i.next == |i.input| && i.Unread() == Ones(9)
    ensures i.bits == 9 && i.hold == LowValue(Ones(9))
  {
    i.HeldValue();
    assert i.Unread()[..9] == i.Unread();
  }

  lemma Shifted(buf: seq<byte>)
    requires ByteBits(buf) == LowestBits(8, Shl(511, 1))
    ensures |buf| == 1 && ByteBits(buf) != Ones(8)
  {
    assert Pow2(1) == 2;
    assert LowestBits(8, 1022)[0] == false && Ones(8)[0];
  }
}
