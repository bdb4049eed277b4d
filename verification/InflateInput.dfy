/** The bit accumulator of inflate (PULLBYTE, NEEDBITS, BITS and DROPBITS, dep/zlib/inflate.c:486-513), and looking up a symbol. */
module InflateInput {
  import opened Bits
  import opened LowBits
  import opened InflateSpec

  /** The bits of bytes, the lowest bit of each byte first. */
  function ByteBits(s: seq<byte>): (bits: seq<bool>)
    ensures |bits| == 8 * |s|
  {
    if s == [] then [] else LowestBits(8, s[0]) + ByteBits(s[1..])
  }

  lemma {:induction false} ByteBitsAppend(a: seq<byte>, b: seq<byte>)
    ensures ByteBits(a + b) == ByteBits(a) + ByteBits(b)
  {
    if a == [] {
      assert a + b == b;
    } else {
      ByteBitsAppend(a[1..], b);
      assert (a + b)[1..] == a[1..] + b && (a + b)[0] == a[0];
      Associate(LowestBits(8, a[0]), ByteBits(a[1..]), ByteBits(b));
    }
  }

  lemma OneByte(b: byte)
    ensures ByteBits([b]) == LowestBits(8, b) && LowValue(ByteBits([b])) == b
  {
    WordSize();
    ValueOfLowest(8, b);
    assert [b][1..] == [] && ByteBits([]) == [];
  }

  /** The bits of byte k of the bytes s. */
  lemma ByteAt(s: seq<byte>, k: nat)
    requires k < |s|
    ensures LowValue(ByteBits(s)[8 * k..8 * (k + 1)]) == s[k]
  {
    hide *;
    ByteBitsAppend(s[..k], s[k..]);
    ByteBitsAppend([s[k]], s[k + 1..]);
    OneByte(s[k]);
    assert s == s[..k] + s[k..] && s[k..] == [s[k]] + s[k + 1..];
    Middle(ByteBits(s[..k]), ByteBits([s[k]]), ByteBits(s[k + 1..]));
  }

  lemma Middle(a: seq<bool>, b: seq<bool>, c: seq<bool>)
    ensures (a + (b + c))[|a|..|a| + |b|] == b
  {
  }

  lemma PadValue(s: seq<bool>, n: nat)
    requires n <= 15
    ensures Low(LowValue(s), n) == LowValue(Pad(s)[..n])
  {
    hide LowValue, Low;
    var z := s + Zeros(15);
    LowValueConcat(s, Zeros(15));
    ZerosAreZero(15);
    LowValueSplit(z, n);
    assert z[..n] == Pad(s)[..n];
  }

  class BitIn {
    var hold: nat
    var bits: nat
    /** The bytes that the caller provides, and the next of them. */
    var input: seq<byte>
    var next: nat
    /** The bytes that earlier calls have taken. */
    ghost var before: seq<byte>

    ghost function All(): seq<bool>
      reads this
    {
      ByteBits(before + input)
    }

    /** The position of the next bit that is not used yet. */
    ghost function Pos(): int
      reads this
    {
      8 * (|before| + next) - bits
    }

    /** hold holds the bits between those used and those not taken in yet. */
    ghost predicate Valid()
      reads this
    {
      && next <= |input| && 0 <= Pos() && bits <= 30
      && hold == LowValue(All()[Pos()..Pos() + bits])
    }

    ghost function Unread(): seq<bool>
      requires Valid()
      reads this
    {
      All()[Pos()..]
    }

    ghost function Held(): seq<bool>
      requires Valid()
      reads this
    {
      Unread()[..bits]
    }

    lemma HeldValue()
      requires Valid()
      ensures |Unread()| == bits + 8 * (|input| - next) && hold == LowValue(Held()) < Pow2(bits) && |Held()| == bits
    {
      hide LowValue, ByteBits;
      assert Held() == All()[Pos()..Pos() + bits];
    }

    constructor ()
      ensures Valid() && before == [] && input == [] && next == 0 && bits == 0 && Unread() == []
    {
      hold, bits, input, next, before := 0, 0, [], 0, [];
    }

    /** The caller provides more bytes; those that were not taken are provided again or are lost. */
    method Provide(piece: seq<byte>)
      requires Valid()
      modifies this
      ensures Valid() && input == piece && next == 0 && bits == old(bits) && before == old(before + input[..next])
      ensures Unread() == old(Held()) + ByteBits(piece)
    {
      hide LowValue, ByteBits;
      ghost var b := before + input[..next];
      ghost var held := Held();
      ByteBitsAppend(b, piece);
      ByteBitsAppend(b, input[next..]);
      assert before + input == b + input[next..];
      assert ByteBits(b)[Pos()..] == All()[Pos()..Pos() + bits];
      before, input, next := b, piece, 0;
      assert All()[Pos()..Pos() + bits] == ByteBits(b)[Pos()..];
      assert Unread() == ByteBits(b)[Pos()..] + ByteBits(piece);
      assert held == ByteBits(b)[Pos()..];
    }

    /** PULLBYTE. */
    method PullByte()
      requires Valid() && next < |input| && bits <= 22
      modifies this
      ensures Valid() && input == old(input) && before == old(before) && next == old(next) + 1 && bits == old(bits) + 8
      ensures Pos() == old(Pos()) && Unread() == old(Unread())
    {
      hide LowValue, ByteBits;
      ghost var p, k := Pos(), |before| + next;
      ByteAt(before + input, k);
      assert (before + input)[k] == input[next];
      LowValueConcat(All()[p..8 * k], All()[8 * k..8 * (k + 1)]);
      assert All()[p..8 * k] + All()[8 * k..8 * (k + 1)] == All()[p..8 * (k + 1)];
      hold := hold + Shl(input[next], bits);
      bits := bits + 8;
      next := next + 1;
    }

    /** BITS(n): what is held, with zeros behind. */
    function Bits(n: nat): (v: nat)
      reads this
      ensures Valid() && n <= bits ==> n <= |Unread()| && v == LowValue(Unread()[..n])
      ensures Valid() && n <= 15 ==> v == LowValue(Pad(Held())[..n])
    {
      assert Valid() && n <= bits ==> n <= |Unread()| && Low(hold, n) == LowValue(Unread()[..n]) by {
        if Valid() && n <= bits {
          HeldValue();
          LowValueSplit(Held(), n);
          assert Held()[..n] == Unread()[..n];
        }
      }
      assert Valid() && n <= 15 ==> Low(hold, n) == LowValue(Pad(Held())[..n]) by {
        if Valid() && n <= 15 {
          HeldValue();
          PadValue(Held(), n);
        }
      }
      Low(hold, n)
    }

    /** DROPBITS(n). */
    method DropBits(n: nat)
      requires Valid() && n <= bits
      modifies this
      ensures Valid() && input == old(input) && before == old(before) && next == old(next) && bits == old(bits) - n
      ensures Pos() == old(Pos()) + n && n <= old(|Unread()|) && Unread() == old(Unread())[n..]
    {
      hide LowValue, ByteBits;
      HeldValue();
      ghost var p, all := Pos(), All();
      LowValueSplit(Held(), n);
      assert Held()[n..] == all[p + n..p + bits];
      assert Unread()[n..] == all[p + n..];
      hold := Shr(hold, n);
      bits := bits - n;
    }

    /** NEEDBITS(n): pulls bytes while there are any. */
    method NeedBits(n: nat) returns (ok: bool)
      requires Valid() && n <= 15
      modifies this
      ensures Valid() && input == old(input) && before == old(before) && Pos() == old(Pos()) && Unread() == old(Unread())
      ensures ok <==> bits >= n
      ensures !ok ==> next == |input|
      ensures ok ==> bits < n + 8 || bits == old(bits)
      ensures next >= old(next)
    {
      while bits < n && next < |input|
        invariant Valid() && input == old(input) && before == old(before) && Pos() == old(Pos()) && Unread() == old(Unread())
        invariant bits < n + 8 || bits == old(bits)
        invariant next >= old(next)
        decreases |input| - next
      {
        PullByte();
      }
      ok := bits >= n;
    }

    /** The whole bytes that are held go back to the input (dep/zlib/inffast.c:309-313). */
    method ReturnUnused()
      requires Valid() && Pos() + 8 > 8 * |before|
      modifies this
      ensures Valid() && input == old(input) && before == old(before) && bits < 8 && next <= old(next)
      ensures Pos() == old(Pos()) && Unread() == old(Unread())
    {
      hide LowValue, ByteBits;
      HeldValue();
      ghost var p := Pos();
      var len := bits / 8;
      LowValueSplit(Held(), bits - 8 * len);
      assert Held()[..bits - 8 * len] == All()[p..p + bits - 8 * len];
      next := next - len;
      bits := bits - 8 * len;
      hold := Low(hold, bits);
    }
  }

  /** What is not used yet are the bits that are held and the bytes not taken. */
  lemma UnreadIs(i: BitIn)
    requires i.Valid()
    ensures i.next <= |i.input| && i.Unread() == i.Held() + ByteBits(i.input[i.next..])
  {
    hide ByteBits, LowValue;
    var a, k := i.before + i.input, |i.before| + i.next;
    ByteBitsAppend(a[..k], a[k..]);
    assert a == a[..k] + a[k..] && a[k..] == i.input[i.next..];
  }
}
