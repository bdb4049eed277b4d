/** The bit input of the decompressor: GET_BITS over bsBuff and bsLive (dep/bzip2/decompress.c). */
module BitReader {
  import opened Bits

  /** Why reading stops: the bits have run out, they are corrupt, or there are more selectors than the decoder has places for. */
  datatype Why = NeedInput | DataError | TooMany

  /** The outcome of reading something off the front of a bit string. */
  datatype Read<+T> = Done(value: T, rest: seq<bool>) | Stop(why: Why)

  /** How a decoding step ended; Waiting is the BZ_OK return with all input used up. */
  datatype Status = Ok | Waiting | Failed(why: Why)

  /**
   What a decoding step is to achieve that began where reading on would have given was, whatever bits the future holds.
   Once it is done with value v, was is that value with the bits rest behind it. If it waits, reading on will give now, and
   this is still the same, while the bits there are so far do not suffice.
   */
  ghost predicate Resumes<T(!new)>(st: Status, v: T, rest: seq<bool>, was: Read<T>, now: Read<T>, sofar: Read<T>) {
    match st
    case Ok => was == Done(v, rest)
    case Waiting => was == now && sofar == Stop(NeedInput)
    case Failed(why) => was == Stop(why) && why != NeedInput
  }

  lemma ResumesIs<T(!new)>(st: Status, v: T, rest: seq<bool>, was: Read<T>, now: Read<T>, sofar: Read<T>)
    ensures Resumes(st, v, rest, was, now, sofar) <==>
              && (st == Ok ==> was == Done(v, rest))
              && (st == Waiting ==> was == now && sofar == Stop(NeedInput))
              && (st.Failed? ==> was == Stop(st.why) && st.why != NeedInput)
  {
  }

  function BytesBits(bytes: seq<byte>): (bits: seq<bool>)
    ensures |bits| == 8 * |bytes|
  {
    if bytes == [] then [] else BitsOf(8, bytes[0]) + BytesBits(bytes[1..])
  }

  /** A list read behind p. */
  function Prepend<T>(p: seq<T>, r: Read<seq<T>>): (q: Read<seq<T>>)
    ensures r.Done? <==> q.Done?
    ensures r.Done? ==> q.value == p + r.value && q.rest == r.rest
    ensures !r.Done? ==> q == r
  {
    match r
    case Done(v, rest) => Done(p + v, rest)
    case Stop(why) => Stop(why)
  }

  lemma PrependPrepend<T>(p: seq<T>, q: seq<T>, r: Read<seq<T>>)
    ensures Prepend(p, Prepend(q, r)) == Prepend(p + q, r)
    ensures Prepend([], r) == r
  {
    if r.Done? {
      assert p + (q + r.value) == (p + q) + r.value && [] + r.value == r.value;
    }
  }

  class Reader {
    var bsBuff: int
    var bsLive: int
    /** The input bytes there are so far, from next_in on; avail_in is their number. */
    var input: seq<byte>

    ghost predicate Valid()
      reads this
    {
      0 <= bsBuff < 0x1_0000_0000 && 0 <= bsLive < 32
    }

    /** The bits not read yet: those left in the buffer and those of the remaining input. */
    ghost function Unread(): seq<bool>
      requires Valid()
      reads this
    {
      BitsOf(bsLive, bsBuff) + BytesBits(input)
    }

    constructor ()
      ensures Valid() && Unread() == [] && input == []
    {
      bsBuff, bsLive, input := 0, 0, [];
      new;
      assert BitsOf(0, 0) + BytesBits([]) == [];
    }

    /** The caller provides more input. */
    method Supply(bytes: seq<byte>)
      requires Valid()
      modifies this`input
      ensures Valid() && Unread() == old(Unread()) + BytesBits(bytes) && input == old(input) + bytes
    {
      BytesJoin(input, bytes);
      assert BitsOf(bsLive, bsBuff) + (BytesBits(input) + BytesBits(bytes)) == Unread() + BytesBits(bytes);
      input := input + bytes;
    }

    /** The bits not read yet, and those that will come later. */
    ghost function Ahead(more: seq<bool>): seq<bool>
      requires Valid()
      reads this
    {
      Unread() + more
    }

    /**
     GET_BITS: the next n bits as a number, whatever comes after them. If there are too few so far, all input is taken into
     the buffer, and it can be tried again when there is more.
     */
    method GetBits(n: nat, ghost more: seq<bool>) returns (ok: bool, v: nat)
      requires Valid() && n <= 24
      modifies this
      ensures Valid() && ok == (n <= |old(Unread())|)
      ensures ok ==>
                && n <= |old(Ahead(more))| && v == Value(old(Ahead(more))[..n]) && v < Pow2(n)
                && Ahead(more) == old(Ahead(more))[n..] && |Unread()| == |old(Unread())| - n
      ensures !ok ==> Unread() == old(Unread()) && Ahead(more) == old(Ahead(more)) && input == [] && v == 0
    {
      hide *;
      UnreadIs();
      ghost var bits := Unread();
      ok := Fill(n);
      UnreadIs();
      if !ok { return false, 0; }
      TakeBits(bsLive, bsBuff, n, BytesBits(input));
      v := Low(Shr(bsBuff, bsLive - n), n);
      bsLive := bsLive - n;
      UnreadIs();
      FrontOf(bits, more, n);
    }

    lemma UnreadIs()
      ensures Valid() <==> 0 <= bsBuff < 0x1_0000_0000 && 0 <= bsLive < 32
      ensures Valid() ==> Unread() == BitsOf(bsLive, bsBuff) + BytesBits(input)
                          && forall more: seq<bool> :: Ahead(more) == Unread() + more
    {
    }

    lemma AheadMore(bits: seq<bool>, more: seq<bool>)
      requires Valid()
      ensures Ahead(bits + more) == Unread() + bits + more && Ahead(more) == Unread() + more
    {
      assert Unread() + (bits + more) == Unread() + bits + more;
    }

    /** Bytes are taken in until n bits are there. */
    method Fill(n: nat) returns (ok: bool)
      requires Valid() && n <= 24
      modifies this
      ensures Valid() && Unread() == old(Unread()) && ok == (n <= |Unread()|)
      ensures if ok then bsLive >= n else input == []
    {
      while bsLive < n
        invariant Valid() && Unread() == old(Unread())
        decreases n - bsLive
      {
        if input == [] {
          assert |Unread()| == bsLive;
          return false;
        }
        TakeByte(bsLive, bsBuff, input);
        WordSize();
        bsBuff := Low(bsBuff * 256 + input[0], 32);
        bsLive := bsLive + 8;
        input := input[1..];
      }
      ok := true;
    }

    /** GET_BIT. */
    method GetBit(ghost more: seq<bool>) returns (ok: bool, b: bool)
      requires Valid()
      modifies this
      ensures Valid() && ok == (old(Unread()) != [])
      ensures ok ==>
                && old(Ahead(more)) != [] && b == old(Ahead(more))[0] && Ahead(more) == old(Ahead(more))[1..]
                && |Unread()| == |old(Unread())| - 1
      ensures !ok ==> Unread() == old(Unread()) && Ahead(more) == old(Ahead(more)) && input == []
    {
      ghost var bits := Ahead(more);
      var v;
      ok, v := GetBits(1, more);
      if ok { OneBitValue(bits); }
      b := v == 1;
    }
  }

  lemma FrontOf(bits: seq<bool>, more: seq<bool>, n: nat)
    requires n <= |bits|
    ensures (bits + more)[..n] == bits[..n] && (bits + more)[n..] == bits[n..] + more
  {
  }

  lemma {:induction false} BytesJoin(a: seq<byte>, b: seq<byte>)
    ensures BytesBits(a + b) == BytesBits(a) + BytesBits(b)
  {
    if a == [] {
      assert a + b == b && [] + BytesBits(b) == BytesBits(b);
    } else {
      BytesJoin(a[1..], b);
      assert (a + b)[1..] == a[1..] + b;
      assert BitsOf(8, a[0]) + (BytesBits(a[1..]) + BytesBits(b)) == BitsOf(8, a[0]) + BytesBits(a[1..]) + BytesBits(b);
    }
  }

  lemma OneBitValue(bits: seq<bool>)
    requires bits != []
    ensures Value(bits[..1]) == BitOf(bits[0])
  {
    assert bits[..1][..0] == [] && bits[..1][0] == bits[0];
  }

  lemma TakeByte(live: nat, buff: nat, input: seq<byte>)
    requires input != [] && live <= 24
    ensures BitsOf(live + 8, Low(buff * 256 + input[0], 32)) + BytesBits(input[1..])
         == BitsOf(live, buff) + BytesBits(input)
  {
    var x := buff * 256 + input[0];
    BitsOfLow(live + 8, 32, x);
    BitsSplit(live, 8, x);
    ShiftByte(buff, input[0]);
    assert BitsOf(live, buff) + (BitsOf(8, input[0]) + BytesBits(input[1..]))
        == (BitsOf(live, buff) + BitsOf(8, input[0])) + BytesBits(input[1..]);
  }

  lemma ShiftByte(buff: nat, b: byte)
    ensures Shr(buff * 256 + b, 8) == buff && BitsOf(8, buff * 256 + b) == BitsOf(8, b)
  {
    ShiftedField(8, buff, b);
    assert Pow2(8) == 256 by { WordSize(); }
  }

  lemma TakeBits(live: nat, buff: nat, n: nat, more: seq<bool>)
    requires n <= live
    ensures var bits := BitsOf(live, buff) + more;
            && Value(bits[..n]) == Low(Shr(buff, live - n), n)
            && bits[n..] == BitsOf(live - n, buff) + more
  {
    BitsSplit(n, live - n, buff);
    ValueOfLow(n, Shr(buff, live - n));
    var bits := BitsOf(live, buff) + more;
    assert bits[..n] == BitsOf(n, Shr(buff, live - n));
  }
}
