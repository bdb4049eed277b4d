/** make_crc_table, crc32 and crc32_little (dep/zlib/crc32.c): the table-driven CRC, a byte or a word at a time. */
module CrcTables {
  import opened Bits
  import opened CrcShift

  function ByteOf(v: bv8): byte {
    v as byte
  }

  lemma ByteBack(v: bv8)
    ensures ByteOf(v) as bv8 == v
  {
  }

  /** The lowest byte of a word, as an index. */
  function Index(w: bv32): byte {
    ByteOf((w & 0xff) as bv8)
  }

  function LowByte(w: bv32): bv32 {
    w & 0xff
  }

  lemma LowBack(w: bv32)
    ensures (w & 0xff) as bv8 as bv32 == LowByte(w)
  {
  }

  lemma WordIs(b: byte, v: bv8)
    requires b as bv8 == v
    ensures Word(b) == v as bv32
  {
  }

  lemma IndexWord(w: bv32)
    ensures Word(Index(w)) == LowByte(w)
  {
    var v := (w & 0xff) as bv8;
    LowBack(w);
    assert Index(w) == ByteOf(v);
    hide *;
    ByteBack(v);
    WordIs(ByteOf(v), v);
  }

  function Down8(w: bv32): bv32 {
    w >> 8
  }

  function Up8(w: bv32): bv32 {
    w << 8
  }

  function Rest(w: bv32): bv32 {
    w & 0xffff_ff00
  }

  /** A word is its lowest byte and the rest. */
  lemma LowAndRest(w: bv32)
    ensures w == Xor(LowByte(w), Rest(w)) && LowByte(Rest(w)) == 0 && Down8(Rest(w)) == Down8(w)
  {
  }

  lemma ZerosOut(w: bv32)
    requires LowByte(w) == 0
    ensures Shift(w, 8) == Down8(w)
  {
    hide Shift;
    EightZeros(w);
  }

  /** Eight zero bits: the lowest byte is looked up, the rest moves down. */
  lemma ByteStep(w: bv32)
    ensures Shift(w, 8) == Xor(Shift(LowByte(w), 8), Down8(w))
  {
    hide *;
    LowAndRest(w);
    ZerosOut(Rest(w));
    ShiftLinear(LowByte(w), Rest(w), 8);
  }

  /** crc_table[0..3]: table k holds the CRC register of each byte followed by k zero bytes. */
  ghost predicate Tables(t: seq<seq<bv32>>) {
    |t| == 4 && forall k :: 0 <= k < 4 ==> TableFor(t[k], 8 * (k + 1))
  }

  ghost predicate TableFor(t: seq<bv32>, n: nat) {
    |t| == 256 && forall b :: 0 <= b < 256 ==> t[b] == Shift(Word(b), n)
  }

  lemma TableAt(t: seq<bv32>, n: nat, w: bv32)
    requires TableFor(t, n)
    ensures |t| == 256 && t[Index(w)] == Shift(LowByte(w), n)
  {
    IndexWord(w);
    hide Shift, Word, LowByte, Index;
  }

  /** The byte n, through eight steps. */
  method EightSteps(n: byte) returns (c: bv32)
    ensures c == Shift(Word(n), 8)
  {
    hide *;
    c := Word(n);
    var k := 0;
    while k < 8
      invariant 0 <= k <= 8 && Shift(c, 8 - k) == Shift(Word(n), 8)
    {
      ShiftNext(c, 7 - k);
      BitIs(c);
      c := if Odd(c) then Xor(0xedb8_8320, Half(c)) else Half(c);
      k := k + 1;
    }
    ShiftNext(c, 0);
  }

  /** make_crc_table: the first table step by step, the others from the first. */
  method MakeTables() returns (t0: array<bv32>, t1: array<bv32>, t2: array<bv32>, t3: array<bv32>)
    ensures fresh(t0) && fresh(t1) && fresh(t2) && fresh(t3) && Tables([t0[..], t1[..], t2[..], t3[..]])
  {
    hide *;
    t0, t1, t2, t3 := new bv32[256], new bv32[256], new bv32[256], new bv32[256];
    var n := 0;
    while n < 256
      modifies t0
      invariant 0 <= n <= 256 && forall b :: 0 <= b < n ==> t0[b] == Shift(Word(b), 8)
    {
      t0[n] := EightSteps(n);
      n := n + 1;
    }
    TableFrom(t0[..], 8);
    FillTables(t0, t1, t2, t3);
    TablesFrom([t0[..], t1[..], t2[..], t3[..]]);
  }

  /** The tables for two, three and four bytes. */
  method FillTables(t0: array<bv32>, t1: array<bv32>, t2: array<bv32>, t3: array<bv32>)
    requires t0.Length == t1.Length == t2.Length == t3.Length == 256 && TableFor(t0[..], 8)
    requires t1 != t0 && t2 != t0 && t3 != t0 && t1 != t2 && t1 != t3 && t2 != t3
    modifies t1, t2, t3
    ensures TableFor(t1[..], 16) && TableFor(t2[..], 24) && TableFor(t3[..], 32)
  {
    hide *;
    var n := 0;
    while n < 256
      modifies t1, t2, t3
      invariant 0 <= n <= 256 && TableFor(t0[..], 8)
      invariant forall b :: 0 <= b < n ==> t1[b] == Shift(Word(b), 16)
      invariant forall b :: 0 <= b < n ==> t2[b] == Shift(Word(b), 24)
      invariant forall b :: 0 <= b < n ==> t3[b] == Shift(Word(b), 32)
    {
      TableIs(t0[..], 8, n);
      var c := t0[n];
      c := NextTable(t0, c, n, 8);
      t1[n] := c;
      c := NextTable(t0, c, n, 16);
      t2[n] := c;
      c := NextTable(t0, c, n, 24);
      t3[n] := c;
      n := n + 1;
    }
    TableFrom(t1[..], 16);
    TableFrom(t2[..], 24);
    TableFrom(t3[..], 32);
  }

  lemma TableIs(t: seq<bv32>, n: nat, b: byte)
    requires TableFor(t, n)
    ensures |t| == 256 && t[b] == Shift(Word(b), n)
  {
  }

  lemma TableFrom(t: seq<bv32>, n: nat)
    requires |t| == 256 && forall b :: 0 <= b < 256 ==> t[b] == Shift(Word(b), n)
    ensures TableFor(t, n)
  {
  }

  lemma TablesFrom(t: seq<seq<bv32>>)
    requires |t| == 4 && TableFor(t[0], 8) && TableFor(t[1], 16) && TableFor(t[2], 24) && TableFor(t[3], 32)
    ensures Tables(t)
  {
    hide TableFor;
  }

  /** c = crc_table[0][c & 0xff] ^ (c >> 8). */
  method NextTable(t0: array<bv32>, c: bv32, ghost n: byte, ghost m: nat) returns (d: bv32)
    requires TableFor(t0[..], 8) && c == Shift(Word(n), m)
    ensures d == Shift(Word(n), m + 8)
  {
    hide *;
    TableAt(t0[..], 8, c);
    ByteStep(c);
    ShiftSum(Word(n), m, 8);
    d := Xor(t0[Index(c)], Down8(c));
  }

  // A byte at a time.

  lemma NoHighByte(b: byte, c: bv32)
    ensures Down8(Xor(c, Word(b))) == Down8(c)
  {
    var w := Word(b);
    DownXor(c, w);
    DownLow(w);
    hide *;
    XorGroup(Down8(c), 0, 0);
  }

  lemma DownXor(a: bv32, b: bv32)
    ensures Down8(Xor(a, b)) == Xor(Down8(a), Down8(b))
  {
  }

  lemma DownLow(w: bv32)
    requires w & 0xff == w
    ensures Down8(w) == 0
  {
  }

  lemma UpdateIs(c: bv32, b: byte)
    ensures Update(c, b) == Shift(Xor(c, Word(b)), 8)
  {
  }

  /** DO1. */
  method OneByte(t0: array<bv32>, c: bv32, b: byte) returns (d: bv32)
    requires TableFor(t0[..], 8)
    ensures d == Update(c, b)
  {
    hide *;
    var x := Xor(c, Word(b));
    TableAt(t0[..], 8, x);
    ByteStep(x);
    NoHighByte(b, c);
    UpdateIs(c, b);
    d := Xor(t0[Index(x)], Down8(c));
  }

  lemma NextByte(c: bv32, buf: seq<byte>, k: nat)
    requires k < |buf|
    ensures Register(c, buf[..k + 1]) == Update(Register(c, buf[..k]), buf[k])
  {
    assert buf[..k + 1] == buf[..k] + [buf[k]];
    RegisterOne(c, buf[..k], buf[k]);
  }

  /** crc32, eight bytes and then one byte at a time. */
  method Crc32(t0: array<bv32>, crc: bv32, buf: array<byte>, len0: nat) returns (r: bv32)
    requires TableFor(t0[..], 8) && len0 <= buf.Length
    ensures r == Crc(crc, buf[..len0])
  {
    hide *;
    ghost var data := buf[..len0];
    var c, len := Xor(crc, 0xffff_ffff), len0;
    RegisterOne(c, [], 0);
    ghost var c0 := c;
    while len >= 8
      invariant 0 <= len <= len0 && c == Register(c0, data[..len0 - len])
    {
      var k := 0;
      ghost var at := len0 - len;
      while k < 8
        invariant 0 <= k <= 8 && c == Register(c0, data[..at + k])
      {
        NextByte(c0, data, at + k);
        assert buf[at + k] == data[at + k];
        c := OneByte(t0, c, buf[len0 - len + k]);
        k := k + 1;
      }
      len := len - 8;
    }
    while len > 0
      invariant 0 <= len <= len0 && c == Register(c0, data[..len0 - len])
    {
      NextByte(c0, data, len0 - len);
      assert buf[len0 - len] == data[len0 - len];
      c := OneByte(t0, c, buf[len0 - len]);
      len := len - 1;
    }
    assert data[..len0] == data;
    CrcIs(crc, data);
    OnesIs();
    r := Xor(c, 0xffff_ffff);
  }

  lemma OnesIs()
    ensures ONES == 0xffff_ffff
  {
  }

  // Four bytes at a time.

  /** The word that four bytes in memory are on a little-endian machine. */
  function LittleWord(b0: byte, b1: byte, b2: byte, b3: byte): bv32 {
    Xor(Word(b0), Up8(Xor(Word(b1), Up8(Xor(Word(b2), Up8(Word(b3)))))))
  }

  lemma UpDown(w: bv32)
    ensures LowByte(Up8(w)) == 0 && Down8(Up8(w)) == w & 0xff_ffff
  {
  }

  lemma Short(w: bv32)
    requires w & 0xff_ffff == w
    ensures Shift(Up8(w), 8) == w
  {
    hide Shift;
    UpDown(w);
    ZerosOut(Up8(w));
  }

  lemma ShortWords(b1: byte, b2: byte, b3: byte)
    ensures var x3 := Word(b3);
            var x2 := Xor(Word(b2), Up8(x3));
            var x1 := Xor(Word(b1), Up8(x2));
            x3 & 0xff_ffff == x3 && x2 & 0xff_ffff == x2 && x1 & 0xff_ffff == x1
  {
    hide Word;
    ThreeBytes(Word(b1), Word(b2), Word(b3));
  }

  lemma ThreeBytes(a: bv32, b: bv32, c: bv32)
    requires a & 0xff == a && b & 0xff == b && c & 0xff == c
    ensures c & 0xff_ffff == c && Xor(b, Up8(c)) & 0xff_ffff == Xor(b, Up8(c))
    ensures Xor(a, Up8(Xor(b, Up8(c)))) & 0xff_ffff == Xor(a, Up8(Xor(b, Up8(c))))
  {
  }

  /** A byte now and more behind it: eight bits on, only what is behind it is left to enter. */
  lemma OneOfFour(c: bv32, b: byte, x: bv32)
    requires x & 0xff_ffff == x
    ensures Shift(Xor(c, Xor(Word(b), Up8(x))), 8) == Xor(Update(c, b), x)
  {
    hide *;
    Short(x);
    XorGroup(c, Word(b), Up8(x));
    ShiftLinear(Xor(c, Word(b)), Up8(x), 8);
    UpdateIs(c, b);
  }

  /** Four bytes at once: the word enters, and 32 zero bits. */
  lemma FourBytes(c: bv32, b0: byte, b1: byte, b2: byte, b3: byte)
    ensures Shift(Xor(c, LittleWord(b0, b1, b2, b3)), 32) == Update(Update(Update(Update(c, b0), b1), b2), b3)
  {
    LittleIs(b0, b1, b2, b3);
    ShortWords(b1, b2, b3);
    hide *;
    var x3 := Word(b3);
    var x2 := Xor(Word(b2), Up8(x3));
    var x1 := Xor(Word(b1), Up8(x2));
    var w := Xor(c, LittleWord(b0, b1, b2, b3));
    OneOfFour(c, b0, x1);
    OneOfFour(Update(c, b0), b1, x2);
    OneOfFour(Update(Update(c, b0), b1), b2, x3);
    UpdateIs(Update(Update(Update(c, b0), b1), b2), b3);
    ShiftSum(w, 8, 24);
    ShiftSum(Shift(w, 8), 8, 16);
    ShiftSum(Shift(Shift(w, 8), 8), 8, 8);
  }

  lemma LittleIs(b0: byte, b1: byte, b2: byte, b3: byte)
    ensures LittleWord(b0, b1, b2, b3) == Xor(Word(b0), Up8(Xor(Word(b1), Up8(Xor(Word(b2), Up8(Word(b3)))))))
  {
  }

  /** n more zero bits for the lowest byte than for what is above it. */
  lemma ByteAndRest(w: bv32, n: nat)
    ensures Shift(w, n + 8) == Xor(Shift(LowByte(w), n + 8), Shift(Down8(w), n))
  {
    hide *;
    ByteStep(w);
    ShiftSum(w, 8, n);
    ShiftSum(LowByte(w), 8, n);
    ShiftLinear(Shift(LowByte(w), 8), Down8(w), n);
    assert n + 8 == 8 + n;
  }

  lemma DownMore(w: bv32)
    ensures Down8(w) == w >> 8 && Down8(Down8(w)) == w >> 16 && Down8(Down8(Down8(w))) == w >> 24
    ensures LowByte(w >> 24) == w >> 24 && Down8(Down8(Down8(Down8(w)))) == 0
  {
  }

  /** DOLIT4. */
  method FourAtOnce(t0: array<bv32>, t1: array<bv32>, t2: array<bv32>, t3: array<bv32>, c: bv32, b0: byte, b1: byte, b2: byte, b3: byte)
    returns (d: bv32)
    requires Tables([t0[..], t1[..], t2[..], t3[..]])
    ensures d == Update(Update(Update(Update(c, b0), b1), b2), b3)
  {
    hide *;
    TablesAre(t0[..], t1[..], t2[..], t3[..]);
    FourBytes(c, b0, b1, b2, b3);
    var w := Xor(c, LittleWord(b0, b1, b2, b3));
    DownMore(w);
    ByteAndRest(w, 24);
    ByteAndRest(w >> 8, 16);
    ByteAndRest(w >> 16, 8);
    ByteAndRest(w >> 24, 0);
    ShiftNext(0, 0);
    TableAt(t3[..], 32, w);
    TableAt(t2[..], 24, w >> 8);
    TableAt(t1[..], 16, w >> 16);
    TableAt(t0[..], 8, w >> 24);
    d := Xor(Xor(Xor(t3[Index(w)], t2[Index(w >> 8)]), t1[Index(w >> 16)]), t0[Index(w >> 24)]);
    var p, q, r, s := Shift(LowByte(w), 32), Shift(LowByte(w >> 8), 24), Shift(LowByte(w >> 16), 16), Shift(LowByte(w >> 24), 8);
    XorGroup(p, q, r);
    XorGroup(Xor(p, q), r, s);
    XorGroup(p, q, Xor(r, s));
    XorGroup(s, 0, 0);
  }

  lemma TablesAre(t0: seq<bv32>, t1: seq<bv32>, t2: seq<bv32>, t3: seq<bv32>)
    requires Tables([t0, t1, t2, t3])
    ensures TableFor(t0, 8) && TableFor(t1, 16) && TableFor(t2, 24) && TableFor(t3, 32)
  {
    hide TableFor;
    var t := [t0, t1, t2, t3];
    assert t[0] == t0 && t[1] == t1 && t[2] == t2 && t[3] == t3;
  }

  lemma FourMore(c: bv32, buf: seq<byte>, k: nat)
    requires k + 4 <= |buf|
    ensures Register(c, buf[..k + 4]) == Update(Update(Update(Update(Register(c, buf[..k]), buf[k]), buf[k + 1]), buf[k + 2]), buf[k + 3])
  {
    hide *;
    NextByte(c, buf, k);
    NextByte(c, buf, k + 1);
    NextByte(c, buf, k + 2);
    NextByte(c, buf, k + 3);
  }

  /** c = ~c. */
  lemma Complement(c: bv32)
    ensures !c == Xor(c, ONES)
  {
  }

  /**
   crc32_little. Wherever the buffer lies in memory, bytes up to the first word boundary, words, and the bytes left over give the
   CRC as it is defined.
   */
  method Crc32Little(t0: array<bv32>, t1: array<bv32>, t2: array<bv32>, t3: array<bv32>, crc: bv32, buf: array<byte>, len0: nat,
                     address: nat)
    returns (r: bv32)
    requires Tables([t0[..], t1[..], t2[..], t3[..]]) && len0 <= buf.Length
    ensures r == Crc(crc, buf[..len0])
  {
    hide *;
    ghost var data := buf[..len0];
    TablesAre(t0[..], t1[..], t2[..], t3[..]);
    Complement(crc);
    var c, len, at := !crc, len0, 0;
    ghost var c0 := c;
    RegisterOne(c0, [], 0);
    while len > 0 && (address + at) % 4 != 0
      invariant 0 <= len <= len0 && at == len0 - len && c == Register(c0, data[..at])
    {
      NextByte(c0, data, at);
      assert buf[at] == data[at];
      c := OneByte(t0, c, buf[at]);
      at, len := at + 1, len - 1;
    }
    while len >= 32
      invariant 0 <= len <= len0 && at == len0 - len && c == Register(c0, data[..at])
    {
      var k := 0;
      ghost var start := at;
      while k < 8
        invariant 0 <= k <= 8 && at == start + 4 * k && c == Register(c0, data[..at])
      {
        FourMore(c0, data, at);
        assert buf[at] == data[at] && buf[at + 1] == data[at + 1] && buf[at + 2] == data[at + 2] && buf[at + 3] == data[at + 3];
        c := FourAtOnce(t0, t1, t2, t3, c, buf[at], buf[at + 1], buf[at + 2], buf[at + 3]);
        at, k := at + 4, k + 1;
      }
      len := len - 32;
    }
    while len >= 4
      invariant 0 <= len <= len0 && at == len0 - len && c == Register(c0, data[..at])
    {
      FourMore(c0, data, at);
      assert buf[at] == data[at] && buf[at + 1] == data[at + 1] && buf[at + 2] == data[at + 2] && buf[at + 3] == data[at + 3];
      c := FourAtOnce(t0, t1, t2, t3, c, buf[at], buf[at + 1], buf[at + 2], buf[at + 3]);
      at, len := at + 4, len - 4;
    }
    while len > 0
      invariant 0 <= len <= len0 && at == len0 - len && c == Register(c0, data[..at])
    {
      NextByte(c0, data, at);
      assert buf[at] == data[at];
      c := OneByte(t0, c, buf[at]);
      at, len := at + 1, len - 1;
    }
    assert data[..len0] == data;
    CrcIs(crc, data);
    Complement(c);
    r := !c;
  }
}
