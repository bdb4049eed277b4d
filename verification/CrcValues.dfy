/** What the block CRC is, in numbers: the register bit by bit, entries of the table, and its check value. */
module CrcValues {
  import opened Bits
  import opened BlockCrc

  /** One step of division. */
  function Step(c: bv32): bv32 {
    if c & 0x8000_0000 != 0 then (c << 1) ^ 0x04c1_1db7 else c << 1
  }

  function Xor(a: bv32, b: bv32): bv32 {
    a ^ b
  }

  function Double(c: bv32): bv32 {
    c << 1
  }

  predicate Top(c: bv32) {
    c & 0x8000_0000 != 0
  }

  lemma StepIs(c: bv32)
    ensures Step(c) == if Top(c) then Xor(Double(c), 0x04c1_1db7) else Double(c)
  {
  }

  lemma DoubleXor(a: bv32, b: bv32)
    ensures Double(Xor(a, b)) == Xor(Double(a), Double(b))
  {
  }

  lemma XorThree(a: bv32, b: bv32, c: bv32)
    ensures Xor(Xor(a, b), c) == Xor(Xor(a, c), b)
  {
    hide *;
    XorGroup(a, b, c);
    XorGroup(a, c, b);
    XorTurned(b, c);
  }

  lemma XorGroup(a: bv32, b: bv32, c: bv32)
    ensures Xor(Xor(a, b), c) == Xor(a, Xor(b, c))
  {
  }

  lemma TopXor(h: bv32, l: bv32)
    requires !Top(l)
    ensures Top(Xor(h, l)) == Top(h)
  {
    assert (h ^ l) & 0x8000_0000 == (h & 0x8000_0000) ^ (l & 0x8000_0000);
  }

  /** Without a top bit, what stands beside the number that is divided only moves up. */
  lemma StepBeside(h: bv32, l: bv32)
    requires !Top(l)
    ensures Step(Xor(h, l)) == Xor(Step(h), Double(l))
  {
    hide *;
    StepIs(h);
    StepIs(Xor(h, l));
    TopXor(h, l);
    DoubleXor(h, l);
    XorThree(Double(h), Double(l), 0x04c1_1db7);
  }

  /** No top bit goes out in n steps. */
  predicate Stays(l: bv32, n: nat)
    decreases n
  {
    n > 0 ==> !Top(l) && Stays(Double(l), n - 1)
  }

  function MovedUp(l: bv32, n: nat): bv32
    decreases n
  {
    if n == 0 then l else MovedUp(Double(l), n - 1)
  }

  lemma {:induction false} DivideBeside(h: bv32, l: bv32, n: nat)
    requires Stays(l, n)
    ensures Divide(Xor(h, l), n) == Xor(Divide(h, n), MovedUp(l, n))
    decreases n
  {
    if n > 0 {
      StaysIs(l, n);
      hide *;
      StepBeside(h, l);
      DivideStep(h, n);
      DivideStep(Xor(h, l), n);
      DivideBeside(Step(h), Double(l), n - 1);
    }
  }

  lemma StaysIs(l: bv32, n: nat)
    requires n > 0
    ensures Stays(l, n) == (!Top(l) && Stays(Double(l), n - 1)) && MovedUp(l, n) == MovedUp(Double(l), n - 1)
  {
  }

  lemma DivideStep(c: bv32, n: nat)
    requires n > 0
    ensures Divide(c, n) == Divide(Step(c), n - 1)
  {
  }

  function Up8(c: bv32): bv32 {
    c << 8
  }

  function Up24(c: bv32): bv32 {
    c << 24
  }

  /** The lower three bytes of the register. */
  function Rest(c: bv32): bv32 {
    c & 0x00ff_ffff
  }

  /** Where the table is looked up. */
  function Index(crc: bv32, b: bv32): bv32 {
    (crc >> 24) ^ b
  }

  lemma RestSmall(c: bv32)
    ensures Rest(c) < 0x100_0000
  {
  }

  lemma RestUp(c: bv32)
    ensures Up8(Rest(c)) == Up8(c)
  {
  }

  lemma DoubleBelow(l: bv32)
    ensures l < 0x100_0000 ==> Double(l) < 0x200_0000
    ensures l < 0x200_0000 ==> Double(l) < 0x400_0000
    ensures l < 0x400_0000 ==> Double(l) < 0x800_0000
    ensures l < 0x800_0000 ==> Double(l) < 0x1000_0000
    ensures l < 0x1000_0000 ==> Double(l) < 0x2000_0000
    ensures l < 0x2000_0000 ==> Double(l) < 0x4000_0000
    ensures l < 0x4000_0000 ==> Double(l) < 0x8000_0000
  {
  }

  lemma NoTop(l: bv32)
    ensures l < 0x8000_0000 ==> !Top(l)
    ensures l < 0x100_0000 || l < 0x200_0000 || l < 0x400_0000 || l < 0x800_0000 || l < 0x1000_0000 || l < 0x2000_0000 || l < 0x4000_0000
            ==> l < 0x8000_0000
  {
  }

  lemma EightDoubles(l: bv32)
    ensures Double(Double(Double(Double(Double(Double(Double(Double(l)))))))) == Up8(l)
  {
  }

  lemma EightUp(c: bv32)
    ensures Stays(Rest(c), 8) && MovedUp(Rest(c), 8) == Up8(c)
  {
    hide *;
    RestSmall(c);
    RestUp(c);
    var l := Rest(c);
    DoubleBelow(l);
    NoTop(l);
    var l1 := Double(l);
    DoubleBelow(l1);
    NoTop(l1);
    var l2 := Double(l1);
    DoubleBelow(l2);
    NoTop(l2);
    var l3 := Double(l2);
    DoubleBelow(l3);
    NoTop(l3);
    var l4 := Double(l3);
    DoubleBelow(l4);
    NoTop(l4);
    var l5 := Double(l4);
    DoubleBelow(l5);
    NoTop(l5);
    var l6 := Double(l5);
    DoubleBelow(l6);
    NoTop(l6);
    NoTop(Double(l6));
    EightDoubles(l);
    StaysNone(Double(Double(l6)));
    StaysIs(Double(l6), 1);
    StaysIs(l6, 2);
    StaysIs(l5, 3);
    StaysIs(l4, 4);
    StaysIs(l3, 5);
    StaysIs(l2, 6);
    StaysIs(l1, 7);
    StaysIs(l, 8);
  }

  lemma StaysNone(l: bv32)
    ensures Stays(l, 0) && MovedUp(l, 0) == l
  {
  }

  /** The parts of the register: its top byte with the byte that enters, and the rest. */
  lemma Parted(crc: bv32, b: bv32)
    ensures Xor(crc, Up24(b)) == Xor(Up24(Index(crc, b)), Rest(crc))
  {
    hide *;
    IndexUp(crc, b);
    TopAndRest(crc);
    XorThree(Up24(Down24(crc)), Up24(b), Rest(crc));
  }

  function Down24(c: bv32): bv32 {
    c >> 24
  }

  lemma IndexUp(crc: bv32, b: bv32)
    ensures Up24(Index(crc, b)) == Xor(Up24(Down24(crc)), Up24(b))
  {
    var a := crc >> 24;
    assert (a ^ b) << 24 == (a << 24) ^ (b << 24);
  }

  lemma TopAndRest(c: bv32)
    ensures Xor(Up24(Down24(c)), Rest(c)) == c
  {
  }

  lemma XorTurned(a: bv32, b: bv32)
    ensures Xor(a, b) == Xor(b, a)
  {
  }

  lemma UpdateIs(crc: bv32, b: byte)
    ensures Update(crc, b) == Xor(Up8(crc), Divide(Up24(Index(crc, Word(b))), 8))
  {
    UpdateByTable(crc, b);
    hide *;
    TableIs(Index(crc, Word(b)));
  }

  lemma UpdateByTable(crc: bv32, b: byte)
    ensures Update(crc, b) == Xor(Up8(crc), TableEntry(Index(crc, Word(b))))
  {
    hide TableEntry, Word;
  }

  lemma TableIs(i: bv32)
    ensures TableEntry(i) == Divide(Up24(i), 8)
  {
    hide Divide;
  }

  /** BZ_UPDATE_CRC bit by bit: the byte is added to the top of the register, and eight steps are done. */
  lemma UpdateIsDivision(crc: bv32, b: byte)
    ensures Update(crc, b) == Divide(Xor(crc, Up24(Word(b))), 8)
    ensures Update(crc, b) == Step(Step(Step(Step(Step(Step(Step(Step(Xor(crc, Up24(Word(b)))))))))))
  {
    hide *;
    UpdateIs(crc, b);
    var x := Word(b);
    Parted(crc, x);
    EightUp(crc);
    DivideBeside(Up24(Index(crc, x)), Rest(crc), 8);
    XorTurned(Up8(crc), Divide(Up24(Index(crc, x)), 8));
    EightSteps(Xor(crc, Up24(x)));
  }

  lemma EightSteps(c: bv32)
    ensures Divide(c, 8) == Step(Step(Step(Step(Step(Step(Step(Step(c))))))))
  {
    hide *;
    DivideStep(c, 8);
    var d := Step(c);
    DivideStep(d, 7);
    DivideStep(Step(d), 6);
    DivideStep(Step(Step(d)), 5);
    var e := Step(Step(Step(d)));
    DivideStep(e, 4);
    DivideStep(Step(e), 3);
    DivideStep(Step(Step(e)), 2);
    DivideStep(Step(Step(Step(e))), 1);
    DivideNone(Step(Step(Step(Step(e)))));
  }

  /** A step: the top bit goes out and, if it was set, 0x04c11db7 is added. */
  lemma StepInNumbers(c: bv32)
    ensures Step(c) == if c >= 0x8000_0000 then (c << 1) ^ 0x04c1_1db7 else c << 1
    ensures forall b: bv32 :: Xor(c, Up24(b)) == c ^ (b << 24)
  {
  }

  lemma DivideNone(c: bv32)
    ensures Divide(c, 0) == c
  {
  }

  /** Entries of BZ2_crc32Table (dep/bzip2/crctable.c:35-98); the others are sums of these. */
  lemma TableEntries()
    ensures TableEntry(0) == 0 && TableEntry(1) == 0x04c1_1db7 && TableEntry(2) == 0x0982_3b6e && TableEntry(4) == 0x1304_76dc
    ensures TableEntry(8) == 0x2608_edb8 && TableEntry(16) == 0x4c11_db70 && TableEntry(32) == 0x9823_b6e0
    ensures TableEntry(64) == 0x3486_7077
  {
  }

  lemma LastEntries()
    ensures TableEntry(128) == 0x690c_e0ee
  {
  }

  /** The digits from 1 to 9, in ASCII. */
  const DIGITS: seq<byte> := [0x31, 0x32, 0x33, 0x34, 0x35, 0x36, 0x37, 0x38, 0x39]

  lemma FirstDigits()
    ensures Update(0xffff_ffff, 0x31) == 0x9efb_cf93
    ensures Update(0x9efb_cf93, 0x32) == 0x3fec_5e6a
    ensures Update(0x3fec_5e6a, 0x33) == 0xd952_f164
    ensures Update(0xd952_f164, 0x34) == 0xa695_c4aa
  {
  }

  lemma LastDigits()
    ensures Update(0xa695_c4aa, 0x35) == 0xbd9a_b747
    ensures Update(0xbd9a_b747, 0x36) == 0xd8f0_6c8f
    ensures Update(0xd8f0_6c8f, 0x37) == 0x0d8a_14c4
    ensures Update(0x0d8a_14c4, 0x38) == 0x49e3_c2fb
    ensures Update(0x49e3_c2fb, 0x39) == 0x0376_e6e7
  {
  }

  lemma {:induction false} RegisterDigits()
    ensures Register(0xffff_ffff, DIGITS) == 0x0376_e6e7
  {
    hide Update, Register;
    FirstDigits();
    LastDigits();
    RegisterOne(0xffff_ffff, [], 0x31);
    RegisterOne(0xffff_ffff, [0x31], 0x32);
    RegisterOne(0xffff_ffff, [0x31, 0x32], 0x33);
    RegisterOne(0xffff_ffff, [0x31, 0x32, 0x33], 0x34);
    RegisterOne(0xffff_ffff, [0x31, 0x32, 0x33, 0x34], 0x35);
    RegisterOne(0xffff_ffff, [0x31, 0x32, 0x33, 0x34, 0x35], 0x36);
    RegisterOne(0xffff_ffff, [0x31, 0x32, 0x33, 0x34, 0x35, 0x36], 0x37);
    RegisterOne(0xffff_ffff, [0x31, 0x32, 0x33, 0x34, 0x35, 0x36, 0x37], 0x38);
    RegisterOne(0xffff_ffff, [0x31, 0x32, 0x33, 0x34, 0x35, 0x36, 0x37, 0x38], 0x39);
    assert [] + [0x31] == [0x31];
    assert [0x31] + [0x32] == [0x31, 0x32];
    assert [0x31, 0x32] + [0x33] == [0x31, 0x32, 0x33];
    assert [0x31, 0x32, 0x33] + [0x34] == [0x31, 0x32, 0x33, 0x34];
    assert [0x31, 0x32, 0x33, 0x34] + [0x35] == [0x31, 0x32, 0x33, 0x34, 0x35];
    assert [0x31, 0x32, 0x33, 0x34, 0x35] + [0x36] == [0x31, 0x32, 0x33, 0x34, 0x35, 0x36];
    assert [0x31, 0x32, 0x33, 0x34, 0x35, 0x36] + [0x37] == [0x31, 0x32, 0x33, 0x34, 0x35, 0x36, 0x37];
    assert [0x31, 0x32, 0x33, 0x34, 0x35, 0x36, 0x37] + [0x38] == [0x31, 0x32, 0x33, 0x34, 0x35, 0x36, 0x37, 0x38];
    assert [0x31, 0x32, 0x33, 0x34, 0x35, 0x36, 0x37, 0x38] + [0x39] == [0x31, 0x32, 0x33, 0x34, 0x35, 0x36, 0x37, 0x38, 0x39];
  }

  /** The check value of the CRC: the register begins with all bits set and is complemented at the end. */
  lemma CheckValue()
    ensures Initial() == 0xffff_ffff && Checksum(DIGITS) == 0xfc89_1918
  {
    RegisterDigits();
    hide Register, DIGITS;
  }

  lemma Complemented(data: seq<byte>)
    ensures Checksum(data) == !Register(0xffff_ffff, data)
  {
    hide Register;
  }

  /** The combined CRC is rotated left by one bit, the top bit coming back at the bottom, and that of the block is added. */
  lemma CombineRotates(combined: bv32, crc: bv32)
    ensures Combine(combined, crc) == (if combined >= 0x8000_0000 then (combined << 1) | 1 else combined << 1) ^ crc
  {
    BackAtBottom(combined);
    if combined < 0x8000_0000 { NothingAdded(combined << 1); }
  }

  lemma BackAtBottom(c: bv32)
    ensures c >> 31 == if c >= 0x8000_0000 then 1 else 0
  {
  }

  lemma NothingAdded(c: bv32)
    ensures c | 0 == c
  {
  }
}
