/** The block CRC of bzip2 (dep/bzip2/bzlib_private.h): 32 bits, most significant bit first, polynomial 0x04c11db7. */
module BlockCrc {
  import opened Bits

  /** n steps of polynomial division. */
  function Divide(c: bv32, n: nat): bv32
    decreases n
  {
    if n == 0 then c
    else Divide(if c & 0x8000_0000 != 0 then (c << 1) ^ 0x04c1_1db7 else c << 1, n - 1)
  }

  /** BZ2_crc32Table. */
  function TableEntry(i: bv32): bv32 {
    Divide(i << 24, 8)
  }

  /** A byte as a word. */
  function Word(ch: byte): bv32 {
    ch as bv32
  }

  /** BZ_UPDATE_CRC. */
  function Update(crc: bv32, ch: byte): bv32 {
    (crc << 8) ^ TableEntry((crc >> 24) ^ Word(ch))
  }

  /** The register after a string of bytes. */
  function Register(crc: bv32, bytes: seq<byte>): bv32 {
    if bytes == [] then crc else Update(Register(crc, bytes[..|bytes| - 1]), bytes[|bytes| - 1])
  }

  lemma RegisterOne(crc: bv32, bytes: seq<byte>, b: byte)
    ensures Register(crc, bytes + [b]) == Update(Register(crc, bytes), b) && Register(crc, []) == crc
  {
    assert (bytes + [b])[..|bytes|] == bytes;
  }

  /** Going on from where the register stands. */
  lemma {:induction false} RegisterConcat(crc: bv32, a: seq<byte>, b: seq<byte>)
    ensures Register(crc, a + b) == Register(Register(crc, a), b)
  {
    hide Update;
    if b == [] {
      assert a + b == a;
    } else {
      var k := |b| - 1;
      RegisterConcat(crc, a, b[..k]);
      assert a + b == (a + b[..k]) + [b[k]];
      RegisterOne(crc, a + b[..k], b[k]);
    }
  }

  /** BZ_INITIALISE_CRC. */
  function Initial(): bv32 {
    0xffff_ffff
  }

  /** BZ_FINALISE_CRC. */
  function Finalised(crc: bv32): bv32 {
    !crc
  }

  /** A CRC as the number that is stored. */
  function Number(crc: bv32): (n: nat)
    ensures n < 0x1_0000_0000
  {
    crc as nat
  }

  /** The CRC of a block's data. */
  function Checksum(data: seq<byte>): bv32 {
    Finalised(Register(Initial(), data))
  }

  /** The same as a number, as the header of the block stores it. */
  function BlockCrcOf(data: seq<byte>): (crc: nat)
    ensures crc < 0x1_0000_0000
  {
    Number(Checksum(data))
  }

  /** combinedCRC with one more block. */
  function Combine(combined: bv32, crc: bv32): bv32 {
    ((combined << 1) | (combined >> 31)) ^ crc
  }
}
