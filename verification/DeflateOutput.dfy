/**
 Where the output of deflate goes: flush_pending (dep/zlib/deflate.c:640-659) and what deflate remembers of the last call. How many bits
 trees.c makes of a block is left open.
 */
module DeflateOutput {
  /** In the order of zlib.h, Z_BLOCK last. */
  datatype Flush = NoFlush | PartialFlush | SyncFlush | FullFlush | Finish | BlockFlush

  /** RANK. */
  function Rank(flush: Flush): int {
    match flush
    case NoFlush => 0
    case PartialFlush => 2
    case SyncFlush => 4
    case FullFlush => 6
    case Finish => 8
    case BlockFlush => 1
  }

  /** RANK of a last_flush of -1. */
  const NoRank: int := -2

  class Output {
    var availOut: nat
    /** The bytes in pending_buf, and the bits in bi_buf. */
    var pending: nat
    var bits: nat
    /** RANK of last_flush. */
    var lastRank: int

    constructor ()
      ensures availOut == pending == bits == 0 && lastRank == Rank(NoFlush)
    {
      availOut, pending, bits, lastRank := 0, 0, 0, Rank(NoFlush);
    }

    /** The whole bytes that have not been put out. */
    function Waiting(): nat
      reads this`pending, this`bits
    {
      pending + bits / 8
    }

    /** There is room, and nothing waits for it. */
    predicate Clear()
      reads this`availOut, this`pending
    {
      availOut > 0 && pending == 0
    }

    /** flush_pending: as much as there is room for. */
    method FlushPending()
      modifies this`availOut, this`pending, this`bits
      ensures pending == (if old(Waiting()) <= old(availOut) then 0 else old(Waiting()) - old(availOut))
      ensures availOut == (if old(Waiting()) <= old(availOut) then old(availOut) - old(Waiting()) else 0)
      ensures Waiting() == pending && (Clear() || availOut == 0)
    {
      pending, bits := pending + bits / 8, bits % 8;
      var len := pending;
      if len > availOut { len := availOut; }
      if len == 0 { return; }
      availOut := availOut - len;
      pending := pending - len;
    }

    /** Bits are added: any number of them. */
    method Send()
      modifies this`pending, this`bits
      ensures pending >= old(pending)
    {
      var bytes: nat, left: nat := *, *;
      pending, bits := pending + bytes, left;
    }
  }
}
