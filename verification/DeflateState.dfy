/**
 The state of deflate (dep/zlib/deflate.h:97-273): a window that slides, hash chains over it, and the tokens of the current block. What has been
 read is kept as a ghost; the window holds the end of it. MIN_MATCH is 3, MAX_MATCH 258, MIN_LOOKAHEAD 262.
 */
module DeflateState {
  import opened Bits
  import opened Lz77
  import opened DeflateHash
  import opened DeflateChains

  /** How hard to search: configuration_table. */
  datatype Config = Config(good: nat, lazy: nat, nice: nat, chain: nat)

  function ConfigFor(level: nat): (c: Config)
    requires 1 <= level <= 9
    ensures ConfigOk(c)
  {
    match level
    case 1 => Config(4, 4, 8, 4)
    case 2 => Config(4, 5, 16, 8)
    case 3 => Config(4, 6, 32, 32)
    case 4 => Config(4, 4, 16, 16)
    case 5 => Config(8, 16, 32, 32)
    case 6 => Config(8, 16, 128, 128)
    case 7 => Config(8, 32, 128, 256)
    case 8 => Config(32, 128, 258, 1024)
    case _ => Config(32, 258, 258, 4096)
  }

  /** The columns of the table: good_length, max_lazy, nice_length and max_chain. */
  lemma ConfigurationTable()
    ensures ConfigFor(1) == Config(4, 4, 8, 4) && ConfigFor(2) == Config(4, 5, 16, 8) && ConfigFor(3) == Config(4, 6, 32, 32)
    ensures ConfigFor(4) == Config(4, 4, 16, 16) && ConfigFor(5) == Config(8, 16, 32, 32) && ConfigFor(6) == Config(8, 16, 128, 128)
    ensures ConfigFor(7) == Config(8, 32, 128, 256) && ConfigFor(8) == Config(32, 128, 258, 1024) && ConfigFor(9) == Config(32, 258, 258, 4096)
    ensures forall level, level' :: 4 <= level <= level' <= 9 ==>
              ConfigFor(level).chain <= ConfigFor(level').chain && ConfigFor(level).lazy <= ConfigFor(level').lazy
  {
  }

  /** What the search asks for: a chain that is still positive when it is cut to a quarter. */
  predicate ConfigOk(c: Config) {
    4 <= c.chain && c.lazy <= 258 && c.nice <= 258
  }

  /** The difference of two 32-bit words. */
  function Minus32(a: int, b: int): (d: nat)
    ensures d < 0x1_0000_0000
  {
    (a - b) % 0x1_0000_0000
  }

  /** The first end bytes of the window are the last of what has been read. */
  ghost predicate Suffix(w: seq<byte>, end: nat, hist: seq<byte>) {
    end <= |w| && end <= |hist| && w[..end] == hist[|hist| - end..]
  }

  class Deflate {
    const c: Hashing
    const wsize: nat
    const config: Config
    const litBufsize: nat
    const window: array<byte>
    const prev: array<nat>
    const head: array<nat>
    /** What the caller provides, and the next byte of it. */
    var input: seq<byte>
    var next: nat
    var insH: nat
    var strstart: nat
    var lookahead: nat
    var insert: nat
    var matchLength: nat
    var matchStart: nat
    var prevLength: nat
    var prevMatch: nat
    var matchAvailable: bool
    var blockStart: int
    /** The tokens of the current block, in l_buf and d_buf, and those of the blocks before. */
    var block: seq<Token>
    /** FINISH_STATE. */
    var finished: bool
    ghost var sent: seq<Token>
    ghost var hist: seq<byte>
    /** How many bytes of the window are valid: up to the end of the lookahead. */
    ghost var end: nat
    ghost var ins: set<nat>
    ghost var top: nat
    ghost var far: nat

    /** deflateInit2 and lm_init, without the wrapper; what prev holds does not matter. */
    constructor (level: nat, windowBits: nat, memLevel: nat)
      requires 1 <= level <= 9 && 9 <= windowBits <= 15 && 1 <= memLevel <= 9
      ensures Valid() && fresh(window) && fresh(prev) && fresh(head) && config == ConfigFor(level) && wsize == Pow2(windowBits)
      ensures strstart == lookahead == insert == end == top == far == 0 && blockStart == 0 && hist == [] && input == [] && next == 0
      ensures matchLength == prevLength == 2 && !matchAvailable && block == sent == [] && !finished
    {
      c, config, wsize, litBufsize := HashingFor(memLevel), ConfigFor(level), Pow2(windowBits), Pow2(memLevel + 6);
      window, prev := new byte[2 * Pow2(windowBits)], new nat[Pow2(windowBits)];
      head := new nat[Pow2(HashingFor(memLevel).bits)](_ => 0);
      input, next, insH, strstart, lookahead, insert := [], 0, 0, 0, 0, 0;
      matchLength, matchStart, prevLength, prevMatch, matchAvailable := 2, 0, 2, 0, false;
      blockStart, block, finished := 0, [], false;
      sent, hist, end, ins, top, far := [], [], 0, {}, 0, 0;
      new;
      hide *;
      Sizes(windowBits);
      Pow2Monotone(7, memLevel + 6);
      ShapeIs();
      Cleared(c, window[..], 0, prev[..], head[..], 0, 0);
      SeenIs();
      NothingRead(window[..]);
      ValidIs();
    }

    ghost predicate Shape() {
      && HashOk(c) && ConfigOk(config) && 512 <= wsize <= 32768 && 3 <= litBufsize
      && window.Length == 2 * wsize && prev.Length == wsize && head.Length == Pow2(c.bits) && prev != head
    }

    ghost function Seen(): View
      reads this, window
    {
      View(c, window[..], end, wsize, ins, top, far)
    }

    /** The window, the chains and the bounds. */
    ghost predicate Valid()
      reads this, window, prev, head
    {
      && Shape()
      && next <= |input| && matchStart < 0x1_0000_0000
      && Suffix(window[..], end, hist)
      && Chains(Seen(), prev[..], head[..])
      && strstart <= end <= 2 * wsize && insert <= 2
    }

    lemma ShapeIs()
      ensures Shape() <==>
              && HashOk(c) && ConfigOk(config) && 512 <= wsize <= 32768 && 3 <= litBufsize
              && window.Length == 2 * wsize && prev.Length == wsize && head.Length == Pow2(c.bits) && prev != head
    {
      hide HashOk, ConfigOk;
    }

    lemma ValidIs()
      ensures Valid() <==>
              && Shape()
              && next <= |input| && matchStart < 0x1_0000_0000
              && Suffix(window[..], end, hist)
              && Chains(Seen(), prev[..], head[..])
              && strstart <= end <= 2 * wsize && insert <= 2
    {
      hide Suffix, Chains;
    }

    lemma SeenIs()
      ensures Seen() == View(c, window[..], end, wsize, ins, top, far)
    {
    }

    /** MAX_DIST. */
    function MaxDist(): (d: int)
    {
      wsize - 262
    }

    /** The place of strstart in what has been read. */
    ghost function At(): int
      reads this
    {
      |hist| - end + strstart
    }

    /** INSERT_STRING. */
    method InsertString(str: nat) returns (hashHead: nat)
      requires Valid() && top <= str && str + 3 <= end && far <= str + wsize
      requires str + 2 < window.Length && Ready(c, insH, window[str], window[str + 1])
      modifies this`insH, this`ins, this`top, this`far, prev, head
      ensures Valid()
      ensures top == str + 1 && str in ins && far == (if old(far) > str then old(far) else str + 1)
      ensures Link(Seen(), hashHead, str, HashAt(c, window[..], str))
      ensures Ready(c, insH, window[str + 1], window[str + 2])
      ensures Seen() == Inserted(old(Seen()), str)
      ensures HashAt(c, window[..], str) < head.Length && hashHead == old(head[..])[HashAt(c, window[..], str)]
      ensures wsize == prev.Length > 0 && prev[..] == old(prev[..])[str % wsize := hashHead]
      ensures head[..] == old(head[..])[HashAt(c, window[..], str) := str]
    {
      hide *;
      ValidIs();
      ShapeIs();
      SeenIs();
      ghost var s, p, h, w := Seen(), prev[..], head[..], window[..];
      ReadyNext(c, insH, window[str], window[str + 1], window[str + 2]);
      HashAtIs(c, w, str);
      insH := Update(c, insH, window[str + 2]);
      Insert(s, p, h, str, insH);
      InsertedIs(s, str);
      hashHead := head[insH];
      prev[str % wsize] := hashHead;
      head[insH] := str;
      ins, top, far := Inserted(s, str).ins, str + 1, Inserted(s, str).far;
      assert prev[..] == p[str % |p| := hashHead] && head[..] == h[insH := str];
      SeenIs();
      ValidIs();
    }
  }

  lemma HashAtIs(c: Hashing, w: seq<byte>, j: nat)
    requires j + 2 < |w|
    ensures HashAt(c, w, j) == Hash(c, w[j], w[j + 1], w[j + 2])
  {
  }

  lemma Sizes(n: nat)
    requires 9 <= n <= 15
    ensures 512 <= Pow2(n) <= 32768 && Pow2(7) == 128
  {
    Pow2Monotone(9, n);
    Pow2Monotone(n, 15);
    assert Pow2(3) == 8 && Pow2(6) == 64 && Pow2(9) == 512 && Pow2(12) == 4096;
  }

  lemma NothingRead(w: seq<byte>)
    ensures Suffix(w, 0, [])
  {
  }
}
