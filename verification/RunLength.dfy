/**
 The first run-length code: runs of 4 to 255 equal bytes are written as four bytes and a count
 (add_pair_to_block and unRLE_obuf_to_output in dep/bzip2/bzlib.c).
 */
module RunLength {
  import opened Bits
  import opened MoveToFront

  /** A byte and how often it is repeated. */
  datatype Pair = Pair(ch: byte, len: nat)

  /** How add_pair_to_block writes a run. */
  function Pack(p: Pair): (b: seq<byte>)
    requires 1 <= p.len <= 255
    ensures 1 <= |b| <= 5 && b[0] == p.ch && |b| <= p.len + 1
  {
    if p.len < 4 then Repeat(p.ch, p.len) else Repeat(p.ch, 4) + [(p.len - 4) as byte]
  }

  /** Runs that can stand next to each other: a run stops at another byte or when its length is used up. */
  ghost predicate Proper(pairs: seq<Pair>) {
    && (forall i :: 0 <= i < |pairs| ==> 1 <= pairs[i].len <= 255)
    && forall i :: 0 < i < |pairs| ==> pairs[i].ch != pairs[i - 1].ch || pairs[i - 1].len == 255
  }

  ghost function PackAll(pairs: seq<Pair>): (b: seq<byte>)
    requires forall i :: 0 <= i < |pairs| ==> 1 <= pairs[i].len <= 255
  {
    if pairs == [] then [] else Pack(pairs[0]) + PackAll(pairs[1..])
  }

  ghost function ExpandAll(pairs: seq<Pair>): seq<byte> {
    if pairs == [] then [] else Repeat(pairs[0].ch, pairs[0].len) + ExpandAll(pairs[1..])
  }

  // Decoding.

  /** What comes out, and whether the block ended where a run ends. */
  datatype Unpacked = Unpacked(bytes: seq<byte>, ok: bool)

  function Lead(head: seq<byte>, u: Unpacked): Unpacked {
    Unpacked(head + u.bytes, u.ok)
  }

  /**
   The next m bytes of w belong to the block, the two behind them do not. Four equal bytes are followed
   by a count; a block that ends in between is corrupt.
   */
  function Unrle(w: seq<byte>, m: int): (u: Unpacked)
    requires -1 <= m && |w| == m + 2
    decreases m + 1
  {
    if m <= 0 then Unpacked([], m == 0)
    else if m == 1 || w[1] != w[0] then Lead([w[0]], Unrle(w[1..], m - 1))
    else if m == 2 || w[2] != w[0] then Lead(Repeat(w[0], 2), Unrle(w[2..], m - 2))
    else if m == 3 || w[3] != w[0] then Lead(Repeat(w[0], 3), Unrle(w[3..], m - 3))
    else Lead(Repeat(w[0], w[4] as nat + 4), Unrle(w[5..], m - 5))
  }

  /** A block followed by the two bytes that the decoder reads too many. */
  lemma UnrlePair(p: Pair, more: seq<byte>, m: nat)
    requires 1 <= p.len <= 255 && |more| == m + 2
    requires m == 0 || more[0] != p.ch || p.len >= 4
    ensures Unrle(Pack(p) + more, |Pack(p)| + m) == Lead(Repeat(p.ch, p.len), Unrle(more, m))
  {
    var w := Pack(p) + more;
    if p.len < 4 {
      assert w[p.len..] == more;
      assert forall i :: 0 <= i < p.len ==> w[i] == p.ch;
      assert w[p.len] == more[0];
      if p.len == 1 { assert Repeat(p.ch, 1) == [p.ch]; }
    } else {
      assert w[5..] == more && w[4] == p.len - 4;
      assert forall i :: 0 <= i < 4 ==> w[i] == p.ch;
    }
  }

  /** Decoding gives back the runs that were packed. */
  lemma {:induction false} RunsRoundTrip(pairs: seq<Pair>, x: byte, y: byte)
    requires Proper(pairs)
    ensures Unrle(PackAll(pairs) + [x, y], |PackAll(pairs)|) == Unpacked(ExpandAll(pairs), true)
    decreases |pairs|
  {
    if pairs != [] {
      var p, rest := pairs[0], PackAll(pairs[1..]);
      RunsRoundTrip(pairs[1..], x, y);
      assert PackAll(pairs) + [x, y] == Pack(p) + (rest + [x, y]);
      if |pairs| > 1 {
        assert pairs[1].ch != p.ch || p.len == 255;
        assert rest[0] == Pack(pairs[1])[0];
      }
      UnrlePair(p, rest + [x, y], |rest|);
    }
  }

  lemma {:induction false} PackAppend(pairs: seq<Pair>, p: Pair)
    requires (forall i :: 0 <= i < |pairs| ==> 1 <= pairs[i].len <= 255) && 1 <= p.len <= 255
    ensures PackAll(pairs + [p]) == PackAll(pairs) + Pack(p)
    ensures ExpandAll(pairs + [p]) == ExpandAll(pairs) + Repeat(p.ch, p.len)
  {
    hide Pack, Repeat;
    if pairs == [] {
      assert pairs + [p] == [p] && [p][1..] == [];
      assert PackAll([p]) == Pack(p) + [] && ExpandAll([p]) == Repeat(p.ch, p.len) + [];
    } else {
      PackAppend(pairs[1..], p);
      assert (pairs + [p])[0] == pairs[0] && (pairs + [p])[1..] == pairs[1..] + [p];
    }
  }
}
