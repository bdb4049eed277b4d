/**
 From the tokens that deflate makes to what inflate makes of them: however the tokens of a block are coded, as long as each can be
 read back, decoding the bits expands the tokens.
 */
module TokenBits {
  import opened Bits
  import opened LowBits
  import opened Lz77
  import opened InflateEntries
  import opened InflateSpec

  /** The bits s begin with the codes of a token, and rest follows. */
  ghost predicate Reads(cs: Codes, t: Token, s: seq<bool>, rest: seq<bool>) {
    var first := NextEntry(cs.lens, s);
    first.Found? &&
    match t
    case Literal(v) => LenMode(first.e) == Lit(v) && rest == first.rest
    case Pair(length, distance) =>
      var m := LenMode(first.e);
      && m.LenExt? && m.extra <= |first.rest| && length == m.length + LowValue(first.rest[..m.extra])
      && var second := NextEntry(cs.dists, first.rest[m.extra..]);
         && second.Found?
         && var d := DistMode(length, second.e);
            && d.DistExt? && d.extra <= |second.rest| && distance == d.offset + LowValue(second.rest[..d.extra])
            && rest == second.rest[d.extra..]
  }

  lemma {:induction false} MatchRun(cs: Codes, reach: Reach, n: nat, d: nat, s: seq<bool>, h: seq<byte>)
    requires Near(cs, reach, |h|, d)
    ensures 1 <= d <= |h| && Copied(h, d, n)[..|h|] == h
    ensures Run(cs, reach, Match(n, d), s, h) == Behind(Copied(h, d, n)[|h|..], Run(cs, reach, Len, s, Copied(h, d, n)))
    decreases n
  {
    hide *;
    NearSize(cs, reach, |h|, d);
    CopiedKeeps(h, d, n);
    NearOn(cs, reach, |h|, d, 1);
    MatchOne(cs, reach, n, d, s, h);
    if n == 0 {
      BehindBehind([], [], Run(cs, reach, Len, s, h));
      assert h[|h|..] == [];
    } else {
      var b := h[|h| - d];
      CopiedOn(h, d, 1, n - 1);
      MatchRun(cs, reach, n - 1, d, s, h + [b]);
      var c := Copied(h, d, n);
      BehindBehind([b], c[|h| + 1..], Run(cs, reach, Len, s, c));
      CutFirst(h, b, c);
    }
  }

  lemma CutFirst(h: seq<byte>, b: byte, c: seq<byte>)
    requires |h| < |c| && c[..|h| + 1] == h + [b]
    ensures c[|h|..] == [b] + c[|h| + 1..]
  {
    assert c[|h|] == c[..|h| + 1][|h|];
  }

  /** One byte of a match. */
  lemma MatchOne(cs: Codes, reach: Reach, n: nat, d: nat, s: seq<bool>, h: seq<byte>)
    requires Near(cs, reach, |h|, d)
    ensures 1 <= d <= |h|
    ensures n == 0 ==> Copied(h, d, n) == h && Run(cs, reach, Match(n, d), s, h) == Run(cs, reach, Len, s, h)
    ensures n > 0 ==>
              && Copied(h, d, 1) == h + [h[|h| - d]]
              && Run(cs, reach, Match(n, d), s, h) == Behind([h[|h| - d]], Run(cs, reach, Match(n - 1, d), s, h + [h[|h| - d]]))
  {
    assert Copied(h, d, 0) == h;
  }

  /** Decoding the bits of one token puts out what the token stands for. */
  lemma TokenRun(cs: Codes, reach: Reach, t: Token, s: seq<bool>, rest: seq<bool>, h: seq<byte>)
    requires Reads(cs, t, s, rest) && Expand([t], h).Some? && (t.Pair? ==> 1 <= t.distance <= cs.window)
    requires reach.From? ==> reach.start <= |h|
    ensures var g := Expand([t], h).value;
            |h| <= |g| && g[..|h|] == h && Run(cs, reach, Len, s, h) == Behind(g[|h|..], Run(cs, reach, Len, rest, g))
  {
    OneToken(t, h);
    hide NextEntry, LowValue, LenMode, DistMode, Expand;
    match t
    case Literal(v) =>
      assert (h + [v])[|h|..] == [v] && (h + [v])[..|h|] == h;
    case Pair(n, d) =>
      PairRun(cs, reach, n, d, s, rest, h);
      MatchRun(cs, reach, n, d, rest, h);
  }

  lemma PairRun(cs: Codes, reach: Reach, n: nat, d: nat, s: seq<bool>, rest: seq<bool>, h: seq<byte>)
    requires Reads(cs, Pair(n, d), s, rest)
    ensures Run(cs, reach, Len, s, h) == Run(cs, reach, Match(n, d), rest, h)
  {
    hide NextEntry, LowValue, LenMode;
    var first := NextEntry(cs.lens, s);
    var m := LenMode(first.e);
    var s1 := first.rest[m.extra..];
    var second := NextEntry(cs.dists, s1);
    var o := DistMode(n, second.e);
    assert Run(cs, reach, Len, s, h) == Run(cs, reach, m, first.rest, h);
    assert Run(cs, reach, m, first.rest, h) == Run(cs, reach, Dist(n), s1, h);
    assert Run(cs, reach, Dist(n), s1, h) == Run(cs, reach, o, second.rest, h);
    assert Run(cs, reach, o, second.rest, h) == Run(cs, reach, Match(n, d), rest, h);
  }

  lemma OneToken(t: Token, h: seq<byte>)
    ensures Expand([t], h)
            == if t.Literal? then Some(h + [t.value])
               else if 1 <= t.distance <= |h| then Some(Copied(h, t.distance, t.length)) else None
  {
    assert [t][..0] == [];
  }

  /** Expanding in two steps. */
  lemma {:induction false} ExpandOn(a: seq<Token>, b: seq<Token>, h: seq<byte>)
    ensures Expand(a + b, h) == if Expand(a, h).None? then None else Expand(b, Expand(a, h).value)
    decreases |b|
  {
    if b == [] {
      assert a + b == a;
    } else {
      ExpandOn(a, b[..|b| - 1], h);
      assert (a + b)[..|a + b| - 1] == a + b[..|b| - 1];
    }
  }

  /** Tokens that are coded one behind the other: bits[i] are the bits from token i on. */
  ghost predicate Coded(cs: Codes, tokens: seq<Token>, bits: seq<seq<bool>>) {
    && |bits| == |tokens| + 1
    && forall i :: 0 <= i < |tokens| ==> Reads(cs, tokens[i], bits[i], bits[i + 1])
  }

  /** Decoding a coded block behind the history h gives what its tokens stand for, and ends behind the end-of-block code. */
  lemma {:induction false} BlockInflates(cs: Codes, reach: Reach, tokens: seq<Token>, bits: seq<seq<bool>>, h: seq<byte>, e: Entry, rest: seq<bool>)
    requires Coded(cs, tokens, bits) && Expand(tokens, h).Some?
    requires forall t :: t in tokens && t.Pair? ==> 1 <= t.distance <= cs.window
    requires reach.From? ==> reach.start <= |h|
    requires NextEntry(cs.lens, bits[|tokens|]) == Found(e, rest) && LenMode(e) == Type
    ensures var g := Expand(tokens, h).value;
            |h| <= |g| && g[..|h|] == h && Run(cs, reach, Len, bits[0], h) == Result(g[|h|..], EndOfBlock(rest))
    decreases |tokens|
  {
    hide *;
    CodedOn(cs, tokens, bits);
    if tokens == [] {
      NoTokens(cs, reach, bits[0], h, e, rest);
    } else {
      var t, later := tokens[0], tokens[1..];
      ExpandOn([t], later, h);
      assert [t] + later == tokens;
      TokenRun(cs, reach, t, bits[0], bits[1], h);
      var g := Expand([t], h).value;
      BlockInflates(cs, reach, later, bits[1..], g, e, rest);
      var all := Expand(tokens, h).value;
      BehindBehind(g[|h|..], all[|g|..], Result([], EndOfBlock(rest)));
      BehindIs(all[|g|..], EndOfBlock(rest));
      BehindIs(g[|h|..] + all[|g|..], EndOfBlock(rest));
      Prefixes(h, g, all);
    }
  }

  lemma CodedOn(cs: Codes, tokens: seq<Token>, bits: seq<seq<bool>>)
    requires Coded(cs, tokens, bits)
    ensures |bits| == |tokens| + 1
    ensures tokens != [] ==> Reads(cs, tokens[0], bits[0], bits[1]) && Coded(cs, tokens[1..], bits[1..])
  {
    hide Reads;
  }

  lemma NoTokens(cs: Codes, reach: Reach, s: seq<bool>, h: seq<byte>, e: Entry, rest: seq<bool>)
    requires NextEntry(cs.lens, s) == Found(e, rest) && LenMode(e) == Type
    ensures Expand([], h) == Some(h) && h[..|h|] == h && Run(cs, reach, Len, s, h) == Result(h[|h|..], EndOfBlock(rest))
  {
    hide NextEntry, LenMode;
  }

  lemma BehindIs(a: seq<byte>, e: Ending)
    ensures Behind(a, Result([], e)) == Result(a, e)
  {
  }

  lemma Prefixes(h: seq<byte>, g: seq<byte>, all: seq<byte>)
    requires |h| <= |g| <= |all| && g[..|h|] == h && all[..|g|] == g
    ensures all[..|h|] == h && all[|h|..] == g[|h|..] + all[|g|..]
  {
    assert all[..|h|] == all[..|g|][..|h|];
    assert all == g + all[|g|..];
  }
}
