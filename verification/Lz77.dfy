/** What literals and matches stand for (section 3.2.3 of RFC 1951): copying from the history byte by byte. */
module Lz77 {
  import opened Bits

  /** The history with n bytes copied from a distance, byte by byte: the copy can run into what it has just written. */
  function Copied(h: seq<byte>, offset: nat, n: nat): (c: seq<byte>)
    requires 1 <= offset <= |h|
    ensures |c| == |h| + n
  {
    if n == 0 then h
    else
      var c := Copied(h, offset, n - 1);
      c + [c[|c| - offset]]
  }

  /** Copying on: a bytes and then b more. */
  lemma {:induction false} CopiedOn(h: seq<byte>, offset: nat, a: nat, b: nat)
    requires 1 <= offset <= |h|
    ensures Copied(Copied(h, offset, a), offset, b) == Copied(h, offset, a + b)
  {
    if b > 0 {
      CopiedOn(h, offset, a, b - 1);
    }
  }

  lemma {:induction false} CopiedKeeps(h: seq<byte>, offset: nat, n: nat)
    requires 1 <= offset <= |h|
    ensures Copied(h, offset, n)[..|h|] == h
  {
    if n > 0 {
      CopiedKeeps(h, offset, n - 1);
    }
  }

  datatype Token = Literal(value: byte) | Pair(length: nat, distance: nat)

  /** What the tokens expand to behind a history; a distance that goes back before its beginning has no meaning. */
  function Expand(tokens: seq<Token>, h: seq<byte>): (r: Option<seq<byte>>)
    decreases |tokens|
  {
    if tokens == [] then Some(h)
    else
      var n := |tokens| - 1;
      match Expand(tokens[..n], h)
      case None => None
      case Some(g) =>
        match tokens[n]
        case Literal(v) => Some(g + [v])
        case Pair(length, distance) => if 1 <= distance <= |g| then Some(Copied(g, distance, length)) else None
  }

  datatype Option<T> = None | Some(value: T)

  /** The n bytes at p are the bytes at distance d before them: a match may overlap itself. */
  ghost predicate RealMatch(h: seq<byte>, p: nat, d: nat, n: nat) {
    1 <= d <= p && p + n <= |h| && forall k :: p <= k < p + n ==> h[k] == h[k - d]
  }

  /** Copying a real match gives the bytes that are there. */
  lemma {:induction false} MatchCopies(h: seq<byte>, p: nat, d: nat, n: nat)
    requires RealMatch(h, p, d, n)
    ensures Copied(h[..p], d, n) == h[..p + n]
  {
    if n > 0 {
      MatchCopies(h, p, d, n - 1);
      assert h[p + n - 1] == h[p + n - 1 - d];
      assert h[..p + n] == h[..p + n - 1] + [h[p + n - 1]];
    }
  }

  lemma ExpandLiteral(tokens: seq<Token>, h: seq<byte>, p: nat)
    requires p < |h| && Expand(tokens, []) == Some(h[..p])
    ensures Expand(tokens + [Literal(h[p])], []) == Some(h[..p + 1])
  {
    assert (tokens + [Literal(h[p])])[..|tokens|] == tokens;
    assert h[..p + 1] == h[..p] + [h[p]];
  }

  lemma ExpandMatch(tokens: seq<Token>, h: seq<byte>, p: nat, d: nat, n: nat)
    requires RealMatch(h, p, d, n) && Expand(tokens, []) == Some(h[..p])
    ensures Expand(tokens + [Pair(n, d)], []) == Some(h[..p + n])
  {
    assert (tokens + [Pair(n, d)])[..|tokens|] == tokens;
    MatchCopies(h, p, d, n);
  }
}
