/**
 The canonical code of section 3.2.2 of RFC 1951, for code lengths of which 0 says that a symbol is not used: what it means
 for a bit string to begin with the code of a symbol.
 */
module InflateCode {
  import opened Bits
  import opened CountingOrder
  import opened HuffmanCode
  import opened HuffmanDecode

  /** Symbols that are not used come behind all others. */
  function UsedLengths(lens: seq<nat>): (ls: seq<nat>)
    ensures |ls| == |lens| && forall i :: 0 <= i < |ls| ==> ls[i] >= 1 && (ls[i] <= 15 ==> ls[i] == lens[i])
    ensures forall i :: 0 <= i < |ls| && 1 <= lens[i] <= 15 ==> ls[i] == lens[i]
  {
    seq(|lens|, i requires 0 <= i < |lens| => if lens[i] == 0 then 16 else lens[i])
  }

  /** The next bits are the code of symbol i. */
  ghost predicate Begins(ls: seq<nat>, x: seq<bool>, i: nat) {
    |x| == 15 && StartsWith(ls, x, i)
  }

  lemma ShlNext(v: nat, n: nat)
    ensures Shl(v, n + 1) == 2 * Shl(v, n) == Shl(2 * v, n) && Shl(v, 0) == v
    ensures Shl(v + 1, n) == Shl(v, n) + Pow2(n)
  {
    var p := Pow2(n);
    assert v * (2 * p) == 2 * (v * p) == (2 * v) * p;
    assert (v + 1) * p == v * p + p;
  }

  lemma ShlMonotone(a: nat, b: nat, n: nat)
    requires a <= b
    ensures Shl(a, n) <= Shl(b, n)
  {
    ProductGrows(b, a, Pow2(n));
  }

  lemma {:induction false} ValueSplit(x: seq<bool>, m: nat, d: nat)
    requires m + d <= |x|
    ensures Value(x[..m + d]) == Shl(Value(x[..m]), d) + Value(x[m..m + d])
    decreases d
  {
    if d > 0 {
      ValueSplit(x, m, d - 1);
      ValuePrefix(x, m + d - 1);
      assert x[m..m + d][..d - 1] == x[m..m + d - 1];
      hide Shl;
      ShlNext(Value(x[..m]), d - 1);
    } else {
      assert x[m..m] == [];
    }
  }

  /** What lies before the codes that follow is the code of a symbol of at most this length. */
  lemma CoveredIsShorter(ls: seq<nat>, x: seq<bool>, i: nat, len: nat, c: nat)
    requires Begins(ls, x, i) && len <= 15 && Value(x[..len]) < c <= FirstCode(ls, len) + Count(ls, len)
    ensures ls[i] <= len
  {
    if ls[i] > len {
      PassedShorter(ls, x, len, ls[i]);
    }
  }

  /** Extending the length does not change what lies before. */
  lemma CoverageStays(x: seq<bool>, len: nat, d: nat, c: nat)
    requires len + d <= |x|
    ensures Value(x[..len + d]) < Shl(c, d) <==> Value(x[..len]) < c
  {
    ValueSplit(x, len, d);
    ValueBound(x[len..len + d]);
    hide Shl, Value;
    var v := Value(x[..len]);
    if v < c {
      ShlMonotone(v + 1, c, d);
      ShlNext(v, d);
    } else {
      ShlMonotone(c, v, d);
    }
  }

  /** A complete code decodes every bit string. */
  lemma AllDecoded(ls: seq<nat>, x: seq<bool>) returns (i: nat)
    requires FirstCode(ls, 15) + Count(ls, 15) == Pow2(15) && |x| == 15 && Count(ls, 0) == 0
    ensures Begins(ls, x, i) && ls[i] <= 15
  {
    ValueBound(x);
    assert x[..15] == x;
    var n := FirstReached(ls, x, 15);
    i := PlaceTaken(ls, n, Value(x[..n]) - FirstCode(ls, n));
  }

  lemma {:induction false} FirstReached(ls: seq<nat>, x: seq<bool>, m: nat) returns (n: nat)
    requires m <= |x| && Value(x[..m]) < FirstCode(ls, m) + Count(ls, m) && Count(ls, 0) == 0
    ensures n <= m && FirstCode(ls, n) <= Value(x[..n]) < FirstCode(ls, n) + Count(ls, n)
    decreases m
  {
    if m == 0 {
      assert false;
    } else if Value(x[..m - 1]) < FirstCode(ls, m - 1) + Count(ls, m - 1) {
      n := FirstReached(ls, x, m - 1);
    } else {
      n := m;
      ValuePrefix(x, m - 1);
    }
  }

  /** The codes of longer lengths begin behind those of length d. */
  lemma {:induction false} LaterCodes(ls: seq<nat>, d: nat, n: nat)
    requires d < n
    ensures FirstCode(ls, n) >= Shl(FirstCode(ls, d) + Count(ls, d), n - d)
    decreases n
  {
    hide Shl, Count;
    var e := FirstCode(ls, d) + Count(ls, d);
    ShlNext(e, n - 1 - d);
    if n > d + 1 {
      LaterCodes(ls, d, n - 1);
    }
  }

  /** Where no codes are in between, the next ones begin where the last ones end. */
  lemma {:induction false} NextLength(ls: seq<nat>, len: nat, n: nat)
    requires len < n && CountBelow(ls, len + 1) == CountBelow(ls, n)
    ensures FirstCode(ls, n) == Shl(FirstCode(ls, len) + Count(ls, len), n - len)
    decreases n
  {
    hide Shl, Count;
    var e := FirstCode(ls, len) + Count(ls, len);
    ShlNext(e, n - 1 - len);
    if n > len + 1 {
      CountBelowMonotone(ls, len + 1, n - 1);
      CountBelowMonotone(ls, n - 1, n);
      CountBelowNext(ls, n - 1);
      NextLength(ls, len, n - 1);
    }
  }
}
