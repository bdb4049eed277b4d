/** The turns of deflate_fast, deflate_slow, deflate_rle and deflate_huff (dep/zlib/deflate.c:1626-1965) as steps from one state to the next. */
module DeflateTurns {
  import opened Bits
  import opened Lz77
  import opened DeflateChains
  import opened DeflateState
  import opened DeflateMatch

  /** What the search, and the choice of tokens, depend on, and all tokens so far. */
  datatype Snap = Snap(v: View, prev: seq<nat>, head: seq<nat>, c: Config, i: nat, lookahead: nat, length: nat, start: nat, waits: bool,
                       tokens: seq<Token>)

  ghost function SnapOf(s: Deflate): Snap
    reads s, s.window, s.prev, s.head
  {
    Snap(s.Seen(), s.prev[..], s.head[..], s.config, s.strstart, s.lookahead, s.matchLength, s.matchStart, s.matchAvailable, s.sent + s.block)
  }

  lemma SnapIs(s: Deflate)
    ensures SnapOf(s) == Snap(s.Seen(), s.prev[..], s.head[..], s.config, s.strstart, s.lookahead, s.matchLength, s.matchStart,
                              s.matchAvailable, s.sent + s.block)
  {
  }

  /** The string at i has been inserted, if there are three bytes of it. */
  ghost function WithString(a: Snap): View {
    if a.lookahead >= 3 then Inserted(a.v, a.i) else a.v
  }

  /** A turn of deflate_fast. */
  ghost predicate GreedyTurn(a: Snap, b: Snap, n: nat, start: nat) {
    && Looks(a.v, a.prev, a.head, a.c, a.i, a.lookahead, 2, true, a.length, a.start, n, start)
    && var m := if n >= 3 then n else 1;
       && b.i == a.i + m && b.lookahead == a.lookahead - m && b.c == a.c
       && (n >= 3 ==> start <= a.i && b.tokens == a.tokens + [Pair(n, a.i - start)])
       && (n < 3 ==> a.i < |a.v.w| && b.tokens == a.tokens + [Literal(a.v.w[a.i])])
       && b.v == if 3 <= n <= a.c.lazy && b.lookahead >= 3 then InsertRange(WithString(a), a.i + 1, b.i) else WithString(a)
  }

  /** As far as a, or where only two bytes are left before end. */
  function Upto(a: nat, end: nat): nat {
    if a + 2 <= end then a else if end >= 2 then end - 2 else 0
  }

  /**
   A match of up to 5 bytes is not worth it when the strategy is to filter, nor is one of 3 bytes more than 4096 back
   (dep/zlib/deflate.c:1772-1783).
   */
  function Accepted(n: nat, filtered: bool, distance: nat): nat {
    if filtered && n <= 5 then 2 else if n == 3 && distance > 4096 then 2 else n
  }

  lemma AcceptedIs(n: nat, filtered: bool, distance: nat)
    ensures Accepted(n, filtered, distance) == if n <= 5 && (filtered || (n == 3 && distance > 4096)) then 2 else n
  {
  }

  /**
   A turn of deflate_slow: the match of the previous position is emitted when the one at i is not longer; otherwise the byte before i
   is, if it is waiting, and the match at i waits.
   */
  ghost predicate LazyTurn(a: Snap, b: Snap, filtered: bool, n: nat, start: nat) {
    && Looks(a.v, a.prev, a.head, a.c, a.i, a.lookahead, a.length, a.length < a.c.lazy, 2, a.start, n, start)
    && b.c == a.c
    && var m := Accepted(n, filtered, Minus32(a.i, start));
       if a.length >= 3 && m <= a.length then
         && b.tokens == a.tokens + [Pair(a.length, Minus32(a.i - 1, a.start))]
         && b.i == a.i + a.length - 1 && b.lookahead == a.lookahead - a.length + 1 && !b.waits && b.length == 2
         && b.v == InsertRange(WithString(a), a.i + 1, Upto(b.i, a.i + a.lookahead))
       else
         && (a.waits ==> 0 < a.i <= |a.v.w| && b.tokens == a.tokens + [Literal(a.v.w[a.i - 1])])
         && (!a.waits ==> b.tokens == a.tokens)
         && b.i == a.i + 1 && b.lookahead == a.lookahead - 1 && b.waits && b.length == m && b.start == start && b.v == WithString(a)
  }

  /** The bytes from i on that repeat the one before, as many as there are in the lookahead, up to 258; less than three are none. */
  ghost predicate LongestRun(w: seq<byte>, i: nat, lookahead: nat, n: nat) {
    && 0 < i && i + 258 < |w|
    && if n == 0 then w[i] != w[i - 1] || w[i + 1] != w[i - 1] || w[i + 2] != w[i - 1]
       else
         && 3 <= n <= 258 && n <= lookahead && (forall k: nat :: i <= k < i + n ==> w[k] == w[i - 1])
         && (n == 258 || n == lookahead || w[i + n] != w[i - 1])
  }

  lemma RunIs(w: seq<byte>, i: nat, lookahead: nat, n: nat)
    ensures LongestRun(w, i, lookahead, n) <==>
            && 0 < i && i + 258 < |w|
            && if n == 0 then w[i] != w[i - 1] || w[i + 1] != w[i - 1] || w[i + 2] != w[i - 1]
               else
                 && 3 <= n <= 258 && n <= lookahead && (forall k: nat :: i <= k < i + n ==> w[k] == w[i - 1])
                 && (n == 258 || n == lookahead || w[i + n] != w[i - 1])
  {
  }

  /** A turn of deflate_rle, or, without runs, of deflate_huff. */
  ghost predicate RunTurn(a: Snap, b: Snap, runs: bool, n: nat) {
    && (if runs && a.lookahead >= 3 && a.i > 0 then LongestRun(a.v.w, a.i, a.lookahead, n) else n == 0)
    && a.i < |a.v.w| && b.tokens == a.tokens + [if n > 0 then Pair(n, 1) else Literal(a.v.w[a.i])]
    && var m := if n > 0 then n else 1;
       b.i == a.i + m && b.lookahead == a.lookahead - m && b.v == a.v && b.c == a.c
  }

  lemma LazyTurnIs(a: Snap, b: Snap, filtered: bool, n: nat, start: nat)
    ensures LazyTurn(a, b, filtered, n, start) <==>
              && Looks(a.v, a.prev, a.head, a.c, a.i, a.lookahead, a.length, a.length < a.c.lazy, 2, a.start, n, start)
              && b.c == a.c
              && var m, v := Accepted(n, filtered, Minus32(a.i, start)), if a.lookahead >= 3 then Inserted(a.v, a.i) else a.v;
                 if a.length >= 3 && m <= a.length then
                   && b.tokens == a.tokens + [Pair(a.length, Minus32(a.i - 1, a.start))]
                   && b.i == a.i + a.length - 1 && b.lookahead == a.lookahead - a.length + 1 && !b.waits && b.length == 2
                   && b.v == InsertRange(v, a.i + 1, Upto(b.i, a.i + a.lookahead))
                 else
                   && (a.waits ==> 0 < a.i <= |a.v.w| && b.tokens == a.tokens + [Literal(a.v.w[a.i - 1])])
                   && (!a.waits ==> b.tokens == a.tokens)
                   && b.i == a.i + 1 && b.lookahead == a.lookahead - 1 && b.waits && b.length == m && b.start == start && b.v == v
  {
    hide Looks, Accepted, Inserted, InsertRange, Upto;
  }

  lemma LazyTurnOf(a: Snap, b: Snap, filtered: bool, n: nat, start: nat)
    requires LazyTurn(a, b, filtered, n, start)
    ensures Turn(LazyRule(filtered), a, b)
  {
    hide LazyTurn;
  }

  lemma RunTurnFrom(a: Snap, b: Snap, runs: bool, n: nat)
    requires if runs && a.lookahead >= 3 && a.i > 0 then LongestRun(a.v.w, a.i, a.lookahead, n) else n == 0
    requires a.i < |a.v.w| && b.tokens == a.tokens + [if n > 0 then Pair(n, 1) else Literal(a.v.w[a.i])]
    requires b.i == a.i + (if n > 0 then n else 1) && b.lookahead == a.lookahead - (if n > 0 then n else 1) && b.v == a.v && b.c == a.c
    ensures RunTurn(a, b, runs, n) && Turn(RunRule(runs), a, b)
  {
    hide LongestRun;
  }

  /** More input has been read, and the window may have slid; with enough to look ahead nothing changes. */
  ghost predicate Filled(a: Snap, b: Snap) {
    && b.tokens == a.tokens && b.length == a.length && b.waits == a.waits && b.c == a.c && a.lookahead <= b.lookahead
    && Minus32(b.i, b.start) == Minus32(a.i, a.start) && (a.lookahead >= 262 ==> b == a)
    && b.i <= a.i && Chains(b.v, b.prev, b.head) && Stays(a.v.ins, a.i - b.i, b.v.ins, Limit(b.i, b.v.wsize))
  }

  lemma FilledIs(a: Snap, b: Snap)
    ensures Filled(a, b) <==>
              && b.tokens == a.tokens && b.length == a.length && b.waits == a.waits && b.c == a.c && a.lookahead <= b.lookahead
              && Minus32(b.i, b.start) == Minus32(a.i, a.start) && (a.lookahead >= 262 ==> b == a)
              && b.i <= a.i && Chains(b.v, b.prev, b.head) && Stays(a.v.ins, a.i - b.i, b.v.ins, Limit(b.i, b.v.wsize))
  {
    hide Chains, Stays, Limit;
  }

  lemma GreedyTurnFrom(a: Snap, b: Snap, n: nat, start: nat)
    requires Looks(a.v, a.prev, a.head, a.c, a.i, a.lookahead, 2, true, a.length, a.start, n, start)
    requires b.i == a.i + (if n >= 3 then n else 1) && b.lookahead == a.lookahead - (if n >= 3 then n else 1) && b.c == a.c
    requires n >= 3 ==> start <= a.i && b.tokens == a.tokens + [Pair(n, a.i - start)]
    requires n < 3 ==> a.i < |a.v.w| && b.tokens == a.tokens + [Literal(a.v.w[a.i])]
    requires var v := if a.lookahead >= 3 then Inserted(a.v, a.i) else a.v;
             b.v == if 3 <= n <= a.c.lazy && b.lookahead >= 3 then InsertRange(v, a.i + 1, b.i) else v
    ensures GreedyTurn(a, b, n, start) && Turn(GreedyRule, a, b)
  {
    hide Looks, Inserted, InsertRange;
  }

  /** Which turns there are. */
  datatype Rule = GreedyRule | LazyRule(filtered: bool) | RunRule(runs: bool)

  ghost predicate Turn(rule: Rule, a: Snap, b: Snap) {
    match rule
    case GreedyRule => exists n: nat, start: nat :: GreedyTurn(a, b, n, start)
    case LazyRule(filtered) => exists n: nat, start: nat :: LazyTurn(a, b, filtered, n, start)
    case RunRule(runs) => exists n: nat :: RunTurn(a, b, runs, n)
  }

  /** From state to state, by reading and by turns of one kind. */
  ghost predicate Path(rule: Rule, path: seq<Snap>) {
    path != [] && forall k :: 0 <= k < |path| - 1 ==> Filled(path[k], path[k + 1]) || Turn(rule, path[k], path[k + 1])
  }

  lemma PathOn(rule: Rule, path: seq<Snap>, b: Snap)
    requires Path(rule, path) && (Filled(path[|path| - 1], b) || Turn(rule, path[|path| - 1], b))
    ensures Path(rule, path + [b])
  {
    hide Filled, Turn;
  }

  lemma PathFrom(rule: Rule, a: Snap)
    ensures Path(rule, [a])
  {
    hide Filled, Turn;
  }

  /** A piece of a path: the states behind a, the last of which is b. */
  ghost predicate Leads(rule: Rule, a: Snap, path: seq<Snap>, b: Snap) {
    path != [] && Path(rule, [a] + path) && path[|path| - 1] == b
  }

  lemma LeadsFirst(rule: Rule, a: Snap, b: Snap)
    requires Filled(a, b)
    ensures Leads(rule, a, [b], b)
  {
    hide Filled, Turn;
  }

  lemma LeadsOn(rule: Rule, a: Snap, path: seq<Snap>, b: Snap, c: Snap)
    requires Leads(rule, a, path, b) && Turn(rule, b, c)
    ensures Leads(rule, a, path + [c], c)
  {
    hide Filled, Turn;
    PathOn(rule, [a] + path, c);
    assert [a] + (path + [c]) == [a] + path + [c];
  }

  lemma PathJoin(rule: Rule, path: seq<Snap>, more: seq<Snap>, b: Snap)
    requires Path(rule, path) && Leads(rule, path[|path| - 1], more, b)
    ensures Path(rule, path + more) && (path + more)[0] == path[0] && (path + more)[|path + more| - 1] == b
  {
    hide Filled, Turn;
    var all, tail := path + more, [path[|path| - 1]] + more;
    forall k | 0 <= k < |all| - 1
      ensures Filled(all[k], all[k + 1]) || Turn(rule, all[k], all[k + 1])
    {
      if k >= |path| - 1 {
        var m := k - (|path| - 1);
        assert tail[m] == all[k] && tail[m + 1] == all[k + 1];
      }
    }
  }
}
