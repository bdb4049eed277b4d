/**
 What codes cost: the sum of weight times length, for lengths that leave room for a prefix code, and why joining the two lightest
 parts loses nothing.
 */
module CodeCost {
  import opened Bits
  import opened KraftSum

  /** The sum of weight times length. */
  ghost function TotalCost(ws: seq<int>, ls: seq<nat>): int
    requires |ws| == |ls|
  {
    if ws == [] then 0 else TotalCost(ws[..|ws| - 1], ls[..|ls| - 1]) + ws[|ws| - 1] * ls[|ls| - 1]
  }

  /** The lengths of a prefix code for these weights that no other prefix code undercuts. */
  ghost predicate Optimal(ws: seq<int>, ls: seq<nat>) {
    && |ls| == |ws| && Kraft(ls) <= 1.0
    && forall l: seq<nat> :: |l| == |ws| && Kraft(l) <= 1.0 ==> TotalCost(ws, ls) <= TotalCost(ws, l)
  }

  // Lengths for the parts that are still to be joined.

  /** The cost of the parts that are live. */
  ghost function Cost(live: seq<bool>, w: seq<int>, m: seq<nat>): int
    requires |live| == |w| == |m|
  {
    if m == [] then 0
    else
      var k := |m| - 1;
      Cost(live[..k], w[..k], m[..k]) + if live[k] then w[k] * m[k] else 0
  }

  /** How much of 2 to the power big the live parts use up; longer ones than big count nothing. */
  ghost function Space(live: seq<bool>, m: seq<nat>, big: nat): nat
    requires |live| == |m|
  {
    if m == [] then 0
    else
      var k := |m| - 1;
      Space(live[..k], m[..k], big) + if live[k] && m[k] <= big then Pow2(big - m[k]) else 0
  }

  ghost predicate Fit(live: seq<bool>, m: seq<nat>, big: nat) {
    |live| == |m| && (forall i :: 0 <= i < |m| && live[i] ==> m[i] <= big) && Space(live, m, big) <= Pow2(big)
  }

  lemma FitIs(live: seq<bool>, m: seq<nat>, big: nat)
    ensures Fit(live, m, big) <==>
              |live| == |m| && (forall i :: 0 <= i < |m| && live[i] ==> m[i] <= big) && Space(live, m, big) <= Pow2(big)
  {
  }

  /** One length is changed. */
  lemma {:induction false} CostChanged(live: seq<bool>, w: seq<int>, m: seq<nat>, i: nat, n: nat)
    requires |live| == |w| == |m| && i < |m| && live[i]
    ensures Cost(live, w, m[i := n]) == Cost(live, w, m) + w[i] * n - w[i] * m[i]
  {
    var k := |m| - 1;
    if i < k {
      CostChanged(live[..k], w[..k], m[..k], i, n);
      assert m[i := n][..k] == m[..k][i := n];
    } else {
      assert m[i := n][..k] == m[..k];
    }
  }

  lemma {:induction false} SpaceChanged(live: seq<bool>, m: seq<nat>, big: nat, i: nat, n: nat)
    requires |live| == |m| && i < |m| && live[i] && m[i] <= big && n <= big
    ensures Space(live, m[i := n], big) == Space(live, m, big) + Pow2(big - n) - Pow2(big - m[i])
  {
    hide Pow2;
    var k := |m| - 1;
    if i < k {
      SpaceChanged(live[..k], m[..k], big, i, n);
      assert m[i := n][..k] == m[..k][i := n];
    } else {
      assert m[i := n][..k] == m[..k];
    }
  }

  /** A part that is live no longer. */
  lemma {:induction false} PartTaken(live: seq<bool>, w: seq<int>, m: seq<nat>, big: nat, i: nat)
    requires |live| == |w| == |m| && i < |m| && live[i] && m[i] <= big
    ensures Cost(live[i := false], w, m) == Cost(live, w, m) - w[i] * m[i]
    ensures Space(live[i := false], m, big) == Space(live, m, big) - Pow2(big - m[i])
  {
    hide Pow2;
    var k := |m| - 1;
    if i < k {
      PartTaken(live[..k], w[..k], m[..k], big, i);
      assert live[i := false][..k] == live[..k][i := false];
    } else {
      assert live[i := false][..k] == live[..k];
    }
  }

  lemma PartAdded(live: seq<bool>, w: seq<int>, m: seq<nat>, big: nat, v: int, n: nat)
    requires |live| == |w| == |m| && n <= big
    ensures Cost(live + [true], w + [v], m + [n]) == Cost(live, w, m) + v * n
    ensures Space(live + [true], m + [n], big) == Space(live, m, big) + Pow2(big - n)
  {
    var k := |m|;
    assert (live + [true])[..k] == live && (w + [v])[..k] == w && (m + [n])[..k] == m;
  }

  /** If no live part has the greatest length, it can be one less. */
  lemma {:induction false} Halved(live: seq<bool>, m: seq<nat>, big: nat)
    requires |live| == |m| && big > 0 && forall i :: 0 <= i < |m| && live[i] ==> m[i] < big
    ensures Space(live, m, big) == 2 * Space(live, m, big - 1)
  {
    if m != [] {
      Halved(live[..|m| - 1], m[..|m| - 1], big);
    }
  }

  /** If exactly one has it, the space used is odd. */
  lemma OddSpace(live: seq<bool>, m: seq<nat>, big: nat, p: nat)
    requires |live| == |m| && big > 0 && p < |m| && live[p] && m[p] == big
    requires forall i :: 0 <= i < |m| && live[i] && i != p ==> m[i] < big
    ensures Space(live, m, big) % 2 == 1
  {
    PartTaken(live, seq(|m|, _ => 0), m, big, p);
    Halved(live[p := false], m, big);
  }

  /** Which parts are lightest. */
  ghost predicate LightTwo(live: seq<bool>, w: seq<int>, x: nat, y: nat) {
    && |live| == |w| && x < |w| && y < |w| && x != y && live[x] && live[y] && w[x] <= w[y]
    && (forall i :: 0 <= i < |w| && live[i] ==> 0 <= w[i])
    && forall i :: 0 <= i < |w| && live[i] && i != x ==> w[y] <= w[i]
  }

  /** Two lengths are exchanged so that the lighter part has the longer one: this does not cost more. */
  lemma Exchange(live: seq<bool>, w: seq<int>, m: seq<nat>, big: nat, x: nat, p: nat) returns (m': seq<nat>)
    requires |live| == |w| && Fit(live, m, big) && x < |m| && p < |m| && x != p && live[x] && live[p] && w[x] <= w[p] && m[x] <= m[p]
    ensures m' == m[x := m[p]][p := m[x]] && Fit(live, m', big) && Cost(live, w, m') <= Cost(live, w, m)
  {
    hide *;
    FitIs(live, m, big);
    m' := m[x := m[p]][p := m[x]];
    FitIs(live, m', big);
    CostChanged(live, w, m, x, m[p]);
    CostChanged(live, w, m[x := m[p]], p, m[x]);
    SpaceChanged(live, m, big, x, m[p]);
    SpaceChanged(live, m[x := m[p]], big, p, m[x]);
    Saved(w[x], w[p], m[x], m[p]);
  }

  lemma Saved(v: int, w: int, a: nat, b: nat)
    requires v <= w && a <= b
    ensures v * b - v * a + w * a - w * b <= 0
  {
    assert (w - v) * (b - a) >= 0;
    assert (w - v) * (b - a) == w * b - w * a - v * b + v * a;
  }

  /**
   The two lightest parts can be made one without paying more: for any lengths that fit there are lengths that fit when x and y are
   joined, and the join costs their weights.
   */
  lemma Merge(live: seq<bool>, w: seq<int>, m: seq<nat>, big: nat, x: nat, y: nat) returns (m': seq<nat>, big': nat)
    requires Fit(live, m, big) && LightTwo(live, w, x, y)
    ensures |m'| == |m| + 1 && Fit(live[x := false][y := false] + [true], m', big')
    ensures Cost(live[x := false][y := false] + [true], w + [w[x] + w[y]], m') + w[x] + w[y] <= Cost(live, w, m)
    decreases big
  {
    if big == 0 { TwoLong(live, m, x, y); }
    if p :| 0 <= p < |m| && live[p] && m[p] == big {
      if q :| 0 <= q < |m| && live[q] && m[q] == big && q != p {
        var n := MakeLongest(live, w, m, big, x, y, p, q);
        m', big' := JoinPair(live, w, n, big, x, y);
      } else {
        var n := ShortenOne(live, w, m, big, p);
        m', big' := Merge(live, w, n, big - 1, x, y);
      }
    } else {
      EvenPower(big);
      Halved(live, m, big);
      m', big' := Merge(live, w, m, big - 1, x, y);
    }
  }

  /** The only part of the greatest length can be one shorter. */
  lemma ShortenOne(live: seq<bool>, w: seq<int>, m: seq<nat>, big: nat, p: nat) returns (n: seq<nat>)
    requires |live| == |w| && Fit(live, m, big) && big > 0 && p < |m| && live[p] && m[p] == big && 0 <= w[p]
    requires forall i :: 0 <= i < |m| && live[i] && i != p ==> m[i] < big
    ensures |n| == |m| && Fit(live, n, big - 1) && Cost(live, w, n) <= Cost(live, w, m)
  {
    hide Space, Cost, Pow2;
    OddSpace(live, m, big, p);
    SpaceChanged(live, m, big, p, big - 1);
    CostChanged(live, w, m, p, big - 1);
    Shorter(w[p], big);
    n := m[p := big - 1];
    EvenPower(big);
    Halved(live, n, big);
  }

  lemma EvenPower(n: nat)
    requires n > 0
    ensures Pow2(n) == 2 * Pow2(n - 1) && Pow2(0) == 1 && Pow2(1) == 2
  {
  }

  lemma Shorter(w: int, n: nat)
    requires 0 <= w && n > 0
    ensures w * (n - 1) <= w * n
  {
  }

  lemma TwoLong(live: seq<bool>, m: seq<nat>, x: nat, y: nat)
    requires |live| == |m| && x < |m| && y < |m| && x != y && live[x] && live[y]
    ensures !Fit(live, m, 0)
  {
    if m[x] == 0 && m[y] == 0 {
      var w := seq(|m|, _ => 0);
      PartTaken(live, w, m, 0, x);
      PartTaken(live[x := false], w, m, 0, y);
    }
  }

  /** The two lightest parts get the greatest length, which two parts have. */
  lemma MakeLongest(live: seq<bool>, w: seq<int>, m: seq<nat>, big: nat, x: nat, y: nat, p: nat, q: nat) returns (n: seq<nat>)
    requires Fit(live, m, big) && LightTwo(live, w, x, y)
    requires p < |m| && q < |m| && p != q && live[p] && live[q] && m[p] == m[q] == big
    ensures Fit(live, n, big) && |n| == |m| && n[x] == n[y] == big && Cost(live, w, n) <= Cost(live, w, m)
  {
    n := m;
    var p', q' := p, q;
    if p == y || q == x { p', q' := q, p; }
    if n[x] < big { n := Exchange(live, w, n, big, x, p'); }
    if n[y] < big {
      var z := if p' == x || n[p'] < big then q' else p';
      n := Exchange(live, w, n, big, y, z);
    }
  }

  /** Two parts of the greatest length become one that is one shorter. */
  lemma JoinPair(live: seq<bool>, w: seq<int>, m: seq<nat>, big: nat, x: nat, y: nat) returns (m': seq<nat>, big': nat)
    requires |live| == |w| && Fit(live, m, big) && x < |m| && y < |m| && x != y && live[x] && live[y] && big > 0
    requires m[x] == m[y] == big
    ensures |m'| == |m| + 1 && Fit(live[x := false][y := false] + [true], m', big')
    ensures Cost(live[x := false][y := false] + [true], w + [w[x] + w[y]], m') + w[x] + w[y] == Cost(live, w, m)
  {
    hide *;
    FitIs(live, m, big);
    var l := live[x := false][y := false];
    PartTaken(live, w, m, big, x);
    PartTaken(live[x := false], w, m, big, y);
    PartAdded(l, w, m, big, w[x] + w[y], big - 1);
    EvenPower(big);
    m', big' := m + [big - 1], big;
    FitIs(l + [true], m', big);
    OneShorter(w[x], w[y], big);
  }

  lemma OneShorter(v: int, w: int, n: nat)
    requires n > 0
    ensures (v + w) * (n - 1) + v + w == v * n + w * n
  {
  }

  // From the Kraft sum to the space used and back to the cost.

  /** All parts are live: the lengths of a code. */
  ghost function AllLive(n: nat): (live: seq<bool>)
    ensures |live| == n && forall i :: 0 <= i < n ==> live[i]
  {
    seq(n, _ => true)
  }

  lemma {:induction false} SpaceIsKraft(ls: seq<nat>, big: nat)
    requires forall i :: 0 <= i < |ls| ==> ls[i] <= big
    ensures Space(AllLive(|ls|), ls, big) as real == Kraft(ls) * Pow2(big) as real
  {
    hide *;
    if ls == [] {
      NoSpace(ls, big);
    } else {
      var k := |ls| - 1;
      SpaceIsKraft(ls[..k], big);
      LastSpace(ls, big);
      HalfOf(ls[k], big);
      Distributes(Kraft(ls[..k]), Half(ls[k]), Pow2(big) as real);
    }
  }

  lemma NoSpace(ls: seq<nat>, big: nat)
    requires ls == []
    ensures Space(AllLive(|ls|), ls, big) == 0 && Kraft(ls) == 0.0
  {
  }

  lemma LastSpace(ls: seq<nat>, big: nat)
    requires ls != [] && ls[|ls| - 1] <= big
    ensures var k := |ls| - 1;
            Space(AllLive(|ls|), ls, big) == Space(AllLive(k), ls[..k], big) + Pow2(big - ls[k]) && Kraft(ls) == Kraft(ls[..k]) + Half(ls[k])
  {
    hide Half, Pow2;
    assert AllLive(|ls|)[..|ls| - 1] == AllLive(|ls| - 1);
  }

  lemma Distributes(a: real, b: real, c: real)
    ensures (a + b) * c == a * c + b * c
  {
  }

  lemma {:induction false} HalfOf(n: nat, big: nat)
    requires n <= big
    ensures Pow2(big - n) as real == Half(n) * Pow2(big) as real
    decreases n
  {
    if n > 0 {
      HalfOf(n - 1, big);
      assert Pow2(big - (n - 1)) == 2 * Pow2(big - n);
    }
  }

  lemma {:induction false} CostOfAll(ws: seq<int>, ls: seq<nat>)
    requires |ws| == |ls|
    ensures Cost(AllLive(|ls|), ws, ls) == TotalCost(ws, ls)
  {
    if ls != [] {
      var k := |ls| - 1;
      CostOfAll(ws[..k], ls[..k]);
      assert AllLive(|ls|)[..k] == AllLive(k);
    }
  }

  ghost function Longest(ls: seq<nat>): (n: nat)
    ensures forall i :: 0 <= i < |ls| ==> ls[i] <= n
  {
    if ls == [] then 0
    else
      var n := Longest(ls[..|ls| - 1]);
      assert forall i :: 0 <= i < |ls| - 1 ==> ls[i] == ls[..|ls| - 1][i];
      if n < ls[|ls| - 1] then ls[|ls| - 1] else n
  }

  lemma KraftFits(ls: seq<nat>)
    requires Kraft(ls) <= 1.0
    ensures Fit(AllLive(|ls|), ls, Longest(ls))
  {
    hide Kraft, Space, Pow2;
    var big := Longest(ls);
    SpaceIsKraft(ls, big);
    assert Kraft(ls) * Pow2(big) as real <= Pow2(big) as real;
  }

  // What joining has cost so far.

  /** For the code l there are lengths for the live parts, which with what has been spent cost no more. */
  ghost predicate Undercut(live: seq<bool>, w: seq<int>, spent: int, ws: seq<int>, l: seq<nat>)
    requires |l| == |ws|
  {
    exists m: seq<nat>, big: nat :: |live| == |w| == |m| && Fit(live, m, big) && Cost(live, w, m) + spent <= TotalCost(ws, l)
  }

  ghost predicate Frugal(live: seq<bool>, w: seq<int>, spent: int, ws: seq<int>) {
    forall l: seq<nat> :: |l| == |ws| && Kraft(l) <= 1.0 ==> Undercut(live, w, spent, ws, l)
  }

  lemma FrugalStart(ws: seq<int>)
    ensures Frugal(AllLive(|ws|), ws, 0, ws)
  {
    forall l: seq<nat> | |l| == |ws| && Kraft(l) <= 1.0
      ensures Undercut(AllLive(|ws|), ws, 0, ws, l)
    {
      KraftFits(l);
      CostOfAll(ws, l);
    }
  }

  lemma FrugalStep(live: seq<bool>, w: seq<int>, spent: int, ws: seq<int>, x: nat, y: nat)
    requires Frugal(live, w, spent, ws) && LightTwo(live, w, x, y)
    ensures Frugal(live[x := false][y := false] + [true], w + [w[x] + w[y]], spent + w[x] + w[y], ws)
  {
    var live', w' := live[x := false][y := false] + [true], w + [w[x] + w[y]];
    forall l: seq<nat> | |l| == |ws| && Kraft(l) <= 1.0
      ensures Undercut(live', w', spent + w[x] + w[y], ws, l)
    {
      hide Cost, Fit, TotalCost, Kraft, LightTwo;
      assert Undercut(live, w, spent, ws, l);
      var m: seq<nat>, big: nat :| |live| == |w| == |m| && Fit(live, m, big) && Cost(live, w, m) + spent <= TotalCost(ws, l);
      var m', big' := Merge(live, w, m, big, x, y);
    }
  }

  /** When everything has been spent, no code costs less. */
  lemma FrugalEnd(live: seq<bool>, w: seq<int>, spent: int, ws: seq<int>, l: seq<nat>)
    requires Frugal(live, w, spent, ws) && |l| == |ws| && Kraft(l) <= 1.0 && |live| == |w|
    requires forall i :: 0 <= i < |w| && live[i] ==> 0 <= w[i]
    ensures spent <= TotalCost(ws, l)
  {
    hide Kraft, Fit, TotalCost, Cost;
    assert Undercut(live, w, spent, ws, l);
    var m: seq<nat>, big: nat :| |live| == |w| == |m| && Fit(live, m, big) && Cost(live, w, m) + spent <= TotalCost(ws, l);
    CostPositive(live, w, m);
  }

  lemma {:induction false} CostPositive(live: seq<bool>, w: seq<int>, m: seq<nat>)
    requires |live| == |w| == |m| && forall i :: 0 <= i < |w| && live[i] ==> 0 <= w[i]
    ensures 0 <= Cost(live, w, m)
  {
    if m != [] {
      var k := |m| - 1;
      CostPositive(live[..k], w[..k], m[..k]);
      assert live[k] ==> 0 <= w[k] * m[k];
    }
  }
}
